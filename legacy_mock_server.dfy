/** The older top-level mock model: a single handler that dispatches on
    `inference_command`, and a 3-D mask sized by the request rather than by
    the instances. The bounding-box, 2-D and empty replies are the packaged
    mock's. */
module LegacyMockServer {
  import opened Common
  import opened Manifest
  import opened Sorting
  import Mock = MockServer

  /** The keys of `json_input` that the handler reads; each may be absent. */
  datatype JsonInput = JsonInput(command: Option<string>, depth: Option<int>, height: Option<int>, width: Option<int>)

  const BoundingBoxCommand := "get-bounding-box-2d"
  const Mask3dCommand := "get-probability-mask-3D"
  const Mask2dCommand := "get-probability-mask-2D"

  /** `(json_input['depth'], json_input['height'], json_input['width'])` as a
      `numpy.zeros` shape: a missing key raises KeyError, a negative size
      ValueError. */
  function MaskShape(json: JsonInput): Result<(nat, nat, nat)>
  {
    if json.depth.None? || json.height.None? || json.width.None? then Err(KeyError)
    else if json.depth.value < 0 || json.height.value < 0 || json.width.value < 0 then Err(ValueError)
    else Ok((json.depth.value as nat, json.height.value as nat, json.width.value as nat))
  }

  /** `get_probability_mask_3D_response`: the manifest describes the
      instances, but the volume takes its size from `json_input`. */
  method ProbabilityMask3d(json: JsonInput, instances: seq<Mock.Instance>) returns (r: Result<Mock.Reply>)
    ensures |instances| == 0 ==> r == Err(IndexError)
    ensures |instances| > 0 && MaskShape(json).Err? ==> r == Err(MaskShape(json).error)
    ensures r.Ok? <==> |instances| > 0 && MaskShape(json).Ok?
    ensures r.Ok? ==> r.value.json == Response("1.0", [Mock.VolumePart(instances, None)], None, None, None)
    ensures r.Ok? ==> |r.value.masks| == 1 && r.value.masks[0].Volume?
    ensures r.Ok? ==> var (depth, height, width) := MaskShape(json).value;
                      var mask := r.value.masks[0].voxels;
                      fresh(mask) && Mock.IsGrowingMask(mask, depth, height, width)
  {
    if |instances| == 0 {
      return Err(IndexError);
    }
    var json' := Response("1.0", [Mock.VolumePart(instances, None)], None, None, None);
    var shape := MaskShape(json);
    if shape.Err? {
      return Err(shape.error);
    }
    var (depth, height, width) := shape.value;
    var mask := Mock.GrowingMask(depth, height, width);
    r := Ok(Mock.Reply(json', [Mock.Volume(mask)]));
  }

  /** `request_handler`: dispatch on `json_input['inference_command']`; any
      command it does not know gets the empty reply. */
  method RequestHandler(json: JsonInput, instances: seq<Mock.Instance>) returns (r: Result<Mock.Reply>)
    ensures json.command.None? ==> r == Err(KeyError)
    ensures json.command == Some(BoundingBoxCommand) ==> r == Mock.BoundingBoxReply(instances)
    ensures json.command == Some(Mask3dCommand) ==>
              (r.Ok? <==> |instances| > 0 && MaskShape(json).Ok?) &&
              (|instances| == 0 ==> r == Err(IndexError)) &&
              (|instances| > 0 && MaskShape(json).Err? ==> r == Err(MaskShape(json).error)) &&
              (r.Ok? ==> r.value.json == Response("1.0", [Mock.VolumePart(instances, None)], None, None, None)) &&
              (r.Ok? ==> |r.value.masks| == 1 && r.value.masks[0].Volume? &&
                         var (depth, height, width) := MaskShape(json).value;
                         fresh(r.value.masks[0].voxels) && Mock.IsGrowingMask(r.value.masks[0].voxels, depth, height, width))
    ensures json.command == Some(Mask2dCommand) ==>
              r.Ok? && r.value.json == Response("1.0", Map(instances, Mock.PlanePart), None, None, None) &&
              Mock.EmptyPlanes(r.value.masks, instances)
    ensures json.command.Some? && json.command.value !in {BoundingBoxCommand, Mask3dCommand, Mask2dCommand} ==>
              r == Ok(Mock.EmptyReply())
  {
    if json.command.None? {
      return Err(KeyError);
    }
    var command := json.command.value;
    if command == BoundingBoxCommand {
      r := Mock.BoundingBoxReply(instances);
    } else if command == Mask3dCommand {
      r := ProbabilityMask3d(json, instances);
    } else if command == Mask2dCommand {
      var reply := Mock.ProbabilityMask2d(instances);
      r := Ok(reply);
    } else {
      r := Ok(Mock.EmptyReply());
    }
  }

  /** The 3-D manifest and the volume can disagree: one instance, and a
      request asking for two slices, gives a manifest of depth 1 beside a
      volume of depth 2. */
  lemma ShapesCanDisagree()
    ensures var instances := [Mock.Instance("1.2.3", "1.2.3.4", 1, 1)];
            var json := JsonInput(Some(Mask3dCommand), Some(2), Some(1), Some(1));
            && Mock.VolumePart(instances, None).shape.value.depth == Some(1)
            && MaskShape(json) == Ok((2, 1, 1))
  {
  }
}
