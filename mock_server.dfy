/** The packaged mock model: canned classification and bounding-box replies,
    a 3-D probability mask that grows from the image centre slice by slice,
    and one empty 2-D mask per instance. Reading a DICOM file is a
    collaborator; the model receives the attributes it reads. */
module MockServer {
  import opened Common
  import opened Manifest
  import opened Sorting
  import BoxOverlay
  import LabelOverlay
  import F = Binary64

  /** The attributes the mock model reads from an instance with `pydicom`. */
  datatype Instance = Instance(seriesUid: string, sopUid: string, rows: nat, columns: nat)

  /** A returned numpy `uint8` buffer: a (depth, rows, columns) volume or a
      (rows, columns) plane. */
  datatype Mask = Volume(voxels: array3<byte>) | Plane(pixels: array2<byte>)

  /** What a model handler returns: the JSON manifest and the buffers. */
  datatype Reply = Reply(json: Response, masks: seq<Mask>)

  const MockLabel := "Mock seg"
  const ProbabilityMask := "probability_mask"

  /** `get_empty_response`. */
  function EmptyReply(): Reply
  {
    Reply(EmptyResponse([]), [])
  }

  /** The series labels of the canned classification, values as `str()`
      renders them; `nested_labels` is a dict rendered whole. */
  const MockSeriesLabels: Labels :=
    [("label", "healthy"), ("value", "0.9"),
     ("nested_labels", "{'condition1': '0.9', 'condition2': '0.2', 'condition3': '0.22'}")]

  const MockStudyLabels: Labels := [("label1", "condition1"), ("label2", "condition2")]

  /** `get_classification_response`: labels for the first instance's series
      and for the study; an empty instance list fails on `dicom_instances[0]`. */
  function ClassificationReply(instances: seq<Instance>): Result<Reply>
  {
    if |instances| == 0 then Err(IndexError)
    else Ok(Reply(Response("1.0", [], None, Some(map[instances[0].seriesUid := MockSeriesLabels]), Some(MockStudyLabels)), []))
  }

  /** `get_bounding_box_2d_response`: one box on the first instance. */
  function BoundingBoxReply(instances: seq<Instance>): Result<Reply>
  {
    if |instances| == 0 then Err(IndexError)
    else Ok(Reply(Response("1.0", [], Some([Box("super bbox", instances[0].sopUid, Point(5, 5), Point(10, 10))]), None, None), []))
  }

  /** The manifest part of the 3-D response: one timepoint, as deep as the
      instance list, as wide and high as the first instance. */
  function VolumePart(instances: seq<Instance>, seriesUid: Option<string>): Part
    requires |instances| > 0
  {
    Part(MockLabel, Some(ProbabilityMask),
         Some(Shape(Some(1), Some(|instances|), instances[0].columns, instances[0].rows)),
         seriesUid, None, None)
  }

  /** The manifest part of one 2-D mask: the instance's size and its
      `dicom_image.SOPInstanceUID`. */
  function PlanePart(instance: Instance): Part
  {
    Part(MockLabel, Some(ProbabilityMask), Some(Shape(None, None, instance.columns, instance.rows)),
         None, None, Some(instance.sopUid))
  }

  /** `int(size / 2)`: the size halved in floating point, then truncated. */
  function Midpoint(size: nat): nat
  {
    F.Trunc(F.Round(size as real / 2.0))
  }

  /** `int(s / depth * mid)`: the float quotient `s / depth` times the float
      `mid`, truncated. */
  function Offset(s: nat, depth: nat, mid: nat): nat
    requires depth > 0
  {
    F.Trunc(F.Times(F.Quotient(s, depth), F.Round(mid as real)))
  }

  /** Slice s lights `[mid_y - oy, mid_y + oy) x [mid_x - ox, mid_x + ox)`. */
  predicate Lit(depth: nat, rows: nat, columns: nat, s: nat, y: int, x: int)
    requires depth > 0
  {
    var midY, midX := Midpoint(rows), Midpoint(columns);
    var oy, ox := Offset(s, depth, midY), Offset(s, depth, midX);
    midY - oy <= y < midY + oy && midX - ox <= x < midX + ox
  }

  function Voxel(depth: nat, rows: nat, columns: nat, s: nat, y: int, x: int): byte
    requires depth > 0
  {
    if Lit(depth, rows, columns, s, y, x) then 255 else 0
  }

  /** The mask holds exactly the growing rectangles. */
  ghost predicate IsGrowingMask(mask: array3<byte>, depth: nat, rows: nat, columns: nat)
    reads mask
  {
    && mask.Length0 == depth && mask.Length1 == rows && mask.Length2 == columns
    && forall s, y, x :: 0 <= s < depth && 0 <= y < rows && 0 <= x < columns ==>
         mask[s, y, x] == Voxel(depth, rows, columns, s, y, x)
  }

  /** Below 2^53 the float midpoint is the integer one. */
  lemma MidpointHalf(size: nat)
    requires size < 0x20_0000_0000_0000
    ensures Midpoint(size) == size / 2
  {
    F.HalfTruncated(size);
  }

  /** The midpoint is itself a float, so `s / depth * mid` multiplies by it
      exactly. */
  lemma MidpointExact(size: nat)
    ensures F.Round(Midpoint(size) as real) == Midpoint(size) as real
  {
    F.TruncExact(size as real / 2.0);
  }

  /** The offsets never pass the midpoint, for an image of any size. */
  lemma OffsetBound(s: nat, depth: nat, size: nat)
    requires s < depth
    ensures Offset(s, depth, Midpoint(size)) <= Midpoint(size)
  {
    F.QuotientBelowOne(s, depth);
    MidpointExact(size);
    F.TimesAtMost(F.Quotient(s, depth), Midpoint(size) as real);
  }

  /** The offsets grow with the slice index. */
  lemma OffsetMonotone(s: nat, t: nat, depth: nat, mid: nat)
    requires s <= t && depth > 0
    ensures Offset(s, depth, mid) <= Offset(t, depth, mid)
  {
    F.QuotientMono(s, t, depth);
    F.TimesMono(F.Quotient(s, depth), F.Quotient(t, depth), F.Round(mid as real));
  }

  /** Slice 0 lights nothing. */
  lemma OffsetZero(depth: nat, mid: nat)
    requires depth > 0
    ensures Offset(0, depth, mid) == 0
  {
    F.QuotientZero(depth);
    F.TimesZero(F.Round(mid as real));
  }

  /** The powers of two the next lemma rounds with. */
  lemma Powers()
    ensures F.Pow2Nat(47) == 0x8000_0000_0000 && F.Pow2Nat(53) == 0x20_0000_0000_0000
  {
    assert F.Pow2Nat(10) == 1024;
    F.Pow2NatTimes(10, 10, 1024);
    F.Pow2NatTimes(20, 10, 1024);
    F.Pow2NatTimes(30, 10, 1024);
    F.Pow2NatTimes(40, 7, 128);
    F.Pow2NatTimes(40, 10, 1024);
    F.Pow2NatTimes(50, 3, 8);
  }

  /** Python computes `7 / 10 * 90` as 62.99999999999999, so that offset is
      one less than the exact quotient 63. */
  lemma FloatOffset(s: nat, depth: nat, mid: nat)
    requires s == 7 && depth == 10 && mid == 90
    ensures Offset(s, depth, mid) == 62 && s * mid / depth == 63
  {
    var a := 6305039478318694.0 / 9007199254740992.0;
    var v := 8866461766385663.0 / 140737488355328.0;
    assert F.Quotient(s, depth) == a by {
      Powers();
      QuotientAt(s, depth, 53, 9007199254740992.0, 6305039478318694);
    }
    assert F.Times(a, mid as real) == v by {
      Powers();
      ProductAt(a, mid as real, 47, 140737488355328.0, 8866461766385663);
    }
    OffsetOf(s, depth, mid, a, v, 62);
  }

  /** Offset from the float quotient a and the rounded product v. */
  lemma OffsetOf(s: nat, depth: nat, mid: nat, a: real, v: real, r: nat)
    requires depth > 0 && mid <= 0x20_0000_0000_0000 && a >= 0.0
    requires F.Quotient(s, depth) == a && F.Times(a, mid as real) == v
    requires r as real <= v < (r + 1) as real
    ensures Offset(s, depth, mid) == r
  {
    F.RoundNat(mid);
  }

  /** `s / depth` rounds to n / p when (s / depth) * p, p = 2^j, is a
      mantissa plus less than a half; the bounds are stated multiplied out. */
  lemma QuotientAt(s: nat, depth: nat, j: nat, p: real, n: int)
    requires depth > 0 && p == F.Pow2Nat(j) as real
    requires F.Half * depth as real <= s as real * p < F.Big * depth as real
    requires n as real * depth as real <= s as real * p < (n as real + 0.5) * depth as real
    ensures F.Quotient(s, depth) == n as real / p
  {
    RoundQuotient(s as real, depth as real, j, p, n as real);
  }

  lemma RoundQuotient(u: real, d: real, j: nat, p: real, n: real)
    requires d > 0.0 && p == F.Pow2Nat(j) as real && n == n.Floor as real
    requires F.Half * d <= u * p < F.Big * d
    requires n * d <= u * p < (n + 0.5) * d
    ensures u / d >= 0.0 && F.Round(u / d) == n / p
  {
    var x := u / d;
    assert F.Half <= x * p < F.Big by { QuotientBounds(u, d, p, F.Half, F.Big); }
    assert n <= x * p < n + 0.5 by { QuotientBounds(u, d, p, n, n + 0.5); }
    F.RoundAt(x, j, p, n.Floor);
  }

  lemma QuotientBounds(s: real, d: real, p: real, lo: real, hi: real)
    requires d > 0.0 && lo * d <= s * p < hi * d
    ensures lo <= s / d * p < hi
  {
    assert s / d * p == s * p / d;
  }

  /** `a * b` rounds to m / q when (a * b) * q, q = 2^k, is a mantissa plus
      less than a half. */
  lemma ProductAt(a: real, b: real, k: nat, q: real, m: int)
    requires a >= 0.0 && b >= 0.0 && q == F.Pow2Nat(k) as real
    requires F.Half <= a * b * q < F.Big
    requires m as real <= a * b * q < m as real + 0.5
    ensures F.Times(a, b) == m as real / q
  {
    F.RoundAt(a * b, k, q, m);
  }

  /** The start of each rectangle stays inside the image, for any size, and
      below 2^53 so does its stop: no negative index wraps around and no index
      passes the edge. */
  lemma RectangleInImage(s: nat, depth: nat, size: nat)
    requires s < depth
    ensures 0 <= Midpoint(size) - Offset(s, depth, Midpoint(size))
    ensures size < 0x20_0000_0000_0000 ==> Midpoint(size) + Offset(s, depth, Midpoint(size)) <= size
  {
    OffsetBound(s, depth, size);
    if size < 0x20_0000_0000_0000 {
      MidpointHalf(size);
    }
  }

  /** Slice 0 is dark, and each slice's lit rectangle contains the one before:
      the mask grows outwards from the centre. */
  lemma RectanglesNested(depth: nat, rows: nat, columns: nat, s: nat, t: nat, y: int, x: int)
    requires s <= t < depth
    ensures !Lit(depth, rows, columns, 0, y, x)
    ensures Lit(depth, rows, columns, s, y, x) ==> Lit(depth, rows, columns, t, y, x)
  {
    OffsetZero(depth, Midpoint(rows));
    OffsetZero(depth, Midpoint(columns));
    OffsetMonotone(s, t, depth, Midpoint(rows));
    OffsetMonotone(s, t, depth, Midpoint(columns));
  }

  /** `mask[s][ogrid[y0:y1, x0:x1]] = 255`, one row. */
  method FillRow(mask: array3<byte>, s: nat, y: nat, x0: nat, x1: nat)
    requires s < mask.Length0 && y < mask.Length1 && x1 <= mask.Length2
    modifies mask
    ensures forall t, v, x :: 0 <= t < mask.Length0 && 0 <= v < mask.Length1 && 0 <= x < mask.Length2 ==>
              mask[t, v, x] == if t == s && v == y && x0 <= x < x1 then 255 else old(mask[t, v, x])
  {
    var x := x0;
    while x < x1
      invariant x0 <= x && (x <= x1 || x == x0)
      invariant forall t, v, w :: 0 <= t < mask.Length0 && 0 <= v < mask.Length1 && 0 <= w < mask.Length2 ==>
                  mask[t, v, w] == if t == s && v == y && x0 <= w < x then 255 else old(mask[t, v, w])
    {
      mask[s, y, x] := 255;
      x := x + 1;
    }
  }

  /** `mask[s][ogrid[y0:y1, x0:x1]] = 255`. */
  method FillRectangle(mask: array3<byte>, s: nat, y0: nat, y1: nat, x0: nat, x1: nat)
    requires s < mask.Length0 && y1 <= mask.Length1 && x1 <= mask.Length2
    modifies mask
    ensures forall t, y, x :: 0 <= t < mask.Length0 && 0 <= y < mask.Length1 && 0 <= x < mask.Length2 ==>
              mask[t, y, x] == if t == s && y0 <= y < y1 && x0 <= x < x1 then 255 else old(mask[t, y, x])
  {
    var y := y0;
    while y < y1
      invariant y0 <= y && (y <= y1 || y == y0)
      invariant forall t, v, x :: 0 <= t < mask.Length0 && 0 <= v < mask.Length1 && 0 <= x < mask.Length2 ==>
                  mask[t, v, x] == if t == s && y0 <= v < y && x0 <= x < x1 then 255 else old(mask[t, v, x])
    {
      FillRow(mask, s, y, x0, x1);
      y := y + 1;
    }
  }

  /** The fill loop of the 3-D response on a fresh zero volume. */
  method GrowingMask(depth: nat, rows: nat, columns: nat) returns (mask: array3<byte>)
    ensures fresh(mask)
    ensures IsGrowingMask(mask, depth, rows, columns)
  {
    mask := new byte[depth, rows, columns]((s, y, x) => 0);
    var midX, midY := Midpoint(columns), Midpoint(rows);
    var s := 0;
    while s < depth
      invariant s <= depth
      invariant forall t, y, x :: 0 <= t < depth && 0 <= y < rows && 0 <= x < columns ==>
                  mask[t, y, x] == if t < s then Voxel(depth, rows, columns, t, y, x) else 0
    {
      var offsetX := Offset(s, depth, midX);
      var offsetY := Offset(s, depth, midY);
      RectangleInImage(s, depth, rows);
      RectangleInImage(s, depth, columns);
      // the stops are clipped to the image, which changes nothing below 2^53
      var stopY := if midY + offsetY <= rows then midY + offsetY else rows;
      var stopX := if midX + offsetX <= columns then midX + offsetX else columns;
      FillRectangle(mask, s, midY - offsetY, stopY, midX - offsetX, stopX);
      s := s + 1;
    }
  }

  /** `get_probability_mask_3d_response`: one part and one volume as deep as
      the instance list, sized by the first instance. */
  method ProbabilityMask3d(instances: seq<Instance>) returns (r: Result<Reply>)
    ensures |instances| == 0 <==> r == Err(IndexError)
    ensures r.Ok? ==> r.value.json == Response("1.0", [VolumePart(instances, Some(instances[0].seriesUid))], None, None, None)
    ensures r.Ok? ==> |r.value.masks| == 1 && r.value.masks[0].Volume?
    ensures r.Ok? ==> var mask := r.value.masks[0].voxels;
                      fresh(mask) && IsGrowingMask(mask, |instances|, instances[0].rows, instances[0].columns)
  {
    if |instances| == 0 {
      return Err(IndexError);
    }
    var dcm := instances[0];
    var depth := |instances|;
    var json := Response("1.0", [VolumePart(instances, Some(dcm.seriesUid))], None, None, None);
    var mask := GrowingMask(depth, dcm.rows, dcm.columns);
    r := Ok(Reply(json, [Volume(mask)]));
  }

  /** Each plane is a fresh all-zero array of the instance's size. */
  ghost predicate EmptyPlanes(masks: seq<Mask>, instances: seq<Instance>)
    reads set i | 0 <= i < |masks| && masks[i].Plane? :: masks[i].pixels
  {
    && |masks| == |instances|
    && forall i :: 0 <= i < |masks| ==>
         && masks[i].Plane?
         && masks[i].pixels.Length0 == instances[i].rows && masks[i].pixels.Length1 == instances[i].columns
         && forall y, x :: 0 <= y < instances[i].rows && 0 <= x < instances[i].columns ==> masks[i].pixels[y, x] == 0
  }

  /** `get_probability_mask_2d_response`: one part and one empty mask per
      instance, in instance order. */
  method ProbabilityMask2d(instances: seq<Instance>) returns (reply: Reply)
    ensures reply.json == Response("1.0", Map(instances, PlanePart), None, None, None)
    ensures EmptyPlanes(reply.masks, instances)
    ensures forall i :: 0 <= i < |reply.masks| ==> fresh(reply.masks[i].pixels)
  {
    var parts: seq<Part> := [];
    var masks: seq<Mask> := [];
    var i := 0;
    while i < |instances|
      invariant i <= |instances|
      invariant parts == Map(instances[..i], PlanePart)
      invariant EmptyPlanes(masks, instances[..i])
      invariant forall j :: 0 <= j < |masks| ==> fresh(masks[j].pixels)
    {
      var dcm := instances[i];
      parts := parts + [PlanePart(dcm)];
      var mask := new byte[dcm.rows, dcm.columns]((y, x) => 0);
      masks := masks + [Plane(mask)];
      i := i + 1;
    }
    assert instances[..i] == instances;
    reply := Reply(Response("1.0", parts, None, None, None), masks);
  }

  /** The empty, classification and bounding-box replies speak protocol
      `'1.0'` and carry no parts and no buffers. */
  lemma CannedRepliesHaveNoBuffers(instances: seq<Instance>)
    ensures forall r :: r in [Ok(EmptyReply()), ClassificationReply(instances), BoundingBoxReply(instances)] && r.Ok? ==>
              r.value.json.protocolVersion == "1.0" && r.value.json.parts == [] && r.value.masks == []
  {
  }

  /** The test tool draws the mock's box on the first instance, with the
      canned corners and the smallest font. */
  lemma MockBoxDrawnOnFirstImage(instances: seq<Instance>, path: string)
    requires |instances| > 0
    ensures var boxes := BoundingBoxReply(instances).value.json.boxes.value;
            && BoxOverlay.ImageBoxes(BoxOverlay.BoxImage(path, instances[0].sopUid), boxes) == boxes
            && BoxOverlay.Outline(boxes[0])[2] == Point(10, 10)
            && BoxOverlay.FontSize(boxes[0]) == 0
  {
    var boxes := BoundingBoxReply(instances).value.json.boxes.value;
    var p := SameKey(BoxOverlay.SopUid, instances[0].sopUid);
    assert Filter(boxes, p) == [boxes[0]] + Filter(boxes[1..], p);
  }

  /** The test tool lists the mock's series labels on every image of the
      first instance's series, below the three-line study block. */
  lemma MockLabelsListed(instances: seq<Instance>)
    requires |instances| > 0
    ensures var json := ClassificationReply(instances).value.json;
            && LabelOverlay.SeriesLabels(json, instances[0].seriesUid) == MockSeriesLabels
            && LabelOverlay.SeriesTop(json) == 30
  {
  }
}
