/** The older test tool's client (`upload_study_me`): choice of the inference
    command, numbering of the request fields, the checks on the multipart
    reply, and the re-ordering of 2-D images to follow the reply's parts.
    File reading, the HTTP post and the multipart wire format are
    collaborators passed in as functions. */
module UploadStudy {
  import opened Common
  import opened Sorting
  import opened Manifest
  import opened LegacySort
  import Gateway

  datatype ModelType = SegmentationModel | BoundingBox | OtherModel

  // ---------------------------------------------------------------------
  // Choice of the inference command

  /** The command sent for a model type, given the images after sorting. */
  function InferenceCommand(modelType: ModelType, images: seq<LegacyImage>): (r: Result<string>)
    ensures modelType == BoundingBox ==> r == Ok("get-bounding-box-2d")
    ensures modelType == OtherModel ==> r == Ok("other")
    ensures modelType == SegmentationModel && |images| == 0 ==> r == Err(IndexError)
    ensures modelType == SegmentationModel && |images| > 0 ==>
              r == Ok(if images[0].position.None? then "get-probability-mask-2D" else "get-probability-mask-3D")
  {
    match modelType
    case BoundingBox => Ok("get-bounding-box-2d")
    case SegmentationModel =>
      if |images| == 0 then Err(IndexError)
      else if images[0].position.None? then Ok("get-probability-mask-2D")
      else Ok("get-probability-mask-3D")
    case OtherModel => Ok("other")
  }

  /** Sorting never changes whether the first image has a position, so a
      segmentation study is sent as 2-D exactly when its first loaded image
      has none. */
  lemma CommandAfterSort(images: seq<LegacyImage>)
    requires SortImages(images).Ok?
    ensures InferenceCommand(SegmentationModel, SortImages(images).value) ==
              Ok(if images[0].position.None? then "get-probability-mask-2D" else "get-probability-mask-3D")
  {
    SortImagesOutcomes(images);
    if images[0].position.Some? && images[0].orientation.Some? {
      var sorted := SortImages(images).value;
      SortImagesOrdered(images);
      assert sorted[0] in multiset(images);
    }
  }

  // ---------------------------------------------------------------------
  // The request fields

  /** One entry of `file_dict`: `(field, (filename, data, content_type))`. */
  datatype UploadField = UploadField(name: string, fileName: string, content: Bytes, mime: string)

  /** The file system as the client sees it: the bytes of a file, its base
      name, and whether pydicom reads it. */
  datatype Files = Files(read: string -> Bytes, baseName: string -> string, isDicom: string -> bool)

  function AttachmentField(att: string, number: nat, fs: Files): UploadField
  {
    UploadField(NatToString(number), fs.baseName(att), fs.read(att), "application/octet-stream")
  }

  function ImageField(img: LegacyImage, number: nat, fs: Files): UploadField
  {
    UploadField(NatToString(number), fs.baseName(img.path), fs.read(img.path), "application/dicom")
  }

  function RequestJsonField(requestJson: Bytes): UploadField
  {
    UploadField("request_json", "request", requestJson, "text/json")
  }

  /** Attachment fields numbered from `first`. */
  function AttachmentFields(atts: seq<string>, first: nat, fs: Files): (r: seq<UploadField>)
    ensures |r| == |atts|
  {
    seq(|atts|, i requires 0 <= i < |atts| => AttachmentField(atts[i], first + i, fs))
  }

  /** Image fields numbered from `first`; an unreadable image is skipped
      without using a number. */
  function ImageFields(images: seq<LegacyImage>, first: nat, fs: Files): (r: seq<UploadField>)
    ensures |r| <= |images|
    decreases |images|
  {
    if |images| == 0 then []
    else if fs.isDicom(images[0].path) then [ImageField(images[0], first, fs)] + ImageFields(images[1..], first + 1, fs)
    else ImageFields(images[1..], first, fs)
  }

  function FileDictSpec(requestJson: Bytes, atts: seq<string>, images: seq<LegacyImage>, fs: Files): seq<UploadField>
  {
    [RequestJsonField(requestJson)] + AttachmentFields(atts, 1, fs) + ImageFields(images, |atts| + 1, fs)
  }

  /** The two counting loops and the final insertion of the JSON part at
      position 0. */
  method BuildFileDict(requestJson: Bytes, atts: seq<string>, images: seq<LegacyImage>, fs: Files)
    returns (fileDict: seq<UploadField>)
    ensures fileDict == FileDictSpec(requestJson, atts, images, fs)
  {
    fileDict := [];
    var count: nat := 0;
    assert atts[..0] == [];
    var i := 0;
    while i < |atts|
      invariant 0 <= i <= |atts| && count == i
      invariant fileDict == AttachmentFields(atts[..i], 1, fs)
    {
      count := count + 1;
      fileDict := fileDict + [AttachmentField(atts[i], count, fs)];
      i := i + 1;
    }
    assert atts[..i] == atts;
    var j := 0;
    assert images[0..] == images;
    while j < |images|
      invariant 0 <= j <= |images|
      invariant fileDict + ImageFields(images[j..], count + 1, fs) ==
                AttachmentFields(atts, 1, fs) + ImageFields(images, |atts| + 1, fs)
    {
      assert images[j..][1..] == images[j + 1..];
      if fs.isDicom(images[j].path) {
        count := count + 1;
        AppendAssoc(fileDict, [ImageField(images[j], count, fs)], ImageFields(images[j + 1..], count + 1, fs));
        fileDict := fileDict + [ImageField(images[j], count, fs)];
      }
      j := j + 1;
    }
    assert fileDict + [] == fileDict;
    fileDict := [RequestJsonField(requestJson)] + fileDict;
  }

  /** The readable images, in order. */
  predicate Readable(fs: Files, img: LegacyImage)
  {
    fs.isDicom(img.path)
  }

  lemma {:induction false} ImageFieldsNumbered(images: seq<LegacyImage>, first: nat, fs: Files)
    ensures |ImageFields(images, first, fs)| == |Filter(images, img => Readable(fs, img))|
    ensures forall k :: 0 <= k < |ImageFields(images, first, fs)| ==>
              ImageFields(images, first, fs)[k] ==
              ImageField(Filter(images, img => Readable(fs, img))[k], first + k, fs)
    decreases |images|
  {
    if |images| > 0 {
      ImageFieldsNumbered(images[1..], if fs.isDicom(images[0].path) then first + 1 else first, fs);
    }
  }

  /** The JSON part comes first; after it the fields are named "1", "2", ...
      without gaps: the attachments in argument order as octet streams, then
      exactly the readable images, in order, as DICOM. */
  lemma FileDictLayout(requestJson: Bytes, atts: seq<string>, images: seq<LegacyImage>, fs: Files)
    ensures var fd := FileDictSpec(requestJson, atts, images, fs);
            var readable := Filter(images, img => Readable(fs, img));
            && |fd| == 1 + |atts| + |readable|
            && fd[0] == UploadField("request_json", "request", requestJson, "text/json")
            && (forall k :: 1 <= k < |fd| ==> fd[k].name == NatToString(k))
            && (forall k :: 0 <= k < |atts| ==> fd[k + 1] == AttachmentField(atts[k], k + 1, fs))
            && (forall k :: 0 <= k < |readable| ==>
                  fd[1 + |atts| + k] == ImageField(readable[k], 1 + |atts| + k, fs))
  {
    ImageFieldsNumbered(images, |atts| + 1, fs);
  }

  /** `'multipart/related; ' + 'boundary="{}"'.format(boundary)`. */
  function ContentTypeHeader(boundary: string): string
  {
    "multipart/related; boundary=\"" + boundary + "\""
  }

  /** The header the client sends passes the gateway's content-type check. */
  lemma ContentTypeAccepted(boundary: string)
    ensures Gateway.StartsWith(ContentTypeHeader(boundary), "multipart/related")
  {
    assert ContentTypeHeader(boundary)[..17] == "multipart/related";
  }

  // ---------------------------------------------------------------------
  // Handling the reply

  datatype Reply = Reply(status: int, parts: seq<Bytes>)

  /** A status other than 200 ends the client with exit code 1. */
  function ExitCode(reply: Reply): (code: Option<int>)
    ensures code.Some? <==> reply.status != 200
    ensures code.Some? ==> code.value == 1
  {
    if reply.status != 200 then Some(1) else None
  }

  /** The segmentation check: one buffer per manifest part plus the JSON and
      digest parts, else AssertionError; the masks are the parts after the
      JSON one. */
  function SegmentationMasks(manifest: Response, replyParts: seq<Bytes>): (r: Result<seq<Bytes>>)
    ensures r.Ok? <==> |replyParts| == |manifest.parts| + 2
    ensures r.Err? ==> r.error == AssertionError
    ensures r.Ok? ==> |r.value| == |manifest.parts|
    ensures r.Ok? ==> forall i :: 0 <= i < |r.value| ==> r.value[i] == replyParts[i + 1]
  {
    var maskCount := |manifest.parts|;
    if maskCount != |replyParts| - 2 then Err(AssertionError)
    else Ok(replyParts[1..maskCount + 1])
  }

  /** The masks never include the JSON part nor the final digest part. */
  lemma MasksExcludeFraming(manifest: Response, replyParts: seq<Bytes>)
    requires SegmentationMasks(manifest, replyParts).Ok?
    ensures replyParts == [replyParts[0]] + SegmentationMasks(manifest, replyParts).value + [replyParts[|replyParts| - 1]]
  {
  }

  /** `'{}/output_masks_{}.npy'.format(folder, index + 1)`: 1-based names. */
  function MaskFileName(folder: string, index: nat): string
  {
    folder + "/output_masks_" + NatToString(index + 1) + ".npy"
  }

  /** The files written for the masks: one per mask, in order. */
  function MaskFiles(folder: string, masks: seq<Bytes>): (files: seq<(string, Bytes)>)
    ensures |files| == |masks|
    ensures forall i :: 0 <= i < |masks| ==> files[i] == (MaskFileName(folder, i), masks[i])
  {
    seq(|masks|, i requires 0 <= i < |masks| => (MaskFileName(folder, i), masks[i]))
  }

  /** Different masks go to different files. */
  lemma MaskFileNamesDistinct(folder: string, i: nat, j: nat)
    requires i != j
    ensures MaskFileName(folder, i) != MaskFileName(folder, j)
  {
    var a, b := MaskFileName(folder, i), MaskFileName(folder, j);
    var p := |folder + "/output_masks_"|;
    var si, sj := NatToString(i + 1), NatToString(j + 1);
    NatToStringInjective(i + 1, j + 1);
    assert a[p..] == si + ".npy" && b[p..] == sj + ".npy";
    if |si| == |sj| {
      assert a[p..][..|si|] == si && b[p..][..|sj|] == sj;
    } else {
      assert |a| == p + |si| + 4 && |b| == p + |sj| + 4;
    }
  }

  // ---------------------------------------------------------------------
  // 2-D re-ordering by SOPInstanceUID

  /** `next(img for img in images if img.instanceUID == id)`: the first
      image with the UID, if any. */
  function FirstWithUid(images: seq<LegacyImage>, id: string): (r: Option<nat>)
    ensures r.Some? ==> r.value < |images| && images[r.value].instanceUid == id &&
                        forall j :: 0 <= j < r.value ==> images[j].instanceUid != id
    ensures r.None? ==> forall j :: 0 <= j < |images| ==> images[j].instanceUid != id
    decreases |images|
  {
    if |images| == 0 then None
    else if images[0].instanceUid == id then Some(0)
    else
      match FirstWithUid(images[1..], id)
      case None => None
      case Some(k) =>
        assert images[k + 1] == images[1..][k];
        Some(k + 1)
  }

  /** `[part['dicom_image']['SOPInstanceUID'] for part in parts]`; a part
      without it raises KeyError. */
  function Identifiers(parts: seq<Part>): (r: Result<seq<string>>)
    ensures r.Ok? <==> forall i :: 0 <= i < |parts| ==> parts[i].dicomImageUid.Some?
    ensures r.Ok? ==> |r.value| == |parts|
    ensures r.Ok? ==> forall i :: 0 <= i < |parts| ==> r.value[i] == parts[i].dicomImageUid.value
  {
    if forall i :: 0 <= i < |parts| ==> parts[i].dicomImageUid.Some? then
      Ok(seq(|parts|, i requires 0 <= i < |parts| => parts[i].dicomImageUid.value))
    else Err(KeyError)
  }

  function ReorderSpec(images: seq<LegacyImage>, ids: seq<string>): Result<seq<LegacyImage>>
    decreases |ids|
  {
    if |ids| == 0 then Ok([])
    else
      match FirstWithUid(images, ids[0])
      case None => Err(StopIteration)
      case Some(k) =>
        match ReorderSpec(images, ids[1..])
        case Err(e) => Err(e)
        case Ok(rest) => Ok([images[k]] + rest)
  }

  /** The loop that builds `filtered_images`, one `next(...)` per UID. */
  method ReorderByUid(images: seq<LegacyImage>, ids: seq<string>) returns (r: Result<seq<LegacyImage>>)
    ensures r == ReorderSpec(images, ids)
  {
    var filtered: seq<LegacyImage> := [];
    var i := 0;
    ReorderStart(images, ids);
    assert ids[0..] == ids;
    while i < |ids|
      invariant 0 <= i <= |ids|
      invariant ReorderSpec(images, ids) == Gateway.Prepend(filtered, ReorderSpec(images, ids[i..]))
    {
      assert ids[i..][1..] == ids[i + 1..];
      var k := FirstWithUid(images, ids[i]);
      if k.None? {
        return Err(StopIteration);
      }
      Gateway.PrependPrepend(filtered, [images[k.value]], ReorderSpec(images, ids[i + 1..]));
      filtered := filtered + [images[k.value]];
      i := i + 1;
    }
    assert filtered + [] == filtered;
    r := Ok(filtered);
  }

  lemma ReorderStart(images: seq<LegacyImage>, ids: seq<string>)
    ensures Gateway.Prepend([], ReorderSpec(images, ids)) == ReorderSpec(images, ids)
  {
    if ReorderSpec(images, ids).Ok? {
      assert [] + ReorderSpec(images, ids).value == ReorderSpec(images, ids).value;
    }
  }

  /** The re-ordering succeeds exactly when every UID names a loaded image;
      then image i is the first loaded image carrying UID i. A missing UID
      raises StopIteration. */
  lemma {:induction false} ReorderCorrect(images: seq<LegacyImage>, ids: seq<string>)
    ensures ReorderSpec(images, ids).Ok? <==> forall i :: 0 <= i < |ids| ==> FirstWithUid(images, ids[i]).Some?
    ensures ReorderSpec(images, ids).Err? ==> ReorderSpec(images, ids).error == StopIteration
    ensures ReorderSpec(images, ids).Ok? ==>
              && |ReorderSpec(images, ids).value| == |ids|
              && forall i :: 0 <= i < |ids| ==>
                   && ReorderSpec(images, ids).value[i].instanceUid == ids[i]
                   && ReorderSpec(images, ids).value[i] == images[FirstWithUid(images, ids[i]).value]
    decreases |ids|
  {
    if |ids| > 0 {
      ReorderCorrect(images, ids[1..]);
      if FirstWithUid(images, ids[0]).Some? && !ReorderSpec(images, ids[1..]).Ok? {
        var i :| 0 <= i < |ids[1..]| && FirstWithUid(images, ids[1..][i]).None?;
        assert ids[i + 1] == ids[1..][i];
      }
    }
  }
}
