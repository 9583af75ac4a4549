/** The test tool's preview of segmentation masks: colour choice, the walk
    over a volume's images that cuts each image's slice out of every mask
    buffer, the in-place recolouring of the selected pixels, and the final
    size check. Pixel decoding, the blending arithmetic, the seeded random
    generator and the PNG writer are collaborators. */
module MaskOverlay {
  import opened Common
  import opened Manifest

  // ---------------------------------------------------------------------
  // get_colors

  datatype Rgb = Rgb(r: int, g: int, b: int)

  /** The six fixed colours: red, green, blue, yellow, magenta, cyan. */
  const Palette: seq<Rgb> :=
    [Rgb(1, 0, 0), Rgb(0, 1, 0), Rgb(0, 0, 1), Rgb(1, 1, 0), Rgb(1, 0, 1), Rgb(0, 1, 1)]

  function Scale(c: Rgb, m: int): Rgb
  {
    Rgb(c.r * m, c.g * m, c.b * m)
  }

  /** `get_colors(index, max_value)`. `randint(seed, high)` stands for
      `RandomState(seed).randint(0, high, 3)`, which rejects an empty range. */
  function GetColors(index: nat, maxValue: nat, randint: (nat, nat) -> Rgb): (c: Result<Rgb>)
    ensures index < |Palette| ==> c.Ok?
    ensures index < |Palette| ==>
              c.value.r in {0, maxValue} && c.value.g in {0, maxValue} && c.value.b in {0, maxValue}
    ensures index >= |Palette| && maxValue > 0 ==> c == Ok(randint(index, maxValue))
    ensures index >= |Palette| && maxValue == 0 ==> c == Err(ValueError)
  {
    if index < |Palette| then Ok(Scale(Palette[index], maxValue))
    else if maxValue == 0 then Err(ValueError)
    else Ok(randint(index, maxValue))
  }

  predicate InRange(c: Rgb, m: int)
  {
    0 <= c.r < m && 0 <= c.g < m && 0 <= c.b < m
  }

  /** Every channel lies in [0, max_value]: 0 or max_value for the fixed
      colours, below max_value for the seeded ones when the generator keeps
      to its range. */
  lemma ColorChannels(index: nat, maxValue: nat, randint: (nat, nat) -> Rgb)
    requires GetColors(index, maxValue, randint).Ok?
    requires index >= |Palette| ==> InRange(randint(index, maxValue), maxValue)
    ensures var c := GetColors(index, maxValue, randint).value;
            0 <= c.r <= maxValue && 0 <= c.g <= maxValue && 0 <= c.b <= maxValue
    ensures index >= |Palette| ==> InRange(GetColors(index, maxValue, randint).value, maxValue)
  {
  }

  // ---------------------------------------------------------------------
  // Selecting and recolouring pixels

  /** A preview image: its path and its timepoint. */
  datatype OverlayImage = OverlayImage(path: string, timepoint: Option<nat>)

  /** The decoded file: `Rows`, `Columns`, the largest value of the pixel
      type, and the RGB pixels in row-major order. */
  datatype Dicom<P> = Dicom(rows: nat, columns: nat, maxValue: nat, pixels: seq<P>)

  predicate Selected(mask: seq<byte>, i: int)
    requires 0 <= i < |mask|
  {
    mask[i] > 128
  }

  /** `pixels[image_mask > 128] = blend(pixels[image_mask > 128], colour)`. */
  function Overlay<P>(px: seq<P>, mask: seq<byte>, color: Rgb, blend: (P, Rgb) -> P): (r: seq<P>)
    requires |mask| == |px|
    ensures |r| == |px|
  {
    seq(|px|, i requires 0 <= i < |px| => if Selected(mask, i) then blend(px[i], color) else px[i])
  }

  /** Only pixels whose mask value exceeds 128 change, each to the blend of
      itself with the colour; every other pixel keeps its value. */
  lemma OverlaySelects<P>(px: seq<P>, mask: seq<byte>, color: Rgb, blend: (P, Rgb) -> P, i: nat)
    requires |mask| == |px| && i < |px|
    ensures mask[i] <= 128 ==> Overlay(px, mask, color, blend)[i] == px[i]
    ensures mask[i] > 128 ==> Overlay(px, mask, color, blend)[i] == blend(px[i], color)
  {
    assert Overlay(px, mask, color, blend)[i] == if Selected(mask, i) then blend(px[i], color) else px[i];
  }

  /** The boolean-index assignment, done in place. */
  method ApplyMask<P>(pixels: array<P>, mask: seq<byte>, color: Rgb, blend: (P, Rgb) -> P)
    requires |mask| == pixels.Length
    modifies pixels
    ensures pixels[..] == Overlay(old(pixels[..]), mask, color, blend)
  {
    ghost var before := pixels[..];
    var i := 0;
    while i < pixels.Length
      invariant 0 <= i <= pixels.Length
      invariant forall j :: 0 <= j < i ==> pixels[j] == Overlay(before, mask, color, blend)[j]
      invariant forall j :: i <= j < pixels.Length ==> pixels[j] == before[j]
    {
      assert Overlay(before, mask, color, blend)[i] == if Selected(mask, i) then blend(before[i], color) else before[i];
      if mask[i] > 128 {
        pixels[i] := blend(pixels[i], color);
      }
      i := i + 1;
    }
  }

  /** Python slicing `s[lo:hi]`, which clamps both ends to the length. */
  function Slice<T>(s: seq<T>, lo: nat, hi: nat): (r: seq<T>)
    ensures |r| <= |s|
    ensures lo <= hi && hi <= |s| ==> r == s[lo..hi]
  {
    var a := if lo <= |s| then lo else |s|;
    var b := if hi <= |s| then hi else |s|;
    if a <= b then s[a..b] else []
  }

  /** The inner loop over `zip(masks, parts)` for one image, from mask
      index k on: each mask's slice for the image must match the pixel
      count (AssertionError), each part must have a `binary_type`
      (KeyError), and every binary type is drawn alike. */
  function MaskLayers<P>(px: seq<P>, masks: seq<seq<byte>>, parts: seq<Part>, k: nat, offset: nat, area: nat,
                         maxValue: nat, randint: (nat, nat) -> Rgb, blend: (P, Rgb) -> P): (r: Result<seq<P>>)
    ensures r.Ok? ==> |r.value| == |px|
    decreases |masks| - k
  {
    if k >= |masks| || k >= |parts| then Ok(px)
    else
      var cut := Slice(masks[k], offset, offset + area);
      if |cut| != |px| then Err(AssertionError)
      else if parts[k].binaryType.None? then Err(KeyError)
      else
        match GetColors(k, maxValue, randint)
        case Err(e) => Err(e)
        case Ok(c) => MaskLayers(Overlay(px, cut, c, blend), masks, parts, k + 1, offset, area, maxValue, randint, blend)
  }

  /** The body of the inner loop for mask k: the slice of the mask for this
      image, the size assertion, the `binary_type` lookup, the colour and
      the recolouring of the selected pixels. */
  method DrawMask<P>(pixels: array<P>, masks: seq<seq<byte>>, parts: seq<Part>, k: nat, offset: nat, area: nat,
                     maxValue: nat, randint: (nat, nat) -> Rgb, blend: (P, Rgb) -> P)
    returns (failure: Option<Error>)
    requires k < |masks| && k < |parts|
    modifies pixels
    ensures failure.Some? ==>
              MaskLayers(old(pixels[..]), masks, parts, k, offset, area, maxValue, randint, blend) == Err(failure.value)
    ensures failure.None? ==>
              MaskLayers(old(pixels[..]), masks, parts, k, offset, area, maxValue, randint, blend) ==
              MaskLayers(pixels[..], masks, parts, k + 1, offset, area, maxValue, randint, blend)
  {
    var cut := Slice(masks[k], offset, offset + area);
    if |cut| != pixels.Length {
      return Some(AssertionError);
    }
    if parts[k].binaryType == Some("probability_mask") {
      var c := GetColors(k, maxValue, randint);
      if c.Err? {
        return Some(c.error);
      }
      ApplyMask(pixels, cut, c.value, blend);
    } else if parts[k].binaryType.None? {
      return Some(KeyError);
    } else {
      var c := GetColors(k, maxValue, randint);
      if c.Err? {
        return Some(c.error);
      }
      ApplyMask(pixels, cut, c.value, blend);
    }
    failure := None;
  }

  /** The inner loop on the image's pixel array. */
  method ApplyMasks<P>(pixels: array<P>, masks: seq<seq<byte>>, parts: seq<Part>, offset: nat, area: nat,
                       maxValue: nat, randint: (nat, nat) -> Rgb, blend: (P, Rgb) -> P)
    returns (failure: Option<Error>)
    modifies pixels
    ensures failure.None? <==> MaskLayers(old(pixels[..]), masks, parts, 0, offset, area, maxValue, randint, blend).Ok?
    ensures failure.None? ==>
              pixels[..] == MaskLayers(old(pixels[..]), masks, parts, 0, offset, area, maxValue, randint, blend).value
    ensures failure.Some? ==>
              failure.value == MaskLayers(old(pixels[..]), masks, parts, 0, offset, area, maxValue, randint, blend).error
  {
    var k := 0;
    while k < |masks| && k < |parts|
      invariant 0 <= k
      invariant MaskLayers(old(pixels[..]), masks, parts, 0, offset, area, maxValue, randint, blend) ==
                MaskLayers(pixels[..], masks, parts, k, offset, area, maxValue, randint, blend)
      decreases |masks| - k
    {
      failure := DrawMask(pixels, masks, parts, k, offset, area, maxValue, randint, blend);
      if failure.Some? {
        return;
      }
      k := k + 1;
    }
    failure := None;
  }

  // ---------------------------------------------------------------------
  // The offset bookkeeping

  /** The collaborators of the preview: decoding a file and the blending. */
  datatype Env<!P> = Env(load: string -> Dicom<P>, baseName: string -> string,
                        randint: (nat, nat) -> Rgb, blend: (P, Rgb) -> P)

  function Area<P>(img: OverlayImage, env: Env<P>): nat
  {
    env.load(img.path).rows * env.load(img.path).columns
  }

  /** The walk's bookkeeping: `offset` into every mask buffer and
      `last_timepoint`. */
  datatype Cursor = Cursor(offset: nat, last: Option<nat>)

  /** The bookkeeping once image `img` is reached: a known timepoint
      different from the last one restarts the offset. */
  function Reset(img: OverlayImage, at: Cursor): Cursor
  {
    if img.timepoint.Some? && at.last != img.timepoint then Cursor(0, img.timepoint) else at
  }

  /** The bookkeeping once image `img` has been drawn. */
  function Advance<P>(img: OverlayImage, env: Env<P>, at: Cursor): Cursor
  {
    var st := Reset(img, at);
    Cursor(st.offset + Area(img, env), st.last)
  }

  /** `(offset, last_timepoint)` after the first k images. */
  function StateAfter<P>(images: seq<OverlayImage>, env: Env<P>, k: nat): Cursor
    requires k <= |images|
  {
    if k == 0 then Cursor(0, None) else Advance(images[k - 1], env, StateAfter(images, env, k - 1))
  }

  /** The most recent known timepoint among the first k images. */
  function LastSeen(images: seq<OverlayImage>, k: nat): Option<nat>
    requires k <= |images|
  {
    if k == 0 then None
    else if images[k - 1].timepoint.Some? then images[k - 1].timepoint
    else LastSeen(images, k - 1)
  }

  /** Image j starts a new run: its timepoint is known and differs from the
      most recent one before it. */
  predicate StartsRun(images: seq<OverlayImage>, j: nat)
    requires j < |images|
  {
    images[j].timepoint.Some? && images[j].timepoint != LastSeen(images, j)
  }

  /** The start of the run holding image k-1: the last image before k that
      starts a run, or 0. */
  function RunStart(images: seq<OverlayImage>, k: nat): (s: nat)
    requires k <= |images|
    ensures s <= k
  {
    if k == 0 then 0
    else if StartsRun(images, k - 1) then k - 1
    else RunStart(images, k - 1)
  }

  /** The run start is the last image before k that starts a run; no image
      after it does. */
  lemma {:induction false} RunStartIsLast(images: seq<OverlayImage>, k: nat)
    requires k <= |images|
    ensures 0 < RunStart(images, k) ==> RunStart(images, k) < k && StartsRun(images, RunStart(images, k))
    ensures forall j :: RunStart(images, k) < j < k ==> !StartsRun(images, j)
  {
    if k > 0 && !StartsRun(images, k - 1) {
      RunStartIsLast(images, k - 1);
    }
  }

  function AreaSum<P>(images: seq<OverlayImage>, env: Env<P>): nat
  {
    if |images| == 0 then 0 else AreaSum(images[..|images| - 1], env) + Area(images[|images| - 1], env)
  }

  lemma {:induction false} LastTimepointIsLastSeen<P>(images: seq<OverlayImage>, env: Env<P>, k: nat)
    requires k <= |images|
    ensures StateAfter(images, env, k).last == LastSeen(images, k)
  {
    if k > 0 {
      LastTimepointIsLastSeen(images, env, k - 1);
    }
  }

  lemma AreaSumSnoc<P>(images: seq<OverlayImage>, env: Env<P>, s: nat, k: nat)
    requires s <= k < |images|
    ensures AreaSum(images[s..k + 1], env) == AreaSum(images[s..k], env) + Area(images[k], env)
  {
    assert images[s..k + 1][..k - s] == images[s..k];
  }

  lemma AreaSumOne<P>(images: seq<OverlayImage>, env: Env<P>, j: nat)
    requires j < |images|
    ensures AreaSum(images[j..j + 1], env) == Area(images[j], env)
  {
    var one := images[j..j + 1];
    assert one[..0] == [] && one[0] == images[j];
  }

  /** Image k-1 restarts the offset exactly when it starts a run. */
  lemma OffsetStep<P>(images: seq<OverlayImage>, env: Env<P>, k: nat)
    requires 0 < k <= |images|
    requires StateAfter(images, env, k - 1).last == LastSeen(images, k - 1)
    ensures StartsRun(images, k - 1) ==> StateAfter(images, env, k).offset == Area(images[k - 1], env)
    ensures !StartsRun(images, k - 1) ==>
              StateAfter(images, env, k).offset == StateAfter(images, env, k - 1).offset + Area(images[k - 1], env)
  {
  }

  /** The offset after k images is the pixel count of the images since the
      last timepoint change: the whole volume without timepoints, one
      timepoint's volume with them. */
  lemma {:induction false} OffsetIsRunVolume<P>(images: seq<OverlayImage>, env: Env<P>, k: nat)
    requires k <= |images|
    ensures StateAfter(images, env, k).offset == AreaSum(images[RunStart(images, k)..k], env)
  {
    if k > 0 {
      var before := StateAfter(images, env, k - 1).offset;
      if StartsRun(images, k - 1) {
        assert StateAfter(images, env, k).offset == Area(images[k - 1], env) by {
          LastTimepointIsLastSeen(images, env, k - 1);
          OffsetStep(images, env, k);
        }
        assert RunStart(images, k) == k - 1;
        AreaSumOne(images, env, k - 1);
      } else {
        assert StateAfter(images, env, k).offset == before + Area(images[k - 1], env) by {
          LastTimepointIsLastSeen(images, env, k - 1);
          OffsetStep(images, env, k);
        }
        OffsetIsRunVolume(images, env, k - 1);
        assert RunStart(images, k) == RunStart(images, k - 1);
        AreaSumSnoc(images, env, RunStart(images, k - 1), k - 1);
      }
    }
  }

  lemma {:induction false} NoTimepointsNoRuns(images: seq<OverlayImage>, k: nat)
    requires k <= |images|
    requires forall j :: 0 <= j < |images| ==> images[j].timepoint.None?
    ensures RunStart(images, k) == 0
  {
    if k > 0 {
      NoTimepointsNoRuns(images, k - 1);
    }
  }

  /** Without timepoints the offset never resets, and after the walk every
      mask must hold the whole volume. */
  lemma OffsetWithoutTimepoints<P>(images: seq<OverlayImage>, env: Env<P>)
    requires forall j :: 0 <= j < |images| ==> images[j].timepoint.None?
    ensures StateAfter(images, env, |images|).offset == AreaSum(images, env)
  {
    NoTimepointsNoRuns(images, |images|);
    OffsetIsRunVolume(images, env, |images|);
    assert images[0..|images|] == images;
  }

  // ---------------------------------------------------------------------
  // generate_images_with_masks

  /** A written preview: `"{index}_{basename}.png"` and its pixels. */
  datatype Output<P> = Output(name: string, pixels: seq<P>)

  /** What a run leaves behind: the previews written, in order, and the
      exception that ended it, if any. Files written before an exception
      stay written. */
  datatype Run<P> = Run(written: seq<Output<P>>, failure: Option<Error>)

  function After<P>(out: Output<P>, rest: Run<P>): Run<P>
  {
    Run([out] + rest.written, rest.failure)
  }

  function PixelsOf<P>(img: OverlayImage, env: Env<P>): seq<P>
  {
    env.load(img.path).pixels
  }

  /** The final check: every mask holds exactly `offset` values. */
  predicate MasksFit(masks: seq<seq<byte>>, offset: nat)
  {
    forall i :: 0 <= i < |masks| ==> |masks[i]| == offset
  }

  /** The loop over the images from image k on, with the offset and last
      timepoint reached so far and the previews already written. */
  function MasksFrom<P>(images: seq<OverlayImage>, masks: seq<seq<byte>>, parts: seq<Part>, env: Env<P>,
                        k: nat, at: Cursor, done: seq<Output<P>>): Run<P>
    requires k <= |images|
    decreases |images| - k
  {
    if k == |images| then Run(done, if MasksFit(masks, at.offset) then None else Some(AssertionError))
    else
      var img := images[k];
      match Preview(img, k, masks, parts, env, Reset(img, at).offset)
      case Err(e) => Run(done, Some(e))
      case Ok(out) => MasksFrom(images, masks, parts, env, k + 1, Advance(img, env, at), done + [out])
  }

  /** The preview of image number k, its slices read at `offset`. */
  function Preview<P>(img: OverlayImage, k: nat, masks: seq<seq<byte>>, parts: seq<Part>, env: Env<P>,
                      offset: nat): Result<Output<P>>
  {
    var d := env.load(img.path);
    match MaskLayers(d.pixels, masks, parts, 0, offset, Area(img, env), d.maxValue, env.randint, env.blend)
    case Err(e) => Err(e)
    case Ok(px) => Ok(Output(OutputName(k, env.baseName(img.path)), px))
  }

  /** One pass of the outer loop's body: decode, draw every mask, name. */
  method PreviewImage<P>(img: OverlayImage, k: nat, masks: seq<seq<byte>>, parts: seq<Part>, env: Env<P>,
                         offset: nat) returns (r: Result<Output<P>>)
    ensures r == Preview(img, k, masks, parts, env, offset)
  {
    var dcm := env.load(img.path);
    var pixels := new P[|dcm.pixels|](i requires 0 <= i < |dcm.pixels| => dcm.pixels[i]);
    assert pixels[..] == dcm.pixels;
    var failure := ApplyMasks(pixels, masks, parts, offset, dcm.rows * dcm.columns, dcm.maxValue, env.randint, env.blend);
    if failure.Some? {
      return Err(failure.value);
    }
    r := Ok(Output(OutputName(k, env.baseName(img.path)), pixels[..]));
  }

  /** The closing loop `assert mask.shape[0] == offset` over every mask. */
  method CheckMaskSizes(masks: seq<seq<byte>>, offset: nat) returns (fit: bool)
    ensures fit == MasksFit(masks, offset)
  {
    fit := true;
    var m := 0;
    while m < |masks|
      invariant 0 <= m <= |masks|
      invariant fit <==> forall i :: 0 <= i < m ==> |masks[i]| == offset
    {
      if |masks[m]| != offset {
        fit := false;
      }
      m := m + 1;
    }
  }

  function AfterAll<P>(done: seq<Output<P>>, rest: Run<P>): Run<P>
  {
    Run(done + rest.written, rest.failure)
  }

  /** One image of the walk: reset, preview, then stop on an exception. */
  lemma MasksFromStop<P>(images: seq<OverlayImage>, masks: seq<seq<byte>>, parts: seq<Part>, env: Env<P>,
                         k: nat, at: Cursor, done: seq<Output<P>>, e: Error)
    requires k < |images|
    requires Preview(images[k], k, masks, parts, env, Reset(images[k], at).offset) == Err(e)
    ensures MasksFrom(images, masks, parts, env, k, at, done) == Run(done, Some(e))
  {
  }

  /** One image of the walk: reset, preview, and go on with the next image
      from the state reached. */
  lemma MasksFromNext<P>(images: seq<OverlayImage>, masks: seq<seq<byte>>, parts: seq<Part>, env: Env<P>,
                         k: nat, at: Cursor, done: seq<Output<P>>, at': Cursor, done': seq<Output<P>>)
    requires k < |images|
    requires var p := Preview(images[k], k, masks, parts, env, Reset(images[k], at).offset);
             && p.Ok?
             && at' == Advance(images[k], env, at)
             && done' == done + [p.value]
    ensures MasksFrom(images, masks, parts, env, k, at, done) == MasksFrom(images, masks, parts, env, k + 1, at', done')
  {
  }

  /** The body of the outer loop for image `index`: the timepoint check,
      the preview, and the step of the offset. */
  method DrawImage<P>(images: seq<OverlayImage>, masks: seq<seq<byte>>, parts: seq<Part>, env: Env<P>,
                      index: nat, offset: nat, lastTimepoint: Option<nat>, written: seq<Output<P>>)
    returns (failure: Option<Error>, offset': nat, lastTimepoint': Option<nat>, written': seq<Output<P>>)
    requires index < |images|
    ensures failure.Some? ==> written' == written
    ensures failure.Some? ==>
              MasksFrom(images, masks, parts, env, index, Cursor(offset, lastTimepoint), written) == Run(written, failure)
    ensures failure.None? ==>
              MasksFrom(images, masks, parts, env, index, Cursor(offset, lastTimepoint), written) ==
              MasksFrom(images, masks, parts, env, index + 1, Cursor(offset', lastTimepoint'), written')
  {
    var image := images[index];
    offset', lastTimepoint' := offset, lastTimepoint;
    if image.timepoint.Some? && lastTimepoint' != image.timepoint {
      offset' := 0;
      lastTimepoint' := image.timepoint;
    }
    var out := PreviewImage(image, index, masks, parts, env, offset');
    if out.Err? {
      MasksFromStop(images, masks, parts, env, index, Cursor(offset, lastTimepoint), written, out.error);
      return Some(out.error), offset', lastTimepoint', written;
    }
    failure := None;
    written' := written + [out.value];
    offset' := offset' + Area(image, env);
    MasksFromNext(images, masks, parts, env, index, Cursor(offset, lastTimepoint), written,
                  Cursor(offset', lastTimepoint'), written');
  }

  /** `generate_images_with_masks` on images and mask buffers already in
      memory. */
  method GenerateImagesWithMasks<P>(images: seq<OverlayImage>, masks: seq<seq<byte>>, parts: seq<Part>, env: Env<P>)
    returns (run: Run<P>)
    ensures run == MasksFrom(images, masks, parts, env, 0, Cursor(0, None), [])
  {
    var written: seq<Output<P>> := [];
    var offset: nat := 0;
    var lastTimepoint: Option<nat> := None;
    var index := 0;
    while index < |images|
      invariant 0 <= index <= |images|
      invariant MasksFrom(images, masks, parts, env, 0, Cursor(0, None), []) ==
                MasksFrom(images, masks, parts, env, index, Cursor(offset, lastTimepoint), written)
    {
      var failure;
      failure, offset, lastTimepoint, written := DrawImage(images, masks, parts, env, index, offset, lastTimepoint, written);
      if failure.Some? {
        return Run(written, failure);
      }
      index := index + 1;
    }
    var fit := CheckMaskSizes(masks, offset);
    run := Run(written, if fit then None else Some(AssertionError));
  }

  /** A walk that raises nothing found every mask exactly as long as the
      images since the last timepoint change: with timepoints, one
      timepoint's volume rather than the whole series. */
  lemma MasksFitLastRun<P>(images: seq<OverlayImage>, masks: seq<seq<byte>>, parts: seq<Part>, env: Env<P>)
    requires MasksFrom(images, masks, parts, env, 0, Cursor(0, None), []).failure.None?
    ensures |MasksFrom(images, masks, parts, env, 0, Cursor(0, None), []).written| == |images|
    ensures MasksFit(masks, AreaSum(images[RunStart(images, |images|)..], env))
  {
    MasksEnd(images, masks, parts, env, 0, Cursor(0, None), []);
    OffsetIsRunVolume(images, env, |images|);
    assert images[RunStart(images, |images|)..|images|] == images[RunStart(images, |images|)..];
  }

  /** A run that raises nothing wrote one preview per image, named by its
      index, and ended at the offset of the bookkeeping. */
  lemma {:induction false} MasksEnd<P>(images: seq<OverlayImage>, masks: seq<seq<byte>>, parts: seq<Part>,
                                       env: Env<P>, k: nat, at: Cursor, done: seq<Output<P>>)
    requires k <= |images|
    requires at == StateAfter(images, env, k)
    ensures MasksFrom(images, masks, parts, env, k, at, done).failure.None? ==>
              && |MasksFrom(images, masks, parts, env, k, at, done).written| == |done| + |images| - k
              && MasksFit(masks, StateAfter(images, env, |images|).offset)
    decreases |images| - k
  {
    if k < |images| {
      var img := images[k];
      var out := Preview(img, k, masks, parts, env, Reset(img, at).offset);
      if out.Ok? {
        MasksEnd(images, masks, parts, env, k + 1, Advance(img, env, at), done + [out.value]);
      }
    }
  }

  function Min(a: nat, b: nat): nat
  {
    if a <= b then a else b
  }

  /** `zip(masks, parts)` stops at the shorter list: entries past it play
      no part. */
  lemma {:induction false} MaskLayersZip<P>(px: seq<P>, masks: seq<seq<byte>>, parts: seq<Part>, k: nat, offset: nat,
                                            area: nat, maxValue: nat, randint: (nat, nat) -> Rgb, blend: (P, Rgb) -> P)
    requires k <= Min(|masks|, |parts|)
    ensures var n := Min(|masks|, |parts|);
            MaskLayers(px, masks, parts, k, offset, area, maxValue, randint, blend) ==
            MaskLayers(px, masks[..n], parts[..n], k, offset, area, maxValue, randint, blend)
    decreases |masks| - k
  {
    var n := Min(|masks|, |parts|);
    if k < n {
      var cut := Slice(masks[k], offset, offset + area);
      assert masks[..n][k] == masks[k] && parts[..n][k] == parts[k];
      if |cut| == |px| && parts[k].binaryType.Some? && GetColors(k, maxValue, randint).Ok? {
        MaskLayersZip(Overlay(px, cut, GetColors(k, maxValue, randint).value, blend), masks, parts, k + 1,
                      offset, area, maxValue, randint, blend);
      }
    }
  }

  /** A pixel that no mask's slice selects comes out of the inner loop
      unchanged. */
  lemma {:induction false} MaskLayersKeep<P>(px: seq<P>, masks: seq<seq<byte>>, parts: seq<Part>, k: nat, offset: nat,
                                             area: nat, maxValue: nat, randint: (nat, nat) -> Rgb, blend: (P, Rgb) -> P,
                                             j: nat)
    requires MaskLayers(px, masks, parts, k, offset, area, maxValue, randint, blend).Ok? && j < |px|
    requires forall m :: k <= m < Min(|masks|, |parts|) ==>
               j < |Slice(masks[m], offset, offset + area)| ==> Slice(masks[m], offset, offset + area)[j] <= 128
    ensures MaskLayers(px, masks, parts, k, offset, area, maxValue, randint, blend).value[j] == px[j]
    decreases |masks| - k
  {
    if k < |masks| && k < |parts| {
      var cut := Slice(masks[k], offset, offset + area);
      var c := GetColors(k, maxValue, randint).value;
      OverlaySelects(px, cut, c, blend, j);
      MaskLayersKeep(Overlay(px, cut, c, blend), masks, parts, k + 1, offset, area, maxValue, randint, blend, j);
    }
  }

  // ---------------------------------------------------------------------
  // generate_images_for_single_image_masks

  /** The loop over `zip(images, masks)` from pair k on: mask i belongs to
      image i alone, always in colour 0. */
  function SingleFrom<P>(images: seq<OverlayImage>, masks: seq<seq<byte>>, env: Env<P>, k: nat): Run<P>
    decreases |images| - k
  {
    if k >= |images| || k >= |masks| then Run([], None)
    else
      match SinglePreview(images[k], k, masks[k], env)
      case Err(e) => Run([], Some(e))
      case Ok(out) => After(out, SingleFrom(images, masks, env, k + 1))
  }

  function SinglePreview<P>(img: OverlayImage, k: nat, mask: seq<byte>, env: Env<P>): Result<Output<P>>
  {
    var d := env.load(img.path);
    if |mask| != |d.pixels| then Err(AssertionError)
    else Ok(Output(OutputName(k, env.baseName(img.path)), Overlay(d.pixels, mask, Scale(Palette[0], d.maxValue), env.blend)))
  }

  method SingleImage<P>(img: OverlayImage, k: nat, mask: seq<byte>, env: Env<P>) returns (r: Result<Output<P>>)
    ensures r == SinglePreview(img, k, mask, env)
  {
    var dcm := env.load(img.path);
    var pixels := new P[|dcm.pixels|](i requires 0 <= i < |dcm.pixels| => dcm.pixels[i]);
    assert pixels[..] == dcm.pixels;
    if |mask| != pixels.Length {
      return Err(AssertionError);
    }
    var color := GetColors(0, dcm.maxValue, env.randint);
    ApplyMask(pixels, mask, color.value, env.blend);
    r := Ok(Output(OutputName(k, env.baseName(img.path)), pixels[..]));
  }

  method GenerateImagesForSingleImageMasks<P>(images: seq<OverlayImage>, masks: seq<seq<byte>>, env: Env<P>)
    returns (run: Run<P>)
    ensures run == SingleFrom(images, masks, env, 0)
  {
    var written: seq<Output<P>> := [];
    var index := 0;
    assert [] + SingleFrom(images, masks, env, 0).written == SingleFrom(images, masks, env, 0).written;
    while index < |images| && index < |masks|
      invariant 0 <= index
      invariant SingleFrom(images, masks, env, 0) == AfterAll(written, SingleFrom(images, masks, env, index))
      decreases |images| - index
    {
      var out := SingleImage(images[index], index, masks[index], env);
      if out.Err? {
        assert written + [] == written;
        return Run(written, Some(out.error));
      }
      AppendAssoc(written, [out.value], SingleFrom(images, masks, env, index + 1).written);
      written := written + [out.value];
      index := index + 1;
    }
    assert written + [] == written;
    run := Run(written, None);
  }

  lemma {:induction false} SingleLength<P>(images: seq<OverlayImage>, masks: seq<seq<byte>>, env: Env<P>, k: nat)
    requires k <= Min(|images|, |masks|)
    requires SingleFrom(images, masks, env, k).failure.None?
    ensures |SingleFrom(images, masks, env, k).written| == Min(|images|, |masks|) - k
    decreases |images| - k
  {
    if k < Min(|images|, |masks|) {
      SingleLength(images, masks, env, k + 1);
    }
  }

  /** Without a size mismatch there is one preview per (image, mask) pair,
      pair i drawing mask i over image i in the first palette colour. */
  lemma {:induction false} SingleOutputAt<P>(images: seq<OverlayImage>, masks: seq<seq<byte>>, env: Env<P>, k: nat, i: nat)
    requires k <= i < Min(|images|, |masks|)
    requires SingleFrom(images, masks, env, k).failure.None?
    ensures |SingleFrom(images, masks, env, k).written| == Min(|images|, |masks|) - k
    ensures |masks[i]| == |PixelsOf(images[i], env)|
    ensures SingleFrom(images, masks, env, k).written[i - k] ==
            Output(OutputName(i, env.baseName(images[i].path)),
                   Overlay(PixelsOf(images[i], env), masks[i],
                           Scale(Palette[0], env.load(images[i].path).maxValue), env.blend))
    decreases i - k
  {
    SingleLength(images, masks, env, k);
    var out := SinglePreview(images[k], k, masks[k], env);
    assert out.Ok?;
    if k < i {
      SingleOutputAt(images, masks, env, k + 1, i);
      assert SingleFrom(images, masks, env, k) == After(out.value, SingleFrom(images, masks, env, k + 1));
    }
  }
}
