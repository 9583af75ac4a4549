/** The test tool's preview of bounding boxes: for every image, the boxes
    addressed to its SOP instance are outlined and labelled, then taken out
    of the caller's list. Decoding, font metrics and the PNG writer are
    collaborators; a drawing is recorded as the strokes it is made of. */
module BoxOverlay {
  import opened Common
  import opened Sorting
  import opened Manifest

  /** An image of the preview: its path and its SOP instance UID. */
  datatype BoxImage = BoxImage(path: string, instanceUid: string)

  /** What is drawn on an image: a red polyline of the given width, or a red
      caption in a font of the given size. The caption's float position
      depends on font metrics and is not recorded. */
  datatype Stroke =
    | Polyline(points: seq<Point>, width: nat)
    | Caption(text: string, fontSize: int)

  /** A written preview: `"{index}_{basename}.png"` and what was drawn on it. */
  datatype BoxPreview = BoxPreview(name: string, strokes: seq<Stroke>)

  /** The outline `[ul, (br.x, ul.y), br, (ul.x, br.y), ul]`. */
  function Outline(b: Box): (r: seq<Point>)
    ensures |r| == 5
    ensures r[0] == r[4] == b.topLeft && r[2] == b.bottomRight
    ensures r[1] == Point(b.bottomRight.x, b.topLeft.y) && r[3] == Point(b.topLeft.x, b.bottomRight.y)
  {
    var ul, br := b.topLeft, b.bottomRight;
    [ul, Point(br.x, ul.y), br, Point(ul.x, br.y), ul]
  }

  /** `(br[1] - ul[1]) // 20`: Python's floor division, which agrees with
      Dafny's Euclidean division for a positive divisor. */
  function FontSize(b: Box): (size: int)
    ensures 20 * size <= b.bottomRight.y - b.topLeft.y < 20 * size + 20
  {
    (b.bottomRight.y - b.topLeft.y) / 20
  }

  /** The strokes for one box: its outline, five pixels wide, then its label. */
  function Draw(b: Box): seq<Stroke>
  {
    [Polyline(Outline(b), 5), Caption(b.labelText, FontSize(b))]
  }

  /** The strokes for a list of boxes, drawn in order. */
  function Strokes(bs: seq<Box>): seq<Stroke>
  {
    if |bs| == 0 then [] else Strokes(bs[..|bs| - 1]) + Draw(bs[|bs| - 1])
  }

  /** Every box contributes its outline and its caption, in order. */
  lemma {:induction false} StrokesLayout(bs: seq<Box>, i: nat)
    requires i < |bs|
    ensures |Strokes(bs)| == 2 * |bs|
    ensures Strokes(bs)[2 * i] == Polyline(Outline(bs[i]), 5)
    ensures Strokes(bs)[2 * i + 1] == Caption(bs[i].labelText, FontSize(bs[i]))
  {
    var init := bs[..|bs| - 1];
    if i < |bs| - 1 {
      StrokesLayout(init, i);
    } else if |bs| > 1 {
      StrokesLayout(init, 0);
    }
  }

  function SopUid(b: Box): string
  {
    b.sopUid
  }

  /** `[box for box in boxes if image.instanceUID == box['SOPInstanceUID']]`. */
  function ImageBoxes(img: BoxImage, boxes: seq<Box>): seq<Box>
  {
    Filter(boxes, SameKey(SopUid, img.instanceUid))
  }

  // ---------------------------------------------------------------------
  // list.remove

  /** `list.remove(x)` when `x` is present: the first equal entry goes. */
  function RemoveFirst<T(==)>(s: seq<T>, x: T): seq<T>
    decreases |s|
  {
    if |s| == 0 then [] else if s[0] == x then s[1..] else [s[0]] + RemoveFirst(s[1..], x)
  }

  lemma {:induction false} RemoveFirstMultiset<T>(s: seq<T>, x: T)
    requires x in s
    ensures multiset(RemoveFirst(s, x)) == multiset(s) - multiset{x}
    decreases |s|
  {
    assert s == [s[0]] + s[1..];
    if s[0] != x {
      RemoveFirstMultiset(s[1..], x);
    }
  }

  /** `list.remove(x)` for each `x` of `xs` in turn. */
  function RemoveAll<T(==)>(s: seq<T>, xs: seq<T>): seq<T>
    decreases |xs|
  {
    if |xs| == 0 then s else RemoveAll(RemoveFirst(s, xs[0]), xs[1..])
  }

  lemma {:induction false} RemoveAllSnoc<T>(s: seq<T>, xs: seq<T>, x: T)
    ensures RemoveAll(s, xs + [x]) == RemoveFirst(RemoveAll(s, xs), x)
    decreases |xs|
  {
    if |xs| == 0 {
      assert xs + [x] == [x];
    } else {
      assert (xs + [x])[0] == xs[0] && (xs + [x])[1..] == xs[1..] + [x];
      RemoveAllSnoc(RemoveFirst(s, xs[0]), xs[1..], x);
    }
  }

  /** Removing values the head differs from leaves the head in place. */
  lemma {:induction false} RemoveAllSkip<T>(x: T, t: seq<T>, xs: seq<T>)
    requires x !in xs
    ensures RemoveAll([x] + t, xs) == [x] + RemoveAll(t, xs)
    decreases |xs|
  {
    if |xs| > 0 {
      assert ([x] + t)[1..] == t;
      RemoveAllSkip(x, RemoveFirst(t, xs[0]), xs[1..]);
    }
  }

  /** Removing, one by one, the entries a list comprehension selected from
      the list leaves exactly the entries it did not select. */
  lemma {:induction false} RemoveAllFilter<T>(s: seq<T>, p: T -> bool)
    ensures RemoveAll(s, Filter(s, p)) == Filter(s, Not(p))
    decreases |s|
  {
    if |s| > 0 {
      var t := s[1..];
      RemoveAllFilter(t, p);
      assert Not(p)(s[0]) == !p(s[0]);
      if p(s[0]) {
        var f := Filter(s, p);
        assert f == [s[0]] + Filter(t, p);
        assert f[0] == s[0] && f[1..] == Filter(t, p);
      } else {
        FilterMembers(t, p, s[0]);
        assert s == [s[0]] + t;
        assert Filter(s, p) == Filter(t, p);
        assert Filter(s, Not(p)) == [s[0]] + Filter(t, Not(p));
        RemoveAllSkip(s[0], t, Filter(t, p));
      }
    }
  }

  /** The caller's `boxes` list, which the preview empties as it draws. */
  class BoxList {
    var items: seq<Box>

    constructor (items: seq<Box>)
      ensures this.items == items
    {
      this.items := items;
    }

    /** `list.remove`, which raises ValueError when nothing equals `b`. */
    method Remove(b: Box) returns (r: Result<()>)
      modifies this
      ensures b in old(items) ==> r == Ok(()) && items == RemoveFirst(old(items), b)
      ensures b !in old(items) ==> r == Err(ValueError) && items == old(items)
    {
      if b in items {
        items := RemoveFirst(items, b);
        r := Ok(());
      } else {
        r := Err(ValueError);
      }
    }
  }

  // ---------------------------------------------------------------------
  // generate_images_with_boxes

  /** The caller's list once the first k images are drawn. */
  function RemainingAfter(images: seq<BoxImage>, boxes: seq<Box>, k: nat): seq<Box>
    requires k <= |images|
  {
    if k == 0 then boxes
    else
      var r := RemainingAfter(images, boxes, k - 1);
      RemoveAll(r, ImageBoxes(images[k - 1], r))
  }

  /** The preview of image k: the boxes for it still in the list. */
  function PreviewAt(images: seq<BoxImage>, boxes: seq<Box>, baseName: string -> string, k: nat): BoxPreview
    requires k < |images|
  {
    BoxPreview(OutputName(k, baseName(images[k].path)),
               Strokes(ImageBoxes(images[k], RemainingAfter(images, boxes, k))))
  }

  /** The boxes addressed to none of the first k images. */
  function Unmatched(images: seq<BoxImage>, k: nat): Box -> bool
  {
    b => AddressedToNone(images, k, b)
  }

  predicate AddressedToNone(images: seq<BoxImage>, k: nat, b: Box)
  {
    forall j :: 0 <= j < k && j < |images| ==> images[j].instanceUid != b.sopUid
  }

  /** After k images the list holds exactly the boxes addressed to none of
      them, in their original order. */
  lemma {:induction false} RemainingUnmatched(images: seq<BoxImage>, boxes: seq<Box>, k: nat)
    requires k <= |images|
    ensures RemainingAfter(images, boxes, k) == Filter(boxes, Unmatched(images, k))
  {
    if k == 0 {
      FilterAll(boxes, Unmatched(images, 0));
    } else {
      var r := RemainingAfter(images, boxes, k - 1);
      var uid := SameKey(SopUid, images[k - 1].instanceUid);
      assert RemainingAfter(images, boxes, k) == Filter(r, Not(uid)) by {
        RemoveAllFilter(r, uid);
      }
      RemainingUnmatched(images, boxes, k - 1);
      forall b ensures Unmatched(images, k)(b) == (Unmatched(images, k - 1)(b) && Not(uid)(b)) {
        assert Not(uid)(b) == (b.sopUid != images[k - 1].instanceUid);
        assert AddressedToNone(images, k, b) == (AddressedToNone(images, k - 1, b) && Not(uid)(b));
      }
      FilterFilter(boxes, Unmatched(images, k - 1), Not(uid), Unmatched(images, k));
    }
  }

  lemma {:induction false} FilterAll<T>(s: seq<T>, p: T -> bool)
    requires forall x :: p(x)
    ensures Filter(s, p) == s
    decreases |s|
  {
    if |s| > 0 {
      FilterAll(s[1..], p);
      assert s == [s[0]] + s[1..];
    }
  }

  /** A box is drawn on the first image addressed by it and on no later one:
      image k shows the boxes for its UID that no earlier image took. */
  lemma DrawnOnFirstMatch(images: seq<BoxImage>, boxes: seq<Box>, k: nat)
    requires k < |images|
    ensures ImageBoxes(images[k], RemainingAfter(images, boxes, k)) ==
            Filter(boxes, (b: Box) => b.sopUid == images[k].instanceUid && Unmatched(images, k)(b))
  {
    RemainingUnmatched(images, boxes, k);
    FilterFilter(boxes, Unmatched(images, k), SameKey(SopUid, images[k].instanceUid),
                 (b: Box) => b.sopUid == images[k].instanceUid && Unmatched(images, k)(b));
  }

  /** `boxes.remove(box)` for the j-th selected box: it is still in the list,
      so the removal does not raise. */
  method RemoveDrawn(boxes: BoxList, imageBoxes: seq<Box>, j: nat, ghost start: seq<Box>)
    requires j < |imageBoxes|
    requires boxes.items == RemoveAll(start, imageBoxes[..j])
    requires multiset(imageBoxes[j..]) <= multiset(boxes.items)
    modifies boxes
    ensures boxes.items == RemoveAll(start, imageBoxes[..j + 1])
    ensures multiset(imageBoxes[j + 1..]) <= multiset(boxes.items)
  {
    var box := imageBoxes[j];
    ghost var before := boxes.items;
    assert imageBoxes[j..] == [box] + imageBoxes[j + 1..];
    assert box in multiset(before);
    var removed := boxes.Remove(box);
    RemoveFirstMultiset(before, box);
    assert imageBoxes[..j + 1] == imageBoxes[..j] + [box];
    RemoveAllSnoc(start, imageBoxes[..j], box);
  }

  /** The inner loop: outline and label each box, then remove it from the
      caller's list. No removal raises, as every box came from the list. */
  method DrawBoxes(boxes: BoxList, imageBoxes: seq<Box>) returns (strokes: seq<Stroke>)
    requires multiset(imageBoxes) <= multiset(boxes.items)
    modifies boxes
    ensures strokes == Strokes(imageBoxes)
    ensures boxes.items == RemoveAll(old(boxes.items), imageBoxes)
  {
    strokes := [];
    var j := 0;
    while j < |imageBoxes|
      invariant 0 <= j <= |imageBoxes|
      invariant strokes == Strokes(imageBoxes[..j])
      invariant boxes.items == RemoveAll(old(boxes.items), imageBoxes[..j])
      invariant multiset(imageBoxes[j..]) <= multiset(boxes.items)
    {
      var box := imageBoxes[j];
      assert imageBoxes[..j + 1][..j] == imageBoxes[..j];
      strokes := strokes + Draw(box);
      RemoveDrawn(boxes, imageBoxes, j, old(boxes.items));
      j := j + 1;
    }
    assert imageBoxes[..j] == imageBoxes;
  }

  /** The body of the outer loop for image `index`: select its boxes from
      what is left of the list, draw and remove them, and name the output. */
  method DrawImage(images: seq<BoxImage>, boxes: BoxList, baseName: string -> string, index: nat,
                   ghost start: seq<Box>)
    returns (preview: BoxPreview)
    requires index < |images|
    requires boxes.items == RemainingAfter(images, start, index)
    modifies boxes
    ensures preview == PreviewAt(images, start, baseName, index)
    ensures boxes.items == RemainingAfter(images, start, index + 1)
  {
    var image := images[index];
    var imageBoxes := ImageBoxes(image, boxes.items);
    FilterMultiset(boxes.items, SameKey(SopUid, image.instanceUid));
    var strokes := DrawBoxes(boxes, imageBoxes);
    preview := BoxPreview(OutputName(index, baseName(image.path)), strokes);
  }

  /** The previews of the first n images, in order. */
  function Previews(images: seq<BoxImage>, boxes: seq<Box>, baseName: string -> string, n: nat): seq<BoxPreview>
    requires n <= |images|
  {
    seq(n, k requires 0 <= k < n => PreviewAt(images, boxes, baseName, k))
  }

  /** `generate_images_with_boxes`: one preview per image, and the caller's
      list reduced by every box drawn. */
  method GenerateImagesWithBoxes(images: seq<BoxImage>, boxes: BoxList, baseName: string -> string)
    returns (previews: seq<BoxPreview>)
    modifies boxes
    ensures previews == Previews(images, old(boxes.items), baseName, |images|)
    ensures boxes.items == RemainingAfter(images, old(boxes.items), |images|)
  {
    previews := [];
    var index := 0;
    while index < |images|
      invariant 0 <= index <= |images|
      invariant previews == Previews(images, old(boxes.items), baseName, index)
      invariant boxes.items == RemainingAfter(images, old(boxes.items), index)
    {
      var preview := DrawImage(images, boxes, baseName, index, old(boxes.items));
      assert Previews(images, old(boxes.items), baseName, index + 1) ==
             Previews(images, old(boxes.items), baseName, index) + [preview];
      previews := previews + [preview];
      index := index + 1;
    }
  }

  /** The previews are named apart: `"{index}_..."` with distinct indices. */
  lemma PreviewNamesDistinct(images: seq<BoxImage>, boxes: seq<Box>, baseName: string -> string, i: nat, j: nat)
    requires i < j < |images|
    ensures PreviewAt(images, boxes, baseName, i).name != PreviewAt(images, boxes, baseName, j).name
  {
    OutputNameInjective(i, j, baseName(images[i].path), baseName(images[j].path));
  }
}
