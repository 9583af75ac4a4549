/** Ordering of DICOM instances into series volumes (the newer test tool):
    grouping by SeriesInstanceUID, the spatial sort along the slice normal,
    detection of the timepoint count and the timepoint-major de-interleave,
    and the split of response masks into DICOM and non-DICOM buffers. */
module SeriesOrder {
  import opened Common
  import opened Geometry
  import opened Sorting
  import opened Manifest
  import opened Matrix

  /** The descriptor of one loaded instance. `timepoint` starts unset and is
      assigned by the ordering; the model returns updated records instead of
      mutating shared objects. */
  datatype DcmImage = DcmImage(
    instanceUid: string,
    seriesUid: string,
    position: Option<Vec3>,
    orientation: Option<Orientation>,
    instanceNumber: Option<int>,
    timepoint: Option<nat>,
    path: string)

  /** `DcmImage.direction()`: absent exactly when the orientation is absent,
      otherwise the normal of the two direction cosines. */
  function Direction(img: DcmImage): (d: Option<Vec3>)
    ensures d.None? <==> img.orientation.None?
    ensures d.Some? ==> Dot(d.value, img.orientation.value.row) == 0.0
    ensures d.Some? ==> Dot(d.value, img.orientation.value.col) == 0.0
  {
    match img.orientation
    case None => None
    case Some(o) => Some(Normal(o))
  }

  /** The same record with its timepoint forgotten: what a permutation is
      measured on, since the ordering assigns timepoints. */
  function Untimed(img: DcmImage): DcmImage
  {
    img.(timepoint := None)
  }

  // ---------------------------------------------------------------------
  // group_by_series

  function SeriesUidOf(img: DcmImage): string
  {
    img.seriesUid
  }

  /** `itertools.groupby` on seriesUID: maximal runs of equal keys. */
  function GroupConsecutive(s: seq<DcmImage>): seq<seq<DcmImage>>
    decreases |s|
  {
    if |s| == 0 then []
    else
      var rest := GroupConsecutive(s[1..]);
      if |rest| > 0 && |rest[0]| > 0 && rest[0][0].seriesUid == s[0].seriesUid
      then [[s[0]] + rest[0]] + rest[1..]
      else [[s[0]]] + rest
  }

  /** A non-empty group whose members all share one seriesUID. */
  ghost predicate Uniform(g: seq<DcmImage>)
  {
    |g| > 0 && forall j :: 0 <= j < |g| ==> g[j].seriesUid == g[0].seriesUid
  }

  /** Group keys in strictly increasing string order. */
  ghost predicate KeysIncreasing(groups: seq<seq<DcmImage>>)
  {
    forall i, j :: 0 <= i < j < |groups| && |groups[i]| > 0 && |groups[j]| > 0 ==>
      StrLe(groups[i][0].seriesUid, groups[j][0].seriesUid) &&
      groups[i][0].seriesUid != groups[j][0].seriesUid
  }

  lemma GroupConsecutiveHead(s: seq<DcmImage>)
    requires |s| > 0
    ensures |GroupConsecutive(s)| > 0 && |GroupConsecutive(s)[0]| > 0 && GroupConsecutive(s)[0][0] == s[0]
  {
  }

  lemma {:induction false} GroupConsecutiveUniform(s: seq<DcmImage>)
    ensures forall i :: 0 <= i < |GroupConsecutive(s)| ==> Uniform(GroupConsecutive(s)[i])
    decreases |s|
  {
    if |s| > 0 {
      var groups: seq<seq<DcmImage>> := GroupConsecutive(s);
      var rest: seq<seq<DcmImage>> := GroupConsecutive(s[1..]);
      GroupConsecutiveUniform(s[1..]);
      if |rest| > 0 && |rest[0]| > 0 && rest[0][0].seriesUid == s[0].seriesUid {
        var g := groups[0];
        assert g == [s[0]] + rest[0];
        forall j | 0 <= j < |g| ensures g[j].seriesUid == s[0].seriesUid {
          if j > 0 {
            assert g[j] == rest[0][j - 1];
          }
        }
        assert forall i :: 1 <= i < |groups| ==> groups[i] == rest[i];
      } else {
        assert forall i :: 1 <= i < |groups| ==> groups[i] == rest[i - 1];
      }
    }
  }

  lemma {:induction false} GroupConsecutiveConcat(s: seq<DcmImage>)
    ensures Concat(GroupConsecutive(s)) == s
    decreases |s|
  {
    if |s| > 0 {
      var rest: seq<seq<DcmImage>> := GroupConsecutive(s[1..]);
      GroupConsecutiveConcat(s[1..]);
      if |rest| > 0 && |rest[0]| > 0 && rest[0][0].seriesUid == s[0].seriesUid {
        ConcatMergeHead(s[0], rest);
      } else {
        ConcatConsOne(s[0], rest);
      }
      assert s == [s[0]] + s[1..];
    }
  }

  /** `groupby` cuts the input into non-empty runs of one seriesUID that,
      joined, give back the input. */
  lemma GroupConsecutiveShape(s: seq<DcmImage>)
    ensures forall i :: 0 <= i < |GroupConsecutive(s)| ==> Uniform(GroupConsecutive(s)[i])
    ensures Concat(GroupConsecutive(s)) == s
    ensures |s| > 0 ==> |GroupConsecutive(s)| > 0 && GroupConsecutive(s)[0][0] == s[0]
  {
    GroupConsecutiveUniform(s);
    GroupConsecutiveConcat(s);
    if |s| > 0 {
      GroupConsecutiveHead(s);
    }
  }

  /** Prepending a group whose key is below every key keeps keys increasing. */
  lemma KeysCons(g: seq<DcmImage>, rest: seq<seq<DcmImage>>)
    requires |g| > 0 && KeysIncreasing(rest)
    requires forall j :: 0 <= j < |rest| ==> |rest[j]| > 0
    requires |rest| > 0 ==> StrLe(g[0].seriesUid, rest[0][0].seriesUid) && g[0].seriesUid != rest[0][0].seriesUid
    ensures KeysIncreasing([g] + rest)
  {
    var groups: seq<seq<DcmImage>> := [g] + rest;
    var k0 := g[0].seriesUid;
    forall j | 0 < j < |groups|
      ensures StrLe(k0, groups[j][0].seriesUid) && k0 != groups[j][0].seriesUid
    {
      var k1, kj := rest[0][0].seriesUid, rest[j - 1][0].seriesUid;
      if j > 1 {
        StrLeTransitive(k0, k1, kj);
        if k0 == kj {
          StrLeAntisymmetric(k1, kj);
        }
      }
    }
    assert forall i :: 0 < i < |groups| ==> groups[i] == rest[i - 1];
  }

  /** Replacing the first group by one with the same first key keeps keys
      increasing. */
  lemma KeysReplaceHead(g: seq<DcmImage>, rest: seq<seq<DcmImage>>)
    requires |g| > 0 && |rest| > 0 && |rest[0]| > 0 && KeysIncreasing(rest)
    requires g[0].seriesUid == rest[0][0].seriesUid
    ensures KeysIncreasing([g] + rest[1..])
  {
    var groups: seq<seq<DcmImage>> := [g] + rest[1..];
    assert forall i :: 0 < i < |groups| ==> groups[i] == rest[i];
    assert groups[0][0].seriesUid == rest[0][0].seriesUid;
  }

  lemma {:induction false} GroupConsecutiveKeys(s: seq<DcmImage>)
    requires SortedBy(s, SeriesUidOf, StrLe)
    ensures KeysIncreasing(GroupConsecutive(s))
    decreases |s|
  {
    if |s| > 0 {
      var t: seq<DcmImage> := s[1..];
      assert SortedBy(t, SeriesUidOf, StrLe) by {
        forall i, j | 0 <= i < j < |t| ensures StrLe(t[i].seriesUid, t[j].seriesUid) {
          assert t[i] == s[i + 1] && t[j] == s[j + 1];
        }
      }
      GroupConsecutiveKeys(t);
      GroupConsecutiveShape(t);
      var rest: seq<seq<DcmImage>> := GroupConsecutive(t);
      if |rest| > 0 && |rest[0]| > 0 && rest[0][0].seriesUid == s[0].seriesUid {
        KeysReplaceHead([s[0]] + rest[0], rest);
      } else {
        if |t| > 0 {
          assert rest[0][0] == s[1];
          assert StrLe(s[0].seriesUid, s[1].seriesUid);
        }
        KeysCons([s[0]], rest);
      }
    }
  }

  /** `group_by_series`: sort by seriesUID, then group equal keys. The dict it
      builds keeps insertion order, so the groups are listed by ascending UID. */
  function GroupBySeries(images: seq<DcmImage>): seq<seq<DcmImage>>
  {
    GroupConsecutive(SortBy(images, SeriesUidOf, StrLe))
  }

  lemma SameSeries(k: string, img: DcmImage)
    ensures SameKey(SeriesUidOf, k)(img) <==> img.seriesUid == k
  {
    assert SeriesUidOf(img) == img.seriesUid;
  }

  lemma {:induction false} FilterUniform(g: seq<DcmImage>, k: string)
    requires Uniform(g)
    ensures Filter(g, SameKey(SeriesUidOf, k)) == if g[0].seriesUid == k then g else []
    decreases |g|
  {
    var p := SameKey(SeriesUidOf, k);
    SameSeries(k, g[0]);
    var t := g[1..];
    if |t| > 0 {
      assert Uniform(t) by {
        assert forall j :: 0 <= j < |t| ==> t[j] == g[j + 1];
      }
      FilterUniform(t, k);
      assert t[0].seriesUid == g[0].seriesUid;
    }
    assert Filter(g, p) == (if p(g[0]) then [g[0]] else []) + Filter(t, p);
    assert g == [g[0]] + t;

  }

  lemma {:induction false} FilterNone(groups: seq<seq<DcmImage>>, k: string)
    requires forall j :: 0 <= j < |groups| ==> Uniform(groups[j]) && groups[j][0].seriesUid != k
    ensures Filter(Concat(groups), SameKey(SeriesUidOf, k)) == []
    decreases |groups|
  {
    if |groups| > 0 {
      var n := |groups|;
      FilterAppend(Concat(groups[..n - 1]), groups[n - 1], SameKey(SeriesUidOf, k));
      FilterUniform(groups[n - 1], k);
      FilterNone(groups[..n - 1], k);
    }
  }

  lemma KeysPrefix(groups: seq<seq<DcmImage>>, m: nat)
    requires KeysIncreasing(groups) && m <= |groups|
    ensures KeysIncreasing(groups[..m])
  {
    var init: seq<seq<DcmImage>> := groups[..m];
    forall i, j | 0 <= i < j < |init| && |init[i]| > 0 && |init[j]| > 0
      ensures StrLe(init[i][0].seriesUid, init[j][0].seriesUid) && init[i][0].seriesUid != init[j][0].seriesUid
    {
      assert init[i] == groups[i] && init[j] == groups[j];
    }
  }

  lemma {:induction false} FilterGroups(groups: seq<seq<DcmImage>>, i: nat)
    requires forall j :: 0 <= j < |groups| ==> Uniform(groups[j])
    requires KeysIncreasing(groups)
    requires i < |groups| && |groups[i]| > 0
    ensures Filter(Concat(groups), SameKey(SeriesUidOf, groups[i][0].seriesUid)) == groups[i]
    decreases |groups|
  {
    var k := groups[i][0].seriesUid;
    var n := |groups|;
    var init: seq<seq<DcmImage>> := groups[..n - 1];
    assert forall j :: 0 <= j < n - 1 ==> init[j] == groups[j];
    FilterAppend(Concat(init), groups[n - 1], SameKey(SeriesUidOf, k));
    FilterUniform(groups[n - 1], k);
    if i < n - 1 {
      KeysPrefix(groups, n - 1);
      FilterGroups(init, i);
      assert groups[n - 1][0].seriesUid != k;
    } else {
      forall j | 0 <= j < n - 1 ensures Uniform(init[j]) && init[j][0].seriesUid != k {
        assert init[j] == groups[j];
      }
      FilterNone(init, k);
    }
  }

  lemma {:induction false} ConcatMember(groups: seq<seq<DcmImage>>, x: DcmImage)
    requires x in Concat(groups)
    ensures exists i :: 0 <= i < |groups| && x in groups[i]
    decreases |groups|
  {
    var n := |groups|;
    if x !in groups[n - 1] {
      ConcatMember(groups[..n - 1], x);
      var i :| 0 <= i < n - 1 && x in groups[..n - 1][i];
      assert x in groups[i];
    }
  }

  /** Each group is non-empty, all its members share one seriesUID, and it
      lists exactly the input images of that UID, in input order. */
  lemma GroupBySeriesGroups(images: seq<DcmImage>)
    ensures forall i :: 0 <= i < |GroupBySeries(images)| ==>
              && Uniform(GroupBySeries(images)[i])
              && GroupBySeries(images)[i] == Filter(images, SameKey(SeriesUidOf, GroupBySeries(images)[i][0].seriesUid))
  {
    StrLeIsTotalOrder();
    var sorted := SortBy(images, SeriesUidOf, StrLe);
    SortByCorrect(images, SeriesUidOf, StrLe);
    GroupConsecutiveShape(sorted);
    GroupConsecutiveKeys(sorted);
    var groups: seq<seq<DcmImage>> := GroupBySeries(images);
    forall i | 0 <= i < |groups|
      ensures groups[i] == Filter(images, SameKey(SeriesUidOf, groups[i][0].seriesUid))
    {
      FilterGroups(groups, i);
      SortByStable(images, SeriesUidOf, StrLe, groups[i][0].seriesUid);
    }
  }

  /** The groups come in strictly ascending seriesUID order, so no UID has
      two groups. */
  lemma GroupBySeriesKeys(images: seq<DcmImage>)
    ensures KeysIncreasing(GroupBySeries(images))
  {
    StrLeIsTotalOrder();
    SortByCorrect(images, SeriesUidOf, StrLe);
    GroupConsecutiveKeys(SortBy(images, SeriesUidOf, StrLe));
  }

  /** Together the groups hold every input image, each exactly as often as
      in the input. */
  lemma GroupBySeriesCover(images: seq<DcmImage>)
    ensures multiset(Concat(GroupBySeries(images))) == multiset(images)
    ensures forall x :: x in images ==> exists i :: 0 <= i < |GroupBySeries(images)| && x in GroupBySeries(images)[i]
  {
    StrLeIsTotalOrder();
    var sorted := SortBy(images, SeriesUidOf, StrLe);
    SortByCorrect(images, SeriesUidOf, StrLe);
    GroupConsecutiveShape(sorted);
    var groups: seq<seq<DcmImage>> := GroupBySeries(images);
    forall x | x in images ensures exists i :: 0 <= i < |groups| && x in groups[i] {
      assert x in multiset(sorted);
      ConcatMember(groups, x);
    }
  }

  // ---------------------------------------------------------------------
  // sort_series_images: the spatial sort

  predicate AllPositioned(images: seq<DcmImage>)
  {
    forall i :: 0 <= i < |images| ==> images[i].position.Some?
  }

  /** The comparator key: projection of `position - pos0` on the normal of the
      first image of the series. */
  function SliceKey(pos0: Vec3, dir: Vec3): DcmImage -> real
  {
    (img: DcmImage) => if img.position.Some? then Dot(Sub(img.position.value, pos0), dir) else 0.0
  }

  function SliceKeyOf(images: seq<DcmImage>): DcmImage -> real
    requires |images| > 0 && images[0].position.Some? && images[0].orientation.Some?
  {
    SliceKey(images[0].position.value, Normal(images[0].orientation.value))
  }

  /** The spatial sort: a stable sort by projection onto the first image's
      slice normal, relative to the first image's position. */
  function SpatialSort(images: seq<DcmImage>): (r: seq<DcmImage>)
    requires |images| > 0 && images[0].position.Some? && images[0].orientation.Some?
    ensures |r| == |images|
  {
    RealLeIsTotalOrder();
    SortByCorrect(images, SliceKeyOf(images), RealLe);
    SortBy(images, SliceKeyOf(images), RealLe)
  }

  /** The spatial sort is a permutation, ordered by slice key, and stable:
      images with equal slice keys keep their input order. */
  lemma SpatialSortCorrect(images: seq<DcmImage>)
    requires |images| > 0 && images[0].position.Some? && images[0].orientation.Some?
    ensures multiset(SpatialSort(images)) == multiset(images)
    ensures forall i, j :: 0 <= i < j < |images| ==>
      SliceKeyOf(images)(SpatialSort(images)[i]) <= SliceKeyOf(images)(SpatialSort(images)[j])
    ensures forall v :: Filter(SpatialSort(images), SameKey(SliceKeyOf(images), v)) ==
                        Filter(images, SameKey(SliceKeyOf(images), v))
  {
    RealLeIsTotalOrder();
    SortByCorrect(images, SliceKeyOf(images), RealLe);
    forall v ensures Filter(SortBy(images, SliceKeyOf(images), RealLe), SameKey(SliceKeyOf(images), v)) ==
                     Filter(images, SameKey(SliceKeyOf(images), v)) {
      SortByStable(images, SliceKeyOf(images), RealLe, v);
    }
  }

  function PositionsOf(images: seq<DcmImage>): (ps: seq<Vec3>)
    requires AllPositioned(images)
    ensures |ps| == |images|
  {
    seq(|images|, i requires 0 <= i < |images| => images[i].position.value)
  }

  // ---------------------------------------------------------------------
  // determine_timepoints

  /** One past the end of the run of positions, from index `k` on, that are
      close to the first. `close(p, q)` stands for `norm(p - q) < 1e-3`. */
  function CountFrom(ps: seq<Vec3>, close: (Vec3, Vec3) -> bool, k: nat): (r: nat)
    requires 1 <= k <= |ps|
    ensures k <= r <= |ps|
    ensures forall j :: k <= j < r ==> close(ps[j], ps[0])
    ensures r < |ps| ==> !close(ps[r], ps[0])
    decreases |ps| - k
  {
    if k < |ps| && close(ps[k], ps[0]) then CountFrom(ps, close, k + 1) else k
  }

  /** The timepoint count: the number of leading images at the first
      image's position. */
  function Timepoints(ps: seq<Vec3>, close: (Vec3, Vec3) -> bool): (t: nat)
    requires |ps| > 0
    ensures 1 <= t <= |ps|
    ensures forall j :: 1 <= j < t ==> close(ps[j], ps[0])
    ensures t < |ps| ==> !close(ps[t], ps[0])
  {
    CountFrom(ps, close, 1)
  }

  /** `determine_timepoints`: advances `end_index` while the next image is
      close to the first. */
  method DetermineTimepoints(ps: seq<Vec3>, close: (Vec3, Vec3) -> bool) returns (endIndex: nat)
    requires |ps| > 0
    ensures endIndex == Timepoints(ps, close)
    ensures 1 <= endIndex <= |ps|
    ensures forall j :: 1 <= j < endIndex ==> close(ps[j], ps[0])
    ensures endIndex < |ps| ==> !close(ps[endIndex], ps[0])
  {
    endIndex := 1;
    while endIndex < |ps| && close(ps[endIndex], ps[0])
      invariant 1 <= endIndex <= |ps|
      invariant CountFrom(ps, close, endIndex) == Timepoints(ps, close)
      decreases |ps| - endIndex
    {
      endIndex := endIndex + 1;
    }
  }

  // ---------------------------------------------------------------------
  // sort_series_images: per-block instance-number sort and de-interleave

  predicate AllNumbered(images: seq<DcmImage>)
  {
    forall i :: 0 <= i < |images| ==> images[i].instanceNumber.Some?
  }

  function InstanceKey(img: DcmImage): int
  {
    if img.instanceNumber.Some? then img.instanceNumber.value else 0
  }

  function SortByInstance(block: seq<DcmImage>): (r: seq<DcmImage>)
    ensures |r| == |block|
  {
    IntLeIsTotalOrder();
    SortByCorrect(block, InstanceKey, IntLe);
    SortBy(block, InstanceKey, IntLe)
  }

  /** Each block sort is a permutation of the block, ascending by instance
      number. */
  lemma SortByInstanceCorrect(block: seq<DcmImage>)
    ensures multiset(SortByInstance(block)) == multiset(block)
    ensures forall i, j :: 0 <= i < j < |block| ==>
      InstanceKey(SortByInstance(block)[i]) <= InstanceKey(SortByInstance(block)[j])
  {
    IntLeIsTotalOrder();
    SortByCorrect(block, InstanceKey, IntLe);
  }

  /** The spatially sorted list cut into consecutive blocks of `tp` images,
      each block sorted by instance number. */
  function SortedBlocks(s: seq<DcmImage>, tp: nat): (r: seq<seq<DcmImage>>)
    requires tp > 0
    ensures |r| == |Chunks(s, tp)|
  {
    Map(Chunks(s, tp), SortByInstance)
  }

  lemma BlocksPerm(s: seq<DcmImage>, tp: nat)
    requires tp > 0
    ensures multiset(Concat(SortedBlocks(s, tp))) == multiset(s)
  {
    var c := Chunks(s, tp);
    forall i | 0 <= i < |c| ensures multiset(SortedBlocks(s, tp)[i]) == multiset(c[i]) {
      SortByInstanceCorrect(c[i]);
    }
    ConcatRowPerm(SortedBlocks(s, tp), c);
    ChunksConcat(s, tp);
  }

  /** The blocks of a prefix of whole blocks, extended by one more slice of
      width `tp`. */
  lemma SortedBlocksSnoc(s: seq<DcmImage>, tp: nat, k: nat, lo: nat)
    requires tp > 0 && lo == k * tp && lo + tp <= |s|
    ensures SortedBlocks(s[..lo + tp], tp) == SortedBlocks(s[..lo], tp) + [SortByInstance(s[lo..lo + tp])]
  {
    var block := s[lo..lo + tp];
    assert s[..lo + tp] == s[..lo] + block;
    ChunksAppend(s[..lo], block, tp, k);
    assert Chunks(block, tp) == [block];
    MapAppend(Chunks(s[..lo], tp), [block], SortByInstance);
  }

  /** With `|s| == n * tp` there are `n` blocks of `tp` images, block `i`
      being `s[i*tp .. i*tp+tp]` sorted by instance number. */
  lemma BlocksShape(s: seq<DcmImage>, tp: nat, n: nat)
    requires tp > 0 && |s| == n * tp
    ensures |SortedBlocks(s, tp)| == n && Rectangular(SortedBlocks(s, tp), tp)
    ensures forall i :: 0 <= i < n ==>
      i * tp + tp <= |s| && SortedBlocks(s, tp)[i] == SortByInstance(s[i * tp..i * tp + tp])
  {
    ChunksShape(s, tp, n);
    var b := SortedBlocks(s, tp);
    var c := Chunks(s, tp);
    forall i | 0 <= i < n
      ensures i * tp + tp <= |s| && b[i] == SortByInstance(s[i * tp..i * tp + tp]) && |b[i]| == tp
    {
      assert b[i] == SortByInstance(c[i]);
      assert c[i] == s[i * tp..i * tp + tp];
    }
  }

  /** `n` blocks of exactly `tp` images each. */
  lemma BlocksRectangular(s: seq<DcmImage>, tp: nat, n: nat)
    requires tp > 0 && |s| == n * tp
    ensures |SortedBlocks(s, tp)| == n && Rectangular(SortedBlocks(s, tp), tp)
  {
    BlocksShape(s, tp, n);
  }

  /** An image labelled with timepoint `t`. */
  function Stamp(img: DcmImage, t: nat): DcmImage
  {
    img.(timepoint := Some(t))
  }

  /** The block matrix read column by column: column `t` lists element `t`
      of every block, labelled with timepoint `t`. */
  function Columns(blocks: seq<seq<DcmImage>>, tp: nat): (cols: seq<seq<DcmImage>>)
    requires Rectangular(blocks, tp)
    ensures |cols| == tp && Rectangular(cols, |blocks|)
  {
    ColumnsBy(blocks, tp, Stamp)
  }

  lemma ColumnsAt(blocks: seq<seq<DcmImage>>, tp: nat, t: nat, i: nat)
    requires Rectangular(blocks, tp) && t < tp && i < |blocks|
    ensures Columns(blocks, tp)[t][i] == blocks[i][t].(timepoint := Some(t))
  {
    ColumnsByElem(blocks, tp, Stamp, t, i);
  }

  /** Stamping timepoints and forgetting them again gives back the plain
      transposition. */
  lemma ColumnsUntimed(blocks: seq<seq<DcmImage>>, tp: nat)
    requires Rectangular(blocks, tp)
    ensures multiset(Map(Concat(Columns(blocks, tp)), Untimed)) == multiset(Map(Concat(blocks), Untimed))
  {
    forall x, t ensures Untimed(Stamp(x, t)) == Untimed(x) {
    }
    ColumnsByMap(blocks, tp, Stamp, Untimed);
    MapConcat(Columns(blocks, tp), Untimed);
    MapConcat(blocks, Untimed);
    TransposePerm(MapRows(blocks, Untimed), tp);
  }

  // ---------------------------------------------------------------------
  // sort_series_images: the timepoint-major layout

  /** The de-interleave of `n * tp` spatially sorted images: sort each block
      of `tp` consecutive images by instance number, then emit timepoint 0 of
      every block, timepoint 1 of every block, and so on, each image stamped
      with its timepoint. */
  function TimepointOrder(spatial: seq<DcmImage>, tp: nat, n: nat): (r: seq<DcmImage>)
    requires tp > 0 && |spatial| == n * tp
    ensures |r| == |spatial|
  {
    BlocksRectangular(spatial, tp, n);
    ConcatLength(Columns(SortedBlocks(spatial, tp), tp), n);
    Concat(Columns(SortedBlocks(spatial, tp), tp))
  }

  /** Slot `t * n + i` of the layout holds element `t` of sorted block `i`,
      labelled with timepoint `t`; the layout has `n * tp` slots, so every
      slot is of this form. */
  lemma TimepointOrderAt(spatial: seq<DcmImage>, tp: nat, n: nat, t: nat, i: nat)
    requires tp > 0 && |spatial| == n * tp && t < tp && i < n
    ensures |SortedBlocks(spatial, tp)| == n && Rectangular(SortedBlocks(spatial, tp), tp)
    ensures t * n + i < |spatial|
    ensures TimepointOrder(spatial, tp, n)[t * n + i] == SortedBlocks(spatial, tp)[i][t].(timepoint := Some(t))
  {
    BlocksRectangular(spatial, tp, n);
    ColumnsByAt(SortedBlocks(spatial, tp), tp, n, Stamp, t, i);
  }

  /** The layout is a permutation of its input, timepoints set aside. */
  lemma TimepointOrderPermutation(spatial: seq<DcmImage>, tp: nat, n: nat)
    requires tp > 0 && |spatial| == n * tp
    ensures multiset(Map(TimepointOrder(spatial, tp, n), Untimed)) == multiset(Map(spatial, Untimed))
  {
    BlocksRectangular(spatial, tp, n);
    var b := SortedBlocks(spatial, tp);
    ColumnsUntimed(b, tp);
    BlocksPerm(spatial, tp);
    PermMap(Concat(b), spatial, Untimed);
  }

  // ---------------------------------------------------------------------
  // sort_series_images: the outcome for one series

  lemma {:induction false} PositionedPerm(a: seq<DcmImage>, b: seq<DcmImage>)
    requires multiset(a) == multiset(b) && AllPositioned(b)
    ensures AllPositioned(a)
  {
    forall i | 0 <= i < |a| ensures a[i].position.Some? {
      assert a[i] in multiset(b);
    }
  }

  /** What follows the spatial sort: the timepoint count, the length check,
      the instance-number sort and the layout. */
  function OrderSpatial(spatial: seq<DcmImage>, close: (Vec3, Vec3) -> bool): Result<seq<DcmImage>>
    requires |spatial| > 0 && AllPositioned(spatial)
  {
    var tp := Timepoints(PositionsOf(spatial), close);
    if tp == 1 then Ok(spatial)
    else if |spatial| % tp != 0 then Err(AssertionError)
    else if !AllNumbered(spatial) then Err(TypeError)
    else
      DivExact(|spatial|, tp, |spatial| / tp);
      Ok(TimepointOrder(spatial, tp, |spatial| / tp))
  }

  /** `sort_series_images` as a value: the outcome for one series. */
  function OrderSeries(images: seq<DcmImage>, close: (Vec3, Vec3) -> bool): Result<seq<DcmImage>>
  {
    if |images| == 0 then Err(IndexError)
    else if images[0].position.None? || Direction(images[0]).None? then Ok(images)
    else if !AllPositioned(images) then Err(TypeError)
    else
      SpatialSortCorrect(images);
      PositionedPerm(SpatialSort(images), images);
      OrderSpatial(SpatialSort(images), close)
  }

  /** The first image carries a position and an orientation and every image
      a position: the spatial sort applies. */
  predicate Sortable(images: seq<DcmImage>)
  {
    |images| > 0 && images[0].position.Some? && images[0].orientation.Some? && AllPositioned(images)
  }

  /** The number of timepoints detected after the spatial sort. */
  function TimepointCount(images: seq<DcmImage>, close: (Vec3, Vec3) -> bool): (tp: nat)
    requires Sortable(images)
    ensures 1 <= tp <= |images|
  {
    SpatialSortCorrect(images);
    PositionedPerm(SpatialSort(images), images);
    Timepoints(PositionsOf(SpatialSort(images)), close)
  }

  /** Only an empty series raises `IndexError` (there is no first image). */
  lemma OrderSeriesEmpty(images: seq<DcmImage>, close: (Vec3, Vec3) -> bool)
    ensures OrderSeries(images, close) == Err(IndexError) <==> |images| == 0
  {
  }

  /** Without a position or an orientation on the first image the series
      comes back as it is; with both, a missing position further on breaks
      the comparator. */
  lemma OrderSeriesUnsortable(images: seq<DcmImage>, close: (Vec3, Vec3) -> bool)
    requires |images| > 0
    ensures images[0].position.None? || images[0].orientation.None? ==> OrderSeries(images, close) == Ok(images)
    ensures images[0].position.Some? && images[0].orientation.Some? && !AllPositioned(images) ==>
              OrderSeries(images, close) == Err(TypeError)
  {
  }

  /** A single timepoint gives the spatial order itself. */
  lemma OrderSeriesSingleTimepoint(images: seq<DcmImage>, close: (Vec3, Vec3) -> bool)
    requires Sortable(images) && TimepointCount(images, close) == 1
    ensures OrderSeries(images, close) == Ok(SpatialSort(images))
  {
  }

  /** The assertion fails exactly when several timepoints are found and their
      number does not divide the number of images. */
  lemma OrderSeriesAssertion(images: seq<DcmImage>, close: (Vec3, Vec3) -> bool)
    ensures OrderSeries(images, close) == Err(AssertionError) <==>
              Sortable(images) && TimepointCount(images, close) > 1 &&
              |images| % TimepointCount(images, close) != 0
  {
  }

  /** With `tp > 1` timepoints and `n` images per timepoint, a missing
      instance number breaks the block sort; otherwise the result is the
      timepoint-major layout. */
  lemma OrderSeriesLayout(images: seq<DcmImage>, close: (Vec3, Vec3) -> bool, tp: nat, n: nat)
    requires Sortable(images) && tp == TimepointCount(images, close) && tp > 1
    requires |images| % tp == 0 && n == |images| / tp
    ensures |SpatialSort(images)| == n * tp
    ensures OrderSeries(images, close) ==
              if AllNumbered(SpatialSort(images)) then Ok(TimepointOrder(SpatialSort(images), tp, n))
              else Err(TypeError)
  {
    DivExact(|images|, tp, n);
  }

  lemma OrderSpatialPermutation(spatial: seq<DcmImage>, close: (Vec3, Vec3) -> bool)
    requires |spatial| > 0 && AllPositioned(spatial) && OrderSpatial(spatial, close).Ok?
    ensures multiset(Map(OrderSpatial(spatial, close).value, Untimed)) == multiset(Map(spatial, Untimed))
  {
    var tp := Timepoints(PositionsOf(spatial), close);
    if tp > 1 {
      DivExact(|spatial|, tp, |spatial| / tp);
      TimepointOrderPermutation(spatial, tp, |spatial| / tp);
    }
  }

  /** The ordering of a series is a permutation of it, once the assigned
      timepoints are set aside. */
  lemma OrderSeriesPermutation(images: seq<DcmImage>, close: (Vec3, Vec3) -> bool)
    requires OrderSeries(images, close).Ok?
    ensures multiset(Map(OrderSeries(images, close).value, Untimed)) == multiset(Map(images, Untimed))
  {
    if images[0].position.Some? && Direction(images[0]).Some? {
      var spatial := SpatialSort(images);
      SpatialSortCorrect(images);
      PositionedPerm(spatial, images);
      PermMap(spatial, images, Untimed);
      OrderSpatialPermutation(spatial, close);
    }
  }

  // ---------------------------------------------------------------------
  // sort_series_images: the loops

  /** The loop that re-sorts each block of `tp` images by instance number
      and writes it back into the same slice. */
  method SortBlocksInPlace(spatial: seq<DcmImage>, tp: nat, perTimepoint: nat) returns (sorted: seq<DcmImage>)
    requires tp > 0 && |spatial| == perTimepoint * tp
    ensures sorted == Concat(SortedBlocks(spatial, tp))
  {
    sorted := spatial;
    var k, lo := 0, 0;
    while k < perTimepoint
      invariant 0 <= k <= perTimepoint && lo == k * tp && lo <= |spatial| == |sorted|
      invariant sorted == Concat(SortedBlocks(spatial[..lo], tp)) + spatial[lo..]
      invariant |Concat(SortedBlocks(spatial[..lo], tp))| == lo
    {
      var hi := lo + tp;
      assert hi <= |spatial| && hi == (k + 1) * tp by {
        BlockBounds(k, 0, perTimepoint, tp);
        Distrib(k, k + 1, tp);
      }
      assert && sorted[..lo] + SortByInstance(sorted[lo..hi]) + sorted[hi..] == Concat(SortedBlocks(spatial[..hi], tp)) + spatial[hi..]
             && |Concat(SortedBlocks(spatial[..hi], tp))| == hi by {
        RewriteStep(spatial, tp, k, lo, SortByInstance, sorted);
      }
      sorted := sorted[..lo] + SortByInstance(sorted[lo..hi]) + sorted[hi..];
      k, lo := k + 1, hi;
    }
    assert spatial[..lo] == spatial;
  }

  /** The nested loops over timepoints and slices that stamp each image with
      its timepoint and append it. */
  method EmitByTimepoint(flat: seq<DcmImage>, ghost blocks: seq<seq<DcmImage>>, tp: nat, perTimepoint: nat)
    returns (result: seq<DcmImage>)
    requires Rectangular(blocks, tp) && |blocks| == perTimepoint && flat == Concat(blocks)
    ensures result == Concat(Columns(blocks, tp))
  {
    ghost var cols := Columns(blocks, tp);
    result := [];
    var t := 0;
    while t < tp
      invariant 0 <= t <= tp
      invariant result == Concat(cols[..t])
    {
      var i := 0;
      while i < perTimepoint
        invariant 0 <= i <= perTimepoint
        invariant result == Concat(cols[..t]) + cols[t][..i]
      {
        ConcatAt(blocks, tp, i, t);
        ColumnsAt(blocks, tp, t, i);
        var image := flat[i * tp + t];
        result := result + [image.(timepoint := Some(t))];
        assert cols[t][..i + 1] == cols[t][..i] + [cols[t][i]];
        i := i + 1;
      }
      assert cols[t][..perTimepoint] == cols[t];
      assert cols[..t + 1][..t] == cols[..t];
      t := t + 1;
    }
    assert cols[..tp] == cols;
  }

  /** `sort_series_images`, step by step: spatial sort, timepoint count, the
      length check, the block re-sort, then the timepoint-major emission. */
  method SortSeriesImages(images: seq<DcmImage>, close: (Vec3, Vec3) -> bool)
    returns (r: Result<seq<DcmImage>>)
    ensures r == OrderSeries(images, close)
  {
    if |images| == 0 {
      return Err(IndexError);
    }
    if images[0].position.None? || Direction(images[0]).None? {
      return Ok(images);
    }
    if !AllPositioned(images) {
      return Err(TypeError);
    }
    var spatial := SpatialSort(images);
    SpatialSortCorrect(images);
    PositionedPerm(spatial, images);
    var tp := DetermineTimepoints(PositionsOf(spatial), close);
    if tp == 1 {
      return Ok(spatial);
    }
    var perTimepoint := |spatial| / tp;
    if |spatial| % tp != 0 {
      return Err(AssertionError);
    }
    if !AllNumbered(spatial) {
      return Err(TypeError);
    }
    DivExact(|spatial|, tp, perTimepoint);
    BlocksRectangular(spatial, tp, perTimepoint);
    var sorted := SortBlocksInPlace(spatial, tp, perTimepoint);
    var result := EmitByTimepoint(sorted, SortedBlocks(spatial, tp), tp, perTimepoint);
    return Ok(result);
  }

  // ---------------------------------------------------------------------
  // sort_images

  /** The concatenated orderings of the groups, stopping at the first group
      whose ordering raises. */
  function OrderGroups(groups: seq<seq<DcmImage>>, close: (Vec3, Vec3) -> bool): Result<seq<DcmImage>>
  {
    if |groups| == 0 then Ok([])
    else
      var prev := OrderGroups(groups[..|groups| - 1], close);
      if prev.Err? then prev
      else
        var last := OrderSeries(groups[|groups| - 1], close);
        if last.Err? then last else Ok(prev.value + last.value)
  }

  /** `sort_images`: every series ordered on its own, series in ascending
      UID order. */
  function SortImagesSpec(images: seq<DcmImage>, close: (Vec3, Vec3) -> bool): Result<seq<DcmImage>>
  {
    OrderGroups(GroupBySeries(images), close)
  }

  lemma {:induction false} OrderGroupsPermutation(groups: seq<seq<DcmImage>>, close: (Vec3, Vec3) -> bool)
    requires OrderGroups(groups, close).Ok?
    ensures multiset(Map(OrderGroups(groups, close).value, Untimed)) == multiset(Map(Concat(groups), Untimed))
    decreases |groups|
  {
    if |groups| > 0 {
      var n := |groups|;
      OrderGroupsPermutation(groups[..n - 1], close);
      OrderSeriesPermutation(groups[n - 1], close);
      MapAppend(OrderGroups(groups[..n - 1], close).value, OrderSeries(groups[n - 1], close).value, Untimed);
      MapAppend(Concat(groups[..n - 1]), groups[n - 1], Untimed);
    }
  }

  lemma {:induction false} NoIndexError(groups: seq<seq<DcmImage>>, close: (Vec3, Vec3) -> bool)
    requires forall i :: 0 <= i < |groups| ==> |groups[i]| > 0
    ensures OrderGroups(groups, close) != Err(IndexError)
    decreases |groups|
  {
    if |groups| > 0 {
      var n := |groups|;
      NoIndexError(groups[..n - 1], close);
      OrderSeriesEmpty(groups[n - 1], close);
    }
  }

  /** `sort_images` never meets an empty group, and when it succeeds it
      returns a permutation of its input (timepoints set aside). */
  lemma SortImagesPermutation(images: seq<DcmImage>, close: (Vec3, Vec3) -> bool)
    ensures SortImagesSpec(images, close) != Err(IndexError)
    ensures SortImagesSpec(images, close).Ok? ==>
      multiset(Map(SortImagesSpec(images, close).value, Untimed)) == multiset(Map(images, Untimed))
  {
    var groups := GroupBySeries(images);
    GroupBySeriesGroups(images);
    GroupBySeriesCover(images);
    NoIndexError(groups, close);
    if SortImagesSpec(images, close).Ok? {
      OrderGroupsPermutation(groups, close);
      PermMap(Concat(groups), images, Untimed);
    }
  }

  lemma {:induction false} ErrorPersists(groups: seq<seq<DcmImage>>, k: nat, close: (Vec3, Vec3) -> bool)
    requires k <= |groups| && OrderGroups(groups[..k], close).Err?
    ensures OrderGroups(groups, close) == OrderGroups(groups[..k], close)
    decreases |groups| - k
  {
    if k < |groups| {
      assert groups[..k + 1][..k] == groups[..k];
      ErrorPersists(groups, k + 1, close);
    } else {
      assert groups[..k] == groups;
    }
  }

  /** `sort_images`: orders each series group and extends the result. */
  method SortImages(images: seq<DcmImage>, close: (Vec3, Vec3) -> bool) returns (r: Result<seq<DcmImage>>)
    ensures r == SortImagesSpec(images, close)
  {
    var groups := GroupBySeries(images);
    var result := [];
    var k := 0;
    while k < |groups|
      invariant 0 <= k <= |groups|
      invariant OrderGroups(groups[..k], close) == Ok(result)
    {
      var sorted := SortSeriesImages(groups[k], close);
      assert groups[..k + 1][..k] == groups[..k];
      if sorted.Err? {
        ErrorPersists(groups, k + 1, close);
        return sorted;
      }
      result := result + sorted.value;
      k := k + 1;
    }
    assert groups[..k] == groups;
    return Ok(result);
  }

}
