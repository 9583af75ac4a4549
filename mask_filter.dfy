/** The test tool's split of a model response into segmentation masks and
    DICOM payloads (secondary captures, structured reports, ...): which parts
    of the manifest are masks, and which returned buffers are masks. The set
    of DICOM binary types is a parameter. */
module MaskFilter {
  import opened Common
  import opened Sorting
  import opened Manifest

  function NotDicom(dicomTypes: set<string>): Part -> bool
  {
    p => !IsDicomPart(p, dicomTypes)
  }

  /** `[p for p in parts if p['binary_type'] not in DICOM_BINARY_TYPES]`; a
      part without `binary_type` raises KeyError. */
  function FilterMaskParts(parts: seq<Part>, dicomTypes: set<string>): (r: Result<seq<Part>>)
    ensures r.Ok? <==> AllTyped(parts)
    ensures r.Ok? ==> forall p :: p in r.value <==> p in parts && !IsDicomPart(p, dicomTypes)
  {
    if AllTyped(parts) then
      var kept := Filter(parts, NotDicom(dicomTypes));
      assert forall p :: p in kept <==> p in parts && !IsDicomPart(p, dicomTypes) by {
        forall p ensures p in kept <==> p in parts && !IsDicomPart(p, dicomTypes) {
          FilterMembers(parts, NotDicom(dicomTypes), p);
        }
      }
      Ok(kept)
    else Err(KeyError)
  }

  /** `np.in1d(range(masks.shape[0]), secondary_capture_indexes)`: mask i is a
      secondary capture exactly when part i exists and has a DICOM type. */
  function CaptureFlags(count: nat, parts: seq<Part>, dicomTypes: set<string>): (flags: seq<bool>)
    ensures |flags| == count
  {
    seq(count, i => 0 <= i < |parts| && IsDicomPart(parts[i], dicomTypes))
  }

  /** Boolean-mask indexing `masks[flags]` (want = true) or `masks[~flags]`
      (want = false). */
  function Select<M>(s: seq<M>, flags: seq<bool>, want: bool): (r: seq<M>)
    requires |flags| == |s|
    ensures |r| <= |s|
  {
    if |s| == 0 then []
    else (if flags[0] == want then [s[0]] else []) + Select(s[1..], flags[1..], want)
  }

  /** Interleaves two lists back into one: position i comes from `yes` when
      flags[i] holds and from `no` otherwise, each list read in order. */
  function Merge<M>(flags: seq<bool>, no: seq<M>, yes: seq<M>): seq<M>
    decreases |flags|
  {
    if |flags| == 0 then []
    else if flags[0] then
      (if |yes| == 0 then [] else [yes[0]] + Merge(flags[1..], no, yes[1..]))
    else
      (if |no| == 0 then [] else [no[0]] + Merge(flags[1..], no[1..], yes))
  }

  function Count(flags: seq<bool>, want: bool): nat
  {
    if |flags| == 0 then 0 else (if flags[0] == want then 1 else 0) + Count(flags[1..], want)
  }

  /** `filter_masks_by_binary_type`: returns (binary masks, secondary
      captures). A part without `binary_type` raises KeyError. */
  function FilterMasksByBinaryType<M>(masks: seq<M>, parts: seq<Part>, dicomTypes: set<string>)
    : (r: Result<(seq<M>, seq<M>)>)
    ensures r.Ok? <==> AllTyped(parts)
    ensures r.Ok? ==> |r.value.0| + |r.value.1| == |masks|
    ensures r.Ok? && |masks| == 0 ==> r.value == ([], [])
  {
    if AllTyped(parts) then
      var flags := CaptureFlags(|masks|, parts, dicomTypes);
      SelectSplit(masks, flags);
      Ok((Select(masks, flags, false), Select(masks, flags, true)))
    else Err(KeyError)
  }

  lemma {:induction false} SelectCount<M>(s: seq<M>, flags: seq<bool>, want: bool)
    requires |flags| == |s|
    ensures |Select(s, flags, want)| == Count(flags, want)
  {
    if |s| > 0 {
      SelectCount(s[1..], flags[1..], want);
    }
  }

  lemma {:induction false} CountSplit(flags: seq<bool>)
    ensures Count(flags, false) + Count(flags, true) == |flags|
  {
    if |flags| > 0 {
      CountSplit(flags[1..]);
    }
  }

  lemma SelectSplit<M>(s: seq<M>, flags: seq<bool>)
    requires |flags| == |s|
    ensures |Select(s, flags, false)| + |Select(s, flags, true)| == |s|
  {
    SelectCount(s, flags, false);
    SelectCount(s, flags, true);
    CountSplit(flags);
  }

  /** The two outputs partition the input: interleaving them again by the
      same flags gives back every mask, in its original place. */
  lemma {:induction false} SelectMerge<M>(s: seq<M>, flags: seq<bool>)
    requires |flags| == |s|
    ensures Merge(flags, Select(s, flags, false), Select(s, flags, true)) == s
  {
    if |s| > 0 {
      var no, yes := Select(s[1..], flags[1..], false), Select(s[1..], flags[1..], true);
      SelectMerge(s[1..], flags[1..]);
      if flags[0] {
        assert Select(s, flags, true) == [s[0]] + yes;
        assert Select(s, flags, false) == no;
        assert ([s[0]] + yes)[1..] == yes;
      } else {
        assert Select(s, flags, false) == [s[0]] + no;
        assert Select(s, flags, true) == yes;
        assert ([s[0]] + no)[1..] == no;
      }
      assert s == [s[0]] + s[1..];
    }
  }

  /** Selecting position i's element by a flag set exactly at i. */
  lemma {:induction false} SelectMember<M>(s: seq<M>, flags: seq<bool>, want: bool, i: nat)
    requires |flags| == |s| && i < |s| && flags[i] == want
    ensures s[i] in Select(s, flags, want)
  {
    if i > 0 {
      SelectMember(s[1..], flags[1..], want, i - 1);
    }
  }

  /** Every element of an output sits at a position whose flag routes it
      there. */
  lemma {:induction false} SelectOrigin<M>(s: seq<M>, flags: seq<bool>, want: bool, x: M)
    requires |flags| == |s| && x in Select(s, flags, want)
    ensures exists i :: 0 <= i < |s| && s[i] == x && flags[i] == want
  {
    if s[0] == x && flags[0] == want {
    } else {
      SelectOrigin(s[1..], flags[1..], want, x);
      var i :| 0 <= i < |s[1..]| && s[1..][i] == x && flags[1..][i] == want;
      assert s[i + 1] == x && flags[i + 1] == want;
    }
  }

  /** Mask i lands among the secondary captures iff part i has a DICOM
      type, and among the binary masks otherwise; together the outputs hold
      every mask in order. */
  lemma FilterMasksRouting<M>(masks: seq<M>, parts: seq<Part>, dicomTypes: set<string>, i: nat)
    requires AllTyped(parts) && i < |masks|
    ensures var r := FilterMasksByBinaryType(masks, parts, dicomTypes).value;
            && (i < |parts| && IsDicomPart(parts[i], dicomTypes) ==> masks[i] in r.1)
            && (!(i < |parts| && IsDicomPart(parts[i], dicomTypes)) ==> masks[i] in r.0)
            && Merge(CaptureFlags(|masks|, parts, dicomTypes), r.0, r.1) == masks
  {
    var flags := CaptureFlags(|masks|, parts, dicomTypes);
    SelectMember(masks, flags, flags[i], i);
    SelectMerge(masks, flags);
  }

  /** Selecting the parts by the flags of their own types is filtering them. */
  lemma {:induction false} SelectIsFilter(parts: seq<Part>, flags: seq<bool>, dicomTypes: set<string>)
    requires |flags| == |parts|
    requires forall i :: 0 <= i < |parts| ==> flags[i] == IsDicomPart(parts[i], dicomTypes)
    ensures Select(parts, flags, false) == Filter(parts, NotDicom(dicomTypes))
  {
    if |parts| > 0 {
      SelectIsFilter(parts[1..], flags[1..], dicomTypes);
    }
  }

  /** When there is one buffer per part, the binary masks line up one to one
      with the mask parts that `filter_mask_parts` keeps. */
  lemma MasksPairWithParts<M>(masks: seq<M>, parts: seq<Part>, dicomTypes: set<string>)
    requires AllTyped(parts) && |masks| == |parts|
    ensures |FilterMasksByBinaryType(masks, parts, dicomTypes).value.0|
            == |FilterMaskParts(parts, dicomTypes).value|
  {
    var flags := CaptureFlags(|masks|, parts, dicomTypes);
    SelectCount(masks, flags, false);
    SelectCount(parts, flags, false);
    SelectIsFilter(parts, flags, dicomTypes);
  }
}
