/** Lists of equal-length rows: reading them flat, cutting a flat list into
    rows, and reading a matrix column by column. Python's slice arithmetic
    `s[k*w:(k+1)*w]` and the index `i*w+t` are stated here once, for any
    element type. */
module Matrix {
  import opened Common
  import opened Sorting

  lemma MulMono(a: nat, b: nat, c: nat)
    requires a <= b
    ensures a * c <= b * c
  {
  }

  lemma Distrib(m: nat, k: nat, w: nat)
    requires k == m + 1
    ensures k * w == m * w + w
  {
  }

  lemma BlockBounds(k: nat, t: nat, s: nat, w: nat)
    requires k < s && t < w
    ensures k * w + t < s * w
    ensures k * w + w <= s * w
  {
    MulMono(k + 1, s, w);
  }

  lemma DivExact(n: nat, w: nat, s: nat)
    requires w > 0 && n % w == 0 && s == n / w
    ensures n == s * w
  {
  }

  /** Rows of equal width `w`. */
  ghost predicate Rectangular<X>(rows: seq<seq<X>>, w: nat)
  {
    forall i :: 0 <= i < |rows| ==> |rows[i]| == w
  }

  /** Reading a flat list of rows of width `w`: element `t` of row `i` sits
      at `i * w + t`. */
  lemma {:induction false} ConcatAt<X>(rows: seq<seq<X>>, w: nat, i: nat, t: nat)
    requires Rectangular(rows, w) && i < |rows| && t < w
    ensures i * w + t < |Concat(rows)|
    ensures Concat(rows)[i * w + t] == rows[i][t]
    decreases |rows|
  {
    var n := |rows|;
    var init := rows[..n - 1];
    ConcatLength(init, w);
    ConcatLength(rows, w);
    if i < n - 1 {
      ConcatAt(init, w, i, t);
      BlockBounds(i, t, n - 1, w);
    } else {
      assert i * w == |Concat(init)|;
    }
  }

  /** Python's slices `s[k*w:(k+1)*w]` for consecutive `k`: consecutive
      pieces of width `w`, the last one possibly short. */
  function Chunks<X>(s: seq<X>, w: nat): seq<seq<X>>
    requires w > 0
    decreases |s|
  {
    if |s| == 0 then []
    else if |s| <= w then [s]
    else [s[..w]] + Chunks(s[w..], w)
  }

  lemma ChunksUnfold<X>(s: seq<X>, w: nat)
    requires 0 < w <= |s|
    ensures Chunks(s, w) == [s[..w]] + Chunks(s[w..], w)
  {
    if |s| == w {
      assert s[..w] == s && s[w..] == [];
    }
  }

  /** Cutting a prefix made of whole pieces, then the rest, is cutting the
      whole. */
  lemma {:induction false} ChunksAppend<X>(a: seq<X>, b: seq<X>, w: nat, m: nat)
    requires w > 0 && |a| == m * w
    ensures Chunks(a + b, w) == Chunks(a, w) + Chunks(b, w)
    decreases m
  {
    if m == 0 {
      assert a + b == b;
    } else {
      Distrib(m - 1, m, w);
      ChunksUnfold(a, w);
      ChunksUnfold(a + b, w);
      assert (a + b)[..w] == a[..w];
      assert (a + b)[w..] == a[w..] + b;
      ChunksAppend(a[w..], b, w, m - 1);
    }
  }

  lemma {:induction false} ChunksConcat<X>(s: seq<X>, w: nat)
    requires w > 0
    ensures Concat(Chunks(s, w)) == s
    decreases |s|
  {
    if |s| > w {
      var c := Chunks(s, w);
      ChunksConcat(s[w..], w);
      ConcatCons(c);
      assert c[1..] == Chunks(s[w..], w);
      assert s == s[..w] + s[w..];
    } else if |s| > 0 {
      assert Concat([s]) == Concat([s][..0]) + s;
    }
  }

  /** With `|s| == n * w` there are exactly `n` chunks, all of width `w`,
      chunk `i` being `s[i*w .. i*w+w]`. */
  lemma {:induction false} ChunksShape<X>(s: seq<X>, w: nat, n: nat)
    requires w > 0 && |s| == n * w
    ensures |Chunks(s, w)| == n
    ensures forall i :: 0 <= i < n ==> i * w + w <= |s| && Chunks(s, w)[i] == s[i * w..i * w + w]
    decreases n
  {
    if n > 0 {
      Distrib(n - 1, n, w);
      var rest := s[w..];
      ChunksUnfold(s, w);
      ChunksShape(rest, w, n - 1);
      var c := Chunks(s, w);
      var cr := Chunks(rest, w);
      assert c == [s[..w]] + cr;
      forall i | 0 <= i < n
        ensures i * w + w <= |s| && c[i] == s[i * w..i * w + w]
      {
        BlockBounds(i, 0, n, w);
        if i == 0 {
          assert i * w == 0;
        } else {
          var i' := i - 1;
          Distrib(i', i, w);
          var lo := i' * w;
          assert c[i] == cr[i'] == rest[lo..lo + w];
          assert rest[lo..lo + w] == s[lo + w..lo + w + w];
        }
      }
    } else {
      assert s == [];
    }
  }

  /** Rows with pairwise equal multisets concatenate to equal multisets. */
  lemma {:induction false} ConcatRowPerm<X>(a: seq<seq<X>>, b: seq<seq<X>>)
    requires |a| == |b| && forall i :: 0 <= i < |a| ==> multiset(a[i]) == multiset(b[i])
    ensures multiset(Concat(a)) == multiset(Concat(b))
    decreases |a|
  {
    if |a| > 0 {
      ConcatRowPerm(a[..|a| - 1], b[..|b| - 1]);
    }
  }

  /** A matrix read column by column, each element stamped with its column
      index. */
  function ColumnsBy<X>(rows: seq<seq<X>>, w: nat, stamp: (X, nat) -> X): (cols: seq<seq<X>>)
    requires Rectangular(rows, w)
    ensures |cols| == w && Rectangular(cols, |rows|)
  {
    seq(w, t requires 0 <= t < w =>
      seq(|rows|, i requires 0 <= i < |rows| => stamp(rows[i][t], t)))
  }

  lemma ColumnsByElem<X>(rows: seq<seq<X>>, w: nat, stamp: (X, nat) -> X, t: nat, i: nat)
    requires Rectangular(rows, w) && t < w && i < |rows|
    ensures ColumnsBy(rows, w, stamp)[t][i] == stamp(rows[i][t], t)
  {
  }

  /** Read flat, the column-major matrix of `n` rows has element `t` of row
      `i` at `t * n + i`. */
  lemma ColumnsByAt<X>(rows: seq<seq<X>>, w: nat, n: nat, stamp: (X, nat) -> X, t: nat, i: nat)
    requires Rectangular(rows, w) && |rows| == n && t < w && i < n
    ensures t * n + i < w * n == |Concat(ColumnsBy(rows, w, stamp))|
    ensures Concat(ColumnsBy(rows, w, stamp))[t * n + i] == stamp(rows[i][t], t)
  {
    var cols := ColumnsBy(rows, w, stamp);
    ConcatLength(cols, n);
    BlockBounds(t, i, w, n);
    ConcatAt(cols, n, t, i);
    ColumnsByElem(rows, w, stamp, t, i);
  }

  /** The same matrix read column by column, with nothing stamped. */
  function Transpose<X>(rows: seq<seq<X>>, w: nat): (cols: seq<seq<X>>)
    requires Rectangular(rows, w)
    ensures |cols| == w && Rectangular(cols, |rows|)
  {
    seq(w, t requires 0 <= t < w => seq(|rows|, i requires 0 <= i < |rows| => rows[i][t]))
  }

  lemma {:induction false} ConcatSnocColumns<X>(cols: seq<seq<X>>, cols': seq<seq<X>>, last: seq<X>, k: nat)
    requires |cols| == |cols'| == |last| && k <= |cols|
    requires forall t :: 0 <= t < |cols| ==> cols[t] == cols'[t] + [last[t]]
    ensures multiset(Concat(cols[..k])) == multiset(Concat(cols'[..k])) + multiset(last[..k])
    decreases k
  {
    if k > 0 {
      ConcatSnocColumns(cols, cols', last, k - 1);
      assert cols[..k][..k - 1] == cols[..k - 1];
      assert cols'[..k][..k - 1] == cols'[..k - 1];
      assert last[..k] == last[..k - 1] + [last[k - 1]];
    }
  }

  /** Reading a matrix by columns instead of rows loses and duplicates
      nothing. */
  lemma {:induction false} TransposePerm<X>(rows: seq<seq<X>>, w: nat)
    requires Rectangular(rows, w)
    ensures multiset(Concat(Transpose(rows, w))) == multiset(Concat(rows))
    decreases |rows|
  {
    var cols := Transpose(rows, w);
    var n := |rows|;
    if n == 0 {
      ConcatLength(cols, 0);
    } else {
      var init := rows[..n - 1];
      var cols' := Transpose(init, w);
      TransposePerm(init, w);
      ConcatSnocColumns(cols, cols', rows[n - 1], w);
      assert cols[..w] == cols && cols'[..w] == cols' && rows[n - 1][..w] == rows[n - 1];
    }
  }

  function MapRows<A, B>(rows: seq<seq<A>>, f: A -> B): (r: seq<seq<B>>)
    ensures |r| == |rows| && forall i :: 0 <= i < |rows| ==> r[i] == Map(rows[i], f)
  {
    seq(|rows|, i requires 0 <= i < |rows| => Map(rows[i], f))
  }

  lemma {:induction false} MapConcat<A, B>(rows: seq<seq<A>>, f: A -> B)
    ensures Map(Concat(rows), f) == Concat(MapRows(rows, f))
    decreases |rows|
  {
    var n := |rows|;
    if n > 0 {
      MapConcat(rows[..n - 1], f);
      MapAppend(Concat(rows[..n - 1]), rows[n - 1], f);
      assert MapRows(rows, f)[..n - 1] == MapRows(rows[..n - 1], f);
    } else {
      assert Concat(rows) == [];
    }
  }

  /** Applying `f` to every element after stamping is the plain column
      reading of the rows mapped by `f`, when `f` forgets the stamp. */
  lemma ColumnsByMap<X, Y>(rows: seq<seq<X>>, w: nat, stamp: (X, nat) -> X, f: X -> Y)
    requires Rectangular(rows, w)
    requires forall x, t :: f(stamp(x, t)) == f(x)
    ensures Rectangular(MapRows(rows, f), w)
    ensures MapRows(ColumnsBy(rows, w, stamp), f) == Transpose(MapRows(rows, f), w)
  {
    var cols := ColumnsBy(rows, w, stamp);
    var mr := MapRows(rows, f);
    var lhs := MapRows(cols, f);
    var rhs := Transpose(mr, w);
    forall t | 0 <= t < w ensures lhs[t] == rhs[t] {
      forall i | 0 <= i < |rows| ensures lhs[t][i] == rhs[t][i] {
        ColumnsByElem(rows, w, stamp, t, i);
        assert lhs[t][i] == f(cols[t][i]);
        assert rhs[t][i] == mr[i][t] == f(rows[i][t]);
      }
    }
  }

  lemma ConcatSnoc<X>(rows: seq<seq<X>>, last: seq<X>)
    ensures Concat(rows + [last]) == Concat(rows) + last
  {
    assert (rows + [last])[..|rows|] == rows;
  }

  /** One pass of a loop that rewrites consecutive slices of width `w` in
      place: once the first `lo` elements hold the rewritten pieces, rewriting
      slice `[lo, lo + w)` extends that prefix by one piece. */
  lemma RewriteStep<X>(s: seq<X>, w: nat, k: nat, lo: nat, f: seq<X> -> seq<X>, r: seq<X>)
    requires w > 0 && lo == k * w && lo + w <= |s|
    requires r == Concat(Map(Chunks(s[..lo], w), f)) + s[lo..]
    requires |Concat(Map(Chunks(s[..lo], w), f))| == lo && |f(s[lo..lo + w])| == w
    ensures r[..lo] + f(r[lo..lo + w]) + r[lo + w..] == Concat(Map(Chunks(s[..lo + w], w), f)) + s[lo + w..]
    ensures |Concat(Map(Chunks(s[..lo + w], w), f))| == lo + w
  {
    var hi := lo + w;
    var piece := s[lo..hi];
    var done := Map(Chunks(s[..lo], w), f);
    assert s[..hi] == s[..lo] + piece;
    ChunksAppend(s[..lo], piece, w, k);
    assert Chunks(piece, w) == [piece];
    MapAppend(Chunks(s[..lo], w), [piece], f);
    ConcatSnoc(done, f(piece));
    SpliceAt(r, Concat(done), s, lo, hi);
    AppendAssoc(Concat(done), f(piece), s[hi..]);
  }

  lemma ConcatMergeHead<X>(x: X, rest: seq<seq<X>>)
    requires |rest| > 0
    ensures Concat([[x] + rest[0]] + rest[1..]) == [x] + Concat(rest)
  {
    var groups := [[x] + rest[0]] + rest[1..];
    ConcatCons(rest);
    assert groups[1..] == rest[1..];
    ConcatCons(groups);
    AppendAssoc([x], rest[0], Concat(rest[1..]));
  }

  lemma ConcatConsOne<X>(x: X, rest: seq<seq<X>>)
    ensures Concat([[x]] + rest) == [x] + Concat(rest)
  {
    var groups := [[x]] + rest;
    ConcatCons(groups);
    assert groups[1..] == rest;
  }

  /** A sequence made of a prefix of length `lo` and the rest of `s` from
      `lo`: its three slices at `lo` and `hi`. */
  lemma SpliceAt<X>(r: seq<X>, done: seq<X>, s: seq<X>, lo: nat, hi: nat)
    requires |done| == lo <= hi <= |s| && r == done + s[lo..]
    ensures r[..lo] == done && r[lo..hi] == s[lo..hi] && r[hi..] == s[hi..]
  {
  }

}
