/** Shared vocabulary: optional values, results carrying the Python exception
    that the source would raise, bytes, sequence concatenation and the decimal
    rendering of natural numbers used to build field and file names. */
module Common {

  datatype Option<+T> = None | Some(value: T)

  /** The Python exception classes the modelled code raises. */
  datatype Error =
    | IndexError
    | KeyError
    | TypeError
    | ValueError
    | AssertionError
    | NotImplementedError
    | RuntimeError
    | StopIteration
    | UnboundLocalError

  datatype Result<+T> = Ok(value: T) | Err(error: Error)

  newtype byte = x: int | 0 <= x < 256

  type Bytes = seq<byte>

  /** Concatenation of a list of payloads, in order. */
  function Concat<T>(parts: seq<seq<T>>): seq<T>
  {
    if |parts| == 0 then [] else Concat(parts[..|parts| - 1]) + parts[|parts| - 1]
  }

  lemma AppendAssoc<T>(a: seq<T>, b: seq<T>, c: seq<T>)
    ensures (a + b) + c == a + (b + c)
  {
  }

  lemma AppendParts<T>(a: seq<T>, b: seq<T>)
    ensures (a + b)[..|a|] == a && (a + b)[|a|..] == b
  {
  }

  /** Concatenation splits at the first element: hashing everything equals
      hashing the head followed by the tail. */
  lemma {:induction false} ConcatCons<T>(parts: seq<seq<T>>)
    requires |parts| > 0
    ensures Concat(parts) == parts[0] + Concat(parts[1..])
  {
    if |parts| > 1 {
      var init := parts[..|parts| - 1];
      ConcatCons(init);
      assert init[1..] == parts[1..][..|parts[1..]| - 1];
    } else {
      assert parts[..0] == [];
    }
  }

  lemma {:induction false} ConcatAppend<T>(a: seq<seq<T>>, b: seq<seq<T>>)
    ensures Concat(a + b) == Concat(a) + Concat(b)
    decreases |b|
  {
    if |b| == 0 {
      assert a + b == a;
    } else {
      var b' := b[..|b| - 1];
      assert (a + b)[..|a + b| - 1] == a + b';
      ConcatAppend(a, b');
    }
  }

  lemma {:induction false} ConcatLength<T>(parts: seq<seq<T>>, n: nat)
    requires forall i :: 0 <= i < |parts| ==> |parts[i]| == n
    ensures |Concat(parts)| == |parts| * n
  {
    if |parts| > 0 {
      ConcatLength(parts[..|parts| - 1], n);
    }
  }

  function DigitChar(d: nat): (c: char)
    requires d < 10
    ensures '0' <= c <= '9'
  {
    "0123456789"[d]
  }

  /** Python's str() of a non-negative int. */
  function NatToString(n: nat): (s: string)
    ensures |s| > 0
    ensures forall i :: 0 <= i < |s| ==> '0' <= s[i] <= '9'
  {
    if n < 10 then [DigitChar(n)] else NatToString(n / 10) + [DigitChar(n % 10)]
  }

  /** Python's int() of a string of decimal digits. */
  function ParseNat(s: string): nat
    requires forall i :: 0 <= i < |s| ==> '0' <= s[i] <= '9'
  {
    if |s| == 0 then 0
    else ParseNat(s[..|s| - 1]) * 10 + ((s[|s| - 1] as int) - ('0' as int))
  }

  lemma {:induction false} ParseNatToString(n: nat)
    ensures ParseNat(NatToString(n)) == n
  {
    var s := NatToString(n);
    if n >= 10 {
      ParseNatToString(n / 10);
      assert s[..|s| - 1] == NatToString(n / 10);
    }
  }

  /** Distinct numbers render as distinct field names. */
  lemma NatToStringInjective(a: nat, b: nat)
    requires a != b
    ensures NatToString(a) != NatToString(b)
  {
    ParseNatToString(a);
    ParseNatToString(b);
  }

  /** Python's `'{}_{}'` naming of per-image output files:
      `"{index}_{base}.png"`. */
  function OutputName(index: nat, base: string): string
  {
    NatToString(index) + "_" + base + ".png"
  }

  /** The index is recoverable from an output name: the text before the first
      underscore is the decimal index, so two images never share a name. */
  lemma OutputNameInjective(i: nat, j: nat, a: string, b: string)
    requires i != j
    ensures OutputName(i, a) != OutputName(j, b)
  {
    var si, sj := NatToString(i), NatToString(j);
    NatToStringInjective(i, j);
    var x, y := OutputName(i, a), OutputName(j, b);
    if |si| < |sj| {
      assert x[|si|] == '_' && y[|si|] != '_';
    } else if |sj| < |si| {
      assert y[|sj|] == '_' && x[|sj|] != '_';
    } else {
      assert x[..|si|] == si && y[..|sj|] == sj;
    }
  }
}
