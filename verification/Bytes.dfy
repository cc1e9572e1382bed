/** Bytes, little-endian integers and runs of fixed-width fields. */
module Bytes {
  import opened Wrappers

  type u8 = x: int | 0 <= x < 0x100
  type u32 = x: int | 0 <= x < 0x1_0000_0000
  type u64 = x: int | 0 <= x < 0x1_0000_0000_0000_0000

  const MAX_U16 := 0xFFFF
  const MAX_U32 := 0xFFFF_FFFF

  function Pow256(n: nat): (p: nat)
    ensures p >= 1
  {
    if n == 0 then 1 else 256 * Pow256(n - 1)
  }

  lemma Widths()
    ensures Pow256(2) == 0x1_0000
    ensures Pow256(4) == 0x1_0000_0000
    ensures Pow256(8) == 0x1_0000_0000_0000_0000
  {
  }

  /** The low `n` bytes of `v`, least significant first (`to_le_bytes`). */
  function LE(v: nat, n: nat): (s: seq<u8>)
    ensures |s| == n
    decreases n, v
  {
    if n == 0 then [] else [v % 256] + LE(v / 256, n - 1)
  }

  /** `from_le_bytes`. */
  function Value(s: seq<u8>): nat {
    if s == [] then 0 else s[0] + 256 * Value(s[1..])
  }

  lemma {:induction false} ValueOfLE(v: nat, n: nat)
    requires v < Pow256(n)
    ensures Value(LE(v, n)) == v
    decreases n
  {
    if n > 0 {
      ValueOfLE(v / 256, n - 1);
      assert LE(v, n)[1..] == LE(v / 256, n - 1);
    }
  }

  lemma {:induction false} ValueBound(s: seq<u8>)
    ensures Value(s) < Pow256(|s|)
  {
    if s != [] {
      ValueBound(s[1..]);
    }
  }

  /** A record of fixed-width fields, written one after the other. */
  function Fields(vals: seq<nat>, widths: seq<nat>): (s: seq<u8>)
    requires |vals| == |widths|
  {
    if vals == [] then [] else LE(vals[0], widths[0]) + Fields(vals[1..], widths[1..])
  }

  lemma NoFields()
    ensures Fields([], []) == []
  {
  }

  lemma FieldsCons(v: nat, vals: seq<nat>, w: nat, widths: seq<nat>)
    requires |vals| == |widths|
    ensures Fields([v] + vals, [w] + widths) == LE(v, w) + Fields(vals, widths)
  {
    assert ([v] + vals)[1..] == vals && ([w] + widths)[1..] == widths;
  }

  lemma FieldsFirst(vals: seq<nat>, widths: seq<nat>)
    requires |vals| == |widths| > 0
    ensures Fields(vals, widths) == LE(vals[0], widths[0]) + Fields(vals[1..], widths[1..])
  {
  }

  lemma Regroup(a: seq<u8>, b: seq<u8>, c: seq<u8>)
    ensures a + (b + c) == a + b + c
  {
  }

  lemma {:induction false} FieldsConcat(v: seq<nat>, w: seq<nat>, vals: seq<nat>, widths: seq<nat>)
    requires |v| == |w| && |vals| == |widths|
    ensures Fields(v + vals, w + widths) == Fields(v, w) + Fields(vals, widths)
  {
    if v == [] {
      assert v + vals == vals && w + widths == widths;
    } else {
      hide *;
      FieldsConcat(v[1..], w[1..], vals, widths);
      FieldsFirst(v, w);
      FieldsFirst(v + vals, w + widths);
      assert (v + vals)[1..] == v[1..] + vals && (w + widths)[1..] == w[1..] + widths;
      Regroup(LE(v[0], w[0]), Fields(v[1..], w[1..]), Fields(vals, widths));
    }
  }

  /** Reads the fields of such a record; None when the input ends early. */
  function ReadFields(s: seq<u8>, widths: seq<nat>): (r: Option<(seq<nat>, seq<u8>)>)
    ensures r.Some? ==> |r.value.0| == |widths| && |r.value.1| <= |s|
  {
    if widths == [] then Some(([], s))
    else if |s| < widths[0] then None
    else
      var (vs, rest) :- ReadFields(s[widths[0]..], widths[1..]);
      Some(([Value(s[..widths[0]])] + vs, rest))
  }

  ghost predicate Fit(vals: seq<nat>, widths: seq<nat>) {
    |vals| == |widths| && forall i :: 0 <= i < |vals| ==> vals[i] < Pow256(widths[i])
  }

  lemma {:induction false} FieldsRoundTrip(vals: seq<nat>, widths: seq<nat>, tail: seq<u8>)
    requires Fit(vals, widths)
    ensures ReadFields(Fields(vals, widths) + tail, widths) == Some((vals, tail))
  {
    if vals == [] {
      assert Fields(vals, widths) + tail == tail;
    } else {
      FieldsRoundTrip(vals[1..], widths[1..], tail);
      FirstField(vals, widths, tail);
      assert [vals[0]] + vals[1..] == vals;
    }
  }

  lemma FirstField(vals: seq<nat>, widths: seq<nat>, tail: seq<u8>)
    requires Fit(vals, widths) && vals != []
    ensures var s := Fields(vals, widths) + tail;
            && |s| >= widths[0] && Value(s[..widths[0]]) == vals[0]
            && s[widths[0]..] == Fields(vals[1..], widths[1..]) + tail
  {
    hide Value;
    hide LE;
    var front, rest := LE(vals[0], widths[0]), Fields(vals[1..], widths[1..]);
    ValueOfLE(vals[0], widths[0]);
    assert Fields(vals, widths) == front + rest;
    hide *;
    Front(front, rest, tail);
  }

  lemma Front(a: seq<u8>, b: seq<u8>, tail: seq<u8>)
    ensures (a + b + tail)[..|a|] == a && (a + b + tail)[|a|..] == b + tail
  {
  }

  /** A record that reads well reads the same with more input behind it. */
  lemma {:induction false} ReadFieldsExtends(s: seq<u8>, widths: seq<nat>, more: seq<u8>)
    requires ReadFields(s, widths).Some?
    ensures var (vs, rest) := ReadFields(s, widths).value;
            ReadFields(s + more, widths) == Some((vs, rest + more))
  {
    if widths != [] {
      ReadFieldsExtends(s[widths[0]..], widths[1..], more);
      assert (s + more)[..widths[0]] == s[..widths[0]];
      assert (s + more)[widths[0]..] == s[widths[0]..] + more;
    }
  }

  /** Total width of the fields from the `i`-th on. */
  function Sum(widths: seq<nat>, i: nat): nat
    decreases |widths| - i
  {
    if i >= |widths| then 0 else widths[i] + Sum(widths, i + 1)
  }

  lemma {:induction false} FieldsLength(vals: seq<nat>, widths: seq<nat>)
    requires |vals| == |widths|
    ensures |Fields(vals, widths)| == Sum(widths, 0)
  {
    FieldsLengthFrom(vals, widths, 0);
    assert vals[0..] == vals && widths[0..] == widths;
  }

  lemma {:induction false} FieldsLengthFrom(vals: seq<nat>, widths: seq<nat>, i: nat)
    requires |vals| == |widths| && i <= |vals|
    ensures |Fields(vals[i..], widths[i..])| == Sum(widths, i)
    decreases |vals| - i
  {
    if i < |vals| {
      FieldsLengthFrom(vals, widths, i + 1);
      assert vals[i..][1..] == vals[i + 1..] && widths[i..][1..] == widths[i + 1..];
    }
  }
}
