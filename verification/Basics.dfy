/**
 Bytes, little-endian integers, results, and "this buffer holds these bytes here".
 */
module Basics {

  type Byte = b: int | 0 <= b < 256

  datatype Option<+T> = None | Some(value: T)

  /** What a Go call can report. `Fault` stands for a run-time panic, or for a read
      through an unsafe slice that leaves the buffer. */
  datatype Error =
    | InvalidEncoding
    | InvalidEndianess
    | BigEndianUnsupported
    | InvalidData
    | Rejected(what: string)
    | Errno(code: nat)
    | Fault

  datatype Result<+T> = Ok(value: T) | Err(error: Error)

  // ---- Little-endian integers -------------------------------------------------

  function Pow256(w: nat): (n: nat)
    ensures n > 0
    ensures w > 0 ==> n % 2 == 0
  {
    if w == 0 then 1 else 256 * Pow256(w - 1)
  }

  function LE(n: nat, w: nat): (s: seq<Byte>)
    ensures |s| == w
  {
    if w == 0 then [] else [n % 256] + LE(n / 256, w - 1)
  }

  function FromLE(s: seq<Byte>): (n: nat)
    ensures n < Pow256(|s|)
  {
    if s == [] then 0 else s[0] + 256 * FromLE(s[1..])
  }

  lemma {:induction false} FromLEInvertsLE(n: nat, w: nat)
    requires n < Pow256(w)
    ensures FromLE(LE(n, w)) == n
  {
    if w > 0 {
      FromLEInvertsLE(n / 256, w - 1);
      assert LE(n, w)[1..] == LE(n / 256, w - 1);
    }
  }

  /** The two's-complement reading of a `w`-byte word. */
  function ToSigned(u: nat, w: nat): int {
    if u >= Pow256(w) / 2 then u - Pow256(w) else u
  }

  function ToUnsigned(n: int, w: nat): nat
    requires 0 <= n + Pow256(w)
  {
    if n < 0 then n + Pow256(w) else n
  }

  /** The integers a Go `intN` or `uintN` of `w` bytes can hold. */
  predicate Fits(n: int, w: nat, signed: bool) {
    if signed then -(Pow256(w) / 2) <= n < Pow256(w) / 2 else 0 <= n < Pow256(w)
  }

  function Reading(u: nat, w: nat, signed: bool): int {
    if signed then ToSigned(u, w) else u
  }

  lemma ReadingInverts(n: int, w: nat, signed: bool)
    requires w > 0 && Fits(n, w, signed)
    ensures ToUnsigned(n, w) < Pow256(w)
    ensures Reading(FromLE(LE(ToUnsigned(n, w), w)), w, signed) == n
  {
    FromLEInvertsLE(ToUnsigned(n, w), w);
  }

  lemma Widths()
    ensures Pow256(1) == 0x100 && Pow256(2) == 0x1_0000
    ensures Pow256(4) == 0x1_0000_0000 && Pow256(8) == 0x1_0000_0000_0000_0000
  {
  }

  // ---- Bytes in a buffer ------------------------------------------------------

  ghost predicate At(D: seq<Byte>, p: nat, s: seq<Byte>) {
    p + |s| <= |D| && forall i {:trigger s[i]} :: 0 <= i < |s| ==> D[p + i] == s[i]
  }

  lemma AtSlice(D: seq<Byte>, p: nat, s: seq<Byte>)
    requires At(D, p, s)
    ensures p + |s| <= |D| && D[p..p + |s|] == s
  {
  }

  lemma AtSplit(D: seq<Byte>, p: nat, a: seq<Byte>, b: seq<Byte>)
    requires At(D, p, a + b)
    ensures At(D, p, a) && At(D, p + |a|, b)
  {
    var s := a + b;
    forall i | 0 <= i < |a| ensures D[p + i] == a[i] {
      assert s[i] == a[i];
    }
    forall i | 0 <= i < |b| ensures D[p + |a| + i] == b[i] {
      assert s[|a| + i] == b[i];
    }
  }

  lemma AtSplit3(D: seq<Byte>, p: nat, a: seq<Byte>, b: seq<Byte>, c: seq<Byte>)
    requires At(D, p, a + (b + c))
    ensures At(D, p, a) && At(D, p + |a|, b) && At(D, p + |a| + |b|, c)
  {
    AtSplit(D, p, a, b + c);
    AtSplit(D, p + |a|, b, c);
  }

  lemma SliceSnoc(D: seq<Byte>, p: nat, i: nat)
    requires p <= i < |D|
    ensures D[p..i + 1] == D[p..i] + [D[i]]
  {
  }

  lemma SliceInit(D: seq<Byte>, p: nat, n: nat)
    requires n > 0 && p + n <= |D|
    ensures D[p..p + n][..n - 1] == D[p..p + n - 1]
  {
  }

  /** A buffer and a longer one that starts with it agree on every slice of the first. */
  lemma PrefixSlice(D: seq<Byte>, E: seq<Byte>, i: nat, j: nat)
    requires D <= E && i <= j <= |D|
    ensures E[i..j] == D[i..j]
  {
  }

  /** `AtSplit` for a concatenation that goes by another name. */
  lemma AtSplitAs(D: seq<Byte>, p: nat, s: seq<Byte>, a: seq<Byte>, b: seq<Byte>)
    requires s == a + b && At(D, p, s)
    ensures At(D, p, a) && At(D, p + |a|, b) && |s| == |a| + |b|
  {
    AtSplit(D, p, a, b);
  }

  function Zeros(n: nat): (s: seq<Byte>)
    ensures |s| == n
    ensures forall i :: 0 <= i < n ==> s[i] == 0
  {
    seq(n, _ => 0)
  }

  // ---- Go strings -------------------------------------------------------------

  /** The Go string made of these bytes. */
  function Text(b: seq<Byte>): (s: string)
    ensures |s| == |b|
    ensures forall i :: 0 <= i < |b| ==> s[i] == b[i] as char
  {
    seq(|b|, i requires 0 <= i < |b| => b[i] as char)
  }

  lemma TextInjective(a: seq<Byte>, b: seq<Byte>)
    requires Text(a) == Text(b)
    ensures a == b
  {
    assert |a| == |Text(a)| == |b|;
    forall i | 0 <= i < |a| ensures a[i] == b[i] {
      assert Text(a)[i] == Text(b)[i];
    }
  }
}
