/** Bytes, and integers stored least significant byte first. */
module Bytes {
  datatype Option<+T> = None | Some(value: T)

  function WithoutAt<T>(s: seq<T>, i: nat): (r: seq<T>)
    requires i < |s|
    ensures |r| == |s| - 1
    ensures forall k :: 0 <= k < i ==> r[k] == s[k]
    ensures forall k :: i <= k < |r| ==> r[k] == s[k + 1]
  {
    s[..i] + s[i + 1..]
  }

  type Byte = b: int | 0 <= b < 256

  function Zeros(n: nat): (r: seq<Byte>) ensures |r| == n { seq(n, _ => 0) }

  function Pow256(k: nat): (r: nat) ensures r > 0 { if k == 0 then 1 else 256 * Pow256(k - 1) }

  /** The k low bytes of v. */
  function LE(v: nat, k: nat): (r: seq<Byte>)
    ensures |r| == k
  {
    if k == 0 then [] else [v % 256] + LE(v / 256, k - 1)
  }

  function UnLE(s: seq<Byte>): (v: nat)
    ensures v < Pow256(|s|)
  {
    if s == [] then 0 else s[0] + 256 * UnLE(s[1..])
  }

  lemma {:induction false} UnLEOfLE(v: nat, k: nat)
    requires v < Pow256(k)
    ensures UnLE(LE(v, k)) == v
  {
    if k > 0 {
      UnLEOfLE(v / 256, k - 1);
      assert LE(v, k)[1..] == LE(v / 256, k - 1);
    }
  }

  lemma PowValues()
    ensures Pow256(1) == 0x100 && Pow256(2) == 0x1_0000 && Pow256(4) == 0x1_0000_0000
    ensures Pow256(8) == 0x1_0000_0000_0000_0000
  {
    assert Pow256(3) == 0x100_0000 && Pow256(5) == 0x100_0000_0000 && Pow256(6) == 0x1_0000_0000_0000
        && Pow256(7) == 0x100_0000_0000_0000;
  }

  lemma DivTwice(v: nat)
    ensures v / 0x100 / 0x100 == v / 0x1_0000
  {
  }

  lemma DivThrice(v: nat)
    ensures v / 0x1_0000 / 0x100 == v / 0x100_0000
  {
  }

  lemma DivHalves(v: nat)
    ensures v / 0x1_0000 / 0x1_0000 == v / 0x1_0000_0000
  {
  }

  lemma {:induction false} LEPair(v: nat, k: nat)
    ensures LE(v, 2 + k) == [v % 256, v / 0x100 % 256] + LE(v / 0x1_0000, k)
  {
    DivTwice(v);
    var q := v / 0x100;
    assert LE(v, 2 + k) == [v % 256] + LE(q, 1 + k);
    assert LE(q, 1 + k) == [q % 256] + LE(q / 0x100, k);
  }

  lemma {:induction false} LEBytes(v: nat)
    ensures LE(v, 1) == [v % 256]
    ensures LE(v, 2) == [v % 256, v / 0x100 % 256]
    ensures LE(v, 4) == [v % 256, v / 0x100 % 256, v / 0x1_0000 % 256, v / 0x100_0000 % 256]
  {
    LEPair(v, 0);
    LEPair(v, 2);
    LEPair(v / 0x1_0000, 0);
    DivThrice(v);
  }

  lemma {:induction false} LE8Bytes(v: nat)
    ensures LE(v, 8) == LE(v, 4) + LE(v / 0x1_0000_0000, 4)
  {
    LEPair(v, 6);
    LEPair(v / 0x1_0000, 4);
    LEPair(v, 2);
    LEPair(v / 0x1_0000, 0);
    DivHalves(v);
  }
}
