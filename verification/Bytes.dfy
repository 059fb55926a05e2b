/** Big-endian integers: the put_/get_ helpers of src/network/protocol.hpp.

    The reference definitions are BE and ToBE, which are inverse to each other.  A shift by 8k bits
    is written as a division or multiplication by 256^k. */
module Bytes {
  import opened Bits

  type byte = x: int | 0 <= x < 0x100
  type uint16 = x: int | 0 <= x < 0x1_0000
  type uint32 = x: int | 0 <= x < 0x1_0000_0000
  type uint64 = x: int | 0 <= x < 0x1_0000_0000_0000_0000

  const TWO_32: nat := 0x1_0000_0000
  const TWO_64: nat := 0x1_0000_0000_0000_0000

  function Pow256(n: nat): (p: nat)
    ensures p > 0
  {
    if n == 0 then 1 else 256 * Pow256(n - 1)
  }

  lemma Pow256Values()
    ensures Pow256(2) == 0x1_0000
    ensures Pow256(4) == TWO_32
    ensures Pow256(8) == TWO_64
  {
    assert Pow256(4) == 256 * (256 * Pow256(2));
    assert Pow256(6) == 256 * (256 * Pow256(4));
    assert Pow256(8) == 256 * (256 * Pow256(6));
  }

  /** The value of a big-endian byte string. */
  function BE(s: seq<byte>): nat {
    if s == [] then 0 else BE(s[..|s| - 1]) * 256 + s[|s| - 1]
  }

  /** The n low-order bytes of v, most significant first. */
  function ToBE(v: nat, n: nat): (s: seq<byte>)
    ensures |s| == n
  {
    if n == 0 then [] else ToBE(v / 256, n - 1) + [v % 256]
  }

  lemma {:induction false} BEToBE(v: nat, n: nat)
    requires v < Pow256(n)
    ensures BE(ToBE(v, n)) == v
  {
    if n > 0 {
      BEToBE(v / 256, n - 1);
      assert ToBE(v, n)[..n - 1] == ToBE(v / 256, n - 1);
    }
  }

  lemma {:induction false} ToBEBE(s: seq<byte>)
    ensures BE(s) < Pow256(|s|)
    ensures ToBE(BE(s), |s|) == s
  {
    if s != [] {
      ToBEBE(s[..|s| - 1]);
      assert BE(s) / 256 == BE(s[..|s| - 1]);
      assert s == s[..|s| - 1] + [s[|s| - 1]];
    }
  }

  /** A byte string has value v exactly when it is the encoding of v in its length. */
  lemma SameValue(s: seq<byte>, v: nat)
    requires v < Pow256(|s|)
    ensures BE(s) == v <==> s == ToBE(v, |s|)
  {
    BEToBE(v, |s|);
    ToBEBE(s);
  }

  /** Concatenations with last parts of the same length are equal part by part. */
  lemma PeelLast<T>(x: seq<T>, y: seq<T>, x': seq<T>, y': seq<T>)
    requires |y| == |y'|
    ensures x + y == x' + y' <==> x == x' && y == y'
  {
    if x + y == x' + y' {
      assert x == (x + y)[..|x|] == x';
      assert y == (x + y)[|x|..] == y';
    }
  }

  lemma DivDiv(v: nat, p: nat)
    requires p > 0
    ensures v / 256 / p == v / (256 * p)
  {
    var q := v / 256 / p;
    assert v / 256 == q * p + v / 256 % p;
    assert 256 * (q * p) == q * (256 * p);
    var r := v - q * (256 * p);
    assert 0 <= r < 256 * p;
    assert v / (256 * p) == q by { DivUnique(v, 256 * p, q, r); }
  }

  /** Byte i of the encoding is what shifting v right by 8 * (n - 1 - i) bits leaves in the low byte. */
  lemma {:induction false} ToBEAt(v: nat, n: nat, i: nat)
    requires i < n
    ensures ToBE(v, n)[i] == v / Pow256(n - 1 - i) % 256
  {
    if i < n - 1 {
      ToBEAt(v / 256, n - 1, i);
      DivDiv(v, Pow256(n - 2 - i));
    }
  }

  lemma ToBE2(v: nat)
    ensures ToBE(v, 2) == [v / 0x100 % 256, v % 256]
  {
    ToBEAt(v, 2, 0);
    ToBEAt(v, 2, 1);
  }

  lemma ToBE4(v: nat)
    ensures ToBE(v, 4) == [v / 0x100_0000 % 256, v / 0x1_0000 % 256, v / 0x100 % 256, v % 256]
  {
    ToBEAt(v, 4, 0);
    ToBEAt(v, 4, 1);
    ToBEAt(v, 4, 2);
    ToBEAt(v, 4, 3);
    assert Pow256(3) == 0x100_0000;
  }

  /** Writing w over a at offset o. */
  function Splice(a: seq<byte>, o: nat, w: seq<byte>): (r: seq<byte>)
    requires o + |w| <= |a|
    ensures |r| == |a|
  {
    a[..o] + w + a[o + |w|..]
  }

  lemma SpliceSplice(a: seq<byte>, o: nat, u: seq<byte>, w: seq<byte>)
    requires o + |u| + |w| <= |a|
    ensures Splice(Splice(a, o, u), o + |u|, w) == Splice(a, o, u + w)
  {
    var b := Splice(a, o, u);
    assert b[..o + |u|] == a[..o] + u;
    assert b[o + |u| + |w|..] == a[o + |u| + |w|..];
  }

  method PutU16(a: array<byte>, o: nat, v: uint16)
    requires o + 2 <= a.Length
    modifies a
    ensures a[..] == Splice(old(a[..]), o, ToBE(v, 2))
  {
    hide And;
    ToBE2(v);
    LowByte(v);
    a[o] := v / 0x100;
    a[o + 1] := And(v, 0xFF);
  }

  method PutU32(a: array<byte>, o: nat, v: uint32)
    requires o + 4 <= a.Length
    modifies a
    ensures a[..] == Splice(old(a[..]), o, ToBE(v, 4))
  {
    hide And;
    ToBE4(v);
    LowByte(v / 0x1_0000);
    LowByte(v / 0x100);
    LowByte(v);
    a[o] := v / 0x100_0000;
    a[o + 1] := And(v / 0x1_0000, 0xFF);
    a[o + 2] := And(v / 0x100, 0xFF);
    a[o + 3] := And(v, 0xFF);
  }

  method PutU64(a: array<byte>, o: nat, v: uint64)
    requires o + 8 <= a.Length
    modifies a
    ensures a[..] == Splice(old(a[..]), o, ToBE(v, 8))
  {
    for i := 0 to 8
      invariant forall k :: 0 <= k < i ==> a[o + k] == ToBE(v, 8)[k]
      invariant forall k :: 0 <= k < a.Length && !(o <= k < o + i) ==> a[k] == old(a[k])
    {
      ToBEAt(v, 8, i);
      a[o + i] := v / Pow256(7 - i) % 256;
    }
  }

  lemma BE2(s: seq<byte>)
    requires |s| == 2
    ensures BE(s) == s[0] as int * 0x100 + s[1]
  {
    assert BE(s[..1]) == BE(s[..1][..0]) * 256 + s[0];
  }

  lemma BE4(s: seq<byte>)
    requires |s| == 4
    ensures BE(s) == s[0] as int * 0x100_0000 + s[1] as int * 0x1_0000 + s[2] as int * 0x100 + s[3]
  {
    BE2(s[..2]);
    assert s[..3][..2] == s[..2];
    assert BE(s[..3]) == BE(s[..2]) * 256 + s[2];
  }

  function GetU16(s: seq<byte>, o: nat): (v: uint16)
    requires o + 2 <= |s|
    ensures v == BE(s[o..o + 2])
  {
    hide Or;
    BE2(s[o..o + 2]);
    OrByte(s[o], s[o + 1]);
    Or(s[o] as int * 0x100, s[o + 1])
  }

  function GetU32(s: seq<byte>, o: nat): (v: uint32)
    requires o + 4 <= |s|
    ensures v == BE(s[o..o + 4])
  {
    hide Or;
    BE4(s[o..o + 4]);
    OrBytes(s[o], s[o + 1], s[o + 2], s[o + 3]);
    Or(Or(Or(s[o] as int * 0x100_0000, s[o + 1] as int * 0x1_0000), s[o + 2] as int * 0x100), s[o + 3])
  }

  /** One more byte: the value so far is shifted up, and for up to eight bytes no bit is lost. */
  lemma BEStep(s: seq<byte>, o: nat, i: nat)
    requires i < 8 && o + i < |s|
    ensures BE(s[o..o + i + 1]) == BE(s[o..o + i]) * 0x100 + s[o + i] < TWO_64
    ensures BE(s[o..o + i]) * 0x100 < TWO_64
  {
    assert s[o..o + i + 1][..i] == s[o..o + i];
    ToBEBE(s[o..o + i + 1]);
    Pow256Step(i + 1, 8);
    Pow256Values();
  }

  method GetU64(s: seq<byte>, o: nat) returns (v: uint64)
    requires o + 8 <= |s|
    ensures v == BE(s[o..o + 8])
  {
    hide Or;
    v := 0;
    for i := 0 to 8
      invariant v == BE(s[o..o + i])
    {
      BEStep(s, o, i);
      OrByte(v, s[o + i]);
      v := Or(v * 0x100 % TWO_64, s[o + i]);
    }
  }

  lemma {:induction false} Pow256Step(m: nat, n: nat)
    requires m <= n
    ensures Pow256(m) <= Pow256(n)
  {
    if m < n {
      Pow256Step(m, n - 1);
    }
  }

  // ---------- 32-bit counters ----------

  lemma ModSum(a: nat, b: nat)
    ensures (a % TWO_32 + b) % TWO_32 == (a + b) % TWO_32
  {
  }

  lemma SmallMod(a: nat)
    requires a < TWO_32
    ensures a % TWO_32 == a
  {
  }
}
