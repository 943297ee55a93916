/** Bytes and the fixed-width big- and little-endian integers of Go's encoding/binary. */
module Bytes {

  type Byte = x: int | 0 <= x < 256

  /** 256 to the power w: the number of values a w-byte word can hold. */
  function Pow256(w: nat): (p: nat)
    ensures p >= 1
  {
    if w == 0 then 1 else Pow256(w - 1) * 256
  }

  /** The low w bytes of v, most significant byte first; higher bytes are cut off, as in byte(v >> 8*k). */
  function BigEndian(w: nat, v: nat): (b: seq<Byte>)
    ensures |b| == w
  {
    if w == 0 then [] else BigEndian(w - 1, v / 256) + [v % 256]
  }

  function FromBigEndian(b: seq<Byte>): (v: nat)
    ensures v < Pow256(|b|)
  {
    if b == [] then 0 else FromBigEndian(b[..|b| - 1]) * 256 + b[|b| - 1]
  }

  function FromLittleEndian(b: seq<Byte>): (v: nat)
    ensures v < Pow256(|b|)
  {
    if b == [] then 0 else b[0] + 256 * FromLittleEndian(b[1..])
  }

  /** The low w bytes of v, least significant byte first. */
  function LittleEndian(w: nat, v: nat): (b: seq<Byte>)
    ensures |b| == w
  {
    if w == 0 then [] else [v % 256] + LittleEndian(w - 1, v / 256)
  }

  lemma {:induction false} BigEndianRoundTrip(w: nat, v: nat)
    requires v < Pow256(w)
    ensures FromBigEndian(BigEndian(w, v)) == v
  {
    if w == 0 {
    } else {
      BigEndianRoundTrip(w - 1, v / 256);
      assert BigEndian(w, v)[..w - 1] == BigEndian(w - 1, v / 256);
    }
  }

  lemma {:induction false} BigEndianInverse(b: seq<Byte>)
    ensures BigEndian(|b|, FromBigEndian(b)) == b
  {
    if b == [] {
    } else {
      var init := b[..|b| - 1];
      BigEndianInverse(init);
      assert FromBigEndian(b) / 256 == FromBigEndian(init);
      assert b == init + [b[|b| - 1]];
    }
  }

  lemma {:induction false} LittleEndianRoundTrip(w: nat, v: nat)
    requires v < Pow256(w)
    ensures FromLittleEndian(LittleEndian(w, v)) == v
  {
    if w == 0 {
    } else {
      LittleEndianRoundTrip(w - 1, v / 256);
    }
  }

  lemma {:induction false} LittleEndianInverse(b: seq<Byte>)
    ensures LittleEndian(|b|, FromLittleEndian(b)) == b
  {
    if b == [] {
    } else {
      LittleEndianInverse(b[1..]);
      assert FromLittleEndian(b) / 256 == FromLittleEndian(b[1..]);
    }
  }

  lemma SmallPowers()
    ensures Pow256(1) == 0x100 && Pow256(2) == 0x1_0000 && Pow256(3) == 0x100_0000
    ensures Pow256(4) == 0x1_0000_0000 && Pow256(8) == 0x1_0000_0000_0000_0000
  {
    assert Pow256(0) == 1;
    assert Pow256(4) == 0x1_0000_0000;
    assert Pow256(6) == Pow256(5) * 256;
    assert Pow256(8) == Pow256(7) * 256;
  }

  // ----- In plain numbers -----

  function Digit(b: seq<Byte>, i: nat): nat
    requires i < |b|
  {
    b[i]
  }

  function Big2(b: seq<Byte>, at: nat): nat
    requires at + 2 <= |b|
  {
    Digit(b, at) * 0x100 + Digit(b, at + 1)
  }

  function Big3(b: seq<Byte>, at: nat): nat
    requires at + 3 <= |b|
  {
    Digit(b, at) * 0x1_0000 + Big2(b, at + 1)
  }

  function Big4(b: seq<Byte>, at: nat): nat
    requires at + 4 <= |b|
  {
    Digit(b, at) * 0x100_0000 + Big3(b, at + 1)
  }

  function Big8(b: seq<Byte>, at: nat): nat
    requires at + 8 <= |b|
  {
    Big4(b, at) * 0x1_0000_0000 + Big4(b, at + 4)
  }

  lemma OneMore(b: seq<Byte>, k: nat)
    requires k < |b|
    ensures FromBigEndian(b[..k + 1]) == FromBigEndian(b[..k]) * 0x100 + b[k]
  {
    assert b[..k + 1][..k] == b[..k];
  }

  lemma ShortWords(b: seq<Byte>)
    ensures |b| >= 1 ==> FromBigEndian(b[..1]) == b[0]
    ensures |b| >= 2 ==> FromBigEndian(b[..2]) == Big2(b, 0)
    ensures |b| >= 3 ==> FromBigEndian(b[..3]) == Big3(b, 0)
    ensures |b| >= 4 ==> FromBigEndian(b[..4]) == Big4(b, 0)
  {
    assert FromBigEndian(b[..0]) == 0;
    if |b| >= 1 { OneMore(b, 0); }
    if |b| >= 2 { OneMore(b, 1); }
    if |b| >= 3 { OneMore(b, 2); }
    if |b| >= 4 { OneMore(b, 3); }
  }

  lemma LittleWords(b: seq<Byte>)
    ensures |b| == 1 ==> FromLittleEndian(b) == b[0]
    ensures |b| == 2 ==> FromLittleEndian(b) == Digit(b, 0) + Digit(b, 1) * 0x100
    ensures |b| == 4 ==> FromLittleEndian(b) ==
                           Digit(b, 0) + Digit(b, 1) * 0x100 + Digit(b, 2) * 0x1_0000 + Digit(b, 3) * 0x100_0000
  {
    if |b| == 1 {
      assert b[1..] == [];
    } else if |b| == 2 {
      assert b[1..] == [b[1]] && [b[1]][1..] == [];
    } else if |b| == 4 {
      LittleWords(b[2..]);
      assert FromLittleEndian(b[1..]) == Digit(b, 1) + 0x100 * FromLittleEndian(b[1..][1..]);
      assert b[1..][1..] == b[2..];
    }
  }

  lemma LongWord(b: seq<Byte>)
    requires |b| == 8
    ensures FromBigEndian(b) == Big8(b, 0)
  {
    hide FromBigEndian;
    ShortWords(b);
    OneMore(b, 4);
    OneMore(b, 5);
    OneMore(b, 6);
    OneMore(b, 7);
    assert b[..8] == b;
  }

  lemma BigEndian2(v: nat)
    ensures BigEndian(2, v) == [v / 0x100 % 0x100, v % 0x100]
  {
    assert BigEndian(1, v / 0x100) == BigEndian(0, v / 0x100 / 0x100) + [v / 0x100 % 0x100];
  }

  lemma BigEndian4(v: nat)
    ensures BigEndian(4, v) == [v / 0x100_0000 % 0x100, v / 0x1_0000 % 0x100, v / 0x100 % 0x100, v % 0x100]
  {
    BigEndian2(v / 0x100 / 0x100);
    assert BigEndian(3, v / 0x100) == BigEndian(2, v / 0x100 / 0x100) + [v / 0x100 % 0x100];
    assert v / 0x100 / 0x100 == v / 0x1_0000 && v / 0x1_0000 / 0x100 == v / 0x100_0000;
  }
}
