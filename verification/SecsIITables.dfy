/**
 The SECS-II wire format in plain numbers: the format byte and length bytes of every item, the value
 of every number by its bytes, and the error each malformed input gets. These tables name nothing
 that the codec and its grammar share.
 */
module SecsIITables {
  import opened Bytes
  import opened SecsII

  // ----- Numbers -----

  /** The bytes at this place are the number v in this format. */
  predicate Reads(k: NumKind, v: int, b: seq<Byte>, at: nat) {
    match k
    case I1 => at + 1 <= |b| && -0x80 <= v < 0x80 && v in {Digit(b, at), Digit(b, at) - 0x100}
    case I2 => at + 2 <= |b| && -0x8000 <= v < 0x8000 && v in {Big2(b, at), Big2(b, at) - 0x1_0000}
    case I4 => at + 4 <= |b| && -0x8000_0000 <= v < 0x8000_0000 && v in {Big4(b, at), Big4(b, at) - 0x1_0000_0000}
    case I8 => at + 8 <= |b| && -0x8000_0000_0000_0000 <= v < 0x8000_0000_0000_0000
               && v in {Big8(b, at), Big8(b, at) - 0x1_0000_0000_0000_0000}
    case U1 => at + 1 <= |b| && v == b[at]
    case U2 => at + 2 <= |b| && v == Big2(b, at)
    case U4 | F4 => at + 4 <= |b| && v == Big4(b, at)
    case U8 | F8 => at + 8 <= |b| && v == Big8(b, at)
  }

  /** The n-th number of the array starting there. */
  predicate ReadsNth(k: NumKind, v: int, b: seq<Byte>, start: nat, n: nat) {
    match k
    case I1 | U1 => Reads(k, v, b, start + n)
    case I2 | U2 => Reads(k, v, b, start + 2 * n)
    case I4 | U4 | F4 => Reads(k, v, b, start + 4 * n)
    case I8 | U8 | F8 => Reads(k, v, b, start + 8 * n)
  }

  lemma NumeralReads(k: NumKind, v: int, b: seq<Byte>)
    requires Numeral(k, v, b)
    ensures Reads(k, v, b, 0)
  {
    ShortWords(b);
    assert b[..|b|] == b;
    if |b| == 8 { LongWord(b); }
    hide FromBigEndian;
    WordIs(k, v);
  }

  /** The word of a value in range. */
  lemma WordIs(k: NumKind, v: int)
    requires InRange(k, v)
    ensures Word(k, v) == if v < 0 then v + Modulus(k) else v
  {
    ModBelow(if v < 0 then v + Modulus(k) else v, Modulus(k));
  }

  lemma Shifted(k: NumKind, v: int, b: seq<Byte>, at: nat, w: nat)
    requires w in {1, 2, 4, 8} && at + w <= |b| && Width(k) == w && Reads(k, v, b[at..at + w], 0)
    ensures Reads(k, v, b, at)
  {
    var c := b[at..at + w];
    assert forall i :: 0 <= i < w ==> c[i] == b[at + i];
  }

  lemma Within(d: seq<Byte>, start: nat, at: nat, w: nat)
    requires start + at + w <= |d|
    ensures d[start..][at..at + w] == d[start + at..start + at + w]
  {
  }

  lemma {:induction false} WordAt(b: seq<Byte>, k: NumKind, vals: seq<int>, i: nat)
    requires WordsDenote(b, k, vals) && i < |vals|
    ensures var w := Width(k); i * w + w <= |b| && Numeral(k, vals[i], b[i * w..i * w + w])
  {
    var w := Width(k);
    hide Numeral, Width;
    if i == 0 {
    } else {
      WordAt(b[w..], k, vals[1..], i - 1);
      Scaled(i, w);
      Within(b, w, (i - 1) * w, w);
    }
  }

  // ----- Headers -----

  /** The format byte of an item, with one, two or three length bytes. */
  predicate Opens(it: Item, first: Byte) {
    match it
    case List(_) => 0x01 <= first <= 0x03
    case Binary(_) => 0x21 <= first <= 0x23
    case Boolean(_) => 0x25 <= first <= 0x27
    case Ascii(_) => 0x41 <= first <= 0x43
    case Jis8(_) => 0x45 <= first <= 0x47
    case Numbers(I8, _) => 0x61 <= first <= 0x63
    case Numbers(I1, _) => 0x65 <= first <= 0x67
    case Numbers(I2, _) => 0x69 <= first <= 0x6B
    case Numbers(I4, _) => 0x71 <= first <= 0x73
    case Numbers(F8, _) => 0x81 <= first <= 0x83
    case Numbers(F4, _) => 0x91 <= first <= 0x93
    case Numbers(U8, _) => 0xA1 <= first <= 0xA3
    case Numbers(U1, _) => 0xA5 <= first <= 0xA7
    case Numbers(U2, _) => 0xA9 <= first <= 0xAB
    case Numbers(U4, _) => 0xB1 <= first <= 0xB3
    case Other(_) => false
  }

  /** What the length bytes give: elements of a list, bytes of anything else. */
  function Size(it: Item): nat {
    match it
    case List(items) => |items|
    case Binary(b) => |b|
    case Boolean(b) => |b|
    case Ascii(s) => |s|
    case Jis8(s) => |s|
    case Numbers(I1, vals) => |vals|
    case Numbers(U1, vals) => |vals|
    case Numbers(I2, vals) => 2 * |vals|
    case Numbers(U2, vals) => 2 * |vals|
    case Numbers(I4, vals) => 4 * |vals|
    case Numbers(U4, vals) => 4 * |vals|
    case Numbers(F4, vals) => 4 * |vals|
    case Numbers(_, vals) => 8 * |vals|
    case Other(_) => 0
  }

  /** Format byte and length bytes of this item. */
  predicate Headed(d: seq<Byte>, it: Item) {
    && |d| >= 2 && Opens(it, d[0])
    && (d[0] % 4 == 1 ==> Size(it) == d[1])
    && (d[0] % 4 == 2 ==> |d| >= 3 && Size(it) == Big2(d, 1))
    && (d[0] % 4 == 3 ==> |d| >= 4 && Size(it) == Big3(d, 1))
  }

  /** The size the length bytes give. */
  function Declared(d: seq<Byte>): nat
    requires d != [] && 0 < d[0] % 4 < |d|
  {
    if d[0] % 4 == 1 then Digit(d, 1) else if d[0] % 4 == 2 then Big2(d, 1) else Big3(d, 1)
  }

  lemma DeclaredIsCount(d: seq<Byte>)
    requires d != [] && 0 < d[0] % 4 < |d|
    ensures Declared(d) == DeclaredCount(d)
  {
    ShortWords(d[1..]);
    assert d[1..1 + d[0] % 4] == d[1..][..d[0] % 4];
    hide FromBigEndian;
  }

  lemma SizeIsCount(it: Item)
    ensures Size(it) == Count(it)
  {
  }

  lemma DenotesHeaded(d: seq<Byte>, it: Item)
    requires Denotes(d, it)
    ensures Headed(d, it)
  {
    SizeIsCount(it);
    assert BodyDenotes(AfterHeader(d), it);
    hide Size, Count, BodyDenotes, DeclaredCount, Big2, Big3;
    DeclaredIsCount(d);
    FirstOf(d, it);
  }

  lemma FirstOf(d: seq<Byte>, it: Item)
    requires d != [] && d[0] % 4 != 0 && d[0] / 4 == FormatCode(it) && !it.Other?
    ensures Opens(it, d[0])
  {
    assert d[0] == 4 * FormatCode(it) + d[0] % 4;
  }

  // ----- Decoding -----

  /** The data bytes of this item start there. */
  predicate Carries(d: seq<Byte>, it: Item, start: nat) {
    match it
    case Binary(b) => start + |b| <= |d| && d[start..start + |b|] == b
    case Ascii(s) => start + |s| <= |d| && d[start..start + |s|] == s
    case Jis8(s) => start + |s| <= |d| && d[start..start + |s|] == s
    case Boolean(bs) => start + |bs| <= |d| && forall i :: 0 <= i < |bs| ==> (bs[i] <==> d[start + i] != 0)
    case Numbers(k, vals) => forall i :: 0 <= i < |vals| ==> ReadsNth(k, vals[i], d, start, i)
    case List(_) => true
    case Other(_) => false
  }

  lemma DenotesCarries(d: seq<Byte>, it: Item)
    requires Denotes(d, it)
    ensures Carries(d, it, 1 + d[0] % 4)
  {
    var start := 1 + d[0] % 4;
    var b := d[start..];
    assert b == AfterHeader(d);
    if it.Numbers? {
      forall i | 0 <= i < |it.vals| ensures ReadsNth(it.kind, it.vals[i], d, start, i) {
        NthOf(d, start, it.kind, it.vals, i);
      }
    }
  }

  lemma NthOf(d: seq<Byte>, start: nat, k: NumKind, vals: seq<int>, i: nat)
    requires start <= |d| && WordsDenote(d[start..], k, vals) && i < |vals|
    ensures ReadsNth(k, vals[i], d, start, i)
  {
    hide Reads, Numeral, WordsDenote;
    var w, b := Width(k), d[start..];
    WordAt(b, k, vals, i);
    var at := i * w;
    Within(d, start, at, w);
    NumeralReads(k, vals[i], b[at..at + w]);
    Shifted(k, vals[i], d, start + at, w);
    Placed(k, vals[i], d, start, i);
  }

  lemma Placed(k: NumKind, v: int, d: seq<Byte>, start: nat, i: nat)
    requires Reads(k, v, d, start + i * Width(k))
    ensures ReadsNth(k, v, d, start, i)
  {
    hide Reads;
    match k
    case I1 | U1 => assert i * Width(k) == i;
    case I2 | U2 => assert i * Width(k) == 2 * i;
    case I4 | U4 | F4 => assert i * Width(k) == 4 * i;
    case I8 | U8 | F8 => assert i * Width(k) == 8 * i;
  }

  lemma Sentence(d: seq<Byte>, it: Item, rest: seq<Byte>) returns (c: seq<Byte>)
    requires StartsWith(d, it, rest)
    ensures c + rest == d && Denotes(c, it)
  {
    hide Denotes;
    c := d[..|d| - |rest|];
  }

  /** What decoding gives, in numbers: format byte and length bytes say the item, every value is the one its bytes
      are in its format, and what follows the data is the rest. */
  lemma DecodeReads(d: seq<Byte>, it: Item, rest: seq<Byte>)
    requires Decode(d) == Ok(it, rest)
    ensures Headed(d, it) && Carries(d, it, 1 + d[0] % 4)
    ensures !it.List? ==> |d| == 1 + d[0] % 4 + Size(it) + |rest| && rest == d[1 + d[0] % 4 + Size(it)..]
  {
    hide *;
    DecodeSound(d, it, rest);
    var c := Sentence(d, it, rest);
    DenotesHeaded(c, it);
    HeadedOn(d, c, it);
    var start := 1 + c[0] % 4;
    DenotesCarries(c, it);
    CarriesOn(d, c, it, start);
    if !it.List? {
      LeafEnds(c, it);
      RestIs(d, c, rest, start + Size(it));
    }
  }

  lemma RestIs(d: seq<Byte>, c: seq<Byte>, rest: seq<Byte>, n: nat)
    requires c + rest == d && |c| == n
    ensures n <= |d| == n + |rest| && rest == d[n..]
  {
  }

  lemma HeadedOn(d: seq<Byte>, c: seq<Byte>, it: Item)
    requires c <= d && Headed(c, it)
    ensures Headed(d, it) && d != [] && c != [] && c[0] == d[0]
  {
    hide Size, Opens;
  }

  lemma LeafEnds(c: seq<Byte>, it: Item)
    requires Denotes(c, it) && !it.List?
    ensures c != [] && |c| == 1 + c[0] % 4 + Size(it)
  {
    SizeIsCount(it);
    LeafAccepts(AfterHeader(c), it);
    hide Size, Count;
  }

  lemma ReadsOn(k: NumKind, v: int, d: seq<Byte>, c: seq<Byte>, start: nat, i: nat)
    requires c <= d && ReadsNth(k, v, c, start, i)
    ensures ReadsNth(k, v, d, start, i)
  {
  }

  lemma CarriesOn(d: seq<Byte>, c: seq<Byte>, it: Item, start: nat)
    requires c <= d && Carries(c, it, start)
    ensures Carries(d, it, start)
  {
    hide ReadsNth;
    if it.Numbers? {
      forall i | 0 <= i < |it.vals| ensures ReadsNth(it.kind, it.vals[i], d, start, i) {
        ReadsOn(it.kind, it.vals[i], d, c, start, i);
      }
    }
  }

  // ----- Encoding -----

  /** What encoding writes, in numbers: the format byte with as few length bytes as the size needs, the size, and the
      data, with one for true and zero for false. */
  lemma EncodeWrites(it: Item)
    requires Encodable(it)
    ensures var d := Encode(it);
            && Headed(d, it) && Carries(d, it, 1 + d[0] % 4)
            && d[0] % 4 == (if Size(it) < 0x100 then 1 else if Size(it) < 0x1_0000 then 2 else 3)
            && (!it.List? ==> |d| == 1 + d[0] % 4 + Size(it))
            && (it.Boolean? ==> forall i :: 0 <= i < |it.bools| ==>
                                  d[1 + d[0] % 4 + i] == if it.bools[i] then 1 else 0)
  {
    hide Encode, Encodable, Headed, Carries, Size, Count;
    var d := Encode(it);
    RoundTrip(it, []);
    assert d + [] == d;
    DecodeReads(d, it, []);
    SizeIsCount(it);
    HeaderByte(it);
    if it.Boolean? {
      var b := d[1 + d[0] % 4..];
      forall i | 0 <= i < |it.bools| ensures d[1 + d[0] % 4 + i] == if it.bools[i] then 1 else 0 {
        assert d[1 + d[0] % 4 + i] == b[i];
      }
    }
  }

  lemma HeaderByte(it: Item)
    ensures Encode(it)[0] % 4 == LengthBytesNeeded(Count(it))
    ensures it.Boolean? ==> Encode(it)[1 + LengthBytesNeeded(Count(it))..] == BoolBytes(it.bools)
  {
    var lb := LengthBytesNeeded(Count(it));
    assert Encode(it) == [(FormatCode(it) * 4) % 256 + lb] + BigEndian(lb, Count(it)) + Body(it);
    assert ((FormatCode(it) * 4) % 256) % 4 == 0;
  }

  // ----- Errors -----

  predicate KnownFirst(first: Byte) {
    first / 4 in {0x00, 0x08, 0x09, 0x10, 0x11, 0x18, 0x19, 0x1A, 0x1C, 0x20, 0x24, 0x28, 0x29, 0x2A, 0x2C}
  }

  /** Which input gets which error; the error of a list is that of its first element that fails. */
  lemma ErrorExact(d: seq<Byte>)
    ensures d == [] ==> Decode(d) == Err(EmptyData)
    ensures d != [] && d[0] % 4 == 0 ==> Decode(d) == Err(NoLengthBytes)
    ensures d != [] && d[0] % 4 != 0 && |d| <= d[0] % 4 ==> Decode(d) == Err(TruncatedLength)
    ensures d != [] && 0 < d[0] % 4 < |d| && !KnownFirst(d[0]) ==> Decode(d) == Err(UnknownFormat)
    ensures d != [] && 0 < d[0] % 4 < |d| && KnownFirst(d[0]) && d[0] > 3 ==> Decode(d).Ok? || Decode(d) == Err(Short)
  {
    hide DeclaredCount, DecodeList, DecodeLeaf, WholeElements;
  }

  /** Bytes per element of the format this byte names. */
  function ElementSize(first: Byte): nat {
    if first / 4 in {0x1A, 0x2A} then 2
    else if first / 4 in {0x1C, 0x24, 0x2C} then 4
    else if first / 4 in {0x18, 0x20, 0x28} then 8
    else 1
  }

  /** Any other item of a known format is read exactly when its size is whole elements and its data is all there. */
  lemma LeafExact(d: seq<Byte>)
    requires d != [] && 0 < d[0] % 4 < |d| && KnownFirst(d[0]) && d[0] > 3
    ensures Decode(d).Ok? <==> Declared(d) % ElementSize(d[0]) == 0 && |d| >= 1 + d[0] % 4 + Declared(d)
  {
    hide Declared, DeclaredCount, DecodeLeaf, DecodeList, WholeElements, ElementSize, KnownFirst, Known;
    DeclaredIsCount(d);
    KnownExact(d[0]);
    WholeExact(d[0], DeclaredCount(d));
    assert d[0] / 4 != 0;
  }

  lemma KnownExact(first: Byte)
    ensures Known(first / 4) <==> KnownFirst(first)
  {
  }

  lemma WholeExact(first: Byte, n: nat)
    ensures WholeElements(first / 4, n) <==> n % ElementSize(first) == 0
  {
    SameElementSize(first);
    if KindOf(first / 4) == [] { assert n % 1 == 0; }
    hide KindOf, ElementSize, Width;
  }

  lemma SameElementSize(first: Byte)
    ensures var k := KindOf(first / 4); ElementSize(first) == if k == [] then 1 else Width(k[0])
  {
  }

  /** The values a format has. */
  lemma RangeExact(k: NumKind, v: int)
    ensures InRange(k, v) <==>
            match k
            case I1 => -0x80 <= v < 0x80
            case I2 => -0x8000 <= v < 0x8000
            case I4 => -0x8000_0000 <= v < 0x8000_0000
            case I8 => -0x8000_0000_0000_0000 <= v < 0x8000_0000_0000_0000
            case U1 => 0 <= v < 0x100
            case U2 => 0 <= v < 0x1_0000
            case U4 | F4 => 0 <= v < 0x1_0000_0000
            case U8 | F8 => 0 <= v < 0x1_0000_0000_0000_0000
  {
  }

  /** A list is read as that many items one after the other, or gets the error of the first that fails. */
  lemma ListExact(d: seq<Byte>)
    requires d != [] && d[0] in {1, 2, 3} && d[0] < |d|
    ensures match DecodeList(d[1 + d[0]..], Declared(d))
            case Failed(e) => Decode(d) == Err(e)
            case Elements(items, rest) => Decode(d) == Ok(List(items), rest)
  {
    hide Decode, DecodeList, DeclaredCount, Declared;
    assert d[0] % 4 == d[0] && d[0] / 4 == 0;
    DeclaredIsCount(d);
    ListDecoded(d);
  }

  lemma ListDecoded(d: seq<Byte>)
    requires HasHeader(d) && d[0] / 4 == 0
    ensures match DecodeList(AfterHeader(d), DeclaredCount(d))
            case Failed(e) => Decode(d) == Err(e)
            case Elements(items, rest) => Decode(d) == Ok(List(items), rest)
  {
    hide DecodeList, DeclaredCount, AfterHeader, WholeElements, DecodeLeaf;
  }

  lemma ListSize(d: seq<Byte>)
    requires d != [] && d[0] in {1, 2, 3} && d[0] < |d|
    ensures DeclaredCount(d) == if d[0] == 1 then Digit(d, 1) else if d[0] == 2 then Big2(d, 1) else Big3(d, 1)
  {
    ShortWords(d[1..]);
    assert d[1..1 + d[0]] == d[1..][..d[0]];
    hide FromBigEndian;
  }

  /** The first j elements are in order and the next one fails with this error. */
  ghost predicate FailsAt(d: seq<Byte>, j: nat, e: DecodeError) {
    DecodeList(d, j).Elements? && Decode(DecodeList(d, j).rest) == Err(e)
  }

  lemma FailsBehind(d: seq<Byte>, j: nat, e: DecodeError)
    requires Decode(d).Ok?
    ensures FailsAt(d, j + 1, e) <==> FailsAt(Decode(d).rest, j, e)
    ensures !FailsAt(d, 0, e)
  {
    hide Decode;
  }

  lemma {:induction false} ListErrorExact(d: seq<Byte>, n: nat, e: DecodeError)
    ensures DecodeList(d, n) == Failed(e) <==> exists j: nat :: j < n && FailsAt(d, j, e)
    decreases n
  {
    hide Decode;
    if n == 0 {
    } else if Decode(d).Err? {
      assert DecodeList(d, 0) == Elements([], d) && DecodeList(d, n) == Failed(Decode(d).error);
      assert FailsAt(d, 0, Decode(d).error);
      assert forall j: nat :: j > 0 ==> !FailsAt(d, j, e);
    } else {
      var tail := Decode(d).rest;
      ListErrorExact(tail, n - 1, e);
      assert DecodeList(d, n) == Failed(e) <==> DecodeList(tail, n - 1) == Failed(e);
      hide FailsAt, DecodeList;
      if j: nat :| j < n - 1 && FailsAt(tail, j, e) {
        FailsBehind(d, j, e);
      }
      if j: nat :| j < n && FailsAt(d, j, e) {
        FailsBehind(d, if j > 0 then j - 1 else 0, e);
        assert FailsAt(tail, j - 1, e);
      }
    }
  }
}
