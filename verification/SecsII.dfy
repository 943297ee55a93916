/**
 The SECS-II (SEMI E5) item codec: a recursive, self-describing tree of typed items.
 `Denotes` is the wire grammar, stated without reference to the codec; the decoder is proved to
 accept exactly that grammar and the encoder to produce its shortest sentences.
 */
module SecsII {
  import opened Bytes

  /** The ten numeric formats. Floating-point values are carried as their IEEE 754 bit patterns. */
  datatype NumKind = I1 | I2 | I4 | I8 | U1 | U2 | U4 | U8 | F4 | F8

  datatype Item =
    | List(items: seq<Item>)
    | Binary(bytes: seq<Byte>)
    | Boolean(bools: seq<bool>)
    | Ascii(str: seq<Byte>)
    | Jis8(str: seq<Byte>)
    | Numbers(kind: NumKind, vals: seq<int>)
    | Other(code: Byte)  // an item whose format code is none of the fifteen

  datatype DecodeError = EmptyData | NoLengthBytes | TruncatedLength | Short | UnknownFormat

  datatype Decoded = Ok(item: Item, rest: seq<Byte>) | Err(error: DecodeError)

  datatype DecodedList = Elements(items: seq<Item>, rest: seq<Byte>) | Failed(error: DecodeError)

  function Width(k: NumKind): (w: nat)
    ensures w == 1 || w == 2 || w == 4 || w == 8
  {
    match k
    case I1 | U1 => 1
    case I2 | U2 => 2
    case I4 | U4 | F4 => 4
    case I8 | U8 | F8 => 8
  }

  function Modulus(k: NumKind): (m: nat)
    ensures m > 0
  {
    match k
    case I1 | U1 => 0x100
    case I2 | U2 => 0x1_0000
    case I4 | U4 | F4 => 0x1_0000_0000
    case I8 | U8 | F8 => 0x1_0000_0000_0000_0000
  }

  lemma ModulusIsPower(k: NumKind)
    ensures Modulus(k) == Pow256(Width(k))
  {
    SmallPowers();
  }

  predicate Signed(k: NumKind) { k.I1? || k.I2? || k.I4? || k.I8? }

  /** The values of the Go slice element type (int8, uint16, ...). */
  predicate InRange(k: NumKind, v: int) {
    if Signed(k) then -(Modulus(k) / 2) <= v < Modulus(k) / 2 else 0 <= v < Modulus(k)
  }

  /** Go's conversion of a value to the unsigned word of the same width. */
  function Word(k: NumKind, v: int): (u: nat)
    ensures u < Modulus(k)
  {
    v % Modulus(k)
  }

  /** Go's conversion of an unsigned word back to a value. */
  function Value(k: NumKind, u: nat): int
  {
    if Signed(k) && u >= Modulus(k) / 2 then u - Modulus(k) else u
  }

  function NumCode(k: NumKind): Byte
  {
    match k
    case I8 => 0x18 case I1 => 0x19 case I2 => 0x1A case I4 => 0x1C
    case F8 => 0x20 case F4 => 0x24
    case U8 => 0x28 case U1 => 0x29 case U2 => 0x2A case U4 => 0x2C
  }

  function FormatCode(it: Item): Byte
  {
    match it
    case List(_) => 0x00
    case Binary(_) => 0x08
    case Boolean(_) => 0x09
    case Ascii(_) => 0x10
    case Jis8(_) => 0x11
    case Numbers(k, _) => NumCode(k)
    case Other(c) => c
  }

  /** Sub-items for a list, data bytes for everything else. */
  function Count(it: Item): nat
  {
    match it
    case List(items) => |items|
    case Binary(b) => |b|
    case Boolean(b) => |b|
    case Ascii(s) => |s|
    case Jis8(s) => |s|
    case Numbers(k, vals) => |vals| * Width(k)
    case Other(_) => 0
  }

  function LengthBytesNeeded(n: nat): (lb: nat)
    ensures 1 <= lb <= 3
  {
    if n <= 0xFF then 1 else if n <= 0xFFFF then 2 else 3
  }

  function BoolBytes(bools: seq<bool>): (b: seq<Byte>)
    ensures |b| == |bools|
  {
    seq(|bools|, i requires 0 <= i < |bools| => if bools[i] then 1 else 0)
  }

  function Words(k: NumKind, vals: seq<int>): seq<Byte>
  {
    if vals == [] then [] else BigEndian(Width(k), Word(k, vals[0])) + Words(k, vals[1..])
  }

  function Body(it: Item): seq<Byte>
    decreases it, 0
  {
    match it
    case List(items) => EncodeAll(items)
    case Binary(b) => b
    case Boolean(bools) => BoolBytes(bools)
    case Ascii(s) => s
    case Jis8(s) => s
    case Numbers(k, vals) => Words(k, vals)
    case Other(_) => []
  }

  function EncodeAll(items: seq<Item>): seq<Byte>
    decreases items, 0
  {
    if items == [] then [] else Encode(items[0]) + EncodeAll(items[1..])
  }

  /** Format byte, the count in as few length bytes as it needs, then the data. */
  function Framed(code: Byte, n: nat, body: seq<Byte>): seq<Byte>
  {
    var lb := LengthBytesNeeded(n);
    [(code * 4) % 256 + lb] + BigEndian(lb, n) + body
  }

  function Encode(it: Item): seq<Byte>
    decreases it, 1
  {
    Framed(FormatCode(it), Count(it), Body(it))
  }

  function KindOf(code: nat): (k: seq<NumKind>)
    ensures |k| <= 1
    ensures forall x: NumKind :: k == [x] <==> NumCode(x) == code
  {
    if code == 0x18 then [I8] else if code == 0x19 then [I1] else if code == 0x1A then [I2]
    else if code == 0x1C then [I4] else if code == 0x20 then [F8] else if code == 0x24 then [F4]
    else if code == 0x28 then [U8] else if code == 0x29 then [U1] else if code == 0x2A then [U2]
    else if code == 0x2C then [U4] else []
  }

  function Values(k: NumKind, b: seq<Byte>): seq<int>
    decreases |b|
  {
    if |b| < Width(k) then [] else [Value(k, FromBigEndian(b[..Width(k)]))] + Values(k, b[Width(k)..])
  }

  function Bools(b: seq<Byte>): (r: seq<bool>)
    ensures |r| == |b|
  {
    seq(|b|, i requires 0 <= i < |b| => b[i] != 0)
  }

  /** A non-list item whose n data bytes are b. */
  function DecodeLeaf(code: nat, b: seq<Byte>): seq<Item>
  {
    if code == 0x08 then [Binary(b)]
    else if code == 0x09 then [Boolean(Bools(b))]
    else if code == 0x10 then [Ascii(b)]
    else if code == 0x11 then [Jis8(b)]
    else if KindOf(code) != [] then [Numbers(KindOf(code)[0], Values(KindOf(code)[0], b))]
    else []
  }

  /** Whether a declared byte count n fits the element width of the format. */
  predicate WholeElements(code: nat, n: nat) {
    KindOf(code) != [] ==> n % Width(KindOf(code)[0]) == 0
  }

  predicate Known(code: nat) { code in {0x00, 0x08, 0x09, 0x10, 0x11} || KindOf(code) != [] }

  /** A format byte naming 1 to 3 length bytes, and those length bytes. */
  predicate HasHeader(data: seq<Byte>) {
    data != [] && data[0] % 4 != 0 && |data| >= 1 + data[0] % 4
  }

  function DeclaredCount(data: seq<Byte>): nat
    requires HasHeader(data)
  {
    FromBigEndian(data[1..1 + data[0] % 4])
  }

  function AfterHeader(data: seq<Byte>): seq<Byte>
    requires HasHeader(data)
  {
    data[1 + data[0] % 4..]
  }

  function Decode(data: seq<Byte>): (r: Decoded)
    ensures r.Ok? ==> |r.rest| + 2 <= |data|
    decreases |data|, 0
  {
    if data == [] then Err(EmptyData) else
    if data[0] % 4 == 0 then Err(NoLengthBytes) else
    if !HasHeader(data) then Err(TruncatedLength) else
    var code := data[0] / 4;
    var n := DeclaredCount(data);
    var rest := AfterHeader(data);
    if !Known(code) then Err(UnknownFormat) else
    if code == 0x00 then
      match DecodeList(rest, n)
      case Elements(items, remaining) => Ok(List(items), remaining)
      case Failed(e) => Err(e)
    else if !WholeElements(code, n) || |rest| < n then Err(Short)
    else Ok(DecodeLeaf(code, rest[..n])[0], rest[n..])
  }

  /** The loop over a list's n elements. */
  function DecodeList(data: seq<Byte>, n: nat): (r: DecodedList)
    ensures r.Elements? ==> |r.rest| <= |data|
    decreases |data|, 1
  {
    if n == 0 then Elements([], data) else
    match Decode(data)
    case Err(e) => Failed(e)
    case Ok(item, rest) =>
      match DecodeList(rest, n - 1)
      case Failed(e) => Failed(e)
      case Elements(items, remaining) => Elements([item] + items, remaining)
  }

  // ----- The grammar -----

  /** The bytes `b` are the `Width(k)`-byte two's-complement numeral of v. */
  ghost predicate Numeral(k: NumKind, v: int, b: seq<Byte>) {
    |b| == Width(k) && InRange(k, v) && FromBigEndian(b) == Word(k, v)
  }

  ghost predicate WordsDenote(b: seq<Byte>, k: NumKind, vals: seq<int>) {
    if vals == [] then b == []
    else |b| >= Width(k) && Numeral(k, vals[0], b[..Width(k)]) && WordsDenote(b[Width(k)..], k, vals[1..])
  }

  ghost predicate BodyDenotes(b: seq<Byte>, it: Item)
    decreases it, 0
  {
    match it
    case List(items) => ListDenotes(b, items)
    case Binary(bytes) => b == bytes
    case Boolean(bools) => |b| == |bools| && forall i :: 0 <= i < |b| ==> (bools[i] <==> b[i] != 0)
    case Ascii(s) => b == s
    case Jis8(s) => b == s
    case Numbers(k, vals) => WordsDenote(b, k, vals)
    case Other(_) => false
  }

  ghost predicate ListDenotes(b: seq<Byte>, items: seq<Item>)
    decreases items, 0
  {
    if items == [] then b == []
    else exists k :: 0 <= k <= |b| && Denotes(b[..k], items[0]) && ListDenotes(b[k..], items[1..])
  }

  /** `c` is a SECS-II encoding of `it`, with any sufficient number of length bytes and any nonzero byte for true. */
  ghost predicate Denotes(c: seq<Byte>, it: Item)
    decreases it, 1
  {
    && HasHeader(c)
    && c[0] / 4 == FormatCode(it)
    && DeclaredCount(c) == Count(it)
    && BodyDenotes(AfterHeader(c), it)
  }

  /** What the 24-bit length field and the element types can carry. */
  ghost predicate Encodable(it: Item)
  {
    && Count(it) < 0x100_0000
    && match it
       case List(items) => forall i :: 0 <= i < |items| ==> Encodable(items[i])
       case Numbers(k, vals) => forall i :: 0 <= i < |vals| ==> InRange(k, vals[i])
       case Other(_) => false
       case _ => true
  }

  // ----- Leaves -----

  lemma ModBelow(u: nat, m: nat)
    requires u < m
    ensures u % m == u && (u - m) % m == u
  {
  }

  lemma ValueOfWord(k: NumKind, v: int)
    requires InRange(k, v)
    ensures Value(k, Word(k, v)) == v
  {
    ModBelow(if v < 0 then v + Modulus(k) else v, Modulus(k));
  }

  lemma WordOfValue(k: NumKind, u: nat)
    requires u < Modulus(k)
    ensures InRange(k, Value(k, u)) && Word(k, Value(k, u)) == u
  {
    ModBelow(u, Modulus(k));
  }

  lemma Multiples(n: nat, k: NumKind)
    ensures n > 0 ==> n * Width(k) == Width(k) + (n - 1) * Width(k)
    ensures (n * Width(k)) % Width(k) == 0
  {
    Scaled(n, Width(k));
  }

  lemma Scaled(n: nat, w: nat)
    requires w > 0
    ensures n > 0 ==> n * w == w + (n - 1) * w
    ensures (n * w) % w == 0
  {
    WholeTimes(n, w, n * w);
  }

  lemma WholeTimes(q: nat, w: nat, x: nat)
    requires w > 0 && x == q * w
    ensures x % w == 0
  {
    if x % w != 0 {
      var d := x / w;
      assert x == d * w + x % w;
      if d < q { Above(d + 1, q, w); } else { Above(q, d, w); }
    }
  }

  lemma Above(a: nat, b: nat, w: nat)
    requires a <= b
    ensures a * w <= b * w
  {
  }

  /** Taking one element off whole elements leaves whole elements. */
  lemma OneLess(n: nat, w: nat)
    requires 0 < w <= n && n % w == 0
    ensures (n - w) % w == 0
  {
    var q := n / w;
    assert n == q * w;
    Distribute(q, w);
    WholeTimes(q - 1, w, n - w);
  }

  lemma Distribute(q: nat, w: nat)
    ensures (q - 1) * w == q * w - w
  {
  }

  lemma {:induction false} WordsCount(b: seq<Byte>, k: NumKind, vals: seq<int>)
    requires WordsDenote(b, k, vals)
    ensures |b| == |vals| * Width(k) && |b| % Width(k) == 0
  {
    Multiples(|vals|, k);
    if vals == [] {
    } else {
      WordsCount(b[Width(k)..], k, vals[1..]);
    }
  }

  lemma {:induction false} DecodeWords(b: seq<Byte>, k: NumKind, vals: seq<int>)
    requires WordsDenote(b, k, vals)
    ensures Values(k, b) == vals
  {
    if vals == [] {
    } else {
      DecodeWords(b[Width(k)..], k, vals[1..]);
      ValueOfWord(k, vals[0]);
      assert [vals[0]] + vals[1..] == vals;
    }
  }

  lemma NumeralOf(k: NumKind, b: seq<Byte>)
    requires |b| == Width(k)
    ensures Numeral(k, Value(k, FromBigEndian(b)), b)
  {
    ModulusIsPower(k);
    WordOfValue(k, FromBigEndian(b));
  }

  lemma {:induction false} ValuesDenote(b: seq<Byte>, k: NumKind)
    requires |b| % Width(k) == 0
    ensures WordsDenote(b, k, Values(k, b))
    decreases |b|
  {
    var w := Width(k);
    if |b| < w {
    } else {
      OneLess(|b|, w);
      ValuesDenote(b[w..], k);
      NumeralOf(k, b[..w]);
      ValuesTail(k, b);
      hide Numeral, Values;
    }
  }

  lemma ValuesTail(k: NumKind, b: seq<Byte>)
    requires |b| >= Width(k)
    ensures Values(k, b) != [] && Values(k, b)[0] == Value(k, FromBigEndian(b[..Width(k)]))
    ensures Values(k, b)[1..] == Values(k, b[Width(k)..])
  {
    hide FromBigEndian, Value;
  }

  lemma {:induction false} WordsLength(k: NumKind, vals: seq<int>)
    ensures |Words(k, vals)| == |vals| * Width(k)
  {
    hide BigEndian, Word, Width;
    if vals == [] {
    } else {
      WordsLength(k, vals[1..]);
      Multiples(|vals|, k);
    }
  }

  lemma {:induction false} EncodeWords(k: NumKind, vals: seq<int>)
    ensures (forall i :: 0 <= i < |vals| ==> InRange(k, vals[i])) ==> WordsDenote(Words(k, vals), k, vals)
  {
    hide BigEndian, Word, Width, InRange, FromBigEndian, Modulus, Pow256;
    if vals == [] {
    } else {
      EncodeWords(k, vals[1..]);
      ModulusIsPower(k);
      BigEndianRoundTrip(Width(k), Word(k, vals[0]));
      var b := Words(k, vals);
      assert b[..Width(k)] == BigEndian(Width(k), Word(k, vals[0])) && b[Width(k)..] == Words(k, vals[1..]);
    }
  }

  lemma {:induction false} WordsInRange(b: seq<Byte>, k: NumKind, vals: seq<int>)
    requires WordsDenote(b, k, vals)
    ensures forall i :: 0 <= i < |vals| ==> InRange(k, vals[i])
  {
    if vals == [] {
    } else {
      WordsInRange(b[Width(k)..], k, vals[1..]);
      assert forall i :: 0 < i < |vals| ==> vals[i] == vals[1..][i - 1];
    }
  }

  // ----- The decoder accepts exactly the grammar -----

  lemma HeaderExtends(c: seq<Byte>, r: seq<Byte>)
    requires HasHeader(c)
    ensures HasHeader(c + r) && (c + r)[0] == c[0]
    ensures DeclaredCount(c + r) == DeclaredCount(c) && AfterHeader(c + r) == AfterHeader(c) + r
  {
    var lb := c[0] % 4;
    assert (c + r)[1..1 + lb] == c[1..1 + lb];
  }

  lemma {:induction false} DecodeAccepts(c: seq<Byte>, it: Item, r: seq<Byte>)
    requires Denotes(c, it)
    ensures Decode(c + r) == Ok(it, r)
    decreases it, 1
  {
    HeaderExtends(c, r);
    var body := AfterHeader(c);
    if it.List? {
      DecodeListAccepts(body, it.items, r);
    } else {
      LeafAccepts(body, it);
      assert (body + r)[..|body|] == body && (body + r)[|body|..] == r;
    }
  }

  lemma LeafAccepts(body: seq<Byte>, it: Item)
    requires !it.List? && BodyDenotes(body, it)
    ensures |body| == Count(it) && FormatCode(it) != 0 && Known(FormatCode(it)) && WholeElements(FormatCode(it), |body|)
    ensures DecodeLeaf(FormatCode(it), body) == [it]
  {
    match it
    case Numbers(k, vals) =>
      DecodeWords(body, k, vals);
      WordsCount(body, k, vals);
      assert KindOf(NumCode(k)) == [k];
    case Boolean(bools) =>
      assert Bools(body) == bools;
    case Binary(_) =>
    case Ascii(_) =>
    case Jis8(_) =>
  }

  lemma ListStep(d: seq<Byte>, n: nat, item: Item, rest: seq<Byte>, items: seq<Item>, remaining: seq<Byte>)
    requires Decode(d) == Ok(item, rest) && DecodeList(rest, n) == Elements(items, remaining)
    ensures DecodeList(d, n + 1) == Elements([item] + items, remaining)
  {
  }

  lemma Split(b: seq<Byte>, k: nat, r: seq<Byte>)
    requires k <= |b|
    ensures b + r == b[..k] + (b[k..] + r)
  {
  }

  lemma FirstEnds(b: seq<Byte>, items: seq<Item>) returns (k: nat)
    requires items != [] && ListDenotes(b, items)
    ensures k <= |b| && Denotes(b[..k], items[0]) && ListDenotes(b[k..], items[1..])
  {
    k :| 0 <= k <= |b| && Denotes(b[..k], items[0]) && ListDenotes(b[k..], items[1..]);
  }

  lemma NoneDenoted(b: seq<Byte>, items: seq<Item>, r: seq<Byte>)
    requires items == [] && ListDenotes(b, items)
    ensures DecodeList(b + r, |items|) == Elements(items, r)
  {
    assert b + r == r;
  }

  lemma {:induction false} DecodeListAccepts(b: seq<Byte>, items: seq<Item>, r: seq<Byte>)
    requires ListDenotes(b, items)
    ensures DecodeList(b + r, |items|) == Elements(items, r)
    decreases items, 0
  {
    hide *;
    if items == [] {
      NoneDenoted(b, items, r);
    } else {
      var k := FirstEnds(b, items);
      DecodeAccepts(b[..k], items[0], b[k..] + r);
      DecodeListAccepts(b[k..], items[1..], r);
      Split(b, k, r);
      ListStep(b + r, |items| - 1, items[0], b[k..] + r, items[1..], r);
      assert [items[0]] + items[1..] == items;
    }
  }

  lemma HeaderShrinks(d: seq<Byte>, c: seq<Byte>)
    requires HasHeader(d) && c <= d && |c| >= 1 + d[0] % 4
    ensures HasHeader(c) && c[0] == d[0] && DeclaredCount(c) == DeclaredCount(d)
    ensures AfterHeader(c) == AfterHeader(d)[..|c| - 1 - d[0] % 4]
  {
    assert c[1..1 + d[0] % 4] == d[1..1 + d[0] % 4];
  }

  lemma LeafSound(code: nat, body: seq<Byte>)
    requires code != 0 && Known(code) && WholeElements(code, |body|)
    ensures |DecodeLeaf(code, body)| == 1
    ensures var it := DecodeLeaf(code, body)[0];
            FormatCode(it) == code && Count(it) == |body| && BodyDenotes(body, it)
  {
    if KindOf(code) != [] {
      ValuesDenote(body, KindOf(code)[0]);
      WordsCount(body, KindOf(code)[0], Values(KindOf(code)[0], body));
      assert NumCode(KindOf(code)[0]) == code;
    }
  }

  /** `d` is a sentence denoting `it` followed by `rest`. */
  ghost predicate StartsWith(d: seq<Byte>, it: Item, rest: seq<Byte>) {
    |rest| <= |d| && d[|d| - |rest|..] == rest && Denotes(d[..|d| - |rest|], it)
  }

  ghost predicate StartsWithList(d: seq<Byte>, items: seq<Item>, rest: seq<Byte>) {
    |rest| <= |d| && d[|d| - |rest|..] == rest && ListDenotes(d[..|d| - |rest|], items)
  }

  lemma HeaderThenList(d: seq<Byte>, items: seq<Item>, rest: seq<Byte>)
    requires HasHeader(d) && d[0] / 4 == 0 && DeclaredCount(d) == |items| && StartsWithList(AfterHeader(d), items, rest)
    ensures StartsWith(d, List(items), rest)
  {
    HeaderShrinks(d, d[..|d| - |rest|]);
  }

  lemma HeaderThenLeaf(d: seq<Byte>)
    requires HasHeader(d) && d[0] / 4 != 0 && Known(d[0] / 4) && WholeElements(d[0] / 4, DeclaredCount(d))
    requires DeclaredCount(d) <= |AfterHeader(d)|
    ensures var body := AfterHeader(d)[..DeclaredCount(d)];
            |DecodeLeaf(d[0] / 4, body)| == 1 &&
            StartsWith(d, DecodeLeaf(d[0] / 4, body)[0], AfterHeader(d)[DeclaredCount(d)..])
  {
    var n := DeclaredCount(d);
    LeafSound(d[0] / 4, AfterHeader(d)[..n]);
    HeaderShrinks(d, d[..1 + d[0] % 4 + n]);
  }

  lemma ListThenItem(d: seq<Byte>, item: Item, rest: seq<Byte>, items: seq<Item>, remaining: seq<Byte>)
    requires StartsWith(d, item, rest) && StartsWithList(rest, items, remaining)
    ensures StartsWithList(d, [item] + items, remaining)
  {
    var b, k := d[..|d| - |remaining|], |d| - |rest|;
    assert b[..k] == d[..k] && b[k..] == rest[..|rest| - |remaining|] && ([item] + items)[1..] == items;
  }

  lemma {:induction false} DecodeSound(d: seq<Byte>, it: Item, rest: seq<Byte>)
    requires Decode(d) == Ok(it, rest)
    ensures StartsWith(d, it, rest)
    decreases |d|, 0
  {
    if d[0] / 4 == 0x00 {
      DecodeListSound(AfterHeader(d), DeclaredCount(d), it.items, rest);
      HeaderThenList(d, it.items, rest);
    } else {
      HeaderThenLeaf(d);
    }
  }

  lemma ListInversion(d: seq<Byte>, n: nat, items: seq<Item>, remaining: seq<Byte>)
    requires n > 0 && DecodeList(d, n) == Elements(items, remaining)
    ensures Decode(d).Ok? && items != [] && items[0] == Decode(d).item
    ensures DecodeList(Decode(d).rest, n - 1) == Elements(items[1..], remaining)
  {
  }

  lemma NoElements(d: seq<Byte>, items: seq<Item>, remaining: seq<Byte>)
    requires DecodeList(d, 0) == Elements(items, remaining)
    ensures items == [] && StartsWithList(d, items, remaining)
  {
  }

  lemma {:induction false} DecodeListSound(d: seq<Byte>, n: nat, items: seq<Item>, remaining: seq<Byte>)
    requires DecodeList(d, n) == Elements(items, remaining)
    ensures |items| == n && StartsWithList(d, items, remaining)
    decreases |d|, 1
  {
    hide *;
    if n == 0 {
      NoElements(d, items, remaining);
    } else {
      ListInversion(d, n, items, remaining);
      var rest := Decode(d).rest;
      DecodeSound(d, items[0], rest);
      DecodeListSound(rest, n - 1, items[1..], remaining);
      ListThenItem(d, items[0], rest, items[1..], remaining);
      assert [items[0]] + items[1..] == items;
    }
  }

  /** Decode yields `it` and `rest` on exactly the inputs that are a sentence denoting `it` followed by `rest`. */
  lemma DecodeMeetsGrammar(d: seq<Byte>, it: Item, rest: seq<Byte>)
    ensures Decode(d) == Ok(it, rest) <==> StartsWith(d, it, rest)
  {
    hide Decode, Denotes;
    if Decode(d) == Ok(it, rest) {
      DecodeSound(d, it, rest);
    }
    if StartsWith(d, it, rest) {
      DecodeAccepts(d[..|d| - |rest|], it, rest);
      assert d == d[..|d| - |rest|] + rest;
    }
  }

  // ----- The encoder produces its shortest sentences -----

  lemma HeaderOf(code: Byte, n: nat, body: seq<Byte>)
    requires code < 64 && n < 0x100_0000
    ensures var c := Framed(code, n, body);
            HasHeader(c) && c[0] / 4 == code && DeclaredCount(c) == n && AfterHeader(c) == body
  {
    var lb, c := LengthBytesNeeded(n), Framed(code, n, body);
    SmallPowers();
    BigEndianRoundTrip(lb, n);
    assert c[1..1 + lb] == BigEndian(lb, n);
  }

  lemma {:induction false} EncodeInGrammar(it: Item)
    requires Encodable(it)
    ensures Denotes(Encode(it), it)
    decreases it, 1
  {
    HeaderOf(FormatCode(it), Count(it), Body(it));
    match it
    case List(items) => EncodeAllInGrammar(items);
    case Numbers(k, vals) =>
      WordsLength(k, vals);
      EncodeWords(k, vals);
    case _ =>
  }

  lemma {:induction false} EncodeAllInGrammar(items: seq<Item>)
    requires forall i :: 0 <= i < |items| ==> Encodable(items[i])
    ensures ListDenotes(EncodeAll(items), items)
    decreases items, 0
  {
    if items == [] {
    } else {
      EncodeInGrammar(items[0]);
      EncodeAllInGrammar(items[1..]);
      var b, k := EncodeAll(items), |Encode(items[0])|;
      assert b[..k] == Encode(items[0]) && b[k..] == EncodeAll(items[1..]);
    }
  }

  lemma {:induction false} EncodeShortest(c: seq<Byte>, it: Item)
    requires Denotes(c, it)
    ensures Encodable(it) && |Encode(it)| <= |c|
    decreases it, 1
  {
    SmallPowers();
    match it
    case List(items) => EncodeAllShortest(AfterHeader(c), items);
    case Numbers(k, vals) => WordsShortest(AfterHeader(c), k, vals);
    case _ =>
  }

  lemma WordsShortest(b: seq<Byte>, k: NumKind, vals: seq<int>)
    requires WordsDenote(b, k, vals)
    ensures |Words(k, vals)| == |b| && forall i :: 0 <= i < |vals| ==> InRange(k, vals[i])
  {
    hide *;
    WordsLength(k, vals);
    WordsCount(b, k, vals);
    WordsInRange(b, k, vals);
  }

  lemma {:induction false} EncodeAllShortest(b: seq<Byte>, items: seq<Item>)
    requires ListDenotes(b, items)
    ensures (forall i :: 0 <= i < |items| ==> Encodable(items[i])) && |EncodeAll(items)| <= |b|
    decreases items, 0
  {
    if items == [] {
    } else {
      var k := FirstEnds(b, items);
      EncodeShortest(b[..k], items[0]);
      EncodeAllShortest(b[k..], items[1..]);
      assert forall i :: 0 < i < |items| ==> items[i] == items[1..][i - 1];
    }
  }

  // ----- Main results -----

  /** An encoded item followed by anything decodes back to exactly that item and remainder, iff it is encodable. */
  lemma RoundTrip(it: Item, r: seq<Byte>)
    ensures Decode(Encode(it) + r) == Ok(it, r) <==> Encodable(it)
  {
    var d := Encode(it) + r;
    if Encodable(it) {
      EncodeInGrammar(it);
      DecodeAccepts(Encode(it), it, r);
    }
    if Decode(d) == Ok(it, r) {
      DecodeSound(d, it, r);
      EncodeShortest(d[..|d| - |r|], it);
    }
  }

  /** Whatever is decoded re-encodes to no more bytes than were consumed, and that encoding decodes back to it. */
  lemma DecodeCanonicalises(d: seq<Byte>, r: seq<Byte>)
    requires Decode(d).Ok?
    ensures var Ok(it, rest) := Decode(d);
            |Encode(it)| <= |d| - |rest| && Decode(Encode(it) + r) == Ok(it, r)
  {
    var Ok(it, rest) := Decode(d);
    DecodeSound(d, it, rest);
    EncodeShortest(d[..|d| - |rest|], it);
    RoundTrip(it, r);
  }

  /** No sentence of the grammar is a proper prefix of another, and a sentence has one reading. */
  lemma UniqueReading(a: seq<Byte>, x: Item, b: seq<Byte>, y: Item)
    requires Denotes(a, x) && Denotes(b, y) && a <= b
    ensures a == b && x == y
  {
    DecodeAccepts(a, x, b[|a|..]);
    DecodeAccepts(b, y, []);
    assert a + b[|a|..] == b && b + [] == b;
  }

  // ----- The loops of the codec -----

  /** Writes one word into the buffer in place and nothing else. */
  method PutWord(buf: array<Byte>, pos: nat, word: seq<Byte>)
    requires pos + |word| <= buf.Length
    modifies buf
    ensures buf[..pos + |word|] == old(buf[..pos]) + word
  {
    for j := 0 to |word|
      invariant buf[..pos] == old(buf[..pos]) && buf[pos..pos + j] == word[..j]
    {
      buf[pos + j] := word[j];
    }
    assert buf[..pos + |word|] == buf[..pos] + buf[pos..pos + |word|];
  }

  lemma WordsStep(k: NumKind, vals: seq<int>, i: nat, done: seq<Byte>)
    requires i < |vals|
    ensures var word := BigEndian(Width(k), Word(k, vals[i]));
            done + Words(k, vals[i..]) == (done + word) + Words(k, vals[i + 1..]) &&
            |Words(k, vals[i..])| == |word| + |Words(k, vals[i + 1..])|
  {
    assert vals[i..][1..] == vals[i + 1..];
  }

  lemma NoWords(k: NumKind, vals: seq<int>)
    requires vals == []
    ensures Words(k, vals) == []
  {
  }

  /** Fills a buffer word by word, as the numeric branches of body do. */
  method PutWords(k: NumKind, vals: seq<int>) returns (out: seq<Byte>)
    ensures out == Words(k, vals)
  {
    hide Words, BigEndian, Word;
    WordsLength(k, vals);
    var buf := new Byte[|vals| * Width(k)];
    var pos, i := 0, 0;
    assert vals[i..] == vals;
    while i < |vals|
      invariant 0 <= i <= |vals| && 0 <= pos <= buf.Length
      invariant pos + |Words(k, vals[i..])| == buf.Length
      invariant buf[..pos] + Words(k, vals[i..]) == Words(k, vals)
    {
      var word := BigEndian(Width(k), Word(k, vals[i]));
      WordsStep(k, vals, i, buf[..pos]);
      PutWord(buf, pos, word);
      pos, i := pos + |word|, i + 1;
    }
    NoWords(k, vals[i..]);
    out := buf[..pos];
  }

  method EncodeBody(it: Item) returns (b: seq<Byte>)
    ensures b == Body(it)
    decreases it, 0
  {
    match it
    case List(items) =>
      b := [];
      for i := 0 to |items|
        invariant b + EncodeAll(items[i..]) == EncodeAll(items)
      {
        var sub := EncodeItem(items[i]);
        assert items[i..][1..] == items[i + 1..];
        b := b + sub;
      }
    case Binary(bytes) => b := bytes;
    case Boolean(bools) =>
      var buf := new Byte[|bools|](_ => 0);
      for i := 0 to |bools|
        invariant forall j :: 0 <= j < |bools| ==> buf[j] == if j < i && bools[j] then 1 else 0
      {
        if bools[i] { buf[i] := 1; }
      }
      b := buf[..];
    case Ascii(s) => b := s;
    case Jis8(s) => b := s;
    case Numbers(k, vals) => b := PutWords(k, vals);
    case Other(_) => b := [];
  }

  method EncodeItem(it: Item) returns (out: seq<Byte>)
    ensures out == Encode(it)
    decreases it, 1
  {
    var body := EncodeBody(it);
    var n := Count(it);
    var lb := LengthBytesNeeded(n);
    out := [(FormatCode(it) * 4) % 256 + lb];
    out := out + BigEndian(lb, n);
    out := out + body;
  }

  lemma ValuesStep(k: NumKind, b: seq<Byte>, pos: nat, done: seq<int>)
    requires pos + Width(k) <= |b|
    ensures done + Values(k, b[pos..]) ==
            (done + [Value(k, FromBigEndian(b[pos..pos + Width(k)]))]) + Values(k, b[pos + Width(k)..])
  {
    assert b[pos..][..Width(k)] == b[pos..pos + Width(k)] && b[pos..][Width(k)..] == b[pos + Width(k)..];
  }

  method GetValues(k: NumKind, b: seq<Byte>) returns (vals: seq<int>)
    ensures vals == Values(k, b)
  {
    var w, pos := Width(k), 0;
    vals := [];
    while pos + w <= |b|
      invariant 0 <= pos <= |b|
      invariant vals + Values(k, b[pos..]) == Values(k, b)
    {
      ValuesStep(k, b, pos, vals);
      vals := vals + [Value(k, FromBigEndian(b[pos..pos + w]))];
      pos := pos + w;
    }
  }

  method GetBools(b: seq<Byte>) returns (bools: seq<bool>)
    ensures bools == Bools(b)
  {
    bools := [];
    for i := 0 to |b|
      invariant |bools| == i && forall j :: 0 <= j < i ==> bools[j] == (b[j] != 0)
    {
      bools := bools + [b[i] != 0];
    }
  }

  method DecodeLeafItem(code: nat, b: seq<Byte>) returns (it: Item)
    requires code != 0 && Known(code)
    ensures [it] == DecodeLeaf(code, b)
  {
    if code == 0x08 { it := Binary(b); }
    else if code == 0x09 { var bools := GetBools(b); it := Boolean(bools); }
    else if code == 0x10 { it := Ascii(b); }
    else if code == 0x11 { it := Jis8(b); }
    else { var k := KindOf(code)[0]; var vals := GetValues(k, b); it := Numbers(k, vals); }
  }

  /** The outcome of a list whose first elements are already decoded. */
  ghost function Prepend(items: seq<Item>, r: DecodedList): DecodedList {
    if r.Elements? then Elements(items + r.items, r.rest) else r
  }

  method DecodeItem(data: seq<Byte>) returns (r: Decoded)
    ensures r == Decode(data)
    decreases |data|, 0
  {
    if data == [] { return Err(EmptyData); }
    if data[0] % 4 == 0 { return Err(NoLengthBytes); }
    if !HasHeader(data) { return Err(TruncatedLength); }
    var code, n, rest := data[0] / 4, DeclaredCount(data), AfterHeader(data);
    if !Known(code) { return Err(UnknownFormat); }
    if code == 0x00 {
      var list := DecodeItems(rest, n);
      return match list case Elements(items, remaining) => Ok(List(items), remaining) case Failed(e) => Err(e);
    }
    if !WholeElements(code, n) || |rest| < n { return Err(Short); }
    var leaf := DecodeLeafItem(code, rest[..n]);
    return Ok(leaf, rest[n..]);
  }

  method DecodeItems(data: seq<Byte>, n: nat) returns (r: DecodedList)
    ensures r == DecodeList(data, n)
    decreases |data|, 1
  {
    hide Decode, DecodeList, Prepend;
    var items, remaining := [], data;
    PrependNothing(DecodeList(data, n));
    for i := 0 to n
      invariant |remaining| <= |data|
      invariant DecodeList(data, n) == Prepend(items, DecodeList(remaining, n - i))
    {
      var sub := DecodeItem(remaining);
      match sub
      case Err(e) =>
        PrependFails(items, remaining, n - i, e);
        return Failed(e);
      case Ok(item, rest) =>
        PrependStep(items, remaining, n - i, item, rest);
        items, remaining := items + [item], rest;
    }
    PrependLast(items, remaining);
    return Elements(items, remaining);
  }

  lemma PrependNothing(r: DecodedList)
    ensures Prepend([], r) == r
  {
    if r.Elements? { assert [] + r.items == r.items; }
  }

  lemma PrependFails(items: seq<Item>, d: seq<Byte>, n: nat, e: DecodeError)
    requires n > 0 && Decode(d) == Err(e)
    ensures Prepend(items, DecodeList(d, n)) == Failed(e)
  {
  }

  lemma PrependLast(items: seq<Item>, d: seq<Byte>)
    ensures Prepend(items, DecodeList(d, 0)) == Elements(items, d)
  {
    assert items + [] == items;
  }

  lemma PrependStep(items: seq<Item>, d: seq<Byte>, n: nat, item: Item, rest: seq<Byte>)
    requires n > 0 && Decode(d) == Ok(item, rest)
    ensures Prepend(items, DecodeList(d, n)) == Prepend(items + [item], DecodeList(rest, n - 1))
  {
    var tail := DecodeList(rest, n - 1);
    if tail.Elements? {
      assert items + ([item] + tail.items) == items + [item] + tail.items;
    }
  }
}
