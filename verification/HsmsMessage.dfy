/**
 HSMS messages (SEMI E37, section 7): the ten-byte header, the length-prefixed block, and reading
 blocks off a byte stream.
 */
module HsmsMessage {
  import opened Bytes

  type Word16 = x: int | 0 <= x < 0x1_0000
  type Word32 = x: int | 0 <= x < 0x1_0000_0000

  const DATA: Byte := 0
  const SELECT_REQ: Byte := 1
  const SELECT_RSP: Byte := 2
  const LINKTEST_REQ: Byte := 5
  const LINKTEST_RSP: Byte := 6
  const SEPARATE_REQ: Byte := 9

  const SELECT_OK: Byte := 0
  const SELECT_ALREADY_ACTIVE: Byte := 1

  const MAX_LENGTH := 16 * 1024 * 1024

  datatype Header = Header(session: Word16, byte2: Byte, byte3: Byte, ptype: Byte, stype: Byte, system: Word32)

  datatype Message = Message(header: Header, body: seq<Byte>)

  /** What a stream of bytes starts with: a whole message, not enough bytes yet, or a length no message has. */
  datatype Block = Whole(m: Message, rest: seq<Byte>) | Short | Corrupt

  // ----- Data headers -----

  function DataHeader(session: Word16, stream: Byte, fn: Byte, wBit: bool, system: Word32): Header {
    Header(session, stream % 128 + (if wBit then 128 else 0), fn, 0, DATA, system)
  }

  function Stream(h: Header): Byte { h.byte2 % 128 }

  predicate WBit(h: Header) { h.byte2 >= 128 }

  /** A data header gives back what it was built from, except that streams are seven bits wide. */
  lemma DataHeaderFields(session: Word16, stream: Byte, fn: Byte, wBit: bool, system: Word32)
    ensures var h := DataHeader(session, stream, fn, wBit, system);
            h.session == session && h.system == system && h.ptype == 0 && h.stype == 0 && h.byte3 == fn
            && h.byte2 == (if wBit then 128 else 0) + stream % 128
            && WBit(h) == wBit && (Stream(h) == stream <==> stream < 128)
            && DataHeader(h.session, Stream(h), h.byte3, WBit(h), h.system) == h
  {
    if wBit { assert (stream % 128 + 128) % 128 == stream % 128; }
  }

  // ----- Encoding -----

  function EncodeHeader(h: Header): (b: seq<Byte>)
    ensures |b| == 10
  {
    BigEndian(2, h.session) + [h.byte2, h.byte3, h.ptype, h.stype] + BigEndian(4, h.system)
  }

  function DecodeHeader(b: seq<Byte>): Header
    requires |b| == 10
  {
    SmallPowers();
    Header(FromBigEndian(b[..2]), b[2], b[3], b[4], b[5], FromBigEndian(b[6..]))
  }

  lemma HeaderRoundTrip(h: Header)
    ensures DecodeHeader(EncodeHeader(h)) == h
  {
    SmallPowers();
    var b := EncodeHeader(h);
    assert b[..2] == BigEndian(2, h.session) && b[6..] == BigEndian(4, h.system);
    BigEndianRoundTrip(2, h.session);
    BigEndianRoundTrip(4, h.system);
  }

  /** Every ten bytes are some header: decoding loses nothing. */
  lemma HeaderInverse(b: seq<Byte>)
    requires |b| == 10
    ensures EncodeHeader(DecodeHeader(b)) == b
  {
    BigEndianInverse(b[..2]);
    BigEndianInverse(b[6..]);
    assert b == b[..2] + [b[2], b[3], b[4], b[5]] + b[6..];
  }

  /** The length field holds 32 bits; a longer message would announce itself as a shorter one. */
  function Encode(m: Message): (b: seq<Byte>)
    ensures |b| == 14 + |m.body|
  {
    BigEndian(4, 10 + |m.body|) + EncodeHeader(m.header) + m.body
  }

  function ReadBlock(b: seq<Byte>): Block {
    if |b| < 4 then Short
    else
      var length := FromBigEndian(b[..4]);
      if length < 10 || length > MAX_LENGTH then Corrupt
      else if |b| < 4 + length then Short
      else Whole(Message(DecodeHeader(b[4..14]), b[14..4 + length]), b[4 + length..])
  }

  lemma HeaderLayout(h: Header)
    ensures var b := EncodeHeader(h);
            && b[..2] == [h.session / 0x100, h.session % 0x100]
            && b[2..6] == [h.byte2, h.byte3, h.ptype, h.stype]
            && b[6..] == [h.system / 0x100_0000, h.system / 0x1_0000 % 0x100, h.system / 0x100 % 0x100,
                          h.system % 0x100]
  {
    BigEndian2(h.session);
    BigEndian4(h.system);
    hide BigEndian;
    var ses, sys := BigEndian(2, h.session), BigEndian(4, h.system);
    assert EncodeHeader(h) == ses + [h.byte2, h.byte3, h.ptype, h.stype] + sys;
    Thirds(ses, [h.byte2, h.byte3, h.ptype, h.stype], sys);
  }

  lemma Thirds(a: seq<Byte>, b: seq<Byte>, c: seq<Byte>)
    ensures (a + b + c)[..|a|] == a && (a + b + c)[|a|..|a| + |b|] == b && (a + b + c)[|a| + |b|..] == c
  {
  }

  /** The bytes of a message in plain numbers: length, session id, four bytes, system bytes, body. */
  lemma Layout(m: Message)
    ensures var b, h, n := Encode(m), m.header, 10 + |m.body|;
            && b[..4] == [n / 0x100_0000 % 0x100, n / 0x1_0000 % 0x100, n / 0x100 % 0x100, n % 0x100]
            && b[4..14][..2] == [h.session / 0x100, h.session % 0x100]
            && b[4..14][2..6] == [h.byte2, h.byte3, h.ptype, h.stype]
            && b[4..14][6..] == [h.system / 0x100_0000, h.system / 0x1_0000 % 0x100, h.system / 0x100 % 0x100,
                                 h.system % 0x100]
            && b[14..] == m.body
  {
    BigEndian4(10 + |m.body|);
    HeaderLayout(m.header);
    hide BigEndian, EncodeHeader;
    Thirds(BigEndian(4, 10 + |m.body|), EncodeHeader(m.header), m.body);
  }

  /** What a stream of bytes starts with, in plain numbers. */
  lemma ReadExact(b: seq<Byte>)
    ensures ReadBlock(b) == Short <==> |b| < 4 || (10 <= Big4(b, 0) <= 0x100_0000 && |b| < 4 + Big4(b, 0))
    ensures ReadBlock(b) == Corrupt <==> |b| >= 4 && !(10 <= Big4(b, 0) <= 0x100_0000)
    ensures ReadBlock(b).Whole? ==>
              && ReadBlock(b).m.header == Header(Big2(b, 4), b[6], b[7], b[8], b[9], Big4(b, 10))
              && ReadBlock(b).m.body == b[14..4 + Big4(b, 0)] && ReadBlock(b).rest == b[4 + Big4(b, 0)..]
  {
    ShortWords(b);
    if ReadBlock(b).Whole? { HeaderIs(b[4..14]); }
    hide FromBigEndian, DecodeHeader;
  }

  lemma HeaderIs(b: seq<Byte>)
    requires |b| == 10
    ensures DecodeHeader(b) == Header(Big2(b, 0), b[2], b[3], b[4], b[5], Big4(b, 6))
  {
    ShortWords(b);
    ShortWords(b[6..]);
    assert b[6..][..4] == b[6..];
    hide FromBigEndian;
  }

  // ----- Round trip -----

  /** The length fits its field up to this size. */
  predicate Sized(m: Message) { 10 + |m.body| < 0x1_0000_0000 }

  predicate Sendable(m: Message) { 10 + |m.body| <= MAX_LENGTH }

  lemma LengthField(m: Message, r: seq<Byte>)
    ensures (Encode(m) + r)[..4] == BigEndian(4, 10 + |m.body|)
    ensures Sized(m) ==> FromBigEndian((Encode(m) + r)[..4]) == 10 + |m.body|
  {
    SmallPowers();
    if Sized(m) { BigEndianRoundTrip(4, 10 + |m.body|); }
  }

  lemma ReadSendable(m: Message, r: seq<Byte>)
    requires Sendable(m)
    ensures ReadBlock(Encode(m) + r) == Whole(m, r)
  {
    LengthField(m, r);
    HeaderRoundTrip(m.header);
    var b := Encode(m) + r;
    assert b[4..14] == EncodeHeader(m.header);
    assert b[14..14 + |m.body|] == m.body && b[14 + |m.body|..] == r;
  }

  /** A message is read back, with whatever follows it, exactly when it is within the size limit. */
  lemma RoundTripExact(m: Message, r: seq<Byte>)
    ensures ReadBlock(Encode(m) + r) == Whole(m, r) <==> Sendable(m)
  {
    if Sendable(m) { ReadSendable(m, r); }
  }

  /** One over the limit, but still within the length field, is refused. */
  lemma TooLongRefused(m: Message, r: seq<Byte>)
    requires !Sendable(m) && Sized(m)
    ensures ReadBlock(Encode(m) + r) == Corrupt
  {
    LengthField(m, r);
  }

  /** What is read is what was there: no two byte strings read as the same message and rest. */
  lemma ReadIsEncoding(b: seq<Byte>)
    requires ReadBlock(b).Whole?
    ensures Sendable(ReadBlock(b).m) && b == Encode(ReadBlock(b).m) + ReadBlock(b).rest
  {
    var length := FromBigEndian(b[..4]);
    BigEndianInverse(b[..4]);
    HeaderInverse(b[4..14]);
    hide FromBigEndian, BigEndian, EncodeHeader, DecodeHeader;
    assert b == b[..4] + b[4..14] + b[14..4 + length] + b[4 + length..];
  }

  /** More bytes only ever complete a block; they never change one already there. */
  lemma MoreBytes(b: seq<Byte>, x: seq<Byte>)
    ensures ReadBlock(b).Whole? ==> ReadBlock(b + x) == Whole(ReadBlock(b).m, ReadBlock(b).rest + x)
    ensures ReadBlock(b).Corrupt? ==> ReadBlock(b + x).Corrupt?
  {
    if |b| >= 4 {
      assert (b + x)[..4] == b[..4];
      var length := FromBigEndian(b[..4]);
      if ReadBlock(b).Whole? {
        assert (b + x)[4..14] == b[4..14] && (b + x)[14..4 + length] == b[14..4 + length];
        assert (b + x)[4 + length..] == b[4 + length..] + x;
      }
    }
  }

  // ----- Streams -----

  function EncodeAll(ms: seq<Message>): seq<Byte> {
    if ms == [] then [] else Encode(ms[0]) + EncodeAll(ms[1..])
  }

  lemma {:induction false} EncodeAllSnoc(ms: seq<Message>, m: Message)
    ensures EncodeAll(ms + [m]) == EncodeAll(ms) + Encode(m)
  {
    if ms == [] {
      assert [m][1..] == [];
    } else {
      hide Encode;
      EncodeAllSnoc(ms[1..], m);
      assert (ms + [m])[1..] == ms[1..] + [m];
    }
  }

  /** All messages a reader gets out of a stream, in order. */
  function ReadAll(b: seq<Byte>): seq<Message>
    decreases |b|
  {
    match ReadBlock(b)
    case Whole(m, rest) => [m] + ReadAll(rest)
    case _ => []
  }

  lemma ReadAllStep(m: Message, r: seq<Byte>)
    requires Sendable(m)
    ensures ReadAll(Encode(m) + r) == [m] + ReadAll(r)
  {
    ReadSendable(m, r);
    hide ReadBlock, Encode;
  }

  /** A stream of messages within the limit is read back as sent, however it continues. */
  lemma {:induction false} StreamRoundTrip(ms: seq<Message>, r: seq<Byte>)
    requires forall i :: 0 <= i < |ms| ==> Sendable(ms[i])
    ensures ReadAll(EncodeAll(ms) + r) == ms + ReadAll(r)
  {
    hide ReadAll, Encode;
    if ms == [] {
      assert EncodeAll(ms) + r == r;
    } else {
      var rest := EncodeAll(ms[1..]) + r;
      ReadAllStep(ms[0], rest);
      assert EncodeAll(ms) + r == Encode(ms[0]) + rest;
      StreamRoundTrip(ms[1..], r);
      assert ms == [ms[0]] + ms[1..];
    }
  }

  // ----- The code that fills and reads buffers -----

  method Put(out: array<Byte>, at: nat, b: seq<Byte>)
    requires at + |b| <= out.Length
    modifies out
    ensures out[..] == old(out[..at]) + b + old(out[at + |b|..])
  {
    for i := 0 to |b|
      invariant out[..at] == old(out[..at]) && out[at..at + i] == b[..i] && out[at + |b|..] == old(out[at + |b|..])
    {
      out[at + i] := b[i];
      assert out[at..at + i + 1] == out[at..at + i] + [b[i]];
    }
    assert out[..] == out[..at] + out[at..at + |b|] + out[at + |b|..];
  }

  /** Writes a message into a fresh buffer. */
  method EncodeMessage(m: Message) returns (out: array<Byte>)
    ensures fresh(out) && out[..] == Encode(m)
  {
    out := new Byte[14 + |m.body|](_ => 0);
    Put(out, 0, BigEndian(4, 10 + |m.body|));
    Put(out, 4, EncodeHeader(m.header));
    assert out[..14] == BigEndian(4, 10 + |m.body|) + EncodeHeader(m.header);
    Put(out, 14, m.body);
  }

  /** A byte source that runs dry at its end. */
  class Reader {
    const data: seq<Byte>
    var pos: nat

    ghost predicate Valid()
      reads this
    {
      pos <= |data|
    }

    ghost function Rest(): seq<Byte>
      requires Valid()
      reads this
    {
      data[pos..]
    }

    constructor (data: seq<Byte>)
      ensures Valid() && Rest() == data
    {
      this.data := data;
      pos := 0;
    }

    /** Reads exactly n bytes, or fails having taken all there was. */
    method ReadFull(n: nat) returns (ok: bool, buf: seq<Byte>)
      requires Valid()
      modifies this
      ensures Valid() && (ok <==> n <= |old(Rest())|)
      ensures ok ==> buf == old(Rest())[..n] && Rest() == old(Rest())[n..]
    {
      if |data| - pos < n {
        pos := |data|;
        return false, [];
      }
      buf := data[pos..pos + n];
      pos := pos + n;
      ok := true;
    }

    /** Reads one block; on success the reader stands right behind it. */
    method ReadMessage() returns (r: Block)
      requires Valid()
      modifies this
      ensures Valid()
      ensures match ReadBlock(old(Rest()))
              case Whole(m, rest) => r == Whole(m, Rest()) && Rest() == rest
              case Short => r == Short
              case Corrupt => r == Corrupt
    {
      ghost var b := Rest();
      var ok, lenBuf := ReadFull(4);
      if !ok { return Short; }
      var length := FromBigEndian(lenBuf);
      if length < 10 || length > MAX_LENGTH { return Corrupt; }
      var whole, buf := ReadFull(length);
      if !whole { return Short; }
      assert buf[..10] == b[4..14] && buf[10..] == b[14..4 + length];
      r := Whole(Message(DecodeHeader(buf[..10]), buf[10..]), data[pos..]);
    }
  }
}
