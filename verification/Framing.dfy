/**
 Splitting a raw byte stream into frames by delimiter, fixed length, length prefix or idle time.
 The frames emitted depend only on the bytes received, never on how reads cut them up, and the
 exact way in which the size limit breaks that is stated too.
 */
module Framing {
  import opened Bytes

  datatype Mode =
    | Delimiter(raw: seq<Byte>)
    | FixedLength(length: int)
    | LengthPrefix(bytes: int, little: bool)
    | Timeout(ms: int)
    | UnknownMode

  datatype Config = Config(mode: Mode, maxFrameBytes: int)

  const DEFAULT_MAX_FRAME_BYTES := 0x10_0000

  predicate Valid(m: Mode) {
    match m
    case Delimiter(raw) => raw != []
    case FixedLength(n) => n > 0
    case LengthPrefix(n, _) => n == 1 || n == 2 || n == 4
    case Timeout(ms) => ms > 0
    case UnknownMode => false
  }

  function MaxFrame(cfg: Config): nat {
    if cfg.maxFrameBytes <= 0 then DEFAULT_MAX_FRAME_BYTES else cfg.maxFrameBytes
  }

  /** Replaces each backslash followed by `letter` with the single byte `value`, left to right. */
  function ReplaceEscape(s: seq<Byte>, letter: Byte, value: Byte): (r: seq<Byte>)
    ensures s != [] ==> r != []
  {
    if |s| < 2 then s
    else if s[0] == 0x5C && s[1] == letter then [value] + ReplaceEscape(s[2..], letter, value)
    else [s[0]] + ReplaceEscape(s[1..], letter, value)
  }

  /** \n, \r and \t as written in a configuration field become the bytes they name. */
  function Unescape(raw: seq<Byte>): (r: seq<Byte>)
    ensures raw != [] ==> r != []
  {
    ReplaceEscape(ReplaceEscape(ReplaceEscape(raw, 0x6E, 0x0A), 0x72, 0x0D), 0x74, 0x09)
  }

  /** The same in one pass. */
  function UnescapeOnce(s: seq<Byte>): seq<Byte> {
    if |s| < 2 then s
    else if s[..2] == [0x5C, 0x6E] then [0x0A] + UnescapeOnce(s[2..])
    else if s[..2] == [0x5C, 0x72] then [0x0D] + UnescapeOnce(s[2..])
    else if s[..2] == [0x5C, 0x74] then [0x09] + UnescapeOnce(s[2..])
    else [s[0]] + UnescapeOnce(s[1..])
  }

  lemma ReplaceSkips(b: Byte, x: seq<Byte>, letter: Byte, value: Byte)
    requires b != 0x5C || x == [] || x[0] != letter
    ensures ReplaceEscape([b] + x, letter, value) == [b] + ReplaceEscape(x, letter, value)
  {
    assert ([b] + x)[1..] == x;
  }

  lemma ReplaceHits(x: seq<Byte>, letter: Byte, value: Byte)
    ensures ReplaceEscape([0x5C, letter] + x, letter, value) == [value] + ReplaceEscape(x, letter, value)
  {
    assert ([0x5C, letter] + x)[2..] == x;
  }

  lemma ReplaceHead(x: seq<Byte>, letter: Byte, value: Byte)
    requires x != []
    ensures var y := ReplaceEscape(x, letter, value);
            y != [] && (y[0] == x[0] || (y[0] == value && |x| >= 2 && x[..2] == [0x5C, letter]))
  {
  }

  /** Replacing the three escapes one after the other is the same as reading the field once from left to right. */
  lemma {:induction false} UnescapeExact(s: seq<Byte>)
    ensures Unescape(s) == UnescapeOnce(s)
  {
    if |s| < 2 {
    } else if s[..2] == [0x5C, 0x6E] {
      UnescapeExact(s[2..]);
      assert s == [0x5C, 0x6E] + s[2..];
      Escapes(s[2..], 0x6E, 0x0A);
    } else if s[..2] == [0x5C, 0x72] {
      UnescapeExact(s[2..]);
      assert s == [0x5C, 0x72] + s[2..];
      Escapes(s[2..], 0x72, 0x0D);
    } else if s[..2] == [0x5C, 0x74] {
      UnescapeExact(s[2..]);
      assert s == [0x5C, 0x74] + s[2..];
      Escapes(s[2..], 0x74, 0x09);
    } else {
      UnescapeExact(s[1..]);
      assert s == [s[0]] + s[1..];
      PlainByte(s[0], s[1..]);
    }
  }

  lemma Escapes(x: seq<Byte>, letter: Byte, value: Byte)
    requires (letter == 0x6E && value == 0x0A) || (letter == 0x72 && value == 0x0D) || (letter == 0x74 && value == 0x09)
    ensures Unescape([0x5C, letter] + x) == [value] + Unescape(x)
  {
    hide ReplaceEscape;
    var x1 := ReplaceEscape(x, 0x6E, 0x0A);
    var x2 := ReplaceEscape(x1, 0x72, 0x0D);
    if letter == 0x6E {
      ReplaceHits(x, 0x6E, 0x0A);
      ReplaceSkips(0x0A, x1, 0x72, 0x0D);
      ReplaceSkips(0x0A, x2, 0x74, 0x09);
    } else {
      Untouched(letter, x, 0x6E, 0x0A);
      if letter == 0x72 {
        ReplaceHits(x1, 0x72, 0x0D);
        ReplaceSkips(0x0D, x2, 0x74, 0x09);
      } else {
        Untouched(letter, x1, 0x72, 0x0D);
        ReplaceHits(x2, 0x74, 0x09);
      }
    }
  }

  lemma Untouched(other: Byte, x: seq<Byte>, letter: Byte, value: Byte)
    requires other != letter && other != 0x5C
    ensures ReplaceEscape([0x5C, other] + x, letter, value) == [0x5C, other] + ReplaceEscape(x, letter, value)
  {
    hide ReplaceEscape;
    assert [0x5C, other] + x == [0x5C] + ([other] + x);
    ReplaceSkips(0x5C, [other] + x, letter, value);
    ReplaceSkips(other, x, letter, value);
    assert [0x5C] + ([other] + ReplaceEscape(x, letter, value)) == [0x5C, other] + ReplaceEscape(x, letter, value);
  }

  lemma PlainByte(b: Byte, x: seq<Byte>)
    requires x != [] && (b != 0x5C || x[0] !in {0x6E, 0x72, 0x74})
    ensures Unescape([b] + x) == [b] + Unescape(x)
  {
    hide ReplaceEscape;
    var x1 := ReplaceEscape(x, 0x6E, 0x0A);
    var x2 := ReplaceEscape(x1, 0x72, 0x0D);
    ReplaceHead(x, 0x6E, 0x0A);
    ReplaceHead(x1, 0x72, 0x0D);
    ReplaceSkips(b, x, 0x6E, 0x0A);
    ReplaceSkips(b, x1, 0x72, 0x0D);
    ReplaceSkips(b, x2, 0x74, 0x09);
  }

  predicate OccursAt(buf: seq<Byte>, d: seq<Byte>, i: int) {
    0 <= i && i + |d| <= |buf| && buf[i..i + |d|] == d
  }

  lemma OccursShift(buf: seq<Byte>, d: seq<Byte>, j: int)
    requires buf != [] && j > 0
    ensures OccursAt(buf, d, j) <==> OccursAt(buf[1..], d, j - 1)
  {
    if j + |d| <= |buf| { assert buf[1..][j - 1..j - 1 + |d|] == buf[j..j + |d|]; }
  }

  /** What is found behind the first byte is found one place further on. */
  lemma IndexShift(buf: seq<Byte>, d: seq<Byte>, r: int)
    requires buf != [] && !OccursAt(buf, d, 0) && r >= -1 && (r >= 0 ==> OccursAt(buf[1..], d, r))
    requires forall j :: OccursAt(buf[1..], d, j) ==> 0 <= r <= j
    ensures r >= 0 ==> OccursAt(buf, d, r + 1)
    ensures forall j :: OccursAt(buf, d, j) ==> 0 <= r && r + 1 <= j
  {
    if r >= 0 { OccursShift(buf, d, r + 1); }
    forall j | OccursAt(buf, d, j) ensures 0 <= r && r + 1 <= j { OccursShift(buf, d, j); }
  }

  /** The first index at which d occurs in buf, or -1. */
  function Index(buf: seq<Byte>, d: seq<Byte>): (r: int)
    ensures r < 0 ==> r == -1
    ensures r >= 0 ==> OccursAt(buf, d, r)
    ensures forall j :: OccursAt(buf, d, j) ==> 0 <= r <= j
  {
    if OccursAt(buf, d, 0) then 0
    else if buf == [] then -1
    else
      var r := Index(buf[1..], d);
      IndexShift(buf, d, r);
      if r < 0 then -1 else r + 1
  }

  datatype Extracted = None | Frame(frame: seq<Byte>, rest: seq<Byte>)

  function PrefixValue(little: bool, b: seq<Byte>): nat {
    if little then FromLittleEndian(b) else FromBigEndian(b)
  }

  function ExtractDelimited(d: seq<Byte>, buf: seq<Byte>): Extracted {
    var i := Index(buf, d);
    if i < 0 then None else Frame(buf[..i], buf[i + |d|..])
  }

  function ExtractFixed(n: nat, buf: seq<Byte>): Extracted {
    if |buf| < n then None else Frame(buf[..n], buf[n..])
  }

  function ExtractPrefixed(n: nat, little: bool, buf: seq<Byte>): Extracted {
    if |buf| < n then None else
    var end := n + PrefixValue(little, buf[..n]);
    if |buf| < end then None else Frame(buf[n..end], buf[end..])
  }

  function Extract(m: Mode, buf: seq<Byte>): (r: Extracted)
    requires Valid(m)
    ensures r.Frame? ==> |r.rest| < |buf|
  {
    match m
    case Delimiter(raw) => ExtractDelimited(Unescape(raw), buf)
    case FixedLength(n) => ExtractFixed(n, buf)
    case LengthPrefix(n, little) => ExtractPrefixed(n, little, buf)
    case Timeout(_) => None
  }

  datatype Parsed = Parsed(frames: seq<seq<Byte>>, rest: seq<Byte>)

  /** The inner loop: extract until no complete frame is left. */
  function ExtractAll(m: Mode, buf: seq<Byte>): (p: Parsed)
    requires Valid(m)
    ensures |p.rest| <= |buf|
    decreases |buf|
  {
    match Extract(m, buf)
    case None => Parsed([], buf)
    case Frame(f, rest) => var p := ExtractAll(m, rest); Parsed([f] + p.frames, p.rest)
  }

  // ----- The polling loop -----

  /** One poll: what was read, when, and the clock when the idle check runs. */
  datatype Poll = Poll(data: seq<Byte>, at: int, checkedAt: int)

  datatype State = State(buf: seq<Byte>, lastData: int, frames: seq<seq<Byte>>, failed: bool)

  /** The idle flush of timeout mode. */
  function Flush(m: Mode, s: State, now: int): State {
    if m.Timeout? && s.buf != [] && now - s.lastData >= m.ms
    then s.(buf := [], frames := s.frames + [s.buf]) else s
  }

  function Step(cfg: Config, s: State, p: Poll): State
    requires Valid(cfg.mode)
  {
    var buf := s.buf + p.data;
    var last := if p.data != [] then p.at else s.lastData;
    if p.data != [] && |buf| > MaxFrame(cfg) then s.(buf := buf, lastData := last, failed := true)
    else
      var x := ExtractAll(cfg.mode, buf);
      Flush(cfg.mode, State(x.rest, last, s.frames + x.frames, false), p.checkedAt)
  }

  /** The state after all polls, stopping at the first size-limit error. */
  function Run(cfg: Config, start: int, polls: seq<Poll>): State
    requires Valid(cfg.mode)
  {
    if polls == [] then State([], start, [], false)
    else
      var s := Run(cfg, start, polls[..|polls| - 1]);
      if s.failed then s else Step(cfg, s, polls[|polls| - 1])
  }

  function Received(polls: seq<Poll>): seq<Byte> {
    if polls == [] then [] else Received(polls[..|polls| - 1]) + polls[|polls| - 1].data
  }

  function Concat(frames: seq<seq<Byte>>): seq<Byte> {
    if frames == [] then [] else frames[0] + Concat(frames[1..])
  }

  function PrefixBytes(n: nat, little: bool, length: nat): (b: seq<Byte>)
    ensures |b| == n
  {
    if little then LittleEndian(n, length) else BigEndian(n, length)
  }

  /** One frame as the sender writes it. */
  function WireForm(m: Mode, f: seq<Byte>): seq<Byte>
    requires Valid(m)
  {
    match m
    case Delimiter(raw) => f + Unescape(raw)
    case LengthPrefix(n, little) => PrefixBytes(n, little, |f|) + f
    case _ => f
  }

  function Reframe(m: Mode, frames: seq<seq<Byte>>): seq<Byte>
    requires Valid(m)
  {
    if frames == [] then [] else WireForm(m, frames[0]) + Reframe(m, frames[1..])
  }

  /** The delimiter d first shows up in f + d at the very end. */
  ghost predicate NoEarlier(d: seq<Byte>, f: seq<Byte>) {
    forall i :: 0 <= i < |f| ==> !OccursAt(f + d, d, i)
  }

  /** A frame the framing can carry: no earlier delimiter, the right length, or a length the prefix can hold. */
  ghost predicate Carries(m: Mode, f: seq<Byte>)
    requires Valid(m)
  {
    match m
    case Delimiter(raw) => NoEarlier(Unescape(raw), f)
    case FixedLength(n) => |f| == n
    case LengthPrefix(n, _) => |f| < Pow256(n)
    case Timeout(_) => false
  }

  // ----- One extraction -----

  /** Occurrences in a prefix are the occurrences that end inside it. */
  lemma OccursInPrefix(p: seq<Byte>, buf: seq<Byte>, d: seq<Byte>, i: int)
    requires p <= buf
    ensures OccursAt(p, d, i) <==> OccursAt(buf, d, i) && i + |d| <= |p|
  {
    if 0 <= i && i + |d| <= |p| {
      assert p[i..i + |d|] == buf[i..i + |d|];
    }
  }

  lemma CutExtends(buf: seq<Byte>, more: seq<Byte>, i: nat)
    requires i <= |buf|
    ensures (buf + more)[..i] == buf[..i] && (buf + more)[i..] == buf[i..] + more
  {
  }

  lemma IndexExtends(d: seq<Byte>, buf: seq<Byte>, more: seq<Byte>)
    requires Index(buf, d) >= 0
    ensures Index(buf + more, d) == Index(buf, d)
  {
    OccursInPrefix(buf, buf + more, d, Index(buf, d));
    OccursInPrefix(buf, buf + more, d, Index(buf + more, d));
  }

  lemma DelimitedExtends(d: seq<Byte>, buf: seq<Byte>, more: seq<Byte>)
    requires ExtractDelimited(d, buf).Frame?
    ensures var x := ExtractDelimited(d, buf);
            ExtractDelimited(d, buf + more) == Frame(x.frame, x.rest + more)
  {
    IndexExtends(d, buf, more);
    CutExtends(buf, more, Index(buf, d));
    CutExtends(buf, more, Index(buf, d) + |d|);
  }

  lemma FixedExtends(n: nat, buf: seq<Byte>, more: seq<Byte>)
    requires ExtractFixed(n, buf).Frame?
    ensures var x := ExtractFixed(n, buf); ExtractFixed(n, buf + more) == Frame(x.frame, x.rest + more)
  {
    assert (buf + more)[..n] == buf[..n];
  }

  lemma PrefixedExtends(n: nat, little: bool, buf: seq<Byte>, more: seq<Byte>)
    requires ExtractPrefixed(n, little, buf).Frame?
    ensures var x := ExtractPrefixed(n, little, buf);
            ExtractPrefixed(n, little, buf + more) == Frame(x.frame, x.rest + more)
  {
    assert (buf + more)[..n] == buf[..n];
  }

  /** A complete frame is not affected by bytes that arrive after it. */
  lemma ExtractExtends(m: Mode, buf: seq<Byte>, more: seq<Byte>)
    requires Valid(m) && Extract(m, buf).Frame?
    ensures Extract(m, buf + more) == Frame(Extract(m, buf).frame, Extract(m, buf).rest + more)
  {
    match m
    case Delimiter(raw) => DelimitedExtends(Unescape(raw), buf, more);
    case FixedLength(n) => FixedExtends(n, buf, more);
    case LengthPrefix(n, little) => PrefixedExtends(n, little, buf, more);
  }

  lemma DelimitedSound(d: seq<Byte>, buf: seq<Byte>)
    requires ExtractDelimited(d, buf).Frame?
    ensures var Frame(f, rest) := ExtractDelimited(d, buf); NoEarlier(d, f) && f + d + rest == buf
  {
    var Frame(f, rest) := ExtractDelimited(d, buf);
    assert f + d == buf[..|f| + |d|];
    forall i | 0 <= i < |f| ensures !OccursAt(f + d, d, i) {
      OccursInPrefix(f + d, buf, d, i);
    }
  }

  lemma PrefixInverse(little: bool, b: seq<Byte>)
    ensures PrefixValue(little, b) < Pow256(|b|) && PrefixBytes(|b|, little, PrefixValue(little, b)) == b
  {
    if little { LittleEndianInverse(b); } else { BigEndianInverse(b); }
  }

  lemma PrefixRoundTrip(n: nat, little: bool, length: nat)
    requires length < Pow256(n)
    ensures PrefixValue(little, PrefixBytes(n, little, length)) == length
  {
    if little { LittleEndianRoundTrip(n, length); } else { BigEndianRoundTrip(n, length); }
  }

  lemma PrefixedSound(n: nat, little: bool, buf: seq<Byte>)
    requires ExtractPrefixed(n, little, buf).Frame?
    ensures var Frame(f, rest) := ExtractPrefixed(n, little, buf);
            |f| < Pow256(n) && PrefixBytes(n, little, |f|) + f + rest == buf
  {
    hide PrefixValue, PrefixBytes, Pow256;
    PrefixInverse(little, buf[..n]);
    var end := n + PrefixValue(little, buf[..n]);
    assert |buf[..n]| == n && |buf[n..end]| == end - n;
    CutTwice(buf, n, end);
  }

  lemma CutTwice(buf: seq<Byte>, i: nat, j: nat)
    requires i <= j <= |buf|
    ensures buf[..i] + buf[i..j] + buf[j..] == buf
  {
  }

  /** What is extracted is the wire form of a frame the framing can carry, followed by the rest. */
  lemma ExtractSound(m: Mode, buf: seq<Byte>)
    requires Valid(m) && Extract(m, buf).Frame?
    ensures var Frame(f, rest) := Extract(m, buf); Carries(m, f) && WireForm(m, f) + rest == buf
  {
    match m
    case Delimiter(raw) => DelimitedSound(Unescape(raw), buf);
    case FixedLength(n) =>
    case LengthPrefix(n, little) => PrefixedSound(n, little, buf);
  }

  lemma DelimitedComplete(d: seq<Byte>, f: seq<Byte>, rest: seq<Byte>)
    requires NoEarlier(d, f)
    ensures ExtractDelimited(d, f + d + rest) == Frame(f, rest)
  {
    var buf := f + d + rest;
    var i := Index(buf, d);
    assert buf[|f|..|f| + |d|] == d && OccursAt(buf, d, |f|);
    OccursInPrefix(f + d, buf, d, i);
  }

  lemma PrefixedComplete(n: nat, little: bool, f: seq<Byte>, rest: seq<Byte>)
    requires |f| < Pow256(n)
    ensures ExtractPrefixed(n, little, PrefixBytes(n, little, |f|) + f + rest) == Frame(f, rest)
  {
    PrefixRoundTrip(n, little, |f|);
    var buf := PrefixBytes(n, little, |f|) + f + rest;
    assert buf[..n] == PrefixBytes(n, little, |f|);
  }

  lemma ExtractComplete(m: Mode, f: seq<Byte>, rest: seq<Byte>)
    requires Valid(m) && Carries(m, f)
    ensures Extract(m, WireForm(m, f) + rest) == Frame(f, rest)
  {
    match m
    case Delimiter(raw) => DelimitedComplete(Unescape(raw), f, rest);
    case FixedLength(n) =>
    case LengthPrefix(n, little) => PrefixedComplete(n, little, f, rest);
  }

  // ----- All extractions -----

  lemma Assoc<T>(a: seq<T>, b: seq<T>, c: seq<T>)
    ensures a + (b + c) == (a + b) + c
  {
  }

  lemma {:induction false} ExtractAllSplits(m: Mode, buf: seq<Byte>, more: seq<Byte>)
    requires Valid(m)
    ensures var p := ExtractAll(m, buf); var q := ExtractAll(m, p.rest + more);
            ExtractAll(m, buf + more) == Parsed(p.frames + q.frames, q.rest)
    decreases |buf|
  {
    if Extract(m, buf).None? {
      assert [] + ExtractAll(m, buf + more).frames == ExtractAll(m, buf + more).frames;
    } else {
      var Frame(f, rest) := Extract(m, buf);
      ExtractExtends(m, buf, more);
      ExtractAllSplits(m, rest, more);
      var p := ExtractAll(m, rest);
      Assoc([f], p.frames, ExtractAll(m, p.rest + more).frames);
    }
  }

  lemma {:induction false} ExtractAllRebuilds(m: Mode, buf: seq<Byte>)
    requires Valid(m)
    ensures var p := ExtractAll(m, buf);
            Reframe(m, p.frames) + p.rest == buf && Extract(m, p.rest) == None &&
            forall i :: 0 <= i < |p.frames| ==> Carries(m, p.frames[i])
    decreases |buf|
  {
    hide Extract, WireForm, Carries;
    if Extract(m, buf).None? {
    } else {
      var Frame(f, rest) := Extract(m, buf);
      ExtractSound(m, buf);
      ExtractAllRebuilds(m, rest);
      var p := ExtractAll(m, rest);
      assert ([f] + p.frames)[1..] == p.frames;
      Assoc(WireForm(m, f), Reframe(m, p.frames), p.rest);
    }
  }

  lemma {:induction false} ExtractAllRecovers(m: Mode, frames: seq<seq<Byte>>, tail: seq<Byte>)
    requires Valid(m) && Extract(m, tail) == None
    requires forall i :: 0 <= i < |frames| ==> Carries(m, frames[i])
    ensures ExtractAll(m, Reframe(m, frames) + tail) == Parsed(frames, tail)
  {
    if frames == [] {
      assert Reframe(m, frames) + tail == tail;
    } else {
      var rest := Reframe(m, frames[1..]) + tail;
      Assoc(WireForm(m, frames[0]), Reframe(m, frames[1..]), tail);
      ExtractComplete(m, frames[0], rest);
      ExtractAllRecovers(m, frames[1..], tail);
      assert [frames[0]] + frames[1..] == frames;
    }
  }

  /** A sent frame sequence comes back unchanged iff the framing can carry every frame and the tail is incomplete. */
  lemma FramesRoundTrip(m: Mode, frames: seq<seq<Byte>>, tail: seq<Byte>)
    requires Valid(m)
    ensures ExtractAll(m, Reframe(m, frames) + tail) == Parsed(frames, tail) <==>
            Extract(m, tail) == None && forall i :: 0 <= i < |frames| ==> Carries(m, frames[i])
  {
    if Extract(m, tail) == None && forall i :: 0 <= i < |frames| ==> Carries(m, frames[i]) {
      ExtractAllRecovers(m, frames, tail);
    }
    ExtractAllRebuilds(m, Reframe(m, frames) + tail);
  }

  // ----- In plain numbers -----

  /** The length a prefix of one, two or four bytes gives, in either byte order. */
  function Length(n: int, little: bool, b: seq<Byte>): nat
    requires n in {1, 2, 4} && |b| >= n
  {
    if n == 1 then Digit(b, 0)
    else if n == 2 then
      if little then Digit(b, 0) + Digit(b, 1) * 0x100 else Digit(b, 0) * 0x100 + Digit(b, 1)
    else if little then
      Digit(b, 0) + Digit(b, 1) * 0x100 + Digit(b, 2) * 0x1_0000 + Digit(b, 3) * 0x100_0000
    else
      Digit(b, 0) * 0x100_0000 + Digit(b, 1) * 0x1_0000 + Digit(b, 2) * 0x100 + Digit(b, 3)
  }

  lemma PrefixIsLength(n: int, little: bool, b: seq<Byte>)
    requires n in {1, 2, 4} && |b| >= n
    ensures PrefixValue(little, b[..n]) == Length(n, little, b)
  {
    ShortWords(b);
    LittleWords(b[..n]);
    hide FromBigEndian, FromLittleEndian;
  }

  /** The next frame of a buffer, read off its bytes. */
  lemma ExtractExact(m: Mode, buf: seq<Byte>)
    requires Valid(m)
    ensures match m
            case Delimiter(raw) =>
              var d := UnescapeOnce(raw);
              (match Extract(m, buf)
               case None => forall i :: !OccursAt(buf, d, i)
               case Frame(f, rest) =>
                 buf == f + d + rest && forall i :: 0 <= i < |f| ==> !OccursAt(buf, d, i))
            case FixedLength(n) => Extract(m, buf) == if |buf| < n then None else Frame(buf[..n], buf[n..])
            case LengthPrefix(n, little) =>
              if |buf| < n || |buf| < n + Length(n, little, buf) then Extract(m, buf) == None
              else Extract(m, buf) == Frame(buf[n..n + Length(n, little, buf)], buf[n + Length(n, little, buf)..])
            case _ => Extract(m, buf) == None
  {
    hide PrefixValue, Length, Unescape, UnescapeOnce, ExtractDelimited, OccursAt;
    match m
    case Delimiter(raw) =>
      UnescapeExact(raw);
      DelimitedExact(Unescape(raw), buf);
    case LengthPrefix(n, little) => if |buf| >= n { PrefixIsLength(n, little, buf); }
    case _ =>
  }

  lemma DelimitedExact(d: seq<Byte>, buf: seq<Byte>)
    ensures match ExtractDelimited(d, buf)
            case None => forall i :: !OccursAt(buf, d, i)
            case Frame(f, rest) => buf == f + d + rest && forall i :: 0 <= i < |f| ==> !OccursAt(buf, d, i)
  {
    var i := Index(buf, d);
    hide Index;
    if i >= 0 { assert buf == buf[..i] + buf[i..i + |d|] + buf[i + |d|..]; }
  }

  /** A first read hits the limit exactly when it brings more than the configured size, by default a mebibyte. */
  lemma FirstReadLimit(cfg: Config, start: int, p: Poll)
    requires Valid(cfg.mode) && p.data != []
    ensures Run(cfg, start, [p]).failed <==>
            |p.data| > if cfg.maxFrameBytes <= 0 then 1048576 else cfg.maxFrameBytes
  {
    assert [p][..0] == [] && [] + p.data == p.data;
    hide ExtractAll;
  }

  // ----- Whole runs -----

  /** Frames and leftover are a function of the concatenated bytes alone. */
  lemma {:induction false} ChunkingInvariance(cfg: Config, start: int, polls: seq<Poll>)
    requires Valid(cfg.mode) && !cfg.mode.Timeout? && !Run(cfg, start, polls).failed
    ensures var s := Run(cfg, start, polls);
            Parsed(s.frames, s.buf) == ExtractAll(cfg.mode, Received(polls))
  {
    if polls == [] {
    } else {
      var init := polls[..|polls| - 1];
      ChunkingInvariance(cfg, start, init);
      ExtractAllSplits(cfg.mode, Received(init), polls[|polls| - 1].data);
    }
  }

  lemma SameBytesSameFrames(cfg: Config, start: int, a: seq<Poll>, b: seq<Poll>)
    requires Valid(cfg.mode) && !cfg.mode.Timeout? && Received(a) == Received(b)
    requires !Run(cfg, start, a).failed && !Run(cfg, start, b).failed
    ensures Run(cfg, start, a).frames == Run(cfg, start, b).frames
    ensures Run(cfg, start, a).buf == Run(cfg, start, b).buf
  {
    ChunkingInvariance(cfg, start, a);
    ChunkingInvariance(cfg, start, b);
  }

  /** When data last came. */
  function LastData(start: int, polls: seq<Poll>): int {
    if polls == [] then start
    else
      var n := |polls| - 1;
      if polls[n].data != [] then polls[n].at else LastData(start, polls[..n])
  }

  /** Timeout mode without a limit: what has come since the last pause of at least ms is the rest, and each
      such pause ends a frame. */
  function Paused(ms: int, start: int, polls: seq<Poll>): Parsed {
    if polls == [] then Parsed([], [])
    else
      var n := |polls| - 1;
      var p := Paused(ms, start, polls[..n]);
      var rest := p.rest + polls[n].data;
      if rest != [] && polls[n].checkedAt - LastData(start, polls) >= ms then Parsed(p.frames + [rest], [])
      else Parsed(p.frames, rest)
  }

  /** What the polls give if there were no limit. */
  function Ideal(m: Mode, start: int, polls: seq<Poll>): Parsed
    requires Valid(m)
  {
    if m.Timeout? then Paused(m.ms, start, polls) else ExtractAll(m, Received(polls))
  }

  lemma {:induction false} PausedRun(cfg: Config, start: int, polls: seq<Poll>)
    requires Valid(cfg.mode) && cfg.mode.Timeout? && !Run(cfg, start, polls).failed
    ensures var s := Run(cfg, start, polls);
            Parsed(s.frames, s.buf) == Paused(cfg.mode.ms, start, polls) && s.lastData == LastData(start, polls)
  {
    if polls == [] {
    } else {
      var n := |polls| - 1;
      PausedRun(cfg, start, polls[..n]);
      var s := Run(cfg, start, polls[..n]);
      assert s.frames + [] == s.frames;
      assert ExtractAll(cfg.mode, s.buf + polls[n].data) == Parsed([], s.buf + polls[n].data);
    }
  }

  /** Until the limit ends it a run gives exactly that, in every mode. */
  lemma IdealRun(cfg: Config, start: int, polls: seq<Poll>)
    requires Valid(cfg.mode) && !Run(cfg, start, polls).failed
    ensures var s := Run(cfg, start, polls); Parsed(s.frames, s.buf) == Ideal(cfg.mode, start, polls)
  {
    if cfg.mode.Timeout? { PausedRun(cfg, start, polls); } else { ChunkingInvariance(cfg, start, polls); }
  }

  /** Poll i finds more unframed bytes than the limit. */
  ghost predicate OverLimit(cfg: Config, start: int, polls: seq<Poll>, i: nat)
    requires Valid(cfg.mode) && i < |polls|
  {
    polls[i].data != [] && |Ideal(cfg.mode, start, polls[..i]).rest| + |polls[i].data| > MaxFrame(cfg)
  }

  /** Poll i is the first one over the limit. */
  ghost predicate FirstOverLimit(cfg: Config, start: int, polls: seq<Poll>, i: nat)
    requires Valid(cfg.mode) && i < |polls|
  {
    OverLimit(cfg, start, polls, i) && forall j :: 0 <= j < i ==> !OverLimit(cfg, start, polls, j)
  }

  lemma OverLimitPrefix(cfg: Config, start: int, polls: seq<Poll>, n: nat, i: nat)
    requires Valid(cfg.mode) && i < n <= |polls|
    ensures OverLimit(cfg, start, polls[..n], i) <==> OverLimit(cfg, start, polls, i)
  {
    assert polls[..n][..i] == polls[..i];
  }

  lemma LastPoll(cfg: Config, start: int, polls: seq<Poll>)
    requires Valid(cfg.mode) && polls != [] && !Run(cfg, start, polls[..|polls| - 1]).failed
    ensures Run(cfg, start, polls).failed <==> OverLimit(cfg, start, polls, |polls| - 1)
  {
    IdealRun(cfg, start, polls[..|polls| - 1]);
    hide Ideal, ExtractAll;
  }

  lemma FailedStays(cfg: Config, start: int, polls: seq<Poll>)
    requires Valid(cfg.mode) && polls != [] && Run(cfg, start, polls[..|polls| - 1]).failed
    ensures Run(cfg, start, polls).failed
  {
  }

  /** In every mode a run is ended by the limit exactly when some poll brings more than the limit together with
      what was unframed before it. */
  lemma {:induction false} LimitErrorExact(cfg: Config, start: int, polls: seq<Poll>)
    requires Valid(cfg.mode)
    ensures Run(cfg, start, polls).failed <==> exists i :: 0 <= i < |polls| && OverLimit(cfg, start, polls, i)
  {
    if polls == [] {
    } else {
      var n := |polls| - 1;
      LimitErrorExact(cfg, start, polls[..n]);
      if Run(cfg, start, polls[..n]).failed { FailedStays(cfg, start, polls); }
      hide Run, OverLimit;
      if !Run(cfg, start, polls[..n]).failed { LastPoll(cfg, start, polls); }
      forall i | 0 <= i < n ensures OverLimit(cfg, start, polls[..n], i) <==> OverLimit(cfg, start, polls, i) {
        OverLimitPrefix(cfg, start, polls, n, i);
      }
      if Run(cfg, start, polls[..n]).failed {
        var i :| 0 <= i < n && OverLimit(cfg, start, polls[..n], i);
        assert OverLimit(cfg, start, polls, i);
      }
    }
  }

  /** When the limit is hit, every frame completed by the polls before it has been emitted, and no other. */
  lemma FramesBeforeLimit(cfg: Config, start: int, polls: seq<Poll>, i: nat)
    requires Valid(cfg.mode) && i < |polls| && FirstOverLimit(cfg, start, polls, i)
    ensures Run(cfg, start, polls).failed
    ensures Run(cfg, start, polls).frames == Ideal(cfg.mode, start, polls[..i]).frames
  {
    var now := polls[..i + 1];
    assert now[..i] == polls[..i];
    hide OverLimit, Ideal;
    forall j | 0 <= j < i ensures !OverLimit(cfg, start, polls[..i], j) { OverLimitPrefix(cfg, start, polls, i, j); }
    LimitErrorExact(cfg, start, polls[..i]);
    IdealRun(cfg, start, polls[..i]);
    OverLimitPrefix(cfg, start, polls, i + 1, i);
    LastPoll(cfg, start, now);
    FailureSticks(cfg, start, polls, i + 1);
  }

  // ----- When no way of reading the bytes hits the limit -----

  /** A read returns at most this many bytes. */
  const CHUNK := 4096

  predicate Chunked(polls: seq<Poll>) { forall i :: 0 <= i < |polls| ==> |polls[i].data| <= CHUNK }

  /** A read of the bytes from k to j brings more than the limit. */
  predicate TooMuch(cfg: Config, b: seq<Byte>, k: nat, j: nat)
    requires Valid(cfg.mode)
  {
    k < j <= |b| && j - k <= CHUNK && |ExtractAll(cfg.mode, b[..k]).rest| + j - k > MaxFrame(cfg)
  }

  lemma {:induction false} TimeoutRest(m: Mode, start: int, polls: seq<Poll>)
    requires Valid(m) && m.Timeout?
    ensures |Ideal(m, start, polls).rest| <= |Received(polls)| == |ExtractAll(m, Received(polls)).rest|
  {
    if polls == [] {
    } else {
      TimeoutRest(m, start, polls[..|polls| - 1]);
    }
  }

  lemma {:induction false} ReceivedPrefix(polls: seq<Poll>, i: nat)
    requires i <= |polls|
    ensures Received(polls[..i]) <= Received(polls)
    decreases |polls|
  {
    if i == |polls| {
      assert polls[..i] == polls;
    } else {
      ReceivedPrefix(polls[..|polls| - 1], i);
      assert polls[..|polls| - 1][..i] == polls[..i];
    }
  }

  lemma RestAt(cfg: Config, start: int, polls: seq<Poll>, i: nat)
    requires Valid(cfg.mode) && i < |polls|
    ensures var k, j := |Received(polls[..i])|, |Received(polls[..i])| + |polls[i].data|;
            j <= |Received(polls)| && Received(polls)[..k] == Received(polls[..i])
            && |Ideal(cfg.mode, start, polls[..i]).rest| <= |ExtractAll(cfg.mode, Received(polls[..i])).rest|
  {
    ReceivedPrefix(polls, i);
    ReceivedPrefix(polls, i + 1);
    assert polls[..i + 1][..i] == polls[..i];
    if cfg.mode.Timeout? { TimeoutRest(cfg.mode, start, polls[..i]); }
    hide ExtractAll, Paused;
  }

  /** A run that hits the limit has read somewhere too much. */
  lemma LimitMeansTooMuch(cfg: Config, start: int, polls: seq<Poll>)
    requires Valid(cfg.mode) && Chunked(polls) && Run(cfg, start, polls).failed
    ensures exists k: nat, j: nat :: TooMuch(cfg, Received(polls), k, j)
  {
    hide Run, ExtractAll, Received, Ideal;
    LimitErrorExact(cfg, start, polls);
    var i: nat :| i < |polls| && OverLimit(cfg, start, polls, i);
    RestAt(cfg, start, polls, i);
    assert TooMuch(cfg, Received(polls), |Received(polls[..i])|, |Received(polls[..i])| + |polls[i].data|);
  }

  /** The bytes one at a time, without pauses. */
  function Bytewise(start: int, b: seq<Byte>): seq<Poll> {
    seq(|b|, i requires 0 <= i < |b| => Poll([b[i]], start, start))
  }

  /** Reads that bring these bytes at this very moment pause nowhere. */
  ghost predicate AtOnce(start: int, polls: seq<Poll>) {
    forall i :: 0 <= i < |polls| ==> polls[i].at == start && polls[i].checkedAt == start
  }

  lemma {:induction false} BytewiseReceived(start: int, b: seq<Byte>)
    ensures Received(Bytewise(start, b)) == b
  {
    if b == [] {
    } else {
      var n := |b| - 1;
      BytewiseReceived(start, b[..n]);
      assert Bytewise(start, b)[..n] == Bytewise(start, b[..n]);
      assert b == b[..n] + [b[n]];
      hide Bytewise;
    }
  }

  lemma {:induction false} NoPause(ms: int, start: int, polls: seq<Poll>)
    requires ms > 0 && AtOnce(start, polls)
    ensures Paused(ms, start, polls) == Parsed([], Received(polls)) && LastData(start, polls) == start
  {
    if polls == [] {
    } else {
      NoPause(ms, start, polls[..|polls| - 1]);
    }
  }

  /** The bytes up to k one at a time, those up to j in one read, and the rest one at a time. */
  function Burst(start: int, b: seq<Byte>, k: nat, j: nat): seq<Poll>
    requires k <= j <= |b|
  {
    Bytewise(start, b[..k]) + [Poll(b[k..j], start, start)] + Bytewise(start, b[j..])
  }

  lemma BurstReceived(start: int, b: seq<Byte>, k: nat, j: nat)
    requires k <= j <= |b|
    ensures Received(Burst(start, b, k, j)) == b
  {
    var before, after := Bytewise(start, b[..k]), Bytewise(start, b[j..]);
    var read := before + [Poll(b[k..j], start, start)];
    BytewiseReceived(start, b[..k]);
    BytewiseReceived(start, b[j..]);
    assert read[..|read| - 1] == before;
    assert Received(read) == b[..k] + b[k..j];
    hide Received, Bytewise;
    ReceivedConcat(read, after);
    assert b == b[..k] + b[k..j] + b[j..];
  }

  /** Wherever a read could bring too much, there is a way of reading the bytes that hits the limit. */
  lemma TooMuchMeansLimit(cfg: Config, start: int, b: seq<Byte>, k: nat, j: nat)
    requires Valid(cfg.mode) && TooMuch(cfg, b, k, j)
    ensures exists polls :: Chunked(polls) && Received(polls) == b && Run(cfg, start, polls).failed
  {
    var polls := Burst(start, b, k, j);
    BurstReceived(start, b, k, j);
    assert Chunked(polls);
    assert polls[..k] == Bytewise(start, b[..k]) && polls[k].data == b[k..j];
    BytewiseReceived(start, b[..k]);
    if cfg.mode.Timeout? { NoPause(cfg.mode.ms, start, polls[..k]); }
    hide Received, Bytewise, Run, Paused, Burst, ExtractAll;
    assert OverLimit(cfg, start, polls, k);
    LimitErrorExact(cfg, start, polls);
  }

  lemma {:induction false} ReceivedConcat(a: seq<Poll>, b: seq<Poll>)
    ensures Received(a + b) == Received(a) + Received(b)
  {
    if b == [] {
      assert a + b == a;
    } else {
      var n := |b| - 1;
      ReceivedConcat(a, b[..n]);
      assert (a + b)[..|a| + n] == a + b[..n];
      Assoc(Received(a), Received(b[..n]), b[n].data);
    }
  }

  /** Whether the limit can be hit at all is a matter of the bytes: no way of reading them hits it if and only if
      no read of them can bring too much. Bytes within the limit never hit it, and bytes that one read can bring
      are safe exactly when they are. */
  lemma LimitFreeExact(cfg: Config, start: int, b: seq<Byte>)
    requires Valid(cfg.mode)
    ensures (exists polls :: Chunked(polls) && Received(polls) == b && Run(cfg, start, polls).failed) <==>
            exists k: nat, j: nat :: TooMuch(cfg, b, k, j)
    ensures |b| <= MaxFrame(cfg) ==> forall k: nat, j: nat :: !TooMuch(cfg, b, k, j)
    ensures MaxFrame(cfg) < |b| <= CHUNK ==> TooMuch(cfg, b, 0, |b|)
  {
    if k: nat, j: nat :| TooMuch(cfg, b, k, j) { TooMuchMeansLimit(cfg, start, b, k, j); }
    if polls :| Chunked(polls) && Received(polls) == b && Run(cfg, start, polls).failed {
      LimitMeansTooMuch(cfg, start, polls);
    }
    assert b[..0] == [];
  }

  /** The size limit does depend on poll boundaries: the same two bytes fail in one read and pass in two. */
  lemma LimitDependsOnChunking()
    ensures var cfg := Config(FixedLength(1), 1);
            var once, twice := [Poll([7, 8], 0, 0)], [Poll([7], 0, 0), Poll([8], 0, 0)];
            Received(once) == Received(twice) && Run(cfg, 0, once).failed && !Run(cfg, 0, twice).failed
  {
    var cfg := Config(FixedLength(1), 1);
    var once, twice := [Poll([7, 8], 0, 0)], [Poll([7], 0, 0), Poll([8], 0, 0)];
    assert once[..0] == [] && twice[..1] == [Poll([7], 0, 0)] && twice[..1][..0] == [];
    assert Received(once) == [7, 8] == Received(twice);
    OneByte(7, 0, []);
    OneByte(8, 0, [[7]]);
    assert Run(cfg, 0, []) == State([], 0, [], false);
    hide ExtractAll, Step;
    assert Run(cfg, 0, twice[..1]) == State([], 0, [[7]], false);
    assert !Run(cfg, 0, twice).failed;
    TwoBytes();
    assert Run(cfg, 0, once).failed;
  }

  lemma OneByte(x: Byte, last: int, frames: seq<seq<Byte>>)
    ensures Step(Config(FixedLength(1), 1), State([], last, frames, false), Poll([x], 0, 0)) ==
            State([], 0, frames + [[x]], false)
  {
    assert [] + [x] == [x] && Extract(FixedLength(1), [x]) == Frame([x], []) && Extract(FixedLength(1), []) == None;
    assert ExtractAll(FixedLength(1), [x]) == Parsed([[x]], []);
  }

  lemma TwoBytes()
    ensures Step(Config(FixedLength(1), 1), State([], 0, [], false), Poll([7, 8], 0, 0)).failed
  {
    assert |[] + [7, 8]| == 2;
  }

  lemma {:induction false} ConcatAppends(a: seq<seq<Byte>>, b: seq<seq<Byte>>)
    ensures Concat(a + b) == Concat(a) + Concat(b)
  {
    if a == [] {
      assert a + b == b;
    } else {
      ConcatAppends(a[1..], b);
      assert (a + b)[1..] == a[1..] + b;
      Assoc(a[0], Concat(a[1..]), Concat(b));
    }
  }

  lemma {:induction false} PausedKeepsBytes(ms: int, start: int, polls: seq<Poll>)
    ensures Concat(Paused(ms, start, polls).frames) + Paused(ms, start, polls).rest == Received(polls)
  {
    if polls == [] {
    } else {
      var n := |polls| - 1;
      PausedKeepsBytes(ms, start, polls[..n]);
      var p := Paused(ms, start, polls[..n]);
      var rest := p.rest + polls[n].data;
      Assoc(Concat(p.frames), p.rest, polls[n].data);
      ConcatAppends(p.frames, [rest]);
      assert Concat([rest]) == rest + Concat([]) == rest;
    }
  }

  /** Timeout mode adds and loses no byte, whenever the idle check fires. */
  lemma TimeoutKeepsBytes(cfg: Config, start: int, polls: seq<Poll>)
    requires Valid(cfg.mode) && cfg.mode.Timeout? && !Run(cfg, start, polls).failed
    ensures var s := Run(cfg, start, polls); Concat(s.frames) + s.buf == Received(polls)
  {
    PausedRun(cfg, start, polls);
    PausedKeepsBytes(cfg.mode.ms, start, polls);
  }

  // ----- The loops -----

  method ExtractLoop(m: Mode, start: seq<Byte>, emitted: seq<seq<Byte>>)
      returns (frames: seq<seq<Byte>>, buf: seq<Byte>)
    requires Valid(m)
    ensures Parsed(frames, buf) == Parsed(emitted + ExtractAll(m, start).frames, ExtractAll(m, start).rest)
  {
    frames, buf := emitted, start;
    var x := Extract(m, buf);
    while x.Frame?
      invariant x == Extract(m, buf)
      invariant frames + ExtractAll(m, buf).frames == emitted + ExtractAll(m, start).frames
      invariant ExtractAll(m, buf).rest == ExtractAll(m, start).rest
      decreases |buf|
    {
      Assoc(frames, [x.frame], ExtractAll(m, x.rest).frames);
      frames, buf := frames + [x.frame], x.rest;
      x := Extract(m, buf);
    }
  }

  /** Run over the polls of one connection: the frames handed on, the bytes left, and whether the limit was hit. */
  method RunLoop(cfg: Config, start: int, polls: seq<Poll>)
      returns (ok: bool, frames: seq<seq<Byte>>, buf: seq<Byte>, failed: bool)
    ensures ok <==> match cfg.mode
                    case Delimiter(raw) => raw != []
                    case FixedLength(n) => n > 0
                    case LengthPrefix(n, _) => n in {1, 2, 4}
                    case Timeout(ms) => ms > 0
                    case UnknownMode => false
    ensures ok ==> Valid(cfg.mode)
    ensures ok ==> var s := Run(cfg, start, polls); (frames, buf, failed) == (s.frames, s.buf, s.failed)
  {
    ok, frames, buf, failed := Valid(cfg.mode), [], [], false;
    if !ok { return; }
    var lastData := start;
    for i := 0 to |polls|
      invariant !failed && Run(cfg, start, polls[..i]) == State(buf, lastData, frames, false)
    {
      assert polls[..i + 1][..i] == polls[..i];
      if polls[i].data != [] {
        buf := buf + polls[i].data;
        lastData := polls[i].at;
        if |buf| > MaxFrame(cfg) {
          failed := true;
          FailureSticks(cfg, start, polls, i + 1);
          return;
        }
      } else {
        assert buf + polls[i].data == buf;
      }
      frames, buf := ExtractLoop(cfg.mode, buf, frames);
      if cfg.mode.Timeout? && buf != [] && polls[i].checkedAt - lastData >= cfg.mode.ms {
        frames, buf := frames + [buf], [];
      }
    }
    assert polls[..|polls|] == polls;
  }

  lemma {:induction false} FailureSticks(cfg: Config, start: int, polls: seq<Poll>, i: nat)
    requires Valid(cfg.mode) && i <= |polls| && Run(cfg, start, polls[..i]).failed
    ensures Run(cfg, start, polls) == Run(cfg, start, polls[..i])
    decreases |polls|
  {
    if i == |polls| {
      assert polls[..i] == polls;
    } else {
      assert polls[..|polls| - 1][..i] == polls[..i];
      FailureSticks(cfg, start, polls[..|polls| - 1], i);
    }
  }
}
