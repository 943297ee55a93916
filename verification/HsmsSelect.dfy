/**
 The HSMS Select procedure (SEMI E37, sections 5.2 to 5.4): a dialling and a listening side joined by
 two byte streams, each with its reader, its select handshake and its callers, all interleaved.
 */
module HsmsSelect {
  import opened Bytes
  import opened HsmsMessage
  import opened Options

  datatype Who = Active | Passive

  /** How far the handshake of a side has come; Over once Dial or Listen has returned. */
  datatype Phase = Fresh | Asked | Adopted(req: Message) | Answered | Over

  /** One connection object. `up`: its socket is open; `ready`: callers that have seen it selected and are
      about to write; `got`: data messages its reader has passed on; `waiting` and `box`: the pending
      Select.req and its reply channel; `queue`: the channel a listener takes Select.req from. */
  datatype Side = Side(session: Word16, phase: Phase, up: bool, selected: bool, ready: nat, got: seq<Message>,
                       counter: Word32, waiting: Option<Word32>, box: Option<Message>, queue: Option<Message>)

  /** Both sides, the bytes in flight to each, everything each has sent, and how much of it the other has read. */
  datatype State = State(a: Side, p: Side, toP: seq<Byte>, toA: seq<Byte>,
                         sentA: seq<Message>, sentP: seq<Message>, readA: nat, readP: nat)

  datatype Step =
    | Ask                     // the dialler sends Select.req
    | Decide                  // and looks at the reply
    | Adopt                   // the listener takes a Select.req and its session id
    | Answer                  // answers it
    | Settle                  // and only then becomes selected
    | Quit(who: Who)          // handshake timeout, cancellation or failed write
    | Pull(who: Who)          // the reader reads a message and deals with it
    | Check(who: Who)         // a caller sees the session selected
    | Data(who: Who, stream: Byte, fn: Byte, wBit: bool, body: seq<Byte>)
    | Reply(who: Who, i: nat, fn: Byte, body: seq<Byte>)
    | Linktest(who: Who)
    | Separate(who: Who)
    | Close(who: Who)
    | Fail(who: Who)          // a read error

  function Control(session: Word16, byte3: Byte, stype: Byte, system: Word32): Message {
    Message(Header(session, 0, byte3, 0, stype, system), [])
  }

  function Bump(x: Word32): Word32 { (x + 1) % 0x1_0000_0000 }

  function Of(s: State, who: Who): Side { if who.Active? then s.a else s.p }

  function With(s: State, who: Who, x: Side): State { if who.Active? then s.(a := x) else s.(p := x) }

  function In(s: State, who: Who): seq<Byte> { if who.Active? then s.toA else s.toP }

  /** Writing to a closed socket fails and sends nothing. */
  function Write(s: State, who: Who, m: Message): State {
    if !Of(s, who).up then s
    else if who.Active? then s.(toP := s.toP + Encode(m), sentA := s.sentA + [m])
    else s.(toA := s.toA + Encode(m), sentP := s.sentP + [m])
  }

  function Consumed(s: State, who: Who, rest: seq<Byte>): State {
    if who.Active? then s.(toA := rest, readA := s.readA + 1) else s.(toP := rest, readP := s.readP + 1)
  }

  function Failed(x: Side): Side { x.(selected := false, up := false) }

  predicate IsOk(m: Message) { m.header.stype == SELECT_RSP && m.header.byte3 == SELECT_OK }

  /** What the reader does with an ordinary message: a pending Select.req gets it as its reply. */
  function Routed(x: Side, m: Message): Side {
    x.(got := if m.header.stype == DATA && x.waiting != Some(m.header.system) then x.got + [m] else x.got,
       box := if x.waiting == Some(m.header.system) then Some(m) else x.box,
       waiting := if x.waiting == Some(m.header.system) then None else x.waiting)
  }

  function Dispatch(s: State, who: Who, m: Message): State {
    var x := Of(s, who);
    if m.header.stype == SEPARATE_REQ then With(s, who, Failed(x))
    else if m.header.stype == LINKTEST_REQ then
      Write(s, who, Control(m.header.session, 0, LINKTEST_RSP, m.header.system))
    else if m.header.stype == SELECT_REQ then
      if x.selected then Write(s, who, Control(m.header.session, SELECT_ALREADY_ACTIVE, SELECT_RSP, m.header.system))
      else With(s, who, x.(queue := Some(m)))
    else With(s, who, Routed(x, m))
  }

  predicate Enabled(s: State, step: Step) {
    match step
    case Ask => s.a.phase == Fresh && s.a.up
    case Decide => s.a.phase == Asked && s.a.box.Some?
    case Adopt => s.p.phase == Fresh && s.p.queue.Some?
    case Answer => s.p.phase.Adopted? && s.p.up
    case Settle => s.p.phase == Answered
    case Quit(who) => Of(s, who).phase != Over
    case Pull(who) =>
      Of(s, who).up &&
      (match ReadBlock(In(s, who))
       case Short => false
       case Corrupt => true
       case Whole(m, _) =>
         m.header.stype == SELECT_REQ && !Of(s, who).selected ==> Of(s, who).queue.None?)
    case Data(who, _, _, _, body) => Of(s, who).ready > 0 && 10 + |body| < 0x1_0000_0000
    case Reply(who, i, _, body) => i < |Of(s, who).got| && 10 + |body| < 0x1_0000_0000
    case _ => true
  }

  function Next(s: State, step: Step): State
    requires Enabled(s, step)
  {
    match step
    case Ask =>
      var n := Bump(s.a.counter);
      Write(s.(a := s.a.(phase := Asked, counter := n, waiting := Some(n))), Active,
            Control(s.a.session, 0, SELECT_REQ, n))
    case Decide =>
      if IsOk(s.a.box.value) then s.(a := s.a.(phase := Over, selected := true, box := None))
      else s.(a := s.a.(phase := Over, up := false, box := None))
    case Adopt =>
      var m := s.p.queue.value;
      s.(p := s.p.(session := m.header.session, phase := Adopted(m), queue := None))
    case Answer =>
      var h := s.p.phase.req.header;
      Write(s.(p := s.p.(phase := Answered)), Passive, Control(h.session, SELECT_OK, SELECT_RSP, h.system))
    case Settle => s.(p := s.p.(phase := Over, selected := true))
    case Quit(who) => With(s, who, Of(s, who).(phase := Over, up := false, waiting := None))
    case Pull(who) =>
      (match ReadBlock(In(s, who))
       case Short => s
       case Corrupt => With(s, who, Failed(Of(s, who)))
       case Whole(m, rest) => Dispatch(Consumed(s, who, rest), who, m))
    case Check(who) => if Of(s, who).selected then With(s, who, Of(s, who).(ready := Of(s, who).ready + 1)) else s
    case Data(who, stream, fn, wBit, body) =>
      var x := Of(s, who);
      var n := Bump(x.counter);
      Write(With(s, who, x.(ready := x.ready - 1, counter := n)), who,
            Message(DataHeader(x.session, stream, fn, wBit, n), body))
    case Reply(who, i, fn, body) =>
      var h := Of(s, who).got[i].header;
      Write(s, who, Message(DataHeader(h.session, Stream(h), fn, false, h.system), body))
    case Linktest(who) =>
      var x := Of(s, who);
      var n := Bump(x.counter);
      if x.selected
      then Write(With(s, who, x.(counter := n)), who, Control(0xFFFF, 0, LINKTEST_REQ, n))
      else s
    case Separate(who) =>
      var x := Of(s, who);
      var n := Bump(x.counter);
      var t := if x.selected
               then Write(With(s, who, x.(counter := n)), who, Control(x.session, 0, SEPARATE_REQ, n))
               else s;
      With(t, who, Of(t, who).(up := false))
    case Close(who) => With(s, who, Of(s, who).(up := false))
    case Fail(who) => With(s, who, Failed(Of(s, who)))
  }

  ghost predicate Legal(s: State, steps: seq<Step>)
    decreases |steps|, 0
  {
    steps == [] ||
    (Legal(s, steps[..|steps| - 1]) && Enabled(Run(s, steps[..|steps| - 1]), steps[|steps| - 1]))
  }

  ghost function Run(s: State, steps: seq<Step>): State
    requires Legal(s, steps)
    decreases |steps|, 1
  {
    if steps == [] then s else Next(Run(s, steps[..|steps| - 1]), steps[|steps| - 1])
  }

  function NewSide(session: Word16): Side { Side(session, Fresh, true, false, 0, [], 0, None, None, None) }

  /** Just connected: each side with the session id it was configured with. */
  function Connected(active: Word16, passive: Word16): State {
    State(NewSide(active), NewSide(passive), [], [], [], [], 0, 0)
  }

  // ----- Invariant -----

  /** Each stream holds exactly the encoding of what was sent and not yet read. */
  ghost predicate Streams(s: State) {
    && s.readP <= |s.sentA| && s.toP == EncodeAll(s.sentA[s.readP..])
    && s.readA <= |s.sentP| && s.toA == EncodeAll(s.sentP[s.readA..])
    && (forall i :: 0 <= i < |s.sentA| ==> Sized(s.sentA[i])) && (forall i :: 0 <= i < |s.sentP| ==> Sized(s.sentP[i]))
  }

  /** The listener has answered OK. */
  ghost predicate AnsweredOk(s: State) { exists i :: 0 <= i < |s.sentP| && IsOk(s.sentP[i]) }

  /** Data bears the dialler's session id, and so do Select.req and Select.rsp(OK). */
  predicate Good(m: Message, session: Word16) {
    m.header.stype in {DATA, SELECT_REQ} || IsOk(m) ==> m.header.session == session
  }

  ghost predicate Traffic(s: State) {
    (forall i :: 0 <= i < |s.sentA| ==> Good(s.sentA[i], s.a.session))
    && forall i :: 0 <= i < |s.sentP| ==> Good(s.sentP[i], s.a.session)
  }

  ghost predicate Received(s: State) {
    && (forall i :: 0 <= i < |s.a.got| ==> s.a.got[i].header.session == s.a.session)
    && (forall i :: 0 <= i < |s.p.got| ==> s.p.got[i].header.session == s.a.session)
    && (s.p.queue.Some? ==> s.p.queue.value.header.session == s.a.session)
    && (s.p.phase.Adopted? ==> s.p.phase.req.header.session == s.a.session)
  }

  ghost predicate Handshake(s: State) {
    && (s.a.selected || s.a.ready > 0 || (s.a.box.Some? && IsOk(s.a.box.value)) ==> AnsweredOk(s))
    && (s.p.selected || s.p.ready > 0 || s.p.phase == Answered ==> AnsweredOk(s))
    && (AnsweredOk(s) ==> s.p.phase in {Answered, Over})
    && (AnsweredOk(s) || s.p.phase.Adopted? ==> s.p.session == s.a.session)
  }

  ghost predicate Inv(s: State) { Streams(s) && Traffic(s) && Received(s) && Handshake(s) }

  // ----- Writing -----

  lemma WriteStreams(s: State, who: Who, m: Message)
    requires Streams(s) && Sized(m)
    ensures Streams(Write(s, who, m))
  {
    hide Encode, EncodeAll;
    if who.Active? {
      EncodeAllSnoc(s.sentA[s.readP..], m);
      assert (s.sentA + [m])[s.readP..] == s.sentA[s.readP..] + [m];
    } else {
      EncodeAllSnoc(s.sentP[s.readA..], m);
      assert (s.sentP + [m])[s.readA..] == s.sentP[s.readA..] + [m];
    }
  }

  lemma AnsweredGrows(s: State, who: Who, m: Message)
    ensures AnsweredOk(s) ==> AnsweredOk(Write(s, who, m))
    ensures who.Active? || !IsOk(m) ==> (AnsweredOk(Write(s, who, m)) <==> AnsweredOk(s))
  {
    hide IsOk, Encode;
    var t := Write(s, who, m);
    if AnsweredOk(s) {
      var i :| 0 <= i < |s.sentP| && IsOk(s.sentP[i]);
      assert t.sentP[i] == s.sentP[i];
    }
  }

  lemma WriteKeeps(s: State, who: Who, m: Message)
    requires Inv(s) && Sized(m) && Good(m, s.a.session) && (who.Passive? ==> !IsOk(m))
    ensures Inv(Write(s, who, m))
  {
    WriteStreams(s, who, m);
    AnsweredGrows(s, who, m);
    hide Streams, AnsweredOk, Good, Encode, IsOk;
  }

  // ----- Reading -----

  lemma ReadNext(ms: seq<Message>)
    requires ms != [] && Sized(ms[0])
    ensures ReadBlock(EncodeAll(ms)) == if Sendable(ms[0]) then Whole(ms[0], EncodeAll(ms[1..])) else Corrupt
  {
    hide ReadBlock, Encode;
    if Sendable(ms[0]) { ReadSendable(ms[0], EncodeAll(ms[1..])); } else { TooLongRefused(ms[0], EncodeAll(ms[1..])); }
  }

  /** The messages under way to a side. */
  function UnderWay(s: State, who: Who): seq<Message>
    requires s.readA <= |s.sentP| && s.readP <= |s.sentA|
  {
    if who.Active? then s.sentP[s.readA..] else s.sentA[s.readP..]
  }

  /** A side reads what the other sent, in order. */
  lemma ReadsWhatWasSent(s: State, who: Who)
    requires Streams(s) && ReadBlock(In(s, who)).Whole?
    ensures UnderWay(s, who) != [] && ReadBlock(In(s, who)).m == UnderWay(s, who)[0]
    ensures Streams(Consumed(s, who, ReadBlock(In(s, who)).rest))
    ensures ReadBlock(In(s, who)).m in if who.Active? then s.sentP else s.sentA
  {
    hide Encode;
    var ms := UnderWay(s, who);
    assert ms != [];
    hide ReadBlock;
    ReadNext(ms);
    hide EncodeAll;
    assert ms[1..] == if who.Active? then s.sentP[s.readA + 1..] else s.sentA[s.readP + 1..];
  }

  lemma DispatchKeeps(s: State, who: Who, m: Message)
    requires Inv(s) && Good(m, s.a.session) && (who.Active? && IsOk(m) ==> AnsweredOk(s))
    ensures Inv(Dispatch(s, who, m))
  {
    hide Streams, AnsweredOk, Write, Encode;
    var h := m.header;
    if h.stype == LINKTEST_REQ {
      WriteKeeps(s, who, Control(h.session, 0, LINKTEST_RSP, h.system));
    } else if h.stype == SELECT_REQ && Of(s, who).selected {
      WriteKeeps(s, who, Control(h.session, SELECT_ALREADY_ACTIVE, SELECT_RSP, h.system));
    } else {
      LocalStreams(s, Dispatch(s, who, m));
    }
  }

  lemma LocalStreams(s: State, t: State)
    requires t == s.(a := t.a, p := t.p)
    ensures Streams(t) == Streams(s) && AnsweredOk(t) == AnsweredOk(s)
  {
  }

  lemma PullKeeps(s: State, who: Who)
    requires Inv(s) && Enabled(s, Pull(who))
    ensures Inv(Next(s, Pull(who)))
  {
    hide ReadBlock, Encode, EncodeAll, IsOk, Good;
    match ReadBlock(In(s, who))
    case Corrupt => LocalStreams(s, With(s, who, Failed(Of(s, who))));
    case Whole(m, rest) =>
      ReadsWhatWasSent(s, who);
      var c := Consumed(s, who, rest);
      hide Streams, Dispatch;
      assert Inv(c);
      DispatchKeeps(c, who, m);
    case Short =>
  }

  // ----- The other steps -----

  lemma AnswerKeeps(s: State)
    requires Inv(s) && Enabled(s, Answer)
    ensures Inv(Next(s, Answer))
  {
    hide Encode, EncodeAll;
    var h := s.p.phase.req.header;
    var m := Control(h.session, SELECT_OK, SELECT_RSP, h.system);
    var b := s.(p := s.p.(phase := Answered));
    LocalStreams(s, b);
    WriteStreams(b, Passive, m);
    hide Streams;
    var t := Write(b, Passive, m);
    assert IsOk(t.sentP[|s.sentP|]);
  }

  lemma QuitKeeps(s: State, who: Who)
    requires Inv(s)
    ensures Inv(With(s, who, Of(s, who).(phase := Over, up := false, waiting := None)))
  {
    LocalStreams(s, With(s, who, Of(s, who).(phase := Over, up := false, waiting := None)));
    hide Streams, AnsweredOk, Good;
  }

  lemma HandshakeKeeps(s: State, step: Step)
    requires Inv(s) && Enabled(s, step) && (step.Decide? || step.Adopt? || step.Settle? || step.Quit?)
    ensures Inv(Next(s, step))
  {
    if step.Quit? {
      QuitKeeps(s, step.who);
    } else {
      LocalStreams(s, Next(s, step));
      hide Streams, AnsweredOk, Good;
    }
  }

  lemma CheckKeeps(s: State, who: Who)
    requires Inv(s) && Of(s, who).selected
    ensures Inv(With(s, who, Of(s, who).(ready := Of(s, who).ready + 1)))
  {
    LocalStreams(s, With(s, who, Of(s, who).(ready := Of(s, who).ready + 1)));
    hide Streams, AnsweredOk, Good;
  }

  lemma FailKeeps(s: State, who: Who)
    requires Inv(s)
    ensures Inv(With(s, who, Failed(Of(s, who))))
  {
    LocalStreams(s, With(s, who, Failed(Of(s, who))));
    hide Streams, AnsweredOk, Good;
  }

  lemma EndKeeps(s: State, step: Step)
    requires Inv(s) && Enabled(s, step) && (step.Check? || step.Close? || step.Fail?)
    ensures Inv(Next(s, step))
  {
    hide Inv;
    match step
    case Check(who) => if Of(s, who).selected { CheckKeeps(s, who); }
    case Close(who) => ClosedKeeps(s, who);
    case Fail(who) => FailKeeps(s, who);
  }

  lemma AskKeeps(s: State)
    requires Inv(s) && Enabled(s, Ask)
    ensures Inv(Next(s, Ask))
  {
    var n := Bump(s.a.counter);
    var b := s.(a := s.a.(phase := Asked, counter := n, waiting := Some(n)));
    LocalStreams(s, b);
    hide Streams, AnsweredOk, Write, Encode;
    WriteKeeps(b, Active, Control(s.a.session, 0, SELECT_REQ, n));
  }

  lemma DataKeeps(s: State, step: Step)
    requires Inv(s) && Enabled(s, step) && step.Data?
    ensures Inv(Next(s, step))
  {
    var x := Of(s, step.who);
    var n := Bump(x.counter);
    var b := With(s, step.who, x.(ready := x.ready - 1, counter := n));
    LocalStreams(s, b);
    hide Streams, AnsweredOk, Write, Encode;
    WriteKeeps(b, step.who, Message(DataHeader(x.session, step.stream, step.fn, step.wBit, n), step.body));
  }

  lemma ReplyKeeps(s: State, step: Step)
    requires Inv(s) && Enabled(s, step) && step.Reply?
    ensures Inv(Next(s, step))
  {
    hide Streams, AnsweredOk, Write, Encode;
    var h := Of(s, step.who).got[step.i].header;
    WriteKeeps(s, step.who, Message(DataHeader(h.session, Stream(h), step.fn, false, h.system), step.body));
  }

  lemma LinktestKeeps(s: State, step: Step)
    requires Inv(s) && Enabled(s, step) && step.Linktest?
    ensures Inv(Next(s, step))
  {
    var x := Of(s, step.who);
    var n := Bump(x.counter);
    var b := With(s, step.who, x.(counter := n));
    LocalStreams(s, b);
    hide Streams, AnsweredOk, Write, Encode;
    if x.selected { WriteKeeps(b, step.who, Control(0xFFFF, 0, LINKTEST_REQ, n)); }
  }

  lemma ClosedKeeps(s: State, who: Who)
    requires Inv(s)
    ensures Inv(With(s, who, Of(s, who).(up := false)))
  {
    LocalStreams(s, With(s, who, Of(s, who).(up := false)));
    hide Streams, AnsweredOk, Good;
  }

  lemma NumberedKeeps(s: State, who: Who, n: Word32)
    requires Inv(s)
    ensures Inv(With(s, who, Of(s, who).(counter := n)))
  {
    LocalStreams(s, With(s, who, Of(s, who).(counter := n)));
    hide Streams, AnsweredOk, Good;
  }

  lemma SeparateKeeps(s: State, step: Step)
    requires Inv(s) && Enabled(s, step) && step.Separate?
    ensures Inv(Next(s, step))
  {
    var x := Of(s, step.who);
    var n := Bump(x.counter);
    NumberedKeeps(s, step.who, n);
    hide Write, Encode;
    var b := With(s, step.who, x.(counter := n));
    var t := if x.selected then Write(b, step.who, Control(x.session, 0, SEPARATE_REQ, n)) else s;
    assert b.a.session == s.a.session;
    hide Inv;
    if x.selected { WriteKeeps(b, step.who, Control(x.session, 0, SEPARATE_REQ, n)); }
    ClosedKeeps(t, step.who);
  }

  lemma NextKeeps(s: State, step: Step)
    requires Inv(s) && Enabled(s, step)
    ensures Inv(Next(s, step))
  {
    hide Inv, Next, Enabled;
    match step
    case Ask => AskKeeps(s);
    case Answer => AnswerKeeps(s);
    case Pull(who) => PullKeeps(s, who);
    case Data(_, _, _, _, _) => DataKeeps(s, step);
    case Reply(_, _, _, _) => ReplyKeeps(s, step);
    case Linktest(_) => LinktestKeeps(s, step);
    case Separate(_) => SeparateKeeps(s, step);
    case Check(_) => EndKeeps(s, step);
    case Close(_) => EndKeeps(s, step);
    case Fail(_) => EndKeeps(s, step);
    case _ => HandshakeKeeps(s, step);
  }

  lemma {:induction false} RunKeeps(active: Word16, passive: Word16, steps: seq<Step>)
    requires Legal(Connected(active, passive), steps)
    ensures Inv(Run(Connected(active, passive), steps)) && Run(Connected(active, passive), steps).a.session == active
    decreases |steps|
  {
    hide Next, Enabled;
    if steps == [] {
    } else {
      hide Inv;
      var n := |steps| - 1;
      RunKeeps(active, passive, steps[..n]);
      NextKeeps(Run(Connected(active, passive), steps[..n]), steps[n]);
      SessionFixed(Run(Connected(active, passive), steps[..n]), steps[n]);
    }
  }

  lemma SessionFixed(s: State, step: Step)
    requires Enabled(s, step)
    ensures Next(s, step).a.session == s.a.session
  {
    hide ReadBlock, Encode;
  }

  // ----- Main result -----

  /** Whenever the dialling side is selected, the listening side has adopted its session id and answered
      OK; and every data message either side ever sends bears that id. */
  lemma SelectAgreement(active: Word16, passive: Word16, steps: seq<Step>)
    requires Legal(Connected(active, passive), steps)
    ensures var s := Run(Connected(active, passive), steps);
            && (s.a.selected || s.p.selected ==> AnsweredOk(s) && s.p.session == s.a.session == active)
            && (forall m :: m in s.sentA && m.header.stype == DATA ==> m.header.session == active)
            && (forall m :: m in s.sentP && m.header.stype == DATA ==> m.header.session == active)
  {
    RunKeeps(active, passive, steps);
    hide Run, Legal, Streams, AnsweredOk;
  }

  /** The byte streams are transparent: what a side reads next is what the other side sent next, unchanged,
      and it is read as a whole unless it was over the size limit. */
  lemma DeliversWhatWasSent(active: Word16, passive: Word16, steps: seq<Step>, who: Who)
    requires Legal(Connected(active, passive), steps)
    ensures var s := Run(Connected(active, passive), steps);
            s.readA <= |s.sentP| && s.readP <= |s.sentA|
            && var ms := UnderWay(s, who);
            In(s, who) == EncodeAll(ms)
            && (ms != [] && Sendable(ms[0]) ==> ReadBlock(In(s, who)) == Whole(ms[0], EncodeAll(ms[1..])))
  {
    RunKeeps(active, passive, steps);
    hide Run, Legal, ReadBlock, Encode;
    var s := Run(Connected(active, passive), steps);
    if UnderWay(s, who) != [] { ReadNext(UnderWay(s, who)); }
  }
}
