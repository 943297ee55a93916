/**
 What the HSMS sides do, beyond what they never do: the handshake left to itself always comes to its
 end with both sides selected, the reply alone decides, each kind of message is dealt with as it
 should be, and no data flows before the listener has answered.
 */
module HsmsHandshake {
  import opened Bytes
  import opened HsmsMessage
  import opened HsmsSelect
  import opened Options

  // ----- The handshake left to itself -----

  /** The steps of the handshake and of the readers; nobody quits, closes, fails or uses the session. */
  predicate Handshaking(step: Step) {
    step.Ask? || step.Decide? || step.Adopt? || step.Answer? || step.Settle? || step.Pull?
  }

  /** Select.req and Select.rsp with status OK. */
  function Req(active: Word16): Message { Message(Header(active, 0, 0, 0, 1, 1), []) }

  function Rsp(active: Word16): Message { Message(Header(active, 0, 0, 0, 2, 1), []) }

  /** The dialler after k of the six steps Ask, Pull, Adopt, Answer, Pull, Decide. */
  function Dialler(active: Word16, k: nat): Side {
    Side(active, if k == 0 then Fresh else if k <= 5 then Asked else Over, true, k > 5, 0, [], if k == 0 then 0 else 1,
         if 1 <= k <= 4 then Some(1) else None, if k == 5 then Some(Rsp(active)) else None, None)
  }

  function Listener(active: Word16, passive: Word16, k: nat, settled: bool): Side {
    Side(if k <= 2 then passive else active,
         if k <= 2 then Fresh else if k == 3 then Adopted(Req(active)) else if settled then Over else Answered,
         true, settled, 0, [], 0, None, None, if k == 2 then Some(Req(active)) else None)
  }

  function Point(active: Word16, passive: Word16, k: nat, settled: bool): State {
    State(Dialler(active, k), Listener(active, passive, k, settled),
          if k == 1 then Encode(Req(active)) else [], if k == 4 then Encode(Rsp(active)) else [],
          if k == 0 then [] else [Req(active)], if k <= 3 then [] else [Rsp(active)],
          if k <= 4 then 0 else 1, if k <= 1 then 0 else 1)
  }

  /** Which of the six comes next. */
  function Sixth(k: nat): Step
    requires k < 6
  {
    [Ask, Pull(Passive), Adopt, Answer, Pull(Active), Decide][k]
  }

  lemma ReadOne(m: Message)
    requires Sendable(m)
    ensures ReadBlock(Encode(m)) == Whole(m, [])
  {
    ReadSendable(m, []);
    assert Encode(m) + [] == Encode(m);
  }

  lemma NothingToRead()
    ensures ReadBlock([]) == Short
  {
  }

  lemma Goes(active: Word16, passive: Word16, k: nat, settled: bool)
    requires k < 6 && (settled ==> k >= 4)
    ensures var s := Point(active, passive, k, settled);
            Enabled(s, Sixth(k)) && Next(s, Sixth(k)) == Point(active, passive, k + 1, settled)
  {
    hide Next, Enabled, Point;
    if k == 1 {
      ReadsReq(active, passive);
    } else if k == 4 {
      ReadsRsp(active, passive, settled);
    } else {
      GoesWriting(active, passive, k, settled);
    }
  }

  lemma ReadsReq(active: Word16, passive: Word16)
    ensures var s := Point(active, passive, 1, false);
            Enabled(s, Pull(Passive)) && Next(s, Pull(Passive)) == Point(active, passive, 2, false)
  {
    hide Encode, ReadBlock;
    ReadOne(Req(active));
  }

  lemma ReadsRsp(active: Word16, passive: Word16, settled: bool)
    ensures var s := Point(active, passive, 4, settled);
            Enabled(s, Pull(Active)) && Next(s, Pull(Active)) == Point(active, passive, 5, settled)
  {
    hide Encode, ReadBlock;
    ReadOne(Rsp(active));
  }

  lemma GoesWriting(active: Word16, passive: Word16, k: nat, settled: bool)
    requires (k in {0, 2, 3} && !settled) || k == 5
    ensures var s := Point(active, passive, k, settled);
            Enabled(s, Sixth(k)) && Next(s, Sixth(k)) == Point(active, passive, k + 1, settled)
  {
    hide Encode, ReadBlock;
  }

  lemma Settles(active: Word16, passive: Word16, k: nat)
    requires 4 <= k <= 6
    ensures var s := Point(active, passive, k, false);
            Enabled(s, Settle) && Next(s, Settle) == Point(active, passive, k, true)
  {
    hide Encode;
  }

  lemma GoesNowhereElse(active: Word16, passive: Word16, k: nat, settled: bool, step: Step)
    requires k <= 6 && (settled ==> k >= 4) && Handshaking(step) && Enabled(Point(active, passive, k, settled), step)
    ensures (step == Settle && 4 <= k && !settled) || (k < 6 && step == Sixth(k))
  {
    NothingToRead();
    hide Encode, ReadBlock;
  }

  /** Left to itself the handshake takes seven steps at most. It can go on until both sides are selected and then
      it cannot, and both are then up with the dialler's session id. */
  lemma {:induction false} HandshakeCompletes(active: Word16, passive: Word16, steps: seq<Step>)
    returns (k: nat, settled: bool)
    requires Legal(Connected(active, passive), steps) && forall i :: 0 <= i < |steps| ==> Handshaking(steps[i])
    ensures Run(Connected(active, passive), steps) == Point(active, passive, k, settled)
    ensures k <= 6 && (settled ==> k >= 4) && |steps| == k + if settled then 1 else 0
    ensures var s := Run(Connected(active, passive), steps);
            && |steps| <= 7
            && (s.a.selected && s.p.selected <==> |steps| == 7)
            && ((exists step :: Handshaking(step) && Enabled(s, step)) <==> |steps| < 7)
            && (|steps| == 7 ==> s.a.up && s.p.up && s.a.session == active && s.p.session == active)
    decreases |steps|
  {
    hide Enabled, Next, Point;
    if steps == [] {
      k, settled := 0, false;
      assert Connected(active, passive) == Point(active, passive, 0, false) by { StartPoint(active, passive); }
    } else {
      var n := |steps| - 1;
      k, settled := HandshakeCompletes(active, passive, steps[..n]);
      GoesNowhereElse(active, passive, k, settled, steps[n]);
      if steps[n] == Settle {
        Settles(active, passive, k);
        settled := true;
      } else {
        Goes(active, passive, k, settled);
        k := k + 1;
      }
    }
    PointIs(active, passive, k, settled);
    forall step | k == 6 && settled && Handshaking(step) ensures !Enabled(Point(active, passive, k, settled), step) {
      if Enabled(Point(active, passive, k, settled), step) { GoesNowhereElse(active, passive, k, settled, step); }
    }
    if k < 6 {
      Goes(active, passive, k, settled);
      assert Handshaking(Sixth(k));
    } else if !settled {
      Settles(active, passive, k);
      assert Handshaking(Settle);
    }
  }

  lemma StartPoint(active: Word16, passive: Word16)
    ensures Connected(active, passive) == Point(active, passive, 0, false)
  {
  }

  lemma PointIs(active: Word16, passive: Word16, k: nat, settled: bool)
    ensures var s := Point(active, passive, k, settled);
            && (s.a.selected <==> k > 5) && (s.p.selected <==> settled) && s.a.up && s.p.up && s.a.session == active
            && (k > 2 ==> s.p.session == active)
  {
  }

  /** For instance so. */
  lemma SelectSucceeds(active: Word16, passive: Word16)
    ensures var steps := [Ask, Pull(Passive), Adopt, Answer, Pull(Active), Decide, Settle];
            Legal(Connected(active, passive), steps)
            && var s := Run(Connected(active, passive), steps);
            s.a.selected && s.p.selected && s.a.up && s.p.up && s.a.session == active && s.p.session == active
            && s.sentA == [Req(active)] && s.sentP == [Rsp(active)]
  {
    var steps := [Ask, Pull(Passive), Adopt, Answer, Pull(Active), Decide, Settle];
    Along(active, passive, steps, 6);
    Settles(active, passive, 6);
    assert steps[..7] == steps && steps[..7][..6] == steps[..6];
    PointIs(active, passive, 6, true);
    hide Next, Enabled, Encode;
  }

  lemma {:induction false} Along(active: Word16, passive: Word16, steps: seq<Step>, k: nat)
    requires k <= 6 <= |steps| && forall i :: 0 <= i < 6 ==> steps[i] == Sixth(i)
    ensures Legal(Connected(active, passive), steps[..k])
    ensures Run(Connected(active, passive), steps[..k]) == Point(active, passive, k, false)
  {
    hide Enabled, Next, Point;
    if k == 0 {
      StartPoint(active, passive);
    } else {
      Along(active, passive, steps, k - 1);
      Goes(active, passive, k - 1, false);
      assert steps[..k][..k - 1] == steps[..k - 1];
    }
  }

  // ----- The reply decides -----

  /** A side whose handshake is under way is not selected. */
  ghost predicate NotYet(s: State) {
    && (s.a.phase in {Fresh, Asked} ==> !s.a.selected && s.a.ready == 0)
    && (s.p.phase in {Fresh, Answered} || s.p.phase.Adopted? ==> !s.p.selected && s.p.ready == 0)
  }

  lemma NotYetKept(s: State, step: Step)
    requires NotYet(s) && Enabled(s, step)
    ensures NotYet(Next(s, step))
  {
    hide ReadBlock, Encode;
  }

  lemma {:induction false} NotYetRun(active: Word16, passive: Word16, steps: seq<Step>)
    requires Legal(Connected(active, passive), steps)
    ensures NotYet(Run(Connected(active, passive), steps))
    decreases |steps|
  {
    hide Next, Enabled;
    if steps == [] {
    } else {
      var n := |steps| - 1;
      NotYetRun(active, passive, steps[..n]);
      NotYetKept(Run(Connected(active, passive), steps[..n]), steps[n]);
    }
  }

  /** In every run the dialler that looks at its reply is selected thereby if and only if that is a Select.rsp with
      status zero; otherwise its socket is closed. The listener that has answered becomes selected. */
  lemma ReplyDecides(active: Word16, passive: Word16, steps: seq<Step>)
    requires Legal(Connected(active, passive), steps)
    ensures var s := Run(Connected(active, passive), steps);
            && (Enabled(s, Decide) ==>
                  var h, t := s.a.box.value.header, Next(s, Decide);
                  && (t.a.selected <==> h.stype == 2 && h.byte3 == 0)
                  && (if t.a.selected then t.a.up == s.a.up else !t.a.up)
                  && t.a.phase == Over && t.a.box == None)
            && (Enabled(s, Settle) ==> Next(s, Settle).p.selected && Next(s, Settle).p.up == s.p.up)
  {
    NotYetRun(active, passive, steps);
    hide Run, Legal;
  }

  // ----- What the reader does with a message -----

  /** What a side has sent. */
  function Sent(s: State, who: Who): seq<Message> { if who.Active? then s.sentA else s.sentP }

  /** A Separate.req ends the session; a Linktest.req is answered with its own session id and system bytes; a
      Select.req is answered "already active" if selected and else left to the handshake; any other message with the
      system bytes the dialler waits for is its reply; and any other data goes to the callers. */
  predicate DealtWith(s: State, t: State, who: Who, m: Message) {
    var x, y, h := Of(s, who), Of(t, who), m.header;
    if !Sendable(m) || h.stype == 9 then !y.up && !y.selected && Sent(t, who) == Sent(s, who)
    else if h.stype == 5 then
      y == x && Sent(t, who) == Sent(s, who) + [Message(Header(h.session, 0, 0, 0, 6, h.system), [])]
    else if h.stype == 1 then
      if x.selected
      then y == x && Sent(t, who) == Sent(s, who) + [Message(Header(h.session, 0, 1, 0, 2, h.system), [])]
      else y == x.(queue := Some(m)) && Sent(t, who) == Sent(s, who)
    else
      && Sent(t, who) == Sent(s, who)
      && y == if x.waiting == Some(h.system) then x.(box := Some(m), waiting := None)
              else if h.stype == 0 then x.(got := x.got + [m])
              else x
  }

  /** In every run a reader that reads deals so with the next message the other side sent. */
  lemma ReaderExact(active: Word16, passive: Word16, steps: seq<Step>, who: Who)
    requires Legal(Connected(active, passive), steps) && Enabled(Run(Connected(active, passive), steps), Pull(who))
    ensures var s := Run(Connected(active, passive), steps);
            s.readA <= |s.sentP| && s.readP <= |s.sentA| && UnderWay(s, who) != []
    ensures var s := Run(Connected(active, passive), steps);
            DealtWith(s, Next(s, Pull(who)), who, UnderWay(s, who)[0])
  {
    DeliversWhatWasSent(active, passive, steps, who);
    RunKeeps(active, passive, steps);
    var s := Run(Connected(active, passive), steps);
    hide Run, Legal, Next, Enabled;
    PullReads(s, who);
    ReaderDoes(s, who);
  }

  lemma PullReads(s: State, who: Who)
    requires Inv(s) && Enabled(s, Pull(who))
    ensures s.readA <= |s.sentP| && s.readP <= |s.sentA| && UnderWay(s, who) != [] && Of(s, who).up
    ensures var ms := UnderWay(s, who);
            ReadBlock(In(s, who)) == if Sendable(ms[0]) then Whole(ms[0], EncodeAll(ms[1..])) else Corrupt
  {
    NothingToRead();
    hide Encode, ReadBlock;
    var ms := UnderWay(s, who);
    assert ms != [];
    ReadNext(ms);
  }

  lemma ReaderDoes(s: State, who: Who)
    requires Inv(s) && Enabled(s, Pull(who)) && UnderWay(s, who) != [] && Of(s, who).up
    requires var ms := UnderWay(s, who);
             ReadBlock(In(s, who)) == if Sendable(ms[0]) then Whole(ms[0], EncodeAll(ms[1..])) else Corrupt
    ensures DealtWith(s, Next(s, Pull(who)), who, UnderWay(s, who)[0])
  {
    hide Encode, EncodeAll, ReadBlock, Inv, Sendable;
  }

  // ----- No data before the answer -----

  predicate IsData(m: Message) { m.header.stype == 0 }

  /** Data has been sent, or received, only if the listener has answered OK. */
  ghost predicate DataLater(s: State) {
    (exists m :: (m in s.sentA || m in s.sentP) && IsData(m)) || s.a.got != [] || s.p.got != [] ==> AnsweredOk(s)
  }

  lemma DataSent(s: State, who: Who, m: Message)
    requires DataLater(s) && (IsData(m) ==> AnsweredOk(s))
    ensures DataLater(Write(s, who, m))
  {
    AnsweredGrows(s, who, m);
    hide Encode, AnsweredOk;
  }

  lemma DataRead(s: State, who: Who)
    requires Inv(s) && DataLater(s) && Enabled(s, Pull(who))
    ensures DataLater(Next(s, Pull(who)))
  {
    PullReads(s, who);
    var m, ms := UnderWay(s, who)[0], UnderWay(s, who);
    hide ReadBlock, Encode, EncodeAll, Streams, AnsweredOk;
    if Sendable(m) {
      var c := Consumed(s, who, EncodeAll(ms[1..]));
      SameAnswers(s, c);
      assert m in s.sentA || m in s.sentP;
      DataDispatched(c, who, m);
    } else {
      SameAnswers(s, Next(s, Pull(who)));
    }
  }

  lemma SameAnswers(s: State, t: State)
    requires t.sentA == s.sentA && t.sentP == s.sentP
    ensures AnsweredOk(t) == AnsweredOk(s)
  {
  }

  lemma DataDispatched(s: State, who: Who, m: Message)
    requires DataLater(s) && (IsData(m) ==> AnsweredOk(s))
    ensures DataLater(Dispatch(s, who, m))
  {
    var h := m.header;
    hide Encode, AnsweredOk, Write;
    if h.stype == LINKTEST_REQ {
      DataSent(s, who, Control(h.session, 0, LINKTEST_RSP, h.system));
    } else if h.stype == SELECT_REQ && Of(s, who).selected {
      DataSent(s, who, Control(h.session, SELECT_ALREADY_ACTIVE, SELECT_RSP, h.system));
    } else {
      SameAnswers(s, Dispatch(s, who, m));
    }
  }

  lemma DataLaterKept(s: State, step: Step)
    requires Inv(s) && DataLater(s) && Enabled(s, step)
    ensures DataLater(Next(s, step))
  {
    if step.Pull? {
      DataRead(s, step.who);
    } else {
      WrittenLater(s, step);
    }
  }

  /** What a step other than the reader's sends, if anything, and what it has changed before. */
  lemma WrittenLater(s: State, step: Step)
    requires Inv(s) && DataLater(s) && Enabled(s, step) && !step.Pull?
    ensures DataLater(Next(s, step))
  {
    hide Encode, Streams, Traffic, Received;
    var t := Next(s, step);
    Grows(s, step);
    AnswerStays(s, t);
    hide AnsweredOk, Next;
  }

  /** Nothing sent is taken back, nothing is received, and data is sent only by a caller that may or as a reply. */
  ghost predicate OnlyGrows(s: State, step: Step, t: State) {
    && s.sentA <= t.sentA && s.sentP <= t.sentP && t.a.got == s.a.got && t.p.got == s.p.got
    && (forall m :: (m in t.sentA && m !in s.sentA) || (m in t.sentP && m !in s.sentP) ==>
          IsData(m) ==> (step.Data? && Of(s, step.who).ready > 0) || (step.Reply? && Of(s, step.who).got != []))
  }

  lemma Grows(s: State, step: Step)
    requires Enabled(s, step) && !step.Pull?
    ensures OnlyGrows(s, step, Next(s, step))
  {
    hide Encode, OnlyGrows, Next, Enabled;
    if step.Ask? || step.Answer? || step.Linktest? || step.Separate? {
      ControlGrows(s, step);
    } else if step.Data? || step.Reply? {
      DataGrows(s, step);
    } else {
      NothingGrows(s, step);
    }
  }

  lemma ControlGrows(s: State, step: Step)
    requires Enabled(s, step) && (step.Ask? || step.Answer? || step.Linktest? || step.Separate?)
    ensures OnlyGrows(s, step, Next(s, step))
  {
    hide Encode;
  }

  lemma DataGrows(s: State, step: Step)
    requires Enabled(s, step) && (step.Data? || step.Reply?)
    ensures OnlyGrows(s, step, Next(s, step))
  {
    hide Encode;
  }

  lemma NothingGrows(s: State, step: Step)
    requires Enabled(s, step) && !step.Pull? && !step.Ask? && !step.Answer? && !step.Linktest? && !step.Separate?
    requires !step.Data? && !step.Reply?
    ensures OnlyGrows(s, step, Next(s, step))
  {
    hide Encode;
  }

  lemma AnswerStays(s: State, t: State)
    requires s.sentP <= t.sentP
    ensures AnsweredOk(s) ==> AnsweredOk(t)
  {
    if i :| 0 <= i < |s.sentP| && IsOk(s.sentP[i]) { assert t.sentP[i] == s.sentP[i]; }
  }

  lemma {:induction false} DataLaterRun(active: Word16, passive: Word16, steps: seq<Step>)
    requires Legal(Connected(active, passive), steps)
    ensures DataLater(Run(Connected(active, passive), steps))
    decreases |steps|
  {
    hide Next, Enabled, Inv;
    if steps == [] {
    } else {
      var n := |steps| - 1;
      DataLaterRun(active, passive, steps[..n]);
      RunKeeps(active, passive, steps[..n]);
      hide DataLater;
      DataLaterKept(Run(Connected(active, passive), steps[..n]), steps[n]);
    }
  }

  /** In every run, once any side has sent data the listener has answered a Select.req with status OK before. */
  lemma NoDataBeforeSelect(active: Word16, passive: Word16, steps: seq<Step>)
    requires Legal(Connected(active, passive), steps)
    ensures var s := Run(Connected(active, passive), steps);
            (exists m :: (m in s.sentA || m in s.sentP) && m.header.stype == 0) ==>
              exists m :: m in s.sentP && m.header.stype == 2 && m.header.byte3 == 0 && m.header.session == active
  {
    DataLaterRun(active, passive, steps);
    RunKeeps(active, passive, steps);
    hide Run, Legal, Streams, Received, Handshake;
    var s := Run(Connected(active, passive), steps);
    if m :| (m in s.sentA || m in s.sentP) && m.header.stype == 0 {
      assert IsData(m);
      var i :| 0 <= i < |s.sentP| && IsOk(s.sentP[i]);
      assert Good(s.sentP[i], s.a.session) && s.sentP[i] in s.sentP;
    }
  }

  // ----- What one side sends, the other gets -----

  function Other(who: Who): Who { if who.Active? then Passive else Active }

  /** The message this step of a caller sends. */
  function Sends(s: State, step: Step): Message
    requires step.Data? || step.Linktest? || step.Separate?
  {
    var x := Of(s, step.who);
    var n := (x.counter + 1) % 0x1_0000_0000;
    match step
    case Data(_, stream, fn, wBit, body) =>
      Message(Header(x.session, stream % 128 + (if wBit then 128 else 0), fn, 0, 0, n), body)
    case Linktest(_) => Message(Header(0xFFFF, 0, 0, 0, 5, n), [])
    case _ => Message(Header(x.session, 0, 0, 0, 9, n), [])
  }

  lemma SendsIt(s: State, step: Step)
    requires Enabled(s, step)
    requires step.Data? || ((step.Linktest? || step.Separate?) && Of(s, step.who).selected)
    requires Of(s, step.who).up
    ensures var t := Next(s, step);
            && Sent(t, step.who) == Sent(s, step.who) + [Sends(s, step)]
            && Of(t, Other(step.who)) == Of(s, Other(step.who))
            && t.readA == s.readA && t.readP == s.readP && Sent(t, Other(step.who)) == Sent(s, Other(step.who))
            && (step.Separate? ==> !Of(t, step.who).up)
  {
    hide Encode;
  }

  lemma SessionOfData(s: State, step: Step)
    requires Inv(s) && Enabled(s, step) && step.Data?
    ensures Of(s, step.who).session == s.a.session
  {
    hide Streams, Traffic, Received;
  }

  predicate MaySend(s: State, step: Step) {
    && (step.Data? || ((step.Linktest? || step.Separate?) && Of(s, step.who).selected))
    && Enabled(s, step) && Of(s, step.who).up && Of(s, Other(step.who)).up
  }

  /** A Linktest.req is answered with the same system bytes, a Separate.req ends the session on both sides, and a data
      message within the size limit, with this session id, comes to the other side's callers as it was sent. */
  predicate Reached(s: State, step: Step, u: State, session: Word16)
    requires step.Data? || step.Linktest? || step.Separate?
  {
    var m, x, y := Sends(s, step), Of(s, Other(step.who)), Of(u, Other(step.who));
    match step
    case Linktest(who) =>
      Sent(u, Other(who)) == Sent(s, Other(who)) + [Message(Header(0xFFFF, 0, 0, 0, 6, m.header.system), [])]
    case Separate(who) => !Of(u, who).up && !y.up && !y.selected
    case _ =>
      && m.header.session == session
      && (Sendable(m) && x.waiting != Some(m.header.system) ==> y.got == x.got + [m])
  }

  lemma OneReaches(s: State, step: Step)
    requires Inv(s) && MaySend(s, step) && UnderWay(s, Other(step.who)) == []
    ensures var t := Next(s, step);
            && Enabled(t, Pull(Other(step.who)))
            && Reached(s, step, Next(t, Pull(Other(step.who))), s.a.session)
  {
    var t, other := Next(s, step), Other(step.who);
    SendsIt(s, step);
    NextKeeps(s, step);
    if step.Data? { SessionOfData(s, step); }
    hide Next, Enabled;
    Arrives(s, t, step);
    PullReads(t, other);
    hide Inv;
    ReaderDoes(t, other);
    if step.Separate? { StaysDown(t, other); }
  }

  /** In every run with nothing unread on the way to it, the other side gets what a side sends. */
  lemma ReachesPeer(active: Word16, passive: Word16, steps: seq<Step>, step: Step)
    requires Legal(Connected(active, passive), steps) && MaySend(Run(Connected(active, passive), steps), step)
    requires var s := Run(Connected(active, passive), steps);
             s.readA <= |s.sentP| && s.readP <= |s.sentA| && UnderWay(s, Other(step.who)) == []
    ensures var c, pull := Connected(active, passive), Pull(Other(step.who));
            Legal(c, steps + [step] + [pull]) && Reached(Run(c, steps), step, Run(c, steps + [step] + [pull]), active)
  {
    var c, other := Connected(active, passive), Other(step.who);
    hide Run, Legal, Next, Enabled, Inv, Reached;
    RunKeeps(active, passive, steps);
    OneReaches(Run(c, steps), step);
    Extends(c, steps, step);
    Extends(c, steps + [step], Pull(other));
  }

  lemma Extends(c: State, steps: seq<Step>, step: Step)
    requires Legal(c, steps) && Enabled(Run(c, steps), step)
    ensures Legal(c, steps + [step]) && Run(c, steps + [step]) == Next(Run(c, steps), step)
  {
    hide Next, Enabled;
    assert (steps + [step])[..|steps|] == steps;
  }

  lemma StaysDown(t: State, who: Who)
    requires Enabled(t, Pull(who))
    ensures Of(Next(t, Pull(who)), Other(who)) == Of(t, Other(who))
  {
    hide Encode, ReadBlock;
  }

  lemma Arrives(s: State, t: State, step: Step)
    requires Inv(t) && (step.Data? || step.Linktest? || step.Separate?)
    requires s.readA <= |s.sentP| && s.readP <= |s.sentA| && UnderWay(s, Other(step.who)) == []
    requires Sent(t, step.who) == Sent(s, step.who) + [Sends(s, step)] && t.readA == s.readA && t.readP == s.readP
    requires Of(t, Other(step.who)).up && Sent(t, Other(step.who)) == Sent(s, Other(step.who))
    ensures t.readA <= |t.sentP| && t.readP <= |t.sentA| && UnderWay(t, Other(step.who)) == [Sends(s, step)]
    ensures Enabled(t, Pull(Other(step.who)))
  {
    hide Encode, ReadBlock, EncodeAll;
    var m := Sends(s, step);
    assert UnderWay(t, Other(step.who)) == [m];
    assert Sent(t, step.who)[|Sent(s, step.who)|] == m;
    assert Sized(m);
    ReadNext([m]);
  }

  // ----- The end of a session, and its numbers -----

  /** Whoever quits its handshake, closes, fails or separates is down, and who is down stays down and sends nothing
      more. A caller may send exactly after it has seen its side selected. */
  lemma EndsTheSession(s: State, step: Step, who: Who)
    requires Enabled(s, step)
    ensures (step.Quit? || step.Close? || step.Fail? || step.Separate?) && step.who == who ==>
              !Of(Next(s, step), who).up
    ensures step == Quit(who) ==> Of(Next(s, step), who).phase == Over && Of(Next(s, step), who).waiting == None
    ensures step == Fail(who) ==> !Of(Next(s, step), who).selected
    ensures step == Check(who) ==>
              Of(Next(s, step), who).ready == Of(s, who).ready + if Of(s, who).selected then 1 else 0
    ensures !Of(s, who).up ==> !Of(Next(s, step), who).up && Sent(Next(s, step), who) == Sent(s, who)
  {
    if !Of(s, who).up { DownForGood(s, step, who); }
    hide ReadBlock, Encode, Dispatch, Sent;
  }

  lemma DownForGood(s: State, step: Step, who: Who)
    requires Enabled(s, step) && !Of(s, who).up
    ensures !Of(Next(s, step), who).up && Sent(Next(s, step), who) == Sent(s, who)
  {
    hide ReadBlock, Encode;
  }

  /** Nothing keeps a caller from looking, separating or closing, or a handshake under way from being given up; and who
      has seen its side selected can send a message the length field can hold. */
  lemma NothingInTheWay(s: State, who: Who, stream: Byte, fn: Byte, wBit: bool, body: seq<Byte>)
    ensures Enabled(s, Check(who)) && Enabled(s, Linktest(who)) && Enabled(s, Separate(who)) && Enabled(s, Close(who))
    ensures Enabled(s, Fail(who)) && (Enabled(s, Quit(who)) <==> Of(s, who).phase != Over)
    ensures Of(s, who).selected && 10 + |body| <= 0xFFFF_FFFF ==>
              Enabled(Next(s, Check(who)), Data(who, stream, fn, wBit, body))
    ensures Enabled(s, Data(who, stream, fn, wBit, body)) ==>
              Of(Next(s, Data(who, stream, fn, wBit, body)), who).ready == Of(s, who).ready - 1
  {
    hide Encode;
  }

  /** The steps by which a side starts something of its own: it takes the next number for its system bytes. */
  ghost function Started(c: State, steps: seq<Step>, who: Who): nat
    requires Legal(c, steps)
    decreases |steps|
  {
    if steps == [] then 0
    else
      var init, step := steps[..|steps| - 1], steps[|steps| - 1];
      Started(c, init, who) + if Starts(Run(c, init), step, who) then 1 else 0
  }

  predicate Starts(s: State, step: Step, who: Who) {
    || (step.Ask? && who.Active?)
    || (step.Data? && step.who == who)
    || ((step.Linktest? || step.Separate?) && step.who == who && Of(s, who).selected)
  }

  lemma CounterStep(s: State, step: Step, who: Who)
    requires Enabled(s, step)
    ensures Of(Next(s, step), who).counter ==
            if Starts(s, step, who) then (Of(s, who).counter + 1) % 0x1_0000_0000 else Of(s, who).counter
  {
    hide ReadBlock, Encode;
  }

  lemma OneMoreTurn(n: nat)
    ensures (n % 0x1_0000_0000 + 1) % 0x1_0000_0000 == (n + 1) % 0x1_0000_0000
  {
  }

  /** In every run a side numbers what it starts one after the other, from one on and round at 2^32. */
  lemma {:induction false} NumbersInOrder(active: Word16, passive: Word16, steps: seq<Step>, who: Who)
    requires Legal(Connected(active, passive), steps)
    ensures var c := Connected(active, passive);
            Of(Run(c, steps), who).counter == Started(c, steps, who) % 0x1_0000_0000
    decreases |steps|
  {
    hide Next, Enabled, Starts;
    if steps == [] {
    } else {
      var n, c := |steps| - 1, Connected(active, passive);
      NumbersInOrder(active, passive, steps[..n], who);
      CounterStep(Run(c, steps[..n]), steps[n], who);
      OneMoreTurn(Started(c, steps[..n], who));
    }
  }
}
