/**
 HSMS transactions: how a connection numbers its requests, and which request, if any, its reader
 gives an arriving message to. The peer is arbitrary; requests, timeouts and arrivals interleave.
 */
module HsmsRouting {
  import opened HsmsMessage
  import opened Options

  type Req = nat

  const WRAP := 0x1_0000_0000

  /** The fields shared by callers and reader: the transaction counter and the table of open requests. */
  datatype Core = Core(counter: Word32, pending: map<Word32, Req>)

  function Numbered(c: Core): Core { c.(counter := (c.counter + 1) % WRAP) }

  function Registered(c: Core, system: Word32, r: Req): Core { c.(pending := c.pending[system := r]) }

  function Dropped(c: Core, system: Word32): Core { c.(pending := c.pending - {system}) }

  /** Messages the reader answers itself and never routes. */
  predicate Handled(m: Message) { m.header.stype in {SEPARATE_REQ, LINKTEST_REQ, SELECT_REQ} }

  function Claimant(c: Core, m: Message): Option<Req> {
    if m.header.system in c.pending then Some(c.pending[m.header.system]) else None
  }

  // ----- The protocol -----

  /** A request waits once registered. Abandoned requests leave their table entry behind: their
      connection was closed under them. */
  datatype Stage = Issued | Waiting | Got(m: Message) | GaveUp | Abandoned

  /** `number` counts calls for system bytes; `box` is the reply channel, `delivered` all it ever held. */
  datatype Request = Request(number: nat, system: Word32, stage: Stage, box: seq<Message>, delivered: seq<Message>)

  /** What the reader has in hand. */
  datatype Reader = Idle | ToRequest(r: Req, m: Message) | ToRecv(m: Message)

  datatype State = State(c: Core, issued: nat, reqs: seq<Request>, reader: Reader, recv: seq<Message>)

  const BOX_CAPACITY := 1
  const RECV_CAPACITY := 16

  datatype Step =
    | Number                 // a message without reply takes system bytes
    | Begin                  // so does a request
    | Register(r: Req)
    | Arrive(m: Message)     // the reader reads a message and looks up its system bytes
    | HandOver               // and passes it on
    | Take(r: Req)           // the requester gets its reply
    | GiveUp(r: Req)         // its wait is over: timeout, cancellation or failed write
    | Abandon(r: Req)        // the connection closed under it
    | Recv                   // the user takes an unsolicited message

  predicate Open(s: State, r: Req) { r < |s.reqs| && (s.reqs[r].stage.Waiting? || s.reqs[r].stage.Abandoned?) }

  predicate Enabled(s: State, step: Step) {
    match step
    case Register(r) => r < |s.reqs| && s.reqs[r].stage.Issued?
    case Arrive(_) => s.reader.Idle?
    case HandOver =>
      (match s.reader
       case Idle => false
       case ToRequest(r, _) => r < |s.reqs| && |s.reqs[r].box| < BOX_CAPACITY
       case ToRecv(_) => |s.recv| < RECV_CAPACITY)
    case Take(r) => r < |s.reqs| && s.reqs[r].stage.Waiting? && s.reqs[r].box != []
    case GiveUp(r) => r < |s.reqs| && s.reqs[r].stage.Waiting?
    case Abandon(r) => r < |s.reqs| && s.reqs[r].stage.Waiting?
    case Recv => s.recv != []
    case _ => true
  }

  function Next(s: State, step: Step): State
    requires Enabled(s, step)
  {
    match step
    case Number => s.(c := Numbered(s.c), issued := s.issued + 1)
    case Begin =>
      s.(c := Numbered(s.c), issued := s.issued + 1,
         reqs := s.reqs + [Request(s.issued + 1, Numbered(s.c).counter, Issued, [], [])])
    case Register(r) =>
      s.(c := Registered(s.c, s.reqs[r].system, r), reqs := s.reqs[r := s.reqs[r].(stage := Waiting)])
    case Arrive(m) =>
      if Handled(m) then s
      else (match Claimant(s.c, m)
            case Some(r) => s.(c := Dropped(s.c, m.header.system), reader := ToRequest(r, m))
            case None => if m.header.stype == DATA then s.(reader := ToRecv(m)) else s)
    case HandOver =>
      (match s.reader
       case ToRequest(r, m) =>
         s.(reader := Idle,
            reqs := s.reqs[r := s.reqs[r].(box := s.reqs[r].box + [m], delivered := s.reqs[r].delivered + [m])])
       case ToRecv(m) => s.(reader := Idle, recv := s.recv + [m])
       case Idle => s)
    case Take(r) => s.(reqs := s.reqs[r := s.reqs[r].(stage := Got(s.reqs[r].box[0]), box := s.reqs[r].box[1..])])
    case GiveUp(r) => s.(c := Dropped(s.c, s.reqs[r].system), reqs := s.reqs[r := s.reqs[r].(stage := GaveUp)])
    case Abandon(r) => s.(reqs := s.reqs[r := s.reqs[r].(stage := Abandoned)])
    case Recv => s.(recv := s.recv[1..])
  }

  ghost predicate Legal(s: State, steps: seq<Step>)
    decreases |steps|, 0
  {
    steps == [] ||
    (Legal(s, steps[..|steps| - 1]) && Enabled(Run(s, steps[..|steps| - 1]), steps[|steps| - 1]))
  }

  ghost function Run(s: State, steps: seq<Step>): State
    requires Legal(s, steps)
    decreases |steps|, 1
  {
    if steps == [] then s else Next(Run(s, steps[..|steps| - 1]), steps[|steps| - 1])
  }

  function Initial(): State { State(Core(0, map[]), 0, [], Idle, []) }

  // ----- Invariant -----

  ghost predicate Numbers(s: State) {
    && s.c.counter == s.issued % WRAP
    && (forall r :: 0 <= r < |s.reqs| ==>
                      1 <= s.reqs[r].number <= s.issued && s.reqs[r].system == s.reqs[r].number % WRAP)
    && (forall q, r :: 0 <= q < r < |s.reqs| ==> s.reqs[q].number < s.reqs[r].number)
  }

  predicate Carried(s: State, r: Req) { s.reader.ToRequest? && s.reader.r == r }

  /** A request in the table is open, under its own system bytes, and has had nothing delivered. */
  ghost predicate Table(s: State) {
    forall k :: k in s.c.pending ==> EntryOk(s, k)
  }

  ghost predicate EntryOk(s: State, k: Word32)
    requires k in s.c.pending
  {
    var r := s.c.pending[k];
    Open(s, r) && s.reqs[r].system == k && s.reqs[r].delivered == [] && !Carried(s, r)
  }

  ghost predicate Boxes(s: State) {
    forall r :: 0 <= r < |s.reqs| ==> BoxOk(s.reqs[r])
  }

  ghost predicate BoxOk(q: Request) {
    && |q.delivered| <= 1 && |q.box| <= |q.delivered| && (q.box != [] ==> q.box == q.delivered)
    && (forall i :: 0 <= i < |q.delivered| ==> q.delivered[i].header.system == q.system)
    && (q.stage.Issued? ==> q.delivered == [])
    && (q.stage.Got? ==> q.delivered == [q.stage.m])
  }

  /** What the reader carries is for a request that has had nothing yet, and bears its system bytes. */
  ghost predicate Hands(s: State) {
    s.reader.ToRequest? ==>
      s.reader.r < |s.reqs| && !s.reqs[s.reader.r].stage.Issued? && s.reqs[s.reader.r].delivered == []
      && s.reader.m.header.system == s.reqs[s.reader.r].system
  }

  /** A request still owed its reply: open, with nothing delivered. */
  predicate Unanswered(s: State, r: Req) { Open(s, r) && s.reqs[r].delivered == [] }

  /** Within one turn of the counter such a request is in the table, under its own system bytes, unless
      the reader has its reply in hand. */
  ghost predicate Listed(s: State) {
    s.issued < WRAP ==> forall r :: 0 <= r < |s.reqs| && Unanswered(s, r) && !Carried(s, r) ==> InTable(s, r)
  }

  predicate InTable(s: State, r: Req)
    requires r < |s.reqs|
  {
    s.reqs[r].system in s.c.pending && s.c.pending[s.reqs[r].system] == r
  }

  ghost predicate Inv(s: State) { Numbers(s) && Table(s) && Boxes(s) && Hands(s) && Listed(s) }

  lemma WrapStep(n: nat)
    ensures (n % WRAP + 1) % WRAP == (n + 1) % WRAP
  {
  }

  lemma KeepsNumbers(s: State, step: Step)
    requires Numbers(s) && Enabled(s, step)
    ensures Numbers(Next(s, step))
  {
    var t := Next(s, step);
    if step.Number? || step.Begin? {
      WrapStep(s.issued);
      assert t.c.counter == t.issued % WRAP && (step.Begin? ==> t.reqs[|s.reqs|].system == t.c.counter);
      hide Handled, Claimant;
    } else {
      assert |t.reqs| == |s.reqs| && t.issued == s.issued && t.c.counter == s.c.counter;
      assert forall r :: 0 <= r < |s.reqs| ==>
          t.reqs[r].number == s.reqs[r].number && t.reqs[r].system == s.reqs[r].system;
    }
  }

  lemma KeepsEntry(s: State, step: Step, k: Word32)
    requires Inv(s) && Enabled(s, step) && k in Next(s, step).c.pending
    ensures EntryOk(Next(s, step), k)
  {
    hide Numbers, Listed;
    if k in s.c.pending { assert EntryOk(s, k); }
    if step.Register? { assert BoxOk(s.reqs[step.r]); }
  }

  lemma KeepsTable(s: State, step: Step)
    requires Inv(s) && Enabled(s, step)
    ensures Table(Next(s, step))
  {
    hide Inv, Next, Enabled, EntryOk;
    forall k | k in Next(s, step).c.pending ensures EntryOk(Next(s, step), k) { KeepsEntry(s, step, k); }
  }

  lemma KeepsBoxes(s: State, step: Step)
    requires Inv(s) && Enabled(s, step)
    ensures Boxes(Next(s, step))
  {
    hide Numbers, Table;
  }

  lemma KeepsHands(s: State, step: Step)
    requires Inv(s) && Enabled(s, step)
    ensures Hands(Next(s, step))
  {
    hide Numbers;
  }

  lemma SystemsApart(s: State, q: Req, r: Req)
    requires Numbers(s) && s.issued < WRAP && q < |s.reqs| && r < |s.reqs| && s.reqs[q].system == s.reqs[r].system
    ensures q == r
  {
  }

  lemma KeepsListed(s: State, step: Step, r: Req)
    requires Inv(s) && Enabled(s, step) && Next(s, step).issued < WRAP
    requires r < |Next(s, step).reqs| && Unanswered(Next(s, step), r) && !Carried(Next(s, step), r)
    ensures InTable(Next(s, step), r)
  {
    hide Numbers;
    assert r < |s.reqs| && Unanswered(s, r) && !Carried(s, r) ==> InTable(s, r);
    if step.Register? && r != step.r && s.reqs[r].system == s.reqs[step.r].system { SystemsApart(s, r, step.r); }
    if step.GiveUp? && r != step.r && s.reqs[r].system == s.reqs[step.r].system { SystemsApart(s, r, step.r); }
  }

  lemma NextKeeps(s: State, step: Step)
    requires Inv(s) && Enabled(s, step)
    ensures Inv(Next(s, step))
  {
    hide Next, Enabled, Numbers, Table, Boxes, Hands, Unanswered, InTable;
    KeepsNumbers(s, step);
    KeepsTable(s, step);
    KeepsBoxes(s, step);
    KeepsHands(s, step);
    var t := Next(s, step);
    if t.issued < WRAP {
      forall r | 0 <= r < |t.reqs| && Unanswered(t, r) && !Carried(t, r) ensures InTable(t, r) {
        KeepsListed(s, step, r);
      }
    }
  }

  lemma {:induction false} RunKeeps(steps: seq<Step>)
    requires Legal(Initial(), steps)
    ensures Inv(Run(Initial(), steps))
    decreases |steps|
  {
    if steps == [] {
    } else {
      var n := |steps| - 1;
      RunKeeps(steps[..n]);
      hide Next, Enabled, Inv;
      NextKeeps(Run(Initial(), steps[..n]), steps[n]);
    }
  }

  // ----- Main results, with no bound on the number of transactions -----

  /** Every request is given at most one message, and only one bearing its own system bytes. */
  lemma AtMostOneReply(steps: seq<Step>, r: Req)
    requires Legal(Initial(), steps) && r < |Run(Initial(), steps).reqs|
    ensures var q := Run(Initial(), steps).reqs[r];
            |q.delivered| <= 1 && (forall i :: 0 <= i < |q.delivered| ==> q.delivered[i].header.system == q.system)
            && (q.stage.Got? ==> q.delivered == [q.stage.m])
  {
    RunKeeps(steps);
  }

  /** The reader never blocks on a reply channel: whenever it has a reply in hand there is room for it. */
  lemma ReaderNeverBlocks(steps: seq<Step>)
    requires Legal(Initial(), steps) && Run(Initial(), steps).reader.ToRequest?
    ensures Enabled(Run(Initial(), steps), HandOver)
    ensures var s := Run(Initial(), steps); s.reader.r < |s.reqs| && s.reqs[s.reader.r].box == []
  {
    RunKeeps(steps);
    var s := Run(Initial(), steps);
    assert BoxOk(s.reqs[s.reader.r]);
  }

  /** How a request ends: with the message in its channel, which it takes out, or without one; and then for good. */
  lemma EndsForGood(steps: seq<Step>, step: Step, r: Req)
    requires Legal(Initial(), steps) && Enabled(Run(Initial(), steps), step) && r < |Run(Initial(), steps).reqs|
    ensures var s := Run(Initial(), steps); var q := s.reqs[r]; var t := Next(s, step);
            && r < |t.reqs|
            && (if q.stage.Got? || q.stage.GaveUp? || q.stage.Abandoned? then t.reqs[r].stage == q.stage
                else if step == Take(r) then q.delivered == q.box == [q.box[0]] && t.reqs[r].stage == Got(q.box[0])
                                             && t.reqs[r].box == []
                else if step == GiveUp(r) then t.reqs[r].stage == GaveUp
                else if step == Abandon(r) then t.reqs[r].stage == Abandoned
                else t.reqs[r].stage == if step == Register(r) then Waiting else q.stage)
  {
    RunKeeps(steps);
    hide Run, Legal, Numbers, Table, Hands, Listed;
    assert BoxOk(Run(Initial(), steps).reqs[r]);
  }

  // ----- Main results within one turn of the counter -----

  /** Two requests share system bytes exactly when their numbers are a multiple of 2^32 apart. */
  lemma SameSystemExact(steps: seq<Step>, q: Req, r: Req)
    requires Legal(Initial(), steps) && q < r < |Run(Initial(), steps).reqs|
    ensures var s := Run(Initial(), steps);
            s.reqs[q].system == s.reqs[r].system <==> (s.reqs[r].number - s.reqs[q].number) % 0x1_0000_0000 == 0
  {
    RunKeeps(steps);
    hide Run, Legal, Table, Boxes, Hands, Listed;
    var s := Run(Initial(), steps);
    var a, b := s.reqs[q].number, s.reqs[r].number;
    assert s.reqs[q].system == a % WRAP && s.reqs[r].system == b % WRAP && a < b;
    hide Numbers;
    SameRemainder(a, b);
  }

  lemma SameRemainder(a: nat, b: nat)
    requires a < b
    ensures a % WRAP == b % WRAP <==> (b - a) % WRAP == 0
  {
  }

  /** Within one turn of the counter, a message bearing one request's system bytes is never given to another. */
  lemma NoCrossTalk(steps: seq<Step>, q: Req, r: Req, m: Message)
    requires Legal(Initial(), steps) && Run(Initial(), steps).issued < WRAP
    requires q < |Run(Initial(), steps).reqs| && r < |Run(Initial(), steps).reqs|
    requires m.header.system == Run(Initial(), steps).reqs[r].system && m in Run(Initial(), steps).reqs[q].delivered
    ensures q == r
  {
    RunKeeps(steps);
    var s := Run(Initial(), steps);
    assert BoxOk(s.reqs[q]);
    SystemsApart(s, q, r);
  }

  /** Who an arriving message goes to: a request gets it exactly when it is unanswered and its system bytes are
      the message's, and Recv gets a data message exactly when there is no such request. Stream, function and
      W-bit play no part. */
  lemma RoutingExact(steps: seq<Step>, m: Message, r: Req)
    requires Legal(Initial(), steps) && Run(Initial(), steps).issued < WRAP
    requires Run(Initial(), steps).reader.Idle? && m.header.stype !in {1, 5, 9}
    ensures var s := Run(Initial(), steps); var t := Next(s, Arrive(m));
            && (t.reader == ToRequest(r, m) <==> Unanswered(s, r) && s.reqs[r].system == m.header.system)
            && (t.reader == ToRecv(m) <==>
                  m.header.stype == 0
                  && forall q :: 0 <= q < |s.reqs| && s.reqs[q].system == m.header.system ==> !Unanswered(s, q))
  {
    RunKeeps(steps);
    RouteOne(Run(Initial(), steps), m, r);
  }

  lemma RouteOne(s: State, m: Message, r: Req)
    requires Inv(s) && s.issued < WRAP && s.reader.Idle? && !Handled(m)
    ensures var t := Next(s, Arrive(m));
            && (t.reader == ToRequest(r, m) <==> Unanswered(s, r) && s.reqs[r].system == m.header.system)
            && (t.reader == ToRecv(m) <==>
                  m.header.stype == 0
                  && forall q :: 0 <= q < |s.reqs| && s.reqs[q].system == m.header.system ==> !Unanswered(s, q))
  {
    hide Numbers, Boxes, Hands;
    if Unanswered(s, r) && s.reqs[r].system == m.header.system { assert InTable(s, r); }
    if m.header.system in s.c.pending {
      var q := s.c.pending[m.header.system];
      assert Unanswered(s, q) && s.reqs[q].system == m.header.system;
    } else {
      forall q | 0 <= q < |s.reqs| && s.reqs[q].system == m.header.system ensures !Unanswered(s, q) {
        assert Unanswered(s, q) ==> InTable(s, q);
      }
    }
  }

  /** A message bearing a request's system bytes that comes after the request gave up, was answered, or before it
      was registered is nobody's: as data it goes to Recv, like a message the peer sent of its own accord, and
      otherwise it is dropped. While the request is unanswered it goes there and nowhere else. */
  lemma LateReply(steps: seq<Step>, r: Req, m: Message)
    requires Legal(Initial(), steps) && Run(Initial(), steps).issued < WRAP && r < |Run(Initial(), steps).reqs|
    requires m.header.system == Run(Initial(), steps).reqs[r].system
    requires Run(Initial(), steps).reader.Idle? && m.header.stype !in {1, 5, 9}
    ensures var s := Run(Initial(), steps); var t := Next(s, Arrive(m));
            && (Unanswered(s, r) <==> t.reader == ToRequest(r, m))
            && (!Unanswered(s, r) <==> t == if m.header.stype == 0 then s.(reader := ToRecv(m)) else s)
  {
    RunKeeps(steps);
    var s := Run(Initial(), steps);
    RouteOne(s, m, r);
    hide Run, Legal, Boxes, Hands, Listed;
    if m.header.system in s.c.pending { SystemsApart(s, s.c.pending[m.header.system], r); }
  }

  /** A waiting request is completed by the first message that bears its system bytes, be it a reply or a message
      the peer started itself. */
  lemma FirstMessageCompletes(steps: seq<Step>, r: Req, m: Message)
    requires Legal(Initial(), steps) && Run(Initial(), steps).issued < WRAP && r < |Run(Initial(), steps).reqs|
    requires Run(Initial(), steps).reader.Idle? && m.header.stype !in {1, 5, 9}
    requires m.header.system == Run(Initial(), steps).reqs[r].system
    requires Run(Initial(), steps).reqs[r].stage.Waiting? && Run(Initial(), steps).reqs[r].delivered == []
    ensures exists t :: Reached(steps + [Arrive(m)] + [HandOver] + [Take(r)], t)
              && r < |t.reqs| && t.reqs[r].stage == Got(m) && t.recv == Run(Initial(), steps).recv
  {
    RunKeeps(steps);
    var s := Run(Initial(), steps);
    RouteOne(s, m, r);
    assert BoxOk(s.reqs[r]);
    assert Reached(steps, s);
    hide Reached, Run, Legal, Inv;
    Extend(steps, s, Arrive(m));
    s := Next(s, Arrive(m));
    Extend(steps + [Arrive(m)], s, HandOver);
    s := Next(s, HandOver);
    Extend(steps + [Arrive(m)] + [HandOver], s, Take(r));
    s := Next(s, Take(r));
  }

  /** Giving up takes no other request out of the table, and registering displaces none. */
  lemma OwnEntryOnly(steps: seq<Step>, r: Req, k: Word32)
    requires Legal(Initial(), steps) && Run(Initial(), steps).issued < WRAP
    requires k in Run(Initial(), steps).c.pending && Run(Initial(), steps).c.pending[k] != r
    ensures var s := Run(Initial(), steps);
            (Enabled(s, GiveUp(r)) ==>
               var p := Next(s, GiveUp(r)).c.pending; k in p && p[k] == s.c.pending[k])
            && (Enabled(s, Register(r)) ==>
                  k in Next(s, Register(r)).c.pending && Next(s, Register(r)).c.pending[k] == s.c.pending[k])
  {
    RunKeeps(steps);
    var s := Run(Initial(), steps);
    if r < |s.reqs| && s.reqs[r].system == k { SystemsApart(s, s.c.pending[k], r); }
  }

  /** A message the reader answers itself goes to nobody. */
  lemma ControlIsNotRouted(s: State, m: Message)
    requires s.reader.Idle? && m.header.stype in {1, 5, 9}
    ensures Next(s, Arrive(m)) == s
  {
  }

  // ----- What comes to Recv -----

  /** The messages the reader has taken in hand for Recv, in the order they arrived. */
  ghost function Unsolicited(steps: seq<Step>): seq<Message>
    requires Legal(Initial(), steps)
    decreases |steps|
  {
    if steps == [] then []
    else
      var step := steps[|steps| - 1];
      Unsolicited(steps[..|steps| - 1]) +
      if step.Arrive? && Run(Initial(), steps).reader == ToRecv(step.m) then [step.m] else []
  }

  /** The messages the user has taken, in order. */
  ghost function Taken(steps: seq<Step>): seq<Message>
    requires Legal(Initial(), steps)
    decreases |steps|
  {
    if steps == [] then []
    else
      var init := steps[..|steps| - 1];
      Taken(init) + if steps[|steps| - 1].Recv? then [Run(Initial(), init).recv[0]] else []
  }

  function InHand(s: State): seq<Message> { if s.reader.ToRecv? then [s.reader.m] else [] }

  lemma RecvStep(s: State, step: Step)
    requires Enabled(s, step)
    ensures var t := Next(s, step);
            s.recv + InHand(s) + (if step.Arrive? && t.reader == ToRecv(step.m) then [step.m] else []) ==
            (if step.Recv? then [s.recv[0]] else []) + t.recv + InHand(t)
    ensures |s.recv| <= 16 ==> |Next(s, step).recv| <= 16
  {
    if step.Recv? { assert s.recv == [s.recv[0]] + s.recv[1..]; }
  }

  lemma Regroup(taken: seq<Message>, a: seq<Message>, b: seq<Message>, came: seq<Message>,
                went: seq<Message>, c: seq<Message>, d: seq<Message>)
    requires a + b + came == went + c + d
    ensures taken + a + b + came == taken + went + c + d
  {
    assert taken + a + b + came == taken + (a + b + came);
    assert taken + went + c + d == taken + (went + c + d);
  }

  /** Nothing meant for Recv is lost, doubled or reordered: in every run what the user has taken, what waits, at most
      sixteen of it, and what the reader holds for it are the unsolicited messages as they arrived. */
  lemma {:induction false} RecvInOrder(steps: seq<Step>)
    requires Legal(Initial(), steps)
    ensures var s := Run(Initial(), steps); Taken(steps) + s.recv + InHand(s) == Unsolicited(steps) && |s.recv| <= 16
    decreases |steps|
  {
    if steps == [] {
    } else {
      var n := |steps| - 1;
      var s, t, step := Run(Initial(), steps[..n]), Run(Initial(), steps), steps[n];
      RecvInOrder(steps[..n]);
      RecvStep(s, step);
      var came := if step.Arrive? && t.reader == ToRecv(step.m) then [step.m] else [];
      var went := if step.Recv? then [s.recv[0]] else [];
      assert Unsolicited(steps) == Unsolicited(steps[..n]) + came && Taken(steps) == Taken(steps[..n]) + went;
      hide Next, Enabled, InHand, Unsolicited, Taken;
      Regroup(Taken(steps[..n]), s.recv, InHand(s), came, went, t.recv, InHand(t));
    }
  }

  // ----- What the system bytes cannot tell apart -----

  ghost predicate Reached(steps: seq<Step>, s: State) { Legal(Initial(), steps) && Run(Initial(), steps) == s }

  lemma Extend(steps: seq<Step>, s: State, step: Step)
    requires Reached(steps, s) && Enabled(s, step)
    ensures Reached(steps + [step], Next(s, step))
  {
    assert (steps + [step])[..|steps|] == steps;
  }

  lemma FirstRequest() returns (s: State)
    ensures Reached([] + [Begin] + [Register(0)], s)
    ensures s == State(Core(1, map[1 := 0]), 1, [Request(1, 1, Waiting, [], [])], Idle, [])
  {
    assert Reached([], Initial());
    hide Reached;
    Extend([], Initial(), Begin);
    s := Next(Initial(), Begin);
    Extend([] + [Begin], s, Register(0));
    s := Next(s, Register(0));
  }

  /** A message the peer starts itself, with whatever stream, function and W-bit, completes a request
      that happens to wait under the same system bytes. */
  lemma PrimaryTakenForReply(m: Message)
    requires m.header.stype == DATA && m.header.system == 1
    ensures exists s :: Reached([] + [Begin] + [Register(0)] + [Arrive(m)] + [HandOver] + [Take(0)], s)
              && |s.reqs| == 1 && s.reqs[0].stage == Got(m) && s.recv == []
  {
    var s := FirstRequest();
    hide Reached;
    var steps := [] + [Begin] + [Register(0)];
    Extend(steps, s, Arrive(m));
    s := Next(s, Arrive(m));
    Extend(steps + [Arrive(m)], s, HandOver);
    s := Next(s, HandOver);
    Extend(steps + [Arrive(m)] + [HandOver], s, Take(0));
    s := Next(s, Take(0));
  }

  function Plain(n: nat): seq<Step> { if n == 0 then [] else Plain(n - 1) + [Number] }

  lemma {:induction false} ManyNumbers(steps: seq<Step>, s: State, n: nat)
    requires Reached(steps, s) && s.c.counter == s.issued % WRAP
    ensures Reached(steps + Plain(n), s.(c := s.c.(counter := (s.issued + n) % WRAP), issued := s.issued + n))
  {
    hide Reached;
    if n == 0 {
      assert steps + Plain(0) == steps;
    } else {
      ManyNumbers(steps, s, n - 1);
      var t := s.(c := s.c.(counter := (s.issued + n - 1) % WRAP), issued := s.issued + n - 1);
      WrapStep(s.issued + n - 1);
      Extend(steps + Plain(n - 1), t, Number);
      assert steps + Plain(n - 1) + [Number] == steps + Plain(n);
    }
  }

  /** A run in which the counter comes round to the system bytes of a request that gave up. */
  function OneTurn(): seq<Step> {
    [] + [Begin] + [Register(0)] + [GiveUp(0)] + Plain(WRAP - 1) + [Begin] + [Register(1)]
  }

  /** After 2^32 numbers the late reply to the first request completes the second. */
  lemma LateReplyAfterWrap(m: Message)
    requires m.header.stype == DATA && m.header.system == 1
    ensures exists s :: Reached(OneTurn() + [Arrive(m)], s) && |s.reqs| == 2
              && s.reqs[0].stage == GaveUp && s.reqs[0].system == m.header.system && s.reader == ToRequest(1, m)
  {
    hide Reached, Plain;
    var s := FirstRequest();
    var steps := [] + [Begin] + [Register(0)] + [GiveUp(0)];
    Extend([] + [Begin] + [Register(0)], s, GiveUp(0));
    s := Next(s, GiveUp(0));
    ManyNumbers(steps, s, WRAP - 1);
    s := s.(c := s.c.(counter := 0), issued := WRAP);
    Extend(steps + Plain(WRAP - 1), s, Begin);
    s := Next(s, Begin);
    Extend(steps + Plain(WRAP - 1) + [Begin], s, Register(1));
    s := Next(s, Register(1));
    Extend(OneTurn(), s, Arrive(m));
    s := Next(s, Arrive(m));
  }

  // ----- The connection's own methods -----

  /** The next number is one no request has, within one turn of the counter. */
  lemma NewNumber(s: State, r: Req)
    requires Inv(s) && s.issued + 1 < WRAP && r < |s.reqs|
    ensures s.reqs[r].system != (s.c.counter + 1) % WRAP
  {
    hide Table, Boxes, Hands, Listed;
    WrapStep(s.issued);
  }

  /** The fields shared by callers and reader, with the protocol they are part of; `channels` counts the reply
      channels made, by which requests are told apart. Each method is one step. */
  class Conn {
    var nextSystem: Word32
    var pending: map<Word32, Req>
    var channels: Req
    ghost var proto: State

    ghost predicate Valid()
      reads this
    {
      proto.c == Core(nextSystem, pending) && channels == |proto.reqs| && Inv(proto)
    }

    constructor ()
      ensures Valid() && proto == Initial()
    {
      nextSystem, pending, channels := 0, map[], 0;
      proto := Initial();
    }

    /** System bytes for a message without reply: within one turn of the counter no request has them. */
    method NextSystemBytes() returns (system: Word32)
      requires Valid()
      modifies this`nextSystem, this`proto
      ensures Valid() && proto == Next(old(proto), Number)
      ensures proto.issued < WRAP ==> forall r :: 0 <= r < |proto.reqs| ==> proto.reqs[r].system != system
    {
      hide Inv;
      nextSystem := (nextSystem + 1) % WRAP;
      system := nextSystem;
      NextKeeps(proto, Number);
      if proto.issued + 1 < WRAP {
        forall r | 0 <= r < |proto.reqs| ensures proto.reqs[r].system != system { NewNumber(proto, r); }
      }
      proto := Next(proto, Number);
    }

    /** System bytes and a channel for a request: within one turn of the counter no other request has them. */
    method BeginRequest() returns (r: Req, system: Word32)
      requires Valid()
      modifies this`nextSystem, this`channels, this`proto
      ensures Valid() && proto == Next(old(proto), Begin)
      ensures r == |old(proto).reqs| && proto.reqs[r].system == system && proto.reqs[r].stage == Issued
      ensures proto.issued < WRAP ==> forall q :: 0 <= q < r ==> proto.reqs[q].system != system
    {
      hide Inv;
      nextSystem := (nextSystem + 1) % WRAP;
      system := nextSystem;
      r := channels;
      channels := channels + 1;
      NextKeeps(proto, Begin);
      if proto.issued + 1 < WRAP {
        forall q | 0 <= q < r ensures proto.reqs[q].system != system { NewNumber(proto, q); }
      }
      proto := Next(proto, Begin);
    }

    /** Enters a request in the table: from now on it is the one its system bytes lead to, and within one turn of
        the counter every other unanswered request keeps its entry. */
    method OpenRequest(r: Req, system: Word32)
      requires Valid() && r < |proto.reqs| && proto.reqs[r].stage.Issued? && system == proto.reqs[r].system
      modifies this`pending, this`proto
      ensures Valid() && proto == Next(old(proto), Register(r)) && Unanswered(proto, r)
      ensures InTable(proto, r)
      ensures proto.issued < WRAP ==>
                forall q :: 0 <= q < |proto.reqs| && Unanswered(proto, q) && !Carried(proto, q) ==> InTable(proto, q)
    {
      assert BoxOk(proto.reqs[r]);
      hide Inv;
      pending := pending[system := r];
      NextKeeps(proto, Register(r));
      proto := Next(proto, Register(r));
      ListedOf(proto);
    }

    /** Takes the entry of a request that gives up out of the table: no message reaches it any more, and within
        one turn of the counter every other unanswered request keeps its entry. */
    method ForgetRequest(r: Req, system: Word32)
      requires Valid() && r < |proto.reqs| && proto.reqs[r].stage.Waiting? && system == proto.reqs[r].system
      modifies this`pending, this`proto
      ensures Valid() && proto == Next(old(proto), GiveUp(r))
      ensures forall k :: k in pending ==> pending[k] != r
      ensures proto.issued < WRAP ==>
                forall q :: 0 <= q < |proto.reqs| && Unanswered(proto, q) && !Carried(proto, q) ==> InTable(proto, q)
    {
      hide Inv;
      pending := pending - {system};
      NextKeeps(proto, GiveUp(r));
      proto := Next(proto, GiveUp(r));
      ListedOf(proto);
      TableOf(proto);
    }

    /** The reader's lookup of a message it routes: a claimed message takes its request out of the table. */
    method Claim(m: Message) returns (r: Option<Req>)
      requires Valid() && proto.reader.Idle? && !Handled(m)
      modifies this`pending, this`proto
      ensures Valid() && proto == Next(old(proto), Arrive(m))
      ensures r.Some? <==> proto.reader.ToRequest?
      ensures r.Some? ==> proto.reader == ToRequest(r.value, m) && Unanswered(old(proto), r.value)
                          && proto.reqs[r.value].system == m.header.system && Enabled(proto, HandOver)
    {
      TableOf(proto);
      hide Inv, Table;
      NextKeeps(proto, Arrive(m));
      proto := Next(proto, Arrive(m));
      if m.header.system in pending {
        r := Some(pending[m.header.system]);
        pending := pending - {m.header.system};
        HandsOf(proto);
      } else {
        r := None;
      }
    }
  }

  lemma ListedOf(s: State)
    requires Inv(s)
    ensures Listed(s)
  {
  }

  lemma TableOf(s: State)
    requires Inv(s)
    ensures Table(s)
  {
  }

  lemma HandsOf(s: State)
    requires Inv(s) && s.reader.ToRequest?
    ensures Enabled(s, HandOver)
  {
    assert BoxOk(s.reqs[s.reader.r]);
  }
}
