/** The audit delivery engine: emitters, the main loop, one worker per remote
    sink and Close, interleaved step by step. */
module Engine {
  import opened Text

  type Event = string

  const ENGINE_QUEUE := 1024
  const SINK_QUEUE := 4096

  datatype Fate = Delivered | WriteFailed | DroppedLate

  datatype Handled = Handled(event: Event, fate: Fate)

  /** A remote sink: its bounded queue, whether the queue was closed, for each
      event offered so far whether it was admitted or dropped because the queue
      was full, what the worker did, and the event in the worker's hand. */
  datatype Remote = Remote(queue: seq<Event>, closed: bool, verdicts: seq<bool>, out: seq<Handled>, hand: Option<Event>)

  /** Where the main loop is: writing event to synchronous sink i next, or
      offering it to remote sink i next. */
  datatype Loop = Waiting | Writing(event: Event, i: nat) | Offering(event: Event, i: nat) | LoopDone

  /** senders are Emit calls that hold the read lock and passed the closed check;
      accepted holds every event that entered the queue, in order. */
  datatype Sys = Sys(ch: seq<Event>, chClosed: bool, closed: bool, senders: map<nat, Event>,
                     accepted: seq<Event>, loop: Loop, sinks: seq<seq<Event>>, remotes: seq<Remote>, cancelled: bool)

  datatype Step =
    | Enter(id: nat, event: Event)   // Emit: read lock, closed check
    | Send(id: nat)                  // Emit: ch <- event, read unlock
    | CloseChannel                   // Close: write lock, closed, close(ch)
    | Take                           // loop: next event
    | WriteSync                      // loop: next synchronous sink
    | StartOffers
    | Offer                          // loop: next remote queue
    | EndEvent
    | EndLoop
    | CloseQueue(r: nat)             // Close, after the loop has ended
    | Cancel                         // Close: drain timeout
    | Pick(r: nat)                   // worker: next event
    | Settle(r: nat, fate: Fate)     // worker: written, failed, or given up

  predicate Enabled(s: Sys, step: Step) {
    match step
    case Enter(id, _) => id !in s.senders
    case Send(id) => id in s.senders && |s.ch| < ENGINE_QUEUE
    case CloseChannel => s.senders == map[] && !s.closed       // the write lock waits for all read locks
    case Take => s.loop.Waiting? && s.ch != []
    case WriteSync => s.loop.Writing? && s.loop.i < |s.sinks|
    case StartOffers => s.loop.Writing? && s.loop.i >= |s.sinks|
    case Offer => s.loop.Offering? && s.loop.i < |s.remotes|
    case EndEvent => s.loop.Offering? && s.loop.i >= |s.remotes|
    case EndLoop => s.loop.Waiting? && s.ch == [] && s.chClosed
    case CloseQueue(r) => r < |s.remotes| && s.loop.LoopDone? && s.closed
    case Cancel => s.loop.LoopDone? && s.closed
    case Pick(r) => r < |s.remotes| && s.remotes[r].hand == None && s.remotes[r].queue != []
    case Settle(r, fate) =>
      r < |s.remotes| && s.remotes[r].hand.Some? && (fate.DroppedLate? ==> s.cancelled)
  }

  function SetRemote(s: Sys, r: nat, q: Remote): Sys
    requires r < |s.remotes|
  {
    s.(remotes := s.remotes[r := q])
  }

  function Do(s: Sys, step: Step): Sys
    requires Enabled(s, step)
  {
    match step
    case Enter(id, event) => if s.closed then s else s.(senders := s.senders[id := event])
    case Send(id) =>
      s.(ch := s.ch + [s.senders[id]], accepted := s.accepted + [s.senders[id]], senders := s.senders - {id})
    case CloseChannel => s.(closed := true, chClosed := true)
    case Take => s.(loop := Writing(s.ch[0], 0), ch := s.ch[1..])
    case WriteSync =>
      var i, e := s.loop.i, s.loop.event;
      s.(sinks := s.sinks[i := s.sinks[i] + [e]], loop := Writing(e, i + 1))
    case StartOffers => s.(loop := Offering(s.loop.event, 0))
    case Offer =>
      var i, e := s.loop.i, s.loop.event;
      var q := s.remotes[i];
      var q' := if |q.queue| < SINK_QUEUE
                then q.(queue := q.queue + [e], verdicts := q.verdicts + [true])
                else q.(verdicts := q.verdicts + [false]);
      SetRemote(s, i, q').(loop := Offering(e, i + 1))
    case EndEvent => s.(loop := Waiting)
    case EndLoop => s.(loop := LoopDone)
    case CloseQueue(r) => SetRemote(s, r, s.remotes[r].(closed := true))
    case Cancel => s.(cancelled := true)
    case Pick(r) =>
      var q := s.remotes[r];
      SetRemote(s, r, q.(hand := Some(q.queue[0]), queue := q.queue[1..]))
    case Settle(r, fate) =>
      var q := s.remotes[r];
      SetRemote(s, r, q.(hand := None, out := q.out + [Handled(q.hand.value, fate)]))
  }

  predicate Initial(s: Sys) {
    && s.ch == [] && !s.chClosed && !s.closed && s.senders == map[] && s.accepted == []
    && s.loop == Waiting && !s.cancelled
    && (forall i | 0 <= i < |s.sinks| :: s.sinks[i] == [])
    && (forall r | 0 <= r < |s.remotes| :: s.remotes[r] == Remote([], false, [], [], None))
  }

  ghost predicate Run(trace: seq<Sys>) {
    && trace != [] && Initial(trace[0])
    && forall i | 0 <= i < |trace| - 1 :: CanStep(trace[i], trace[i + 1])
  }

  ghost predicate CanStep(s: Sys, s': Sys) {
    exists step :: Enabled(s, step) && s' == Do(s, step)
  }

  // ---- Invariant --------------------------------------------------------------------------

  /** The event the loop is working on. */
  function InLoop(l: Loop): seq<Event> {
    if l.Writing? || l.Offering? then [l.event] else []
  }

  /** How many accepted events the loop has finished. */
  function Finished(s: Sys): int { |s.accepted| - |s.ch| - |InLoop(s.loop)| }

  /** How many events synchronous sink i, and remote sink r, have been given. */
  function Given(s: Sys, i: int): int {
    Finished(s) + (if s.loop.Offering? || (s.loop.Writing? && i < s.loop.i) then 1 else 0)
  }

  function Offered(s: Sys, r: int): int {
    Finished(s) + (if s.loop.Offering? && r < s.loop.i then 1 else 0)
  }

  /** The events a remote queue admitted, in order. */
  function Admitted(es: seq<Event>, verdicts: seq<bool>): seq<Event>
    requires |es| == |verdicts|
  {
    if es == [] then []
    else
      var n := |es| - 1;
      Admitted(es[..n], verdicts[..n]) + (if verdicts[n] then [es[n]] else [])
  }

  function Events(out: seq<Handled>): seq<Event> {
    seq(|out|, i requires 0 <= i < |out| => out[i].event)
  }

  function Hand(q: Remote): seq<Event> { if q.hand.Some? then [q.hand.value] else [] }

  predicate RemoteOk(accepted: seq<Event>, offered: int, q: Remote) {
    && |q.queue| <= SINK_QUEUE
    && 0 <= offered <= |accepted| && |q.verdicts| == offered
    && Admitted(accepted[..offered], q.verdicts) == Events(q.out) + Hand(q) + q.queue
  }

  /** The queue and the loop hold the newest accepted events. */
  predicate QueueOk(s: Sys) {
    && s.closed == s.chClosed && (s.senders != map[] ==> !s.closed)
    && |s.ch| <= ENGINE_QUEUE && 0 <= Finished(s)
    && s.accepted[Finished(s)..] == InLoop(s.loop) + s.ch
    && (s.loop.Writing? ==> s.loop.i <= |s.sinks|)
    && (s.loop.Offering? ==> s.loop.i <= |s.remotes|)
    && (s.loop.LoopDone? ==> s.chClosed && s.ch == [])
  }

  predicate SinkAt(s: Sys, i: int) {
    0 <= i < |s.sinks| && 0 <= Given(s, i) <= |s.accepted| && s.sinks[i] == s.accepted[..Given(s, i)]
  }

  predicate SinksOk(s: Sys) {
    forall i | 0 <= i < |s.sinks| :: SinkAt(s, i)
  }

  predicate RemoteAt(s: Sys, r: int) {
    && 0 <= r < |s.remotes| && RemoteOk(s.accepted, Offered(s, r), s.remotes[r])
    && (s.remotes[r].closed ==> s.loop.LoopDone?)
  }

  predicate RemotesOk(s: Sys) {
    forall r | 0 <= r < |s.remotes| :: RemoteAt(s, r)
  }

  predicate Inv(s: Sys) { QueueOk(s) && SinksOk(s) && RemotesOk(s) }

  // ---- Each step keeps the invariant -----------------------------------------------------------

  /** Sinks and remotes do not notice a step that leaves what they were given. */
  lemma SinksSame(s: Sys, s': Sys)
    requires SinksOk(s) && s'.sinks == s.sinks && s'.accepted == s.accepted
    requires forall i | 0 <= i < |s.sinks| :: Given(s', i) == Given(s, i)
    ensures SinksOk(s')
  {
    forall i | 0 <= i < |s'.sinks| ensures SinkAt(s', i) {
      assert SinkAt(s, i);
    }
  }

  lemma RemotesSame(s: Sys, s': Sys)
    requires RemotesOk(s) && s'.remotes == s.remotes && s'.accepted == s.accepted
    requires s.loop.LoopDone? ==> s'.loop.LoopDone?
    requires forall r | 0 <= r < |s.remotes| :: Offered(s', r) == Offered(s, r)
    ensures RemotesOk(s')
  {
    forall r | 0 <= r < |s'.remotes| ensures RemoteAt(s', r) {
      assert RemoteAt(s, r);
    }
  }

  lemma RemoteLater(accepted: seq<Event>, e: Event, offered: int, q: Remote)
    requires RemoteOk(accepted, offered, q)
    ensures RemoteOk(accepted + [e], offered, q)
  {
    assert (accepted + [e])[..offered] == accepted[..offered];
  }

  lemma SendKeeps(s: Sys, id: nat)
    requires Inv(s) && Enabled(s, Send(id))
    ensures Inv(Do(s, Send(id)))
  {
    var s', e := Do(s, Send(id)), s.senders[id];
    assert s'.accepted[Finished(s)..] == s.accepted[Finished(s)..] + [e];
    forall i | 0 <= i < |s'.sinks| ensures SinkAt(s', i) {
      assert SinkAt(s, i);
    }
    forall r | 0 <= r < |s'.remotes| ensures RemoteAt(s', r) {
      assert RemoteAt(s, r);
      RemoteLater(s.accepted, e, Offered(s, r), s.remotes[r]);
    }
  }

  lemma TakeKeeps(s: Sys)
    requires Inv(s) && Enabled(s, Take)
    ensures Inv(Do(s, Take))
  {
    var s' := Do(s, Take);
    assert InLoop(s'.loop) + s'.ch == s.ch;
    SinksSame(s, s');
    RemotesSame(s, s');
  }

  lemma StartOffersKeeps(s: Sys)
    requires Inv(s) && Enabled(s, StartOffers)
    ensures Inv(Do(s, StartOffers))
  {
    var s' := Do(s, StartOffers);
    SinksSame(s, s');
    RemotesSame(s, s');
  }

  lemma EndEventKeeps(s: Sys)
    requires Inv(s) && Enabled(s, EndEvent)
    ensures Inv(Do(s, EndEvent))
  {
    var s' := Do(s, EndEvent);
    assert s.accepted[Finished(s)..][1..] == s.accepted[Finished(s')..];
    SinksSame(s, s');
    RemotesSame(s, s');
  }

  lemma EndLoopKeeps(s: Sys)
    requires Inv(s) && Enabled(s, EndLoop)
    ensures Inv(Do(s, EndLoop))
  {
    var s' := Do(s, EndLoop);
    SinksSame(s, s');
    RemotesSame(s, s');
  }

  lemma WriteSyncKeeps(s: Sys)
    requires Inv(s) && Enabled(s, WriteSync)
    ensures Inv(Do(s, WriteSync))
  {
    var s', n := Do(s, WriteSync), Finished(s);
    assert s.accepted[n..][0] == s.accepted[n] == s.loop.event;
    forall i | 0 <= i < |s'.sinks| ensures SinkAt(s', i) {
      assert SinkAt(s, i);
      assert i == s.loop.i ==> s.accepted[..n] + [s.accepted[n]] == s.accepted[..n + 1];
    }
    RemotesSame(s, s');
  }

  lemma OfferOne(accepted: seq<Event>, n: nat, q: Remote)
    requires n < |accepted| && RemoteOk(accepted, n, q)
    ensures |q.queue| < SINK_QUEUE ==>
              RemoteOk(accepted, n + 1, q.(queue := q.queue + [accepted[n]], verdicts := q.verdicts + [true]))
    ensures RemoteOk(accepted, n + 1, q.(verdicts := q.verdicts + [false]))
  {
    AdmitOne(accepted, n, q.verdicts, true);
    AdmitOne(accepted, n, q.verdicts, false);
    var handled := Events(q.out) + Hand(q);
    assert handled + q.queue + [accepted[n]] == handled + (q.queue + [accepted[n]]);
  }

  lemma AdmitOne(accepted: seq<Event>, n: nat, verdicts: seq<bool>, verdict: bool)
    requires n < |accepted| && |verdicts| == n
    ensures Admitted(accepted[..n + 1], verdicts + [verdict]) ==
            Admitted(accepted[..n], verdicts) + (if verdict then [accepted[n]] else [])
  {
    assert accepted[..n + 1][..n] == accepted[..n];
    assert (verdicts + [verdict])[..n] == verdicts;
  }

  lemma OfferedOne(s: Sys)
    requires Inv(s) && Enabled(s, Offer)
    ensures RemoteAt(Do(s, Offer), s.loop.i)
  {
    var n := Finished(s);
    assert RemoteAt(s, s.loop.i);
    assert s.accepted[n..][0] == s.accepted[n] == s.loop.event;
    OfferOne(s.accepted, n, s.remotes[s.loop.i]);
  }

  lemma OfferRemotes(s: Sys)
    requires Inv(s) && Enabled(s, Offer)
    ensures RemotesOk(Do(s, Offer))
  {
    var s' := Do(s, Offer);
    OfferedOne(s);
    forall r | 0 <= r < |s'.remotes| && r != s.loop.i ensures RemoteAt(s', r) {
      assert RemoteAt(s, r);
    }
  }

  lemma OfferKeeps(s: Sys)
    requires Inv(s) && Enabled(s, Offer)
    ensures Inv(Do(s, Offer))
  {
    OfferRemotes(s);
    SinksSame(s, Do(s, Offer));
  }

  /** A worker's step changes one remote and nothing the loop looks at. */
  lemma OneRemoteMoves(s: Sys, r: nat, q: Remote)
    requires Inv(s) && r < |s.remotes| && RemoteOk(s.accepted, Offered(s, r), q)
    requires q.closed ==> s.loop.LoopDone?
    ensures Inv(SetRemote(s, r, q))
  {
    var s' := SetRemote(s, r, q);
    SinksSame(s, s');
    forall j | 0 <= j < |s'.remotes| ensures RemoteAt(s', j) {
      assert RemoteAt(s, j);
    }
  }

  lemma TakeHead<T>(a: seq<T>, q: seq<T>)
    requires q != []
    ensures a + [] + q == a + [q[0]] + q[1..]
  {
    assert q == [q[0]] + q[1..];
  }

  lemma PickOk(accepted: seq<Event>, offered: int, q: Remote)
    requires RemoteOk(accepted, offered, q) && q.hand == None && q.queue != []
    ensures RemoteOk(accepted, offered, q.(hand := Some(q.queue[0]), queue := q.queue[1..]))
  {
    TakeHead(Events(q.out), q.queue);
  }

  lemma PickKeeps(s: Sys, r: nat)
    requires Inv(s) && Enabled(s, Pick(r))
    ensures Inv(Do(s, Pick(r)))
  {
    var q := s.remotes[r];
    assert RemoteAt(s, r);
    PickOk(s.accepted, Offered(s, r), q);
    OneRemoteMoves(s, r, q.(hand := Some(q.queue[0]), queue := q.queue[1..]));
  }

  lemma EventsSnoc(out: seq<Handled>, e: Event, fate: Fate)
    ensures Events(out + [Handled(e, fate)]) == Events(out) + [e]
  {
  }

  lemma SettleOk(accepted: seq<Event>, offered: int, q: Remote, fate: Fate)
    requires RemoteOk(accepted, offered, q) && q.hand.Some?
    ensures RemoteOk(accepted, offered, q.(hand := None, out := q.out + [Handled(q.hand.value, fate)]))
  {
    EventsSnoc(q.out, q.hand.value, fate);
    assert Events(q.out) + [q.hand.value] + [] == Events(q.out) + [q.hand.value];
  }

  lemma SettleKeeps(s: Sys, r: nat, fate: Fate)
    requires Inv(s) && Enabled(s, Settle(r, fate))
    ensures Inv(Do(s, Settle(r, fate)))
  {
    var q := s.remotes[r];
    assert RemoteAt(s, r);
    SettleOk(s.accepted, Offered(s, r), q, fate);
    OneRemoteMoves(s, r, q.(hand := None, out := q.out + [Handled(q.hand.value, fate)]));
  }

  lemma CloseQueueKeeps(s: Sys, r: nat)
    requires Inv(s) && Enabled(s, CloseQueue(r))
    ensures Inv(Do(s, CloseQueue(r)))
  {
    assert RemoteAt(s, r);
    OneRemoteMoves(s, r, s.remotes[r].(closed := true));
  }

  /** Steps that only touch the flags and the senders. */
  lemma FlagKeeps(s: Sys, step: Step)
    requires Inv(s) && Enabled(s, step) && (step.Enter? || step.CloseChannel? || step.Cancel?)
    ensures Inv(Do(s, step))
  {
    SinksSame(s, Do(s, step));
    RemotesSame(s, Do(s, step));
  }

  lemma StepKeeps(s: Sys, step: Step)
    requires Inv(s) && Enabled(s, step)
    ensures Inv(Do(s, step))
  {
    match step
    case Send(id) => SendKeeps(s, id);
    case Take => TakeKeeps(s);
    case WriteSync => WriteSyncKeeps(s);
    case StartOffers => StartOffersKeeps(s);
    case Offer => OfferKeeps(s);
    case EndEvent => EndEventKeeps(s);
    case EndLoop => EndLoopKeeps(s);
    case Pick(r) => PickKeeps(s, r);
    case Settle(r, fate) => SettleKeeps(s, r, fate);
    case CloseQueue(r) => CloseQueueKeeps(s, r);
    case _ => FlagKeeps(s, step);
  }

  lemma {:induction false} RunKeeps(trace: seq<Sys>)
    requires Run(trace)
    ensures Inv(trace[|trace| - 1])
  {
    if |trace| == 1 {
      forall r | 0 <= r < |trace[0].remotes| ensures RemoteOk([], 0, trace[0].remotes[r]) {
      }
    } else {
      var n := |trace| - 2;
      RunKeeps(trace[..n + 1]);
      assert CanStep(trace[n], trace[n + 1]);
      var step :| Enabled(trace[n], step) && trace[n + 1] == Do(trace[n], step);
      StepKeeps(trace[n], step);
    }
  }

  // ---- What the engine promises ------------------------------------------------------------------

  /** No send on a closed channel: neither an emitter nor the loop ever reaches
      its send with the channel closed. */
  lemma NoSendOnClosed(trace: seq<Sys>)
    requires Run(trace)
    ensures var s := trace[|trace| - 1];
            && (forall id | Enabled(s, Send(id)) :: !s.chClosed)
            && (Enabled(s, Offer) ==> !s.remotes[s.loop.i].closed)
  {
    RunKeeps(trace);
    var s := trace[|trace| - 1];
    assert Enabled(s, Offer) ==> RemoteAt(s, s.loop.i);
  }

  /** Every sink has received, in order and once each, a prefix of what was
      accepted; when the loop has ended it is everything. */
  lemma SynchronousDelivery(trace: seq<Sys>)
    requires Run(trace)
    ensures var s := trace[|trace| - 1];
            forall i | 0 <= i < |s.sinks| ::
              s.sinks[i] <= s.accepted && (s.loop.LoopDone? ==> s.sinks[i] == s.accepted)
  {
    RunKeeps(trace);
    var s := trace[|trace| - 1];
    forall i | 0 <= i < |s.sinks|
      ensures s.sinks[i] <= s.accepted && (s.loop.LoopDone? ==> s.sinks[i] == s.accepted)
    {
      assert SinkAt(s, i);
      assert s.accepted[..|s.accepted|] == s.accepted;
    }
  }

  function CountFate(out: seq<Handled>, f: Fate): nat {
    if out == [] then 0
    else CountFate(out[..|out| - 1], f) + (if out[|out| - 1].fate == f then 1 else 0)
  }

  function CountDropped(verdicts: seq<bool>): nat {
    if verdicts == [] then 0
    else CountDropped(verdicts[..|verdicts| - 1]) + (if verdicts[|verdicts| - 1] then 0 else 1)
  }

  lemma {:induction false} AdmittedCount(es: seq<Event>, verdicts: seq<bool>)
    requires |es| == |verdicts|
    ensures |es| == |Admitted(es, verdicts)| + CountDropped(verdicts)
  {
    if es != [] {
      AdmittedCount(es[..|es| - 1], verdicts[..|es| - 1]);
    }
  }

  lemma {:induction false} FateCount(out: seq<Handled>)
    ensures |out| == CountFate(out, Delivered) + CountFate(out, WriteFailed) + CountFate(out, DroppedLate)
  {
    if out != [] {
      FateCount(out[..|out| - 1]);
    }
  }

  /** Remote delivery: what the worker handled, holds and has queued is, in
      order, exactly what its queue admitted; and every event offered so far is
      delivered, failed, dropped, queued or in hand. Once the loop has ended
      that is every accepted event. */
  lemma RemoteDelivery(trace: seq<Sys>, r: nat)
    requires Run(trace) && r < |trace[|trace| - 1].remotes|
    ensures var s := trace[|trace| - 1];
            var q := s.remotes[r];
            var n := Offered(s, r);
            && 0 <= n <= |s.accepted| && |q.verdicts| == n
            && Admitted(s.accepted[..n], q.verdicts) == Events(q.out) + Hand(q) + q.queue
            && n == CountFate(q.out, Delivered) + CountFate(q.out, WriteFailed)
                    + (CountFate(q.out, DroppedLate) + CountDropped(q.verdicts))
                    + |q.queue| + |Hand(q)|
            && (s.loop.LoopDone? ==> n == |s.accepted|)
  {
    RunKeeps(trace);
    var s := trace[|trace| - 1];
    var q := s.remotes[r];
    assert RemoteAt(s, r);
    AdmittedCount(s.accepted[..Offered(s, r)], q.verdicts);
    FateCount(q.out);
  }

  /** A blocked Emit is never stuck: if its send cannot proceed, the loop can. */
  lemma BlockedSenderProgress(trace: seq<Sys>)
    requires Run(trace) && trace[|trace| - 1].senders != map[]
    ensures var s := trace[|trace| - 1];
            (forall id | id in s.senders :: Enabled(s, Send(id)))
            || Enabled(s, Take) || Enabled(s, WriteSync) || Enabled(s, StartOffers)
            || Enabled(s, Offer) || Enabled(s, EndEvent)
  {
    RunKeeps(trace);
  }
}
