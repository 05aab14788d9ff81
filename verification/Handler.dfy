/**
 The request and response protocol between chaincode and peer (shim/handler.go): any number of goroutines call the
 peer, one loop hands the peer's responses back, and a mutex guards the map of response channels.
 */
module Handler {
  import opened Prelude

  /** `transactionContextID`. */
  function Ctx(channel: Bytes, txid: Bytes): Bytes {
    channel + txid
  }

  predicate Suffix(t: Bytes, u: Bytes) {
    |t| <= |u| && u[|u| - |t|..] == t
  }

  lemma ShorterIsSuffix(c: Bytes, t: Bytes, d: Bytes, u: Bytes)
    requires Ctx(c, t) == Ctx(d, u) && |t| <= |u|
    ensures Suffix(t, u) && (t == u ==> c == d)
  {
    var ctx := Ctx(c, t);
    assert |c| + |t| == |ctx| == |d| + |u|;
    assert c == ctx[..|c|] && d == ctx[..|d|];
    assert t == ctx[|c|..] && u == ctx[|d|..];
    assert u[|u| - |t|..] == ctx[|d| + (|u| - |t|)..];
  }

  /**
   Exactly when two tx ids can collide: on some two channels they have the same context although they are not the
   same transaction if and only if they differ and one is a suffix of the other.
   */
  lemma CollidesExactly(t: Bytes, u: Bytes)
    ensures (exists c, d :: !(c == d && t == u) && Ctx(c, t) == Ctx(d, u)) <==> t != u && (Suffix(t, u) || Suffix(u, t))
  {
    if c, d :| !(c == d && t == u) && Ctx(c, t) == Ctx(d, u) {
      if |t| <= |u| {
        ShorterIsSuffix(c, t, d, u);
      } else {
        ShorterIsSuffix(d, u, c, t);
      }
    }
    if t != u && Suffix(t, u) {
      assert Ctx(u[..|u| - |t|], t) == Ctx([], u);
    } else if t != u && Suffix(u, t) {
      assert Ctx([], t) == Ctx(t[..|t| - |u|], u);
    }
  }

  /** So with tx ids of one length, contexts name channel and transaction. */
  lemma CtxInjective(c: Bytes, t: Bytes, d: Bytes, u: Bytes)
    requires |t| == |u|
    ensures Ctx(c, t) == Ctx(d, u) <==> c == d && t == u
  {
    CollidesExactly(t, u);
    assert Suffix(t, u) || Suffix(u, t) ==> t == u;
  }

  /** A request; the response to it carries the same channel and tx id, and `serial` says which request it answers. */
  datatype Msg = Msg(channel: Bytes, txid: Bytes, serial: nat) {
    function Context(): Bytes {
      Ctx(channel, txid)
    }
  }

  type Goroutine = nat
  type Chan = nat

  datatype Call = Call(req: Msg, chan: Chan)

  /** Where a goroutine is inside `callPeerWithChaincodeMsg`. */
  datatype Phase = Opened | Waiting | Closing(result: Option<Msg>)

  datatype Completed = Completed(req: Msg, result: Option<Msg>)

  /**
   The handler's map; the calls in flight and how far each is; the requests the peer has not answered; the responses
   on their way, in stream order; and the response with which the loop is blocked on a channel, holding the mutex.
   */
  datatype System = System(
    channels: map<Bytes, Chan>,
    calls: map<Goroutine, Call>,
    phase: map<Goroutine, Phase>,
    wire: multiset<Msg>,
    inbound: seq<Msg>,
    blocked: Option<(Chan, Msg)>,
    undelivered: seq<Msg>,
    completed: seq<Completed>,
    nextChan: nat,
    nextSerial: nat)

  const START: System := System(map[], map[], map[], multiset{}, [], None, [], [], 0, 0)

  datatype Step =
    | Open(g: Goroutine, channel: Bytes, txid: Bytes)   // createResponseChannel
    | Send(g: Goroutine, ok: bool)                      // serialSend
    | Answer(msg: Msg)                                  // the peer
    | Repeat(msg: Msg)                                  // the peer answers what is not outstanding
    | Receive                                           // handleResponse, up to its channel send
    | Rendezvous(g: Goroutine)                          // that send meets the goroutine's receive
    | Close(g: Goroutine)                               // deleteResponseChannel

  ghost predicate Enabled(s: System, step: Step) {
    match step
    case Open(g, _, _) => g !in s.calls && s.blocked.None?
    case Send(g, _) => InPhase(s, g) && s.phase[g].Opened?
    case Answer(m) => m in s.wire
    case Repeat(_) => true
    case Receive => |s.inbound| > 0 && s.blocked.None?
    case Rendezvous(g) => InPhase(s, g) && s.phase[g].Waiting? && s.blocked.Some? && s.blocked.value.0 == s.calls[g].chan
    case Close(g) => InPhase(s, g) && s.phase[g].Closing? && s.blocked.None?
  }

  ghost predicate InPhase(s: System, g: Goroutine) {
    g in s.calls && g in s.phase
  }

  ghost function Apply(s: System, step: Step): System
    requires Enabled(s, step)
  {
    match step
    case Open(g, channel, txid) => DoOpen(s, g, Msg(channel, txid, s.nextSerial))
    case Send(g, ok) =>
      if ok then s.(phase := s.phase[g := Waiting], wire := s.wire + multiset{s.calls[g].req})
      else s.(phase := s.phase[g := Closing(None)])
    case Answer(m) => s.(wire := s.wire - multiset{m}, inbound := s.inbound + [m])
    case Repeat(m) => s.(inbound := s.inbound + [m])
    case Receive => DoReceive(s, s.inbound[0], s.inbound[1..])
    case Rendezvous(g) => s.(phase := s.phase[g := Closing(Some(s.blocked.value.1))], blocked := None)
    case Close(g) => DoClose(s, g)
  }

  /** A request whose context is in the map is refused ("channel exists") and changes nothing. */
  ghost function DoOpen(s: System, g: Goroutine, req: Msg): System {
    if req.Context() in s.channels then s
    else
      s.(channels := s.channels[req.Context() := s.nextChan], calls := s.calls[g := Call(req, s.nextChan)],
         phase := s.phase[g := Opened], nextChan := s.nextChan + 1, nextSerial := s.nextSerial + 1)
  }

  ghost function DoReceive(s: System, m: Msg, rest: seq<Msg>): System {
    if m.Context() !in s.channels then s.(inbound := rest, undelivered := s.undelivered + [m])
    else s.(inbound := rest, blocked := Some((s.channels[m.Context()], m)))
  }

  ghost function DoClose(s: System, g: Goroutine): System
    requires InPhase(s, g) && s.phase[g].Closing?
  {
    var req := s.calls[g].req;
    s.(channels := s.channels - {req.Context()}, calls := s.calls - {g}, phase := s.phase - {g},
       completed := s.completed + [Completed(req, s.phase[g].result)])
  }

  /** The state after a run, or None if the steps are not a run. */
  ghost function Run(s: System, steps: seq<Step>): Option<System>
    decreases |steps|
  {
    if |steps| == 0 then Some(s)
    else if !Enabled(s, steps[0]) then None
    else Run(Apply(s, steps[0]), steps[1..])
  }

  // ---------- what every interleaving keeps ----------

  type Calls = map<Goroutine, Call>

  /** The map holds exactly the contexts in flight, each with the channel of the one call that has it. */
  ghost predicate MapExact(channels: map<Bytes, Chan>, calls: Calls) {
    && (forall g :: g in calls ==> calls[g].req.Context() in channels && channels[calls[g].req.Context()] == calls[g].chan)
    && (forall c :: c in channels ==> exists g :: g in calls && calls[g].req.Context() == c)
  }

  /** No two calls in flight share a context, a channel or a request. */
  ghost predicate Apart(calls: Calls) {
    forall g, h :: g in calls && h in calls && g != h ==>
                     && calls[g].req.Context() != calls[h].req.Context()
                     && calls[g].chan != calls[h].chan
                     && calls[g].req.serial != calls[h].req.serial
  }

  ghost predicate Numbered(calls: Calls, nextChan: nat, nextSerial: nat) {
    forall g :: g in calls ==> calls[g].chan < nextChan && calls[g].req.serial < nextSerial
  }

  /** The requests of the calls that wait for a response. */
  ghost function Pending(calls: Calls, phase: map<Goroutine, Phase>): set<Msg> {
    set g | g in calls && g in phase && phase[g].Waiting? :: calls[g].req
  }

  /** Everything on its way: unanswered requests and responses that have not reached a goroutine. */
  ghost function UnderWay(s: System): multiset<Msg> {
    s.wire + multiset(s.inbound) + (if s.blocked.Some? then multiset{s.blocked.value.1} else multiset{})
  }

  /** A blocked response is at the channel of its own context. */
  ghost predicate BlockedRight(s: System) {
    s.blocked.Some? ==>
      var (chan, m) := s.blocked.value;
      m.Context() in s.channels && s.channels[m.Context()] == chan
  }

  /** A call that got a response got the response to its own request. */
  ghost predicate ClosingRight(calls: Calls, phase: map<Goroutine, Phase>) {
    forall g :: g in calls && g in phase && phase[g].Closing? && phase[g].result.Some? ==> phase[g].result.value == calls[g].req
  }

  /** Each request was completed at most once, and by its own response if by any. */
  ghost predicate CompletedRight(completed: seq<Completed>, calls: Calls, nextSerial: nat) {
    && (forall i :: 0 <= i < |completed| ==> completed[i].req.serial < nextSerial)
    && (forall i :: 0 <= i < |completed| && completed[i].result.Some? ==> completed[i].result.value == completed[i].req)
    && (forall i, j :: 0 <= i < j < |completed| ==> completed[i].req.serial != completed[j].req.serial)
    && (forall i, g :: 0 <= i < |completed| && g in calls ==> completed[i].req.serial != calls[g].req.serial)
  }

  /** What holds whatever the peer sends. */
  ghost predicate Orderly(s: System) {
    && s.calls.Keys == s.phase.Keys
    && MapExact(s.channels, s.calls) && Apart(s.calls) && Numbered(s.calls, s.nextChan, s.nextSerial)
    && BlockedRight(s)
  }

  /** Every waiting call has exactly one message under way, there is no other message, and all go to the right call. */
  ghost predicate Correlated(s: System) {
    && Orderly(s)
    && CompletedRight(s.completed, s.calls, s.nextSerial) && ClosingRight(s.calls, s.phase)
    && UnderWay(s) == multiset(Pending(s.calls, s.phase))
    && |s.undelivered| == 0
  }

  lemma Waiter(s: System, m: Msg) returns (g: Goroutine)
    requires Correlated(s) && m in UnderWay(s)
    ensures InPhase(s, g) && s.phase[g].Waiting? && s.calls[g].req == m
  {
    hide Ctx;
    hide MapExact, Apart, Numbered, CompletedRight, BlockedRight, ClosingRight, UnderWay;
    assert m in Pending(s.calls, s.phase);
    g :| g in s.calls && g in s.phase && s.phase[g].Waiting? && s.calls[g].req == m;
  }

  lemma OpenMap(channels: map<Bytes, Chan>, calls: Calls, g: Goroutine, call: Call)
    requires MapExact(channels, calls) && g !in calls && call.req.Context() !in channels
    ensures MapExact(channels[call.req.Context() := call.chan], calls[g := call])
  {
    hide Ctx;
    var channels', calls' := channels[call.req.Context() := call.chan], calls[g := call];
    forall c | c in channels' ensures exists h :: h in calls' && calls'[h].req.Context() == c {
      if c == call.req.Context() {
        assert calls'[g].req.Context() == c;
      } else {
        var h :| h in calls && calls[h].req.Context() == c;
        assert calls'[h] == calls[h];
      }
    }
  }

  lemma OpenApart(channels: map<Bytes, Chan>, calls: Calls, g: Goroutine, call: Call, nextChan: nat, nextSerial: nat)
    requires MapExact(channels, calls) && Apart(calls) && Numbered(calls, nextChan, nextSerial)
    requires g !in calls && call.req.Context() !in channels && call.chan == nextChan && call.req.serial == nextSerial
    ensures Apart(calls[g := call]) && Numbered(calls[g := call], nextChan + 1, nextSerial + 1)
  {
    hide Ctx;
  }

  lemma OpenPending(calls: Calls, phase: map<Goroutine, Phase>, g: Goroutine, call: Call)
    requires g !in calls
    ensures Pending(calls[g := call], phase[g := Opened]) == Pending(calls, phase)
  {
    forall h | h in calls && h in phase
      ensures h in calls[g := call] && calls[g := call][h] == calls[h] && h in phase[g := Opened] && phase[g := Opened][h] == phase[h]
    {
    }
  }

  lemma OpenOk(s: System, g: Goroutine, req: Msg)
    requires Correlated(s) && g !in s.calls && s.blocked.None? && req.serial == s.nextSerial
    ensures Correlated(DoOpen(s, g, req))
  {
    hide Ctx, MapExact, Apart, Numbered;
    var s' := DoOpen(s, g, req);
    if req.Context() !in s.channels {
      OpenMap(s.channels, s.calls, g, Call(req, s.nextChan));
      OpenApart(s.channels, s.calls, g, Call(req, s.nextChan), s.nextChan, s.nextSerial);
      OpenPending(s.calls, s.phase, g, Call(req, s.nextChan));
      assert CompletedRight(s'.completed, s'.calls, s'.nextSerial);
    }
  }

  lemma SendPending(calls: Calls, phase: map<Goroutine, Phase>, g: Goroutine)
    requires Apart(calls) && g in calls && g in phase && phase[g].Opened?
    ensures multiset(Pending(calls, phase[g := Waiting])) == multiset(Pending(calls, phase)) + multiset{calls[g].req}
  {
    hide Ctx;
    var pending, req := Pending(calls, phase), calls[g].req;
    assert req !in pending;
    var phase' := phase[g := Waiting];
    assert Pending(calls, phase') == pending + {req} by {
      forall h | h in calls && h in phase && h != g ensures h in phase' && phase'[h] == phase[h] {
      }
      assert phase'[g].Waiting?;
    }
  }

  lemma SendUnderWay(s: System, s': System, m: Msg)
    requires s'.wire == s.wire + multiset{m} && s'.inbound == s.inbound && s'.blocked == s.blocked
    ensures UnderWay(s') == UnderWay(s) + multiset{m}
  {
  }

  lemma SameUnderWay(s: System, s': System)
    requires s'.wire == s.wire && s'.inbound == s.inbound && s'.blocked == s.blocked
    ensures UnderWay(s') == UnderWay(s)
  {
  }

  lemma NotYetPending(calls: Calls, phase: map<Goroutine, Phase>, g: Goroutine)
    requires g in calls && g in phase && phase[g].Opened?
    ensures Pending(calls, phase[g := Closing(None)]) == Pending(calls, phase)
  {
    forall h | h in phase && h != g ensures h in phase[g := Closing(None)] && phase[g := Closing(None)][h] == phase[h] {
    }
  }

  lemma SendOk(s: System, g: Goroutine, ok: bool)
    requires Correlated(s) && Enabled(s, Send(g, ok))
    ensures Correlated(Apply(s, Send(g, ok)))
  {
    hide Ctx, MapExact, Apart, Numbered, CompletedRight, Pending, UnderWay;
    var s' := Apply(s, Send(g, ok));
    if ok {
      SendPending(s.calls, s.phase, g);
      SendUnderWay(s, s', s.calls[g].req);
    } else {
      NotYetPending(s.calls, s.phase, g);
      SameUnderWay(s, s');
    }
  }

  lemma AnswerUnderWay(s: System, m: Msg)
    requires m in s.wire
    ensures UnderWay(Apply(s, Answer(m))) == UnderWay(s)
  {
    hide Ctx;
    var s' := Apply(s, Answer(m));
    assert s.wire == s'.wire + multiset{m};
    assert multiset(s'.inbound) == multiset(s.inbound) + multiset{m};
  }

  lemma AnswerOk(s: System, m: Msg)
    requires Correlated(s) && m in s.wire
    ensures Correlated(Apply(s, Answer(m)))
  {
    hide Ctx, MapExact, Apart, Numbered, CompletedRight, ClosingRight, Pending, UnderWay;
    AnswerUnderWay(s, m);
  }

  lemma ReceiveOk(s: System)
    requires Correlated(s) && Enabled(s, Receive)
    ensures Correlated(Apply(s, Receive))
  {
    hide Ctx, Apart, Numbered, CompletedRight, ClosingRight, Pending;
    var m := s.inbound[0];
    assert s.inbound == [m] + s.inbound[1..];
    assert m in UnderWay(s);
    var g := Waiter(s, m);
  }

  /** The goroutine that meets the blocked response is the one that sent the request. */
  lemma RendezvousRight(s: System, g: Goroutine)
    requires Correlated(s) && Enabled(s, Rendezvous(g))
    ensures s.calls[g].req == s.blocked.value.1
  {
    hide Ctx, Numbered, CompletedRight, ClosingRight, Pending;
    var h := Waiter(s, s.blocked.value.1);
    assert s.calls[h].chan == s.calls[g].chan;
  }

  lemma RendezvousPending(calls: Calls, phase: map<Goroutine, Phase>, g: Goroutine, p: Phase)
    requires Apart(calls) && g in calls && g in phase && phase[g].Waiting? && !p.Waiting?
    ensures multiset(Pending(calls, phase)) == multiset(Pending(calls, phase[g := p])) + multiset{calls[g].req}
  {
    hide Ctx;
    var phase' := phase[g := p];
    assert calls[g].req !in Pending(calls, phase');
    assert Pending(calls, phase) == Pending(calls, phase') + {calls[g].req} by {
      forall h | h in calls && h in phase && h != g ensures h in phase' && phase'[h] == phase[h] {
      }
    }
  }

  lemma RendezvousUnderWay(s: System, s': System)
    requires s.blocked.Some? && s'.blocked.None? && s'.inbound == s.inbound && s'.wire == s.wire
    ensures UnderWay(s) == UnderWay(s') + multiset{s.blocked.value.1}
  {
  }

  lemma RemoveOne<T>(a: multiset<T>, b: multiset<T>, x: T)
    requires a + multiset{x} == b + multiset{x}
    ensures a == b
  {
    assert a == a + multiset{x} - multiset{x};
    assert b == b + multiset{x} - multiset{x};
  }

  lemma RendezvousOk(s: System, g: Goroutine)
    requires Correlated(s) && Enabled(s, Rendezvous(g))
    ensures Correlated(Apply(s, Rendezvous(g)))
  {
    RendezvousRight(s, g);
    hide Ctx, MapExact, Apart, Numbered, CompletedRight, Pending, UnderWay;
    var m := s.blocked.value.1;
    RendezvousPending(s.calls, s.phase, g, Closing(Some(m)));
    RendezvousUnderWay(s, Apply(s, Rendezvous(g)));
    RemoveOne(UnderWay(Apply(s, Rendezvous(g))), multiset(Pending(s.calls, s.phase[g := Closing(Some(m))])), m);
  }

  lemma CloseMap(channels: map<Bytes, Chan>, calls: Calls, g: Goroutine)
    requires MapExact(channels, calls) && Apart(calls) && g in calls
    ensures MapExact(channels - {calls[g].req.Context()}, calls - {g}) && Apart(calls - {g})
  {
    hide Ctx;
    var channels', calls' := channels - {calls[g].req.Context()}, calls - {g};
    forall c | c in channels' ensures exists h :: h in calls' && calls'[h].req.Context() == c {
      var h :| h in calls && calls[h].req.Context() == c;
      assert h in calls' && calls'[h] == calls[h];
    }
  }

  lemma CloseCompleted(completed: seq<Completed>, calls: Calls, nextChan: nat, nextSerial: nat, g: Goroutine, result: Option<Msg>)
    requires CompletedRight(completed, calls, nextSerial) && Apart(calls) && Numbered(calls, nextChan, nextSerial)
    requires g in calls && (result.Some? ==> result.value == calls[g].req)
    ensures CompletedRight(completed + [Completed(calls[g].req, result)], calls - {g}, nextSerial)
    ensures Numbered(calls - {g}, nextChan, nextSerial)
  {
    hide Ctx;
  }

  lemma CloseOk(s: System, g: Goroutine)
    requires Correlated(s) && Enabled(s, Close(g))
    ensures Correlated(DoClose(s, g))
  {
    hide Ctx, MapExact, Apart, Numbered, CompletedRight;
    var s' := DoClose(s, g);
    CloseMap(s.channels, s.calls, g);
    CloseCompleted(s.completed, s.calls, s.nextChan, s.nextSerial, g, s.phase[g].result);
    assert Pending(s'.calls, s'.phase) == Pending(s.calls, s.phase) by {
      forall h | h in s.calls && h in s.phase && s.phase[h].Waiting? ensures InPhase(s', h) && s'.phase[h] == s.phase[h] {
      }
    }
  }

  lemma StepOk(s: System, step: Step)
    requires Correlated(s) && Enabled(s, step) && !step.Repeat?
    ensures Correlated(Apply(s, step))
  {
    hide Ctx, Correlated, DoOpen, DoClose, DoReceive;
    match step
    case Open(g, channel, txid) => OpenOk(s, g, Msg(channel, txid, s.nextSerial));
    case Send(g, ok) => SendOk(s, g, ok);
    case Answer(m) => AnswerOk(s, m);
    case Receive => ReceiveOk(s);
    case Rendezvous(g) => RendezvousOk(s, g);
    case Close(g) => CloseOk(s, g);
  }

  /** The peer answers each request at most once. */
  ghost predicate Honest(steps: seq<Step>) {
    forall i :: 0 <= i < |steps| ==> !steps[i].Repeat?
  }

  /** Response correlation under every interleaving. */
  lemma {:induction false} RunsCorrelated(s: System, steps: seq<Step>)
    requires Correlated(s) && Honest(steps) && Run(s, steps).Some?
    ensures Correlated(Run(s, steps).value)
    decreases |steps|
  {
    hide Ctx, Correlated, Apply;
    if |steps| > 0 {
      StepOk(s, steps[0]);
      RunsCorrelated(Apply(s, steps[0]), steps[1..]);
    }
  }

  /** In particular, of every run from the start: what the map holds and whom the responses reached. */
  lemma ResponseCorrelation(steps: seq<Step>)
    requires Honest(steps) && Run(START, steps).Some?
    ensures var s := Run(START, steps).value;
            && (forall c :: c in s.channels <==> exists g :: g in s.calls && s.calls[g].req.Context() == c)
            && |s.undelivered| == 0
            && (forall i :: 0 <= i < |s.completed| && s.completed[i].result.Some? ==> s.completed[i].result.value == s.completed[i].req)
            && (forall i, j :: 0 <= i < j < |s.completed| ==> s.completed[i].req.serial != s.completed[j].req.serial)
  {
    hide Ctx, Apply;
    StartCorrelated();
    RunsCorrelated(START, steps);
  }

  lemma StartCorrelated()
    ensures Correlated(START)
  {
    hide Ctx;
    assert Pending(START.calls, START.phase) == {};
    assert UnderWay(START) == multiset{};
  }

  // ---------- and what breaks it ----------

  /** An answer to nothing outstanding always breaks the correlation. */
  lemma RepeatBreaks(s: System, m: Msg)
    requires Correlated(s)
    ensures !Correlated(Apply(s, Repeat(m)))
  {
    hide Ctx, Orderly, CompletedRight, ClosingRight;
    var s' := Apply(s, Repeat(m));
    assert multiset(s'.inbound) == multiset(s.inbound) + multiset{m};
    assert UnderWay(s')[m] == UnderWay(s)[m] + 1;
  }

  ghost predicate CorrelatedAt(s: System, steps: seq<Step>, n: nat)
    requires n <= |steps|
  {
    Run(s, steps[..n]).Some? && Correlated(Run(s, steps[..n]).value)
  }

  lemma {:induction false} HonestStays(s: System, steps: seq<Step>, n: nat)
    requires Correlated(s) && Honest(steps) && Run(s, steps).Some? && n <= |steps|
    ensures CorrelatedAt(s, steps, n)
    decreases |steps|
  {
    hide Ctx, Correlated, Apply, Enabled;
    if n > 0 {
      StepOk(s, steps[0]);
      HonestStays(Apply(s, steps[0]), steps[1..], n - 1);
      assert steps[..n][1..] == steps[1..][..n - 1];
    }
  }

  lemma {:induction false} StaysMeansHonest(s: System, steps: seq<Step>)
    requires Run(s, steps).Some? && forall n :: 0 <= n <= |steps| ==> CorrelatedAt(s, steps, n)
    ensures Honest(steps)
    decreases |steps|
  {
    hide Ctx, Correlated, Apply, Enabled;
    if |steps| > 0 {
      var s', rest := Apply(s, steps[0]), steps[1..];
      forall n | 0 <= n <= |rest| ensures CorrelatedAt(s', rest, n) {
        assert CorrelatedAt(s, steps, n + 1);
        assert steps[..n + 1][1..] == rest[..n];
      }
      assert CorrelatedAt(s, steps, 0) && CorrelatedAt(s', rest, 0);
      if steps[0].Repeat? {
        RepeatBreaks(s, steps[0].msg);
        assert false;
      }
      StaysMeansHonest(s', rest);
    }
  }

  /** Exactly when: every prefix of a run is correlated if and only if the peer only answers what is outstanding. */
  lemma CorrelatedExactly(steps: seq<Step>)
    requires Run(START, steps).Some?
    ensures (forall n :: 0 <= n <= |steps| ==> CorrelatedAt(START, steps, n)) <==> Honest(steps)
  {
    hide Ctx, Correlated, Apply, Run, CorrelatedAt;
    if Honest(steps) {
      StartCorrelated();
      forall n | 0 <= n <= |steps| ensures CorrelatedAt(START, steps, n) {
        HonestStays(START, steps, n);
      }
    } else if forall n :: 0 <= n <= |steps| ==> CorrelatedAt(START, steps, n) {
      StaysMeansHonest(START, steps);
    }
  }

  // ---------- refused requests ----------

  /**
   A request is refused exactly when a call with its context is in flight, and then nothing changes: the call in
   flight keeps its channel.
   */
  lemma RefusedExactly(s: System, g: Goroutine, channel: Bytes, txid: Bytes)
    requires Correlated(s) && Enabled(s, Open(g, channel, txid))
    ensures Apply(s, Open(g, channel, txid)) == s <==> exists h :: h in s.calls && s.calls[h].req.Context() == Ctx(channel, txid)
  {
    hide Ctx;
    assert Msg(channel, txid, s.nextSerial).Context() == Ctx(channel, txid);
  }

  /** With tx ids of one length that call belongs to the same transaction on the same channel. */
  lemma RefusedOnlyByItsOwnTransaction(s: System, g: Goroutine, channel: Bytes, txid: Bytes)
    requires Correlated(s) && Enabled(s, Open(g, channel, txid))
    requires forall h :: h in s.calls ==> |s.calls[h].req.txid| == |txid|
    ensures Apply(s, Open(g, channel, txid)) == s
            <==> exists h :: h in s.calls && s.calls[h].req.channel == channel && s.calls[h].req.txid == txid
  {
    hide Ctx, Apply, Correlated, Enabled;
    RefusedExactly(s, g, channel, txid);
    forall h | h in s.calls
      ensures s.calls[h].req.Context() == Ctx(channel, txid) <==> s.calls[h].req.channel == channel && s.calls[h].req.txid == txid
    {
      CtxInjective(s.calls[h].req.channel, s.calls[h].req.txid, channel, txid);
    }
  }

  // ---------- every call returns ----------

  /** A step that carries on with calls in flight. */
  ghost predicate Internal(step: Step) {
    !step.Open? && !step.Repeat?
  }

  /** A blocked response always finds its goroutine at the receive. */
  lemma BlockedMeets(s: System) returns (g: Goroutine)
    requires Correlated(s) && s.blocked.Some?
    ensures Enabled(s, Rendezvous(g))
  {
    hide Ctx, Apart, Numbered, CompletedRight, ClosingRight, Pending;
    g := Waiter(s, s.blocked.value.1);
  }

  /** Freedom from deadlock: while a call is in flight, some step carries on, although the loop blocks under the mutex. */
  lemma Progress(s: System, g: Goroutine) returns (step: Step)
    requires Correlated(s) && g in s.calls
    ensures Internal(step) && Enabled(s, step)
  {
    hide Ctx, MapExact, Apart, Numbered, CompletedRight, ClosingRight, BlockedRight;
    if s.blocked.Some? {
      var h := BlockedMeets(s);
      return Rendezvous(h);
    }
    match s.phase[g]
    case Opened => return Send(g, true);
    case Closing(_) => return Close(g);
    case Waiting =>
      var req := s.calls[g].req;
      assert req in Pending(s.calls, s.phase);
      assert req in UnderWay(s);
      if req in s.wire {
        return Answer(req);
      }
      return Receive;
  }

  ghost function At(phase: map<Goroutine, Phase>, opening: bool): set<Goroutine> {
    set g | g in phase && (if opening then phase[g].Opened? else phase[g].Closing?)
  }

  ghost function Rank(s: System): nat {
    5 * |At(s.phase, true)| + |At(s.phase, false)| + 4 * |s.wire| + 3 * |s.inbound| + if s.blocked.Some? then 2 else 0
  }

  lemma Moves(phase: map<Goroutine, Phase>, g: Goroutine, p: Phase)
    requires g in phase && !p.Opened?
    ensures phase[g].Opened? ==> |At(phase[g := p], true)| == |At(phase, true)| - 1
    ensures !phase[g].Opened? ==> At(phase[g := p], true) == At(phase, true)
    ensures !phase[g].Closing? && p.Closing? ==> |At(phase[g := p], false)| == |At(phase, false)| + 1
    ensures !phase[g].Closing? && !p.Closing? ==> At(phase[g := p], false) == At(phase, false)
  {
    var phase' := phase[g := p];
    if phase[g].Opened? {
      assert At(phase', true) == At(phase, true) - {g};
    }
    if !phase[g].Closing? && p.Closing? {
      assert At(phase', false) == At(phase, false) + {g};
    }
  }

  lemma RankDrops(s: System, step: Step)
    requires Enabled(s, step) && Internal(step)
    ensures Rank(Apply(s, step)) < Rank(s)
  {
    hide Ctx, At;
    var s' := Apply(s, step);
    match step
    case Send(g, ok) => Moves(s.phase, g, s'.phase[g]);
    case Answer(m) =>
    case Receive =>
    case Rendezvous(g) => Moves(s.phase, g, s'.phase[g]);
    case Close(g) => Leaves(s.phase, g);
  }

  lemma Leaves(phase: map<Goroutine, Phase>, g: Goroutine)
    requires g in phase && phase[g].Closing?
    ensures At(phase - {g}, true) == At(phase, true) && |At(phase - {g}, false)| == |At(phase, false)| - 1
  {
    assert At(phase - {g}, false) == At(phase, false) - {g};
  }

  /** However the scheduler picks, the calls in flight take a bounded number of steps... */
  lemma {:induction false} BoundedSteps(s: System, steps: seq<Step>)
    requires (forall i :: 0 <= i < |steps| ==> Internal(steps[i])) && Run(s, steps).Some?
    ensures |steps| + Rank(Run(s, steps).value) <= Rank(s)
    decreases |steps|
  {
    hide Ctx, Apply, Rank;
    if |steps| > 0 {
      RankDrops(s, steps[0]);
      BoundedSteps(Apply(s, steps[0]), steps[1..]);
    }
  }

  /** ...and when none is left to take, every call has returned and the map is empty. */
  lemma EveryCallReturns(s: System)
    requires Correlated(s) && forall step :: Internal(step) ==> !Enabled(s, step)
    ensures s.calls == map[] && s.channels == map[]
  {
    hide Ctx, Apart, Numbered, CompletedRight, ClosingRight, BlockedRight, Pending, Enabled;
    forall g | g in s.calls ensures false {
      var step := Progress(s, g);
    }
  }

  // ---------- a peer that answers twice ----------

  /** The loop is blocked on the channel of a call that no longer receives. */
  ghost predicate Jammed(s: System) {
    && s.calls.Keys == s.phase.Keys
    && s.blocked.Some?
    && forall g :: g in s.calls && s.calls[g].chan == s.blocked.value.0 ==> s.phase[g].Closing?
  }

  lemma JammedStep(s: System, step: Step)
    requires Jammed(s) && Enabled(s, step)
    ensures var s' := Apply(s, step);
            Jammed(s') && s'.blocked == s.blocked && s'.completed == s.completed && s'.calls == s.calls
  {
    hide Ctx, DoOpen, DoClose, DoReceive;
  }

  /** Then no call ever completes again and none can start. */
  lemma {:induction false} JammedForever(s: System, steps: seq<Step>)
    requires Jammed(s) && Run(s, steps).Some?
    ensures var s' := Run(s, steps).value; Jammed(s') && s'.completed == s.completed && s'.calls == s.calls
    decreases |steps|
  {
    hide Ctx, Apply, Enabled, Jammed;
    if |steps| > 0 {
      JammedStep(s, steps[0]);
      JammedForever(Apply(s, steps[0]), steps[1..]);
    }
  }

  /** The map, the numbering and the place where the loop is blocked stay right even if the peer answers twice. */
  lemma OrderlyStep(s: System, step: Step)
    requires Orderly(s) && Enabled(s, step)
    ensures Orderly(Apply(s, step))
  {
    hide Ctx, MapExact, Apart, Numbered;
    match step
    case Open(g, channel, txid) =>
      var req := Msg(channel, txid, s.nextSerial);
      if req.Context() !in s.channels {
        OpenMap(s.channels, s.calls, g, Call(req, s.nextChan));
        OpenApart(s.channels, s.calls, g, Call(req, s.nextChan), s.nextChan, s.nextSerial);
      }
    case Close(g) =>
      CloseMap(s.channels, s.calls, g);
      CloseNumbered(s.calls, s.nextChan, s.nextSerial, g);
    case _ =>
  }

  lemma CloseNumbered(calls: Calls, nextChan: nat, nextSerial: nat, g: Goroutine)
    requires Numbered(calls, nextChan, nextSerial)
    ensures Numbered(calls - {g}, nextChan, nextSerial)
  {
    hide Ctx;
  }

  lemma {:induction false} RunsOrderly(s: System, steps: seq<Step>)
    requires Orderly(s) && Run(s, steps).Some?
    ensures Orderly(Run(s, steps).value)
    decreases |steps|
  {
    hide Ctx, Orderly, Apply;
    if |steps| > 0 {
      OrderlyStep(s, steps[0]);
      RunsOrderly(Apply(s, steps[0]), steps[1..]);
    }
  }

  /** Even a repeated answer only ever reaches a call of its own context. */
  lemma RendezvousSameContext(s: System, g: Goroutine)
    requires Orderly(s) && Enabled(s, Rendezvous(g))
    ensures s.calls[g].req.Context() == s.blocked.value.1.Context()
  {
    hide Ctx;
    var m := s.blocked.value.1;
    var h :| h in s.calls && s.calls[h].req.Context() == m.Context();
    assert s.calls[h].chan == s.calls[g].chan;
  }

  /** A call of the response's context has stopped receiving. */
  ghost predicate HeldByClosing(s: System, m: Msg) {
    exists g :: InPhase(s, g) && s.calls[g].req.Context() == m.Context() && s.phase[g].Closing?
  }

  /**
   Exactly the steps that jam a handler, in any run: the loop takes up a response whose context is held by a call
   that is about to delete its channel, or a send fails while the loop is already blocked on that call's channel.
   */
  lemma JamsExactly(s: System, step: Step)
    requires Orderly(s) && !Jammed(s) && Enabled(s, step)
    ensures Jammed(Apply(s, step)) <==>
              || (step.Receive? && HeldByClosing(s, s.inbound[0]))
              || (step.Send? && !step.ok && s.blocked.Some? && s.blocked.value.0 == s.calls[step.g].chan)
  {
    hide Ctx, Numbered;
    if step.Receive? {
      ReceiveJams(s);
    } else if step.Send? && s.blocked.Some? {
      SendJams(s, step.g, step.ok);
    } else if step.Open? || step.Close? {
      assert Apply(s, step).blocked.None?;
    }
  }

  lemma ReceiveJams(s: System)
    requires Orderly(s) && Enabled(s, Receive)
    ensures Jammed(Apply(s, Receive)) <==> HeldByClosing(s, s.inbound[0])
  {
    hide Ctx, Numbered;
    var m, s' := s.inbound[0], Apply(s, Receive);
    if m.Context() in s.channels {
      var g :| g in s.calls && s.calls[g].req.Context() == m.Context();
      assert s'.blocked == Some((s.calls[g].chan, m));
      assert InPhase(s, g);
      assert forall h :: h in s.calls && s.calls[h].chan == s.calls[g].chan ==> h == g;
      assert forall h :: h in s.calls && s.calls[h].req.Context() == m.Context() ==> h == g;
    }
  }

  lemma SendJams(s: System, g: Goroutine, ok: bool)
    requires Orderly(s) && !Jammed(s) && Enabled(s, Send(g, ok)) && s.blocked.Some?
    ensures Jammed(Apply(s, Send(g, ok))) <==> !ok && s.blocked.value.0 == s.calls[g].chan
  {
    hide Ctx, MapExact, Numbered, BlockedRight;
    var s' := Apply(s, Send(g, ok));
    assert forall h :: h in s.calls && h != g ==> s'.phase[h] == s.phase[h];
    var h :| h in s.calls && s.calls[h].chan == s.blocked.value.0 && !s.phase[h].Closing?;
    if s.blocked.value.0 == s.calls[g].chan {
      assert forall i :: i in s.calls && s.calls[i].chan == s.calls[g].chan ==> i == g;
    }
  }

  /** In particular, a second answer that overtakes the first one's `deleteResponseChannel`. */
  lemma SecondAnswerJams(s: System, g: Goroutine)
    requires Correlated(s) && Enabled(s, Close(g)) && |s.inbound| == 0
    ensures var run := Run(s, [Repeat(s.calls[g].req), Receive]); run.Some? && Jammed(run.value)
  {
    hide Ctx, MapExact, Apart, Numbered, CompletedRight, ClosingRight, Pending, UnderWay, DoReceive, Jammed;
    var req := s.calls[g].req;
    var s1 := Apply(s, Repeat(req));
    assert s1.inbound == [req];
    assert HeldByClosing(s1, req);
    OrderlyStep(s, Repeat(req));
    ReceiveJams(s1);
    RunTwo(s, Repeat(req), Receive);
  }

  lemma RunTwo(s: System, one: Step, two: Step)
    requires Enabled(s, one) && Enabled(Apply(s, one), two)
    ensures Run(s, [one, two]) == Some(Apply(Apply(s, one), two))
  {
    hide Ctx, Apply, Enabled;
    assert [one, two][1..] == [two] && [two][1..] == [];
    assert Run(Apply(Apply(s, one), two), []) == Some(Apply(Apply(s, one), two));
    assert Run(Apply(s, one), [two]) == Some(Apply(Apply(s, one), two));
  }

  /** The state in which nothing is going on after n calls. */
  ghost function Quiet(completed: seq<Completed>, n: nat): System {
    System(map[], map[], map[], multiset{}, [], None, [], completed, n, n)
  }

  /** One call waits on an otherwise quiet handler. */
  ghost function Asked(completed: seq<Completed>, g: Goroutine, req: Msg, wire: multiset<Msg>, inbound: seq<Msg>): System {
    var n := req.serial;
    System(map[req.Context() := n], map[g := Call(req, n)], map[g := Waiting], wire, inbound, None, [], completed, n + 1, n + 1)
  }

  lemma AskSteps(completed: seq<Completed>, g: Goroutine, req: Msg)
    ensures Run(Quiet(completed, req.serial), [Open(g, req.channel, req.txid), Send(g, true)])
            == Some(Asked(completed, g, req, multiset{req}, []))
  {
    hide Ctx, Run;
    var n := req.serial;
    var s0 := Quiet(completed, n);
    var s1 := Apply(s0, Open(g, req.channel, req.txid));
    assert s1 == s0.(channels := map[req.Context() := n], calls := map[g := Call(req, n)], phase := map[g := Opened], nextChan := n + 1, nextSerial := n + 1);
    assert s0.wire + multiset{req} == multiset{req};
    assert s1.phase[g := Waiting] == map[g := Waiting];
    assert Apply(s1, Send(g, true)) == Asked(completed, g, req, multiset{req}, []);
    RunTwo(s0, Open(g, req.channel, req.txid), Send(g, true));
  }

  /** Whatever response of its context comes first is the call's result. */
  lemma DeliverSteps(completed: seq<Completed>, g: Goroutine, req: Msg, wire: multiset<Msg>, m: Msg)
    requires m.Context() == req.Context()
    ensures Run(Asked(completed, g, req, wire, [m]), [Receive, Rendezvous(g), Close(g)])
            == Some(Quiet(completed + [Completed(req, Some(m))], req.serial + 1).(wire := wire))
  {
    hide Ctx, Run;
    var s3 := Asked(completed, g, req, wire, [m]);
    var s4 := Apply(s3, Receive);
    assert s4 == s3.(inbound := [], blocked := Some((req.serial, m)));
    var s5 := Apply(s4, Rendezvous(g));
    assert s5 == s4.(phase := map[g := Closing(Some(m))], blocked := None);
    CloseLast(s5, g, req, m);
    RunTwo(s4, Rendezvous(g), Close(g));
    RunCons(s3, [Receive, Rendezvous(g), Close(g)]);
    assert [Receive, Rendezvous(g), Close(g)][1..] == [Rendezvous(g), Close(g)];
  }

  lemma CloseLast(s: System, g: Goroutine, req: Msg, m: Msg)
    requires s.calls == map[g := Call(req, req.serial)] && s.phase == map[g := Closing(Some(m))]
    requires s.channels == map[req.Context() := req.serial] && s.blocked.None?
    ensures Apply(s, Close(g)) == s.(channels := map[], calls := map[], phase := map[], completed := s.completed + [Completed(req, Some(m))])
  {
    hide Ctx;
  }

  lemma RunCons(s: System, steps: seq<Step>)
    requires |steps| > 0 && Enabled(s, steps[0])
    ensures Run(s, steps) == Run(Apply(s, steps[0]), steps[1..])
  {
    hide Ctx, Apply, Enabled;
  }

  lemma RunNone(s: System, steps: seq<Step>)
    requires |steps| == 0
    ensures Run(s, steps) == Some(s)
  {
  }

  lemma {:induction false} RunConcat(s: System, a: seq<Step>, b: seq<Step>)
    requires Run(s, a).Some?
    ensures Run(s, a + b) == Run(Run(s, a).value, b)
    decreases |a|
  {
    hide Ctx, Apply, Enabled;
    if |a| == 0 {
      assert a + b == b;
    } else {
      RunConcat(Apply(s, a[0]), a[1..], b);
      assert (a + b)[1..] == a[1..] + b;
    }
  }

  /** A late second answer is worse than a jam: the next call of the same context takes it for its own response. */
  lemma LateSecondAnswer(g: Goroutine, c: Bytes, t: Bytes) returns (steps: seq<Step>)
    ensures Run(START, steps).Some?
    ensures Run(START, steps).value.completed ==
            [Completed(Msg(c, t, 0), Some(Msg(c, t, 0))), Completed(Msg(c, t, 1), Some(Msg(c, t, 0)))]
  {
    hide Ctx, Run;
    var m, m' := Msg(c, t, 0), Msg(c, t, 1);
    var one := [Completed(m, Some(m))];
    assert START == Quiet([], 0);
    steps := FullCall([], g, m, m, Answer(m));
    assert [] + one == one;
    var more := FullCall(one, g, m', m, Repeat(m));
    RunConcat(START, steps, more);
    steps := steps + more;
  }

  /** A call on a quiet handler in six steps, the third of which puts m on the stream. */
  lemma FullCall(completed: seq<Completed>, g: Goroutine, req: Msg, m: Msg, answer: Step) returns (steps: seq<Step>)
    requires m.Context() == req.Context() && (answer == Repeat(m) || (answer == Answer(m) && m == req))
    ensures Run(Quiet(completed, req.serial), steps) ==
            Some(Quiet(completed + [Completed(req, Some(m))], req.serial + 1).(wire := if answer.Answer? then multiset{} else multiset{req}))
  {
    hide Ctx, Run;
    var ask, deliver := [Open(g, req.channel, req.txid), Send(g, true)], [Receive, Rendezvous(g), Close(g)];
    steps := ask + ([answer] + deliver);
    AskSteps(completed, g, req);
    RunConcat(Quiet(completed, req.serial), ask, [answer] + deliver);
    var s := Asked(completed, g, req, multiset{req}, []);
    var left := if answer.Answer? then multiset{} else multiset{req};
    assert [] + [m] == [m];
    assert Apply(s, answer) == Asked(completed, g, req, left, [m]);
    RunCons(s, [answer] + deliver);
    assert ([answer] + deliver)[1..] == deliver;
    DeliverSteps(completed, g, req, left, m);
  }

  // ---------- the handler object ----------

  datatype HandlerState = Created | Established | Ready

  datatype Kind = KeepAlive | Registered | ReadyMsg | Response | Error | Init | Transaction | OtherKind

  datatype Reaction = Echo | Advanced | Deliver(chan: Chan) | StartInit | StartTransaction | Refused

  /** What is sent to the peer at once: a keep-alive goes back, a refusal is reported under the message's tx id. */
  datatype Reply = NoReply | KeepAliveBack | ErrorReport(txid: Bytes)

  /** The handler's reaction to a message; `to` is the response channel of the message's context, if there is one. */
  function React(state: HandlerState, kind: Kind, to: Option<Chan>): (HandlerState, Reaction) {
    if kind == KeepAlive then (state, Echo)
    else
      match state
      case Created => if kind == Registered then (Established, Advanced) else (state, Refused)
      case Established => if kind == ReadyMsg then (Ready, Advanced) else (state, Refused)
      case Ready =>
        match kind
        case Response | Error => (state, if to.Some? then Deliver(to.value) else Refused)
        case Init => (state, StartInit)
        case Transaction => (state, StartTransaction)
        case _ => (state, Refused)
  }

  class Handler {
    var state: HandlerState
    var responseChannels: map<Bytes, Chan>
    var nextChan: nat   // the identity of the next channel that is made

    constructor ()
      ensures state == Created && responseChannels == map[] && nextChan == 0
    {
      state, responseChannels, nextChan := Created, map[], 0;
    }

    /** What the `Open` step does to the map; None is "channel exists". */
    method CreateResponseChannel(channel: Bytes, txid: Bytes) returns (r: Option<Chan>)
      modifies this`responseChannels, this`nextChan
      ensures r.None? <==> Ctx(channel, txid) in old(responseChannels)
      ensures r.None? ==> responseChannels == old(responseChannels) && nextChan == old(nextChan)
      ensures r.Some? ==> r.value == old(nextChan) && nextChan == old(nextChan) + 1
      ensures r.Some? ==> responseChannels == old(responseChannels)[Ctx(channel, txid) := r.value]
      ensures forall s: System, g, n :: s.channels == old(responseChannels) && s.nextChan == old(nextChan) ==>
                var s' := DoOpen(s, g, Msg(channel, txid, n)); s'.channels == responseChannels && s'.nextChan == nextChan
    {
      var txCtxID := Ctx(channel, txid);
      if txCtxID in responseChannels {
        return None;
      }
      r := Some(nextChan);
      nextChan := nextChan + 1;
      responseChannels := responseChannels[txCtxID := r.value];
    }

    method DeleteResponseChannel(channel: Bytes, txid: Bytes)
      modifies this`responseChannels
      ensures responseChannels == old(responseChannels) - {Ctx(channel, txid)}
    {
      responseChannels := responseChannels - {Ctx(channel, txid)};
    }

    /** The channel to which a response is sent, or None: "responseChannel does not exist". */
    method HandleResponse(channel: Bytes, txid: Bytes) returns (to: Option<Chan>)
      ensures to.Some? <==> Ctx(channel, txid) in responseChannels
      ensures to.Some? ==> to.value == responseChannels[Ctx(channel, txid)]
    {
      var txCtxID := Ctx(channel, txid);
      if txCtxID !in responseChannels {
        return None;
      }
      to := Some(responseChannels[txCtxID]);
    }

    method HandleMessage(kind: Kind, channel: Bytes, txid: Bytes) returns (reaction: Reaction, reply: Reply)
      modifies this`state
      ensures reply == if kind == KeepAlive then KeepAliveBack else if reaction == Refused then ErrorReport(txid) else NoReply
      ensures var to := if Ctx(channel, txid) in responseChannels then Some(responseChannels[Ctx(channel, txid)]) else None;
              (state, reaction) == React(old(state), kind, to)
    {
      if kind == KeepAlive {
        return Echo, KeepAliveBack;
      }
      match state {
        case Ready =>
          reaction := HandleReady(kind, channel, txid);
        case Established =>
          if kind == ReadyMsg {
            state := Ready;
            reaction := Advanced;
          } else {
            reaction := Refused;
          }
        case Created =>
          if kind == Registered {
            state := Established;
            reaction := Advanced;
          } else {
            reaction := Refused;
          }
      }
      reply := if reaction.Refused? then ErrorReport(txid) else NoReply;
    }

    method HandleReady(kind: Kind, channel: Bytes, txid: Bytes) returns (reaction: Reaction)
      requires state == Ready && kind != KeepAlive
      ensures var to := if Ctx(channel, txid) in responseChannels then Some(responseChannels[Ctx(channel, txid)]) else None;
              (Ready, reaction) == React(state, kind, to)
    {
      match kind
      case Response | Error =>
        var to := HandleResponse(channel, txid);
        reaction := if to.Some? then Deliver(to.value) else Refused;
      case Init => reaction := StartInit;
      case Transaction => reaction := StartTransaction;
      case _ => reaction := Refused;
    }
  }

  /** The state after a sequence of messages, or None once one is refused: the stream then ends. */
  function ReactAll(state: HandlerState, msgs: seq<(Kind, Option<Chan>)>): Option<HandlerState>
    decreases |msgs|
  {
    if |msgs| == 0 then Some(state)
    else
      var (next, reaction) := React(state, msgs[0].0, msgs[0].1);
      if reaction == Refused then None else ReactAll(next, msgs[1..])
  }

  function WithoutKeepAlives(msgs: seq<(Kind, Option<Chan>)>): seq<(Kind, Option<Chan>)> {
    if |msgs| == 0 then []
    else if msgs[0].0 == KeepAlive then WithoutKeepAlives(msgs[1..])
    else [msgs[0]] + WithoutKeepAlives(msgs[1..])
  }

  function Position(state: HandlerState): nat {
    match state case Created => 0 case Established => 1 case Ready => 2
  }

  /** What may come at a position: the handshake in order, then responses that have a channel and new transactions. */
  predicate Fits(m: (Kind, Option<Chan>), position: nat) {
    if position == 0 then m.0 == Registered
    else if position == 1 then m.0 == ReadyMsg
    else m.0 == Init || m.0 == Transaction || ((m.0 == Response || m.0 == Error) && m.1.Some?)
  }

  predicate Conforms(msgs: seq<(Kind, Option<Chan>)>, from: nat) {
    forall i :: 0 <= i < |msgs| ==> Fits(msgs[i], i + from)
  }

  /** Exactly the conforming streams are accepted, and the state tells how many messages of the handshake came. */
  lemma {:induction false} AcceptedStreams(state: HandlerState, msgs: seq<(Kind, Option<Chan>)>)
    ensures ReactAll(state, msgs).Some? <==> Conforms(WithoutKeepAlives(msgs), Position(state))
    ensures ReactAll(state, msgs).Some? ==>
              var n := Position(state) + |WithoutKeepAlives(msgs)|;
              ReactAll(state, msgs).value == if n == 0 then Created else if n == 1 then Established else Ready
    decreases |msgs|
  {
    if |msgs| > 0 {
      var (next, reaction) := React(state, msgs[0].0, msgs[0].1);
      AcceptedStreams(next, msgs[1..]);
      if msgs[0].0 != KeepAlive {
        ConformsStep(msgs[0], WithoutKeepAlives(msgs[1..]), Position(state));
        if state == Ready {
          ConformsLater(WithoutKeepAlives(msgs[1..]));
        }
      }
    }
  }

  lemma ConformsStep(m: (Kind, Option<Chan>), rest: seq<(Kind, Option<Chan>)>, k: nat)
    ensures Conforms([m] + rest, k) <==> Fits(m, k) && Conforms(rest, k + 1)
  {
    var all := [m] + rest;
    assert all[0] == m;
    if Conforms(all, k) {
      forall i | 0 <= i < |rest| ensures Fits(rest[i], i + (k + 1)) {
        assert rest[i] == all[i + 1] && Fits(all[i + 1], i + 1 + k);
      }
    }
  }

  lemma ConformsLater(msgs: seq<(Kind, Option<Chan>)>)
    ensures Conforms(msgs, 3) <==> Conforms(msgs, 2)
  {
  }

  /** The reactions to a stream, up to the first refusal. */
  function Reactions(state: HandlerState, msgs: seq<(Kind, Option<Chan>)>): seq<Reaction>
    decreases |msgs|
  {
    if |msgs| == 0 then []
    else
      var (next, reaction) := React(state, msgs[0].0, msgs[0].1);
      [reaction] + if reaction == Refused then [] else Reactions(next, msgs[1..])
  }

  /**
   What every message of a stream causes, as long as it is not refused: a transaction starts exactly at a TRANSACTION
   message, an initialisation exactly at INIT, a response or error goes to the channel of its context, keep-alives
   go back, and only the two handshake messages advance the state.
   */
  lemma {:induction false} ReactionsExactly(state: HandlerState, msgs: seq<(Kind, Option<Chan>)>, i: nat)
    requires i < |Reactions(state, msgs)| && Reactions(state, msgs)[i] != Refused
    ensures |Reactions(state, msgs)| <= |msgs|
    ensures var m, r := msgs[i], Reactions(state, msgs)[i];
            && (r == StartTransaction <==> m.0 == Transaction)
            && (r == StartInit <==> m.0 == Init)
            && (r.Deliver? <==> m.0 == Response || m.0 == Error) && (r.Deliver? ==> m.1 == Some(r.chan))
            && (r == Echo <==> m.0 == KeepAlive)
            && (r == Advanced <==> m.0 == Registered || m.0 == ReadyMsg)
    decreases |msgs|
  {
    var (next, reaction) := React(state, msgs[0].0, msgs[0].1);
    ReactionsBounded(next, msgs[1..]);
    if i > 0 {
      assert Reactions(state, msgs)[1..] == Reactions(next, msgs[1..]);
      ReactionsExactly(next, msgs[1..], i - 1);
    }
  }

  lemma {:induction false} ReactionsBounded(state: HandlerState, msgs: seq<(Kind, Option<Chan>)>)
    ensures |Reactions(state, msgs)| <= |msgs|
    decreases |msgs|
  {
    if |msgs| > 0 {
      ReactionsBounded(React(state, msgs[0].0, msgs[0].1).0, msgs[1..]);
    }
  }

  /** An accepted stream has a reaction for each message, none of them a refusal; any other ends with its only refusal. */
  lemma {:induction false} AcceptedReactions(state: HandlerState, msgs: seq<(Kind, Option<Chan>)>)
    ensures var rs := Reactions(state, msgs);
            if ReactAll(state, msgs).Some? then |rs| == |msgs| && Refused !in rs
            else |rs| > 0 && rs[|rs| - 1] == Refused && Refused !in rs[..|rs| - 1]
    decreases |msgs|
  {
    if |msgs| > 0 {
      var (next, reaction) := React(state, msgs[0].0, msgs[0].1);
      if reaction != Refused {
        AcceptedReactions(next, msgs[1..]);
        var rs, rest := Reactions(state, msgs), Reactions(next, msgs[1..]);
        assert rs == [reaction] + rest;
        if |rest| > 0 {
          assert rs[..|rs| - 1] == [reaction] + rest[..|rest| - 1];
        }
      }
    }
  }
}
