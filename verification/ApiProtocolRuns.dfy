/** What every run of the request protocol keeps: replies, debts, and whose id a handler reads. */
module ApiProtocolRuns {
  import opened ApiProtocol
  import opened Json
  import opened Numerals
  import opened Wrappers
  import Ids = EntityIds
  import Registry = EntityRegistry

  // ----- Replies -----

  /** Every id up to the counter is waiting or was answered, none of them both or twice. */
  ghost predicate Accounted(w: World) {
    && (forall cid :: 1 <= cid <= w.counter ==> cid in w.pending || Answered(w, cid))
    && (forall cid :: cid in w.pending ==> 1 <= cid <= w.counter)
    && (forall i :: 0 <= i < |w.replies| ==> 1 <= w.replies[i].0 <= w.counter && w.replies[i].0 !in w.pending)
    && (forall i, j :: 0 <= i < j < |w.replies| ==> w.replies[i].0 != w.replies[j].0)
  }

  ghost predicate Answered(w: World, cid: Cid) {
    exists i :: 0 <= i < |w.replies| && w.replies[i].0 == cid
  }

  lemma {:induction false} RoutedAccounted(w: World, requests: seq<Request>)
    requires Accounted(w)
    ensures Accounted(Routed(w, requests))
    decreases |requests|
  {
    if requests != [] {
      RoutedAccounted(w, requests[..|requests| - 1]);
      var before, after := Routed(w, requests[..|requests| - 1]), Routed(w, requests);
      forall cid | 1 <= cid <= after.counter ensures cid in after.pending || Answered(after, cid) {
        if cid <= before.counter && cid !in before.pending {
          var i :| 0 <= i < |before.replies| && before.replies[i].0 == cid;
          assert after.replies[i].0 == cid;
        }
      }
    }
  }

  lemma RespondedAccounted(w: World, cid: Cid, response: Response)
    requires Accounted(w)
    ensures Accounted(Responded(w, cid, response))
  {
    var after := Responded(w, cid, response);
    forall x | 1 <= x <= w.counter ensures x in after.pending || Answered(after, x) {
      if x !in w.pending {
        var i :| 0 <= i < |w.replies| && w.replies[i].0 == x;
        assert after.replies[i].0 == x;
      } else if x == cid {
        assert after.replies[|w.replies|].0 == x;
      }
    }
  }

  lemma NextAccounted(c: Config, w: World, s: Step)
    requires Accounted(w)
    ensures Accounted(Next(c, w, s))
  {
    hide Accounted, Executed, Queues;
    match s
    case Bridge(requests) => RoutedAccounted(w, requests);
    case Apply(acts, ahead) =>
      if w.queue != [] {
        var popped := w.(queue := w.queue[1..]);
        SameReplies(w, popped);
        if w.queue[0].Respond? {
          RespondedAccounted(popped, w.queue[0].cid, w.queue[0].response);
        } else {
          SameReplies(w, Applied(c, w, acts, ahead));
        }
      }
    case _ => SameReplies(w, Next(c, w, s));
  }

  lemma SameReplies(w: World, v: World)
    requires Accounted(w) && v.counter == w.counter && v.pending == w.pending && v.replies == w.replies
    ensures Accounted(v)
  {
    forall cid | 1 <= cid <= v.counter ensures cid in v.pending || Answered(v, cid) {
      if cid !in w.pending {
        var i :| 0 <= i < |w.replies| && w.replies[i].0 == cid;
        assert v.replies[i].0 == cid;
      }
    }
  }

  lemma {:induction false} AccountedFrom(c: Config, w: World, steps: seq<Step>)
    requires Accounted(w)
    ensures Accounted(Run(c, w, steps))
    decreases |steps|
  {
    if steps != [] {
      NextAccounted(c, w, steps[0]);
      AccountedFrom(c, Next(c, w, steps[0]), steps[1..]);
    }
  }

  /** Over every run, each bridged request is either still waiting or was answered exactly once. */
  lemma RepliedAtMostOnce(c: Config, steps: seq<Step>)
    ensures Accounted(Run(c, START, steps))
  {
    AccountedFrom(c, START, steps);
  }

  // ----- Telemetry -----

  ghost predicate PacketsApart(w: World) {
    && (forall i :: 0 <= i < |w.queue| && w.queue[i].Respond? && w.queue[i].response.Packet? ==>
          w.queue[i].cid >= TELEMETRY_CORRELATION_FLAG)
    && (forall i :: 0 <= i < |w.replies| && w.replies[i].1.Packet? ==> w.replies[i].0 >= TELEMETRY_CORRELATION_FLAG)
  }

  lemma {:induction false} RoutedApart(w: World, requests: seq<Request>)
    requires PacketsApart(w)
    ensures PacketsApart(Routed(w, requests))
    decreases |requests|
  {
    if requests != [] {
      RoutedApart(w, requests[..|requests| - 1]);
    }
  }

  /** A queue made of three parts, each keeping packets on telemetry ids, keeps them there. */
  ghost predicate QueueApart(q: seq<Queued>) {
    forall i :: 0 <= i < |q| && q[i].Respond? && q[i].response.Packet? ==> q[i].cid >= TELEMETRY_CORRELATION_FLAG
  }

  lemma AppliedApart(c: Config, w: World, acts: seq<Foreign>, ahead: nat)
    requires w.queue != [] && PacketsApart(w)
    ensures PacketsApart(Applied(c, w, acts, ahead))
  {
    var first, rest := w.queue[0], w.queue[1..];
    assert QueueApart(rest) && QueueApart(Queues(w, acts));
    if first.Asked? {
      assert QueueApart(Executed(c, w.registry, first.request, first.cid));
    }
  }

  lemma NextApart(c: Config, w: World, s: Step)
    requires PacketsApart(w)
    ensures PacketsApart(Next(c, w, s))
  {
    match s
    case Bridge(requests) => RoutedApart(w, requests);
    case Apply(acts, ahead) => if w.queue != [] { AppliedApart(c, w, acts, ahead); }
    case Script(acts) => assert QueueApart(w.queue) && QueueApart(Queues(w, acts));
    case Tick => assert QueueApart(w.queue) && QueueApart(TimeOuts(c.listing(Expired(w))));
    case Elapse(_) =>
    case Sync(_) =>
  }

  lemma {:induction false} ApartFrom(c: Config, w: World, steps: seq<Step>)
    requires PacketsApart(w)
    ensures PacketsApart(Run(c, w, steps))
    decreases |steps|
  {
    if steps != [] {
      NextApart(c, w, steps[0]);
      ApartFrom(c, Next(c, w, steps[0]), steps[1..]);
    }
  }

  /** No telemetry packet ever resolves a request, as long as the router has not counted into the
      telemetry ids. */
  lemma TelemetryNeverReplies(c: Config, steps: seq<Step>)
    requires Run(c, START, steps).counter < TELEMETRY_CORRELATION_FLAG
    ensures forall i :: 0 <= i < |Run(c, START, steps).replies| ==> !Run(c, START, steps).replies[i].1.Packet?
  {
    ApartFrom(c, START, steps);
    AccountedFrom(c, START, steps);
  }

  lemma {:induction false} RoutedCounts(w: World, requests: seq<Request>)
    ensures var after := Routed(w, requests);
      && after.counter == w.counter + |requests| && w.queue <= after.queue && after.replies == w.replies
      && (requests != [] ==> after.counter in after.pending)
    decreases |requests|
  {
    if requests != [] {
      RoutedCounts(w, requests[..|requests| - 1]);
    }
  }

  /** The bound is sharp: a packet published before, and the router counting to the first telemetry id, make
      a run in which that packet is the reply to a request. */
  lemma PacketRepliesBeyond(c: Config) returns (steps: seq<Step>)
    ensures Run(c, START, steps).counter == TELEMETRY_CORRELATION_FLAG
    ensures Run(c, START, steps).replies == [(TELEMETRY_CORRELATION_FLAG, Packet)]
  {
    var publish, apply := Script([Emit(0)]), Apply([], 0);
    var bridge := Bridge(seq(TELEMETRY_CORRELATION_FLAG, _ => Other));
    steps := [publish, bridge, apply];
    var one := Next(c, START, publish);
    assert one.queue == [Respond(TELEMETRY_CORRELATION_FLAG, Packet)];
    var two := Next(c, one, bridge);
    RoutedCounts(one, bridge.requests);
    assert two.queue[0] == one.queue[0];
    var three := Next(c, two, apply);
    assert three == Responded(two.(queue := two.queue[1..]), TELEMETRY_CORRELATION_FLAG, Packet);
    hide Next, Responded;
    assert steps[1..] == [bridge, apply] && [bridge, apply][1..] == [apply] && [apply][1..] == [];
    assert Run(c, START, steps) == Run(c, one, [bridge, apply]) == Run(c, two, [apply]) == Run(c, three, []) == three;
  }

  // ----- Debts -----

  /** A queued command that will lead to an answer on an id. */
  predicate Promises(q: Queued, cid: Cid) {
    match q
    case Asked(_, x) => x == cid
    case Arm(x) => x == cid
    case RunQuery(x) => x == cid
    case Respond(x, _) => x == cid
    case _ => false
  }

  ghost predicate Promised(queue: seq<Queued>, cid: Cid) {
    exists i :: 0 <= i < |queue| && Promises(queue[i], cid)
  }

  /** Every waiting request has something queued for it, or the watchdog holds a deadline for it. */
  ghost predicate Owed(w: World) {
    forall cid :: cid in w.pending ==> cid in w.outstanding || Promised(w.queue, cid)
  }

  lemma PromisedIn(before: seq<Queued>, part: seq<Queued>, after: seq<Queued>, cid: Cid)
    requires Promised(part, cid)
    ensures Promised(before + part + after, cid) && Promised(before + (part + after), cid)
  {
    var i :| 0 <= i < |part| && Promises(part[i], cid);
    var whole := before + part + after;
    assert whole[|before| + i] == part[i];
    assert before + (part + after) == whole;
  }

  lemma PromisedLater(queue: seq<Queued>, cid: Cid)
    requires Promised(queue, cid) && !Promises(queue[0], cid)
    ensures Promised(queue[1..], cid)
  {
    var i :| 0 <= i < |queue| && Promises(queue[i], cid);
    assert queue[1..][i - 1] == queue[i];
  }

  lemma ExecutedPromises(c: Config, ix: Registry.Index, request: Request, cid: Cid)
    ensures Promised(Executed(c, ix, request, cid), cid)
  {
    var q := Executed(c, ix, request, cid);
    assert Promises(q[|q| - 1], cid) || (|q| == 3 && Promises(q[1], cid));
  }

  lemma AppliedOwes(c: Config, w: World, acts: seq<Foreign>, ahead: nat)
    requires w.queue != [] && Owed(w)
    ensures Owed(Applied(c, w, acts, ahead))
  {
    hide Executed, Queues;
    var first, rest, after := w.queue[0], w.queue[1..], Applied(c, w, acts, ahead);
    forall cid | cid in after.pending ensures cid in after.outstanding || Promised(after.queue, cid) {
      if cid !in w.outstanding {
        AppliedKeepsPromise(c, w, acts, ahead, cid);
      }
    }
  }

  /** Applying a command carries out what it promises, or queues something that promises it. */
  lemma AppliedKeepsPromise(c: Config, w: World, acts: seq<Foreign>, ahead: nat, cid: Cid)
    requires w.queue != [] && cid in w.pending && Promised(w.queue, cid)
    ensures var after := Applied(c, w, acts, ahead);
      cid in after.pending ==> cid in after.outstanding || Promised(after.queue, cid)
  {
    hide Executed, Queues, Promised;
    var first, rest, after := w.queue[0], w.queue[1..], Applied(c, w, acts, ahead);
    if !Promises(first, cid) {
      PromisedLater(w.queue, cid);
      RestStays(c, w, acts, ahead, cid);
    } else {
      match first
      case Asked(request, x) =>
        ExecutedPromises(c, w.registry, request, x);
        PromisedIn([], Executed(c, w.registry, request, x), rest, cid);
        assert [] + (Executed(c, w.registry, request, x) + rest) == Executed(c, w.registry, request, x) + rest;
      case RunQuery(x) =>
        var answer := [Respond(x, Answer)];
        assert Promises(answer[0], cid);
        PromisedHere(answer, cid);
        PromisedIn(Queues(w, acts), answer, rest, cid);
      case _ =>
    }
  }

  lemma PromisedHere(queue: seq<Queued>, cid: Cid)
    requires queue != [] && Promises(queue[0], cid)
    ensures Promised(queue, cid)
  {
  }

  lemma RestStays(c: Config, w: World, acts: seq<Foreign>, ahead: nat, cid: Cid)
    requires w.queue != [] && Promised(w.queue[1..], cid)
    ensures Promised(Applied(c, w, acts, ahead).queue, cid)
  {
    hide Promised, Promises, Applied, Children;
    var rest := w.queue[1..];
    AppliedQueue(c, w, acts, ahead);
    PromisedIn(Children(c, w, acts, ahead), rest, [], cid);
    assert Children(c, w, acts, ahead) + rest + [] == Children(c, w, acts, ahead) + rest;
  }

  lemma {:induction false} RoutedOwes(w: World, requests: seq<Request>)
    requires Owed(w)
    ensures Owed(Routed(w, requests))
    decreases |requests|
  {
    if requests != [] {
      RoutedOwes(w, requests[..|requests| - 1]);
      var before, after := Routed(w, requests[..|requests| - 1]), Routed(w, requests);
      forall cid | cid in after.pending ensures cid in after.outstanding || Promised(after.queue, cid) {
        if cid in before.pending {
          if cid !in before.outstanding {
            PromisedIn([], before.queue, [Asked(requests[|requests| - 1], after.counter)], cid);
            assert [] + before.queue + [Asked(requests[|requests| - 1], after.counter)] == after.queue;
          }
        } else {
          assert Promises(after.queue[|before.queue|], cid);
        }
      }
    }
  }

  lemma TickedOwes(c: Config, w: World)
    requires Owed(w) && c.Lawful()
    ensures Owed(Ticked(c, w))
  {
    var ids, after := c.listing(Expired(w)), Ticked(c, w);
    forall cid | cid in w.pending ensures cid in after.outstanding || Promised(after.queue, cid) {
      if cid in w.outstanding && w.now >= w.outstanding[cid] {
        ExpiredIsPromised(c, w, cid);
      } else if cid !in w.outstanding {
        PromisedIn([], w.queue, TimeOuts(ids), cid);
        assert [] + w.queue + TimeOuts(ids) == after.queue;
      }
    }
  }

  lemma ExpiredIsPromised(c: Config, w: World, cid: Cid)
    requires c.Lawful() && cid in Expired(w)
    ensures Promised(Ticked(c, w).queue, cid)
  {
    var ids := c.listing(Expired(w));
    var i :| 0 <= i < |ids| && ids[i] == cid;
    assert Ticked(c, w).queue[|w.queue| + i] == TimeOuts(ids)[i];
    assert Promises(TimeOuts(ids)[i], cid);
  }

  lemma NextOwes(c: Config, w: World, s: Step)
    requires Owed(w) && c.Lawful()
    ensures Owed(Next(c, w, s))
  {
    match s
    case Bridge(requests) => RoutedOwes(w, requests);
    case Tick => TickedOwes(c, w);
    case Elapse(_) =>
    case Sync(_) =>
    case Script(acts) =>
      forall cid | cid in w.pending && cid !in w.outstanding ensures Promised(w.queue + Queues(w, acts), cid) {
        PromisedIn([], w.queue, Queues(w, acts), cid);
        assert [] + w.queue + Queues(w, acts) == w.queue + Queues(w, acts);
      }
    case Apply(acts, ahead) => if w.queue != [] { AppliedOwes(c, w, acts, ahead); }
  }

  lemma {:induction false} OwedFrom(c: Config, w: World, steps: seq<Step>)
    requires Owed(w) && c.Lawful()
    ensures Owed(Run(c, w, steps))
    decreases |steps|
  {
    if steps != [] {
      NextOwes(c, w, steps[0]);
      OwedFrom(c, Next(c, w, steps[0]), steps[1..]);
    }
  }

  /** Whenever the queue has run dry, every request still waiting is one the watchdog has a deadline for. */
  lemma QuietPendingIsOwed(c: Config, steps: seq<Step>)
    requires c.Lawful() && Run(c, START, steps).queue == []
    ensures Run(c, START, steps).pending <= Run(c, START, steps).outstanding.Keys
  {
    OwedFrom(c, START, steps);
    var w := Run(c, START, steps);
    forall cid | cid in w.pending ensures cid in w.outstanding {
      assert !Promised(w.queue, cid);
    }
  }

  // ----- The watchdog -----

  /** The request a queued command will still arm the watchdog for. */
  function Starts(q: Queued): Option<Cid> {
    match q
    case Asked(_, cid) => Some(cid)
    case Arm(cid) => Some(cid)
    case _ => None
  }

  /** No queued command will arm the watchdog for this id again. */
  ghost predicate Started(w: World, cid: Cid) {
    cid <= w.counter && forall i :: 0 <= i < |w.queue| ==> Starts(w.queue[i]) != Some(cid)
  }

  ghost predicate DistinctStarts(q: seq<Queued>) {
    forall i, j :: 0 <= i < j < |q| && Starts(q[i]).Some? ==> Starts(q[i]) != Starts(q[j])
  }

  ghost predicate UnarmedStarts(q: seq<Queued>, counter: Cid, armed: set<Cid>) {
    forall i :: 0 <= i < |q| && Starts(q[i]).Some? ==> Starts(q[i]).value <= counter && Starts(q[i]).value !in armed
  }

  /** An id is armed at most once: the commands that arm are queued for different requests, each of them
      known to the router and not yet armed. */
  ghost predicate ArmsOnce(w: World) {
    && DistinctStarts(w.queue)
    && UnarmedStarts(w.queue, w.counter, w.outstanding.Keys)
    && forall cid :: cid in w.outstanding ==> cid <= w.counter
  }

  ghost predicate Harmless(q: seq<Queued>) {
    forall i :: 0 <= i < |q| ==> Starts(q[i]).None?
  }

  lemma QueuesAreHarmless(w: World, acts: seq<Foreign>)
    ensures Harmless(Queues(w, acts))
  {
  }

  /** What replaces the first queued command: at most one command that arms, and for the same request. */
  function Children(c: Config, w: World, acts: seq<Foreign>, ahead: nat): seq<Queued>
    requires w.queue != []
  {
    match w.queue[0]
    case Asked(request, cid) => Executed(c, w.registry, request, cid)
    case Trigger(call, origin) => Observed(c, w, call, origin, acts, ahead)
    case Dispatch(name, params, _) => if Runs(c, name, params) then Queues(w, acts) + [ClearPending] else []
    case RunQuery(cid) => Queues(w, acts) + [Respond(cid, Answer)]
    case _ => []
  }

  lemma AppliedQueue(c: Config, w: World, acts: seq<Foreign>, ahead: nat)
    requires w.queue != []
    ensures Applied(c, w, acts, ahead).queue == Children(c, w, acts, ahead) + w.queue[1..]
  {
    hide Executed, Queues;
    var rest := w.queue[1..];
    assert [] + rest == rest;
  }

  lemma ChildrenStart(c: Config, w: World, acts: seq<Foreign>, ahead: nat)
    requires w.queue != []
    ensures Inherits(Children(c, w, acts, ahead), w.queue[0])
    ensures w.queue[0].Asked? || Harmless(Children(c, w, acts, ahead))
  {
    QueuesAreHarmless(w, acts);
  }

  /** Commands that arm at most what the one they replace would have armed, and once. */
  ghost predicate Inherits(front: seq<Queued>, first: Queued) {
    && (forall i :: 0 <= i < |front| && Starts(front[i]).Some? ==> Starts(front[i]) == Starts(first))
    && (forall i, j :: 0 <= i < j < |front| && Starts(front[i]).Some? ==> Starts(front[j]).None?)
  }

  lemma ReplacedStarts(front: seq<Queued>, queue: seq<Queued>, counter: Cid, armed: set<Cid>)
    requires queue != [] && Inherits(front, queue[0]) && DistinctStarts(queue) && UnarmedStarts(queue, counter, armed)
    ensures DistinctStarts(front + queue[1..]) && UnarmedStarts(front + queue[1..], counter, armed)
  {
    hide Starts;
    var q, rest := front + queue[1..], queue[1..];
    forall i, j | 0 <= i < j < |q| && Starts(q[i]).Some? ensures Starts(q[i]) != Starts(q[j]) {
      if j >= |front| {
        assert q[j] == queue[j - |front| + 1];
        if i >= |front| {
          assert q[i] == queue[i - |front| + 1];
        }
      }
    }
    forall i | 0 <= i < |q| && Starts(q[i]).Some? ensures Starts(q[i]).value <= counter && Starts(q[i]).value !in armed {
      if i >= |front| {
        assert q[i] == queue[i - |front| + 1];
      }
    }
  }

  /** Once the first command has armed its id, no other queued one will. */
  lemma ArmedStarts(queue: seq<Queued>, counter: Cid, armed: set<Cid>, cid: Cid)
    requires queue != [] && Starts(queue[0]) == Some(cid) && DistinctStarts(queue) && UnarmedStarts(queue, counter, armed)
    ensures cid <= counter && UnarmedStarts(queue[1..], counter, armed + {cid})
  {
    hide Starts;
    var rest := queue[1..];
    forall i | 0 <= i < |rest| && Starts(rest[i]).Some?
      ensures Starts(rest[i]).value <= counter && Starts(rest[i]).value !in armed + {cid}
    {
      assert rest[i] == queue[i + 1];
    }
  }

  lemma FewerArmed(q: seq<Queued>, counter: Cid, armed: set<Cid>, fewer: set<Cid>)
    requires UnarmedStarts(q, counter, armed) && fewer <= armed
    ensures UnarmedStarts(q, counter, fewer)
  {
  }

  lemma AppliedArmsOnce(c: Config, w: World, acts: seq<Foreign>, ahead: nat)
    requires w.queue != [] && ArmsOnce(w)
    ensures ArmsOnce(Applied(c, w, acts, ahead))
  {
    hide Executed, Queues, Children, Starts, DistinctStarts, UnarmedStarts, Inherits;
    var after := Applied(c, w, acts, ahead);
    AppliedQueue(c, w, acts, ahead);
    ChildrenStart(c, w, acts, ahead);
    ReplacedStarts(Children(c, w, acts, ahead), w.queue, w.counter, w.outstanding.Keys);
    if w.queue[0].Arm? {
      ArmingIsFirst(w.queue[0]);
      ArmedStarts(w.queue, w.counter, w.outstanding.Keys, w.queue[0].cid);
      assert after.outstanding.Keys == w.outstanding.Keys + {w.queue[0].cid};
    } else {
      FewerArmed(after.queue, w.counter, w.outstanding.Keys, after.outstanding.Keys);
    }
  }

  lemma ArmingIsFirst(q: Queued)
    ensures q.Arm? ==> Starts(q) == Some(q.cid)
  {
  }

  lemma {:induction false} RoutedArmsOnce(w: World, requests: seq<Request>)
    requires ArmsOnce(w)
    ensures ArmsOnce(Routed(w, requests))
    decreases |requests|
  {
    if requests != [] {
      RoutedArmsOnce(w, requests[..|requests| - 1]);
    }
  }

  lemma NextArmsOnce(c: Config, w: World, s: Step)
    requires ArmsOnce(w)
    ensures ArmsOnce(Next(c, w, s))
  {
    match s
    case Bridge(requests) => RoutedArmsOnce(w, requests);
    case Tick =>
      assert Harmless(TimeOuts(c.listing(Expired(w))));
    case Elapse(_) =>
    case Sync(_) =>
    case Script(acts) => QueuesAreHarmless(w, acts);
    case Apply(acts, ahead) => if w.queue != [] { AppliedArmsOnce(c, w, acts, ahead); }
  }

  lemma {:induction false} ArmsOnceFrom(c: Config, w: World, steps: seq<Step>)
    requires ArmsOnce(w)
    ensures ArmsOnce(Run(c, w, steps))
    decreases |steps|
  {
    if steps != [] {
      NextArmsOnce(c, w, steps[0]);
      ArmsOnceFrom(c, Next(c, w, steps[0]), steps[1..]);
    }
  }

  lemma {:induction false} RoutedStarted(w: World, requests: seq<Request>, cid: Cid)
    requires Started(w, cid)
    ensures Started(Routed(w, requests), cid) && w.counter <= Routed(w, requests).counter
    ensures Routed(w, requests).outstanding == w.outstanding
    decreases |requests|
  {
    if requests != [] {
      RoutedStarted(w, requests[..|requests| - 1], cid);
    }
  }

  /** Once nothing queued will arm an id, it is never armed again, and a debt that is gone stays gone. */
  lemma NextStarted(c: Config, w: World, s: Step, cid: Cid)
    requires Started(w, cid)
    ensures Started(Next(c, w, s), cid)
    ensures cid !in w.outstanding ==> cid !in Next(c, w, s).outstanding
  {
    match s
    case Bridge(requests) => RoutedStarted(w, requests, cid);
    case Tick =>
      assert Harmless(TimeOuts(c.listing(Expired(w))));
    case Elapse(_) =>
    case Sync(_) =>
    case Script(acts) => QueuesAreHarmless(w, acts);
    case Apply(acts, ahead) => if w.queue != [] { AppliedStarted(c, w, acts, ahead, cid); }
  }

  lemma AppliedStarted(c: Config, w: World, acts: seq<Foreign>, ahead: nat, cid: Cid)
    requires w.queue != [] && Started(w, cid)
    ensures Started(Applied(c, w, acts, ahead), cid)
    ensures cid !in w.outstanding ==> cid !in Applied(c, w, acts, ahead).outstanding
  {
    hide Executed, Queues, Children, Starts;
    AppliedQueue(c, w, acts, ahead);
    ChildrenStart(c, w, acts, ahead);
    ArmingIsFirst(w.queue[0]);
  }

  lemma {:induction false} DebtStaysGone(c: Config, w: World, steps: seq<Step>, cid: Cid)
    requires Started(w, cid) && cid !in w.outstanding
    ensures Started(Run(c, w, steps), cid) && cid !in Run(c, w, steps).outstanding
    decreases |steps|
  {
    if steps != [] {
      NextStarted(c, w, steps[0], cid);
      DebtStaysGone(c, Next(c, w, steps[0]), steps[1..], cid);
    }
  }

  lemma {:induction false} RunTwice(c: Config, w: World, a: seq<Step>, b: seq<Step>)
    ensures Run(c, w, a + b) == Run(c, Run(c, w, a), b)
    decreases |a|
  {
    if a == [] {
      assert a + b == b;
    } else {
      assert (a + b)[0] == a[0] && (a + b)[1..] == a[1..] + b;
      RunTwice(c, Next(c, w, a[0]), a[1..], b);
    }
  }

  /** The watchdog: a waiting request whose deadline has passed is answered by the next tick. Whatever its
      handler does or fails to do, and however late it answers, the caller has an answer, one, once that
      tick's commands have been applied. */
  lemma AnsweredByTick(c: Config, before: seq<Step>, after: seq<Step>, cid: Cid)
    requires c.Lawful()
    requires cid in Run(c, START, before).pending && cid in Run(c, START, before).outstanding
    requires Run(c, START, before).now >= Run(c, START, before).outstanding[cid]
    requires Run(c, START, before + [Tick] + after).queue == []
    ensures var end := Run(c, START, before + [Tick] + after); cid !in end.pending && Answered(end, cid)
  {
    hide Next, Run, ArmsOnce, Started;
    var w, run := Run(c, START, before), before + [Tick] + after;
    ArmsOnceFrom(c, START, before);
    RepliedAtMostOnce(c, before);
    ArmedIsStarted(w, cid);
    NextStarted(c, w, Tick, cid);
    TickSettles(c, w, cid);
    DebtStaysGone(c, Next(c, w, Tick), after, cid);
    RunThrough(c, before, Tick, after);
    QuietPendingIsOwed(c, run);
    RepliedAtMostOnce(c, run);
    CountsUp(c, w, [Tick] + after);
    RunTwice(c, START, before, [Tick] + after);
    assert run == before + ([Tick] + after);
  }

  lemma TickSettles(c: Config, w: World, cid: Cid)
    requires cid in w.outstanding && w.now >= w.outstanding[cid]
    ensures cid !in Next(c, w, Tick).outstanding
  {
  }

  lemma ArmedIsStarted(w: World, cid: Cid)
    requires ArmsOnce(w) && cid in w.outstanding
    ensures Started(w, cid)
  {
    forall i | 0 <= i < |w.queue| ensures Starts(w.queue[i]) != Some(cid) {
      assert Starts(w.queue[i]).Some? ==> Starts(w.queue[i]).value !in w.outstanding.Keys;
    }
  }

  lemma RunThrough(c: Config, before: seq<Step>, s: Step, after: seq<Step>)
    ensures Run(c, START, before + [s] + after) == Run(c, Next(c, Run(c, START, before), s), after)
  {
    hide Next;
    RunTwice(c, START, before, [s] + after);
    assert before + [s] + after == before + ([s] + after);
    assert ([s] + after)[1..] == after;
  }

  lemma {:induction false} CountsUp(c: Config, w: World, steps: seq<Step>)
    ensures w.counter <= Run(c, w, steps).counter
    decreases |steps|
  {
    if steps != [] {
      NextCountsUp(c, w, steps[0]);
      CountsUp(c, Next(c, w, steps[0]), steps[1..]);
    }
  }

  lemma NextCountsUp(c: Config, w: World, s: Step)
    ensures w.counter <= Next(c, w, s).counter
  {
    if s.Bridge? {
      RoutedCountsUp(w, s.requests);
    }
  }

  lemma {:induction false} RoutedCountsUp(w: World, requests: seq<Request>)
    ensures w.counter <= Routed(w, requests).counter
    decreases |requests|
  {
    if requests != [] {
      RoutedCountsUp(w, requests[..|requests| - 1]);
    }
  }

  /** No deadline lies further ahead than the timeout. */
  ghost predicate DeadlinesNear(c: Config, w: World) {
    forall cid :: cid in w.outstanding ==> w.outstanding[cid] <= w.now + c.timeout
  }

  lemma {:induction false} RoutedOwesNothing(w: World, requests: seq<Request>)
    ensures Routed(w, requests).outstanding == w.outstanding && Routed(w, requests).now == w.now
    decreases |requests|
  {
    if requests != [] {
      RoutedOwesNothing(w, requests[..|requests| - 1]);
    }
  }

  lemma NextDeadlines(c: Config, w: World, s: Step)
    requires DeadlinesNear(c, w)
    ensures DeadlinesNear(c, Next(c, w, s))
  {
    hide Executed, Queues, Dispatches, Runs;
    if s.Bridge? {
      RoutedOwesNothing(w, s.requests);
    }
  }

  lemma {:induction false} DeadlinesFrom(c: Config, w: World, steps: seq<Step>)
    requires DeadlinesNear(c, w)
    ensures DeadlinesNear(c, Run(c, w, steps))
    decreases |steps|
  {
    hide DeadlinesNear, Next;
    if steps != [] {
      NextDeadlines(c, w, steps[0]);
      DeadlinesFrom(c, Next(c, w, steps[0]), steps[1..]);
    }
  }

  /** Over every run: a request that is waiting when the queue has run dry has its answer, once, after the
      timeout has elapsed, a tick, and the queue running dry again. */
  lemma AnsweredWithinTimeout(c: Config, before: seq<Step>, seconds: real, after: seq<Step>, cid: Cid)
    requires c.Lawful() && seconds >= c.timeout
    requires Run(c, START, before).queue == [] && cid in Run(c, START, before).pending
    requires Run(c, START, before + [Elapse(seconds)] + [Tick] + after).queue == []
    ensures var end := Run(c, START, before + [Elapse(seconds)] + [Tick] + after);
      cid !in end.pending && Answered(end, cid)
  {
    var w, waited := Run(c, START, before), before + [Elapse(seconds)];
    QuietPendingIsOwed(c, before);
    DeadlinesFrom(c, START, before);
    RunThrough(c, before, Elapse(seconds), []);
    assert waited + [] == waited;
    assert Run(c, START, waited) == w.(now := w.now + seconds);
    AnsweredByTick(c, waited, after, cid);
  }

  // ----- Which requests wait -----

  /** Every request a run has bridged, in the order of their ids. */
  function Bridgings(steps: seq<Step>): seq<Request>
    decreases |steps|
  {
    if steps == [] then [] else (if steps[0].Bridge? then steps[0].requests else []) + Bridgings(steps[1..])
  }

  /** A request for a command of this binary that answers later. */
  predicate Defers(c: Config, r: Request) {
    r.Execute? && r.call.name in c.deferred && r.call.name in c.registered
  }

  /** A queued command that carries a request, or arms for one, does so for the request its id stands for. */
  predicate Fits(c: Config, rs: seq<Request>, q: Queued) {
    match q
    case Asked(r, cid) => 1 <= cid <= |rs| && rs[cid - 1] == r
    case Arm(cid) => 1 <= cid <= |rs| && Defers(c, rs[cid - 1])
    case _ => true
  }

  ghost predicate Traced(c: Config, rs: seq<Request>, w: World) {
    && w.counter == |rs|
    && (forall i :: 0 <= i < |w.queue| ==> Fits(c, rs, w.queue[i]))
    && (forall cid :: cid in w.outstanding ==> 1 <= cid <= |rs| && Defers(c, rs[cid - 1]))
  }

  lemma {:induction false} RoutedTraced(c: Config, rs: seq<Request>, w: World, requests: seq<Request>)
    requires Traced(c, rs, w)
    ensures Traced(c, rs + requests, Routed(w, requests))
    decreases |requests|
  {
    if requests == [] {
      assert rs + requests == rs;
    } else {
      var n := |requests| - 1;
      RoutedTraced(c, rs, w, requests[..n]);
      assert rs + requests == rs + requests[..n] + [requests[n]];
    }
  }

  lemma ExecutedFits(c: Config, ix: Registry.Index, rs: seq<Request>, request: Request, cid: Cid)
    requires 1 <= cid <= |rs| && rs[cid - 1] == request
    ensures forall i :: 0 <= i < |Executed(c, ix, request, cid)| ==> Fits(c, rs, Executed(c, ix, request, cid)[i])
  {
  }

  lemma ChildrenFit(c: Config, rs: seq<Request>, w: World, acts: seq<Foreign>, ahead: nat)
    requires w.queue != [] && Fits(c, rs, w.queue[0])
    ensures forall i :: 0 <= i < |Children(c, w, acts, ahead)| ==> Fits(c, rs, Children(c, w, acts, ahead)[i])
  {
    if w.queue[0].Asked? {
      ExecutedFits(c, w.registry, rs, w.queue[0].request, w.queue[0].cid);
    }
  }

  lemma AppliedTraced(c: Config, rs: seq<Request>, w: World, acts: seq<Foreign>, ahead: nat)
    requires w.queue != [] && Traced(c, rs, w)
    ensures Traced(c, rs, Applied(c, w, acts, ahead))
  {
    var after := Applied(c, w, acts, ahead);
    assert Fits(c, rs, w.queue[0]);
    hide Executed, Queues, Children, Fits;
    AppliedQueue(c, w, acts, ahead);
    ChildrenFit(c, rs, w, acts, ahead);
    assert forall i :: 0 <= i < |w.queue| - 1 ==> w.queue[1..][i] == w.queue[i + 1];
    ArmedFits(c, rs, w.queue[0]);
  }

  lemma ArmedFits(c: Config, rs: seq<Request>, q: Queued)
    requires Fits(c, rs, q)
    ensures q.Arm? ==> 1 <= q.cid <= |rs| && Defers(c, rs[q.cid - 1])
  {
  }

  lemma {:induction false} TracedFrom(c: Config, rs: seq<Request>, w: World, steps: seq<Step>)
    requires Traced(c, rs, w)
    ensures Traced(c, rs + Bridgings(steps), Run(c, w, steps))
    decreases |steps|
  {
    hide Traced, Next;
    if steps == [] {
      assert rs + [] == rs;
    } else {
      var more := if steps[0].Bridge? then steps[0].requests else [];
      NextTraced(c, rs, w, steps[0]);
      TracedFrom(c, rs + more, Next(c, w, steps[0]), steps[1..]);
      assert rs + Bridgings(steps) == rs + more + Bridgings(steps[1..]);
    }
  }

  lemma NextTraced(c: Config, rs: seq<Request>, w: World, s: Step)
    requires Traced(c, rs, w)
    ensures Traced(c, rs + if s.Bridge? then s.requests else [], Next(c, w, s))
  {
    assert rs + [] == rs;
    match s
    case Bridge(requests) => RoutedTraced(c, rs, w, requests);
    case Apply(acts, ahead) => if w.queue != [] { AppliedTraced(c, rs, w, acts, ahead); }
    case _ =>
  }

  /** Every request but a deferred one has its answer by the time the queue has run dry. */
  lemma OrdinaryAnsweredWhenQuiet(c: Config, steps: seq<Step>, cid: Cid)
    requires c.Lawful() && Run(c, START, steps).queue == []
    requires 1 <= cid <= |Bridgings(steps)| && !Defers(c, Bridgings(steps)[cid - 1])
    ensures Answered(Run(c, START, steps), cid)
  {
    TracedFrom(c, [], START, steps);
    assert [] + Bridgings(steps) == Bridgings(steps);
    QuietPendingIsOwed(c, steps);
    RepliedAtMostOnce(c, steps);
  }

  // ----- Whose id a handler reads -----

  /** What must stand right in front of a command that works on a deferred request: the command that
      precedes it in that request's own dispatch. */
  predicate Follows(q: Queued, before: Queued) {
    match q
    case Arm(cid) => before == InsertPending(cid)
    case Trigger(_, Some(cid)) => before == Arm(cid)
    case _ => true
  }

  /** What the pending id must be when such a command is next. */
  predicate Addressed(q: Queued, pendingRequest: Cid) {
    match q
    case Arm(cid) => cid == pendingRequest
    case Trigger(_, Some(cid)) => cid == pendingRequest
    case _ => true
  }

  ghost predicate Lined(q: seq<Queued>) {
    forall i :: 1 <= i < |q| ==> Follows(q[i], q[i - 1])
  }

  /** Nothing gets between the parts of a deferred dispatch. */
  ghost predicate InLine(w: World) {
    Lined(w.queue) && (w.queue != [] ==> Addressed(w.queue[0], w.pendingRequest))
  }

  /** A command that can stand anywhere. */
  predicate Free(q: Queued) {
    !q.Arm? && (q.Trigger? ==> q.origin == None)
  }

  ghost predicate AllFree(q: seq<Queued>) {
    forall i :: 0 <= i < |q| ==> Free(q[i])
  }

  lemma FreeFollows(q: Queued, before: Queued, pendingRequest: Cid)
    requires Free(q)
    ensures Follows(q, before) && Addressed(q, pendingRequest)
  {
  }

  lemma FreeInFront(front: seq<Queued>, rest: seq<Queued>, pendingRequest: Cid)
    requires AllFree(front) && Lined(rest)
    requires rest != [] ==> Free(rest[0]) || (front == [] && Addressed(rest[0], pendingRequest))
    ensures Lined(front + rest) && (front + rest != [] ==> Addressed((front + rest)[0], pendingRequest))
  {
    hide Free, Follows, Addressed;
    var q := front + rest;
    forall i | 1 <= i < |q| ensures Follows(q[i], q[i - 1]) {
      if i < |front| {
        FreeFollows(q[i], q[i - 1], pendingRequest);
      } else if i == |front| {
        FreeFollows(q[i], q[i - 1], pendingRequest);
      } else {
        assert q[i] == rest[i - |front|] && q[i - 1] == rest[i - |front| - 1];
      }
    }
    if q != [] && front != [] {
      FreeFollows(q[0], q[0], pendingRequest);
    }
    if front == [] {
      assert q == rest;
      if rest != [] && Free(rest[0]) {
        FreeFollows(q[0], q[0], pendingRequest);
      }
    }
  }

  lemma QueuesAreFree(w: World, acts: seq<Foreign>)
    ensures AllFree(Queues(w, acts))
  {
  }

  /** The command after one that is not part of a deferred dispatch can stand anywhere. */
  lemma NextIsFree(w: World)
    requires InLine(w) && |w.queue| > 1 && !w.queue[0].InsertPending? && !w.queue[0].Arm?
    ensures Free(w.queue[1])
  {
    assert Follows(w.queue[1], w.queue[0]);
  }

  lemma RestIsLined(w: World)
    requires InLine(w) && w.queue != []
    ensures Lined(w.queue[1..])
  {
    var rest := w.queue[1..];
    forall i | 1 <= i < |rest| ensures Follows(rest[i], rest[i - 1]) {
      assert Follows(w.queue[i + 1], w.queue[i]);
    }
  }

  lemma ObservedIsFree(c: Config, w: World, call: Call, origin: Option<Cid>, acts: seq<Foreign>, ahead: nat)
    ensures AllFree(Observed(c, w, call, origin, acts, ahead))
  {
    hide Queues, Resolved;
    QueuesAreFree(w, acts);
  }

  lemma AppliedInLine(c: Config, w: World, acts: seq<Foreign>, ahead: nat)
    requires w.queue != [] && InLine(w)
    ensures InLine(Applied(c, w, acts, ahead))
  {
    hide Queues, Observed, Free, Lined, Follows, Executed;
    var rest, after := w.queue[1..], Applied(c, w, acts, ahead);
    RestIsLined(w);
    QueuesAreFree(w, acts);
    if |w.queue| > 1 && !w.queue[0].InsertPending? && !w.queue[0].Arm? {
      NextIsFree(w);
    }
    match w.queue[0]
    case Asked(request, cid) => ExecutedInLine(c, w.registry, request, cid, rest, w.pendingRequest);
    case InsertPending(cid) => StepsInLine(w);
    case Arm(cid) => StepsInLine(w);
    case Trigger(call, origin) =>
      ObservedIsFree(c, w, call, origin, acts, ahead);
      FreeInFront(Observed(c, w, call, origin, acts, ahead), rest, w.pendingRequest);
    case Dispatch(_, _, _) =>
      OneFree(ClearPending);
      BothFree(Queues(w, acts), [ClearPending]);
      FreeInFront(Queues(w, acts) + [ClearPending], rest, w.pendingRequest);
      FreeInFront([], rest, w.pendingRequest);
      assert [] + rest == rest;
    case RunQuery(cid) =>
      OneFree(Respond(cid, Answer));
      BothFree(Queues(w, acts), [Respond(cid, Answer)]);
      FreeInFront(Queues(w, acts) + [Respond(cid, Answer)], rest, w.pendingRequest);
    case ClearPending =>
      FreeInFront([], rest, 0);
      assert [] + rest == rest;
    case Respond(cid, response) =>
      FreeInFront([], rest, w.pendingRequest);
      assert [] + rest == rest;
    case Reindex(_) =>
      FreeInFront([], rest, w.pendingRequest);
      assert [] + rest == rest;
  }

  lemma OneFree(q: Queued)
    requires Free(q)
    ensures AllFree([q])
  {
  }

  lemma BothFree(a: seq<Queued>, b: seq<Queued>)
    requires AllFree(a) && AllFree(b)
    ensures AllFree(a + b)
  {
  }

  lemma StepsInLine(w: World)
    requires InLine(w) && w.queue != [] && (w.queue[0].InsertPending? || w.queue[0].Arm?)
    ensures |w.queue| > 1 ==>
              Addressed(w.queue[1], if w.queue[0].InsertPending? then w.queue[0].cid else w.pendingRequest)
  {
    if |w.queue| > 1 {
      assert Follows(w.queue[1], w.queue[0]);
    }
  }

  lemma ExecutedInLine(
    c: Config, ix: Registry.Index, request: Request, cid: Cid, rest: seq<Queued>, pendingRequest: Cid)
    requires Lined(rest) && (rest != [] ==> Free(rest[0]))
    ensures Lined(Executed(c, ix, request, cid) + rest)
    ensures Addressed((Executed(c, ix, request, cid) + rest)[0], pendingRequest)
  {
    var q := Executed(c, ix, request, cid) + rest;
    var n := |Executed(c, ix, request, cid)|;
    forall i | 1 <= i < |q| ensures Follows(q[i], q[i - 1]) {
      if i > n {
        assert q[i] == rest[i - n] && q[i - 1] == rest[i - n - 1];
      } else if i == n {
        assert q[i] == rest[0];
      }
    }
  }

  lemma {:induction false} RoutedInLine(w: World, requests: seq<Request>)
    requires InLine(w)
    ensures InLine(Routed(w, requests)) && Routed(w, requests).pendingRequest == w.pendingRequest
    decreases |requests|
  {
    if requests != [] {
      RoutedInLine(w, requests[..|requests| - 1]);
    }
  }

  lemma FreeBehind(w: World, more: seq<Queued>)
    requires InLine(w) && AllFree(more)
    ensures InLine(w.(queue := w.queue + more))
  {
    hide Free, Follows, Addressed;
    var q := w.queue + more;
    forall i | 1 <= i < |q| ensures Follows(q[i], q[i - 1]) {
      if i >= |w.queue| {
        FreeFollows(more[i - |w.queue|], q[i - 1], w.pendingRequest);
      }
    }
    if w.queue == [] && more != [] {
      FreeFollows(more[0], more[0], w.pendingRequest);
    }
  }

  lemma NextInLine(c: Config, w: World, s: Step)
    requires InLine(w)
    ensures InLine(Next(c, w, s))
  {
    match s
    case Bridge(requests) => RoutedInLine(w, requests);
    case Tick => FreeBehind(w, TimeOuts(c.listing(Expired(w))));
    case Elapse(_) =>
    case Sync(_) =>
    case Script(acts) =>
      QueuesAreFree(w, acts);
      FreeBehind(w, Queues(w, acts));
    case Apply(acts, ahead) => if w.queue != [] { AppliedInLine(c, w, acts, ahead); }
  }

  lemma {:induction false} InLineFrom(c: Config, w: World, steps: seq<Step>)
    requires InLine(w)
    ensures InLine(Run(c, w, steps))
    decreases |steps|
  {
    if steps != [] {
      NextInLine(c, w, steps[0]);
      InLineFrom(c, Next(c, w, steps[0]), steps[1..]);
    }
  }

  /** However many requests, scripts and ticks are interleaved, a deferred command is triggered with its own
      request's id pending. */
  lemma TriggerFindsOwnId(c: Config, steps: seq<Step>, call: Call, cid: Cid)
    requires Run(c, START, steps).queue != [] && Run(c, START, steps).queue[0] == Trigger(call, Some(cid))
    ensures Run(c, START, steps).pendingRequest == cid
  {
    InLineFrom(c, START, steps);
  }
}
