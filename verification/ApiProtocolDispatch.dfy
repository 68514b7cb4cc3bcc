/** From a request to its command's handler: what the caller is told, and whose id is pending when the
    dispatch is over. */
module ApiProtocolDispatch {
  import opened ApiProtocol
  import opened ApiProtocolRuns
  import opened Json
  import opened Wrappers
  import Registry = EntityRegistry

  // ----- What happens beside the queue -----

  ghost predicate AllAside(steps: seq<Step>) {
    forall i :: 0 <= i < |steps| ==> !steps[i].Apply?
  }

  /** The systems, the clock and other code leave what is queued first, the pending id and the registry alone. */
  lemma AsideKeeps(c: Config, w: World, s: Step)
    requires w.queue != [] && !s.Apply?
    ensures var after := Next(c, w, s);
      w.queue <= after.queue && after.pendingRequest == w.pendingRequest && after.registry == w.registry
  {
    if s.Bridge? {
      RoutedKeeps(w, s.requests);
    }
  }

  lemma {:induction false} RoutedKeeps(w: World, requests: seq<Request>)
    ensures var after := Routed(w, requests);
      w.queue <= after.queue && after.pendingRequest == w.pendingRequest && after.registry == w.registry
    decreases |requests|
  {
    if requests != [] {
      RoutedKeeps(w, requests[..|requests| - 1]);
    }
  }

  lemma {:induction false} AsidesKeep(c: Config, w: World, steps: seq<Step>)
    requires w.queue != [] && AllAside(steps)
    ensures var after := Run(c, w, steps);
      w.queue <= after.queue && after.pendingRequest == w.pendingRequest && after.registry == w.registry
    decreases |steps|
  {
    hide Next;
    if steps != [] {
      AsideKeeps(c, w, steps[0]);
      AsidesKeep(c, Next(c, w, steps[0]), steps[1..]);
    }
  }

  // ----- One command and what it leads to -----

  /** A run as seen from some commands at the front of the queue: how much of them and of what they led to is
      still queued, at the front, and whether any command's handler has run meanwhile. */
  datatype Settling = Settling(world: World, left: nat, ran: bool)

  function SettleStep(c: Config, st: Settling, s: Step): Settling
    requires st.left > 0
  {
    var w := st.world;
    if s.Apply? && w.queue != [] then
      Settling(Next(c, w, s), st.left - 1 + |Children(c, w, s.acts, s.ahead)|,
               st.ran || (w.queue[0].Dispatch? && Runs(c, w.queue[0].name, w.queue[0].params)))
    else st.(world := Next(c, w, s))
  }

  /** The run up to the moment when nothing is left of them. */
  function Settled(c: Config, st: Settling, steps: seq<Step>): Settling
    decreases |steps|
  {
    if st.left == 0 || steps == [] then st else Settled(c, SettleStep(c, st, steps[0]), steps[1..])
  }

  ghost predicate NoneInvoked(acts: seq<Foreign>) {
    forall i :: 0 <= i < |acts| ==> !acts[i].Invoke?
  }

  ghost predicate Tame(q: seq<Queued>) {
    forall i :: 0 <= i < |q| ==> !q[i].Asked? && !q[i].InsertPending?
  }

  ghost predicate NoClear(q: seq<Queued>) {
    forall i :: 0 <= i < |q| ==> !q[i].ClearPending?
  }

  ghost predicate NoCalls(q: seq<Queued>) {
    forall i :: 0 <= i < |q| ==> !q[i].Trigger? && !q[i].Dispatch? && !q[i].RunQuery?
  }

  /** What is left sets no id pending. Before any handler has run the pending id is `cid`; afterwards it is
      gone, or still `cid` with the command that clears it queued. */
  ghost predicate Live(st: Settling, cid: Cid) {
    var q := st.world.queue;
    && st.left <= |q| && Tame(q[..st.left])
    && (st.ran ==> st.world.pendingRequest == 0 || (st.world.pendingRequest == cid && !NoClear(q[..st.left])))
    && (!st.ran ==> st.world.pendingRequest == cid && NoClear(q[..st.left]))
  }

  lemma QueuesAreTame(w: World, acts: seq<Foreign>)
    ensures Tame(Queues(w, acts)) && NoClear(Queues(w, acts)) && (NoneInvoked(acts) ==> NoCalls(Queues(w, acts)))
  {
  }

  lemma FrontAfter(children: seq<Queued>, q: seq<Queued>, left: nat)
    requires 1 <= left <= |q|
    ensures (children + q[1..])[..left - 1 + |children|] == children + q[1..left]
    ensures left < |q| ==> (children + q[1..])[left - 1 + |children|] == q[left]
  {
  }

  /** What a command that sets no id pending leaves in its place. */
  lemma ChildrenAreTame(c: Config, w: World, acts: seq<Foreign>, ahead: nat)
    requires w.queue != [] && !w.queue[0].Asked? && !w.queue[0].InsertPending?
    ensures var children, q := Children(c, w, acts, ahead), w.queue[0];
      && Tame(children)
      && (!NoClear(children) <==> q.Dispatch? && Runs(c, q.name, q.params))
      && (NoneInvoked(acts) && !q.Trigger? ==> NoCalls(children))
      && (!q.Trigger? && !q.Dispatch? && !q.RunQuery? ==> children == [])
  {
    hide Queues, Resolved;
    QueuesAreTame(w, acts);
    if w.queue[0].Dispatch? && Runs(c, w.queue[0].name, w.queue[0].params) {
      assert Children(c, w, acts, ahead)[|Children(c, w, acts, ahead)| - 1] == ClearPending;
    }
  }

  lemma FrontParts(front: seq<Queued>, children: seq<Queued>)
    requires front != []
    ensures Tame(front) && Tame(children) ==> Tame(children + front[1..])
    ensures NoClear(children + front[1..]) <==> NoClear(children) && NoClear(front[1..])
    ensures NoClear(front) <==> !front[0].ClearPending? && NoClear(front[1..])
  {
    var rest := front[1..];
    var all := children + rest;
    assert forall i :: 0 <= i < |children| ==> all[i] == children[i];
    assert forall i :: 0 <= i < |rest| ==> all[|children| + i] == rest[i] && rest[i] == front[i + 1];
    assert forall i :: 1 <= i < |front| ==> front[i] == rest[i - 1];
  }

  /** What the front of the queue becomes in one step. */
  lemma FrontStep(c: Config, st: Settling, s: Step)
    requires 1 <= st.left <= |st.world.queue|
    ensures var q, after := st.world.queue, SettleStep(c, st, s);
      var children := if s.Apply? then Children(c, st.world, s.acts, s.ahead) else [q[0]];
      && after.left == st.left - 1 + |children| <= |after.world.queue|
      && after.world.queue[..after.left] == children + q[1..st.left]
      && (st.left < |q| ==> after.left < |after.world.queue| && after.world.queue[after.left] == q[st.left])
      && (!s.Apply? ==> after.world.pendingRequest == st.world.pendingRequest && after.ran == st.ran
                        && after.world.registry == st.world.registry)
  {
    hide Children, Applied;
    var w := st.world;
    var after := SettleStep(c, st, s);
    if s.Apply? {
      AppliedQueue(c, w, s.acts, s.ahead);
      FrontAfter(Children(c, w, s.acts, s.ahead), w.queue, st.left);
    } else {
      AsideKeeps(c, w, s);
      assert after.world.queue[..st.left] == w.queue[..st.left] == [w.queue[0]] + w.queue[1..st.left];
    }
  }

  lemma LiveStep(c: Config, st: Settling, s: Step, cid: Cid)
    requires Live(st, cid) && st.left > 0
    ensures Live(SettleStep(c, st, s), cid)
  {
    hide Tame, NoClear, Children, Queues, Resolved;
    var w, front := st.world, st.world.queue[..st.left];
    FrontStep(c, st, s);
    assert front[0] == w.queue[0] && front[1..] == w.queue[1..st.left];
    if s.Apply? {
      TameHead(front);
      ChildrenAreTame(c, w, s.acts, s.ahead);
      FrontParts(front, Children(c, w, s.acts, s.ahead));
      AppliedPending(c, w, s.acts, s.ahead);
    } else {
      assert [w.queue[0]] + w.queue[1..st.left] == front;
    }
  }

  lemma TameHead(front: seq<Queued>)
    requires front != [] && Tame(front)
    ensures !front[0].Asked? && !front[0].InsertPending?
  {
  }

  lemma AppliedPending(c: Config, w: World, acts: seq<Foreign>, ahead: nat)
    requires w.queue != [] && !w.queue[0].InsertPending?
    ensures Applied(c, w, acts, ahead).pendingRequest == if w.queue[0].ClearPending? then 0 else w.pendingRequest
  {
    hide Queues, Resolved, Executed;
  }

  // ----- Whose id a handler reads -----

  /** In front of a dispatch: some commands left by observers that ran ahead of the dispatcher. */
  ghost predicate InFront(st: Settling, dispatch: Queued, cid: Cid, quiet: bool) {
    && Live(st, cid) && st.left < |st.world.queue| && st.world.queue[st.left] == dispatch
    && (quiet ==> !st.ran && NoCalls(st.world.queue[..st.left]))
  }

  lemma InFrontStep(c: Config, st: Settling, s: Step, dispatch: Queued, cid: Cid, quiet: bool)
    requires InFront(st, dispatch, cid, quiet) && st.left > 0
    ensures InFront(SettleStep(c, st, s), dispatch, cid, quiet)
  {
    hide Live, Tame, NoClear, Children, Next;
    var w, front := st.world, st.world.queue[..st.left];
    LiveStep(c, st, s, cid);
    FrontStep(c, st, s);
    assert front[0] == w.queue[0] && front[1..] == w.queue[1..st.left];
    if quiet {
      assert !front[0].Trigger? && !front[0].Dispatch? && !front[0].RunQuery?;
      assert NoCalls(front[1..]);
      if s.Apply? {
        LiveHead(st, cid);
        ChildrenAreTame(c, w, s.acts, s.ahead);
        assert [] + front[1..] == front[1..];
      } else {
        assert [w.queue[0]] + w.queue[1..st.left] == front;
      }
    }
  }

  lemma LiveHead(st: Settling, cid: Cid)
    requires Live(st, cid) && st.left > 0
    ensures st.world.queue != [] && !st.world.queue[0].Asked? && !st.world.queue[0].InsertPending?
  {
    TameHead(st.world.queue[..st.left]);
  }

  lemma {:induction false} SettledInFront(c: Config, st: Settling, steps: seq<Step>, dispatch: Queued, cid: Cid, quiet: bool)
    requires InFront(st, dispatch, cid, quiet)
    ensures InFront(Settled(c, st, steps), dispatch, cid, quiet)
    decreases |steps|
  {
    hide InFront, SettleStep;
    if st.left > 0 && steps != [] {
      InFrontStep(c, st, steps[0], dispatch, cid, quiet);
      SettledInFront(c, SettleStep(c, st, steps[0]), steps[1..], dispatch, cid, quiet);
    }
  }

  /** What the observers of a triggered command leave: the acts ahead of the dispatcher, then its dispatch. */
  lemma ObservedStarts(c: Config, w: World, acts: seq<Foreign>, ahead: nat, call: Call, cid: Cid)
    requires w.queue != [] && w.queue[0] == Trigger(call, Some(cid)) && w.pendingRequest == cid
    requires call.name in c.registered && c.deserializes(call.name, Resolved(c, w.registry, call))
    ensures InFront(Settling(Next(c, w, Apply(acts, ahead)), Ahead(acts, ahead), false),
      Dispatch(call.name, Resolved(c, w.registry, call), Some(cid)), cid, NoneInvoked(acts[..Ahead(acts, ahead)]))
  {
    hide Queues, Resolved;
    var n, reaction := Ahead(acts, ahead), Queues(w, acts);
    var after := Next(c, w, Apply(acts, ahead));
    QueuesAreTame(w, acts);
    QueuesAreTame(w, acts[..n]);
    QueuesOfFirst(w, acts, n);
    assert after.queue[..n] == reaction[..n];
  }

  lemma QueuesOfFirst(w: World, acts: seq<Foreign>, n: nat)
    requires n <= |acts|
    ensures Queues(w, acts)[..n] == Queues(w, acts[..n])
  {
  }

  /** Whose id the handler of a deferred command reads, over every run: take the moment its command is triggered,
      whatever observers then queue, ahead of the dispatcher or behind it, and any run until its dispatch is
      next. It finds its own request's id, unless the handler of some other command has run meanwhile: then it
      finds none. If the observers ahead of the dispatcher trigger no command, none can have. */
  lemma HandlerReadsOwnIdIff(
    c: Config, before: seq<Step>, acts: seq<Foreign>, ahead: nat, between: seq<Step>, call: Call, cid: Cid)
    requires var w := Run(c, START, before);
      && w.queue != [] && w.queue[0] == Trigger(call, Some(cid))
      && call.name in c.registered && c.deserializes(call.name, Resolved(c, w.registry, call))
    requires var w := Run(c, START, before);
      Settled(c, Settling(Next(c, w, Apply(acts, ahead)), Ahead(acts, ahead), false), between).left == 0
    ensures var w := Run(c, START, before);
      var end := Settled(c, Settling(Next(c, w, Apply(acts, ahead)), Ahead(acts, ahead), false), between);
      && end.world.queue != [] && end.world.queue[0] == Dispatch(call.name, Resolved(c, w.registry, call), Some(cid))
      && end.world.pendingRequest == (if end.ran then 0 else cid)
      && (NoneInvoked(acts[..Ahead(acts, ahead)]) ==> !end.ran)
  {
    hide Resolved, Next, NoneInvoked;
    var w := Run(c, START, before);
    TriggerFindsOwnId(c, before, call, cid);
    ObservedStarts(c, w, acts, ahead, call, cid);
    var st := Settling(Next(c, w, Apply(acts, ahead)), Ahead(acts, ahead), false);
    SettledInFront(c, st, between, Dispatch(call.name, Resolved(c, w.registry, call), Some(cid)), cid,
      NoneInvoked(acts[..Ahead(acts, ahead)]));
    assert Settled(c, st, between).world.queue[..0] == [];
  }

  /** Observers and handlers that do nothing. */
  const SILENT: Step := Apply([], 0)

  lemma NothingQueued(w: World)
    ensures Queues(w, []) == []
  {
  }

  lemma SilentTrigger(c: Config, st: Settling, call: Call, origin: Option<Cid>, tail: seq<Queued>)
    requires st.left == 1 && st.world.queue == [Trigger(call, origin)] + tail
    ensures var dispatch := Dispatches(c, st.world.registry, call, origin);
      var after := SettleStep(c, st, SILENT);
      && after.left == |dispatch| && after.ran == st.ran
      && after.world == st.world.(queue := dispatch + tail)
  {
    hide Dispatches, Queues;
    NothingQueued(st.world);
    var dispatch := Dispatches(c, st.world.registry, call, origin);
    assert Observed(c, st.world, call, origin, [], 0) == [] + dispatch + [] == dispatch;
    assert st.world.queue[1..] == tail;
  }

  lemma SilentHandler(c: Config, st: Settling, name: string, params: Json, origin: Option<Cid>, tail: seq<Queued>)
    requires st.left == 1 && st.world.queue == [Dispatch(name, params, origin)] + tail
    ensures var after := SettleStep(c, st, SILENT);
      && (Runs(c, name, params) ==>
            after.left == 1 && after.ran && after.world == st.world.(queue := [ClearPending] + tail))
      && (!Runs(c, name, params) ==> after.left == 0)
  {
    hide Queues, Runs;
    NothingQueued(st.world);
    assert Queues(st.world, []) + [ClearPending] == [ClearPending];
    assert st.world.queue[1..] == tail;
  }

  lemma SilentClear(c: Config, st: Settling, tail: seq<Queued>)
    requires st.left == 1 && st.world.queue == [ClearPending] + tail
    ensures SettleStep(c, st, SILENT) == Settling(st.world.(pendingRequest := 0, queue := tail), 0, st.ran)
  {
    assert st.world.queue[1..] == tail;
  }

  /** It can come to that: an observer ahead of the dispatcher triggers another command, and the handler of the
      deferred one finds no id. */
  lemma OvertakenHandlerReadsNone(c: Config, w: World, call: Call, other: Call, cid: Cid)
    requires w.queue != [] && w.queue[0] == Trigger(call, Some(cid))
    requires call.name in c.registered && c.deserializes(call.name, Resolved(c, w.registry, call))
    requires other.name in c.registered && other.name in c.events && Validated(c, w.registry, other)
    ensures var st := Settling(Next(c, w, Apply([Invoke(other)], 1)), 1, false);
      var end := Settled(c, st, [SILENT, SILENT, SILENT]);
      && end.left == 0 && end.world.pendingRequest == 0 && end.world.queue != []
      && end.world.queue[0] == Dispatch(call.name, Resolved(c, w.registry, call), Some(cid))
  {
    hide Resolved, SettleStep;
    var own := Dispatch(call.name, Resolved(c, w.registry, call), Some(cid));
    var params := Resolved(c, w.registry, other);
    var tail := [own] + w.queue[1..];
    var st := Settling(Next(c, w, Apply([Invoke(other)], 1)), 1, false);
    assert st.world.queue == [Trigger(other, None)] + tail by { InvokedAhead(c, w, call, other, cid); }
    SilentTrigger(c, st, other, None, tail);
    var s1 := SettleStep(c, st, SILENT);
    SilentHandler(c, s1, other.name, params, None, tail);
    var s2 := SettleStep(c, s1, SILENT);
    SilentClear(c, s2, tail);
    SettledCons(c, s2, SILENT, []);
    SettledCons(c, s1, SILENT, [SILENT]);
    SettledCons(c, st, SILENT, [SILENT, SILENT]);
    assert [SILENT] + [] == [SILENT] && [SILENT] + [SILENT] == [SILENT, SILENT];
    assert [SILENT] + [SILENT, SILENT] == [SILENT, SILENT, SILENT];
  }

  lemma InvokedAhead(c: Config, w: World, call: Call, other: Call, cid: Cid)
    requires w.queue != [] && w.queue[0] == Trigger(call, Some(cid))
    requires call.name in c.registered && c.deserializes(call.name, Resolved(c, w.registry, call))
    ensures Next(c, w, Apply([Invoke(other)], 1)).queue ==
      [Trigger(other, None)] + ([Dispatch(call.name, Resolved(c, w.registry, call), Some(cid))] + w.queue[1..])
  {
    hide Resolved;
    assert Queues(w, [Invoke(other)]) == [Trigger(other, None)];
  }

  // ----- What a caller is told -----

  /** The command's handler is next, with these parameters. */
  predicate AboutToRun(c: Config, w: World, name: string, params: Json) {
    w.queue != [] && w.queue[0] == Dispatch(name, params, None) && Runs(c, name, params)
  }

  /** Some commands in front of a dispatch stay in front of it until they are gone. */
  lemma {:induction false} SettledReaches(c: Config, st: Settling, steps: seq<Step>, dispatch: Queued)
    requires st.left < |st.world.queue| && st.world.queue[st.left] == dispatch
    ensures var end := Settled(c, st, steps); end.left < |end.world.queue| && end.world.queue[end.left] == dispatch
    decreases |steps|
  {
    hide SettleStep;
    if st.left > 0 && steps != [] {
      FrontStep(c, st, steps[0]);
      SettledReaches(c, SettleStep(c, st, steps[0]), steps[1..], dispatch);
    }
  }

  /** The gate validates against the registry when the request is executed; the dispatcher resolves ids and
      validates again when the command is triggered, and once more when it is dispatched. Whatever systems
      and scripts do before the trigger, and whatever else observers queue ahead of the dispatcher and that
      leads to, a command that does not answer later is acknowledged exactly when its handler is going to run, on
      the very parameters that were validated. */
  lemma AcceptedIffRuns(
    c: Config, w: World, call: Call, cid: Cid, first: Step, between: seq<Step>, acts: seq<Foreign>, ahead: nat,
    beforeDispatch: seq<Step>)
    requires c.Lawful() && !Defers(c, Execute(call)) && first.Apply? && AllAside(between)
    requires w.queue != [] && w.queue[0] == Asked(Execute(call), cid)
    requires var triggered := Run(c, Next(c, w, first), between);
      Settled(c, Settling(Next(c, triggered, Apply(acts, ahead)), Ahead(acts, ahead), false), beforeDispatch).left == 0
    ensures var triggered := Run(c, Next(c, w, first), between);
      var dispatched := Settled(c, Settling(Next(c, triggered, Apply(acts, ahead)), Ahead(acts, ahead), false), beforeDispatch);
      Respond(cid, Accepted) in Executed(c, w.registry, Execute(call), cid)
      <==> triggered.queue != [] && triggered.queue[0] == Trigger(call, None)
           && AboutToRun(c, dispatched.world, call.name, Resolved(c, w.registry, call))
  {
    hide Resolved, Queues, Run, Settled;
    var rest := w.queue[1..];
    var asked := Next(c, w, first);
    var executed := Executed(c, w.registry, Execute(call), cid);
    assert executed != [] && asked.queue == executed + rest && asked.registry == w.registry;
    assert asked.queue[0] == executed[0];
    AsidesKeep(c, asked, between);
    var triggered := Run(c, asked, between);
    assert triggered.queue[0] == executed[0];
    if executed[0] == Trigger(call, None) {
      assert Validated(c, w.registry, call);
      DispatchIsReached(c, triggered, acts, ahead, beforeDispatch, call);
    }
  }

  lemma DispatchIsReached(c: Config, w: World, acts: seq<Foreign>, ahead: nat, steps: seq<Step>, call: Call)
    requires w.queue != [] && w.queue[0] == Trigger(call, None)
    requires call.name in c.registered && c.deserializes(call.name, Resolved(c, w.registry, call))
    requires Settled(c, Settling(Next(c, w, Apply(acts, ahead)), Ahead(acts, ahead), false), steps).left == 0
    ensures var end := Settled(c, Settling(Next(c, w, Apply(acts, ahead)), Ahead(acts, ahead), false), steps);
      end.world.queue != [] && end.world.queue[0] == Dispatch(call.name, Resolved(c, w.registry, call), None)
  {
    hide Resolved, Queues, Settled;
    var dispatch := Dispatch(call.name, Resolved(c, w.registry, call), None);
    var n, after := Ahead(acts, ahead), Next(c, w, Apply(acts, ahead));
    assert after.queue[n] == dispatch;
    SettledReaches(c, Settling(after, n, false), steps, dispatch);
  }

  // ----- The id that is left behind -----

  /** The command's type can be built from the request's parameters. */
  predicate Buildable(c: Config, ix: Registry.Index, call: Call) {
    call.name in c.events && Validated(c, ix, call)
  }

  /** No command is triggered in-process. */
  ghost predicate NoInvoke(steps: seq<Step>) {
    forall i :: 0 <= i < |steps| && steps[i].Apply? ==> NoneInvoked(steps[i].acts)
  }

  /** Before its command is triggered: its parts, in order, and nothing has run. */
  ghost predicate OnItsWay(st: Settling, ix: Registry.Index, call: Call, cid: Cid) {
    var q := st.world.queue;
    && !st.ran && st.world.registry == ix && st.left <= |q|
    && (|| q[..st.left] == [Asked(Execute(call), cid)]
        || q[..st.left] == [InsertPending(cid), Arm(cid), Trigger(call, Some(cid))]
        || (st.world.pendingRequest == cid
            && (q[..st.left] == [Arm(cid), Trigger(call, Some(cid))] || q[..st.left] == [Trigger(call, Some(cid))])))
  }

  /** Its dispatch is queued, behind `j` other commands. */
  ghost predicate AtDispatch(c: Config, st: Settling, ix: Registry.Index, call: Call, cid: Cid, quiet: bool, j: nat) {
    var q := st.world.queue;
    && Live(st, cid) && j < st.left
    && q[j] == Dispatch(call.name, Resolved(c, ix, call), Some(cid)) && c.deserializes(call.name, Resolved(c, ix, call))
    && (quiet ==> !st.ran && NoCalls(q[..j]) && NoCalls(q[j + 1..st.left]))
  }

  /** After its dispatch, or once it was dropped. */
  ghost predicate Past(c: Config, st: Settling, ix: Registry.Index, call: Call, cid: Cid, quiet: bool) {
    && Live(st, cid) && (Buildable(c, ix, call) ==> st.ran)
    && (quiet ==> NoCalls(st.world.queue[..st.left]) && (st.ran ==> Buildable(c, ix, call)))
  }

  ghost predicate Staged(c: Config, st: Settling, ix: Registry.Index, call: Call, cid: Cid, quiet: bool) {
    || OnItsWay(st, ix, call, cid)
    || (exists j: nat :: AtDispatch(c, st, ix, call, cid, quiet, j))
    || Past(c, st, ix, call, cid, quiet)
  }

  lemma OnItsWayStaged(c: Config, st: Settling, s: Step, ix: Registry.Index, call: Call, cid: Cid, quiet: bool)
    requires OnItsWay(st, ix, call, cid) && st.left > 0 && (quiet && s.Apply? ==> NoneInvoked(s.acts))
    requires call.name in c.deferred && call.name in c.registered
    ensures Staged(c, SettleStep(c, st, s), ix, call, cid, quiet)
  {
    hide AtDispatch, Past, NoneInvoked, Queues, Resolved, Observed;
    var w, q := st.world, st.world.queue;
    assert q[0] == q[..st.left][0] && q[1..st.left] == q[..st.left][1..];
    FrontStep(c, st, s);
    if !s.Apply? {
      assert [q[0]] + q[1..st.left] == q[..st.left];
    } else if q[0].Trigger? {
      assert st.left == 1 by { assert |q[..st.left]| == st.left; }
      TriggerStaged(c, st, s.acts, s.ahead, ix, call, cid, quiet);
    } else {
      var children := Children(c, w, s.acts, s.ahead);
      if q[0].Asked? {
        assert children + [] == children;
      } else {
        assert children + q[..st.left][1..] == q[..st.left][1..];
      }
    }
  }

  lemma TriggerStaged(c: Config, st: Settling, acts: seq<Foreign>, ahead: nat, ix: Registry.Index, call: Call, cid: Cid, quiet: bool)
    requires st.world.queue != [] && st.left == 1 && !st.ran && st.world.registry == ix
    requires st.world.queue[0] == Trigger(call, Some(cid)) && st.world.pendingRequest == cid
    requires call.name in c.registered && (quiet ==> NoneInvoked(acts))
    ensures Staged(c, SettleStep(c, st, Apply(acts, ahead)), ix, call, cid, quiet)
  {
    hide NoneInvoked, Queues, Resolved, Tame, NoClear, NoCalls, Dispatches, Observed, Executed;
    var w, s := st.world, Apply(acts, ahead);
    var children, after := Observed(c, w, call, Some(cid), acts, ahead), SettleStep(c, st, s);
    FrontStep(c, st, s);
    assert children + [] == children;
    assert after.world.queue[..after.left] == children;
    assert after.world.pendingRequest == cid && !after.ran;
    ObservedParts(c, w, call, cid, acts, ahead);
    var n := Ahead(acts, ahead);
    if Dispatches(c, ix, call, Some(cid)) == [] {
      NotDeserialized(c, ix, call, cid);
      assert Past(c, after, ix, call, cid, quiet);
    } else {
      DispatchesOne(c, ix, call, cid);
      assert after.world.queue[n] == children[n];
      assert after.world.queue[..n] == children[..n] && after.world.queue[n + 1..after.left] == children[n + 1..];
      assert AtDispatch(c, after, ix, call, cid, quiet, n);
    }
  }

  lemma NotDeserialized(c: Config, ix: Registry.Index, call: Call, cid: Cid)
    requires call.name in c.registered && Dispatches(c, ix, call, Some(cid)) == []
    ensures !Buildable(c, ix, call)
  {
    hide Resolved;
  }

  lemma DispatchesOne(c: Config, ix: Registry.Index, call: Call, cid: Cid)
    requires Dispatches(c, ix, call, Some(cid)) != []
    ensures Dispatches(c, ix, call, Some(cid)) == [Dispatch(call.name, Resolved(c, ix, call), Some(cid))]
    ensures c.deserializes(call.name, Resolved(c, ix, call))
  {
    hide Resolved;
  }

  lemma ObservedParts(c: Config, w: World, call: Call, cid: Cid, acts: seq<Foreign>, ahead: nat)
    ensures var all, n := Observed(c, w, call, Some(cid), acts, ahead), Ahead(acts, ahead);
      var dispatch := Dispatches(c, w.registry, call, Some(cid));
      && Tame(all) && NoClear(all)
      && (dispatch == [] ==> (NoneInvoked(acts) ==> NoCalls(all)))
      && (|dispatch| == 1 ==>
            && n < |all| && all[n] == dispatch[0]
            && (NoneInvoked(acts) ==> NoCalls(all[..n]) && NoCalls(all[n + 1..])))
  {
    hide Queues, Resolved, NoneInvoked;
    QueuesAreTame(w, acts);
    var all, n, reaction := Observed(c, w, call, Some(cid), acts, ahead), Ahead(acts, ahead), Queues(w, acts);
    var dispatch := Dispatches(c, w.registry, call, Some(cid));
    if dispatch == [] {
      assert all == reaction;
    } else {
      assert all[..n] == reaction[..n] && all[n + 1..] == reaction[n..];
    }
  }

  lemma AtDispatchStaged(
    c: Config, st: Settling, s: Step, ix: Registry.Index, call: Call, cid: Cid, quiet: bool, j: nat)
    requires AtDispatch(c, st, ix, call, cid, quiet, j) && (quiet && s.Apply? ==> NoneInvoked(s.acts))
    ensures Staged(c, SettleStep(c, st, s), ix, call, cid, quiet)
  {
    hide Live, Tame, NoClear, NoneInvoked, Children, Resolved, Next;
    var w, q, after := st.world, st.world.queue, SettleStep(c, st, s);
    LiveFits(st, cid);
    LiveStep(c, st, s, cid);
    LiveHead(st, cid);
    FrontStep(c, st, s);
    if s.Apply? {
      var children := Children(c, w, s.acts, s.ahead);
      var front := after.world.queue[..after.left];
      ChildrenAreTame(c, w, s.acts, s.ahead);
      assert front == children + q[1..st.left];
      if j == 0 {
        assert quiet ==> NoCalls(front);
        assert Past(c, after, ix, call, cid, quiet);
      } else {
        var k := j - 1 + |children|;
        MovedUp(children, q, after.world.queue, st.left, after.left, j);
        assert quiet ==> children == [];
        assert AtDispatch(c, after, ix, call, cid, quiet, k);
      }
    } else {
      SameFront(q, after.world.queue, st.left, j);
      assert AtDispatch(c, after, ix, call, cid, quiet, j);
    }
  }

  lemma LiveFits(st: Settling, cid: Cid)
    requires Live(st, cid)
    ensures st.left <= |st.world.queue|
  {
  }

  /** Where a command behind the first one stands after the first one was replaced. */
  lemma MovedUp(children: seq<Queued>, q: seq<Queued>, after: seq<Queued>, left: nat, newLeft: nat, j: nat)
    requires 0 < j < left <= |q| && newLeft == left - 1 + |children| <= |after|
    requires after[..newLeft] == children + q[1..left]
    ensures var k := j - 1 + |children|;
      && k < newLeft && after[k] == q[j] && after[..k] == children + q[1..j] && after[k + 1..newLeft] == q[j + 1..left]
      && (NoCalls(q[..j]) && children == [] ==> NoCalls(after[..k]))
  {
    var front, k := after[..newLeft], j - 1 + |children|;
    assert front[k] == q[1..left][j - 1];
    assert after[..k] == front[..k] == children + q[1..j];
    assert after[k + 1..newLeft] == front[k + 1..] == q[j + 1..left];
    if NoCalls(q[..j]) && children == [] {
      forall i | 0 <= i < k ensures after[..k][i] == q[..j][i + 1] {}
    }
  }

  lemma SameFront(q: seq<Queued>, after: seq<Queued>, left: nat, j: nat)
    requires j < left <= |q| && left <= |after| && after[..left] == [q[0]] + q[1..left]
    ensures after[j] == q[j] && after[..j] == q[..j] && after[j + 1..left] == q[j + 1..left]
  {
    assert after[..left] == q[..left];
    assert forall i :: 0 <= i < left ==> after[i] == after[..left][i] == q[i];
  }

  lemma PastStaged(c: Config, st: Settling, s: Step, ix: Registry.Index, call: Call, cid: Cid, quiet: bool)
    requires Past(c, st, ix, call, cid, quiet) && st.left > 0
    ensures Past(c, SettleStep(c, st, s), ix, call, cid, quiet)
  {
    hide Live, Tame, NoClear, NoneInvoked, Children, Resolved, Next;
    LiveFits(st, cid);
    var w, q, front := st.world, st.world.queue, st.world.queue[..st.left];
    LiveStep(c, st, s, cid);
    LiveHead(st, cid);
    FrontStep(c, st, s);
    assert front[0] == q[0] && front[1..] == q[1..st.left];
    if quiet {
      assert !front[0].Trigger? && !front[0].Dispatch? && !front[0].RunQuery?;
      assert NoCalls(front[1..]);
      if s.Apply? {
        ChildrenAreTame(c, w, s.acts, s.ahead);
        assert [] + front[1..] == front[1..];
      } else {
        assert [q[0]] + q[1..st.left] == front;
      }
    }
  }

  lemma {:induction false} SettledStaged(
    c: Config, st: Settling, steps: seq<Step>, ix: Registry.Index, call: Call, cid: Cid, quiet: bool)
    requires Staged(c, st, ix, call, cid, quiet) && (quiet ==> NoInvoke(steps))
    requires call.name in c.deferred && call.name in c.registered
    ensures Staged(c, Settled(c, st, steps), ix, call, cid, quiet)
    decreases |steps|
  {
    hide Staged, SettleStep, NoneInvoked;
    if st.left > 0 && steps != [] {
      var s := steps[0];
      StagedStep(c, st, s, ix, call, cid, quiet);
      assert quiet ==> forall i :: 0 <= i < |steps[1..]| ==> steps[1..][i] == steps[i + 1];
      SettledStaged(c, SettleStep(c, st, s), steps[1..], ix, call, cid, quiet);
    }
  }

  lemma StagedStep(c: Config, st: Settling, s: Step, ix: Registry.Index, call: Call, cid: Cid, quiet: bool)
    requires Staged(c, st, ix, call, cid, quiet) && st.left > 0 && (quiet && s.Apply? ==> NoneInvoked(s.acts))
    requires call.name in c.deferred && call.name in c.registered
    ensures Staged(c, SettleStep(c, st, s), ix, call, cid, quiet)
  {
    hide OnItsWay, AtDispatch, Past, SettleStep, NoneInvoked;
    if OnItsWay(st, ix, call, cid) {
      OnItsWayStaged(c, st, s, ix, call, cid, quiet);
    } else if Past(c, st, ix, call, cid, quiet) {
      PastStaged(c, st, s, ix, call, cid, quiet);
    } else {
      var j: nat :| AtDispatch(c, st, ix, call, cid, quiet, j);
      AtDispatchStaged(c, st, s, ix, call, cid, quiet, j);
    }
  }

  /** The pending id is meant to be gone once its command has been dispatched, so that no later trigger
      inherits it. Take any deferred request at the front of the queue, whatever is queued behind it, and any
      run in which systems, scripts, the dispatcher's observers and the handler do as they like. When nothing
      is left of what the request led to, the pending id is gone exactly when some handler ran meanwhile;
      the request's own did if the command's type could be built; and if nobody triggered another command,
      only then. Otherwise the id of a request that is still waiting is left behind. */
  lemma PendingIdClearedIff(c: Config, w: World, steps: seq<Step>, call: Call, cid: Cid)
    requires w.queue != [] && w.queue[0] == Asked(Execute(call), cid) && cid != 0
    requires call.name in c.deferred && call.name in c.registered
    requires Settled(c, Settling(w, 1, false), steps).left == 0
    ensures var end := Settled(c, Settling(w, 1, false), steps);
      && (end.world.pendingRequest == 0 <==> end.ran)
      && (end.world.pendingRequest != 0 ==> end.world.pendingRequest == cid)
      && (Buildable(c, w.registry, call) ==> end.ran)
      && (NoInvoke(steps) ==> (end.world.pendingRequest == 0 <==> Buildable(c, w.registry, call)))
  {
    var st := Settling(w, 1, false);
    assert w.queue[..1] == [Asked(Execute(call), cid)];
    SettledStaged(c, st, steps, w.registry, call, cid, false);
    if NoInvoke(steps) {
      SettledStaged(c, st, steps, w.registry, call, cid, true);
    }
    NothingStaged(c, Settled(c, st, steps), w.registry, call, cid);
  }

  lemma NothingStaged(c: Config, st: Settling, ix: Registry.Index, call: Call, cid: Cid)
    requires st.left == 0 && cid != 0
    ensures forall quiet :: Staged(c, st, ix, call, cid, quiet) ==>
      && (st.world.pendingRequest == 0 <==> st.ran) && (st.world.pendingRequest != 0 ==> st.world.pendingRequest == cid)
      && (Buildable(c, ix, call) ==> st.ran) && (quiet ==> (st.ran ==> Buildable(c, ix, call)))
  {
    assert st.world.queue[..0] == [];
  }

  /** Such a moment comes: with observers and a handler that do nothing, six commands settle the request. */
  lemma SilentDispatchSettles(c: Config, w: World, call: Call, cid: Cid)
    requires w.queue != [] && w.queue[0] == Asked(Execute(call), cid)
    requires call.name in c.deferred && call.name in c.registered
    ensures exists steps :: NoInvoke(steps) && Settled(c, Settling(w, 1, false), steps).left == 0
  {
    hide NoInvoke;
    var tail, s0 := w.queue[1..], Settling(w, 1, false);
    var s1 := SettleStep(c, s0, SILENT);
    assert s1.left == 3 && s1.world.queue == [InsertPending(cid), Arm(cid), Trigger(call, Some(cid))] + tail;
    var s2 := SettleStep(c, s1, SILENT);
    assert s2.left == 2 && s2.world.queue == [Arm(cid), Trigger(call, Some(cid))] + tail;
    var s3 := SettleStep(c, s2, SILENT);
    assert s3.left == 1 && s3.world.queue == [Trigger(call, Some(cid))] + tail;
    hide SettleStep;
    var n := SilentTriggerSettles(c, s3, call, cid, tail);
    SettledSilently(c, s2, n);
    SettledSilently(c, s1, n + 1);
    SettledSilently(c, s0, n + 2);
    SilenceIsQuiet(Silence(n + 3));
  }

  function Silence(n: nat): seq<Step> {
    seq(n, _ => SILENT)
  }

  lemma SettledSilently(c: Config, st: Settling, n: nat)
    requires st.left > 0
    ensures Settled(c, st, Silence(n + 1)) == Settled(c, SettleStep(c, st, SILENT), Silence(n))
  {
    assert Silence(n + 1) == [SILENT] + Silence(n);
    SettledCons(c, st, SILENT, Silence(n));
  }

  lemma SilentTriggerSettles(c: Config, st: Settling, call: Call, cid: Cid, tail: seq<Queued>) returns (n: nat)
    requires st.left == 1 && st.world.queue == [Trigger(call, Some(cid))] + tail
    ensures Settled(c, st, Silence(n)).left == 0
  {
    hide Resolved, SettleStep, Dispatches;
    SilentTrigger(c, st, call, Some(cid), tail);
    var s1 := SettleStep(c, st, SILENT);
    SettledSilently(c, st, 0);
    n := 1;
    if Dispatches(c, st.world.registry, call, Some(cid)) != [] {
      DispatchesOne(c, st.world.registry, call, cid);
      SilentHandler(c, s1, call.name, Resolved(c, st.world.registry, call), Some(cid), tail);
      var s2 := SettleStep(c, s1, SILENT);
      SettledSilently(c, s1, 0);
      SettledSilently(c, st, 1);
      n := 2;
      if s2.left != 0 {
        SilentClear(c, s2, tail);
        SettledSilently(c, s2, 0);
        SettledSilently(c, s1, 1);
        SettledSilently(c, st, 2);
        n := 3;
      }
    }
  }

  lemma SilenceIsQuiet(steps: seq<Step>)
    requires forall i :: 0 <= i < |steps| ==> steps[i] == SILENT
    ensures NoInvoke(steps)
  {
  }

  lemma SettledCons(c: Config, st: Settling, s: Step, rest: seq<Step>)
    requires st.left > 0
    ensures Settled(c, st, [s] + rest) == Settled(c, SettleStep(c, st, s), rest)
  {
    assert ([s] + rest)[1..] == rest;
  }

  /** What then goes wrong: a command some script triggers answers the request that is still waiting. */
  lemma LeftIdIsInherited(c: Config, w: World, rest: seq<Queued>, name: string, params: Json, id: nat)
    requires w.queue == [Dispatch(name, params, None)] + rest && Runs(c, name, params)
    requires w.pendingRequest in w.pending
    ensures var after := Next(c, Next(c, w, Apply([AnswerPending(id)], 0)), Apply([], 0));
      && after.replies == w.replies + [(w.pendingRequest, Handled(id))] && w.pendingRequest !in after.pending
      && after.queue == [ClearPending] + rest
  {
    assert w.queue[1..] == rest;
    assert Queues(w, [AnswerPending(id)]) == [Respond(w.pendingRequest, Handled(id))];
    var one := Next(c, w, Apply([AnswerPending(id)], 0));
    assert one.queue == [Respond(w.pendingRequest, Handled(id))] + ([ClearPending] + rest);
    assert one.queue[1..] == [ClearPending] + rest;
  }
}
