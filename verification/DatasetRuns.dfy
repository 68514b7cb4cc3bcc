/** Every interleaving of a download's two tasks with the user, the registry and the drain. */
module DatasetRuns {
  import opened Datasets
  import opened Wrappers

  /** The fetch task: transferring, past the network with its verdict not yet written, or gone. */
  datatype Fetch = Transferring | Concluding | Ended

  /** The stall watchdog: sampling, convinced that nothing moves, flag raised, or gone. */
  datatype Watch = Watching | Convinced | Flagged | Retired

  /** One handle and the two tasks that hold it. A handle nothing was started on has none. */
  datatype Attempt = Attempt(status: Option<DatasetState>, cancel: bool, fetch: Fetch, watch: Watch) {
    /** The task will still write a verdict, or has one waiting. */
    predicate Owes() {
      !fetch.Ended? || (status.Some? && status.value.Terminal())
    }

    predicate Consistent() {
      status.Some? ==> status.value.Terminal() || (status.value.Downloading? && !fetch.Ended?)
    }
  }

  const IDLE := Attempt(None, false, Ended, Retired)
  const STARTED := Attempt(None, false, Transferring, Watching)
  const STALLED := Failed("download stalled")

  /** Handles are numbered in the order they are made. */
  datatype World = World(reg: Registry<nat>, attempts: seq<Attempt>)

  const START := World(Registry([], [], []), [])

  datatype Step =
    | Register(rows: seq<Declaration>, scope: Scope)
    | Report(notice: string)
    | Forget(scope: Scope)
    | Request(key: string)
    | Cancel(key: string)
    | Refresh(present: seq<bool>)
    | Drain
    | Task(handle: nat, act: Act)

  datatype Act =
    | Progress(done: nat, total: nat)
    | NetworkDone
    | Conclude(verdict: DatasetState)
    | Sample
    | RaiseFlag
    | WriteStall

  // ----- One step -----

  /** What one task does next with its handle; an act that is not its next leaves everything alone. */
  function Acted(a: Attempt, act: Act): Attempt {
    match act
    case Progress(done, total) => if a.fetch.Transferring? then a.(status := Some(Downloading(done, total))) else a
    case NetworkDone => if a.fetch.Transferring? then a.(fetch := Concluding) else a
    case Conclude(verdict) =>
      if a.fetch.Concluding? && verdict.Terminal() then a.(fetch := Ended, status := Some(verdict)) else a
    case Sample =>
      if !a.watch.Watching? then a
      else if a.fetch != Transferring || a.cancel then a.(watch := Retired)
      else a.(watch := Convinced)
    case RaiseFlag => if a.watch.Convinced? then a.(cancel := true, watch := Flagged) else a
    case WriteStall => if a.watch.Flagged? then a.(status := Some(STALLED), watch := Retired) else a
  }

  function NewHandles(from: nat, count: nat): (r: seq<nat>)
    ensures |r| == count && forall i :: 0 <= i < count ==> r[i] == from + i
  {
    seq(count, i => from + i)
  }

  function Reports(w: World): (r: seq<Option<DatasetState>>)
    requires forall i :: 0 <= i < |w.reg.slots| ==> w.reg.slots[i] < |w.attempts|
    ensures |r| == |w.reg.slots|
  {
    seq(|w.reg.slots|, i requires 0 <= i < |w.reg.slots| => w.attempts[w.reg.slots[i]].status)
  }

  function Emptied(w: World): (r: seq<Attempt>)
    ensures |r| == |w.attempts|
  {
    seq(|w.attempts|, h requires 0 <= h < |w.attempts| =>
      if h in w.reg.slots then w.attempts[h].(status := None) else w.attempts[h])
  }

  ghost predicate Formed(w: World) {
    w.reg.Aligned() && forall i :: 0 <= i < |w.reg.slots| ==> w.reg.slots[i] < |w.attempts|
  }

  function Next(w: World, s: Step): World
    requires Formed(w)
  {
    match s
    case Register(rows, scope) =>
      World(AllDeclared(w.reg, rows, scope, NewHandles(|w.attempts|, |rows|)), w.attempts + seq(|rows|, _ => IDLE))
    case Report(notice) => w.(reg := w.reg.(pending := w.reg.pending + [notice]))
    case Forget(scope) => w.(reg := Forgotten(w.reg, scope))
    case Request(key) =>
      if Starts(w.reg, key) then World(Requested(w.reg, key, |w.attempts|), w.attempts + [STARTED]) else w
    case Cancel(key) =>
      (match Position(w.reg.entries, key)
       case Some(i) =>
         if !w.reg.entries[i].state.Downloading? then w
         else
           var h := w.reg.slots[i];
           World(Cancelled(w.reg, key, |w.attempts|), w.attempts[h := w.attempts[h].(cancel := true)] + [IDLE])
       case None => w)
    case Refresh(present) =>
      if |present| != |w.reg.entries| then w else w.(reg := w.reg.(entries := Refreshed(w.reg.entries, present)))
    case Drain =>
      World(Registry(Drained(w.reg.entries, Reports(w)), w.reg.slots, []),
            if AnyDownloading(w.reg.entries) then Emptied(w) else w.attempts)
    case Task(h, act) =>
      if h < |w.attempts| then w.(attempts := w.attempts[h := Acted(w.attempts[h], act)]) else w
  }

  // ----- What every interleaving keeps -----

  /** No download that shows is forgotten by its task, and no report of progress outlives the task. */
  ghost predicate Healthy(w: World) {
    && Formed(w)
    && (forall i :: 0 <= i < |w.reg.entries| && w.reg.entries[i].state.Downloading? ==> w.attempts[w.reg.slots[i]].Owes())
    && (forall h :: 0 <= h < |w.attempts| ==> w.attempts[h].Consistent())
  }

  lemma ActKeepsWord(a: Attempt, act: Act)
    requires a.Consistent()
    ensures Acted(a, act).Consistent() && (a.Owes() ==> Acted(a, act).Owes())
  {
  }

  lemma {:induction false} DeclaredStaysHealthy(w: World, rows: seq<Declaration>, scope: Scope)
    requires Healthy(w)
    ensures Healthy(Next(w, Register(rows, scope)))
    decreases |rows|
  {
    if rows == [] {
      assert w.attempts + seq(0, _ => IDLE) == w.attempts;
    } else {
      var n := |rows| - 1;
      DeclaredStaysHealthy(w, rows[..n], scope);
      var before := Next(w, Register(rows[..n], scope));
      assert NewHandles(|w.attempts|, |rows|)[..n] == NewHandles(|w.attempts|, n);
      assert w.attempts + seq(|rows|, _ => IDLE) == before.attempts + [IDLE];
      DeclaredOneStaysHealthy(before, rows[n], scope);
    }
  }

  lemma DeclaredOneStaysHealthy(w: World, d: Declaration, scope: Scope)
    requires Healthy(w)
    ensures Healthy(World(Declared(w.reg, d, scope, |w.attempts|), w.attempts + [IDLE]))
  {
  }

  lemma ForgottenStaysHealthy(w: World, scope: Scope)
    requires Healthy(w)
    ensures Healthy(Next(w, Forget(scope)))
  {
    var after := Forgotten(w.reg, scope);
    ForgottenIsAligned(w.reg, scope);
    forall i: nat | i < |after.slots| ensures after.slots[i] < |w.attempts| {
      var j := ForgottenRow(w.reg, scope, i);
    }
    forall i: nat | i < |after.entries| && after.entries[i].state.Downloading? ensures w.attempts[after.slots[i]].Owes() {
      var j := ForgottenRow(w.reg, scope, i);
    }
  }

  lemma DrainStaysHealthy(w: World)
    requires Healthy(w)
    ensures Healthy(Next(w, Drain))
  {
    var after := Next(w, Drain);
    if AnyDownloading(w.reg.entries) {
      forall i | 0 <= i < |after.reg.entries| && after.reg.entries[i].state.Downloading?
        ensures after.attempts[after.reg.slots[i]].Owes()
      {
        var a := w.attempts[w.reg.slots[i]];
        assert Reports(w)[i] == a.status && a.Consistent();
      }
    } else {
      assert forall i :: 0 <= i < |w.reg.entries| ==> !w.reg.entries[i].state.Downloading?;
    }
  }

  /** A row put on the newest handle, which owes what the row shows. */
  lemma ReplacedStaysHealthy(w: World, i: nat, state: DatasetState, kept: seq<Attempt>, a: Attempt)
    requires Healthy(w) && i < |w.reg.entries| && |kept| == |w.attempts|
    requires forall h :: 0 <= h < |kept| ==> kept[h].Consistent() && (w.attempts[h].Owes() ==> kept[h].Owes())
    requires a.Consistent() && (state.Downloading? ==> a.Owes())
    ensures Healthy(World(Registry(w.reg.entries[i := w.reg.entries[i].(state := state)],
                                   w.reg.slots[i := |w.attempts|], w.reg.pending), kept + [a]))
  {
    var n := World(Registry(w.reg.entries[i := w.reg.entries[i].(state := state)],
                            w.reg.slots[i := |w.attempts|], w.reg.pending), kept + [a]);
    forall j | 0 <= j < |n.reg.slots| ensures n.reg.slots[j] < |n.attempts| && (j != i ==> n.reg.slots[j] < |w.attempts|) {
    }
    forall j | 0 <= j < |n.reg.entries| && n.reg.entries[j].state.Downloading? ensures n.attempts[n.reg.slots[j]].Owes() {
      if j != i {
        assert n.attempts[n.reg.slots[j]] == kept[w.reg.slots[j]];
      }
    }
  }

  lemma CancelStaysHealthy(w: World, key: string)
    requires Healthy(w)
    ensures Healthy(Next(w, Cancel(key)))
  {
    match Position(w.reg.entries, key)
    case Some(i) =>
      if w.reg.entries[i].state.Downloading? {
        var h := w.reg.slots[i];
        ReplacedStaysHealthy(w, i, Failed("cancelled"), w.attempts[h := w.attempts[h].(cancel := true)], IDLE);
      }
    case None =>
  }

  lemma RefreshStaysHealthy(w: World, present: seq<bool>)
    requires Healthy(w)
    ensures Healthy(Next(w, Refresh(present)))
  {
  }

  lemma ActStaysHealthy(w: World, h: nat, act: Act)
    requires Healthy(w)
    ensures Healthy(Next(w, Task(h, act)))
  {
    hide Acted;
    if h < |w.attempts| {
      ActKeepsWord(w.attempts[h], act);
    }
  }

  lemma NextStaysHealthy(w: World, s: Step)
    requires Healthy(w)
    ensures Healthy(Next(w, s))
  {
    match s
    case Register(rows, scope) => DeclaredStaysHealthy(w, rows, scope);
    case Report(_) =>
    case Forget(scope) => ForgottenStaysHealthy(w, scope);
    case Request(key) =>
      if Starts(w.reg, key) {
        ReplacedStaysHealthy(w, Position(w.reg.entries, key).value, Downloading(0, 0), w.attempts, STARTED);
      }
    case Cancel(key) => CancelStaysHealthy(w, key);
    case Refresh(present) => RefreshStaysHealthy(w, present);
    case Drain => DrainStaysHealthy(w);
    case Task(h, act) => ActStaysHealthy(w, h, act);
  }

  ghost function Run(w: World, steps: seq<Step>): (r: World)
    requires Healthy(w)
    ensures Healthy(r)
    decreases |steps|
  {
    if steps == [] then w
    else
      NextStaysHealthy(w, steps[0]);
      Run(Next(w, steps[0]), steps[1..])
  }

  /** In every interleaving, an entry shown as downloading has a task that will still conclude on its own
      handle, or a verdict waiting there. */
  lemma DownloadingIsOwed(steps: seq<Step>, i: nat)
    requires i < |Run(START, steps).reg.entries| && Run(START, steps).reg.entries[i].state.Downloading?
    ensures var w := Run(START, steps);
      i < |w.reg.slots| && w.reg.slots[i] < |w.attempts| && w.attempts[w.reg.slots[i]].Owes()
  {
  }

  // ----- Abandoned attempts never show -----

  predicate Abandoned(w: World, h: nat) {
    h < |w.attempts| && h !in w.reg.slots
  }

  /** The handles the registry can come to hold are its own and new ones. */
  lemma {:induction false} DeclaredSlots<H>(reg: Registry<H>, rows: seq<Declaration>, scope: Scope, handles: seq<H>)
    requires |handles| == |rows|
    ensures forall h :: h in AllDeclared(reg, rows, scope, handles).slots ==> h in reg.slots || h in handles
    decreases |rows|
  {
    if rows != [] {
      var n := |rows| - 1;
      DeclaredSlots(reg, rows[..n], scope, handles[..n]);
    }
  }

  /** A handle that was replaced or forgotten is never taken up again. */
  lemma AbandonedForGood(w: World, h: nat, steps: seq<Step>)
    requires Healthy(w) && Abandoned(w, h)
    ensures Abandoned(Run(w, steps), h)
    decreases |steps|
  {
    if steps != [] {
      NextStaysHealthy(w, steps[0]);
      AbandonedNext(w, h, steps[0]);
      AbandonedForGood(Next(w, steps[0]), h, steps[1..]);
    }
  }

  lemma AbandonedNext(w: World, h: nat, s: Step)
    requires Healthy(w) && Abandoned(w, h)
    ensures Abandoned(Next(w, s), h)
  {
    match s
    case Register(rows, scope) => DeclaredSlots(w.reg, rows, scope, NewHandles(|w.attempts|, |rows|));
    case Forget(scope) => ForgottenIsAligned(w.reg, scope);
    case _ =>
  }

  /** The same registry, and the same news on the handles it holds. */
  ghost predicate Same(w: World, v: World) {
    && w.reg == v.reg && |w.attempts| == |v.attempts|
    && forall h :: h in w.reg.slots && h < |w.attempts| ==> w.attempts[h] == v.attempts[h]
  }

  lemma SameReports(w: World, v: World)
    requires Formed(w) && Formed(v) && Same(w, v)
    ensures Reports(w) == Reports(v)
  {
    forall i | 0 <= i < |w.reg.slots| ensures Reports(w)[i] == Reports(v)[i] {
      assert w.reg.slots[i] in w.reg.slots;
    }
  }

  lemma SameDeclared(w: World, v: World, rows: seq<Declaration>, scope: Scope)
    requires Healthy(w) && Healthy(v) && Same(w, v)
    ensures Same(Next(w, Register(rows, scope)), Next(v, Register(rows, scope)))
  {
    hide AllDeclared, Healthy;
    DeclaredSlots(w.reg, rows, scope, NewHandles(|w.attempts|, |rows|));
  }

  lemma SameForgotten(w: World, v: World, scope: Scope)
    requires Healthy(w) && Healthy(v) && Same(w, v)
    ensures Same(Next(w, Forget(scope)), Next(v, Forget(scope)))
  {
    hide Forgotten;
    ForgottenIsAligned(w.reg, scope);
  }

  lemma SameCancelled(w: World, v: World, key: string)
    requires Healthy(w) && Healthy(v) && Same(w, v)
    ensures Same(Next(w, Cancel(key)), Next(v, Cancel(key)))
  {
    if Position(w.reg.entries, key).Some? {
      assert w.reg.slots[Position(w.reg.entries, key).value] in w.reg.slots;
    }
  }

  lemma SameDrained(w: World, v: World)
    requires Healthy(w) && Healthy(v) && Same(w, v)
    ensures Same(Next(w, Drain), Next(v, Drain))
  {
    hide Drained, AnyDownloading;
    SameReports(w, v);
  }

  lemma SameActed(w: World, v: World, h: nat, act: Act)
    requires Healthy(w) && Healthy(v) && Same(w, v)
    ensures Same(Next(w, Task(h, act)), Next(v, Task(h, act)))
  {
    hide Acted, Healthy;
  }

  lemma SameNext(w: World, v: World, s: Step)
    requires Healthy(w) && Healthy(v) && Same(w, v)
    ensures Same(Next(w, s), Next(v, s))
  {
    match s
    case Register(rows, scope) => SameDeclared(w, v, rows, scope);
    case Report(_) =>
    case Forget(scope) => SameForgotten(w, v, scope);
    case Request(_) =>
    case Cancel(key) => SameCancelled(w, v, key);
    case Refresh(_) =>
    case Drain => SameDrained(w, v);
    case Task(h, act) => SameActed(w, v, h, act);
  }

  /** A task that acts on an abandoned handle. */
  predicate Idle(w: World, s: Step) {
    s.Task? && s.handle !in w.reg.slots
  }

  /** The run without what its abandoned tasks did. */
  ghost function Quiet(w: World, steps: seq<Step>): seq<Step>
    requires Healthy(w)
    decreases |steps|
  {
    if steps == [] then []
    else
      NextStaysHealthy(w, steps[0]);
      (if Idle(w, steps[0]) then [] else [steps[0]]) + Quiet(Next(w, steps[0]), steps[1..])
  }

  /** Whatever abandoned tasks write, and whenever, no entry, no failure notice and no live handle ever
      differs from a run in which they wrote nothing. */
  lemma {:induction false} AbandonedTasksNeverShow(w: World, v: World, steps: seq<Step>)
    requires Healthy(w) && Healthy(v) && Same(w, v)
    ensures Same(Run(w, steps), Run(v, Quiet(w, steps)))
    decreases |steps|
  {
    hide Same, Next, Attempt.Owes, Attempt.Consistent;
    if steps == [] {
    } else {
      var s, rest := steps[0], steps[1..];
      NextStaysHealthy(w, s);
      if Idle(w, s) {
        SameAfterIdle(w, v, s);
        AbandonedTasksNeverShow(Next(w, s), v, rest);
        assert Quiet(w, steps) == Quiet(Next(w, s), rest);
      } else {
        NextStaysHealthy(v, s);
        SameNext(w, v, s);
        AbandonedTasksNeverShow(Next(w, s), Next(v, s), rest);
        var quiet := [s] + Quiet(Next(w, s), rest);
        assert quiet[0] == s && quiet[1..] == Quiet(Next(w, s), rest);
        assert Run(v, quiet) == Run(Next(v, s), quiet[1..]);
      }
    }
  }

  lemma SameAfterIdle(w: World, v: World, s: Step)
    requires Healthy(w) && Healthy(v) && Same(w, v) && Idle(w, s)
    ensures Same(Next(w, s), v)
  {
  }

  // ----- Verdicts -----

  /** Once the fetch is gone, the next drain takes its verdict: a download cannot stay on show. */
  lemma DrainSettles(w: World, i: nat)
    requires Healthy(w) && i < |w.reg.entries| && w.reg.entries[i].state.Downloading?
    requires w.attempts[w.reg.slots[i]].fetch.Ended?
    ensures var shown := Next(w, Drain).reg.entries[i].state;
      shown.Terminal() && Some(shown) == w.attempts[w.reg.slots[i]].status
  {
    assert Reports(w)[i] == w.attempts[w.reg.slots[i]].status;
  }

  /** A drain takes every report off the handles the registry holds, and nothing else from any handle: drained again
      right away, nothing changes and no failure is published a second time. */
  lemma DrainTakesReports(w: World)
    requires Healthy(w) && AnyDownloading(w.reg.entries)
    ensures var after := Next(w, Drain);
      && |after.attempts| == |w.attempts| && after.reg.slots == w.reg.slots && after.reg.pending == []
      && (forall h :: 0 <= h < |w.attempts| ==>
            after.attempts[h] == if h in w.reg.slots then w.attempts[h].(status := None) else w.attempts[h])
      && Formed(after) && Next(after, Drain) == after
      && FailureNotices(after.reg.entries, Reports(after), |after.reg.entries|) == []
  {
    var after := Next(w, Drain);
    NextStaysHealthy(w, Drain);
    forall i | 0 <= i < |after.reg.slots| ensures Reports(after)[i] == None {
      assert after.reg.slots[i] in w.reg.slots;
    }
    NoReportsNoNotices(after.reg.entries, Reports(after), |after.reg.entries|);
    assert Drained(after.reg.entries, Reports(after)) == after.reg.entries;
    assert Emptied(after) == after.attempts;
  }

  lemma {:induction false} NoReportsNoNotices(entries: seq<Entry>, reports: seq<Option<DatasetState>>, n: nat)
    requires n <= |entries| == |reports| && forall i :: 0 <= i < |reports| ==> reports[i] == None
    ensures FailureNotices(entries, reports, n) == []
  {
    if n > 0 {
      NoReportsNoNotices(entries, reports, n - 1);
    }
  }

  /** The watchdog has decided to give up and has not yet said so. */
  predicate StallPending(a: Attempt) {
    a.watch.Convinced? || a.watch.Flagged?
  }

  /** What an attempt reports after its fetch has concluded with `verdict`: that, until it is taken. */
  predicate Settled(a: Attempt, verdict: DatasetState) {
    a.fetch.Ended? && !StallPending(a) && a.status in {None, Some(verdict)}
  }

  lemma SettledNext(w: World, h: nat, verdict: DatasetState, s: Step)
    requires Healthy(w) && h < |w.attempts| && Settled(w.attempts[h], verdict)
    ensures h < |Next(w, s).attempts| && Settled(Next(w, s).attempts[h], verdict)
  {
  }

  lemma {:induction false} SettledForGood(w: World, h: nat, verdict: DatasetState, steps: seq<Step>)
    requires Healthy(w) && h < |w.attempts| && Settled(w.attempts[h], verdict)
    ensures h < |Run(w, steps).attempts| && Settled(Run(w, steps).attempts[h], verdict)
    decreases |steps|
  {
    hide Settled, Next;
    if steps != [] {
      NextStaysHealthy(w, steps[0]);
      SettledNext(w, h, verdict, steps[0]);
      SettledForGood(Next(w, steps[0]), h, verdict, steps[1..]);
    }
  }

  /** Whether some continuation makes an attempt report something other than `verdict`. */
  ghost predicate CanBeOverruled(w: World, h: nat, verdict: DatasetState)
    requires Healthy(w) && h < |w.attempts|
  {
    exists steps :: h < |Run(w, steps).attempts| && Run(w, steps).attempts[h].status !in {None, Some(verdict)}
  }

  /** The verdict of a fetch that has concluded is the last word of its attempt, unless the watchdog made
      up its mind before the network phase ended and writes afterwards: then, and only then, a dataset
      that was installed can be reported as stalled. */
  lemma OverruledIff(w: World, h: nat, verdict: DatasetState)
    requires Healthy(w) && h < |w.attempts| && w.attempts[h].fetch.Ended?
    requires w.attempts[h].status == Some(verdict) && verdict != STALLED
    ensures CanBeOverruled(w, h, verdict) <==> StallPending(w.attempts[h])
  {
    if StallPending(w.attempts[h]) {
      var flag, write := Task(h, RaiseFlag), Task(h, WriteStall);
      var steps := [flag, write];
      var one := Next(w, flag);
      NextStaysHealthy(w, flag);
      NextStaysHealthy(one, write);
      var two := Next(one, write);
      assert two.attempts[h].status == Some(STALLED);
      assert steps[1..] == [write] && steps[1..][1..] == [];
      assert Run(w, steps) == Run(one, [write]) == Run(two, []) == two;
    } else {
      forall steps ensures h < |Run(w, steps).attempts| && Run(w, steps).attempts[h].status in {None, Some(verdict)} {
        SettledForGood(w, h, verdict, steps);
      }
    }
  }

  lemma RunCons(w: World, s: Step, rest: seq<Step>)
    requires Healthy(w)
    ensures Formed(w) && Healthy(Next(w, s)) && Run(w, [s] + rest) == Run(Next(w, s), rest)
  {
    NextStaysHealthy(w, s);
    assert ([s] + rest)[1..] == rest;
  }

  /** From a download under way: the watchdog's last sample, then the end of the transfer. */
  lemma LateSample(w: World) returns (steps: seq<Step>, end: World)
    requires Healthy(w) && w.attempts == [IDLE, STARTED]
    ensures steps == [Task(1, Sample), Task(1, NetworkDone), Task(1, Conclude(Installed))]
    ensures end == Run(w, steps)
    ensures end == w.(attempts := [IDLE, Attempt(Some(Installed), false, Ended, Convinced)])
  {
    assert Formed(w);
    hide Healthy, Formed, Next, Run;
    var sample, done, conclude := Task(1, Sample), Task(1, NetworkDone), Task(1, Conclude(Installed));
    var one := w.(attempts := [IDLE, Attempt(None, false, Transferring, Convinced)]);
    var two := w.(attempts := [IDLE, Attempt(None, false, Concluding, Convinced)]);
    end := w.(attempts := [IDLE, Attempt(Some(Installed), false, Ended, Convinced)]);
    RunCons(w, sample, [done, conclude]);
    NextIsAct(w, 1, Sample);
    assert Next(w, sample) == one;
    RunCons(one, done, [conclude]);
    NextIsAct(one, 1, NetworkDone);
    assert Next(one, done) == two;
    RunCons(two, conclude, []);
    NextIsAct(two, 1, Conclude(Installed));
    assert Next(two, conclude) == end;
    RunNothing(end);
    steps := [sample, done, conclude];
    assert steps == [sample] + [done, conclude];
    assert [done, conclude] == [done] + [conclude] && [conclude] == [conclude] + [];
  }

  /** Such a run exists: the transfer finishes in the moment after the watchdog's last sample. */
  lemma InstalledReportedStalled() returns (steps: seq<Step>, w: World)
    ensures w == Run(START, steps) && |w.attempts| == 2 && w.reg.slots == [1]
    ensures w.attempts[1].status == Some(Installed) && StallPending(w.attempts[1])
  {
    var one := DemDeclared();
    var two := DemRequested();
    hide Healthy, Next, Run;
    StartIsHealthy();
    var declare, request := Register([Declaration("dem", false)], Engine), Request("dem");
    var rest, end := LateSample(two);
    RunCons(START, declare, [request] + rest);
    RunCons(one, request, rest);
    steps, w := [declare] + ([request] + rest), end;
  }

  lemma StartIsHealthy()
    ensures Healthy(START)
  {
  }

  lemma RunNothing(w: World)
    requires Healthy(w)
    ensures Run(w, []) == w
  {
  }

  lemma NextIsAct(w: World, h: nat, act: Act)
    requires Healthy(w) && h < |w.attempts|
    ensures Next(w, Task(h, act)) == w.(attempts := w.attempts[h := Acted(w.attempts[h], act)])
  {
  }

  lemma DemDeclared() returns (w: World)
    ensures w == World(Registry([Entry("dem", Engine, Missing)], [0], []), [IDLE])
    ensures Healthy(START) && Next(START, Register([Declaration("dem", false)], Engine)) == w
  {
    var rows := [Declaration("dem", false)];
    assert rows[..0] == [] && NewHandles(0, 1) == [0] && NewHandles(0, 1)[..0] == [];
    assert AllDeclared(Registry([], [], []), rows, Engine, [0]) == Declared(Registry([], [], []), rows[0], Engine, 0);
    assert seq(1, _ => IDLE) == [IDLE];
    w := World(Registry([Entry("dem", Engine, Missing)], [0], []), [IDLE]);
  }

  lemma DemRequested() returns (w: World)
    ensures w == World(Registry([Entry("dem", Engine, Downloading(0, 0))], [1], []), [IDLE, STARTED])
    ensures var before := World(Registry([Entry("dem", Engine, Missing)], [0], []), [IDLE]);
      Healthy(before) && Next(before, Request("dem")) == w && Healthy(w)
  {
    var entry := Entry("dem", Engine, Missing);
    assert Position([entry], "dem") == Some(0);
    w := World(Registry([entry.(state := Downloading(0, 0))], [1], []), [IDLE, STARTED]);
  }

  // ----- Keys -----

  /** Two scopes may declare the same key, but a request or a cancel names the key alone: it reaches the
      entry that was registered first, and no other. */
  lemma RequestReachesIff(w: World, key: string, i: nat)
    requires Healthy(w) && i < |w.reg.entries|
    ensures Next(w, Request(key)).reg.entries[i] != w.reg.entries[i]
       <==> Position(w.reg.entries, key) == Some(i) && w.reg.entries[i].state.Requestable()
    ensures Next(w, Request(key)).reg.entries[i] != w.reg.entries[i] ==>
      Next(w, Request(key)).reg.entries[i].state.Downloading?
    ensures Next(w, Cancel(key)).reg.entries[i] != w.reg.entries[i]
       <==> Position(w.reg.entries, key) == Some(i) && w.reg.entries[i].state.Downloading?
  {
  }

  ghost predicate UniqueKeys(entries: seq<Entry>) {
    forall i, j :: 0 <= i < j < |entries| ==> entries[i].key != entries[j].key || entries[i].scope != entries[j].scope
  }

  lemma {:induction false} DeclaredUnique<H>(reg: Registry<H>, rows: seq<Declaration>, scope: Scope, handles: seq<H>)
    requires |handles| == |rows| && UniqueKeys(reg.entries)
    ensures UniqueKeys(AllDeclared(reg, rows, scope, handles).entries)
    decreases |rows|
  {
    if rows != [] {
      DeclaredUnique(reg, rows[..|rows| - 1], scope, handles[..|rows| - 1]);
    }
  }

  lemma {:induction false} ForgottenUnique<H>(reg: Registry<H>, scope: Scope)
    requires |reg.entries| == |reg.slots| && UniqueKeys(reg.entries)
    ensures UniqueKeys(Forgotten(reg, scope).entries)
    ensures forall e :: e in Forgotten(reg, scope).entries ==> e in reg.entries
    decreases |reg.entries|
  {
    if reg.entries != [] {
      var n := |reg.entries| - 1;
      var front := Registry(reg.entries[..n], reg.slots[..n], reg.pending);
      ForgottenUnique(front, scope);
      forall i | 0 <= i < |Forgotten(front, scope).entries|
        ensures var e := Forgotten(front, scope).entries[i]; e.key != reg.entries[n].key || e.scope != reg.entries[n].scope
      {
        assert Forgotten(front, scope).entries[i] in front.entries;
      }
    }
  }

  /** No scope ever declares a key twice, however manifests are registered, forgotten and read again. */
  lemma {:induction false} KeysStayUnique(w: World, steps: seq<Step>)
    requires Healthy(w) && UniqueKeys(w.reg.entries)
    ensures UniqueKeys(Run(w, steps).reg.entries)
    decreases |steps|
  {
    if steps != [] {
      NextStaysHealthy(w, steps[0]);
      NextStaysUnique(w, steps[0]);
      KeysStayUnique(Next(w, steps[0]), steps[1..]);
    }
  }

  lemma NextStaysUnique(w: World, s: Step)
    requires Healthy(w) && UniqueKeys(w.reg.entries)
    ensures UniqueKeys(Next(w, s).reg.entries)
  {
    match s
    case Register(rows, scope) => DeclaredUnique(w.reg, rows, scope, NewHandles(|w.attempts|, |rows|));
    case Forget(scope) => ForgottenUnique(w.reg, scope);
    case _ =>
  }
}
