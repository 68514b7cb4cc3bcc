/** Datasets of two scopes under one key. */
module DatasetShadows {
  import opened Datasets
  import opened DatasetRuns
  import opened Wrappers

  predicate IsRow(e: Entry, key: string, scope: Scope) {
    e.key == key && e.scope == scope
  }

  /** `first` declares the key, and every row of `second` with it stands behind a row of `first`, at rest and
      on a handle nothing was started on. */
  ghost predicate Shadowed(w: World, key: string, first: Scope, second: Scope)
    requires Formed(w)
  {
    && (exists j :: 0 <= j < |w.reg.entries| && IsRow(w.reg.entries[j], key, first))
    && forall i :: 0 <= i < |w.reg.entries| && IsRow(w.reg.entries[i], key, second) ==> InShade(w, i, key, first)
  }

  ghost predicate InShade(w: World, i: nat, key: string, first: Scope)
    requires Formed(w) && i < |w.reg.entries|
  {
    (exists j :: 0 <= j < i && IsRow(w.reg.entries[j], key, first)) && AtRest(w, i)
  }

  /** Row `i` is at rest, on a handle nothing was started on. */
  ghost predicate AtRest(w: World, i: nat)
    requires Formed(w) && i < |w.reg.entries|
  {
    !w.reg.entries[i].state.Downloading? && w.attempts[w.reg.slots[i]] == IDLE
  }

  /** `v` has the rows of `w`, handles and news included, and behind them rows at rest. */
  ghost predicate Extends(w: World, v: World)
    requires Formed(w) && Formed(v)
  {
    && w.reg.entries <= v.reg.entries && w.reg.slots <= v.reg.slots && w.attempts <= v.attempts
    && forall i: nat :: |w.reg.entries| <= i < |v.reg.entries| ==> AtRest(v, i)
  }

  lemma RowStays(w: World, v: World, key: string, first: Scope, j: nat)
    requires Formed(w) && Formed(v) && Extends(w, v) && j < |w.reg.entries| && IsRow(w.reg.entries[j], key, first)
    ensures j < |v.reg.entries| && IsRow(v.reg.entries[j], key, first)
  {
  }

  lemma NewInShade(w: World, v: World, i: nat, j: nat, key: string, first: Scope)
    requires Formed(w) && Formed(v) && Extends(w, v) && |w.reg.entries| <= i < |v.reg.entries|
    requires j < |w.reg.entries| && IsRow(w.reg.entries[j], key, first)
    ensures InShade(v, i, key, first)
  {
    hide IsRow;
    RowStays(w, v, key, first, j);
    assert AtRest(v, i);
  }

  /** Rows added at the back, at rest and on new handles, shadow nothing and uncover nothing. */
  lemma ExtendedStaysShadowed(w: World, v: World, key: string, first: Scope, second: Scope)
    requires Formed(w) && Formed(v) && Shadowed(w, key, first, second) && Extends(w, v)
    ensures Shadowed(v, key, first, second)
  {
    hide IsRow, Formed, AtRest, InShade, Extends;
    var j: nat :| j < |w.reg.entries| && IsRow(w.reg.entries[j], key, first);
    RowStays(w, v, key, first, j);
    forall i: nat | i < |v.reg.entries| && IsRow(v.reg.entries[i], key, second) ensures InShade(v, i, key, first) {
      if i < |w.reg.entries| {
        RowWas(w, v, i);
        StillInShade(w, v, i, key, first);
      } else {
        NewInShade(w, v, i, j, key, first);
      }
    }
  }

  lemma RowWas(w: World, v: World, i: nat)
    requires Formed(w) && Formed(v) && Extends(w, v) && i < |w.reg.entries|
    ensures i < |v.reg.entries| && v.reg.entries[i] == w.reg.entries[i]
  {
  }

  lemma StillInShade(w: World, v: World, i: nat, key: string, first: Scope)
    requires Formed(w) && Formed(v) && Extends(w, v) && i < |w.reg.entries| && InShade(w, i, key, first)
    ensures InShade(v, i, key, first)
  {
    hide IsRow;
    var k :| 0 <= k < i && IsRow(w.reg.entries[k], key, first);
    assert IsRow(v.reg.entries[k], key, first);
    assert v.reg.entries[i] == w.reg.entries[i] && v.reg.slots[i] == w.reg.slots[i];
    assert v.attempts[w.reg.slots[i]] == w.attempts[w.reg.slots[i]];
  }

  /** What registering a manifest adds. */
  lemma {:induction false} DeclaredExtends(w: World, rows: seq<Declaration>, scope: Scope)
    requires Healthy(w)
    ensures var v := Next(w, Register(rows, scope));
      Healthy(v) && Extends(w, v)
    decreases |rows|
  {
    hide Healthy, Declares, Extends;
    DeclaredStaysHealthy(w, rows, scope);
    if rows == [] {
      assert w.attempts + seq(0, _ => IDLE) == w.attempts;
      HealthyIsFormed(w);
      ExtendsItself(w);
    } else {
      var n := |rows| - 1;
      DeclaredExtends(w, rows[..n], scope);
      HealthyIsFormed(w);
      var before, v := Next(w, Register(rows[..n], scope)), Next(w, Register(rows, scope));
      HealthyIsFormed(before);
      HealthyIsFormed(v);
      assert NewHandles(|w.attempts|, |rows|)[..n] == NewHandles(|w.attempts|, n);
      assert v.attempts == before.attempts + [IDLE];
      assert v.reg == Declared(before.reg, rows[n], scope, |before.attempts|);
      DeclaredOneExtends(before, v, rows[n], scope);
      ExtendsTwice(w, before, v);
    }
  }

  lemma DeclaredOneExtends(w: World, v: World, d: Declaration, scope: Scope)
    requires Formed(w) && Formed(v)
    requires v.reg == Declared(w.reg, d, scope, |w.attempts|) && v.attempts == w.attempts + [IDLE]
    ensures Extends(w, v)
  {
    hide Declares;
  }

  lemma ExtendsItself(w: World)
    requires Formed(w)
    ensures Extends(w, w)
  {
  }

  lemma ExtendsTwice(u: World, w: World, v: World)
    requires Formed(u) && Formed(w) && Formed(v) && Extends(u, w) && Extends(w, v)
    ensures Extends(u, v)
  {
    forall i: nat | |u.reg.entries| <= i < |v.reg.entries| ensures AtRest(v, i) {
      if i < |w.reg.entries| {
        assert AtRest(w, i);
        assert v.reg.entries[i] == w.reg.entries[i] && v.reg.slots[i] == w.reg.slots[i];
        assert v.attempts[w.reg.slots[i]] == w.attempts[w.reg.slots[i]];
      }
    }
  }

  lemma HealthyIsFormed(w: World)
    requires Healthy(w)
    ensures Formed(w)
  {
  }

  /** Forgetting another scope keeps the order of the rows that stay. */
  lemma {:induction false} ForgottenStaysShadowed(w: World, scope: Scope, key: string, first: Scope, second: Scope)
    requires Healthy(w) && Shadowed(w, key, first, second) && scope != first
    ensures Healthy(Next(w, Forget(scope))) && Shadowed(Next(w, Forget(scope)), key, first, second)
  {
    ForgottenStaysHealthy(w, scope);
    var out := Forgotten(w.reg, scope);
    var j :| 0 <= j < |w.reg.entries| && IsRow(w.reg.entries[j], key, first);
    var k := ForgottenKeepsRow(w.reg, scope, j);
    forall i: nat | i < |out.entries| && IsRow(out.entries[i], key, second) ensures InShade(Next(w, Forget(scope)), i, key, first) {
      var from, before := ForgottenKeepsOrder(w.reg, scope, i, key, first);
      assert InShade(w, from, key, first);
    }
  }

  lemma {:induction false} ForgottenKeepsRow<H>(reg: Registry<H>, scope: Scope, j: nat) returns (k: nat)
    requires |reg.entries| == |reg.slots| && j < |reg.entries| && reg.entries[j].scope != scope
    ensures k < |Forgotten(reg, scope).entries| && Forgotten(reg, scope).entries[k] == reg.entries[j]
    decreases |reg.entries|
  {
    var n := |reg.entries| - 1;
    var front := Registry(reg.entries[..n], reg.slots[..n], reg.pending);
    if j < n {
      k := ForgottenKeepsRow(front, scope, j);
    } else {
      k := |Forgotten(front, scope).entries|;
    }
  }

  /** A row that stays was somewhere before, with its handle, and still stands behind what it stood behind. */
  lemma {:induction false} ForgottenKeepsOrder<H>(reg: Registry<H>, scope: Scope, i: nat, key: string, first: Scope)
    returns (from: nat, before: Option<nat>)
    requires |reg.entries| == |reg.slots| && i < |Forgotten(reg, scope).entries| && scope != first
    ensures |Forgotten(reg, scope).slots| == |Forgotten(reg, scope).entries|
    ensures from < |reg.entries| && reg.entries[from] == Forgotten(reg, scope).entries[i]
    ensures reg.slots[from] == Forgotten(reg, scope).slots[i]
    ensures (exists j :: 0 <= j < from && IsRow(reg.entries[j], key, first)) ==>
              before.Some? && before.value < i && IsRow(Forgotten(reg, scope).entries[before.value], key, first)
    decreases |reg.entries|
  {
    hide IsRow;
    ForgottenLengths(reg, scope);
    var n := |reg.entries| - 1;
    var front := Registry(reg.entries[..n], reg.slots[..n], reg.pending);
    ForgottenLengths(front, scope);
    if i < |Forgotten(front, scope).entries| {
      from, before := ForgottenKeepsOrder(front, scope, i, key, first);
      assert forall j :: 0 <= j < from ==> front.entries[j] == reg.entries[j];
    } else {
      from, before := n, None;
      if exists j :: 0 <= j < n && IsRow(reg.entries[j], key, first) {
        var j :| 0 <= j < n && IsRow(reg.entries[j], key, first);
        assert reg.entries[j].scope != scope by { RowHasScope(reg.entries[j], key, first); }
        var k := ForgottenKeepsRow(front, scope, j);
        before := Some(k);
      }
    }
  }

  lemma RowHasScope(e: Entry, key: string, scope: Scope)
    requires IsRow(e, key, scope)
    ensures e.key == key && e.scope == scope
  {
  }

  lemma ShadedHasEarlier(w: World, key: string, first: Scope, second: Scope, i: nat)
    requires Formed(w) && Shadowed(w, key, first, second) && i < |w.reg.entries|
    ensures IsRow(w.reg.entries[i], key, second) ==> exists j :: 0 <= j < i && w.reg.entries[j].key == key
  {
    if IsRow(w.reg.entries[i], key, second) {
      assert InShade(w, i, key, first);
      var j :| 0 <= j < i && IsRow(w.reg.entries[j], key, first);
      assert w.reg.entries[j].key == key;
    }
  }

  /** The first row with the key is not one of the shadowed ones. */
  lemma ShadeIsNeverFirst(w: World, key: string, first: Scope, second: Scope, at: nat)
    requires Formed(w) && Shadowed(w, key, first, second) && Position(w.reg.entries, key) == Some(at)
    ensures !IsRow(w.reg.entries[at], key, second)
  {
    hide Shadowed, IsRow;
    ShadedHasEarlier(w, key, first, second, at);
  }

  /** Rows may change their state, and handles their news, as long as shadowed ones keep both. */
  lemma ReplacedStaysShadowed(w: World, v: World, key: string, first: Scope, second: Scope)
    requires Formed(w) && Formed(v) && Shadowed(w, key, first, second)
    requires |v.reg.entries| == |w.reg.entries|
    requires forall i :: 0 <= i < |w.reg.entries| ==>
               && v.reg.entries[i].key == w.reg.entries[i].key && v.reg.entries[i].scope == w.reg.entries[i].scope
               && (IsRow(w.reg.entries[i], key, second) ==>
                     !v.reg.entries[i].state.Downloading? && v.attempts[v.reg.slots[i]] == IDLE)
    ensures Shadowed(v, key, first, second)
  {
    var j :| 0 <= j < |w.reg.entries| && IsRow(w.reg.entries[j], key, first);
    assert IsRow(v.reg.entries[j], key, first);
    forall i | 0 <= i < |v.reg.entries| && IsRow(v.reg.entries[i], key, second) ensures InShade(v, i, key, first) {
      assert InShade(w, i, key, first);
      var k :| 0 <= k < i && IsRow(w.reg.entries[k], key, first);
      assert IsRow(v.reg.entries[k], key, first);
    }
  }

  lemma ShadedIsIdle(w: World, key: string, first: Scope, second: Scope, i: nat)
    requires Formed(w) && Shadowed(w, key, first, second) && i < |w.reg.entries| && IsRow(w.reg.entries[i], key, second)
    ensures !w.reg.entries[i].state.Downloading? && w.attempts[w.reg.slots[i]] == IDLE
  {
    assert InShade(w, i, key, first);
  }

  lemma NextStaysShadowed(w: World, s: Step, key: string, first: Scope, second: Scope)
    requires Healthy(w) && Shadowed(w, key, first, second) && s != Forget(first)
    ensures Healthy(Next(w, s)) && Shadowed(Next(w, s), key, first, second)
  {
    hide Shadowed;
    NextStaysHealthy(w, s);
    var v := Next(w, s);
    match s
    case Register(rows, scope) =>
      DeclaredExtends(w, rows, scope);
      ExtendedStaysShadowed(w, v, key, first, second);
    case Forget(scope) => ForgottenStaysShadowed(w, scope, key, first, second);
    case _ =>
      assert |v.reg.entries| == |w.reg.entries|;
      forall i | 0 <= i < |w.reg.entries|
        ensures v.reg.entries[i].key == w.reg.entries[i].key && v.reg.entries[i].scope == w.reg.entries[i].scope
        ensures IsRow(w.reg.entries[i], key, second) ==>
                  !v.reg.entries[i].state.Downloading? && v.attempts[v.reg.slots[i]] == IDLE
      {
        if IsRow(w.reg.entries[i], key, second) {
          ShadedStaysIdle(w, s, key, first, second, i);
        }
      }
      ReplacedStaysShadowed(w, v, key, first, second);
  }

  lemma ShadedStaysIdle(w: World, s: Step, key: string, first: Scope, second: Scope, i: nat)
    requires Healthy(w) && Shadowed(w, key, first, second) && !s.Register? && !s.Forget?
    requires i < |w.reg.entries| && IsRow(w.reg.entries[i], key, second)
    ensures var v := Next(w, s);
      && i < |v.reg.entries| == |v.reg.slots| && v.reg.slots[i] < |v.attempts|
      && !v.reg.entries[i].state.Downloading? && v.attempts[v.reg.slots[i]] == IDLE
  {
    hide Shadowed;
    ShadedIsIdle(w, key, first, second, i);
    match s
    case Request(k) =>
      if k == key && Position(w.reg.entries, k).Some? {
        ShadeIsNeverFirst(w, key, first, second, Position(w.reg.entries, k).value);
      }
    case Cancel(k) =>
      if k == key && Position(w.reg.entries, k).Some? {
        ShadeIsNeverFirst(w, key, first, second, Position(w.reg.entries, k).value);
      }
    case Drain =>
      assert Reports(w)[i] == None;
    case _ =>
  }

  ghost predicate Keeps(steps: seq<Step>, scope: Scope) {
    forall i :: 0 <= i < |steps| ==> steps[i] != Forget(scope)
  }

  /** Two scopes may declare the same key and neither is meant to shadow the other. But a request names the
      key alone: over every run in which the scope that declared it first stays open, the dataset of the
      other is never downloaded, whatever is requested. */
  lemma {:induction false} ShadowedNeverDownloads(
    w: World, steps: seq<Step>, key: string, first: Scope, second: Scope, i: nat)
    requires Healthy(w) && Shadowed(w, key, first, second) && Keeps(steps, first)
    requires i < |Run(w, steps).reg.entries| && IsRow(Run(w, steps).reg.entries[i], key, second)
    ensures !Run(w, steps).reg.entries[i].state.Downloading?
    decreases |steps|
  {
    hide Shadowed, Next;
    if steps == [] {
      ShadedIsIdle(w, key, first, second, i);
    } else {
      assert steps[0] != Forget(first);
      NextStaysShadowed(w, steps[0], key, first, second);
      assert forall j :: 0 <= j < |steps[1..]| ==> steps[1..][j] == steps[j + 1];
      ShadowedNeverDownloads(Next(w, steps[0]), steps[1..], key, first, second, i);
    }
  }

  /** A scope that declares a key after another one is shadowed from the start. */
  lemma DeclaredSecondIsShadowed(w: World, rows: seq<Declaration>, key: string, first: Scope, second: Scope)
    requires Healthy(w) && first != second
    requires exists j :: 0 <= j < |w.reg.entries| && IsRow(w.reg.entries[j], key, first)
    requires forall i :: 0 <= i < |w.reg.entries| ==> !IsRow(w.reg.entries[i], key, second)
    ensures Healthy(Next(w, Register(rows, second))) && Shadowed(Next(w, Register(rows, second)), key, first, second)
  {
    DeclaredExtends(w, rows, second);
    ExtendedStaysShadowed(w, Next(w, Register(rows, second)), key, first, second);
  }

  /** The steps close no scope with a row of the key in front of row `i`. */
  ghost predicate KeepsEarlier(w: World, i: nat, steps: seq<Step>)
    requires i < |w.reg.entries|
  {
    forall j :: 0 <= j < i && w.reg.entries[j].key == w.reg.entries[i].key ==> Keeps(steps, w.reg.entries[j].scope)
  }

  ghost predicate Downloads(w: World, key: string, scope: Scope) {
    exists i :: 0 <= i < |w.reg.entries| && IsRow(w.reg.entries[i], key, scope) && w.reg.entries[i].state.Downloading?
  }

  /** A row that is not fetched can become so, while the scopes in front of it stay open, exactly when no
      earlier row has its key. */
  lemma DownloadableIff(w: World, i: nat)
    requires Healthy(w) && UniqueKeys(w.reg.entries) && i < |w.reg.entries| && AtRest(w, i)
    ensures var e := w.reg.entries[i];
      (exists steps :: KeepsEarlier(w, i, steps) && Downloads(Run(w, steps), e.key, e.scope))
      <==> forall j :: 0 <= j < i ==> w.reg.entries[j].key != e.key
  {
    hide Run;
    var e := w.reg.entries[i];
    if j: nat :| j < i && w.reg.entries[j].key == e.key {
      ShadowedByEarlier(w, i, j);
      forall steps | KeepsEarlier(w, i, steps) ensures !Downloads(Run(w, steps), e.key, e.scope) {
        assert Keeps(steps, w.reg.entries[j].scope);
        NeverDownloads(w, steps, e.key, w.reg.entries[j].scope, e.scope);
      }
    } else {
      var steps := FirstDownloads(w, i);
      assert KeepsEarlier(w, i, steps);
    }
  }

  lemma NeverDownloads(w: World, steps: seq<Step>, key: string, first: Scope, second: Scope)
    requires Healthy(w) && Shadowed(w, key, first, second) && Keeps(steps, first)
    ensures !Downloads(Run(w, steps), key, second)
  {
    hide Shadowed, Run, Healthy;
    var v := Run(w, steps);
    forall i: nat | i < |v.reg.entries| && IsRow(v.reg.entries[i], key, second) ensures !v.reg.entries[i].state.Downloading? {
      ShadowedNeverDownloads(w, steps, key, first, second, i);
    }
  }

  lemma ShadowedByEarlier(w: World, i: nat, j: nat)
    requires Formed(w) && UniqueKeys(w.reg.entries) && j < i < |w.reg.entries| && AtRest(w, i)
    requires w.reg.entries[j].key == w.reg.entries[i].key
    ensures Shadowed(w, w.reg.entries[i].key, w.reg.entries[j].scope, w.reg.entries[i].scope)
  {
    hide AtRest;
    var key, first, second := w.reg.entries[i].key, w.reg.entries[j].scope, w.reg.entries[i].scope;
    assert IsRow(w.reg.entries[j], key, first);
    forall k | 0 <= k < |w.reg.entries| && IsRow(w.reg.entries[k], key, second) ensures InShade(w, k, key, first) {
      assert k == i;
    }
  }

  lemma FirstDownloads(w: World, i: nat) returns (steps: seq<Step>)
    requires Healthy(w) && i < |w.reg.entries| && !w.reg.entries[i].state.Downloading?
    requires forall j :: 0 <= j < i ==> w.reg.entries[j].key != w.reg.entries[i].key
    ensures Downloads(Run(w, steps), w.reg.entries[i].key, w.reg.entries[i].scope)
  {
    var key := w.reg.entries[i].key;
    var refresh := DatasetRuns.Step.Refresh(seq(|w.reg.entries|, _ => false));
    NextStaysHealthy(w, refresh);
    var v := Next(w, refresh);
    assert v.reg.entries[i].state.Requestable();
    assert Position(v.reg.entries, key) == Some(i) by {
      assert forall j :: 0 <= j < |v.reg.entries| ==> v.reg.entries[j].key == w.reg.entries[j].key;
    }
    RequestReachesIff(v, key, i);
    NextStaysHealthy(v, DatasetRuns.Step.Request(key));
    steps := [refresh, DatasetRuns.Step.Request(key)];
    RunTwoSteps(w, refresh, DatasetRuns.Step.Request(key));
    var out := Next(v, DatasetRuns.Step.Request(key));
    assert IsRow(out.reg.entries[i], key, w.reg.entries[i].scope);
  }

  lemma RunTwoSteps(w: World, a: Step, b: Step)
    requires Healthy(w)
    ensures Healthy(Next(w, a)) && Run(w, [a, b]) == Next(Next(w, a), b)
  {
    NextStaysHealthy(w, a);
    NextStaysHealthy(Next(w, a), b);
    assert [a, b][1..] == [b] && [b][1..] == [];
    RunNothing(Next(Next(w, a), b));
  }
}
