/** `DatasetRegistry`: which datasets are declared, what state each is in, and the handle its current
    download attempt reports through.

    The registry is described over any type `H` of handle identities. The class below keeps heap
    objects; the interleavings of `DatasetRuns` count attempts. */
module Datasets {
  import opened Wrappers

  datatype Scope = Engine | Twin(name: string, root: string)

  datatype DatasetState = Missing | Installed | Downloading(done: nat, total: nat) | Failed(cause: string) {
    predicate Requestable() {
      Missing? || Failed?
    }

    predicate Terminal() {
      Installed? || Failed?
    }
  }

  datatype Entry = Entry(key: string, scope: Scope, state: DatasetState)

  /** One row of a manifest; `present` says its artifact is already on disk. */
  datatype Declaration = Declaration(key: string, present: bool)

  /** Rows and the handles that go with them, and failures waiting to be published. */
  datatype Registry<H> = Registry(entries: seq<Entry>, slots: seq<H>, pending: seq<string>) {
    ghost predicate Aligned() {
      && |entries| == |slots|
      && forall i, j :: 0 <= i < j < |slots| ==> slots[i] != slots[j]
    }
  }

  /** The first entry with a key, in registration order. */
  function Position(entries: seq<Entry>, key: string): (r: Option<nat>)
    ensures r.Some? ==>
              && r.value < |entries| && entries[r.value].key == key
              && forall j :: 0 <= j < r.value ==> entries[j].key != key
    ensures r.None? ==> forall j :: 0 <= j < |entries| ==> entries[j].key != key
  {
    PositionFrom(entries, key, 0)
  }

  function PositionFrom(entries: seq<Entry>, key: string, i: nat): (r: Option<nat>)
    requires i <= |entries| && forall j :: 0 <= j < i ==> entries[j].key != key
    ensures r.Some? ==>
              && r.value < |entries| && entries[r.value].key == key
              && forall j :: 0 <= j < r.value ==> entries[j].key != key
    ensures r.None? ==> forall j :: 0 <= j < |entries| ==> entries[j].key != key
    decreases |entries| - i
  {
    if i == |entries| then None
    else if entries[i].key == key then Some(i)
    else PositionFrom(entries, key, i + 1)
  }

  predicate Declares(entries: seq<Entry>, key: string, scope: Scope) {
    exists i :: 0 <= i < |entries| && entries[i].key == key && entries[i].scope == scope
  }

  function ScopeLabel(scope: Scope): string {
    match scope
    case Engine => "engine"
    case Twin(name, _) => name
  }

  function DuplicateNotice(key: string, scope: Scope): string {
    "duplicate dataset key '" + key + "' within scope '" + ScopeLabel(scope) + "' \U{2014} ignored"
  }

  // ----- What each operation does -----

  /** One row; a key the scope already declares is refused. */
  function Declared<H>(reg: Registry<H>, d: Declaration, scope: Scope, handle: H): Registry<H> {
    if Declares(reg.entries, d.key, scope) then reg.(pending := reg.pending + [DuplicateNotice(d.key, scope)])
    else
      Registry(reg.entries + [Entry(d.key, scope, if d.present then Installed else Missing)],
               reg.slots + [handle], reg.pending)
  }

  function AllDeclared<H>(reg: Registry<H>, rows: seq<Declaration>, scope: Scope, handles: seq<H>): Registry<H>
    requires |handles| == |rows|
  {
    if rows == [] then reg
    else
      var n := |rows| - 1;
      Declared(AllDeclared(reg, rows[..n], scope, handles[..n]), rows[n], scope, handles[n])
  }

  /** The scope has a row for the key. */
  ghost predicate HasRow(entries: seq<Entry>, key: string, scope: Scope) {
    exists j :: 0 <= j < |entries| && entries[j].key == key && entries[j].scope == scope
  }

  /** What the manifest says of an entry: that it is in its scope, and whether its artifact is there. */
  ghost predicate IsOf(entry: Entry, rows: seq<Declaration>, scope: Scope) {
    exists i :: 0 <= i < |rows| && entry == Entry(rows[i].key, scope, if rows[i].present then Installed else Missing)
  }

  /** Whatever other scopes declare, a manifest's scope ends with a row for each key in it; what was there stays in
      place with its handle; and each row of the manifest either is a new entry or is reported. */
  lemma {:induction false} ManifestIsDeclared<H>(reg: Registry<H>, rows: seq<Declaration>, scope: Scope, handles: seq<H>)
    requires |handles| == |rows|
    ensures var out := AllDeclared(reg, rows, scope, handles);
      && reg.entries <= out.entries && reg.slots <= out.slots && reg.pending <= out.pending
      && (forall i :: 0 <= i < |rows| ==> HasRow(out.entries, rows[i].key, scope))
      && (forall j :: |reg.entries| <= j < |out.entries| ==> IsOf(out.entries[j], rows, scope))
      && |out.entries| - |reg.entries| == |out.slots| - |reg.slots|
      && (|out.entries| - |reg.entries|) + (|out.pending| - |reg.pending|) == |rows|
  {
    if rows != [] {
      var n := |rows| - 1;
      ManifestIsDeclared(reg, rows[..n], scope, handles[..n]);
      var before := AllDeclared(reg, rows[..n], scope, handles[..n]);
      DeclaredOne(before, rows[n], scope, handles[n]);
      var out := AllDeclared(reg, rows, scope, handles);
      hide AllDeclared, HasRow, IsOf, Declared;
      forall i | 0 <= i < |rows| ensures HasRow(out.entries, rows[i].key, scope) {
        if i < n {
          assert rows[..n][i] == rows[i];
          RowStays(before.entries, out.entries, rows[i].key, scope);
        }
      }
      forall j | |reg.entries| <= j < |out.entries| ensures IsOf(out.entries[j], rows, scope) {
        if j < |before.entries| {
          MoreRows(before.entries[j], rows, n, scope);
        } else {
          IsOfLast(out.entries[j], rows, scope);
        }
      }
    }
  }

  lemma DeclaredOne<H>(reg: Registry<H>, d: Declaration, scope: Scope, handle: H)
    ensures var out := Declared(reg, d, scope, handle);
      && reg.entries <= out.entries && reg.slots <= out.slots && reg.pending <= out.pending
      && HasRow(out.entries, d.key, scope)
      && |out.entries| - |reg.entries| == |out.slots| - |reg.slots|
      && (|out.entries| - |reg.entries|) + (|out.pending| - |reg.pending|) == 1
      && forall j :: |reg.entries| <= j < |out.entries| ==>
           out.entries[j] == Entry(d.key, scope, if d.present then Installed else Missing)
  {
    var out := Declared(reg, d, scope, handle);
    if !Declares(reg.entries, d.key, scope) {
      assert out.entries[|reg.entries|].key == d.key;
    }
  }

  lemma RowStays(before: seq<Entry>, after: seq<Entry>, key: string, scope: Scope)
    requires before <= after && HasRow(before, key, scope)
    ensures HasRow(after, key, scope)
  {
    var j :| 0 <= j < |before| && before[j].key == key && before[j].scope == scope;
    assert after[j] == before[j];
  }

  lemma MoreRows(entry: Entry, rows: seq<Declaration>, n: nat, scope: Scope)
    requires n <= |rows| && IsOf(entry, rows[..n], scope)
    ensures IsOf(entry, rows, scope)
  {
    var i :| 0 <= i < n && entry == Entry(rows[..n][i].key, scope, if rows[..n][i].present then Installed else Missing);
    assert rows[i] == rows[..n][i];
  }

  lemma IsOfLast(entry: Entry, rows: seq<Declaration>, scope: Scope)
    requires rows != []
    requires var d := rows[|rows| - 1]; entry == Entry(d.key, scope, if d.present then Installed else Missing)
    ensures IsOf(entry, rows, scope)
  {
  }

  function Forgotten<H>(reg: Registry<H>, scope: Scope): Registry<H>
    requires |reg.entries| == |reg.slots|
    decreases |reg.entries|
  {
    if reg.entries == [] then reg
    else
      var n := |reg.entries| - 1;
      var rest := Forgotten(Registry(reg.entries[..n], reg.slots[..n], reg.pending), scope);
      if reg.entries[n].scope == scope then rest
      else Registry(rest.entries + [reg.entries[n]], rest.slots + [reg.slots[n]], rest.pending)
  }

  function Requested<H>(reg: Registry<H>, key: string, handle: H): Registry<H>
    requires |reg.entries| == |reg.slots|
  {
    match Position(reg.entries, key)
    case Some(i) =>
      if reg.entries[i].state.Requestable() then
        reg.(entries := reg.entries[i := reg.entries[i].(state := Downloading(0, 0))], slots := reg.slots[i := handle])
      else reg
    case None => reg
  }

  /** Whether a request of a key starts an attempt. */
  predicate Starts<H>(reg: Registry<H>, key: string) {
    Position(reg.entries, key).Some? && reg.entries[Position(reg.entries, key).value].state.Requestable()
  }

  function Cancelled<H>(reg: Registry<H>, key: string, handle: H): Registry<H>
    requires |reg.entries| == |reg.slots|
  {
    match Position(reg.entries, key)
    case Some(i) =>
      if reg.entries[i].state.Downloading? then
        reg.(entries := reg.entries[i := reg.entries[i].(state := Failed("cancelled"))], slots := reg.slots[i := handle])
      else reg
    case None => reg
  }

  function RefreshedState(state: DatasetState, present: bool): DatasetState {
    if state.Downloading? then state
    else if present then Installed
    else if state.Failed? then state
    else Missing
  }

  function Refreshed(entries: seq<Entry>, present: seq<bool>): (r: seq<Entry>)
    requires |present| == |entries|
    ensures |r| == |entries|
  {
    seq(|entries|, i requires 0 <= i < |entries| => entries[i].(state := RefreshedState(entries[i].state, present[i])))
  }

  /** After a look at the disk a row is shown as installed exactly when its artifact is there and it is not being
      downloaded, and as missing exactly when it is not there and was neither being downloaded nor failed; nothing
      else changes. */
  lemma RefreshShowsDisk(entries: seq<Entry>, present: seq<bool>, i: nat)
    requires i < |entries| == |present|
    ensures var before, after := entries[i], Refreshed(entries, present)[i];
      && after.key == before.key && after.scope == before.scope
      && (after.state.Installed? <==> present[i] && !before.state.Downloading?)
      && (after.state.Missing? <==> !present[i] && (before.state.Missing? || before.state.Installed?))
      && (before.state.Downloading? || (before.state.Failed? && !present[i]) ==> after == before)
  {
  }

  predicate AnyDownloading(entries: seq<Entry>) {
    exists i :: 0 <= i < |entries| && entries[i].state.Downloading?
  }

  /** Every entry takes over what its handle reports, but only while something is in flight. */
  function Drained(entries: seq<Entry>, reports: seq<Option<DatasetState>>): (r: seq<Entry>)
    requires |reports| == |entries|
    ensures |r| == |entries|
  {
    if !AnyDownloading(entries) then entries
    else
      seq(|entries|, i requires 0 <= i < |entries| =>
        match reports[i] case Some(state) => entries[i].(state := state) case None => entries[i])
  }

  function FailureNotice(entry: Entry, cause: string): string {
    "dataset '" + entry.key + "' failed: " + cause
  }

  /** What a drain publishes of the first `n` reports. */
  function FailureNotices(entries: seq<Entry>, reports: seq<Option<DatasetState>>, n: nat): seq<string>
    requires n <= |entries| == |reports|
  {
    if n == 0 then []
    else
      FailureNotices(entries, reports, n - 1) +
      match reports[n - 1] case Some(Failed(cause)) => [FailureNotice(entries[n - 1], cause)] case _ => []
  }

  // ----- The registry as the source keeps it -----

  /** Everything one download attempt communicates with. */
  class DownloadHandle {
    var status: Option<DatasetState>
    var cancel: bool

    constructor ()
      ensures status == None && !cancel
    {
      status, cancel := None, false;
    }
  }

  class DatasetRegistry {
    var entries: seq<Entry>
    var slots: seq<DownloadHandle>
    var pendingFailures: seq<string>

    ghost function Value(): Registry<DownloadHandle>
      reads this
    {
      Registry(entries, slots, pendingFailures)
    }

    function Reports(): (r: seq<Option<DatasetState>>)
      reads this, slots
      ensures |r| == |slots|
    {
      seq(|slots|, i requires 0 <= i < |slots| reads this, slots => slots[i].status)
    }

    constructor ()
      ensures Value() == Registry([], [], []) && Value().Aligned()
    {
      entries, slots, pendingFailures := [], [], [];
    }

    /** One row of a manifest. */
    method Declare(d: Declaration, scope: Scope) returns (added: bool, ghost handle: DownloadHandle)
      requires Value().Aligned()
      modifies this
      ensures Value() == Declared(old(Value()), d, scope, handle) && Value().Aligned()
      ensures added == !Declares(old(entries), d.key, scope)
      ensures added ==> fresh(handle) && handle.status == None && !handle.cancel
    {
      if Declares(entries, d.key, scope) {
        pendingFailures := pendingFailures + [DuplicateNotice(d.key, scope)];
        return false, slots[0];
      }
      var attempt := new DownloadHandle();
      entries := entries + [Entry(d.key, scope, if d.present then Installed else Missing)];
      slots := slots + [attempt];
      return true, attempt;
    }

    /** `register_scoped`; a manifest that does not parse declares nothing and is reported. */
    method RegisterScoped(group: string, manifest: Result<seq<Declaration>, string>, scope: Scope)
      returns (added: nat, ghost handles: seq<DownloadHandle>)
      requires Value().Aligned()
      modifies this
      ensures manifest.Err? ==>
                added == 0 && Value() == old(Value()).(pending := old(pendingFailures)
                                                         + [group + ": Assets.toml parse failed: " + manifest.error])
      ensures manifest.Ok? ==> |handles| == |manifest.value|
                               && Value() == AllDeclared(old(Value()), manifest.value, scope, handles)
                               && added == |entries| - |old(entries)|
      ensures Value().Aligned()
      ensures forall h :: h in slots && h !in old(slots) ==> fresh(h) && h.status == None && !h.cancel
    {
      added, handles := 0, [];
      if manifest.Err? {
        pendingFailures := pendingFailures + [group + ": Assets.toml parse failed: " + manifest.error];
        return;
      }
      var rows := manifest.value;
      for i := 0 to |rows|
        invariant |handles| == i
        invariant Value() == AllDeclared(old(Value()), rows[..i], scope, handles)
        invariant Value().Aligned() && added == |entries| - |old(entries)|
        invariant forall h :: h in slots && h !in old(slots) ==> fresh(h) && h.status == None && !h.cancel
      {
        assert rows[..i + 1][..i] == rows[..i];
        var isNew, handle := Declare(rows[i], scope);
        added := added + if isNew then 1 else 0;
        assert (handles + [handle])[..i] == handles;
        handles := handles + [handle];
      }
      assert rows[..|rows|] == rows;
    }

    method ForgetScope(scope: Scope)
      requires Value().Aligned()
      modifies this
      ensures Value() == Forgotten(old(Value()), scope) && Value().Aligned()
    {
      hide Forgotten;
      var i := 0;
      ghost var done := 0;
      ghost var all, handles := entries, slots;
      ForgottenNone(all, handles, pendingFailures, scope);
      while i < |entries|
        invariant 0 <= i <= done <= |all| && i <= |entries| == |slots| && |all| == |handles|
        invariant entries[i..] == all[done..] && slots[i..] == handles[done..]
        invariant Registry(entries[..i], slots[..i], pendingFailures)
               == Forgotten(Registry(all[..done], handles[..done], pendingFailures), scope)
        invariant pendingFailures == old(pendingFailures)
        decreases |all| - done
      {
        ForgottenNext(all, handles, pendingFailures, scope, done);
        HeadOfRest(entries, i, all, done);
        HeadOfRest(slots, i, handles, done);
        if entries[i].scope == scope {
          entries := entries[..i] + entries[i + 1..];
          slots := slots[..i] + slots[i + 1..];
        } else {
          i := i + 1;
        }
        done := done + 1;
      }
      assert done == |all| by { assert |entries[i..]| == |all[done..]|; }
      assert all[..done] == all && handles[..done] == handles;
      assert entries[..i] == entries && slots[..i] == slots;
      ForgottenIsAligned(Registry(all, handles, pendingFailures), scope);
    }

    /** Returns the handle of the attempt it starts, if it starts one. */
    method Request(key: string) returns (started: Option<DownloadHandle>)
      requires Value().Aligned()
      modifies this
      ensures started.Some? <==> Starts(old(Value()), key)
      ensures started.Some? ==> fresh(started.value) && started.value.status == None && !started.value.cancel
      ensures started.Some? ==> Value() == Requested(old(Value()), key, started.value)
      ensures started.None? ==> Value() == old(Value())
      ensures Value().Aligned()
    {
      started := None;
      var at := Position(entries, key);
      if at.None? || entries[at.value].state.Installed? || entries[at.value].state.Downloading? {
        return;
      }
      var i := at.value;
      var handle := new DownloadHandle();
      entries := entries[i := entries[i].(state := Downloading(0, 0))];
      slots := slots[i := handle];
      started := Some(handle);
    }

    /** Returns the handle of the attempt it gave up on, if there was one. */
    method Cancel(key: string) returns (abandoned: Option<DownloadHandle>)
      requires Value().Aligned()
      modifies this, slots
      ensures abandoned.Some? <==>
              Position(old(entries), key).Some?
              && old(entries)[Position(old(entries), key).value].state.Downloading?
      ensures abandoned.None? ==> Value() == old(Value())
      ensures |slots| == |old(slots)| == |old(entries)|
      ensures abandoned.Some? ==>
                var i := Position(old(entries), key).value;
                && abandoned.value == old(slots)[i] && abandoned.value.cancel && abandoned.value !in slots
                && fresh(slots[i]) && slots[i].status == None && !slots[i].cancel
                && Value() == Cancelled(old(Value()), key, slots[i])
      ensures Value().Aligned()
      ensures forall h :: h in old(slots) ==> h.status == old(h.status) && (Some(h) != abandoned ==> h.cancel == old(h.cancel))
    {
      abandoned := None;
      var at := Position(entries, key);
      if at.None? || !entries[at.value].state.Downloading? {
        return;
      }
      var i := at.value;
      slots[i].cancel := true;
      abandoned := Some(slots[i]);
      var handle := new DownloadHandle();
      slots := slots[i := handle];
      entries := entries[i := entries[i].(state := Failed("cancelled"))];
    }

    method RefreshInstalledState(present: seq<bool>)
      requires |present| == |entries|
      modifies this`entries
      ensures entries == Refreshed(old(entries), present)
    {
      for i := 0 to |entries|
        invariant |entries| == |old(entries)|
        invariant forall j :: 0 <= j < |entries| ==>
          entries[j] == if j < i then Refreshed(old(entries), present)[j] else old(entries)[j]
      {
        if !entries[i].state.Downloading? {
          var state := if present[i] then Installed else if entries[i].state.Failed? then entries[i].state else Missing;
          entries := entries[i := entries[i].(state := state)];
        }
      }
    }

    /** `drain_dataset_status`; returns what is published as failed. */
    method Drain() returns (published: seq<string>)
      requires Value().Aligned()
      modifies this, slots
      ensures slots == old(slots) && pendingFailures == []
      ensures entries == Drained(old(entries), old(Reports()))
      ensures forall h :: h in slots ==>
                h.cancel == old(h.cancel) && h.status == if AnyDownloading(old(entries)) then None else old(h.status)
      ensures published == old(pendingFailures) +
                if AnyDownloading(old(entries)) then FailureNotices(old(entries), old(Reports()), |old(entries)|) else []
    {
      hide FailureNotices, FailureNotice, AnyDownloading;
      published := pendingFailures;
      pendingFailures := [];
      if !AnyDownloading(entries) {
        return;
      }
      ghost var reports := Reports();
      assert reports == old(Reports());
      NoticesNone(entries, reports);
      for i := 0 to |entries|
        invariant |entries| == |old(entries)| && slots == old(slots) && pendingFailures == []
        invariant forall j :: 0 <= j < |entries| ==>
          entries[j] == if j < i then Drained(old(entries), reports)[j] else old(entries)[j]
        invariant forall j :: 0 <= j < |slots| ==>
          slots[j].cancel == old(slots[j].cancel) && slots[j].status == if j < i then None else reports[j]
        invariant published == old(pendingFailures) + FailureNotices(old(entries), reports, i)
      {
        NoticesNext(old(entries), reports, i);
        var next := slots[i].status;
        slots[i].status := None;
        if next.Some? {
          if next.value.Failed? {
            published := published + [FailureNotice(entries[i], next.value.cause)];
          }
          entries := entries[i := entries[i].(state := next.value)];
        }
      }
    }
  }

  lemma NoticesNone(entries: seq<Entry>, reports: seq<Option<DatasetState>>)
    requires |entries| == |reports|
    ensures FailureNotices(entries, reports, 0) == []
  {
  }

  lemma NoticesNext(entries: seq<Entry>, reports: seq<Option<DatasetState>>, n: nat)
    requires n < |entries| == |reports|
    ensures FailureNotices(entries, reports, n + 1)
         == FailureNotices(entries, reports, n)
            + match reports[n] case Some(Failed(cause)) => [FailureNotice(entries[n], cause)] case _ => []
  {
  }

  lemma ForgottenNone<H>(entries: seq<Entry>, slots: seq<H>, pending: seq<string>, scope: Scope)
    ensures Forgotten(Registry(entries[..0], slots[..0], pending), scope) == Registry([], [], pending)
    ensures entries[..0] == [] && slots[..0] == [] && entries[0..] == entries && slots[0..] == slots
  {
  }

  lemma ForgottenNext<H>(entries: seq<Entry>, slots: seq<H>, pending: seq<string>, scope: Scope, n: nat)
    requires n < |entries| == |slots|
    ensures var before := Forgotten(Registry(entries[..n], slots[..n], pending), scope);
      Forgotten(Registry(entries[..n + 1], slots[..n + 1], pending), scope)
      == if entries[n].scope == scope then before
         else Registry(before.entries + [entries[n]], before.slots + [slots[n]], before.pending)
  {
    assert entries[..n + 1][..n] == entries[..n] && slots[..n + 1][..n] == slots[..n];
  }

  /** Two sequences with the same rest after `i` and `j` items: taking one item on in both, by deleting
      it from the first or by stepping over it, leaves the same rest. */
  lemma HeadOfRest<T>(s: seq<T>, i: nat, t: seq<T>, j: nat)
    requires i < |s| && j <= |t| && s[i..] == t[j..]
    ensures j < |t| && s[i] == t[j]
    ensures s[i + 1..] == t[j + 1..]
    ensures (s[..i] + s[i + 1..])[i..] == t[j + 1..] && (s[..i] + s[i + 1..])[..i] == s[..i]
    ensures s[..i + 1] == s[..i] + [s[i]]
  {
    assert |s[i..]| == |t[j..]|;
    assert s[i] == s[i..][0] == t[j..][0];
    assert s[i + 1..] == s[i..][1..] && t[j + 1..] == t[j..][1..];
  }

  /** What is left after a scope is forgotten is of other scopes, and each row has the handle it had. */
  lemma {:induction false} ForgottenRow<H>(reg: Registry<H>, scope: Scope, i: nat) returns (j: nat)
    requires |reg.entries| == |reg.slots| && i < |Forgotten(reg, scope).entries|
    ensures |Forgotten(reg, scope).entries| == |Forgotten(reg, scope).slots|
    ensures j < |reg.slots| && reg.slots[j] == Forgotten(reg, scope).slots[i]
    ensures reg.entries[j] == Forgotten(reg, scope).entries[i] && reg.entries[j].scope != scope
    decreases |reg.entries|
  {
    var n := |reg.entries| - 1;
    ForgottenLengths(reg, scope);
    var front := Registry(reg.entries[..n], reg.slots[..n], reg.pending);
    ForgottenLengths(front, scope);
    if i < |Forgotten(front, scope).entries| {
      j := ForgottenRow(front, scope, i);
    } else {
      j := n;
    }
  }

  lemma {:induction false} ForgottenLengths<H>(reg: Registry<H>, scope: Scope)
    requires |reg.entries| == |reg.slots|
    ensures |Forgotten(reg, scope).entries| == |Forgotten(reg, scope).slots| <= |reg.slots|
    ensures Forgotten(reg, scope).pending == reg.pending
    decreases |reg.entries|
  {
    if reg.entries != [] {
      var n := |reg.entries| - 1;
      ForgottenLengths(Registry(reg.entries[..n], reg.slots[..n], reg.pending), scope);
    }
  }

  lemma {:induction false} ForgottenIsAligned<H>(reg: Registry<H>, scope: Scope)
    requires reg.Aligned()
    ensures Forgotten(reg, scope).Aligned()
    ensures forall h :: h in Forgotten(reg, scope).slots ==> h in reg.slots
    decreases |reg.entries|
  {
    ForgottenLengths(reg, scope);
    if reg.entries != [] {
      var n := |reg.entries| - 1;
      var front := Registry(reg.entries[..n], reg.slots[..n], reg.pending);
      ForgottenIsAligned(front, scope);
      ForgottenLengths(front, scope);
      assert reg.slots[n] !in front.slots;
    }
  }
}
