/** Telemetry subscriptions: who listens, and how often a sampled channel may speak. */
module TelemetryRates {
  import opened ApiProtocol
  import opened Numerals
  import opened Wrappers

  type Session = nat
  const LOCAL: Session := 0

  /** A rate cap as it was asked for: none, samples per second, or no finite number. */
  datatype Cap = Uncapped | Hertz(rate: real) | NotFinite

  datatype Subscription = Subscription(id: nat, names: seq<string>, cap: Cap, owner: Session) {
    /** An empty list of names means every name. */
    predicate Matches(name: string) {
      names == [] || name in names
    }

    /** A cap that makes no sense is taken for none. */
    predicate Limits() {
      cap.Hertz? && cap.rate > 0.0
    }
  }

  /** A channel of an entity; names alone are not unique. */
  type Channel = (string, U64)
  type Marks = map<Channel, real>

  datatype Sample = Sample(name: string, source: U64, at: real) {
    function Key(): Channel {
      (name, source)
    }
  }

  // ----- The gate -----

  predicate Listened(subs: seq<Subscription>, name: string) {
    exists i :: 0 <= i < |subs| && subs[i].Matches(name)
  }

  /** Some listener takes everything. */
  predicate Unlimited(subs: seq<Subscription>, name: string) {
    exists i :: 0 <= i < |subs| && subs[i].Matches(name) && !subs[i].Limits()
  }

  /** The fastest rate a limited listener asked for. */
  function Fastest(subs: seq<Subscription>, name: string): (r: Option<real>)
    ensures r.Some? ==>
              && r.value > 0.0
              && exists i :: 0 <= i < |subs| && subs[i].Matches(name) && subs[i].cap == Hertz(r.value)
    ensures forall i :: 0 <= i < |subs| && subs[i].Matches(name) && subs[i].Limits() ==>
              r.Some? && subs[i].cap.rate <= r.value
  {
    if subs == [] then None
    else
      var last, before := subs[|subs| - 1], Fastest(subs[..|subs| - 1], name);
      if last.Matches(name) && last.Limits() && (before.None? || before.value < last.cap.rate) then Some(last.cap.rate)
      else before
  }

  lemma NobodyYet(subs: seq<Subscription>, name: string)
    requires subs == []
    ensures !Unlimited(subs, name) && Fastest(subs, name) == None
  {
  }

  lemma SomebodyListens(subs: seq<Subscription>, name: string)
    ensures Listened(subs, name) ==> subs != []
  {
  }

  lemma OneUnlimited(subs: seq<Subscription>, name: string, i: nat)
    requires i < |subs| && subs[i].Matches(name) && !subs[i].Limits()
    ensures Unlimited(subs, name)
  {
  }

  lemma OneMore(subs: seq<Subscription>, name: string, i: nat)
    requires i < |subs|
    ensures Unlimited(subs[..i + 1], name) <==> Unlimited(subs[..i], name) || (subs[i].Matches(name) && !subs[i].Limits())
    ensures var before := Fastest(subs[..i], name);
      Fastest(subs[..i + 1], name) ==
        if subs[i].Matches(name) && subs[i].Limits() && (before.None? || before.value < subs[i].cap.rate)
        then Some(subs[i].cap.rate) else before
  {
    var more := subs[..i + 1];
    assert more[..i] == subs[..i] && more[i] == subs[i];
    assert forall j :: 0 <= j < i ==> more[j] == subs[..i][j];
  }

  predicate Due(subs: seq<Subscription>, marks: Marks, s: Sample) {
    && Listened(subs, s.name)
    && (Unlimited(subs, s.name) || s.Key() !in marks || Fastest(subs, s.name).None?
        || s.at - marks[s.Key()] >= 1.0 / Fastest(subs, s.name).value)
  }

  /** The subscription names the channel, or none at all, which means every one. */
  predicate AsksFor(sub: Subscription, name: string) {
    |sub.names| == 0 || exists j :: 0 <= j < |sub.names| && sub.names[j] == name
  }

  /** A sample nobody asked for is never sent, and the first one on a channel is sent exactly when somebody did. */
  lemma SentOnlyIfAsked(subs: seq<Subscription>, marks: Marks, s: Sample)
    ensures Due(subs, marks, s) ==> exists i :: 0 <= i < |subs| && AsksFor(subs[i], s.name)
    ensures (s.name, s.source) !in marks ==>
      (Due(subs, marks, s) <==> exists i :: 0 <= i < |subs| && AsksFor(subs[i], s.name))
  {
    AskingMatches(subs, s.name);
    hide Subscription.Matches, AsksFor;
    if Listened(subs, s.name) {
      var i :| 0 <= i < |subs| && subs[i].Matches(s.name);
      assert AsksFor(subs[i], s.name);
    }
    if exists i :: 0 <= i < |subs| && AsksFor(subs[i], s.name) {
      var i :| 0 <= i < |subs| && AsksFor(subs[i], s.name);
      assert subs[i].Matches(s.name);
    }
  }

  lemma AskingMatches(subs: seq<Subscription>, name: string)
    ensures forall i :: 0 <= i < |subs| ==> (subs[i].Matches(name) <==> AsksFor(subs[i], name))
  {
  }

  /** The subscription asks for a positive rate, and one period of it has not passed. */
  predicate HoldsBack(sub: Subscription, since: real) {
    sub.cap.Hertz? && sub.cap.rate > 0.0 && since < 1.0 / sub.cap.rate
  }

  /** A sample that somebody asked for is dropped exactly when its channel spoke before and that is too recent for
      every single one who asked. */
  lemma DroppedIff(subs: seq<Subscription>, marks: Marks, s: Sample)
    requires exists i :: 0 <= i < |subs| && AsksFor(subs[i], s.name)
    ensures !Due(subs, marks, s) <==>
      && (s.name, s.source) in marks
      && forall i :: 0 <= i < |subs| && AsksFor(subs[i], s.name) ==> HoldsBack(subs[i], s.at - marks[(s.name, s.source)])
  {
    AskingMatches(subs, s.name);
    var one :| 0 <= one < |subs| && AsksFor(subs[one], s.name);
    assert subs[one].Matches(s.name);
    if (s.name, s.source) in marks && !Unlimited(subs, s.name) {
      assert subs[one].Limits();
      FastestHoldsLeast(subs, s.name, s.at - marks[(s.name, s.source)]);
    }
    if Unlimited(subs, s.name) {
      var i :| 0 <= i < |subs| && subs[i].Matches(s.name) && !subs[i].Limits();
      assert AsksFor(subs[i], s.name);
    }
  }

  lemma FastestHoldsLeast(subs: seq<Subscription>, name: string, since: real)
    requires !Unlimited(subs, name) && Fastest(subs, name).Some?
    ensures since < 1.0 / Fastest(subs, name).value <==>
      forall i :: 0 <= i < |subs| && AsksFor(subs[i], name) ==> HoldsBack(subs[i], since)
  {
    AskingMatches(subs, name);
    var rate := Fastest(subs, name).value;
    forall i | 0 <= i < |subs| && AsksFor(subs[i], name) && since < 1.0 / rate ensures HoldsBack(subs[i], since) {
      assert subs[i].Matches(name) && subs[i].Limits();
      PeriodShrinks(subs[i].cap.rate, rate);
    }
    var i :| 0 <= i < |subs| && subs[i].Matches(name) && subs[i].cap == Hertz(rate);
    assert AsksFor(subs[i], name);
  }

  lemma PeriodShrinks(slow: real, fast: real)
    requires 0.0 < slow <= fast
    ensures 1.0 / fast <= 1.0 / slow
  {
    var p, q := 1.0 / fast, 1.0 / slow;
    assert p * fast == 1.0 == q * slow && q > 0.0;
    assert q * slow <= q * fast;
    FactorOut(p, q, fast);
  }

  lemma FactorOut(a: real, b: real, c: real)
    requires c > 0.0 && a * c <= b * c
    ensures a <= b
  {
  }

  function Marked(subs: seq<Subscription>, marks: Marks, s: Sample): Marks {
    if Due(subs, marks, s) then marks[s.Key() := s.at] else marks
  }

  // ----- The registry as the source keeps it -----

  class TelemetrySubscriptions {
    var subscriptions: seq<Subscription>
    var nextId: nat
    var nextCorrelationId: U64
    var lastSent: Marks

    /** Nobody left, no marks left. */
    ghost predicate Valid()
      reads this
    {
      subscriptions == [] ==> lastSent == map[]
    }

    constructor ()
      ensures Valid()
      ensures subscriptions == [] && nextId == 0 && nextCorrelationId == 0 && lastSent == map[]
    {
      subscriptions, nextId, nextCorrelationId, lastSent := [], 0, 0, map[];
    }

    method SubscribeAs(owner: Session, names: seq<string>, cap: Cap) returns (id: nat)
      requires Valid()
      modifies this`subscriptions, this`nextId
      ensures Valid()
      ensures id == old(nextId) && nextId == id + 1
      ensures subscriptions == old(subscriptions) + [Subscription(id, names, cap, owner)]
    {
      id := nextId;
      nextId := nextId + 1;
      subscriptions := subscriptions + [Subscription(id, names, cap, owner)];
    }

    method Unsubscribe(id: nat)
      requires Valid()
      modifies this`subscriptions, this`lastSent
      ensures Valid()
      ensures subscriptions == Kept(old(subscriptions), (s: Subscription) => s.id != id)
      ensures lastSent == if subscriptions == [] then map[] else old(lastSent)
    {
      subscriptions := Kept(subscriptions, (s: Subscription) => s.id != id);
      ForgetWatermarksIfIdle();
    }

    /** The local session outlives the registry and is never released. */
    method ReleaseSession(session: Session) returns (dropped: nat)
      requires Valid()
      modifies this`subscriptions, this`lastSent
      ensures Valid()
      ensures session == LOCAL ==> dropped == 0 && subscriptions == old(subscriptions) && lastSent == old(lastSent)
      ensures session != LOCAL ==>
                && subscriptions == Kept(old(subscriptions), (s: Subscription) => s.owner != session)
                && dropped == |old(subscriptions)| - |subscriptions|
                && lastSent == if subscriptions == [] then map[] else old(lastSent)
    {
      if session == LOCAL {
        return 0;
      }
      var before := |subscriptions|;
      var others := (s: Subscription) => s.owner != session;
      KeptIsFewer(subscriptions, others);
      subscriptions := Kept(subscriptions, others);
      dropped := before - |subscriptions|;
      ForgetWatermarksIfIdle();
    }

    method ForgetWatermarksIfIdle()
      modifies this`lastSent
      ensures lastSent == if subscriptions == [] then map[] else old(lastSent)
    {
      if subscriptions == [] {
        lastSent := map[];
      }
    }

    /** Ids for telemetry packets, apart from those the router counts. */
    method NextCorrelationId() returns (id: U64)
      modifies this`nextCorrelationId
      ensures id == TelemetryId(old(nextCorrelationId)) >= TELEMETRY_CORRELATION_FLAG
      ensures nextCorrelationId == (old(nextCorrelationId) + 1) % (U64_MAX + 1)
    {
      id := TelemetryId(nextCorrelationId);
      nextCorrelationId := (nextCorrelationId + 1) % (U64_MAX + 1);
    }

    method ShouldSendSample(s: Sample) returns (send: bool)
      requires Valid()
      modifies this`lastSent
      ensures Valid()
      ensures send == Due(subscriptions, old(lastSent), s)
      ensures lastSent == Marked(subscriptions, old(lastSent), s)
    {
      hide Fastest, Unlimited, Listened;
      SomebodyListens(subscriptions, s.name);
      if !Listened(subscriptions, s.name) {
        return false;
      }
      NobodyYet(subscriptions[..0], s.name);
      var fastest: Option<real> := None;
      for i := 0 to |subscriptions|
        invariant !Unlimited(subscriptions[..i], s.name)
        invariant fastest == Fastest(subscriptions[..i], s.name)
        invariant lastSent == old(lastSent)
      {
        var sub := subscriptions[i];
        OneMore(subscriptions, s.name, i);
        if sub.Matches(s.name) {
          if !sub.Limits() {
            OneUnlimited(subscriptions, s.name, i);
            lastSent := lastSent[s.Key() := s.at];
            return true;
          }
          if fastest.None? || fastest.value < sub.cap.rate {
            fastest := Some(sub.cap.rate);
          }
        }
      }
      assert subscriptions[..|subscriptions|] == subscriptions;
      if fastest.Some? && s.Key() in lastSent && s.at - lastSent[s.Key()] < 1.0 / fastest.value {
        return false;
      }
      lastSent := lastSent[s.Key() := s.at];
      send := true;
    }
  }

  function Kept(subs: seq<Subscription>, keep: Subscription -> bool): (r: seq<Subscription>)
    ensures forall s :: s in r <==> s in subs && keep(s)
  {
    if subs == [] then [] else (if keep(subs[0]) then [subs[0]] else []) + Kept(subs[1..], keep)
  }

  lemma {:induction false} KeptIsFewer(subs: seq<Subscription>, keep: Subscription -> bool)
    ensures |Kept(subs, keep)| <= |subs|
  {
    if subs != [] {
      KeptIsFewer(subs[1..], keep);
    }
  }

  // ----- Runs with the same listeners -----

  function MarksAfter(subs: seq<Subscription>, samples: seq<Sample>): Marks {
    if samples == [] then map[]
    else Marked(subs, MarksAfter(subs, samples[..|samples| - 1]), samples[|samples| - 1])
  }

  /** Whether the i-th sample goes out. */
  predicate Sent(subs: seq<Subscription>, samples: seq<Sample>, i: nat)
    requires i < |samples|
  {
    Due(subs, MarksAfter(subs, samples[..i]), samples[i])
  }

  ghost predicate InTime(samples: seq<Sample>) {
    forall i, j :: 0 <= i < j < |samples| ==> samples[i].at <= samples[j].at
  }

  /** The mark of a channel is the time of its last delivered sample. */
  lemma {:induction false} MarkIsLastSent(subs: seq<Subscription>, samples: seq<Sample>, key: Channel)
    returns (last: Option<nat>)
    ensures last.None? <==> key !in MarksAfter(subs, samples)
    ensures last.Some? ==>
              && last.value < |samples| && samples[last.value].Key() == key && Sent(subs, samples, last.value)
              && MarksAfter(subs, samples)[key] == samples[last.value].at
    ensures forall i :: 0 <= i < |samples| && samples[i].Key() == key && Sent(subs, samples, i) ==>
              last.Some? && i <= last.value
  {
    hide Due;
    if samples == [] {
      last := None;
    } else {
      var n := |samples| - 1;
      forall i | 0 <= i < n ensures Sent(subs, samples, i) == Sent(subs, samples[..n], i) {
        assert samples[..n][..i] == samples[..i];
      }
      last := MarkIsLastSent(subs, samples[..n], key);
      if samples[n].Key() == key && Sent(subs, samples, n) {
        last := Some(n);
      }
    }
  }

  /** On a channel whose listeners all ask for a limit, delivered samples are at least one period of the
      fastest limit apart. */
  lemma DeliveriesAreSpaced(subs: seq<Subscription>, samples: seq<Sample>, i: nat, j: nat)
    requires InTime(samples) && i < j < |samples| && samples[i].Key() == samples[j].Key()
    requires Sent(subs, samples, i) && Sent(subs, samples, j)
    requires !Unlimited(subs, samples[j].name)
    ensures Fastest(subs, samples[j].name).Some?
    ensures samples[j].at - samples[i].at >= 1.0 / Fastest(subs, samples[j].name).value
  {
    hide Fastest;
    var last := MarkIsLastSent(subs, samples[..j], samples[j].Key());
    assert samples[..j][..i] == samples[..i];
    assert Sent(subs, samples[..j], i);
    assert samples[..j][last.value] == samples[last.value];
    assert samples[i].at <= samples[last.value].at;
  }

  /** A listened sample is dropped only if all listeners ask for a limit and a sample of its own channel
      went out less than one period of the fastest limit before. */
  lemma DropsAreCloseIff(subs: seq<Subscription>, samples: seq<Sample>, j: nat)
    requires InTime(samples) && j < |samples| && Listened(subs, samples[j].name)
    ensures !Sent(subs, samples, j) <==>
              && !Unlimited(subs, samples[j].name) && Fastest(subs, samples[j].name).Some?
              && exists i: nat :: i < j && samples[i].Key() == samples[j].Key() && Sent(subs, samples, i)
                   && samples[j].at - samples[i].at < 1.0 / Fastest(subs, samples[j].name).value
  {
    hide Fastest;
    var key := samples[j].Key();
    var last := MarkIsLastSent(subs, samples[..j], key);
    forall i: nat | i < j ensures Sent(subs, samples[..j], i) == Sent(subs, samples, i) {
      assert samples[..j][..i] == samples[..i];
    }
    if last.Some? {
      assert samples[..j][last.value] == samples[last.value];
      forall i: nat | i < j && samples[i].Key() == key && Sent(subs, samples, i)
        ensures samples[i].at <= samples[last.value].at
      {
        assert samples[..j][i] == samples[i];
      }
    } else {
      forall i: nat | i < j && samples[i].Key() == key ensures !Sent(subs, samples, i) {
        assert samples[..j][i] == samples[i];
      }
    }
  }

  /** The samples of one channel, and those of them that go out. */
  function OnChannel(samples: seq<Sample>, key: Channel): seq<Sample> {
    if samples == [] then []
    else
      var last := samples[|samples| - 1];
      OnChannel(samples[..|samples| - 1], key) + if last.Key() == key then [last] else []
  }

  function Delivered(subs: seq<Subscription>, samples: seq<Sample>, key: Channel): seq<Sample> {
    if samples == [] then []
    else
      var n := |samples| - 1;
      Delivered(subs, samples[..n], key)
      + if samples[n].Key() == key && Sent(subs, samples, n) then [samples[n]] else []
  }

  /** Traffic on other channels changes nothing: a channel delivers what it would deliver alone. */
  lemma {:induction false} ChannelsAreIndependent(subs: seq<Subscription>, samples: seq<Sample>, key: Channel)
    ensures Delivered(subs, samples, key) == Delivered(subs, OnChannel(samples, key), key)
    ensures key in MarksAfter(subs, samples) <==> key in MarksAfter(subs, OnChannel(samples, key))
    ensures key in MarksAfter(subs, samples) ==>
              MarksAfter(subs, samples)[key] == MarksAfter(subs, OnChannel(samples, key))[key]
  {
    hide Fastest, Unlimited, Listened;
    if samples != [] {
      var n := |samples| - 1;
      ChannelsAreIndependent(subs, samples[..n], key);
      if samples[n].Key() == key {
        var alone := OnChannel(samples, key);
        assert alone[..|alone| - 1] == OnChannel(samples[..n], key);
      } else {
        assert OnChannel(samples, key) == OnChannel(samples[..n], key);
        assert Delivered(subs, samples, key) == Delivered(subs, samples[..n], key);
      }
    }
  }

  /** Sample by sample: each one is sent exactly when it would be if its channel had spoken alone. */
  lemma SentAsIfAlone(subs: seq<Subscription>, samples: seq<Sample>, n: nat)
    requires n < |samples|
    ensures var alone := OnChannel(samples[..n + 1], samples[n].Key());
      && alone != [] && alone[|alone| - 1] == samples[n]
      && (Sent(subs, samples, n) <==> Sent(subs, alone, |alone| - 1))
  {
    hide Fastest, Unlimited, Listened;
    var key := samples[n].Key();
    var alone := OnChannel(samples[..n + 1], key);
    assert samples[..n + 1][..n] == samples[..n];
    assert alone[..|alone| - 1] == OnChannel(samples[..n], key);
    ChannelsAreIndependent(subs, samples[..n], key);
  }

  // ----- Newcomers -----

  /** What is left when some subscribers leave: those that stay, and the marks, unless nobody stays. */
  function MarksLeft(stay: seq<Subscription>, marks: Marks): Marks {
    if stay == [] then map[] else marks
  }

  lemma ListensAmong(stay: seq<Subscription>, newcomer: Subscription, name: string)
    requires newcomer.Matches(name)
    ensures Listened(stay + [newcomer], name)
    ensures Unlimited(stay + [newcomer], name) <==> Unlimited(stay, name) || !newcomer.Limits()
    ensures newcomer.Limits() ==>
              var among := Fastest(stay, name);
              Fastest(stay + [newcomer], name)
              == if among.None? || among.value < newcomer.cap.rate then Some(newcomer.cap.rate) else among
  {
    var all := stay + [newcomer];
    assert all[|stay|] == newcomer && all[..|stay|] == stay;
    assert forall i :: 0 <= i < |stay| ==> all[i] == stay[i];
  }

  /** Somebody else stayed, whatever they listen for; the newcomer asks for a limit; nobody who listens with it
      takes everything; and the channel's mark, whoever it was left by, is less than one period of the
      fastest limit old. */
  predicate Throttled(stay: seq<Subscription>, marks: Marks, newcomer: Subscription, s: Sample) {
    && stay != [] && newcomer.Limits() && !Unlimited(stay, s.name) && s.Key() in marks
    && match Fastest(stay + [newcomer], s.name)
       case Some(rate) => s.at - marks[s.Key()] < 1.0 / rate
       case None => false
  }

  /** A later subscriber is meant not to be throttled by the mark of one that has left. The first sample it
      listens for is dropped exactly when it is. */
  lemma NewcomerDroppedIff(stay: seq<Subscription>, marks: Marks, newcomer: Subscription, s: Sample)
    requires newcomer.Matches(s.name)
    ensures !Due(stay + [newcomer], MarksLeft(stay, marks), s) <==> Throttled(stay, marks, newcomer, s)
  {
    hide Unlimited, Fastest, Listened;
    ListensAmong(stay, newcomer, s.name);
  }

  /** In particular a mark that only departed subscribers were sent still throttles: if none of those who stay
      listens for the channel, the newcomer misses its first sample exactly within its own period of it. */
  lemma ThrottledByTheDeparted(stay: seq<Subscription>, marks: Marks, newcomer: Subscription, s: Sample)
    requires newcomer.Matches(s.name) && newcomer.Limits() && stay != [] && !Listened(stay, s.name)
    ensures !Due(stay + [newcomer], MarksLeft(stay, marks), s)
       <==> s.Key() in marks && s.at - marks[s.Key()] < 1.0 / newcomer.cap.rate
  {
    NewcomerDroppedIff(stay, marks, newcomer, s);
    ListensAmong(stay, newcomer, s.name);
    assert Fastest(stay, s.name).None?;
  }

  /** The registry does that when a subscriber leaves by itself. */
  method FirstSampleAfterUnsubscribe(
    t: TelemetrySubscriptions, gone: nat, owner: Session, names: seq<string>, cap: Cap, s: Sample) returns (sent: bool)
    requires t.Valid() && (names == [] || s.name in names)
    modifies t
    ensures var stay := Kept(old(t.subscriptions), (x: Subscription) => x.id != gone);
      sent <==> !Throttled(stay, old(t.lastSent), Subscription(old(t.nextId), names, cap, owner), s)
  {
    hide Throttled, Due, Kept;
    t.Unsubscribe(gone);
    NewcomerDroppedIff(t.subscriptions, old(t.lastSent), Subscription(t.nextId, names, cap, owner), s);
    var id := t.SubscribeAs(owner, names, cap);
    sent := t.ShouldSendSample(s);
  }

  /** And when a session is released, or, for the local one, is not. */
  method FirstSampleAfterRelease(
    t: TelemetrySubscriptions, gone: Session, owner: Session, names: seq<string>, cap: Cap, s: Sample)
    returns (sent: bool)
    requires t.Valid() && (names == [] || s.name in names)
    modifies t
    ensures var stay := if gone == LOCAL then old(t.subscriptions)
                        else Kept(old(t.subscriptions), (x: Subscription) => x.owner != gone);
      sent <==> !Throttled(stay, old(t.lastSent), Subscription(old(t.nextId), names, cap, owner), s)
  {
    hide Throttled, Due, Kept;
    var dropped := t.ReleaseSession(gone);
    NewcomerDroppedIff(t.subscriptions, old(t.lastSent), Subscription(t.nextId, names, cap, owner), s);
    var id := t.SubscribeAs(owner, names, cap);
    sent := t.ShouldSendSample(s);
  }
}
