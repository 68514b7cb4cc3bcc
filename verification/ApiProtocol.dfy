/** Requests bridged from a transport, the replies owed to them, and the command queue in between.

    The engine applies queued commands one at a time; what a command queues is applied before whatever
    was queued after it. What systems queue goes to the back. */
module ApiProtocol {
  import opened Json
  import opened Numerals
  import opened Wrappers
  import Ids = EntityIds
  import Registry = EntityRegistry

  /** A correlation id. The router counts requests from 1; 0 stands for none. */
  type Cid = nat

  const TELEMETRY_CORRELATION_FLAG: Cid := 0x8000_0000_0000_0000

  /** A command as it arrives: its name and its parameters, with wire ids in them. */
  datatype Call = Call(name: string, params: Json)

  datatype Request = Execute(call: Call) | Other

  datatype Response = NotFound | Invalid | Accepted | Answer | TimedOut | Handled(id: nat) | Packet

  /** What this binary knows: registered types, those among them that are reflected events, commands that
      answer later, commands hidden from callers, query providers, the order ids are listed in, the type
      schemas, whether parameters deserialize into a command's type, and whether that type can be built
      from them. */
  datatype Binary = Binary(
    registered: set<string>,
    events: set<string>,
    deferred: set<string>,
    hidden: set<string>,
    queries: set<string>,
    timeout: real,
    listing: set<Cid> -> seq<Cid>,
    reflection: Ids.Reflection,
    typeOf: string -> Ids.TypeId,
    deserializes: (string, Json) -> bool,
    constructible: (string, Json) -> bool)
  {
    ghost predicate Lawful() {
      && events <= registered && timeout >= 0.0
      && forall ids, id :: id in listing(ids) <==> id in ids
    }
  }

  type Config = c: Binary | c.reflection.WellFormed() ghost witness
    Binary({}, {}, {}, {}, {}, 0.0, _ => [], Ids.Reflection(0, map[], _ => 0, _ => [], _ => false, 0), _ => 0,
           (_, _) => false, (_, _) => false)

  /** A command's parameters with their wire ids resolved; absent parameters are an empty object. */
  function Resolved(c: Config, ix: Registry.Index, call: Call): Json {
    Ids.Rewrite(c.reflection, Ids.Resolve, ix, if call.params == Null then Obj(map[]) else call.params,
                c.typeOf(call.name))
  }

  /** A call without parameters is one with an empty object of them, and that holds no id to resolve. */
  lemma AbsentIsEmpty(c: Config, ix: Registry.Index, name: string)
    ensures Resolved(c, ix, Call(name, Null)) == Resolved(c, ix, Call(name, Obj(map[]))) == Obj(map[])
  {
    EmptyObjectStays(c.reflection, ix, Ids.Typed(c.typeOf(name), false));
  }

  lemma EmptyObjectStays(r: Ids.Reflection, ix: Registry.Index, slot: Ids.Slot)
    requires r.WellFormed()
    ensures Ids.Convert(r, Ids.LeafOf(r, Ids.Resolve, ix), Obj(map[]), slot) == Obj(map[])
  {
    var leaf := Ids.LeafOf(r, Ids.Resolve, ix);
    assert forall local :: leaf(Obj(map[]), local) == Obj(map[]);
    hide Ids.LeafOf, Ids.Settle;
    assert !Ids.IsLeaf(r, Ids.Settle(r, Obj(map[]), slot)) ==> Ids.Convert(r, leaf, Obj(map[]), slot).fields == map[];
  }

  /** `validate_command_params`: the gate in front of the dispatcher. */
  predicate Validated(c: Config, ix: Registry.Index, call: Call) {
    var params := Resolved(c, ix, call);
    c.deserializes(call.name, params) && c.constructible(call.name, params)
  }

  /** A queued command. `origin` is the request a deferred command was dispatched for. */
  datatype Queued =
    | Asked(request: Request, cid: Cid)
    | InsertPending(cid: Cid)
    | Arm(cid: Cid)
    | Trigger(call: Call, origin: Option<Cid>)
    | Dispatch(name: string, params: Json, origin: Option<Cid>)
    | ClearPending
    | RunQuery(cid: Cid)
    | Respond(cid: Cid, response: Response)
    | Reindex(index: Registry.Index)

  /** What code outside this layer does while it runs: answer on the id it finds pending, answer on an id
      it kept, trigger a command in-process, publish telemetry, or change which entities have which ids. */
  datatype Foreign =
    | AnswerPending(id: nat)
    | AnswerOn(cid: Cid, id: nat)
    | Invoke(call: Call)
    | Emit(n: U64)
    | Rename(index: Registry.Index)

  datatype World = World(
    counter: Cid,
    pending: set<Cid>,
    replies: seq<(Cid, Response)>,
    outstanding: map<Cid, real>,
    pendingRequest: Cid,
    now: real,
    registry: Registry.Index,
    queue: seq<Queued>)

  const START := World(0, {}, [], map[], 0, 0.0, Registry.EMPTY, [])

  // ----- The executor -----

  /** Telemetry rides the reply channel under ids with the top bit set. */
  function TelemetryId(n: U64): (r: U64)
    ensures r >= TELEMETRY_CORRELATION_FLAG
    ensures n < TELEMETRY_CORRELATION_FLAG ==> r == n + TELEMETRY_CORRELATION_FLAG
  {
    if n < TELEMETRY_CORRELATION_FLAG then n + TELEMETRY_CORRELATION_FLAG else n
  }

  /** `execute_request`: what a request queues, its immediate reply last. */
  function Executed(c: Config, ix: Registry.Index, request: Request, cid: Cid): seq<Queued> {
    match request
    case Other => [Respond(cid, Answer)]
    case Execute(call) =>
      if call.name in c.deferred && call.name in c.registered then
        [InsertPending(cid), Arm(cid), Trigger(call, Some(cid))]
      else if call.name in c.hidden then [Respond(cid, NotFound)]
      else if call.name in c.queries then [RunQuery(cid)]
      else if call.name !in c.events then [Respond(cid, NotFound)]
      else if !Validated(c, ix, call) then [Respond(cid, Invalid)]
      else [Trigger(call, None), Respond(cid, Accepted)]
  }

  /** What foreign code queues, in order. */
  function Queues(w: World, acts: seq<Foreign>): (r: seq<Queued>)
    ensures |r| == |acts|
  {
    seq(|acts|, i requires 0 <= i < |acts| =>
      match acts[i]
      case AnswerPending(id) => Respond(w.pendingRequest, Handled(id))
      case AnswerOn(cid, id) => Respond(cid, Handled(id))
      case Invoke(call) => Trigger(call, None)
      case Emit(n) => Respond(TelemetryId(n), Packet)
      case Rename(index) => Reindex(index))
  }

  /** A response settles the debt for its id, and resolves the transport waiting on it. */
  function Responded(w: World, cid: Cid, response: Response): World {
    w.(pending := w.pending - {cid},
       replies := if cid in w.pending then w.replies + [(cid, response)] else w.replies,
       outstanding := w.outstanding - {cid})
  }

  /** The dispatcher, first half: a command whose parameters deserialize, their ids resolved now, is queued
      for dispatch. */
  function Dispatches(c: Config, ix: Registry.Index, call: Call, origin: Option<Cid>): seq<Queued> {
    var params := Resolved(c, ix, call);
    if call.name in c.registered && c.deserializes(call.name, params) then [Dispatch(call.name, params, origin)] else []
  }

  /** The dispatcher, second half: the handler runs if the type can be built from those parameters. */
  predicate Runs(c: Config, name: string, params: Json) {
    name in c.events && c.deserializes(name, params) && c.constructible(name, params)
  }

  /** What the observers of a command event queue. The engine runs them in no fixed order: so many of the
      foreign acts come ahead of the dispatcher's. */
  function Observed(c: Config, w: World, call: Call, origin: Option<Cid>, acts: seq<Foreign>, ahead: nat): seq<Queued> {
    var n := Ahead(acts, ahead);
    Queues(w, acts)[..n] + Dispatches(c, w.registry, call, origin) + Queues(w, acts)[n..]
  }

  function Ahead(acts: seq<Foreign>, ahead: nat): (n: nat)
    ensures n <= |acts|
  {
    if ahead < |acts| then ahead else |acts|
  }

  /** Any number of the foreign acts may come ahead of the dispatcher; they keep their own order, and the rest of
      them follows it. */
  lemma ObservedInAnyOrder(c: Config, w: World, call: Call, origin: Option<Cid>, acts: seq<Foreign>, n: nat)
    requires n <= |acts|
    ensures Observed(c, w, call, origin, acts, n) == Queues(w, acts[..n]) + Dispatches(c, w.registry, call, origin) + Queues(w, acts[n..])
  {
    assert Queues(w, acts)[..n] == Queues(w, acts[..n]);
    assert Queues(w, acts)[n..] == Queues(w, acts[n..]);
  }

  /** What a request that does not answer later is told at once: one of four things, by what this binary knows of
      the name, and only then by the parameters. */
  lemma ToldIff(c: Config, ix: Registry.Index, call: Call, cid: Cid)
    requires c.Lawful() && !(call.name in c.deferred && call.name in c.registered)
    ensures var queued := Executed(c, ix, Execute(call), cid);
      && (Respond(cid, NotFound) in queued <==>
            call.name in c.hidden || (call.name !in c.queries && call.name !in c.events))
      && (RunQuery(cid) in queued <==> call.name !in c.hidden && call.name in c.queries)
      && (Respond(cid, Accepted) in queued <==>
            call.name in c.events && call.name !in c.hidden && call.name !in c.queries && Validated(c, ix, call))
      && (Respond(cid, Invalid) in queued <==>
            call.name in c.events && call.name !in c.hidden && call.name !in c.queries && !Validated(c, ix, call))
      && (Trigger(call, None) in queued <==> Respond(cid, Accepted) in queued)
      && forall q :: q in queued && q.Respond? ==> q.response in {NotFound, Accepted, Invalid}
  {
    hide Validated;
  }

  /** The first queued command is applied; `acts` is what foreign code does if the command runs any, and
      `ahead` how much of it comes before the dispatcher. */
  function Applied(c: Config, w: World, acts: seq<Foreign>, ahead: nat): World
    requires w.queue != []
  {
    var rest := w.queue[1..];
    match w.queue[0]
    case Asked(request, cid) => w.(queue := Executed(c, w.registry, request, cid) + rest)
    case InsertPending(cid) => w.(pendingRequest := cid, queue := rest)
    case Arm(cid) => w.(outstanding := w.outstanding[cid := w.now + c.timeout], queue := rest)
    case Trigger(call, origin) => w.(queue := Observed(c, w, call, origin, acts, ahead) + rest)
    case Dispatch(name, params, _) =>
      if Runs(c, name, params) then w.(queue := Queues(w, acts) + [ClearPending] + rest)
      else w.(queue := rest)
    case ClearPending => w.(pendingRequest := 0, queue := rest)
    case RunQuery(cid) => w.(queue := Queues(w, acts) + [Respond(cid, Answer)] + rest)
    case Respond(cid, response) => Responded(w.(queue := rest), cid, response)
    case Reindex(index) => w.(registry := index, queue := rest)
  }

  // ----- The systems -----

  /** `http_bridge_request_router`: every waiting message gets the next id. */
  function Routed(w: World, requests: seq<Request>): World
    decreases |requests|
  {
    if requests == [] then w
    else
      var before := Routed(w, requests[..|requests| - 1]);
      var cid := before.counter + 1;
      before.(counter := cid, pending := before.pending + {cid},
              queue := before.queue + [Asked(requests[|requests| - 1], cid)])
  }

  function Expired(w: World): set<Cid> {
    set cid | cid in w.outstanding && w.now >= w.outstanding[cid]
  }

  function TimeOuts(ids: seq<Cid>): (r: seq<Queued>)
    ensures |r| == |ids| && forall i :: 0 <= i < |ids| ==> r[i] == Respond(ids[i], TimedOut)
  {
    seq(|ids|, i requires 0 <= i < |ids| => Respond(ids[i], TimedOut))
  }

  /** `expire_deferred_requests`. */
  function Ticked(c: Config, w: World): World {
    w.(outstanding := w.outstanding - Expired(w), queue := w.queue + TimeOuts(c.listing(Expired(w))))
  }

  datatype Step =
    | Bridge(requests: seq<Request>)
    | Tick
    | Elapse(seconds: real)
    | Script(acts: seq<Foreign>)
    | Apply(acts: seq<Foreign>, ahead: nat)
    | Sync(index: Registry.Index)

  /** One step. The engine applies its queue without a break, so the registry's own system runs only when
      it is empty. */
  function Next(c: Config, w: World, s: Step): World {
    match s
    case Bridge(requests) => Routed(w, requests)
    case Tick => Ticked(c, w)
    case Elapse(seconds) => if seconds >= 0.0 then w.(now := w.now + seconds) else w
    case Script(acts) => w.(queue := w.queue + Queues(w, acts))
    case Apply(acts, ahead) => if w.queue == [] then w else Applied(c, w, acts, ahead)
    case Sync(index) => if w.queue == [] then w.(registry := index) else w
  }

  function Run(c: Config, w: World, steps: seq<Step>): World
    decreases |steps|
  {
    if steps == [] then w else Run(c, Next(c, w, steps[0]), steps[1..])
  }

  // ----- The state as the source keeps it -----

  class Bridged {
    var counter: Cid
    var pending: set<Cid>
    var replies: seq<(Cid, Response)>
    var outstanding: map<Cid, real>
    var pendingRequest: Cid
    var now: real
    var registry: Registry.Index
    var queue: seq<Queued>

    ghost function Value(): World
      reads this
    {
      World(counter, pending, replies, outstanding, pendingRequest, now, registry, queue)
    }

    constructor ()
      ensures Value() == START
    {
      counter, pending, replies, outstanding, pendingRequest, now := 0, {}, [], map[], 0, 0.0;
      registry, queue := Registry.EMPTY, [];
    }

    /** The router's loop over what the transport has sent. */
    method Route(requests: seq<Request>)
      modifies this
      ensures Value() == Routed(old(Value()), requests)
    {
      for i := 0 to |requests|
        invariant Value() == Routed(old(Value()), requests[..i])
      {
        assert requests[..i + 1][..i] == requests[..i];
        counter := counter + 1;
        pending := pending + {counter};
        queue := queue + [Asked(requests[i], counter)];
      }
      assert requests[..|requests|] == requests;
    }

    /** The two observers of a response. */
    method OnResponse(cid: Cid, response: Response)
      modifies this
      ensures Value() == Responded(old(Value()), cid, response)
    {
      if cid in pending {
        pending := pending - {cid};
        replies := replies + [(cid, response)];
      }
      outstanding := outstanding - {cid};
    }

    method ExpireDeferred(c: Config)
      requires c.Lawful()
      modifies this
      ensures Value() == Ticked(c, old(Value()))
    {
      var expired := c.listing(set cid | cid in outstanding && now >= outstanding[cid]);
      assert expired == c.listing(Expired(old(Value())));
      for i := 0 to |expired|
        invariant Value() == old(Value()).(outstanding := old(outstanding) - Members(expired[..i]),
                                           queue := old(queue) + TimeOuts(expired[..i]))
      {
        assert Members(expired[..i + 1]) == Members(expired[..i]) + {expired[i]} by {
          assert expired[..i + 1] == expired[..i] + [expired[i]];
        }
        outstanding := outstanding - {expired[i]};
        queue := queue + [Respond(expired[i], TimedOut)];
        assert TimeOuts(expired[..i + 1]) == TimeOuts(expired[..i]) + [Respond(expired[i], TimedOut)];
      }
      assert expired[..|expired|] == expired;
      assert Members(expired) == Expired(old(Value()));
    }

    /** The engine applies the first queued command. */
    method ApplyFirst(c: Config, acts: seq<Foreign>, ahead: nat)
      requires queue != []
      modifies this
      ensures Value() == Applied(c, old(Value()), acts, ahead)
    {
      var first, rest := queue[0], queue[1..];
      queue := rest;
      match first
      case Asked(request, cid) =>
        queue := Executed(c, registry, request, cid) + queue;
      case InsertPending(cid) =>
        pendingRequest := cid;
      case Arm(cid) =>
        outstanding := outstanding[cid := now + c.timeout];
      case Trigger(call, origin) =>
        var reaction := Foreigns(acts);
        var n := Ahead(acts, ahead);
        var params := Resolved(c, registry, call);
        if call.name in c.registered && c.deserializes(call.name, params) {
          queue := reaction[..n] + [Dispatch(call.name, params, origin)] + reaction[n..] + queue;
        } else {
          queue := reaction[..n] + [] + reaction[n..] + queue;
        }
      case Dispatch(name, params, _) =>
        if name in c.events && c.deserializes(name, params) && c.constructible(name, params) {
          var reaction := Foreigns(acts);
          queue := reaction + [ClearPending] + queue;
        }
      case ClearPending =>
        pendingRequest := 0;
      case RunQuery(cid) =>
        var reaction := Foreigns(acts);
        queue := reaction + [Respond(cid, Answer)] + queue;
      case Respond(cid, response) =>
        OnResponse(cid, response);
      case Reindex(index) =>
        registry := index;
    }

    method Foreigns(acts: seq<Foreign>) returns (queued: seq<Queued>)
      ensures queued == Queues(Value(), acts)
    {
      queued := [];
      for i := 0 to |acts|
        invariant |queued| == i && forall j :: 0 <= j < i ==> queued[j] == Queues(Value(), acts)[j]
      {
        match acts[i]
        case AnswerPending(id) => queued := queued + [Respond(pendingRequest, Handled(id))];
        case AnswerOn(cid, id) => queued := queued + [Respond(cid, Handled(id))];
        case Invoke(call) => queued := queued + [Trigger(call, None)];
        case Emit(n) => queued := queued + [Respond(TelemetryId(n), Packet)];
        case Rename(index) => queued := queued + [Reindex(index)];
      }
    }
  }

  function Members(s: seq<Cid>): set<Cid> {
    set cid | cid in s
  }
}
