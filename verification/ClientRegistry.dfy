/** The clients connected to the daemon: clientsManager.cpp. */
module ClientRegistry {

  /** What the registry knows of a client: the object path of its session, the last state it reported,
      whether it answered the last check, and whether it is ready. */
  datatype Client = Client(path: string, state: string, alive: bool, ready: bool)

  type Clients = map<string, Client>

  const ACTIVE: string := "active"

  /** The registry: the clients by ID, and the count of active ones that is kept beside them. */
  datatype Registry = Registry(clients: Clients, numActive: int)

  function ActiveClients(cs: Clients): set<string> {
    set id | id in cs && cs[id].state == ACTIVE
  }

  function DeadClients(cs: Clients): set<string> {
    set id | id in cs && !cs[id].alive
  }

  /** Sessions have one client each, and the count is right (so it never goes below zero). */
  predicate Valid(r: Registry) {
    && (forall id, id' | id in r.clients && id' in r.clients && id != id' ::
          r.clients[id].path != r.clients[id'].path)
    && r.numActive == |ActiveClients(r.clients)|
  }

  // ----- the operations -----

  /** Is a client of this session registered, and alive? */
  predicate Registered(cs: Clients, path: string) {
    exists id | id in cs :: cs[id].alive && cs[id].path == path
  }

  function Unregister(r: Registry, id: string): Registry {
    if id !in r.clients then r
    else Registry(r.clients - {id}, r.numActive - if r.clients[id].state == ACTIVE then 1 else 0)
  }

  function UncheckAll(cs: Clients): Clients {
    map id | id in cs :: cs[id].(alive := false)
  }

  /** The registry without some of its clients. */
  function Without(r: Registry, gone: set<string>): Registry {
    Registry(r.clients - gone, r.numActive - |gone * ActiveClients(r.clients)|)
  }

  /** The registry without its unresponsive clients. */
  function WithoutDead(r: Registry): Registry {
    Without(r, DeadClients(r.clients))
  }

  /** Registration under the ID drawn, which fails if the memory does: a session whose client answers
      makes every client unchecked; otherwise dead clients go and the new one comes. */
  function Register(r: Registry, path: string, id: string, memory: bool): (Registry, bool)
    requires Valid(r)
  {
    if Registered(r.clients, path) then (r.(clients := UncheckAll(r.clients)), false)
    else
      var r1 := WithoutDead(r);
      if id in r1.clients || !memory then (r1, false)
      else (r1.(clients := r1.clients[id := Client(path, "unknown", true, false)]), true)
  }

  /** The states a client may report. */
  predicate Accepted(state: string) {
    state == ACTIVE || state == "online"
  }

  function UpdateState(r: Registry, id: string, state: string): (Registry, bool) {
    if !Accepted(state) || id !in r.clients then (r, false)
    else
      var c := r.clients[id];
      var n := r.numActive - (if c.state == ACTIVE && state != ACTIVE then 1 else 0)
                           + (if state == ACTIVE && c.state != ACTIVE then 1 else 0);
      (Registry(r.clients[id := c.(state := state, alive := true)], n), true)
  }

  function ToggleReady(r: Registry, id: string): Registry {
    if id !in r.clients then r
    else r.(clients := r.clients[id := r.clients[id].(ready := !r.clients[id].ready)])
  }

  // ----- what each operation does to each client -----

  /** Nothing happened to the other clients. */
  predicate SameOthers(before: Clients, after: Clients, id: string) {
    && (forall other | other in after && other != id :: other in before)
    && forall other | other in before && other != id :: other in after && after[other] == before[other]
  }

  /** A rejected registration leaves every client as it was, but for having to report itself. */
  predicate AllUnchecked(before: Clients, after: Clients) {
    && after.Keys == before.Keys
    && forall id | id in before ::
         after[id] == Client(before[id].path, before[id].state, false, before[id].ready)
  }

  /** One that is not rejected leaves exactly the clients that answer, and the new one if it succeeds. */
  ghost predicate DeadReplaced(before: Clients, after: Clients, id: string, path: string, succeeds: bool) {
    && (forall other :: other in after <==> (other in before && before[other].alive) || (other == id && succeeds))
    && (forall other | other in before && before[other].alive :: after[other] == before[other])
    && (succeeds ==> after[id] == Client(path, "unknown", true, false))
  }

  /** A registration is rejected exactly if a client that answers has the session; otherwise it succeeds
      exactly if the memory does and the ID drawn is not one of a client that answers. */
  lemma RegisterOutcome(r: Registry, path: string, id: string, memory: bool)
    requires Valid(r)
    ensures var (r', ok) := Register(r, path, id, memory);
      if exists other | other in r.clients :: r.clients[other].alive && r.clients[other].path == path
      then !ok && AllUnchecked(r.clients, r'.clients)
      else
        && (ok <==> memory && !(id in r.clients && r.clients[id].alive))
        && DeadReplaced(r.clients, r'.clients, id, path, ok)
  {
    hide Valid, ActiveClients;
  }

  /** An accepted report is stored, and makes the client answer. */
  lemma UpdateOutcome(r: Registry, id: string, state: string)
    requires Valid(r)
    ensures var (r', ok) := UpdateState(r, id, state);
      && (ok <==> id in r.clients && (state == "active" || state == "online"))
      && SameOthers(r.clients, r'.clients, id)
      && (ok ==> r'.clients[id] == Client(r.clients[id].path, state, true, r.clients[id].ready))
      && (!ok ==> r' == r)
  {
    hide Valid;
  }

  // ----- every operation keeps the registry valid -----

  lemma UnregisterKeeps(r: Registry, id: string)
    requires Valid(r)
    ensures Valid(Unregister(r, id))
  {
    if id in r.clients {
      ActiveWithout(r.clients, id);
    }
  }

  lemma ActiveWithout(cs: Clients, id: string)
    requires id in cs
    ensures ActiveClients(cs - {id}) == ActiveClients(cs) - {id}
  {
  }

  lemma ActiveWith(cs: Clients, id: string, c: Client)
    ensures ActiveClients(cs[id := c]) ==
            if c.state == ACTIVE then ActiveClients(cs) + {id} else ActiveClients(cs) - {id}
  {
  }

  lemma WithoutDeadKeeps(r: Registry)
    requires Valid(r)
    ensures Valid(WithoutDead(r))
    ensures forall id :: id in WithoutDead(r).clients <==> id in r.clients && r.clients[id].alive
  {
    var dead, active := DeadClients(r.clients), ActiveClients(r.clients);
    assert ActiveClients(r.clients - dead) == active - dead;
    assert |active - dead| == |active| - |dead * active| by {
      assert active == (active - dead) + (dead * active);
    }
  }

  lemma RegisterKeeps(r: Registry, path: string, id: string, memory: bool)
    requires Valid(r)
    ensures Valid(Register(r, path, id, memory).0)
  {
    hide Valid, WithoutDead, UncheckAll, Registered;
    if Registered(r.clients, path) {
      UncheckKeeps(r);
    } else {
      WithoutDeadKeeps(r);
      if id !in WithoutDead(r).clients {
        NoOtherSession(r, path);
        AddKeeps(WithoutDead(r), path, id);
      }
    }
  }

  lemma UncheckKeeps(r: Registry)
    requires Valid(r)
    ensures Valid(r.(clients := UncheckAll(r.clients)))
  {
    var cs := UncheckAll(r.clients);
    assert ActiveClients(cs) == ActiveClients(r.clients) by {
      hide Valid;
    }
    hide ActiveClients;
  }

  /** Without the unresponsive clients nobody has the session. */
  lemma NoOtherSession(r: Registry, path: string)
    requires Valid(r) && !Registered(r.clients, path)
    ensures forall id | id in WithoutDead(r).clients :: WithoutDead(r).clients[id].path != path
  {
    hide Valid, ActiveClients;
  }

  lemma AddKeeps(r: Registry, path: string, id: string)
    requires Valid(r) && id !in r.clients && forall id | id in r.clients :: r.clients[id].path != path
    ensures Valid(r.(clients := r.clients[id := Client(path, "unknown", true, false)]))
  {
    ActiveWith(r.clients, id, Client(path, "unknown", true, false));
    assert id !in ActiveClients(r.clients);
    hide ActiveClients;
  }

  lemma UpdateKeeps(r: Registry, id: string, state: string)
    requires Valid(r)
    ensures Valid(UpdateState(r, id, state).0)
  {
    if Accepted(state) && id in r.clients {
      ActiveWith(r.clients, id, r.clients[id].(state := state, alive := true));
    }
  }

  lemma ToggleKeeps(r: Registry, id: string)
    requires Valid(r)
    ensures Valid(ToggleReady(r, id))
  {
    if id in r.clients {
      var c := r.clients[id].(ready := !r.clients[id].ready);
      ActiveWith(r.clients, id, c);
      assert id in ActiveClients(r.clients) <==> c.state == ACTIVE;
      assert ActiveClients(r.clients[id := c]) == ActiveClients(r.clients);
      hide ActiveClients;
    }
  }

  // ----- runs -----

  /** The calls the registry serves; the ID drawn and the success of the allocation are inputs. */
  datatype Op =
    | RegisterOp(path: string, id: string, memory: bool)
    | UnregisterOp(id: string)
    | UpdateOp(id: string, state: string)
    | ToggleOp(id: string)

  function Apply(r: Registry, op: Op): Registry
    requires Valid(r)
  {
    match op
    case RegisterOp(path, id, memory) => Register(r, path, id, memory).0
    case UnregisterOp(id) => Unregister(r, id)
    case UpdateOp(id, state) => UpdateState(r, id, state).0
    case ToggleOp(id) => ToggleReady(r, id)
  }

  lemma ApplyKeeps(r: Registry, op: Op)
    requires Valid(r)
    ensures Valid(Apply(r, op))
  {
    match op
    case RegisterOp(path, id, memory) => RegisterKeeps(r, path, id, memory);
    case UnregisterOp(id) => UnregisterKeeps(r, id);
    case UpdateOp(id, state) => UpdateKeeps(r, id, state);
    case ToggleOp(id) => ToggleKeeps(r, id);
  }

  function Run(r: Registry, ops: seq<Op>): Registry
    requires Valid(r)
    decreases ops
  {
    if ops == [] then r
    else
      ApplyKeeps(r, ops[0]);
      Run(Apply(r, ops[0]), ops[1..])
  }

  /** In every registry that can be reached, sessions are distinct and the count is that of the active
      clients. */
  lemma {:induction false} ReachableValid(ops: seq<Op>, r: Registry)
    requires Valid(r)
    ensures Valid(Run(r, ops))
    decreases ops
  {
    if ops != [] {
      ApplyKeeps(r, ops[0]);
      ReachableValid(ops[1..], Apply(r, ops[0]));
    }
  }

  lemma EmptyValid()
    ensures Valid(Registry(map[], 0))
  {
    assert ActiveClients(map[]) == {};
  }

  /** Does this call reject a registration because the session is already there? */
  predicate Rejects(r: Registry, op: Op) {
    op.RegisterOp? && Registered(r.clients, op.path)
  }

  /** No call of the run rejects a registration or unregisters `id`. */
  predicate Undisturbed(r: Registry, ops: seq<Op>, id: string)
    requires Valid(r)
    decreases ops
  {
    ops == [] || (
      && !Rejects(r, ops[0]) && ops[0] != UnregisterOp(id)
      && (ApplyKeeps(r, ops[0]); Undisturbed(Apply(r, ops[0]), ops[1..], id)))
  }

  lemma {:induction false} StaysAlive(r: Registry, ops: seq<Op>, id: string)
    requires Valid(r) && id in r.clients && r.clients[id].alive && Undisturbed(r, ops, id)
    ensures var r' := Run(r, ops);
      id in r'.clients && r'.clients[id].alive && r'.clients[id].path == r.clients[id].path
    decreases ops
  {
    if ops != [] {
      ApplyKeeps(r, ops[0]);
      KeepsAlive(r, ops[0], id);
      hide Apply, Valid, Rejects;
      StaysAlive(Apply(r, ops[0]), ops[1..], id);
    }
  }

  lemma KeepsAlive(r: Registry, op: Op, id: string)
    requires Valid(r) && id in r.clients && r.clients[id].alive && !Rejects(r, op) && op != UnregisterOp(id)
    ensures var r' := Apply(r, op);
      id in r'.clients && r'.clients[id].alive && r'.clients[id].path == r.clients[id].path
  {
    match op
    case RegisterOp(path, newID, memory) => RegisterLeaves(r, path, newID, memory, id);
    case UnregisterOp(_) =>
    case UpdateOp(_, _) =>
    case ToggleOp(_) =>
  }

  /** A registration leaves the clients that answer; if it is rejected it leaves all of them, unchecked. */
  lemma RegisterLeaves(r: Registry, path: string, newID: string, memory: bool, id: string)
    requires Valid(r) && id in r.clients && r.clients[id].alive
    ensures var r' := Register(r, path, newID, memory).0;
      id in r'.clients && (!Registered(r.clients, path) ==> r'.clients[id] == r.clients[id])
  {
    hide Valid, Registered, ActiveClients;
  }

  /** A client that reports an accepted state after a rejected registration is still there after the next
      call, whatever happens in between, unless it unregisters or another registration is rejected in
      between. */
  lemma ReportingSaves(r: Registry, rejected: Op, id: string, state: string, ops: seq<Op>, next: Op)
    requires Valid(r) && Rejects(r, rejected) && id in r.clients && Accepted(state)
    requires (ApplyKeeps(r, rejected); UpdateKeeps(Apply(r, rejected), id, state);
              Undisturbed(Apply(Apply(r, rejected), UpdateOp(id, state)), ops, id))
    requires next != UnregisterOp(id)
    ensures (ApplyKeeps(r, rejected); id in Run(Apply(r, rejected), [UpdateOp(id, state)] + ops + [next]).clients)
  {
    ApplyKeeps(r, rejected);
    var r1 := Apply(r, rejected);
    assert id in r1.clients;
    var all := [UpdateOp(id, state)] + (ops + [next]);
    assert all == [UpdateOp(id, state)] + ops + [next];
    assert all[0] == UpdateOp(id, state) && all[1..] == ops + [next];
    UpdateKeeps(r1, id, state);
    var r2 := Apply(r1, UpdateOp(id, state));
    assert r2.clients[id].alive;
    hide Apply, Valid, Undisturbed, Rejects;
    StaysAlive(r2, ops, id);
    ReachableValid(ops, r2);
    RunLast(r2, ops, next);
    NextLeaves(Run(r2, ops), next, id);
  }

  lemma NextLeaves(r: Registry, op: Op, id: string)
    requires Valid(r) && id in r.clients && r.clients[id].alive && op != UnregisterOp(id)
    ensures id in Apply(r, op).clients
  {
    if op.RegisterOp? {
      RegisterLeaves(r, op.path, op.id, op.memory, id);
    }
  }

  lemma {:induction false} RunLast(r: Registry, ops: seq<Op>, op: Op)
    requires Valid(r)
    ensures Valid(Run(r, ops)) && Run(r, ops + [op]) == Apply(Run(r, ops), op)
    decreases ops
  {
    hide Apply, Valid;
    ReachableValid(ops, r);
    if ops == [] {
      assert ops + [op] == [op] && [op][1..] == [];
      ApplyKeeps(r, op);
    } else {
      assert (ops + [op])[1..] == ops[1..] + [op];
      ApplyKeeps(r, ops[0]);
      RunLast(Apply(r, ops[0]), ops[1..], op);
    }
  }

  /** And a client that does not report is evicted by the next registration that is not rejected, even if
      its ID is drawn again for the new client. */
  lemma {:induction false} SilenceEvicts(r: Registry, path: string, newID: string, memory: bool, id: string)
    requires Valid(r) && id in r.clients && !Registered(r.clients, path)
    ensures var r' := Register(r, path, newID, memory).0;
      && (id in r'.clients <==> r.clients[id].alive || (id == newID && memory))
      && (id in r'.clients ==>
            r'.clients[id] == if r.clients[id].alive then r.clients[id] else Client(path, "unknown", true, false))
  {
    hide Valid, Registered, ActiveClients;
  }

  /** Nothing in a run tells that this client is alive: it reports no accepted state. */
  predicate Silent(ops: seq<Op>, id: string) {
    forall op | op in ops && op.UpdateOp? && op.id == id :: !Accepted(op.state)
  }

  /** No registration of the run draws this ID. */
  predicate NotDrawn(ops: seq<Op>, id: string) {
    forall op | op in ops && op.RegisterOp? :: op.id != id
  }

  /** The client is gone, or does not answer. */
  predicate Unresponsive(r: Registry, id: string) {
    id in r.clients ==> !r.clients[id].alive
  }

  lemma StaysUnresponsive(r: Registry, op: Op, id: string)
    requires Valid(r) && Unresponsive(r, id) && Silent([op], id) && NotDrawn([op], id)
    ensures Unresponsive(Apply(r, op), id)
  {
    hide Valid, ActiveClients;
    assert op in [op];
    match op
    case RegisterOp(path, newID, memory) => RegisterOutcome(r, path, newID, memory);
    case UnregisterOp(_) =>
    case UpdateOp(other, state) => UpdateOutcome(r, other, state);
    case ToggleOp(_) =>
  }

  lemma {:induction false} RunUnresponsive(r: Registry, ops: seq<Op>, id: string)
    requires Valid(r) && Unresponsive(r, id) && Silent(ops, id) && NotDrawn(ops, id)
    ensures Unresponsive(Run(r, ops), id)
    decreases ops
  {
    if ops != [] {
      ApplyKeeps(r, ops[0]);
      assert Silent([ops[0]], id) && NotDrawn([ops[0]], id);
      StaysUnresponsive(r, ops[0], id);
      assert Silent(ops[1..], id) && NotDrawn(ops[1..], id);
      hide Apply, Valid, Unresponsive, Silent, NotDrawn;
      RunUnresponsive(Apply(r, ops[0]), ops[1..], id);
    }
  }

  /** After a rejected registration, a client that reports no accepted state is gone after the next registration
      that is not rejected, whatever happens in between; only a new client can have drawn its ID. */
  lemma SilentIsEvicted(r: Registry, rejected: Op, ops: seq<Op>, next: Op, id: string)
    requires Valid(r) && Rejects(r, rejected) && Silent(ops, id) && NotDrawn(ops + [next], id)
    requires (ApplyKeeps(r, rejected); next.RegisterOp? && !Rejects(Run(Apply(r, rejected), ops), next))
    ensures (ApplyKeeps(r, rejected); id !in Run(Apply(r, rejected), ops + [next]).clients)
  {
    ApplyKeeps(r, rejected);
    var r1 := Apply(r, rejected);
    RegisterOutcome(r, rejected.path, rejected.id, rejected.memory);
    assert Unresponsive(r1, id);
    assert NotDrawn(ops, id) && next.id != id by {
      assert next in ops + [next] && forall op | op in ops :: op in ops + [next];
    }
    RunUnresponsive(r1, ops, id);
    RunLast(r1, ops, next);
    RegisterOutcome(Run(r1, ops), next.path, next.id, next.memory);
  }

  /** No client of the session reports, or is registered, in the run. */
  predicate NobodyAnswers(r: Registry, ops: seq<Op>, path: string)
    requires Valid(r)
    decreases ops
  {
    ops == [] || (
      && !(ops[0].RegisterOp? && ops[0].path == path)
      && !(ops[0].UpdateOp? && Accepted(ops[0].state) && ops[0].id in r.clients && r.clients[ops[0].id].path == path)
      && (ApplyKeeps(r, ops[0]); NobodyAnswers(Apply(r, ops[0]), ops[1..], path)))
  }

  lemma StaysUnregistered(r: Registry, op: Op, path: string)
    requires Valid(r) && !Registered(r.clients, path) && !(op.RegisterOp? && op.path == path)
    requires !(op.UpdateOp? && Accepted(op.state) && op.id in r.clients && r.clients[op.id].path == path)
    ensures !Registered(Apply(r, op).clients, path)
  {
    hide Valid, ActiveClients;
    match op
    case RegisterOp(other, newID, memory) => RegisterOutcome(r, other, newID, memory);
    case UnregisterOp(_) =>
    case UpdateOp(other, state) => UpdateOutcome(r, other, state);
    case ToggleOp(_) =>
  }

  lemma {:induction false} RunUnregistered(r: Registry, ops: seq<Op>, path: string)
    requires Valid(r) && !Registered(r.clients, path) && NobodyAnswers(r, ops, path)
    ensures !Registered(Run(r, ops).clients, path)
    decreases ops
  {
    if ops != [] {
      ApplyKeeps(r, ops[0]);
      StaysUnregistered(r, ops[0], path);
      hide Apply, Valid, Registered;
      RunUnregistered(Apply(r, ops[0]), ops[1..], path);
    }
  }

  /** So a session that was rejected gets in the second time, if none of its clients reports in between: with
      enough memory, unless the ID drawn is one of a client that answers. */
  lemma RetrySucceeds(r: Registry, rejected: Op, ops: seq<Op>, id: string, memory: bool)
    requires Valid(r) && Rejects(r, rejected)
    requires (ApplyKeeps(r, rejected); NobodyAnswers(Apply(r, rejected), ops, rejected.path))
    ensures (ApplyKeeps(r, rejected); ReachableValid(ops, Apply(r, rejected));
             var r2 := Run(Apply(r, rejected), ops);
             var (r', ok) := Register(r2, rejected.path, id, memory);
             && (ok <==> memory && !(id in r2.clients && r2.clients[id].alive))
             && (ok ==> id in r'.clients && r'.clients[id] == Client(rejected.path, "unknown", true, false)))
  {
    ApplyKeeps(r, rejected);
    var r1 := Apply(r, rejected);
    RegisterOutcome(r, rejected.path, rejected.id, rejected.memory);
    assert !Registered(r1.clients, rejected.path);
    ReachableValid(ops, r1);
    RunUnregistered(r1, ops, rejected.path);
    RegisterOutcome(Run(r1, ops), rejected.path, id, memory);
  }

  // ----- the manager -----

  class ClientsManager {
    var connectedClients: Clients
    var numActive: int
    /** Signals broadcast to the clients, and resets of the devices, counted. */
    var reportYourself: nat
    var resets: nat

    function State(): Registry
      reads this
    {
      Registry(connectedClients, numActive)
    }

    constructor ()
      ensures State() == Registry(map[], 0) && Valid(State())
    {
      connectedClients, numActive := map[], 0;
      reportYourself, resets := 0, 0;
      EmptyValid();
    }

    /** Looks at every client, in any order, for the session and for clients that do not answer. */
    method FindSession(path: string) returns (found: bool, toUnregister: set<string>)
      ensures found == Registered(connectedClients, path)
      ensures !found ==> toUnregister == DeadClients(connectedClients)
    {
      toUnregister := {};
      var todo := connectedClients.Keys;
      while todo != {}
        invariant todo <= connectedClients.Keys
        invariant forall id | id in connectedClients && id !in todo ::
                    if connectedClients[id].alive then connectedClients[id].path != path && id !in toUnregister
                    else id in toUnregister
        invariant forall id | id in toUnregister :: id in connectedClients && !connectedClients[id].alive
        decreases |todo|
      {
        var id :| id in todo;
        var client := connectedClients[id];
        todo := todo - {id};
        if !client.alive {
          toUnregister := toUnregister + {id};
        } else if client.path == path {
          return true, toUnregister;
        }
      }
      found := false;
    }

    method RegisterClient(path: string, clientID: string, memory: bool) returns (registered: bool)
      requires Valid(State())
      modifies this
      ensures Valid(State()) && (State(), registered) == Register(old(State()), path, clientID, memory)
      ensures reportYourself == old(reportYourself) + if Registered(old(connectedClients), path) then 1 else 0
      ensures resets == old(resets) + if Registered(old(connectedClients), path) then 0
                                      else |old(DeadClients(connectedClients) * ActiveClients(connectedClients))|
      ensures if exists id | id in old(connectedClients) ::
                   old(connectedClients)[id].alive && old(connectedClients)[id].path == path
              then !registered && AllUnchecked(old(connectedClients), connectedClients)
              else
                && (registered <==>
                      memory && !(clientID in old(connectedClients) && old(connectedClients)[clientID].alive))
                && DeadReplaced(old(connectedClients), connectedClients, clientID, path, registered)
    {
      RegisterKeeps(State(), path, clientID, memory);
      RegisterOutcome(State(), path, clientID, memory);
      hide Valid, ActiveClients, DeadClients, Registered, UncheckAll, Without, AllUnchecked, DeadReplaced;
      var found, toUnregister := FindSession(path);
      if found {
        connectedClients := UncheckAll(connectedClients);
        reportYourself := reportYourself + 1;
        return false;
      }
      UnregisterClients(toUnregister);
      if clientID in connectedClients || !memory {
        return false;
      }
      connectedClients := connectedClients[clientID := Client(path, "unknown", true, false)];
      registered := true;
    }

    /** Unregisters clients, in any order. */
    method UnregisterClients(clientIDs: set<string>)
      requires Valid(State()) && clientIDs <= connectedClients.Keys
      modifies this`connectedClients, this`numActive, this`resets
      ensures Valid(State()) && State() == Without(old(State()), clientIDs)
      ensures resets == old(resets) + |clientIDs * ActiveClients(old(connectedClients))|
    {
      hide Valid, Without, ActiveClients, Parts, Unregister;
      ghost var before, gone := State(), {};
      var todo := clientIDs;
      WithoutNone(before, gone, todo);
      while todo != {}
        invariant Parts(clientIDs, gone, todo) && clientIDs <= before.clients.Keys
        invariant Valid(State()) && State() == Without(before, gone)
        invariant resets == old(resets) + |gone * ActiveClients(before.clients)|
        decreases |todo|
      {
        var id :| id in todo;
        OneMore(clientIDs, gone, todo, id);
        WithoutOneMore(before, gone, id);
        var ok := UnregisterClient(id);
        gone, todo := gone + {id}, todo - {id};
      }
      OneMore(clientIDs, gone, todo, "");
    }

    /** `gone` and `todo` split `whole`. */
    static ghost predicate Parts(whole: set<string>, gone: set<string>, todo: set<string>) {
      gone !! todo && whole == gone + todo
    }

    static lemma OneMore(whole: set<string>, gone: set<string>, todo: set<string>, id: string)
      requires Parts(whole, gone, todo)
      ensures id in todo ==> id !in gone && id in whole && Parts(whole, gone + {id}, todo - {id})
      ensures todo == {} ==> gone == whole
    {
    }

    static lemma WithoutNone(r: Registry, none: set<string>, all: set<string>)
      requires none == {}
      ensures Parts(all, none, all)
      ensures Without(r, none) == r && |none * ActiveClients(r.clients)| == 0
    {
      assert r.clients - none == r.clients && none * ActiveClients(r.clients) == {};
    }

    static lemma WithoutOneMore(r: Registry, gone: set<string>, id: string)
      requires id in r.clients && id !in gone
      ensures id in Without(r, gone).clients && Without(r, gone).clients[id] == r.clients[id]
      ensures Unregister(Without(r, gone), id) == Without(r, gone + {id})
      ensures |(gone + {id}) * ActiveClients(r.clients)| ==
              |gone * ActiveClients(r.clients)| + if r.clients[id].state == ACTIVE then 1 else 0
    {
      assert r.clients - gone - {id} == r.clients - (gone + {id});
      var active := ActiveClients(r.clients);
      if r.clients[id].state == ACTIVE {
        assert (gone + {id}) * active == gone * active + {id};
      } else {
        assert (gone + {id}) * active == gone * active;
      }
    }

    method UnregisterClient(clientID: string) returns (ok: bool)
      requires Valid(State())
      modifies this`connectedClients, this`numActive, this`resets
      ensures Valid(State()) && State() == Unregister(old(State()), clientID)
      ensures ok == (clientID in old(connectedClients))
      ensures clientID !in connectedClients && SameOthers(old(connectedClients), connectedClients, clientID)
      ensures numActive >= 0
      ensures resets == old(resets) + if ok && old(connectedClients)[clientID].state == ACTIVE then 1 else 0
    {
      UnregisterKeeps(State(), clientID);
      if clientID !in connectedClients {
        return false;
      }
      if connectedClients[clientID].state == ACTIVE {
        resets := resets + 1;
        numActive := numActive - 1;
      }
      connectedClients := connectedClients - {clientID};
      ok := true;
    }

    /** The devices are reset when no active client is left. */
    method UpdateClientState(clientID: string, state: string) returns (ok: bool)
      requires Valid(State())
      modifies this`connectedClients, this`numActive, this`resets
      ensures Valid(State()) && (State(), ok) == UpdateState(old(State()), clientID, state)
      ensures resets == old(resets) + if ok && ActiveClients(connectedClients) == {} then 1 else 0
      ensures ok == (clientID in old(connectedClients) && (state == "active" || state == "online"))
      ensures SameOthers(old(connectedClients), connectedClients, clientID)
      ensures if ok then
                var was := old(connectedClients)[clientID];
                clientID in connectedClients && connectedClients[clientID] == Client(was.path, state, true, was.ready)
              else connectedClients == old(connectedClients)
    {
      UpdateKeeps(State(), clientID, state);
      UpdateOutcome(State(), clientID, state);
      if state != ACTIVE && state != "online" {
        return false;
      }
      if clientID !in connectedClients {
        return false;
      }
      var oldState := connectedClients[clientID].state;
      connectedClients := connectedClients[clientID := connectedClients[clientID].(state := state, alive := true)];
      if oldState == ACTIVE && state != ACTIVE {
        numActive := numActive - 1;
      }
      if state == ACTIVE {
        if oldState != ACTIVE {
          numActive := numActive + 1;
        }
      }
      if numActive == 0 {
        resets := resets + 1;
      }
      ok := true;
    }

    method ToggleClientReadyPropertie(clientID: string) returns (ok: bool)
      requires Valid(State())
      modifies this`connectedClients
      ensures Valid(State()) && State() == ToggleReady(old(State()), clientID)
      ensures ok == (clientID in old(connectedClients))
      ensures SameOthers(old(connectedClients), connectedClients, clientID)
      ensures ok ==>
                var was := old(connectedClients)[clientID];
                clientID in connectedClients
                && connectedClients[clientID] == Client(was.path, was.state, was.alive, !was.ready)
    {
      ToggleKeeps(State(), clientID);
      ok := clientID in connectedClients;
      if ok {
        var c := connectedClients[clientID];
        connectedClients := connectedClients[clientID := c.(ready := !c.ready)];
      }
    }
  }
}
