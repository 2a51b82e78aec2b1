/** The RPC client and server over a network that may lose, delay, reorder and duplicate messages.

    Every access under the client's mutex, every message and every timer is a step of its own; steps of all threads
    interleave in any order. */
module Rpc {

  const INT_MAX: int := 0x7FFF_FFFF

  datatype Option<T> = None | Some(value: T)

  /** The three forms of callRpcMethod: no callback, a reply callback, a reply callback with a timer. */
  datatype Form = Plain | Reply | Timed

  datatype Call = Call(name: string, params: string, form: Form)

  /** A jme_rpc message. */
  datatype Packet = Packet(id: int, name: string, params: string)

  /** What a handler may answer: method, parameters and result. The server answers only for registered methods. */
  type Handlers = (string, string, string) -> bool

  /** The fields of the client: the last id, and for each waiting id whether it has a timer. */
  datatype Client = Client(methodId: int, cbs: map<int, bool>)

  /** A timer waits, has fired and its handler is queued, was cancelled, has removed the entry, or is done. */
  datatype Timer = Waiting | Fired | Cancelled | Removing | Finished

  /** A reply that has taken its entry; the timer is cancelled before the callback runs. */
  datatype Taken = Taken(result: string, checkDead: bool, cancelled: bool)

  /** What has happened to a call: its callback ran with a result, its dead callback found and removed the entry, or the
      dead callback itself ran. */
  datatype Note = Answered(id: int, result: string) | Removed(id: int) | Died(id: int)

  datatype State = State(client: Client, calls: map<int, Call>, unsent: set<int>, requests: set<Packet>,
      responses: set<Packet>,
                         timers: map<int, Timer>, taken: map<int, Taken>, log: seq<Note>)

  // ----- what happens under the mutex -----

  function Registered(c: Client, form: Form): Client {
    var id := c.methodId + 1;
    Client(id, if form == Plain then c.cbs else c.cbs[id := form == Timed])
  }

  function Without(c: Client, id: int): Client {
    c.(cbs := c.cbs - {id})
  }

  // ----- steps -----

  datatype Event =
    | Start(connected: bool, call: Call)
    | Send(id: int, written: bool)
    | Serve(request: Packet, result: string)
    | Receive(response: Packet)
    | Cancel(id: int)
    | RunCallback(id: int)
    | Expire(id: int)
    | RemoveDead(id: int)
    | RunDead(id: int)

  /** The event can happen. */
  ghost predicate Enabled(s: State, e: Event, h: Handlers) {
    match e
    case Start(_, _) => s.client.methodId < INT_MAX
    case Send(id, _) => id in s.unsent && id in s.calls
    case Serve(p, r) => p in s.requests && h(p.name, p.params, r)
    case Receive(p) => p in s.responses
    case Cancel(id) => id in s.taken && s.taken[id].checkDead && !s.taken[id].cancelled
    case RunCallback(id) => id in s.taken && (s.taken[id].checkDead ==> s.taken[id].cancelled)
    case Expire(id) => id in s.timers && s.timers[id] == Waiting
    case RemoveDead(id) => id in s.timers && s.timers[id] == Fired
    case RunDead(id) => id in s.timers && s.timers[id] == Removing
  }

  ghost function Step(s: State, e: Event, h: Handlers): State
    requires Enabled(s, e, h)
  {
    match e
    case Start(connected, call) =>
      if !connected then s
      else
        var id := s.client.methodId + 1;
        s.(client := Registered(s.client, call.form), calls := s.calls[id := call], unsent := s.unsent + {id},
           timers := if call.form == Timed then s.timers[id := Waiting] else s.timers)
    case Send(id, written) =>
      var c := s.calls[id];
      s.(unsent := s.unsent - {id}, requests := if written then s.requests + {Packet(id, c.name, c.params)}
                                                                else s.requests)
    case Serve(p, r) => s.(responses := s.responses + {Packet(p.id, p.name, r)})
    case Receive(p) =>
      if p.id in s.client.cbs then
        s.(client := Without(s.client, p.id), taken := s.taken[p.id := Taken(p.params, s.client.cbs[p.id], false)])
      else s
    case Cancel(id) =>
      s.(taken := s.taken[id := s.taken[id].(cancelled := true)],
         timers := if id in s.timers && s.timers[id] == Waiting then s.timers[id := Cancelled] else s.timers)
    case RunCallback(id) => s.(taken := s.taken - {id}, log := s.log + [Answered(id, s.taken[id].result)])
    case Expire(id) => s.(timers := s.timers[id := Fired])
    case RemoveDead(id) =>
      s.(client := Without(s.client, id), timers := s.timers[id := Removing],
         log := if id in s.client.cbs then s.log + [Removed(id)] else s.log)
    case RunDead(id) => s.(timers := s.timers[id := Finished], log := s.log + [Died(id)])
  }

  // ----- the invariant -----

  ghost predicate Answer(s: State, h: Handlers, id: int, r: string) {
    id in s.calls && s.calls[id].form != Plain && h(s.calls[id].name, s.calls[id].params, r)
  }

  ghost predicate WasAnswered(s: State, id: int) {
    exists k: nat :: k < |s.log| && s.log[k].Answered? && s.log[k].id == id
  }

  ghost predicate WasRemoved(s: State, id: int) {
    exists k: nat :: k < |s.log| && s.log[k].Removed? && s.log[k].id == id
  }

  /** A call waits, or its reply has taken the entry, or its callback has run, or its dead callback has removed it;
      never two of these. */
  ghost predicate IdOk(s: State, h: Handlers, id: int) {
    && (id in s.calls <==> 1 <= id <= s.client.methodId)
    && (id in s.client.cbs ==> id in s.calls && s.calls[id].form != Plain
                               && s.client.cbs[id] == (s.calls[id].form == Timed))
    && (id in s.timers ==> id in s.calls && s.calls[id].form == Timed)
    && (id in s.taken ==> Answer(s, h, id, s.taken[id].result))
    && !(id in s.client.cbs && id in s.taken) && !(id in s.client.cbs && WasAnswered(s, id))
       && !(id in s.client.cbs && WasRemoved(s, id))
    && !(id in s.taken && WasAnswered(s, id)) && !(id in s.taken && WasRemoved(s, id))
       && !(WasAnswered(s, id) && WasRemoved(s, id))
    && (id in s.unsent ==> id in s.calls) && (WasRemoved(s, id) ==> id in s.calls)
  }

  ghost predicate PacketsOk(s: State, h: Handlers) {
    && (forall p :: p in s.requests ==> p.id in s.calls && s.calls[p.id].name == p.name
                                        && s.calls[p.id].params == p.params)
    && (forall p :: p in s.responses ==> p.id in s.calls && s.calls[p.id].name == p.name
                                         && h(p.name, s.calls[p.id].params, p.params))
  }

  ghost predicate LogOk(s: State, h: Handlers) {
    && (forall k: nat :: k < |s.log| && s.log[k].Answered? ==> Answer(s, h, s.log[k].id, s.log[k].result))
    && (forall j: nat, k: nat :: j < k < |s.log| && s.log[j].Answered? && s.log[k].Answered? ==>
                                 s.log[j].id != s.log[k].id)
  }

  ghost predicate Inv(s: State, h: Handlers) {
    && s.client.methodId >= 0 && PacketsOk(s, h) && LogOk(s, h)
    && (forall id: int {:trigger IdOk(s, h, id)} :: IdOk(s, h, id))
  }

  lemma LogGrows(s: State, s': State, n: Note, id: int)
    requires s'.log == s.log + [n]
    ensures WasAnswered(s', id) <==> WasAnswered(s, id) || (n.Answered? && n.id == id)
    ensures WasRemoved(s', id) <==> WasRemoved(s, id) || (n.Removed? && n.id == id)
  {
    forall k: nat | k < |s.log|
      ensures s'.log[k] == s.log[k]
    {
    }
    assert s'.log[|s.log|] == n;
    if WasAnswered(s, id) {
      var k: nat :| k < |s.log| && s.log[k].Answered? && s.log[k].id == id;
      assert s'.log[k] == s.log[k];
    }
    if WasRemoved(s, id) {
      var k: nat :| k < |s.log| && s.log[k].Removed? && s.log[k].id == id;
      assert s'.log[k] == s.log[k];
    }
  }

  // ----- every step keeps it -----

  lemma StepId(s: State, e: Event, h: Handlers, id: int)
    requires Inv(s, h) && Enabled(s, e, h)
    ensures IdOk(Step(s, e, h), h, id)
  {
    hide LogOk, WasAnswered, WasRemoved;
    var s' := Step(s, e, h);
    assert IdOk(s, h, id);
    match e
    case RunCallback(i) =>
      assert IdOk(s, h, i);
      LogGrows(s, s', Answered(i, s.taken[i].result), id);
    case RemoveDead(i) =>
      if i in s.client.cbs {
        assert IdOk(s, h, i);
        LogGrows(s, s', Removed(i), id);
      } else {
        SameLog(s, s', id);
      }
    case RunDead(i) =>
      LogGrows(s, s', Died(i), id);
    case _ =>
      SameLog(s, s', id);
      if e.Start? {
        Fresh(s, h);
      }
  }

  lemma SameLog(s: State, s': State, id: int)
    requires s'.log == s.log
    ensures WasAnswered(s', id) == WasAnswered(s, id) && WasRemoved(s', id) == WasRemoved(s, id)
  {
  }

  /** The next id has not been used for anything. */
  lemma Fresh(s: State, h: Handlers)
    requires Inv(s, h)
    ensures var id := s.client.methodId + 1; id !in s.calls && id !in s.taken && !WasAnswered(s, id)
                                             && !WasRemoved(s, id)
  {
    assert IdOk(s, h, s.client.methodId + 1);
  }

  lemma StepPackets(s: State, e: Event, h: Handlers)
    requires Inv(s, h) && Enabled(s, e, h)
    ensures PacketsOk(Step(s, e, h), h)
  {
    assert IdOk(s, h, s.client.methodId + 1);
  }

  lemma StepLog(s: State, e: Event, h: Handlers)
    requires Inv(s, h) && Enabled(s, e, h)
    ensures LogOk(Step(s, e, h), h)
  {
    var s' := Step(s, e, h);
    assert IdOk(s, h, s.client.methodId + 1);
    if e.RunCallback? {
      assert IdOk(s, h, e.id);
    }
    assert forall k: nat :: k < |s.log| ==> s'.log[k] == s.log[k];
  }

  lemma StepKeepsInv(s: State, e: Event, h: Handlers)
    requires Inv(s, h) && Enabled(s, e, h)
    ensures Inv(Step(s, e, h), h)
  {
    hide PacketsOk, LogOk, IdOk;
    var s' := Step(s, e, h);
    StepPackets(s, e, h);
    StepLog(s, e, h);
    forall id: int {:trigger IdOk(s', h, id)}
      ensures IdOk(s', h, id)
    {
      StepId(s, e, h, id);
    }
  }

  // ----- runs -----

  function Initial(): State {
    State(Client(0, map[]), map[], {}, {}, {}, map[], map[], [])
  }

  /** The state after a run; events that cannot happen do not. */
  ghost function After(run: seq<Event>, h: Handlers): State
    decreases |run|
  {
    if run == [] then Initial()
    else
      var s := After(run[..|run| - 1], h);
      var e := run[|run| - 1];
      if Enabled(s, e, h) then Step(s, e, h) else s
  }

  lemma {:induction false} RunKeepsInv(run: seq<Event>, h: Handlers)
    ensures Inv(After(run, h), h)
    decreases |run|
  {
    if run != [] {
      RunKeepsInv(run[..|run| - 1], h);
      var s := After(run[..|run| - 1], h);
      var e := run[|run| - 1];
      if Enabled(s, e, h) {
        StepKeepsInv(s, e, h);
      }
    }
  }

  /** In every run a reply callback runs at most once, with a result the handler of its own method may give for its own
      parameters, only for calls that have a callback, and never if the dead callback of the call removed its entry. */
  lemma RepliesAreSafe(run: seq<Event>, h: Handlers)
    ensures var s := After(run, h);
            && (forall k: nat :: k < |s.log| && s.log[k].Answered? ==>
                  var id := s.log[k].id;
                  && id in s.calls && s.calls[id].form != Plain
                     && h(s.calls[id].name, s.calls[id].params, s.log[k].result)
                  && !WasRemoved(s, id))
            && (forall j: nat, k: nat :: j < k < |s.log| && s.log[j].Answered? && s.log[k].Answered? ==>
                                         s.log[j].id != s.log[k].id)
  {
    RunKeepsInv(run, h);
    var s := After(run, h);
    forall k: nat | k < |s.log| && s.log[k].Answered?
      ensures !WasRemoved(s, s.log[k].id)
    {
      assert IdOk(s, h, s.log[k].id);
    }
  }

  /** Reply callback and dead callback do not exclude each other: a timer that has fired runs its dead callback even
      when the reply has taken the entry. */
  lemma BothCallbacksCanRun(c: Call, result: string, h: Handlers) returns (run: seq<Event>)
    requires c.form == Timed && h(c.name, c.params, result)
    ensures After(run, h).log == [Answered(1, result), Died(1)] && After(run, h).calls == map[1 := c]
  {
    var r5 := LateReply(c, result, h);
    var r6 := r5 + [Cancel(1)];
    var r7 := r6 + [RunCallback(1)];
    var r8 := r7 + [RemoveDead(1)];
    run := r8 + [RunDead(1)];
    Extend(r5, Cancel(1), h);
    Extend(r6, RunCallback(1), h);
    Extend(r7, RemoveDead(1), h);
    Extend(r8, RunDead(1), h);
  }

  /** A reply that takes its entry after the timer of the call has fired. */
  lemma LateReply(c: Call, result: string, h: Handlers) returns (run: seq<Event>)
    requires c.form == Timed && h(c.name, c.params, result)
    ensures var s := After(run, h);
            && s.log == [] && s.taken == map[1 := Taken(result, true, false)] && s.timers == map[1 := Fired]
               && 1 !in s.client.cbs
            && s.calls == map[1 := c]
  {
    var p, q := Packet(1, c.name, c.params), Packet(1, c.name, result);
    var r2 := Sent(c, h);
    var r3 := r2 + [Serve(p, result)];
    var r4 := r3 + [Expire(1)];
    run := r4 + [Receive(q)];
    Extend(r2, Serve(p, result), h);
    Extend(r3, Expire(1), h);
    Extend(r4, Receive(q), h);
  }

  lemma Sent(c: Call, h: Handlers) returns (run: seq<Event>)
    requires c.form == Timed
    ensures var s := After(run, h);
            && s.log == [] && s.taken == map[] && s.timers == map[1 := Waiting] && s.client.cbs == map[1 := true]
            && s.requests == {Packet(1, c.name, c.params)} && s.calls == map[1 := c]
  {
    var r1 := Started(c, h);
    run := r1 + [Send(1, true)];
    Extend(r1, Send(1, true), h);
  }

  lemma Started(c: Call, h: Handlers) returns (run: seq<Event>)
    requires c.form == Timed
    ensures After(run, h) == State(Client(1, map[1 := true]), map[1 := c], {1}, {}, {}, map[1 := Waiting], map[], [])
  {
    run := [] + [Start(true, c)];
    Extend([], Start(true, c), h);
    assert After([], h) == State(Client(0, map[]), map[], {}, {}, {}, map[], map[], []);
  }

  lemma Extend(run: seq<Event>, e: Event, h: Handlers)
    ensures After(run + [e], h) == if Enabled(After(run, h), e, h) then Step(After(run, h), e, h) else After(run, h)
  {
    assert (run + [e])[..|run|] == run;
  }

  // ----- the objects -----

  /** The client object: what its methods do under the mutex. */
  class RpcClient {
    var client: Client

    constructor ()
      ensures client == Initial().client
    {
      client := Client(0, map[]);
    }

    /** The start of callRpcMethod: no id is used up while the session is down. */
    method NextCall(connected: bool, form: Form) returns (id: int)
      requires 0 <= client.methodId < INT_MAX && forall i :: i in client.cbs ==> i <= client.methodId
      modifies this
      ensures !connected ==> id == 0 && client == old(client)
      ensures connected ==> id == old(client.methodId) + 1 && client == Registered(old(client), form)
                            && id !in old(client.cbs)
      ensures connected ==> (id in client.cbs <==> form != Plain)
                            && (form != Plain ==> client.cbs[id] == (form == Timed))
                            && client.cbs - {id} == old(client.cbs)
      ensures forall i :: i in client.cbs ==> i <= client.methodId
    {
      id := 0;
      if connected {
        id := client.methodId + 1;
        client := client.(methodId := id);
        if form != Plain {
          client := client.(cbs := client.cbs[id := form == Timed]);
        }
      }
    }

    /** The lookup of sessionReceiveMessage: whoever finds the entry has removed it. */
    method TakeEntry(id: int) returns (found: bool, checkDead: bool)
      modifies this
      ensures found == (id in old(client.cbs)) && (found ==> checkDead == old(client.cbs)[id])
      ensures client == Without(old(client), id) && id !in client.cbs
    {
      found := id in client.cbs;
      checkDead := false;
      if found {
        checkDead := client.cbs[id];
        client := client.(cbs := client.cbs - {id});
      } else {
        assert client.cbs - {id} == client.cbs;
      }
    }

    /** removeDeadRPC. */
    method RemoveDeadRPC(id: int) returns (found: bool)
      modifies this
      ensures found == (id in old(client.cbs)) && client == Without(old(client), id)
    {
      found := id in client.cbs;
      if found {
        client := client.(cbs := client.cbs - {id});
      } else {
        assert client.cbs - {id} == client.cbs;
      }
    }
  }

  /** The method table of the server. */
  class RpcHandlers {
    var handlers: map<string, string -> Option<string>>

    constructor ()
      ensures handlers == map[]
    {
      handlers := map[];
    }

    /** regRpcHandler: a second registration of a method is refused, and aborts the program. */
    method RegRpcHandler(name: string, handler: string -> Option<string>) returns (ok: bool)
      modifies this
      ensures ok == (name !in old(handlers))
      ensures handlers == if ok then old(handlers)[name := handler] else old(handlers)
    {
      ok := name !in handlers;
      if ok {
        handlers := handlers[name := handler];
      }
    }

    /** What this table may answer. */
    ghost function Answers(): Handlers
      reads this
    {
      var t := handlers;
      (name: string, params: string, result: string) => name in t && t[name](params) == Some(result)
    }

    /** The server step: a known method whose handler gives a result is answered under the id and name of the request.
        */
    method ServeRequest(request: Packet) returns (answered: bool, response: Packet)
      ensures answered == (request.name in handlers && handlers[request.name](request.params).Some?)
      ensures answered ==> response.id == request.id && response.name == request.name
                           && Answers()(request.name, request.params, response.params)
      ensures forall s: State :: request in s.requests && answered ==>
                Enabled(s, Serve(request, response.params), Answers())
                && Step(s, Serve(request, response.params), Answers()).responses == s.responses + {response}
    {
      answered, response := false, request;
      if request.name in handlers {
        var result := handlers[request.name](request.params);
        if result.Some? {
          answered, response := true, Packet(request.id, request.name, result.value);
        }
      }
    }
  }
}
