/** When the reply callback of a call, its dead callback, or both of them run. */
module RpcCallbacks {
  import opened Rpc

  ghost predicate WasDied(s: State, id: int) {
    exists k: nat :: k < |s.log| && s.log[k].Died? && s.log[k].id == id
  }

  predicate Late(t: Timer) {
    t == Fired || t == Removing || t == Finished
  }

  // ----- what the timer of a call says about its callbacks -----

  ghost predicate TimerOk(s: State, id: int) {
    && (id in s.timers <==> id in s.calls && s.calls[id].form == Timed)
    && (WasDied(s, id) <==> id in s.timers && s.timers[id] == Finished)
    && (id in s.taken ==> id in s.calls && s.taken[id].checkDead == (s.calls[id].form == Timed))
    && (WasRemoved(s, id) ==> id in s.timers && (s.timers[id] == Removing || s.timers[id] == Finished))
    && (id in s.calls && s.calls[id].form != Plain ==>
          id in s.client.cbs || id in s.taken || WasAnswered(s, id) || WasRemoved(s, id))
    && (id in s.timers ==>
          && (s.timers[id] == Waiting ==> !WasAnswered(s, id) && (id in s.taken ==> !s.taken[id].cancelled))
          && (s.timers[id] == Removing || s.timers[id] == Finished ==> id !in s.client.cbs)
          && (s.timers[id] == Cancelled ==> id in s.taken || WasAnswered(s, id)))
  }

  ghost predicate TimersOk(s: State) {
    forall id: int {:trigger TimerOk(s, id)} :: TimerOk(s, id)
  }

  lemma DeathsGrow(s: State, s': State, n: Note, id: int)
    requires s'.log == s.log + [n]
    ensures WasDied(s', id) <==> WasDied(s, id) || (n.Died? && n.id == id)
  {
    assert s'.log[|s.log|] == n;
    assert forall k: nat :: k < |s.log| ==> s'.log[k] == s.log[k];
    if WasDied(s, id) {
      var k: nat :| k < |s.log| && s.log[k].Died? && s.log[k].id == id;
      assert s'.log[k] == s.log[k];
    }
  }

  lemma StepTimer(s: State, e: Event, h: Handlers, id: int)
    requires Inv(s, h) && Enabled(s, e, h) && TimersOk(s)
    ensures TimerOk(Step(s, e, h), id)
  {
    hide LogOk, PacketsOk, WasAnswered, WasRemoved, WasDied;
    var s' := Step(s, e, h);
    assert IdOk(s, h, id) && TimerOk(s, id);
    match e
    case RunCallback(i) =>
      assert IdOk(s, h, i) && TimerOk(s, i);
      LogGrows(s, s', Answered(i, s.taken[i].result), id);
      DeathsGrow(s, s', Answered(i, s.taken[i].result), id);
    case RemoveDead(i) =>
      assert IdOk(s, h, i) && TimerOk(s, i);
      if i in s.client.cbs {
        LogGrows(s, s', Removed(i), id);
        DeathsGrow(s, s', Removed(i), id);
      } else {
        SameLog(s, s', id);
        SameDeaths(s, s', id);
      }
    case RunDead(i) =>
      LogGrows(s, s', Died(i), id);
      DeathsGrow(s, s', Died(i), id);
    case _ =>
      SameLog(s, s', id);
      SameDeaths(s, s', id);
      if e.Start? {
        Fresh(s, h);
      }
  }

  lemma SameDeaths(s: State, s': State, id: int)
    requires s'.log == s.log
    ensures WasDied(s', id) == WasDied(s, id)
  {
  }

  // ----- what has happened in a run -----

  /** The timer of the call has expired in the run, which it can do only while nobody has cancelled it. */
  ghost predicate Expired(run: seq<Event>, h: Handlers, id: int)
    decreases |run|
  {
    |run| > 0 &&
    var before, e := run[..|run| - 1], run[|run| - 1];
    Expired(before, h, id) || (e == Expire(id) && Enabled(After(before, h), e, h))
  }

  /** A reply has taken the entry of the call in the run. */
  ghost predicate Took(run: seq<Event>, h: Handlers, id: int)
    decreases |run|
  {
    |run| > 0 &&
    var before, e := run[..|run| - 1], run[|run| - 1];
    Took(before, h, id) || (e.Receive? && e.response.id == id && Enabled(After(before, h), e, h)
        && id in After(before, h).client.cbs)
  }

  /** The state tells what has happened to a call. */
  ghost predicate Tells(run: seq<Event>, h: Handlers, id: int) {
    var s := After(run, h);
    && (Expired(run, h, id) <==> id in s.timers && Late(s.timers[id]))
    && (Took(run, h, id) <==> id in s.taken || WasAnswered(s, id))
  }

  lemma {:induction false} RunTells(run: seq<Event>, h: Handlers, id: int)
    ensures Inv(After(run, h), h) && TimersOk(After(run, h)) && Tells(run, h, id)
    decreases |run|
  {
    if run == [] {
      assert Inv(After(run, h), h) by { RunKeepsInv(run, h); }
    } else {
      var before, e := run[..|run| - 1], run[|run| - 1];
      var s := After(before, h);
      RunTells(before, h, id);
      if Enabled(s, e, h) {
        StepKeepsInv(s, e, h);
        StepTimers(s, e, h);
        StepTells(s, e, h, id);
      }
    }
  }

  lemma StepTimers(s: State, e: Event, h: Handlers)
    requires Inv(s, h) && Enabled(s, e, h) && TimersOk(s)
    ensures TimersOk(Step(s, e, h))
  {
    hide Inv, TimerOk;
    var s' := Step(s, e, h);
    forall id: int {:trigger TimerOk(s', id)}
      ensures TimerOk(s', id)
    {
      StepTimer(s, e, h, id);
    }
  }

  /** Late timers stay late and only an expiry makes one; a taken entry leads to an answer and only a reply takes one.
      */
  lemma StepTells(s: State, e: Event, h: Handlers, id: int)
    requires Inv(s, h) && Enabled(s, e, h) && TimersOk(s)
    ensures var s' := Step(s, e, h);
            && (id in s'.timers && Late(s'.timers[id]) <==> (id in s.timers && Late(s.timers[id])) || e == Expire(id))
            && (id in s'.taken || WasAnswered(s', id) <==>
                  id in s.taken || WasAnswered(s, id) || (e.Receive? && e.response.id == id && id in s.client.cbs))
  {
    hide LogOk, PacketsOk, WasAnswered, WasRemoved, WasDied;
    var s' := Step(s, e, h);
    assert IdOk(s, h, id) && TimerOk(s, id);
    match e
    case RunCallback(i) => LogGrows(s, s', Answered(i, s.taken[i].result), id);
    case RemoveDead(i) => if i in s.client.cbs { LogGrows(s, s', Removed(i), id); } else { SameLog(s, s', id); }
    case RunDead(i) => LogGrows(s, s', Died(i), id);
    case _ =>
      SameLog(s, s', id);
      if e.Start? {
        Fresh(s, h);
      }
  }

  // ----- the theorems -----

  /** Nothing is left to happen to the call: its entry is gone, no reply is on its way to the callback, the timer is at
      rest. */
  ghost predicate Settled(s: State, id: int) {
    id in s.timers && id !in s.client.cbs && id !in s.taken && (s.timers[id] == Cancelled || s.timers[id] == Finished)
  }

  /** In every run: a dead callback runs only for a timed call whose timer has expired, and either it removed the entry
      or a reply had taken it. Both callbacks have run exactly if the reply callback has and the timer is finished; a
      cancelled timer never leads to a dead callback. When the call is settled, an expired timer and a reply that took
      the entry decide, each on its own, which callbacks have run. */
  lemma CallbackOutcome(run: seq<Event>, h: Handlers, id: int)
    ensures var s := After(run, h);
            && (WasDied(s, id) ==> id in s.calls && s.calls[id].form == Timed && Expired(run, h, id))
            && (WasDied(s, id) ==> WasRemoved(s, id) != Took(run, h, id))
            && (WasAnswered(s, id) && WasDied(s, id) <==> WasAnswered(s, id) && id in s.timers
                                                          && s.timers[id] == Finished)
            && (id in s.timers && s.timers[id] == Cancelled ==> !WasDied(s, id) && !Expired(run, h, id)
                                                                && Took(run, h, id))
            && (Settled(s, id) ==>
                  && (WasDied(s, id) <==> Expired(run, h, id))
                  && (WasAnswered(s, id) <==> Took(run, h, id))
                  && (WasAnswered(s, id) || WasDied(s, id)))
  {
    hide LogOk, PacketsOk, WasAnswered, WasRemoved, WasDied, Expired, Took, After;
    RunTells(run, h, id);
    assert IdOk(After(run, h), h, id) && TimerOk(After(run, h), id);
  }

  ghost predicate BothRan(run: seq<Event>, h: Handlers, c: Call, id: int) {
    var s := After(run, h);
    id in s.calls && s.calls[id] == c && WasAnswered(s, id) && WasDied(s, id)
  }

  /** Both callbacks of a call can run exactly if it has a timer and its handler may answer. */
  lemma BothCanRunIff(c: Call, h: Handlers)
    ensures (exists run: seq<Event>, id: int :: BothRan(run, h, c, id)) <==>
              c.form == Timed && exists r: string :: h(c.name, c.params, r)
  {
    if run: seq<Event>, id: int :| BothRan(run, h, c, id) {
      CallbackOutcome(run, h, id);
      RunKeepsInv(run, h);
      var s := After(run, h);
      var k: nat :| k < |s.log| && s.log[k].Answered? && s.log[k].id == id;
      assert h(c.name, c.params, s.log[k].result);
    }
    if c.form == Timed && exists r: string :: h(c.name, c.params, r) {
      var r: string :| h(c.name, c.params, r);
      var run := BothCallbacksCanRun(c, r, h);
      var s := After(run, h);
      assert s.log[0] == Answered(1, r) && s.log[1] == Died(1);
      assert BothRan(run, h, c, 1);
    }
  }

  // ----- every call with a callback has one place, and can be answered -----

  /** Where a call is: it waits in cbs, a reply has taken its entry, its callback has run, its dead callback has removed
      the entry. */
  ghost function Places(s: State, id: int): nat {
    (if id in s.client.cbs then 1 else 0) + (if id in s.taken then 1 else 0)
    + (if WasAnswered(s, id) then 1 else 0) + (if WasRemoved(s, id) then 1 else 0)
  }

  /** In every run a call with a callback is, from its start on, in exactly one place; one without a callback is in
      none, and in particular never waits. */
  lemma OnePlace(run: seq<Event>, h: Handlers, id: int)
    ensures var s := After(run, h);
            id in s.calls ==> Places(s, id) == if s.calls[id].form == Plain then 0 else 1
  {
    hide PacketsOk, WasRemoved, After;
    RunTells(run, h, id);
    assert IdOk(After(run, h), h, id) && TimerOk(After(run, h), id);
  }

  /** A call that has started stays. */
  lemma CallStays(run: seq<Event>, e: Event, h: Handlers, id: int)
    requires id in After(run, h).calls
    ensures id in After(run + [e], h).calls && After(run + [e], h).calls[id] == After(run, h).calls[id]
  {
    hide After;
    RunKeepsInv(run, h);
    Fresh(After(run, h), h);
    Extend(run, e, h);
  }

  /** What the client does with a reply: the entry is taken, the timer, if there is one, cancelled, the callback run. */
  function Handling(p: Packet, timed: bool): seq<Event> {
    [Receive(p)] + (if timed then [Cancel(p.id)] else []) + [RunCallback(p.id)]
  }

  /** A response to a waiting call is answered with its parameters, once. */
  lemma ReplyIsAnswered(run: seq<Event>, p: Packet, h: Handlers)
    requires var s := After(run, h); p in s.responses && p.id in s.client.cbs
    ensures p.id in After(run, h).calls
    ensures var s := After(run, h);
            var s' := After(run + Handling(p, s.calls[p.id].form == Timed), h);
            s'.log == s.log + [Answered(p.id, p.params)] && s'.client == s.client.(cbs := s.client.cbs - {p.id})
  {
    hide After;
    RunKeepsInv(run, h);
    var s := After(run, h);
    assert IdOk(s, h, p.id);
    var r1 := run + [Receive(p)];
    Extend(run, Receive(p), h);
    var r2 := r1;
    if s.calls[p.id].form == Timed {
      r2 := r1 + [Cancel(p.id)];
      Extend(r1, Cancel(p.id), h);
    }
    Extend(r2, RunCallback(p.id), h);
    assert r2 + [RunCallback(p.id)] == run + Handling(p, s.calls[p.id].form == Timed);
  }

  /** After any run, a new call with a callback can be started and answered with any result its handler may give. */
  lemma AnswerCanFollow(run: seq<Event>, c: Call, r: string, h: Handlers) returns (longer: seq<Event>)
    requires After(run, h).client.methodId < INT_MAX && c.form != Plain && h(c.name, c.params, r)
    ensures run <= longer && AnsweredIn(longer, h, c, After(run, h).client.methodId + 1)
    ensures After(longer, h).log == After(run, h).log + [Answered(After(run, h).client.methodId + 1, r)]
  {
    hide After;
    RunKeepsInv(run, h);
    Fresh(After(run, h), h);
    var id := After(run, h).client.methodId + 1;
    var r1 := run + [Start(true, c)];
    Extend(run, Start(true, c), h);
    var r2 := r1 + [Send(id, true)];
    Extend(r1, Send(id, true), h);
    var r3 := r2 + [Serve(Packet(id, c.name, c.params), r)];
    Extend(r2, Serve(Packet(id, c.name, c.params), r), h);
    longer := r3 + Handling(Packet(id, c.name, r), c.form == Timed);
    ReplyIsAnswered(r3, Packet(id, c.name, r), h);
    HandlingKeepsCalls(r3, Packet(id, c.name, r), c.form == Timed, h, id);
    assert After(longer, h).log[|After(run, h).log|] == Answered(id, r);
  }

  lemma HandlingKeepsCalls(run: seq<Event>, p: Packet, timed: bool, h: Handlers, id: int)
    requires id in After(run, h).calls
    ensures var s' := After(run + Handling(p, timed), h);
            id in s'.calls && s'.calls[id] == After(run, h).calls[id]
  {
    hide After;
    var r1 := run + [Receive(p)];
    CallStays(run, Receive(p), h, id);
    var r2 := if timed then r1 + [Cancel(p.id)] else r1;
    if timed {
      CallStays(r1, Cancel(p.id), h, id);
    }
    CallStays(r2, RunCallback(p.id), h, id);
    assert r2 + [RunCallback(p.id)] == run + Handling(p, timed);
  }

  ghost predicate AnsweredIn(run: seq<Event>, h: Handlers, c: Call, id: int) {
    var s := After(run, h);
    id in s.calls && s.calls[id] == c && WasAnswered(s, id)
  }

  /** A call can be answered if and only if it has a callback and its handler may answer. */
  lemma CanBeAnsweredIff(c: Call, h: Handlers)
    ensures (exists run: seq<Event>, id: int :: AnsweredIn(run, h, c, id)) <==>
              c.form != Plain && exists r: string :: h(c.name, c.params, r)
  {
    if run: seq<Event>, id: int :| AnsweredIn(run, h, c, id) {
      RunKeepsInv(run, h);
      var s := After(run, h);
      var k: nat :| k < |s.log| && s.log[k].Answered? && s.log[k].id == id;
      assert h(c.name, c.params, s.log[k].result);
    }
    if c.form != Plain && exists r: string :: h(c.name, c.params, r) {
      var r: string :| h(c.name, c.params, r);
      assert After([], h) == Initial();
      var run := AnswerCanFollow([], c, r, h);
      assert AnsweredIn(run, h, c, 1);
    }
  }
}
