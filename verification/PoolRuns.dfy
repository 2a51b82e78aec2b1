/** Runs of the pool in which a thread disables its cache. */
module PoolRuns {
  import opened PoolProtocol

  /** s is the last state of a run of two threads, with room for two mspaces. */
  ghost predicate Reachable(s: State) {
    exists states: seq<State>, events: seq<Event> :: Ends(states, events, s)
  }

  ghost predicate Ends(states: seq<State>, events: seq<Event>, s: State) {
    IsRun(states, events) && states[0] == Initial(2, {1, 2}) && states[|events|] == s
  }

  lemma Start() returns (s: State)
    ensures Reachable(s) && s == Initial(2, {1, 2})
  {
    s := Initial(2, {1, 2});
    assert Ends([s], [], s);
  }

  lemma RunExtends(states: seq<State>, events: seq<Event>, t: nat, cmd: Command, choice: bool)
    requires IsRun(states, events) && t in states[|events|].procs && InBounds(states[|events|], t)
    ensures IsRun(states + [Step(states[|events|], t, cmd, choice)], events + [Event(t, cmd, choice)])
  {
    var s' := Step(states[|events|], t, cmd, choice);
    var states', events' := states + [s'], events + [Event(t, cmd, choice)];
    forall k: nat | k < |events'|
      ensures StepsTo(states'[k], events'[k], states'[k + 1])
    {
      if k < |events| {
        assert StepsTo(states[k], events[k], states[k + 1]);
      }
    }
  }

  /** One more step of a thread. */
  lemma Go(s: State, t: nat, cmd: Command, choice: bool) returns (s': State)
    requires Reachable(s) && t in s.procs
    ensures InBounds(s, t) && s' == Step(s, t, cmd, choice) && Reachable(s')
  {
    hide Inv, Step, InBounds, Grown;
    var states: seq<State>, events: seq<Event> :| Ends(states, events, s);
    InitialInv(2, {1, 2});
    var count := RunFromStart(states, events, |events|);
    StepKeepsInv(s, count, t, cmd, choice);
    s' := Step(s, t, cmd, choice);
    RunExtends(states, events, t, cmd, choice);
    assert Ends(states + [s'], events + [Event(t, cmd, choice)], s');
  }

  /** A thread without TLS value, and a pool with one mspace and an empty first slot. */
  ghost predicate Ready(s: State, t: nat) {
    && t in s.procs && t in s.tls && s.procs[t] == Proc(Outside, -1) && s.tls[t] == 0 && s.mutex == 0
    && |s.caches| == THREADCACHEMAXCACHES && s.caches[0] == Empty && |s.m| == MAXTHREADSINPOOL + 1 && s.m[0] != 0
       && s.m[1] == 0
  }

  lemma FindSlot(s: State, t: nat) returns (s': State)
    requires Reachable(s) && Ready(s, t)
    ensures Reachable(s') && s' == s.(mutex := t, procs := s.procs[t := Proc(AllocateCache(0), -1)])
  {
    hide Reachable, InBounds;
    s' := Go(s, t, UsePool, true);
    s' := Go(s', t, UsePool, true);
    s' := Go(s', t, UsePool, true);
    s' := Go(s', t, UsePool, true);
  }

  /** The thread gets the first slot. */
  lemma GetCache(s: State, t: nat) returns (s': State)
    requires Reachable(s) && Ready(s, t)
    ensures Reachable(s') && s' == s.(caches := s.caches[0 := Taken(t, 0)],
            procs := s.procs[t := Proc(SetTlsCache(0), -1)])
  {
    hide Reachable, InBounds;
    s' := FindSlot(s, t);
    s' := Go(s', t, UsePool, true);
    s' := Go(s', t, UsePool, true);
    s' := Go(s', t, UsePool, true);
    s' := Go(s', t, UsePool, true);
  }

  /** The thread gets no slot, goes on without a cache, and holds the first mspace. */
  lemma HoldFirst(s: State, t: nat) returns (s': State)
    requires Reachable(s) && Ready(s, t) && CanLock(s, t, 0)
    ensures Reachable(s') && s' == s.(tls := s.tls[t := -1], locks := s.locks[s.m[0] := t],
            procs := s.procs[t := Proc(Using(0), -1)])
  {
    hide Reachable, InBounds;
    s' := FindSlot(s, t);
    s' := Go(s', t, UsePool, false);
    s' := Go(s', t, UsePool, false);
    s' := Go(s', t, UsePool, false);
    s' := Go(s', t, UsePool, false);
  }

  /** The thread is about to use the first slot, and the first mspace, the only one, is locked by another thread. */
  ghost predicate Blocked(s: State, t: nat) {
    && t in s.procs && t in s.tls && t != 0 && s.mutex == 0 && s.threads == 2 && !CanLock(s, t, 0)
    && |s.caches| == THREADCACHEMAXCACHES && s.caches[0] == Taken(t, 0) && |s.m| == MAXTHREADSINPOOL + 1 && s.m[0] != 0
       && s.m[1] == 0
  }

  function At(s: State, t: nat, pc: Pc): State {
    s.(procs := s.procs[t := Proc(pc, 0)])
  }

  /** How the search goes on: the mspace is locked, there is no second one, and room for it. */
  function Search(pc: Pc): Pc {
    match pc
    case TryFirst(_) => ScanUp(0, 1)
    case ScanUp(_, _) => ScanDown(0, 0, 1)
    case ScanDown(_, _, _) => Decide(0, 1)
    case _ => Create(0, 1)
  }

  predicate InSearch(pc: Pc) {
    pc == TryFirst(0) || pc == ScanUp(0, 1) || pc == ScanDown(0, 0, 1) || pc == Decide(0, 1)
  }

  lemma SearchOn(s: State, t: nat, pc: Pc) returns (s': State)
    requires Blocked(s, t) && InSearch(pc) && Reachable(At(s, t, pc))
    ensures Reachable(s') && s' == At(s, t, Search(pc))
  {
    hide Reachable, InBounds;
    s' := Go(At(s, t, pc), t, UsePool, true);
    assert s'.procs == s.procs[t := Proc(Search(pc), 0)];
  }

  /** Then it searches in vain and makes a second mspace. */
  lemma MakeSecond(s: State, t: nat) returns (s': State)
    requires Reachable(s) && Blocked(s, t) && s.procs[t] == Proc(SetTlsCache(0), -1)
    ensures Reachable(s')
    ensures s' == s.(tls := s.tls[t := 1], locks := s.locks[s.spare := 0], spare := s.spare + 1,
                     procs := s.procs[t := Proc(LockForStore(0, 1, s.spare), 0)])
  {
    hide Reachable, InBounds;
    s' := Go(s, t, UsePool, true);
    var s1 := s.(tls := s.tls[t := 1]);
    assert s' == At(s1, t, TryFirst(0));
    s' := SearchOn(s1, t, TryFirst(0));
    s' := SearchOn(s1, t, ScanUp(0, 1));
    s' := SearchOn(s1, t, ScanDown(0, 0, 1));
    s' := SearchOn(s1, t, Decide(0, 1));
    s' := Go(s', t, UsePool, true);
  }

  lemma Publish(s: State, t: nat, temp: nat) returns (s': State)
    requires Reachable(s) && Blocked(s, t) && s.procs[t] == Proc(LockForStore(0, 1, temp), 0)
    ensures Reachable(s') && s' == At(s.(mutex := t, m := s.m[1 := temp]), t, LockNew(1))
  {
    hide Reachable, InBounds;
    var s1 := s.(mutex := t);
    s' := Go(s, t, UsePool, true);
    assert s' == At(s1, t, FindEnd(0, 1, temp));
    s' := Go(s', t, UsePool, true);
    assert s' == At(s1, t, Store(1, temp));
    s' := Go(s', t, UsePool, true);
  }

  /** It locks the new mspace and notes it in its cache. */
  lemma LockSecond(s: State, t: nat) returns (s': State)
    requires Reachable(s) && t in s.procs && s.procs[t] == Proc(LockNew(1), 0) && CanLock(s, t, 1) && t != 0
    requires |s.caches| > 0 && s.caches[0] == Taken(t, 0)
    ensures Reachable(s') && s' == At(s.(mutex := 0, locks := s.locks[s.m[1] := t],
            caches := s.caches[0 := Taken(t, 1)]), t, Using(1))
  {
    hide Reachable, InBounds;
    var s1 := s.(locks := s.locks[s.m[1] := t]);
    s' := Go(s, t, UsePool, true);
    assert s' == At(s1, t, UnlockStore(1));
    s' := Note(s1, t);
  }

  lemma Note(s: State, t: nat) returns (s': State)
    requires Reachable(At(s, t, UnlockStore(1))) && |s.caches| > 0 && s.caches[0].Taken?
    ensures Reachable(s') && s' == At(s.(mutex := 0, caches := s.caches[0 := s.caches[0].(mymspace := 1)]), t, Using(1))
  {
    hide Reachable, InBounds;
    s' := Go(At(s, t, UnlockStore(1)), t, UsePool, true);
    assert s' == At(s.(mutex := 0), t, Record(1));
    s' := Go(s', t, UsePool, true);
  }

  lemma Leave(s: State, t: nat) returns (s': State)
    requires Reachable(s) && t in s.procs && s.procs[t] == Proc(Using(1), 0)
    ensures Reachable(s') && t in s'.procs && s'.procs[t] == Proc(Outside, -1) && s'.tls == s.tls
            && s'.caches == s.caches
  {
    hide Reachable, InBounds;
    s' := Go(s, t, UsePool, true);
  }

  lemma AboutToDisable(s: State, t: nat) returns (s': State)
    requires Reachable(s) && t in s.procs && t in s.tls && s.procs[t] == Proc(Outside, -1) && s.tls[t] == 1
    ensures Reachable(s') && s' == s.(procs := s.procs[t := Proc(TrimSet(0), -1)])
  {
    hide Reachable, InBounds;
    s' := Go(s, t, DisableCache, true);
    s' := Go(s', t, DisableCache, true);
  }

  /** A thread that has only ever used the first mspace disables its cache: it is left without a TLS value. */
  lemma DisabledAfterFirst() returns (s: State)
    ensures Reachable(s) && 1 in s.procs && s.procs[1].pc == TrimSet(0) && |s.caches| > 0 && s.caches[0].Taken?
            && s.caches[0].mymspace == 0
  {
    hide Reachable, InBounds;
    s := Start();
    s := GetCache(s, 1);
    s := Go(s, 1, FreeBlock, true);
    s := AboutToDisable(s, 1);
  }

  /** A thread that has last used the second mspace disables its cache: its TLS value will stand for the first one. */
  lemma DisabledAfterSecond() returns (s: State)
    ensures Reachable(s) && 2 in s.procs && s.procs[2].pc == TrimSet(0) && |s.caches| > 0 && s.caches[0].Taken?
            && s.caches[0].mymspace == 1
  {
    hide Reachable, InBounds;
    s := Start();
    s := HoldFirst(s, 1);
    s := GetCache(s, 2);
    s := MakeSecond(s, 2);
    s := Publish(s, 2, s.spare - 1);
    s := LockSecond(s, 2);
    s := Leave(s, 2);
    s := AboutToDisable(s, 2);
  }
}
