/** What a thread achieves that takes all steps from a state of the pool: the cache it gets, the mspace it locks. */
module PoolProgress {
  import opened PoolProtocol

  /** The state after n steps of t alone. */
  ghost function Solo(s: State, t: nat, cmd: Command, choice: bool, n: nat): State {
    if n == 0 then s
    else var x := Solo(s, t, cmd, choice, n - 1); if InBounds(x, t) then Step(x, t, cmd, choice) else x
  }

  /** The state s with t at another place. */
  function At(s: State, t: nat, pc: Pc): State
    requires t in s.procs
  {
    s.(procs := s.procs[t := s.procs[t].(pc := pc)])
  }

  /** The least index from lo on, below hi, of an mspace that t can lock; hi if there is none. */
  function FirstFree(s: State, t: nat, lo: nat, hi: nat): (n: nat)
    requires lo <= hi
    ensures lo <= n <= hi && (n < hi ==> CanLock(s, t, n)) && forall j: nat :: lo <= j < n ==> !CanLock(s, t, j)
    decreases hi - lo
  {
    if lo == hi || CanLock(s, t, lo) then lo else FirstFree(s, t, lo + 1, hi)
  }

  function Locked(s: State, t: nat, n: nat): State
    requires n < |s.m|
  {
    s.(locks := s.locks[s.m[n] := t])
  }

  /** The thread remembers the mspace: in its cache, or as its TLS value if it has none. */
  function Recorded(s: State, t: nat, n: nat): State
    requires t in s.procs
  {
    var tc := s.procs[t].tc;
    if 0 <= tc < |s.caches| && s.caches[tc].Taken? then s.(caches := s.caches[tc := s.caches[tc].(mymspace := n)])
    else s.(tls := s.tls[t := -(n + 1)])
  }

  /** The state in which t has locked mspace n, remembers it, and is about to use it. */
  function Served(s: State, t: nat, n: nat): State
    requires t in s.procs && n < |s.m|
  {
    At(Recorded(Locked(s, t, n), t, n), t, Using(n))
  }

  /** The pool with a new mspace at index n. */
  function Enlarged(s: State, n: nat): State
    requires n < |s.m|
  {
    s.(m := s.m[n := s.spare], locks := s.locks[s.spare := 0], spare := s.spare + 1)
  }

  /** What the search relies on: t is in GetMSpace, with or without a cache of its own. */
  ghost predicate Searches(s: State, count: nat, t: nat) {
    && t in s.procs && t in s.tls && t != 0 && Prefix(s, count) && s.spare > 0
    && (s.procs[t].tc < 0 || (s.procs[t].tc < |s.caches| && s.caches[s.procs[t].tc].Taken?))
  }

  // ----- single steps -----

  lemma AtTwice(s: State, t: nat, pc: Pc, pc': Pc)
    requires t in s.procs
    ensures At(At(s, t, pc), t, pc') == At(s, t, pc')
  {
  }

  /** The effect fits the state. */
  predicate Fits(s: State, e: Effect) {
    && (e.SetSlot? ==> e.slot < |s.caches|)
    && (e.LockSpace? || e.UnlockSpace? ==> e.i < |s.m|)
    && (e.Publish? ==> e.end < |s.m|)
  }

  lemma PerformAt(x: State, t: nat, e: Effect, pc: Pc)
    requires t in x.procs && Fits(x, e)
    ensures Perform(x, t, e).procs == x.procs && Perform(At(x, t, pc), t, e) == At(Perform(x, t, e), t, pc)
  {
  }

  /** One step of t from place pc to place pc'. */
  lemma Acts(s: State, t: nat, cmd: Command, choice: bool, k: nat, x: State, pc: Pc, e: Effect, pc': Pc)
    requires t in s.procs && t in x.procs && Solo(s, t, cmd, choice, k) == At(x, t, pc) && InBounds(At(x, t, pc), t)
    requires Plan(At(x, t, pc), t, cmd, choice) == (e, Proc(pc', x.procs[t].tc)) && Fits(x, e)
    ensures Perform(x, t, e).procs == x.procs && Solo(s, t, cmd, choice, k + 1) == At(Perform(x, t, e), t, pc')
  {
    hide Plan, InBounds, Perform;
    PerformAt(x, t, e, pc);
    AtTwice(Perform(x, t, e), t, pc, pc');
  }

  /** The same for a step that also sets the cache of the thread. */
  lemma Leaves(s: State, t: nat, cmd: Command, choice: bool, k: nat, x: State, pc: Pc, e: Effect, p: Proc)
    requires t in s.procs && t in x.procs && Solo(s, t, cmd, choice, k) == At(x, t, pc) && InBounds(At(x, t, pc), t)
    requires Plan(At(x, t, pc), t, cmd, choice) == (e, p) && Fits(x, e)
    ensures Solo(s, t, cmd, choice, k + 1) == Perform(x, t, e).(procs := x.procs[t := p])
  {
    hide Plan, InBounds, Perform;
    PerformAt(x, t, e, pc);
    assert x.procs[t := x.procs[t].(pc := pc)][t := p] == x.procs[t := p];
  }

  /** A step that touches nothing shared. */
  lemma Moves(s: State, t: nat, cmd: Command, choice: bool, k: nat, x: State, pc: Pc, pc': Pc)
    requires t in s.procs && t in x.procs && Solo(s, t, cmd, choice, k) == At(x, t, pc) && InBounds(At(x, t, pc), t)
    requires Plan(At(x, t, pc), t, cmd, choice) == (Nothing, Proc(pc', x.procs[t].tc))
    ensures Solo(s, t, cmd, choice, k + 1) == At(x, t, pc')
  {
    hide Plan, InBounds;
    Acts(s, t, cmd, choice, k, x, pc, Nothing, pc');
  }

  lemma LockStep(s: State, count: nat, t: nat, cmd: Command, choice: bool, k: nat, n: nat, pc: Pc)
    requires Searches(s, count, t) && n < count && CanLock(s, t, n) && Solo(s, t, cmd, choice, k) == At(s, t, pc)
    requires pc == TryFirst(n) || (pc.TryUp? && pc.n == n) || (pc.TryDown? && pc.n == n)
    ensures Solo(s, t, cmd, choice, k + 1) == At(Locked(s, t, n), t, if pc.TryFirst? then Using(n) else Record(n))
  {
    hide Solo, Spaces;
    Acts(s, t, cmd, choice, k, s, pc, LockSpace(n), if pc.TryFirst? then Using(n) else Record(n));
  }

  lemma RecordStep(s: State, x: State, t: nat, cmd: Command, choice: bool, k: nat, n: nat)
    requires t in s.procs && t in x.procs && t in x.tls && Solo(s, t, cmd, choice, k) == At(x, t, Record(n))
    requires x.procs[t].tc < 0 || (x.procs[t].tc < |x.caches| && x.caches[x.procs[t].tc].Taken?)
    ensures Solo(s, t, cmd, choice, k + 1) == At(Recorded(x, t, n), t, Using(n))
  {
    hide Solo;
    var tc := x.procs[t].tc;
    Acts(s, t, cmd, choice, k, x, Record(n),
         if tc >= 0 then SetSlot(tc, x.caches[tc].(mymspace := n)) else SetTls(-(n + 1)), Using(n));
  }

  // ----- the two scans -----

  /** Upwards from n: the first mspace that can be locked is, or the scan ends at the end of the list. */
  lemma {:induction false} ScansUp(s: State, count: nat, t: nat, cmd: Command, choice: bool, k: nat, last: nat, n: nat)
    returns (k': nat)
    requires Searches(s, count, t) && last < n <= count && Solo(s, t, cmd, choice, k) == At(s, t, ScanUp(last, n))
    ensures var up := FirstFree(s, t, n, count);
            Solo(s, t, cmd, choice, k') == if up < count then Served(s, t, up) else At(s, t, ScanDown(last, 0, count))
    decreases count - n
  {
    hide Solo, Spaces;
    if n == count {
      Moves(s, t, cmd, choice, k, s, ScanUp(last, n), ScanDown(last, 0, n));
      k' := k + 1;
    } else {
      Moves(s, t, cmd, choice, k, s, ScanUp(last, n), TryUp(last, n));
      if CanLock(s, t, n) {
        LockStep(s, count, t, cmd, choice, k + 1, n, TryUp(last, n));
        RecordStep(s, Locked(s, t, n), t, cmd, choice, k + 2, n);
        k' := k + 3;
      } else {
        Moves(s, t, cmd, choice, k + 1, s, TryUp(last, n), ScanUp(last, n + 1));
        k' := ScansUp(s, count, t, cmd, choice, k + 2, last, n + 1);
      }
    }
  }

  /** Downwards, that is below the last mspace of the thread, in the same way. */
  lemma {:induction false} ScansDown(s: State, count: nat, t: nat, cmd: Command, choice: bool, k: nat, last: nat,
                                     n: nat)
    returns (k': nat)
    requires Searches(s, count, t) && n <= last < count
    requires Solo(s, t, cmd, choice, k) == At(s, t, ScanDown(last, n, count))
    ensures var down := FirstFree(s, t, n, last);
            Solo(s, t, cmd, choice, k') == if down < last then Served(s, t, down) else At(s, t, Decide(last, count))
    decreases last - n
  {
    hide Solo, Spaces;
    if n == last {
      Moves(s, t, cmd, choice, k, s, ScanDown(last, n, count), Decide(last, count));
      k' := k + 1;
    } else {
      Moves(s, t, cmd, choice, k, s, ScanDown(last, n, count), TryDown(last, n, count));
      if CanLock(s, t, n) {
        LockStep(s, count, t, cmd, choice, k + 1, n, TryDown(last, n, count));
        RecordStep(s, Locked(s, t, n), t, cmd, choice, k + 2, n);
        k' := k + 3;
      } else {
        Moves(s, t, cmd, choice, k + 1, s, TryDown(last, n, count), ScanDown(last, n + 1, count));
        k' := ScansDown(s, count, t, cmd, choice, k + 2, last, n + 1);
      }
    }
  }

  // ----- a new mspace -----

  /** The pool with an mspace made and not published yet. */
  function Prepared(s: State): State {
    s.(locks := s.locks[s.spare := 0], spare := s.spare + 1)
  }

  lemma Prepares(s: State, count: nat, t: nat, cmd: Command, k: nat, last: nat)
    requires Searches(s, count, t) && count < s.threads && Solo(s, t, cmd, true, k) == At(s, t, Decide(last, count))
    ensures Solo(s, t, cmd, true, k + 2) == At(Prepared(s), t, LockForStore(last, count, s.spare))
  {
    hide Solo, Spaces;
    Moves(s, t, cmd, true, k, s, Decide(last, count), Create(last, count));
    Acts(s, t, cmd, true, k + 1, s, Create(last, count), NewSpace, LockForStore(last, count, s.spare));
  }

  lemma Publishes(s: State, x: State, count: nat, t: nat, cmd: Command, k: nat, last: nat, temp: nat)
    requires t in s.procs && t in x.procs && t in x.tls && count < |x.m| && x.m[count] == 0 && x.mutex == 0
             && count < x.threads
    requires Solo(s, t, cmd, true, k) == At(x, t, LockForStore(last, count, temp))
    ensures Solo(s, t, cmd, true, k + 3) == At(x.(mutex := t, m := x.m[count := temp]), t, LockNew(count))
  {
    hide Solo;
    Acts(s, t, cmd, true, k, x, LockForStore(last, count, temp), TakeMutex, FindEnd(last, count, temp));
    var y := x.(mutex := t);
    Moves(s, t, cmd, true, k + 1, y, FindEnd(last, count, temp), Store(count, temp));
    Acts(s, t, cmd, true, k + 2, y, Store(count, temp), Publish(count, temp), LockNew(count));
  }

  lemma LocksNew(s: State, x: State, count: nat, t: nat, cmd: Command, k: nat)
    requires t in s.procs && t in x.procs && t in x.tls && count < |x.m| && CanLock(x, t, count)
    requires x.procs[t].tc < 0 || (x.procs[t].tc < |x.caches| && x.caches[x.procs[t].tc].Taken?)
    requires Solo(s, t, cmd, true, k) == At(x, t, LockNew(count))
    ensures Solo(s, t, cmd, true, k + 3) == Served(x.(mutex := 0), t, count)
  {
    hide Solo;
    Acts(s, t, cmd, true, k, x, LockNew(count), LockSpace(count), UnlockStore(count));
    var y := Locked(x, t, count);
    Acts(s, t, cmd, true, k + 1, y, UnlockStore(count), DropMutex, Record(count));
    RecordStep(s, y.(mutex := 0), t, cmd, true, k + 2, count);
  }

  /** With room in the list and nobody at the pool lock, the thread gets an mspace of its own. */
  lemma Creates(s: State, count: nat, t: nat, cmd: Command, k: nat, last: nat)
    requires Searches(s, count, t) && count < s.threads && s.mutex == 0
    requires Solo(s, t, cmd, true, k) == At(s, t, Decide(last, count))
    ensures Solo(s, t, cmd, true, k + 8) == Served(Enlarged(s, count), t, count)
  {
    hide Solo, Spaces;
    Prepares(s, count, t, cmd, k, last);
    var x := Prepared(s);
    Publishes(s, x, count, t, cmd, k + 2, last, s.spare);
    var y := x.(mutex := t, m := x.m[count := s.spare]);
    LocksNew(s, y, count, t, cmd, k + 5);
    assert y.(mutex := 0) == Enlarged(s, count);
  }

  // ----- GetMSpace -----

  /** What GetMSpace does for a thread whose last mspace is i: it locks that one; or the first free one above it, else
      the first free one below it, and remembers it; or, if all are busy, a new one. It waits only if all are busy and
      no new one can be made, or another thread has the pool lock. */
  ghost predicate Finds(s: State, x: State, t: nat, count: nat, i: nat, choice: bool)
    requires t in s.procs && i < count < |s.m|
  {
    var up, down := FirstFree(s, t, i + 1, count), FirstFree(s, t, 0, i);
    if CanLock(s, t, i) then x == At(Locked(s, t, i), t, Using(i))
    else if up < count then x == Served(s, t, up)
    else if down < i then x == Served(s, t, down)
    else if count == s.threads || !choice then x == At(s, t, Fallback(i))
    else if s.mutex == 0 then x == Served(Enlarged(s, count), t, count)
    else x == At(Prepared(s), t, LockForStore(i, count, s.spare))
  }

  lemma InvSearches(s: State, count: nat, t: nat, i: nat)
    requires Inv(s, count) && t in s.procs && s.procs[t].pc == TryFirst(i)
    ensures Searches(s, count, t) && i < count < |s.m| && At(s, t, TryFirst(i)) == s
  {
    assert ProcOk(s, count, t);
    assert s.procs[t := s.procs[t]] == s.procs;
  }

  lemma Decides(s: State, count: nat, t: nat, cmd: Command, choice: bool, k: nat, i: nat) returns (k': nat)
    requires Searches(s, count, t) && i < count < |s.m| && !CanLock(s, t, i)
    requires FirstFree(s, t, i + 1, count) == count && FirstFree(s, t, 0, i) == i
    requires Solo(s, t, cmd, choice, k) == At(s, t, Decide(i, count))
    ensures Finds(s, Solo(s, t, cmd, choice, k'), t, count, i, choice)
  {
    hide Solo, Spaces;
    if count == s.threads {
      Moves(s, t, cmd, choice, k, s, Decide(i, count), Fallback(i));
      k' := k + 1;
    } else if !choice {
      Moves(s, t, cmd, choice, k, s, Decide(i, count), Create(i, count));
      Moves(s, t, cmd, choice, k + 1, s, Create(i, count), Fallback(i));
      k' := k + 2;
    } else if s.mutex == 0 {
      Creates(s, count, t, cmd, k, i);
      k' := k + 8;
    } else {
      Prepares(s, count, t, cmd, k, i);
      k' := k + 2;
    }
  }

  /** In every state of a run, a thread in GetMSpace that takes all steps gets the mspace that is due, or waits. */
  lemma GetMSpaceFinds(s: State, count: nat, t: nat, cmd: Command, choice: bool, i: nat)
    requires Inv(s, count) && t in s.procs && s.procs[t].pc == TryFirst(i)
    ensures i < count < |s.m| && exists k: nat :: Finds(s, Solo(s, t, cmd, choice, k), t, count, i, choice)
  {
    hide Inv, Spaces;
    InvSearches(s, count, t, i);
    var k := 0;
    assert Solo(s, t, cmd, choice, 0) == At(s, t, TryFirst(i));
    if CanLock(s, t, i) {
      LockStep(s, count, t, cmd, choice, 0, i, TryFirst(i));
      k := 1;
    } else {
      hide Solo;
      Moves(s, t, cmd, choice, 0, s, TryFirst(i), ScanUp(i, i + 1));
      k := ScansUp(s, count, t, cmd, choice, 1, i, i + 1);
      if FirstFree(s, t, i + 1, count) == count {
        k := ScansDown(s, count, t, cmd, choice, k, i, 0);
        if FirstFree(s, t, 0, i) == i {
          k := Decides(s, count, t, cmd, choice, k, i);
        }
      }
    }
    assert Finds(s, Solo(s, t, cmd, choice, k), t, count, i, choice);
  }

  /** A thread that fell back on its last mspace gets it as soon as it can be locked, and until then changes nothing. */
  lemma {:induction false} FallbackWaits(s: State, count: nat, t: nat, cmd: Command, choice: bool, i: nat, n: nat)
    requires Inv(s, count) && t in s.procs && s.procs[t].pc == Fallback(i)
    ensures i < |s.m|
    ensures if CanLock(s, t, i) then Solo(s, t, cmd, choice, 1) == At(Locked(s, t, i), t, Using(i))
            else Solo(s, t, cmd, choice, n) == s
  {
    hide Inv;
    FallbackFacts(s, count, t, i);
    assert Solo(s, t, cmd, choice, 0) == At(s, t, Fallback(i));
    if CanLock(s, t, i) {
      hide Solo;
      Acts(s, t, cmd, choice, 0, s, Fallback(i), LockSpace(i), Using(i));
    } else if n > 0 {
      FallbackWaits(s, count, t, cmd, choice, i, n - 1);
      hide Solo;
      Moves(s, t, cmd, choice, n - 1, s, Fallback(i), Fallback(i));
    }
  }

  lemma FallbackFacts(s: State, count: nat, t: nat, i: nat)
    requires Inv(s, count) && t in s.procs && s.procs[t].pc == Fallback(i)
    ensures i < |s.m| && t in s.tls && At(s, t, Fallback(i)) == s
  {
    assert ProcOk(s, count, t);
    assert s.procs[t := s.procs[t]] == s.procs;
  }

  /** The mspace is free again when the thread that used it has left. */
  lemma UseEnds(s: State, count: nat, t: nat, cmd: Command, choice: bool, i: nat)
    requires Inv(s, count) && t in s.procs && s.procs[t].pc == Using(i)
    ensures i < |s.m| && s.m[i] in s.locks && s.locks[s.m[i]] == t
    ensures Solo(s, t, cmd, choice, 1) == s.(locks := s.locks[s.m[i] := 0], procs := s.procs[t := Proc(Outside, -1)])
  {
    hide Spaces;
    assert ProcOk(s, count, t);
    StepInBounds(s, count, t);
    assert Solo(s, t, cmd, choice, 0) == s;
  }

  // ----- GetThreadCache -----

  /** The first empty slot from n on; the number of slots if there is none. */
  function FirstEmpty(caches: seq<Slot>, n: nat): (r: nat)
    requires n <= |caches|
    ensures n <= r <= |caches| && (r < |caches| ==> caches[r] == Empty)
    ensures forall j: nat :: n <= j < r ==> caches[j] != Empty
    decreases |caches| - n
  {
    if n == |caches| || caches[n] == Empty then n else FirstEmpty(caches, n + 1)
  }

  lemma {:induction false} ScansCaches(s: State, x: State, t: nat, cmd: Command, choice: bool, k: nat, n: nat)
    returns (k': nat)
    requires t in s.procs && t in x.procs && t in x.tls && n <= |x.caches|
    requires Solo(s, t, cmd, choice, k) == At(x, t, ScanCaches(n))
    ensures var r := FirstEmpty(x.caches, n);
            Solo(s, t, cmd, choice, k') == At(x, t, if r < |x.caches| then AllocateCache(r) else UnlockFull)
    decreases |x.caches| - n
  {
    hide Solo;
    if n == |x.caches| {
      Moves(s, t, cmd, choice, k, x, ScanCaches(n), UnlockFull);
      k' := k + 1;
    } else if x.caches[n] == Empty {
      Moves(s, t, cmd, choice, k, x, ScanCaches(n), AllocateCache(n));
      k' := k + 1;
    } else {
      Moves(s, t, cmd, choice, k, x, ScanCaches(n), ScanCaches(n + 1));
      k' := ScansCaches(s, x, t, cmd, choice, k + 1, n + 1);
    }
  }

  /** The thread counts the mspaces and takes the one its id selects. */
  lemma {:induction false} CountsSpaces(s: State, x: State, count: nat, t: nat, cmd: Command, choice: bool, k: nat,
                                        n: nat, end: nat)
    returns (k': nat)
    requires t in s.procs && t in x.procs && t in x.tls && n < |x.caches| && end <= count && Filled(x, count)
    requires Solo(s, t, cmd, choice, k) == At(x, t, CountSpaces(n, end))
    ensures Solo(s, t, cmd, choice, k') == At(x.(caches := x.caches[n := Taken(t, t % count)]), t, UnlockCache(n))
    decreases count - end
  {
    hide Solo;
    if end == count {
      Acts(s, t, cmd, choice, k, x, CountSpaces(n, end), SetSlot(n, Taken(t, t % count)), UnlockCache(n));
      k' := k + 1;
    } else {
      Moves(s, t, cmd, choice, k, x, CountSpaces(n, end), CountSpaces(n, end + 1));
      k' := CountsSpaces(s, x, count, t, cmd, choice, k + 1, n, end + 1);
    }
  }

  lemma SetsTls(s: State, x: State, t: nat, cmd: Command, choice: bool, k: nat, n: nat)
    requires t in s.procs && t in x.procs && t in x.tls && n < |x.caches| && x.caches[n].Taken? && x.procs[t].tc == -1
    requires Solo(s, t, cmd, choice, k) == At(x, t, UnlockCache(n))
    ensures Solo(s, t, cmd, choice, k + 2) ==
            x.(mutex := 0, tls := x.tls[t := n + 1],
               procs := x.procs[t := if cmd == FreeBlock then Proc(Outside, -1)
                                     else Proc(TryFirst(x.caches[n].mymspace), n)])
  {
    hide Solo;
    Acts(s, t, cmd, choice, k, x, UnlockCache(n), DropMutex, SetTlsCache(n));
    Leaves(s, t, cmd, choice, k + 1, x.(mutex := 0), SetTlsCache(n), SetTls(n + 1),
           if cmd == FreeBlock then Proc(Outside, -1) else Proc(TryFirst(x.caches[n].mymspace), n));
  }

  lemma SetsTlsNone(s: State, x: State, t: nat, cmd: Command, choice: bool, k: nat)
    requires t in s.procs && t in x.procs && t in x.tls && x.procs[t].tc == -1
    requires Solo(s, t, cmd, choice, k) == At(x, t, UnlockFull)
    ensures Solo(s, t, cmd, choice, k + 2) ==
            x.(mutex := 0, tls := x.tls[t := -1],
               procs := x.procs[t := if cmd == FreeBlock then Proc(Outside, -1) else Proc(TryFirst(0), -1)])
  {
    hide Solo;
    Acts(s, t, cmd, choice, k, x, UnlockFull, DropMutex, SetTlsNone);
    Leaves(s, t, cmd, choice, k + 1, x.(mutex := 0), SetTlsNone, SetTls(-1),
           if cmd == FreeBlock then Proc(Outside, -1) else Proc(TryFirst(0), -1));
  }

  /** What GetThreadCache does for a thread that has neither cache nor TLS value: the first empty slot becomes its
      cache, with the mspace that its id selects; with all slots taken or no memory it does without, on mspace 0. */
  ghost predicate Assigned(s: State, x: State, t: nat, count: nat, cmd: Command, choice: bool)
    requires t in s.procs && count > 0
  {
    var n := FirstEmpty(s.caches, 0);
    if n < |s.caches| && choice then
      x == s.(caches := s.caches[n := Taken(t, t % count)], tls := s.tls[t := n + 1],
              procs := s.procs[t := if cmd == FreeBlock then Proc(Outside, -1) else Proc(TryFirst(t % count), n)])
    else
      x == s.(tls := s.tls[t := -1],
              procs := s.procs[t := if cmd == FreeBlock then Proc(Outside, -1) else Proc(TryFirst(0), -1)])
  }

  lemma CacheFacts(s: State, count: nat, t: nat)
    requires Inv(s, count) && t in s.procs && s.procs[t].pc == LockForCache
    ensures count > 0 && t in s.tls && s.procs[t].tc == -1 && Filled(s, count) && At(s, t, LockForCache) == s
  {
    assert ProcOk(s, count, t);
    assert s.procs[t := s.procs[t]] == s.procs;
  }

  lemma StartsScan(s: State, count: nat, t: nat, cmd: Command, choice: bool)
    requires Inv(s, count) && t in s.procs && s.procs[t].pc == LockForCache && s.mutex == 0
    ensures Solo(s, t, cmd, choice, 1) == At(s.(mutex := t), t, ScanCaches(0))
  {
    hide Inv;
    CacheFacts(s, count, t);
    assert Solo(s, t, cmd, choice, 0) == At(s, t, LockForCache);
    hide Solo;
    Acts(s, t, cmd, choice, 0, s, LockForCache, TakeMutex, ScanCaches(0));
  }

  lemma Allocates(s: State, x: State, t: nat, cmd: Command, choice: bool, k: nat, n: nat)
    requires t in s.procs && t in x.procs && t in x.tls && n < |x.caches|
    requires Solo(s, t, cmd, choice, k) == At(x, t, AllocateCache(n))
    ensures Solo(s, t, cmd, choice, k + 1) == At(x, t, if choice then CountSpaces(n, 0) else UnlockFull)
  {
    hide Solo;
    Moves(s, t, cmd, choice, k, x, AllocateCache(n), if choice then CountSpaces(n, 0) else UnlockFull);
  }

  lemma FilledAnyway(s: State, x: State, count: nat)
    requires Filled(s, count) && x.m == s.m && x.caches == s.caches && x.threads == s.threads
    ensures Filled(x, count)
  {
  }

  /** In every state of a run in which nobody has the pool lock, such a thread that takes all steps gets its cache. */
  lemma CacheAssigned(s: State, count: nat, t: nat, cmd: Command, choice: bool)
    requires Inv(s, count) && t in s.procs && s.procs[t].pc == LockForCache && s.mutex == 0
    ensures count > 0 && exists k: nat :: Assigned(s, Solo(s, t, cmd, choice, k), t, count, cmd, choice)
  {
    hide Inv, FirstEmpty, Solo, Plan, InBounds, Step, Filled;
    CacheFacts(s, count, t);
    StartsScan(s, count, t, cmd, choice);
    var x := s.(mutex := t);
    var k := ScansCaches(s, x, t, cmd, choice, 1, 0);
    var n := FirstEmpty(s.caches, 0);
    if n < |s.caches| {
      Allocates(s, x, t, cmd, choice, k, n);
      k := k + 1;
    }
    if n < |s.caches| && choice {
      FilledAnyway(s, x, count);
      k := CountsSpaces(s, x, count, t, cmd, choice, k, n, 0);
      SetsTls(s, x.(caches := x.caches[n := Taken(t, t % count)]), t, cmd, choice, k, n);
    } else {
      SetsTlsNone(s, x, t, cmd, choice, k);
    }
    assert Assigned(s, Solo(s, t, cmd, choice, k + 2), t, count, cmd, choice);
  }
}
