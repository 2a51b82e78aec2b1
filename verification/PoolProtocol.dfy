/** How threads of nedmalloc share the mspaces of a pool, one shared access per step, in any interleaving.

    The spin locks are taken as atomic here; SpinLocks shows that they exclude each other. */
module PoolProtocol {

  const MAXTHREADSINPOOL: nat := 16
  const THREADCACHEMAXCACHES: nat := 256

  /** A slot of p->caches: the thread and the mspace it last used. */
  datatype Slot = Empty | Taken(thread: nat, mymspace: nat)

  /** Where a thread is; the names follow GetThreadCache, AllocCache, GetMSpace, FindMSpace and nedtrimthreadcache. */
  datatype Pc =
    | Outside
    | ReadTls
    | LockForCache
    | ScanCaches(n: nat)
    | AllocateCache(n: nat)
    | CountSpaces(n: nat, end: nat)
    | UnlockCache(n: nat)
    | UnlockFull
    | SetTlsCache(n: nat)
    | SetTlsNone
    | TryFirst(i: nat)
    | ScanUp(last: nat, n: nat)
    | TryUp(last: nat, n: nat)
    | ScanDown(last: nat, n: nat, end: nat)
    | TryDown(last: nat, n: nat, end: nat)
    | Decide(last: nat, end: nat)
    | Create(last: nat, end: nat)
    | LockForStore(last: nat, end: nat, temp: nat)
    | FindEnd(last: nat, end: nat, temp: nat)
    | Store(end: nat, temp: nat)
    | LockNew(end: nat)
    | UnlockStore(end: nat)
    | UnlockLost(last: nat)
    | Fallback(last: nat)
    | Record(i: nat)
    | Using(i: nat)
    | TrimRead
    | TrimSet(n: nat)
    | TrimClear(n: nat)

  /** A thread, with the slot of its cache or -1. */
  datatype Proc = Proc(pc: Pc, tc: int)

  /** nedpmalloc, nedpfree and nedtrimthreadcache; nedpfree looks for its cache and needs no mspace. */
  datatype Command = UsePool | FreeBlock | DisableCache

  /** The pool: p->m, p->threads, the owner of each mspace lock and of the pool lock (0 for none), p->caches, the TLS
      value of each thread, the threads, and the next mspace that create_mspace would make. */
  datatype State = State(m: seq<nat>, threads: nat, locks: map<nat, nat>, mutex: nat, caches: seq<Slot>, tls: map<nat,
      int>,
                         procs: map<nat, Proc>, spare: nat)

  /** TRY_LOCK on mspace i succeeds. */
  predicate CanLock(s: State, t: nat, i: nat) {
    i < |s.m| && s.m[i] in s.locks && (s.locks[s.m[i]] == 0 || s.locks[s.m[i]] == t)
  }

  /** What the next access of thread t can refer to; the invariant shows that it always holds. */
  predicate InBounds(s: State, t: nat) {
    t in s.procs && t in s.tls &&
    match s.procs[t].pc
    case ReadTls => s.tls[t] <= |s.caches| && (s.tls[t] > 0 ==> s.caches[s.tls[t] - 1].Taken?)
    case ScanCaches(n) => n <= |s.caches|
    case AllocateCache(n) => n < |s.caches|
    case CountSpaces(n, end) => n < |s.caches| && end < |s.m|
    case ScanUp(_, n) => n < |s.m|
    case ScanDown(_, n, _) => n < |s.m|
    case FindEnd(_, end, _) => end < |s.m|
    case TryFirst(i) => i < |s.m|
    case TryUp(_, n) => n < |s.m|
    case TryDown(_, n, _) => n < |s.m|
    case Store(end, _) => end < |s.m|
    case LockNew(end) => end < |s.m|
    case Fallback(last) => last < |s.m|
    case Using(i) => i < |s.m|
    case Record(_) => s.procs[t].tc < |s.caches| && (s.procs[t].tc >= 0 ==> s.caches[s.procs[t].tc].Taken?)
    case TrimRead => s.tls[t] <= |s.caches| && (s.tls[t] > 0 ==> s.caches[s.tls[t] - 1].Taken?)
    case TrimSet(n) => n < |s.caches| && s.caches[n].Taken?
    case TrimClear(n) => n < |s.caches|
    case SetTlsCache(n) => n < |s.caches| && s.caches[n].Taken?
    case _ => true
  }

  /** What a step does to the shared words. */
  datatype Effect =
    | Nothing
    | TakeMutex
    | DropMutex
    | SetSlot(slot: nat, content: Slot)
    | SetTls(value: int)
    | LockSpace(i: nat)
    | UnlockSpace(i: nat)
    | NewSpace
    | Publish(end: nat, temp: nat)

  function Perform(s: State, t: nat, e: Effect): State
    requires e.SetSlot? ==> e.slot < |s.caches|
    requires e.LockSpace? || e.UnlockSpace? ==> e.i < |s.m|
    requires e.Publish? ==> e.end < |s.m|
  {
    match e
    case Nothing => s
    case TakeMutex => s.(mutex := t)
    case DropMutex => s.(mutex := 0)
    case SetSlot(n, content) => s.(caches := s.caches[n := content])
    case SetTls(v) => s.(tls := s.tls[t := v])
    case LockSpace(i) => s.(locks := s.locks[s.m[i] := t])
    case UnlockSpace(i) => s.(locks := s.locks[s.m[i] := 0])
    case NewSpace => s.(locks := s.locks[s.spare := 0], spare := s.spare + 1)
    case Publish(end, temp) => s.(m := s.m[end := temp])
  }

  /** The next access of thread t and where it goes. choice decides what calloc and create_mspace do, cmd what a thread
      outside starts and whether GetMSpace follows GetThreadCache. A thread that waits for a lock stays where it is. */
  function Plan(s: State, t: nat, cmd: Command, choice: bool): (Effect, Proc)
    requires InBounds(s, t)
  {
    var me := s.procs[t];
    var tc := me.tc;
    match me.pc
    case Outside => (Nothing, Proc(if cmd == DisableCache then TrimRead else ReadTls, -1))
    case ReadTls =>
      var v := s.tls[t];
      (Nothing, if v != 0 && cmd == FreeBlock then Proc(Outside, -1)
                                                   else if v > 0 then Proc(TryFirst(s.caches[v - 1].mymspace), v - 1)
                else if v == 0 then Proc(LockForCache, -1) else Proc(TryFirst(-v - 1), -1))
    case LockForCache => if s.mutex == 0 then (TakeMutex, Proc(ScanCaches(0), tc)) else (Nothing, me)
    case ScanCaches(n) =>
      (Nothing, Proc(if n == |s.caches| then UnlockFull else if s.caches[n] == Empty then
                                                             AllocateCache(n) else ScanCaches(n + 1), tc))
    case AllocateCache(n) => (Nothing, Proc(if choice then CountSpaces(n, 0) else UnlockFull, tc))
    case CountSpaces(n, end) =>
      if s.m[end] != 0 then (Nothing, Proc(CountSpaces(n, end + 1), tc))
      else (SetSlot(n, Taken(t, if end > 0 then t % end else 0)), Proc(UnlockCache(n), tc))
    case UnlockCache(n) => (DropMutex, Proc(SetTlsCache(n), tc))
    case UnlockFull => (DropMutex, Proc(SetTlsNone, tc))
    case SetTlsCache(n) => (SetTls(n + 1), if cmd == FreeBlock then Proc(Outside, -1)
                                                                    else Proc(TryFirst(s.caches[n].mymspace), n))
    case SetTlsNone => (SetTls(-1), if cmd == FreeBlock then Proc(Outside, -1) else Proc(TryFirst(0), tc))
    case TryFirst(i) => if CanLock(s, t, i) then (LockSpace(i), Proc(Using(i), tc))
                                                 else (Nothing, Proc(ScanUp(i, i + 1), tc))
    case ScanUp(last, n) => (Nothing, Proc(if s.m[n] != 0 then TryUp(last, n) else ScanDown(last, 0, n), tc))
    case TryUp(last, n) => if CanLock(s, t, n) then (LockSpace(n), Proc(Record(n), tc))
                                                    else (Nothing, Proc(ScanUp(last, n + 1), tc))
    case ScanDown(last, n, end) => (Nothing, Proc(if n < last
        && s.m[n] != 0 then TryDown(last, n, end) else Decide(last, end), tc))
    case TryDown(last, n, end) =>
      if CanLock(s, t, n) then (LockSpace(n), Proc(Record(n), tc)) else (Nothing, Proc(ScanDown(last, n + 1, end), tc))
    case Decide(last, end) => (Nothing, Proc(if end < s.threads then Create(last, end) else Fallback(last), tc))
    case Create(last, end) =>
      if choice then (NewSpace, Proc(LockForStore(last, end, s.spare), tc)) else (Nothing, Proc(Fallback(last), tc))
    case LockForStore(last, end, temp) => if s.mutex == 0 then (TakeMutex, Proc(FindEnd(last, end, temp), tc))
                                                               else (Nothing, me)
    case FindEnd(last, end, temp) =>
      (Nothing, Proc(if s.m[end] != 0 && end < s.threads then FindEnd(last, end + 1, temp)
                     else if end >= s.threads then UnlockLost(last) else Store(end, temp), tc))
    case Store(end, temp) => (Publish(end, temp), Proc(LockNew(end), tc))
    case LockNew(end) => if CanLock(s, t, end) then (LockSpace(end), Proc(UnlockStore(end), tc)) else (Nothing, me)
    case UnlockStore(end) => (DropMutex, Proc(Record(end), tc))
    case UnlockLost(last) => (DropMutex, Proc(Fallback(last), tc))
    case Fallback(last) => if CanLock(s, t, last) then (LockSpace(last), Proc(Using(last), tc)) else (Nothing, me)
    case Record(i) =>
      if tc >= 0 then (SetSlot(tc, s.caches[tc].(mymspace := i)), Proc(Using(i), tc))
                      else (SetTls(-(i + 1)), Proc(Using(i), tc))
    case Using(i) => (UnlockSpace(i), Proc(Outside, -1))
    case TrimRead =>
      var v := s.tls[t];
      if v > 0 then (Nothing, Proc(TrimSet(v - 1), tc))
      else if v == 0 then (SetTls(-1), Proc(Outside, tc)) else (Nothing, Proc(Outside, tc))
    case TrimSet(n) => (SetTls(0 - s.caches[n].mymspace), Proc(TrimClear(n), tc))
    case TrimClear(n) => (SetSlot(n, Empty), Proc(Outside, tc))
  }

  function Step(s: State, t: nat, cmd: Command, choice: bool): State
    requires InBounds(s, t)
  {
    var (e, p) := Plan(s, t, cmd, choice);
    Perform(s, t, e).(procs := s.procs[t := p])
  }

  // ----- the invariant -----

  /** p->m is a gap-free prefix of count entries, at most p->threads. */
  ghost predicate Filled(s: State, count: nat) {
    && |s.m| == MAXTHREADSINPOOL + 1 && |s.caches| == THREADCACHEMAXCACHES
       && 1 <= count <= s.threads <= MAXTHREADSINPOOL
    && (forall i: nat :: i < |s.m| ==> (s.m[i] != 0 <==> i < count))
  }

  /** The entries are different mspaces with a lock each. */
  ghost predicate Spaces(s: State, count: nat) {
    && (forall i: nat :: i < count && i < |s.m| ==> s.m[i] < s.spare && s.m[i] in s.locks)
    && (forall i: nat, j: nat :: i < j < count && j < |s.m| ==> s.m[i] != s.m[j])
    && (forall x: nat :: x in s.locks ==> x < s.spare)
  }

  ghost predicate Prefix(s: State, count: nat) {
    Filled(s, count) && Spaces(s, count)
  }

  /** The mspace that t has locked, as an index, or -1. */
  function Held(pc: Pc): int {
    match pc
    case UnlockStore(end) => end
    case Record(i) => i
    case Using(i) => i
    case _ => -1
  }

  predicate HasMutex(pc: Pc) {
    pc.ScanCaches? || pc.AllocateCache? || pc.CountSpaces? || pc.UnlockCache? || pc.UnlockFull?
    || pc.FindEnd? || pc.Store? || pc.LockNew? || pc.UnlockStore? || pc.UnlockLost?
  }

  /** The mspace that t has created and not published yet, or 0. */
  function Temp(pc: Pc): nat {
    match pc
    case LockForStore(_, _, temp) => temp
    case FindEnd(_, _, temp) => temp
    case Store(_, temp) => temp
    case _ => 0
  }

  /** The cache slot that t has or is setting up, or -1. */
  function SlotOf(s: State, t: nat): int
    requires t in s.procs && t in s.tls
  {
    match s.procs[t].pc
    case UnlockCache(n) => n
    case SetTlsCache(n) => n
    case TrimClear(n) => n
    case _ => if s.tls[t] > 0 then s.tls[t] - 1 else -1
  }

  /** The mspace a thread falls back on, or is waiting for; or -1. */
  function Base(pc: Pc): int {
    match pc
    case TryFirst(i) => i
    case ScanUp(last, _) => last
    case TryUp(last, _) => last
    case ScanDown(last, _, _) => last
    case TryDown(last, _, _) => last
    case Decide(last, _) => last
    case Create(last, _) => last
    case LockForStore(last, _, _) => last
    case FindEnd(last, _, _) => last
    case LockNew(end) => end
    case UnlockLost(last) => last
    case Fallback(last) => last
    case _ => -1
  }

  /** The mspace a search is about to try, or -1. */
  function Probe(pc: Pc): int {
    match pc
    case TryUp(_, n) => n
    case TryDown(_, n, _) => n
    case _ => -1
  }

  /** How far a scan of p->m has come. */
  function Scanned(pc: Pc): nat {
    match pc
    case CountSpaces(_, end) => end
    case ScanUp(_, n) => n
    case ScanDown(_, _, end) => end
    case TryDown(_, _, end) => end
    case Decide(_, end) => end
    case Create(_, end) => end
    case LockForStore(_, end, _) => end
    case FindEnd(_, end, _) => end
    case _ => 0
  }

  /** The cache slot a thread has found empty, or -1. */
  function Vacant(pc: Pc): int {
    match pc
    case AllocateCache(n) => n
    case CountSpaces(n, _) => n
    case _ => -1
  }

  /** What a place says of its own variables. */
  predicate Sane(pc: Pc) {
    match pc
    case ScanCaches(n) => n <= THREADCACHEMAXCACHES
    case ScanDown(last, n, _) => n <= last
    case TryDown(last, n, _) => n < last
    case LockForStore(_, _, temp) => temp != 0
    case FindEnd(_, _, temp) => temp != 0
    case Store(_, temp) => temp != 0
    case _ => true
  }

  /** A thread without cache and TLS value. */
  predicate Unset(pc: Pc) {
    pc.LockForCache? || pc.ScanCaches? || pc.AllocateCache? || pc.CountSpaces? || pc.UnlockCache? || pc.UnlockFull?
    || pc.SetTlsCache? || pc.SetTlsNone?
  }

  /** A thread that has not looked at its cache in this call. */
  predicate NoCache(pc: Pc) {
    Unset(pc) || pc.Outside? || pc.ReadTls? || pc.TrimRead? || pc.TrimSet? || pc.TrimClear?
  }

  ghost predicate ProcOk(s: State, count: nat, t: nat)
    requires t in s.procs
  {
    var me := s.procs[t];
    && t in s.tls && -(count as int) <= s.tls[t] <= |s.caches|
    && (Held(me.pc) >= 0 ==> Held(me.pc) < count && Held(me.pc) < |s.m| && s.m[Held(me.pc)] in s.locks
                             && s.locks[s.m[Held(me.pc)]] == t)
    && (HasMutex(me.pc) <==> s.mutex == t)
    && (var n := SlotOf(s, t); n >= 0 ==> n < |s.caches| && s.caches[n].Taken? && s.caches[n].thread == t
                                          && s.caches[n].mymspace < count)
    && (Temp(me.pc) != 0 ==> Temp(me.pc) < s.spare && Temp(me.pc) in s.locks && Temp(me.pc) !in s.m)
    && Base(me.pc) < count && Probe(me.pc) < count && Scanned(me.pc) <= count && Sane(me.pc)
    && (Vacant(me.pc) >= 0 ==> Vacant(me.pc) < |s.caches| && s.caches[Vacant(me.pc)] == Empty)
    && (me.pc.Store? ==> me.pc.end == count < s.threads)
    && (Unset(me.pc) ==> s.tls[t] == 0) && (NoCache(me.pc) ==> me.tc == -1)
    && (!NoCache(me.pc) ==> if me.tc >= 0 then s.tls[t] == me.tc + 1 else s.tls[t] < 0)
    && (me.pc.TrimSet? ==> s.tls[t] == me.pc.n + 1) && (me.pc.TrimClear? ==> s.tls[t] <= 0)
  }

  /** No two threads share a slot, an unpublished mspace or a lock. */
  ghost predicate Separate(s: State, t: nat, u: nat)
    requires t in s.procs && u in s.procs && t in s.tls && u in s.tls
  {
    && (SlotOf(s, t) >= 0 ==> SlotOf(s, t) != SlotOf(s, u))
    && (Temp(s.procs[t].pc) != 0 ==> Temp(s.procs[t].pc) != Temp(s.procs[u].pc))
  }

  ghost predicate Inv(s: State, count: nat) {
    && Prefix(s, count) && 0 !in s.procs && s.spare > 0
    && (forall t: nat {:trigger ProcOk(s, count, t)} :: t in s.procs ==> ProcOk(s, count, t))
    && (forall t: nat, u: nat {:trigger Separate(s, t, u)} ::
          t in s.procs && u in s.procs && t in s.tls && u in s.tls && t != u ==>
            Separate(s, t, u))
  }

  /** How many mspaces there are after a step. */
  ghost function NewCount(s: State, count: nat, t: nat): nat
    requires t in s.procs
  {
    if s.procs[t].pc.Store? then count + 1 else count
  }

  /** The effects that thread t may have while the invariant holds. */
  ghost predicate Fair(s: State, count: nat, t: nat, e: Effect)
    requires t in s.procs && t in s.tls
  {
    match e
    case TakeMutex => s.mutex == 0
    case DropMutex => s.mutex == t
    case SetSlot(n, _) => n < |s.caches| && ((s.caches[n] == Empty && s.mutex == t)
        || (n == SlotOf(s, t) && s.caches[n].Taken?))
    case LockSpace(i) => i < count && CanLock(s, t, i)
    case UnlockSpace(i) => i < count && i < |s.m| && s.m[i] in s.locks && s.locks[s.m[i]] == t
    case Publish(end, temp) => end == count < s.threads && temp != 0 && temp == Temp(s.procs[t].pc) && s.mutex == t
    case _ => true
  }

  lemma StepInBounds(s: State, count: nat, t: nat)
    requires t in s.procs && Prefix(s, count) && ProcOk(s, count, t)
    ensures InBounds(s, t)
  {
  }

  // ----- every step keeps it -----

  /** Before GetMSpace, in it up to Decide, and after. */
  predicate Early(pc: Pc) {
    pc.ReadTls? || pc.LockForCache? || pc.ScanCaches? || pc.AllocateCache? || pc.CountSpaces? || pc.UnlockCache?
        || pc.UnlockFull?
    || pc.SetTlsCache? || pc.SetTlsNone?
  }

  predicate Searching(pc: Pc) {
    pc.TryFirst? || pc.ScanUp? || pc.TryUp? || pc.ScanDown? || pc.TryDown? || pc.Decide? || pc.Create? || pc.Fallback?
  }

  lemma FairEarly(s: State, count: nat, t: nat, cmd: Command, choice: bool)
    requires t in s.procs && Prefix(s, count) && ProcOk(s, count, t) && InBounds(s, t) && Early(s.procs[t].pc)
    ensures Fair(s, count, t, Plan(s, t, cmd, choice).0)
  {
  }

  lemma FairSearching(s: State, count: nat, t: nat, cmd: Command, choice: bool)
    requires t in s.procs && Prefix(s, count) && ProcOk(s, count, t) && InBounds(s, t) && Searching(s.procs[t].pc)
    ensures Fair(s, count, t, Plan(s, t, cmd, choice).0)
  {
  }

  lemma FairLate(s: State, count: nat, t: nat, cmd: Command, choice: bool)
    requires t in s.procs && Prefix(s, count) && ProcOk(s, count, t) && InBounds(s, t) && !Early(s.procs[t].pc)
             && !Searching(s.procs[t].pc)
    ensures Fair(s, count, t, Plan(s, t, cmd, choice).0)
  {
  }

  lemma StepFair(s: State, count: nat, t: nat, cmd: Command, choice: bool)
    requires t in s.procs && Prefix(s, count) && ProcOk(s, count, t) && InBounds(s, t)
    ensures Fair(s, count, t, Plan(s, t, cmd, choice).0)
  {
    hide Prefix, ProcOk, InBounds, Plan, Fair;
    if Early(s.procs[t].pc) {
      FairEarly(s, count, t, cmd, choice);
    } else if Searching(s.procs[t].pc) {
      FairSearching(s, count, t, cmd, choice);
    } else {
      FairLate(s, count, t, cmd, choice);
    }
  }

  lemma AfterReadTls(s: State, count: nat, t: nat, cmd: Command, choice: bool)
    requires t in s.procs && t != 0 && s.spare > 0 && Prefix(s, count) && ProcOk(s, count, t) && InBounds(s, t)
             && (s.procs[t].pc.ReadTls? || s.procs[t].pc.LockForCache?)
    ensures ProcOk(Step(s, t, cmd, choice), NewCount(s, count, t), t)
  {
    hide Spaces;
  }

  lemma AfterScanCaches(s: State, count: nat, t: nat, cmd: Command, choice: bool)
    requires t in s.procs && t != 0 && s.spare > 0 && Prefix(s, count) && ProcOk(s, count, t) && InBounds(s, t)
             && (s.procs[t].pc.ScanCaches? || s.procs[t].pc.AllocateCache?)
    ensures ProcOk(Step(s, t, cmd, choice), NewCount(s, count, t), t)
  {
    hide Spaces;
  }

  lemma AfterCountSpaces(s: State, count: nat, t: nat, cmd: Command, choice: bool)
    requires t in s.procs && t != 0 && s.spare > 0 && Prefix(s, count) && ProcOk(s, count, t) && InBounds(s, t)
             && (s.procs[t].pc.CountSpaces?)
    ensures ProcOk(Step(s, t, cmd, choice), NewCount(s, count, t), t)
  {
    hide Spaces;
  }

  lemma AfterUnlockCache(s: State, count: nat, t: nat, cmd: Command, choice: bool)
    requires t in s.procs && t != 0 && s.spare > 0 && Prefix(s, count) && ProcOk(s, count, t) && InBounds(s, t)
             && (s.procs[t].pc.UnlockCache? || s.procs[t].pc.UnlockFull?)
    ensures ProcOk(Step(s, t, cmd, choice), NewCount(s, count, t), t)
  {
    hide Spaces;
  }

  lemma AfterSetTlsCache(s: State, count: nat, t: nat, cmd: Command, choice: bool)
    requires t in s.procs && t != 0 && s.spare > 0 && Prefix(s, count) && ProcOk(s, count, t) && InBounds(s, t)
             && (s.procs[t].pc.SetTlsCache? || s.procs[t].pc.SetTlsNone?)
    ensures ProcOk(Step(s, t, cmd, choice), NewCount(s, count, t), t)
  {
    hide Spaces;
  }

  lemma AfterTryFirst(s: State, count: nat, t: nat, cmd: Command, choice: bool)
    requires t in s.procs && t != 0 && s.spare > 0 && Prefix(s, count) && ProcOk(s, count, t) && InBounds(s, t)
             && (s.procs[t].pc.TryFirst? || s.procs[t].pc.ScanUp?)
    ensures ProcOk(Step(s, t, cmd, choice), NewCount(s, count, t), t)
  {
    hide Spaces;
  }

  lemma AfterTryUp(s: State, count: nat, t: nat, cmd: Command, choice: bool)
    requires t in s.procs && t != 0 && s.spare > 0 && Prefix(s, count) && ProcOk(s, count, t) && InBounds(s, t)
             && (s.procs[t].pc.TryUp? || s.procs[t].pc.ScanDown?)
    ensures ProcOk(Step(s, t, cmd, choice), NewCount(s, count, t), t)
  {
    hide Spaces;
  }

  lemma AfterTryDown(s: State, count: nat, t: nat, cmd: Command, choice: bool)
    requires t in s.procs && t != 0 && s.spare > 0 && Prefix(s, count) && ProcOk(s, count, t) && InBounds(s, t)
             && (s.procs[t].pc.TryDown? || s.procs[t].pc.Decide?)
    ensures ProcOk(Step(s, t, cmd, choice), NewCount(s, count, t), t)
  {
    hide Spaces;
  }

  lemma AfterCreate(s: State, count: nat, t: nat, cmd: Command, choice: bool)
    requires t in s.procs && t != 0 && s.spare > 0 && Prefix(s, count) && ProcOk(s, count, t) && InBounds(s, t)
             && s.procs[t].pc.Create?
    ensures ProcOk(Step(s, t, cmd, choice), NewCount(s, count, t), t)
  {
  }

  lemma AfterFallback(s: State, count: nat, t: nat, cmd: Command, choice: bool)
    requires t in s.procs && t != 0 && s.spare > 0 && Prefix(s, count) && ProcOk(s, count, t) && InBounds(s, t)
             && s.procs[t].pc.Fallback?
    ensures ProcOk(Step(s, t, cmd, choice), NewCount(s, count, t), t)
  {
    hide Spaces;
  }

  lemma AfterLockForStore(s: State, count: nat, t: nat, cmd: Command, choice: bool)
    requires t in s.procs && t != 0 && s.spare > 0 && Prefix(s, count) && ProcOk(s, count, t) && InBounds(s, t)
             && (s.procs[t].pc.LockForStore? || s.procs[t].pc.FindEnd?)
    ensures ProcOk(Step(s, t, cmd, choice), NewCount(s, count, t), t)
  {
    hide Spaces;
  }

  lemma AfterStore(s: State, count: nat, t: nat, cmd: Command, choice: bool)
    requires t in s.procs && t != 0 && s.spare > 0 && Prefix(s, count) && ProcOk(s, count, t) && InBounds(s, t)
             && (s.procs[t].pc.Store?)
    ensures ProcOk(Step(s, t, cmd, choice), NewCount(s, count, t), t)
  {
    hide Spaces;
  }

  lemma AfterLockNew(s: State, count: nat, t: nat, cmd: Command, choice: bool)
    requires t in s.procs && t != 0 && s.spare > 0 && Prefix(s, count) && ProcOk(s, count, t) && InBounds(s, t)
             && (s.procs[t].pc.LockNew? || s.procs[t].pc.UnlockStore?)
    ensures ProcOk(Step(s, t, cmd, choice), NewCount(s, count, t), t)
  {
    hide Spaces;
  }

  lemma AfterUnlockLost(s: State, count: nat, t: nat, cmd: Command, choice: bool)
    requires t in s.procs && t != 0 && s.spare > 0 && Prefix(s, count) && ProcOk(s, count, t) && InBounds(s, t)
             && (s.procs[t].pc.UnlockLost? || s.procs[t].pc.Record?)
    ensures ProcOk(Step(s, t, cmd, choice), NewCount(s, count, t), t)
  {
    hide Spaces;
  }

  lemma AfterUsing(s: State, count: nat, t: nat, cmd: Command, choice: bool)
    requires t in s.procs && t != 0 && s.spare > 0 && Prefix(s, count) && ProcOk(s, count, t) && InBounds(s, t)
             && (s.procs[t].pc.Using? || s.procs[t].pc.Outside?)
    ensures ProcOk(Step(s, t, cmd, choice), NewCount(s, count, t), t)
  {
    hide Spaces;
  }

  lemma AfterTrimRead(s: State, count: nat, t: nat, cmd: Command, choice: bool)
    requires t in s.procs && t != 0 && s.spare > 0 && Prefix(s, count) && ProcOk(s, count, t) && InBounds(s, t)
             && (s.procs[t].pc.TrimRead? || s.procs[t].pc.TrimSet?)
    ensures ProcOk(Step(s, t, cmd, choice), NewCount(s, count, t), t)
  {
    hide Spaces;
  }

  lemma AfterTrimClear(s: State, count: nat, t: nat, cmd: Command, choice: bool)
    requires t in s.procs && t != 0 && s.spare > 0 && Prefix(s, count) && ProcOk(s, count, t) && InBounds(s, t)
             && (s.procs[t].pc.TrimClear?)
    ensures ProcOk(Step(s, t, cmd, choice), NewCount(s, count, t), t)
  {
    hide Spaces;
  }

  lemma MineOk(s: State, count: nat, t: nat, cmd: Command, choice: bool)
    requires t in s.procs && t != 0 && s.spare > 0 && Prefix(s, count) && ProcOk(s, count, t) && InBounds(s, t)
    ensures ProcOk(Step(s, t, cmd, choice), NewCount(s, count, t), t)
  {
    hide Prefix, ProcOk, InBounds, Step, NewCount;
    match s.procs[t].pc
    case ReadTls => AfterReadTls(s, count, t, cmd, choice);
    case LockForCache => AfterReadTls(s, count, t, cmd, choice);
    case ScanCaches(_) => AfterScanCaches(s, count, t, cmd, choice);
    case AllocateCache(_) => AfterScanCaches(s, count, t, cmd, choice);
    case CountSpaces(_, _) => AfterCountSpaces(s, count, t, cmd, choice);
    case UnlockCache(_) => AfterUnlockCache(s, count, t, cmd, choice);
    case UnlockFull => AfterUnlockCache(s, count, t, cmd, choice);
    case SetTlsCache(_) => AfterSetTlsCache(s, count, t, cmd, choice);
    case SetTlsNone => AfterSetTlsCache(s, count, t, cmd, choice);
    case TryFirst(_) => AfterTryFirst(s, count, t, cmd, choice);
    case ScanUp(_, _) => AfterTryFirst(s, count, t, cmd, choice);
    case TryUp(_, _) => AfterTryUp(s, count, t, cmd, choice);
    case ScanDown(_, _, _) => AfterTryUp(s, count, t, cmd, choice);
    case TryDown(_, _, _) => AfterTryDown(s, count, t, cmd, choice);
    case Decide(_, _) => AfterTryDown(s, count, t, cmd, choice);
    case Create(_, _) => AfterCreate(s, count, t, cmd, choice);
    case Fallback(_) => AfterFallback(s, count, t, cmd, choice);
    case LockForStore(_, _, _) => AfterLockForStore(s, count, t, cmd, choice);
    case FindEnd(_, _, _) => AfterLockForStore(s, count, t, cmd, choice);
    case Store(_, _) => AfterStore(s, count, t, cmd, choice);
    case LockNew(_) => AfterLockNew(s, count, t, cmd, choice);
    case UnlockStore(_) => AfterLockNew(s, count, t, cmd, choice);
    case UnlockLost(_) => AfterUnlockLost(s, count, t, cmd, choice);
    case Record(_) => AfterUnlockLost(s, count, t, cmd, choice);
    case Using(_) => AfterUsing(s, count, t, cmd, choice);
    case Outside => AfterUsing(s, count, t, cmd, choice);
    case TrimRead => AfterTrimRead(s, count, t, cmd, choice);
    case TrimSet(_) => AfterTrimRead(s, count, t, cmd, choice);
    case TrimClear(_) => AfterTrimClear(s, count, t, cmd, choice);
  }

  /** An effect of t leaves what another thread relies on. */
  lemma OtherOk(s: State, count: nat, t: nat, e: Effect, p: Proc, u: nat)
    requires t in s.procs && u in s.procs && t != u && t != 0 && u != 0 && t in s.tls && Prefix(s, count)
             && ProcOk(s, count, u)
    requires Fair(s, count, t, e) && Separate(s, t, u) && Separate(s, u, t)
    ensures e.SetSlot? ==> e.slot < |s.caches|
    ensures e.LockSpace? || e.UnlockSpace? ==> e.i < |s.m|
    ensures e.Publish? ==> e.end < |s.m|
    ensures ProcOk(Perform(s, t, e).(procs := s.procs[t := p]), if e.Publish? then count + 1 else count, u)
  {
    hide Held, Temp, Base, Probe, Scanned, Sane, Unset, NoCache;
  }

  lemma StepPrefix(s: State, count: nat, t: nat, e: Effect, p: Proc)
    requires t in s.procs && t in s.tls && t != 0 && s.spare > 0 && Prefix(s, count) && ProcOk(s, count, t)
             && Fair(s, count, t, e)
    ensures e.SetSlot? ==> e.slot < |s.caches|
    ensures e.LockSpace? || e.UnlockSpace? ==> e.i < |s.m|
    ensures e.Publish? ==> e.end < |s.m|
    ensures Prefix(Perform(s, t, e).(procs := s.procs[t := p]), if e.Publish? then count + 1 else count)
    ensures Grown(s, Perform(s, t, e).(procs := s.procs[t := p]))
  {
    hide Held, Base, Probe, Scanned, Sane, Unset, NoCache, Vacant, SlotOf;
  }

  /** No entry of p->m is lost or changed. */
  ghost predicate Grown(s: State, s': State) {
    forall i: nat :: i < |s.m| && s.m[i] != 0 ==> i < |s'.m| && s'.m[i] == s.m[i]
  }

  /** The slot a thread has after its step it had before, or it was empty. */
  ghost predicate SlotKept(s: State, s': State, t: nat)
    requires t in s.procs && t in s.tls
  {
    && t in s'.procs && t in s'.tls
    && (SlotOf(s', t) == SlotOf(s, t) || SlotOf(s', t) == -1
        || (0 <= SlotOf(s', t) < |s.caches| && s.caches[SlotOf(s', t)] == Empty))
  }

  lemma OwnSlotEarly(s: State, count: nat, t: nat, cmd: Command, choice: bool)
    requires t in s.procs && t != 0 && ProcOk(s, count, t) && InBounds(s, t) && Early(s.procs[t].pc)
    ensures SlotKept(s, Step(s, t, cmd, choice), t)
  {
    hide Held, Temp, Base, Probe, Scanned, Sane, HasMutex, CanLock;
  }

  lemma OwnSlotSearching(s: State, count: nat, t: nat, cmd: Command, choice: bool)
    requires t in s.procs && t != 0 && ProcOk(s, count, t) && InBounds(s, t) && Searching(s.procs[t].pc)
    ensures SlotKept(s, Step(s, t, cmd, choice), t)
  {
    hide Held, Temp, Base, Probe, Scanned, Sane, HasMutex, CanLock;
  }

  lemma OwnSlotLate(s: State, count: nat, t: nat, cmd: Command, choice: bool)
    requires t in s.procs && t != 0 && ProcOk(s, count, t) && InBounds(s, t) && !Early(s.procs[t].pc)
             && !Searching(s.procs[t].pc)
    ensures SlotKept(s, Step(s, t, cmd, choice), t)
  {
    hide Held, Temp, Base, Probe, Scanned, Sane, HasMutex, CanLock;
  }

  lemma OwnSlot(s: State, count: nat, t: nat, cmd: Command, choice: bool)
    requires t in s.procs && t != 0 && ProcOk(s, count, t) && InBounds(s, t)
    ensures SlotKept(s, Step(s, t, cmd, choice), t)
  {
    hide InBounds, Step, SlotKept, ProcOk;
    if Early(s.procs[t].pc) {
      OwnSlotEarly(s, count, t, cmd, choice);
    } else if Searching(s.procs[t].pc) {
      OwnSlotSearching(s, count, t, cmd, choice);
    } else {
      OwnSlotLate(s, count, t, cmd, choice);
    }
  }

  /** The same of the mspace it has created and not published. */
  lemma OwnTemp(s: State, t: nat, cmd: Command, choice: bool)
    requires t in s.procs && InBounds(s, t)
    ensures var s' := Step(s, t, cmd, choice);
            Temp(s'.procs[t].pc) == Temp(s.procs[t].pc) || Temp(s'.procs[t].pc) == 0 || Temp(s'.procs[t].pc) == s.spare
  {
    hide CanLock;
  }

  lemma StillSeparate(s: State, count: nat, t: nat, cmd: Command, choice: bool, u: nat)
    requires t in s.procs && u in s.procs && t != u && t != 0 && s.spare > 0 && Prefix(s, count) && InBounds(s, t)
    requires ProcOk(s, count, t) && ProcOk(s, count, u) && Separate(s, t, u) && Separate(s, u, t)
    ensures var s' := Step(s, t, cmd, choice);
            t in s'.tls && u in s'.tls && SlotOf(s', u) == SlotOf(s, u) && Separate(s', t, u) && Separate(s', u, t)
  {
    hide Spaces, Held, Base, Probe, Scanned, Sane, Plan, Vacant, NoCache, Unset, HasMutex;
    OwnSlot(s, count, t, cmd, choice);
    OwnTemp(s, t, cmd, choice);
  }

  lemma StepKeepsInv(s: State, count: nat, t: nat, cmd: Command, choice: bool)
    requires Inv(s, count) && t in s.procs
    ensures InBounds(s, t) && Inv(Step(s, t, cmd, choice), NewCount(s, count, t)) && Grown(s, Step(s, t, cmd, choice))
  {
    hide Prefix, ProcOk, InBounds, Plan, Fair, Separate, SlotOf, Grown;
    assert ProcOk(s, count, t);
    StepInBounds(s, count, t);
    StepFair(s, count, t, cmd, choice);
    var (e, p) := Plan(s, t, cmd, choice);
    var s' := Step(s, t, cmd, choice);
    TlsKnown(s, count);
    PublishAtStore(s, t, cmd, choice);
    StepPrefix(s, count, t, e, p);
    MineOk(s, count, t, cmd, choice);
    forall u: nat {:trigger ProcOk(s', NewCount(s, count, t), u)} | u in s'.procs
      ensures ProcOk(s', NewCount(s, count, t), u)
    {
      if u != t {
        assert ProcOk(s, count, u) && Separate(s, t, u) && Separate(s, u, t);
        OtherOk(s, count, t, e, p, u);
      }
    }
    forall u: nat, v: nat {:trigger Separate(s', u, v)} | u in s'.procs && v in s'.procs && u in s'.tls && v in s'.tls
        && u != v
      ensures Separate(s', u, v)
    {
      assert ProcOk(s, count, u) && ProcOk(s, count, v) && Separate(s, u, v) && Separate(s, v, u);
      if u == t {
        StillSeparate(s, count, t, cmd, choice, v);
      } else if v == t {
        StillSeparate(s, count, t, cmd, choice, u);
      } else {
        assert Separate(s, t, u) && Separate(s, t, v) && Separate(s, u, t) && Separate(s, v, t);
        StillSeparate(s, count, t, cmd, choice, u);
        StillSeparate(s, count, t, cmd, choice, v);
        Bystanders(s, s', u, v);
      }
    }
  }

  lemma TlsKnown(s: State, count: nat)
    requires Inv(s, count)
    ensures forall t: nat :: t in s.procs ==> t in s.tls
  {
    forall t: nat | t in s.procs
      ensures t in s.tls
    {
      assert ProcOk(s, count, t);
    }
  }

  lemma PublishAtStore(s: State, t: nat, cmd: Command, choice: bool)
    requires InBounds(s, t)
    ensures Plan(s, t, cmd, choice).0.Publish? <==> s.procs[t].pc.Store?
  {
  }

  lemma Bystanders(s: State, s': State, u: nat, v: nat)
    requires u in s.procs && v in s.procs && u in s.tls && v in s.tls && u in s'.procs && v in s'.procs && u in s'.tls
             && v in s'.tls
    requires s'.procs[u] == s.procs[u] && s'.procs[v] == s.procs[v] && SlotOf(s', u) == SlotOf(s, u)
             && SlotOf(s', v) == SlotOf(s, v)
    requires Separate(s, u, v)
    ensures Separate(s', u, v)
  {
  }

  // ----- runs -----

  datatype Event = Event(t: nat, cmd: Command, choice: bool)

  /** InitPool: one mspace, no caches, and the threads outside with no TLS value. */
  function Initial(threads: nat, procs: set<nat>): State {
    State([1] + seq(MAXTHREADSINPOOL, i => 0), threads, map[1 := 0], 0, seq(THREADCACHEMAXCACHES, i => Empty),
        map t | t in procs :: 0,
          map t | t in procs :: Proc(Outside, -1), 2)
  }

  lemma InitialInv(threads: nat, procs: set<nat>)
    requires 1 <= threads <= MAXTHREADSINPOOL && 0 !in procs
    ensures Inv(Initial(threads, procs), 1)
  {
  }

  /** The states of a run, in order; events of unknown threads do not happen. */
  ghost predicate IsRun(states: seq<State>, events: seq<Event>) {
    |states| == |events| + 1 && forall k: nat :: k < |events| ==> StepsTo(states[k], events[k], states[k + 1])
  }

  ghost predicate StepsTo(s: State, e: Event, s': State) {
    if e.t in s.procs then InBounds(s, e.t) && s' == Step(s, e.t, e.cmd, e.choice) else s' == s
  }

  /** Every run keeps the invariant, and p->m only grows along it. */
  lemma {:induction false} RunKeepsInv(states: seq<State>, events: seq<Event>, count0: nat, k: nat) returns (count: nat)
    requires IsRun(states, events) && Inv(states[0], count0) && k < |states|
    ensures Inv(states[k], count) && forall j: nat :: j <= k ==> Grown(states[j], states[k])
    decreases k
  {
    hide Inv, Step, InBounds, Grown;
    if k == 0 {
      count := count0;
      GrownTwice(states[0], states[0], states[0]);
    } else {
      count := RunKeepsInv(states, events, count0, k - 1);
      var s, e := states[k - 1], events[k - 1];
      assert StepsTo(s, e, states[k]);
      GrownTwice(s, s, s);
      if e.t in s.procs {
        StepKeepsInv(s, count, e.t, e.cmd, e.choice);
        count := NewCount(s, count, e.t);
      }
      GrownTwice(states[k], states[k], states[k]);
      forall j: nat | j <= k
        ensures Grown(states[j], states[k])
      {
        if j < k {
          GrownTwice(states[j], s, states[k]);
        }
      }
    }
  }

  lemma GrownTwice(s: State, s': State, s'': State)
    ensures Grown(s, s') && Grown(s', s'') ==> Grown(s, s'')
    ensures Grown(s, s)
  {
  }

  /** What every reachable state of the pool promises. */
  ghost predicate Promise(s: State, count: nat) {
    && 1 <= count <= s.threads <= MAXTHREADSINPOOL && |s.m| == MAXTHREADSINPOOL + 1
    && (forall i: nat :: i < |s.m| ==> (s.m[i] != 0 <==> i < count))
    && (forall t: nat :: t in s.procs ==>
          && t in s.tls
          && (s.tls[t] > 0 ==> s.tls[t] <= |s.caches| && s.caches[s.tls[t] - 1].Taken?
                               && s.caches[s.tls[t] - 1].mymspace < count)
          && (s.tls[t] < 0 ==> -s.tls[t] - 1 < count)
          && (s.procs[t].pc.Using? ==>
                var i := s.procs[t].pc.i;
                i < count && s.m[i] in s.locks && s.locks[s.m[i]] == t))
  }

  /** In every interleaving p->m is a gap-free prefix of at most p->threads mspaces, a TLS value stands for a live
      cache or a populated slot, and GetMSpace has returned only with the mspace locked by the caller. From any state
      of a run to any later one no entry of p->m is lost or changed. */
  lemma PoolIsSafe(threads: nat, procs: set<nat>, states: seq<State>, events: seq<Event>, k: nat) returns (count: nat)
    requires 1 <= threads <= MAXTHREADSINPOOL && 0 !in procs
    requires IsRun(states, events) && states[0] == Initial(threads, procs) && k < |states|
    ensures Promise(states[k], count) && forall j: nat :: j <= k ==> Grown(states[j], states[k])
  {
    hide IsRun, InBounds, Step, Grown;
    InitialInv(threads, procs);
    count := RunFromStart(states, events, k);
    var s := states[k];
    forall t: nat | t in s.procs
      ensures ProcOk(s, count, t)
    {
    }
  }

  lemma RunFromStart(states: seq<State>, events: seq<Event>, k: nat) returns (count: nat)
    requires IsRun(states, events) && |states| > 0 && Inv(states[0], 1) && k < |states|
    ensures Inv(states[k], count) && forall j: nat :: j <= k ==> Grown(states[j], states[k])
  {
    hide Inv, Step, InBounds, Grown;
    count := RunKeepsInv(states, events, 1, k);
  }

  /** The TLS value that nedtrimthreadcache stores when it disables a cache does not stand for the mspace last used: it
      stands for the slot before that one, which is populated too, and after mspace 0 no value is set. */
  lemma DisabledValue(s: State, count: nat, t: nat, cmd: Command, choice: bool)
    requires Inv(s, count) && t in s.procs && s.procs[t].pc.TrimSet?
    ensures InBounds(s, t)
    ensures var last, v := s.caches[s.procs[t].pc.n].mymspace, Step(s, t, cmd, choice).tls[t];
            last < count && (if last == 0 then v == 0 else v < 0 && -v - 1 == last - 1 && s.m[-v - 1] != 0)
  {
    assert ProcOk(s, count, t);
  }
}
