/** The reentrant spin lock of malloc.c.h, one memory access per step, in any interleaving of threads. */
module SpinLocks {

  const UINT: nat := 0x1_0000_0000

  /** Where a thread is. Each name is the memory access the thread does next. */
  datatype Pc =
    | Outside
    | ReadL(wait: bool)
    | ReadId(wait: bool)
    | ReadCount
    | WriteCount(reg: nat)
    | CompareExchange(wait: bool)
    | CheckId
    | WriteId
    | WriteOne
    | CheckL
    | CheckOwn
    | ReadCountDown
    | WriteCountDown(reg: nat)
    | ClearId
    | ClearL

  /** What a thread outside the lock code may start. */
  datatype Command = Acquire | Try | Release

  /** Where a thread is and how many of its acquisitions are not released yet. */
  datatype Local = Local(pc: Pc, depth: nat)

  /** The words of the lock and the threads. A failed assertion is recorded in ok. */
  datatype State = State(l: nat, c: nat, threadid: nat, threads: map<nat, Local>, ok: bool)

  function Move(s: State, t: nat, pc: Pc): State
    requires t in s.threads
  {
    s.(threads := s.threads[t := s.threads[t].(pc := pc)])
  }

  function Done(s: State, t: nat, depth: nat): State
    requires t in s.threads
  {
    s.(threads := s.threads[t := Local(Outside, depth)])
  }

  /** A command may be started: only a holder releases, and nesting stays within the counter. */
  predicate MayStart(s: State, t: nat, cmd: Command)
    requires t in s.threads
  {
    match cmd
    case Release => s.threads[t].depth > 0
    case _ => s.threads[t].depth + 1 < UINT
  }

  /** One step of thread t; cmd matters only outside. */
  function Step(s: State, t: nat, cmd: Command): State
    requires t in s.threads && (s.threads[t].pc == Outside ==> MayStart(s, t, cmd))
  {
    var me := s.threads[t];
    match me.pc
    case Outside =>
      (match cmd
       case Acquire => Move(s, t, ReadL(true))
       case Try => Move(s, t, ReadL(false))
       case Release => Move(s, t, CheckL))
    case ReadL(wait) => Move(s, t, if s.l != 0 then ReadId(wait) else CompareExchange(wait))
    case ReadId(wait) =>
      if s.threadid == t then Move(s, t, ReadCount)
      else if wait then Move(s, t, ReadL(true)) else Done(s, t, me.depth)
    case ReadCount => Move(s, t, WriteCount(s.c))
    case WriteCount(reg) => Done(s.(c := (reg + 1) % UINT), t, me.depth + 1)
    case CompareExchange(wait) =>
      if s.l == 0 then Move(s.(l := 1), t, CheckId)
      else if wait then Move(s, t, ReadL(true)) else Done(s, t, me.depth)
    case CheckId => Move(s.(ok := s.ok && s.threadid == 0), t, WriteId)
    case WriteId => Move(s.(threadid := t), t, WriteOne)
    case WriteOne => Done(s.(c := 1), t, 1)
    case CheckL => Move(s.(ok := s.ok && s.l != 0), t, CheckOwn)
    case CheckOwn => Move(s.(ok := s.ok && s.threadid == t), t, ReadCountDown)
    case ReadCountDown => Move(s, t, WriteCountDown(s.c))
    case WriteCountDown(reg) =>
      var c := (reg + UINT - 1) % UINT;
      if c == 0 then s.(c := c, threads := s.threads[t := Local(ClearId, me.depth - (if me.depth > 0 then 1 else 0))])
      else Done(s.(c := c), t, me.depth - (if me.depth > 0 then 1 else 0))
    case ClearId => Move(s.(threadid := 0), t, ClearL)
    case ClearL => Done(s.(l := 0), t, me.depth)
  }

  /** t holds the lock, is between taking it and saying so, or is giving it up. */
  ghost predicate Owns(me: Local) {
    me.depth > 0 || me.pc in {CheckId, WriteId, WriteOne, ClearId, ClearL}
  }

  /** What the words say while t is where it is. */
  ghost predicate OwnerOk(s: State, t: nat)
    requires t in s.threads
  {
    var me := s.threads[t];
    && me.depth < UINT
    && (me.depth > 0 ==> s.l == 1 && s.threadid == t && s.c == me.depth)
    && match me.pc
       case CompareExchange(_) => me.depth == 0
       case ReadCount => me.depth > 0 && me.depth + 1 < UINT
       case WriteCount(reg) => me.depth > 0 && reg == s.c && me.depth + 1 < UINT
       case CheckId => s.l == 1 && s.threadid == 0 && me.depth == 0
       case WriteId => s.l == 1 && s.threadid == 0 && me.depth == 0
       case WriteOne => s.l == 1 && s.threadid == t && me.depth == 0
       case CheckL => me.depth > 0
       case CheckOwn => me.depth > 0
       case ReadCountDown => me.depth > 0
       case WriteCountDown(reg) => me.depth > 0 && reg == s.c
       case ClearId => s.l == 1 && s.threadid == t && me.depth == 0
       case ClearL => s.l == 1 && s.threadid == 0 && me.depth == 0
       case ReadL(_) => me.depth + 1 < UINT
       case ReadId(_) => me.depth + 1 < UINT
       case Outside => true
  }

  /** The thread that owns the lock, or 0. */
  ghost predicate OwnedBy(s: State, own: nat) {
    && (s.l == 0 || s.l == 1) && (own == 0 <==> s.l == 0) && (own != 0 ==> own in s.threads && Owns(s.threads[own]))
    && (s.threadid != 0 ==> s.threadid == own)
    && (forall t: nat :: t in s.threads && Owns(s.threads[t]) ==> t == own)
  }

  ghost predicate Inv(s: State, own: nat) {
    && s.ok && 0 !in s.threads && OwnedBy(s, own)
    && (forall t: nat {:trigger OwnerOk(s, t)} :: t in s.threads ==> OwnerOk(s, t))
  }

  /** Who owns the lock after a step of t. */
  ghost function NewOwner(s: State, own: nat, t: nat): nat
    requires t in s.threads
  {
    match s.threads[t].pc
    case CompareExchange(_) => if s.l == 0 then t else own
    case ClearL => 0
    case _ => own
  }

  lemma StepOwnerOk(s: State, own: nat, t: nat, cmd: Command, u: nat)
    requires Inv(s, own) && t in s.threads && (s.threads[t].pc == Outside ==> MayStart(s, t, cmd)) && u in s.threads
    ensures OwnerOk(Step(s, t, cmd), u)
  {
    assert OwnerOk(s, t) && OwnerOk(s, u);
  }

  lemma StepKeepsInv(s: State, own: nat, t: nat, cmd: Command)
    requires Inv(s, own) && t in s.threads && (s.threads[t].pc == Outside ==> MayStart(s, t, cmd))
    ensures Inv(Step(s, t, cmd), NewOwner(s, own, t))
  {
    var s' := Step(s, t, cmd);
    assert OwnerOk(s, t);
    forall u: nat {:trigger OwnerOk(s', u)} | u in s'.threads
      ensures OwnerOk(s', u)
    {
      StepOwnerOk(s, own, t, cmd, u);
    }
  }

  // ----- runs -----

  datatype Event = Event(t: nat, cmd: Command)

  /** An event is possible. */
  predicate Enabled(s: State, e: Event) {
    e.t in s.threads && (s.threads[e.t].pc == Outside ==> MayStart(s, e.t, e.cmd))
  }

  /** The state after a run; events that are not possible do not happen. */
  function After(s: State, run: seq<Event>): State
    decreases |run|
  {
    if run == [] then s
    else
      var before := After(s, run[..|run| - 1]);
      var e := run[|run| - 1];
      if Enabled(before, e) then Step(before, e.t, e.cmd) else before
  }

  /** INITIAL_LOCK, with all threads outside. */
  function Initial(threads: set<nat>): State {
    State(0, 0, 0, map t | t in threads :: Local(Outside, 0), true)
  }

  lemma {:induction false} RunKeepsInv(threads: set<nat>, run: seq<Event>) returns (own: nat)
    requires 0 !in threads
    ensures Inv(After(Initial(threads), run), own)
    decreases |run|
  {
    if run == [] {
      own := 0;
    } else {
      own := RunKeepsInv(threads, run[..|run| - 1]);
      var before := After(Initial(threads), run[..|run| - 1]);
      var e := run[|run| - 1];
      if Enabled(before, e) {
        StepKeepsInv(before, own, e.t, e.cmd);
        own := NewOwner(before, own, e.t);
      }
    }
  }

  /** In every interleaving: at most one thread owns the lock; threadid names a thread only while it owns it; the
      counter of a holder is its nesting depth; threadid is 0 whenever l is; and no assertion of the lock code
      fails. */
  lemma MutualExclusion(threads: set<nat>, run: seq<Event>)
    requires 0 !in threads
    ensures var s := After(Initial(threads), run);
            && s.ok
            && (forall t: nat, u: nat ::
                  t in s.threads && u in s.threads && Owns(s.threads[t]) && Owns(s.threads[u]) ==>
                    t == u)
            && (s.threadid != 0 ==> s.threadid in s.threads && Owns(s.threads[s.threadid]))
            && (forall t: nat :: t in s.threads && s.threads[t].depth > 0 ==> s.l != 0 && s.threadid == t
                                                                              && s.c == s.threads[t].depth)
            && (s.l == 0 ==> s.threadid == 0 && forall t: nat :: t in s.threads ==> !Owns(s.threads[t]))
  {
    var own := RunKeepsInv(threads, run);
    var s := After(Initial(threads), run);
    assert forall t: nat :: t in s.threads ==> OwnerOk(s, t);
  }

  // ----- a thread that takes all steps -----

  /** Thread t alone takes n steps, and does cmd whenever it is outside. */
  function Alone(t: nat, cmd: Command, n: nat): seq<Event> {
    seq(n, _ => Event(t, cmd))
  }

  /** The state of a run that thread t alone has taken n steps further. */
  function Further(threads: set<nat>, run: seq<Event>, t: nat, cmd: Command, n: nat): State {
    After(Initial(threads), run + Alone(t, cmd, n))
  }

  /** The words of the lock and the place and depth of t are these; no other thread has moved since s. */
  ghost predicate Sees(s: State, x: State, t: nat, l: nat, c: nat, threadid: nat, pc: Pc, depth: nat) {
    x == State(l, c, threadid, s.threads[t := Local(pc, depth)], true)
  }

  lemma SeesStart(threads: set<nat>, run: seq<Event>, t: nat, cmd: Command)
    requires var s := After(Initial(threads), run); t in s.threads && s.ok
    ensures var s := After(Initial(threads), run);
            Sees(s, Further(threads, run, t, cmd, 0), t, s.l, s.c, s.threadid, s.threads[t].pc, s.threads[t].depth)
  {
    hide After;
    var s := After(Initial(threads), run);
    assert run + Alone(t, cmd, 0) == run;
    assert s.threads[t := s.threads[t]] == s.threads;
  }

  lemma OneFurther(threads: set<nat>, run: seq<Event>, t: nat, cmd: Command, n: nat)
    ensures var x := Further(threads, run, t, cmd, n);
            Further(threads, run, t, cmd, n + 1) == if Enabled(x, Event(t, cmd)) then Step(x, t, cmd) else x
  {
    hide Step, Enabled;
    var longer := run + Alone(t, cmd, n + 1);
    assert longer[..|longer| - 1] == run + Alone(t, cmd, n);
    assert longer[|longer| - 1] == Event(t, cmd);
  }

  /** One step of t, in terms of what t sees. */
  lemma SeesNext(s: State, x: State, t: nat, l: nat, c: nat, threadid: nat, pc: Pc, depth: nat, cmd: Command)
    requires Sees(s, x, t, l, c, threadid, pc, depth) && Enabled(x, Event(t, cmd))
    ensures var y := Step(x, t, cmd);
            t in y.threads && (y.ok ==> Sees(s, y, t, y.l, y.c, y.threadid, y.threads[t].pc, y.threads[t].depth))
  {
    var y := Step(x, t, cmd);
    assert y.threads == x.threads[t := y.threads[t]];
    assert y.threads == s.threads[t := y.threads[t]];
  }

  /** Thread t is outside in a state that a run leads to, and may start cmd. */
  ghost predicate Starts(threads: set<nat>, run: seq<Event>, t: nat, cmd: Command) {
    var s := After(Initial(threads), run);
    0 !in threads && t in s.threads && s.threads[t].pc == Outside && MayStart(s, t, cmd)
  }

  /** What the invariant says to a thread outside. */
  lemma StartFacts(threads: set<nat>, run: seq<Event>, t: nat, cmd: Command)
    requires Starts(threads, run, t, cmd)
    ensures var s := After(Initial(threads), run);
            && s.ok && t != 0 && (s.l == 0 || s.l == 1) && (s.l == 0 ==> s.threadid == 0)
            && (if s.threads[t].depth > 0 then s.l == 1 && s.threadid == t && s.c == s.threads[t].depth < UINT
                else s.threadid != t)
  {
    hide After;
    var s := After(Initial(threads), run);
    var own := RunKeepsInv(threads, run);
    assert OwnerOk(s, t);
  }

  /** One step further, from what t sees to what t sees. */
  lemma Advance(threads: set<nat>, run: seq<Event>, t: nat, cmd: Command, n: nat, l: nat, c: nat, threadid: nat,
                pc: Pc, depth: nat)
    requires Sees(After(Initial(threads), run), Further(threads, run, t, cmd, n), t, l, c, threadid, pc, depth)
    requires pc == Outside ==> if cmd == Release then depth > 0 else depth + 1 < UINT
    ensures Enabled(Further(threads, run, t, cmd, n), Event(t, cmd))
    ensures var y := Step(Further(threads, run, t, cmd, n), t, cmd);
            && Further(threads, run, t, cmd, n + 1) == y && t in y.threads
            && (y.ok ==> Sees(After(Initial(threads), run), y, t, y.l, y.c, y.threadid, y.threads[t].pc,
                              y.threads[t].depth))
  {
    hide After, Further, Step;
    var x := Further(threads, run, t, cmd, n);
    OneFurther(threads, run, t, cmd, n);
    SeesNext(After(Initial(threads), run), x, t, l, c, threadid, pc, depth, cmd);
  }

  /** From the exchange on, when it succeeds. */
  lemma TakeSteps(threads: set<nat>, run: seq<Event>, t: nat, cmd: Command, n: nat, c: nat, wait: bool)
    requires var s := After(Initial(threads), run);
             Sees(s, Further(threads, run, t, cmd, n), t, 0, c, 0, CompareExchange(wait), 0)
    ensures var s := After(Initial(threads), run);
            Sees(s, Further(threads, run, t, cmd, n + 4), t, 1, 1, t, Outside, 1)
  {
    hide After, Further, Initial;
    Advance(threads, run, t, cmd, n, 0, c, 0, CompareExchange(wait), 0);
    Advance(threads, run, t, cmd, n + 1, 1, c, 0, CheckId, 0);
    Advance(threads, run, t, cmd, n + 2, 1, c, 0, WriteId, 0);
    Advance(threads, run, t, cmd, n + 3, 1, c, t, WriteOne, 0);
  }

  lemma FreeSteps(threads: set<nat>, run: seq<Event>, t: nat, cmd: Command)
    requires Starts(threads, run, t, cmd) && cmd != Release && After(Initial(threads), run).l == 0
    ensures var s := After(Initial(threads), run);
            Sees(s, Further(threads, run, t, cmd, 6), t, 1, 1, t, Outside, 1)
  {
    hide After, Further, Initial;
    var s := After(Initial(threads), run);
    StartFacts(threads, run, t, cmd);
    SeesStart(threads, run, t, cmd);
    Advance(threads, run, t, cmd, 0, 0, s.c, 0, Outside, 0);
    Advance(threads, run, t, cmd, 1, 0, s.c, 0, ReadL(cmd == Acquire), 0);
    TakeSteps(threads, run, t, cmd, 2, s.c, cmd == Acquire);
  }

  lemma OwnSteps(threads: set<nat>, run: seq<Event>, t: nat, cmd: Command)
    requires Starts(threads, run, t, cmd) && cmd != Release && After(Initial(threads), run).threads[t].depth > 0
    ensures var s := After(Initial(threads), run); var depth := s.threads[t].depth + 1;
            Sees(s, Further(threads, run, t, cmd, 5), t, 1, depth, t, Outside, depth)
  {
    hide After, Further, Initial;
    var s := After(Initial(threads), run);
    StartFacts(threads, run, t, cmd);
    SeesStart(threads, run, t, cmd);
    var wait, depth := cmd == Acquire, s.threads[t].depth;
    Advance(threads, run, t, cmd, 0, 1, depth, t, Outside, depth);
    Advance(threads, run, t, cmd, 1, 1, depth, t, ReadL(wait), depth);
    Advance(threads, run, t, cmd, 2, 1, depth, t, ReadId(wait), depth);
    Advance(threads, run, t, cmd, 3, 1, depth, t, ReadCount, depth);
    Advance(threads, run, t, cmd, 4, 1, depth, t, WriteCount(depth), depth);
  }

  /** The lock is free, or t has it. */
  ghost predicate Available(s: State, t: nat) {
    s.l == 0 || (t in s.threads && s.threads[t].depth > 0)
  }

  /** Thread t has the lock once more, and nothing but t and the lock has changed. */
  ghost predicate Deeper(s: State, x: State, t: nat) {
    t in s.threads
      && var depth := s.threads[t].depth + 1; x == State(1, depth, t, s.threads[t := Local(Outside, depth)], true)
  }

  /** Thread t is inside the loop of the acquisition, and nothing but its place has changed. */
  ghost predicate Waits(s: State, x: State, t: nat) {
    t in s.threads && (x == Move(s, t, ReadL(true)) || x == Move(s, t, ReadId(true)))
  }

  /** While the lock is another's and only t moves, t goes on reading l and threadid. */
  lemma {:induction false} Spins(threads: set<nat>, run: seq<Event>, t: nat, n: nat)
    requires Starts(threads, run, t, Acquire) && !Available(After(Initial(threads), run), t) && n >= 1
    ensures var s := After(Initial(threads), run);
            Sees(s, Further(threads, run, t, Acquire, n), t, s.l, s.c, s.threadid,
                 if n % 2 == 1 then ReadL(true) else ReadId(true), 0)
  {
    hide After, Further, Initial;
    var s := After(Initial(threads), run);
    StartFacts(threads, run, t, Acquire);
    if n == 1 {
      SeesStart(threads, run, t, Acquire);
      Advance(threads, run, t, Acquire, 0, s.l, s.c, s.threadid, Outside, 0);
    } else {
      Spins(threads, run, t, n - 1);
      Advance(threads, run, t, Acquire, n - 1, s.l, s.c, s.threadid, if n % 2 == 0 then ReadL(true) else ReadId(true),
              0);
    }
  }

  /** A thread that takes all steps completes an acquisition if and only if the lock is free or its own. Then it has the
      lock once more after at most six steps; otherwise it reads the lock for ever. */
  lemma AcquireEnds(threads: set<nat>, run: seq<Event>, t: nat)
    requires Starts(threads, run, t, Acquire)
    ensures var s := After(Initial(threads), run);
            if Available(s, t) then
              exists n: nat :: 1 <= n <= 6 && Deeper(s, Further(threads, run, t, Acquire, n), t)
            else
              forall n: nat :: n >= 1 ==> Waits(s, Further(threads, run, t, Acquire, n), t)
  {
    hide After, Further, Initial;
    var s := After(Initial(threads), run);
    StartFacts(threads, run, t, Acquire);
    if s.l == 0 {
      FreeSteps(threads, run, t, Acquire);
      assert Deeper(s, Further(threads, run, t, Acquire, 6), t);
    } else if Available(s, t) {
      OwnSteps(threads, run, t, Acquire);
      assert Deeper(s, Further(threads, run, t, Acquire, 5), t);
    } else {
      forall n: nat | n >= 1
        ensures Waits(s, Further(threads, run, t, Acquire, n), t)
      {
        Spins(threads, run, t, n);
      }
    }
  }

  /** A thread that waits gets the lock within six steps of its own once the lock is free. */
  lemma WaiterEnters(threads: set<nat>, run: seq<Event>, t: nat, cmd: Command)
    requires var s := After(Initial(threads), run);
             && 0 !in threads && s.l == 0 && t in s.threads
             && s.threads[t].pc in {ReadL(true), ReadId(true), CompareExchange(true)}
    ensures var s := After(Initial(threads), run);
            exists n: nat :: 1 <= n <= 6 && Deeper(s, Further(threads, run, t, cmd, n), t)
  {
    hide After, Further, Initial;
    var s := After(Initial(threads), run);
    var own := RunKeepsInv(threads, run);
    assert OwnerOk(s, t);
    SeesStart(threads, run, t, cmd);
    var n := 0;
    if s.threads[t].pc == ReadId(true) {
      Advance(threads, run, t, cmd, 0, 0, s.c, 0, ReadId(true), 0);
      n := 1;
    }
    if s.threads[t].pc != CompareExchange(true) {
      Advance(threads, run, t, cmd, n, 0, s.c, 0, ReadL(true), 0);
      n := n + 1;
    }
    TakeSteps(threads, run, t, cmd, n, s.c, true);
    assert Deeper(s, Further(threads, run, t, cmd, n + 4), t);
  }

  /** A thread that takes all steps completes an attempt within six. It has the lock once more if and only if the lock
      was free or its own when it started; otherwise nothing has changed. */
  lemma TryEnds(threads: set<nat>, run: seq<Event>, t: nat)
    requires Starts(threads, run, t, Try)
    ensures var s := After(Initial(threads), run);
            exists n: nat :: 1 <= n <= 6 &&
                             var x := Further(threads, run, t, Try, n);
                             if Available(s, t) then Deeper(s, x, t) else x == s
  {
    hide After, Further, Initial;
    var s := After(Initial(threads), run);
    StartFacts(threads, run, t, Try);
    if s.l == 0 {
      FreeSteps(threads, run, t, Try);
      assert Deeper(s, Further(threads, run, t, Try, 6), t);
    } else if Available(s, t) {
      OwnSteps(threads, run, t, Try);
      assert Deeper(s, Further(threads, run, t, Try, 5), t);
    } else {
      SeesStart(threads, run, t, Try);
      Advance(threads, run, t, Try, 0, s.l, s.c, s.threadid, Outside, 0);
      Advance(threads, run, t, Try, 1, s.l, s.c, s.threadid, ReadL(false), 0);
      Advance(threads, run, t, Try, 2, s.l, s.c, s.threadid, ReadId(false), 0);
      assert s.threads[t := s.threads[t]] == s.threads;
      assert Further(threads, run, t, Try, 3) == s;
    }
  }

  lemma CheckSteps(threads: set<nat>, run: seq<Event>, t: nat)
    requires Starts(threads, run, t, Release)
    ensures var s := After(Initial(threads), run); var depth := s.threads[t].depth;
            && 0 < depth < UINT
            && Sees(s, Further(threads, run, t, Release, 4), t, 1, depth, t, WriteCountDown(depth), depth)
  {
    hide After, Further, Initial;
    var s := After(Initial(threads), run);
    StartFacts(threads, run, t, Release);
    SeesStart(threads, run, t, Release);
    var depth := s.threads[t].depth;
    Advance(threads, run, t, Release, 0, 1, depth, t, Outside, depth);
    Advance(threads, run, t, Release, 1, 1, depth, t, CheckL, depth);
    Advance(threads, run, t, Release, 2, 1, depth, t, CheckOwn, depth);
    Advance(threads, run, t, Release, 3, 1, depth, t, ReadCountDown, depth);
  }

  lemma DownSteps(threads: set<nat>, run: seq<Event>, t: nat)
    requires Starts(threads, run, t, Release)
    ensures var s := After(Initial(threads), run); var depth := s.threads[t].depth - 1;
            depth >= 0 && Sees(s, Further(threads, run, t, Release, 5), t, 1, depth, t,
                               if depth == 0 then ClearId else Outside, depth)
  {
    hide After, Further, Initial;
    var s := After(Initial(threads), run);
    CheckSteps(threads, run, t);
    var depth := s.threads[t].depth;
    Advance(threads, run, t, Release, 4, 1, depth, t, WriteCountDown(depth), depth);
  }

  /** A thread that takes all steps completes a release within seven: it has the lock once less, and the lock is free if
      that was the last time. */
  lemma ReleaseEnds(threads: set<nat>, run: seq<Event>, t: nat)
    requires Starts(threads, run, t, Release)
    ensures var s := After(Initial(threads), run);
            var depth := s.threads[t].depth - 1;
            depth >= 0 &&
            exists n: nat :: 1 <= n <= 7 &&
                             var x := Further(threads, run, t, Release, n);
                             if depth > 0 then Sees(s, x, t, 1, depth, t, Outside, depth)
                             else Sees(s, x, t, 0, 0, 0, Outside, 0)
  {
    hide After, Further, Initial;
    var s := After(Initial(threads), run);
    DownSteps(threads, run, t);
    var depth := s.threads[t].depth - 1;
    if depth > 0 {
      assert Sees(s, Further(threads, run, t, Release, 5), t, 1, depth, t, Outside, depth);
    } else {
      Advance(threads, run, t, Release, 5, 1, 0, t, ClearId, 0);
      Advance(threads, run, t, Release, 6, 1, 0, 0, ClearL, 0);
      assert Sees(s, Further(threads, run, t, Release, 7), t, 0, 0, 0, Outside, 0);
    }
  }
}
