// The no-starve mutex of 31-Semaphores/mutex-nostarve.c.
module NoStarveMutex {
  // Any number of threads, each going through acquire and release as often as it likes, interleaved one memory access
  // or semaphore operation at a time. A semaphore is its counter; a wait is enabled while the counter is positive and
  // wakes nobody in particular, which is the weakest semaphore there is.

  import opened Counting

  // Where a thread is in worker(): each constructor names the statement it executes next.
  // room1 and room2 are read and written in separate steps, through a private temporary.
  datatype PC =
    | Idle
    | WaitMutexIn | LoadRoom1Inc | StoreRoom1Inc | PostMutexIn
    | WaitT1
    | WaitMutexMove | LoadRoom2Inc | StoreRoom2Inc | LoadRoom1Dec | StoreRoom1Dec | TestRoom1
    | PostMutexLast | PostT2Last
    | PostMutexMore | PostT1More
    | WaitT2 | LoadRoom2Dec | StoreRoom2Dec
    | Critical
    | TestRoom2 | PostT1Release | PostT2Release

  datatype Thread = Thread(pc: PC, tmp: int)

  datatype State = State(room1: int, room2: int, mutex: nat, t1: nat, t2: nat, threads: seq<Thread>)

  // ns_mutex_init, with n threads that have not entered yet.
  function Init(n: nat): State {
    State(0, 0, 1, 1, 0, seq(n, i => Thread(Idle, 0)))
  }

  // Only the three semaphore waits can block.
  predicate Enabled(s: State, i: nat) {
    i < |s.threads| &&
    match s.threads[i].pc
    case WaitMutexIn => s.mutex > 0
    case WaitMutexMove => s.mutex > 0
    case WaitT1 => s.t1 > 0
    case WaitT2 => s.t2 > 0
    case _ => true
  }

  function Goto(s: State, i: nat, pc: PC): State
    requires i < |s.threads|
  {
    s.(threads := s.threads[i := Thread(pc, s.threads[i].tmp)])
  }

  function Load(s: State, i: nat, value: int, pc: PC): State
    requires i < |s.threads|
  {
    s.(threads := s.threads[i := Thread(pc, value)])
  }

  // One statement of thread i.
  function Next(s: State, i: nat): State
    requires Enabled(s, i)
  {
    var t := s.threads[i];
    match t.pc
    case Idle => Goto(s, i, WaitMutexIn)
    // acquire
    case WaitMutexIn => Goto(s, i, LoadRoom1Inc).(mutex := s.mutex - 1)
    case LoadRoom1Inc => Load(s, i, s.room1, StoreRoom1Inc)
    case StoreRoom1Inc => Goto(s, i, PostMutexIn).(room1 := t.tmp + 1)
    case PostMutexIn => Goto(s, i, WaitT1).(mutex := s.mutex + 1)
    case WaitT1 => Goto(s, i, WaitMutexMove).(t1 := s.t1 - 1)
    case WaitMutexMove => Goto(s, i, LoadRoom2Inc).(mutex := s.mutex - 1)
    case LoadRoom2Inc => Load(s, i, s.room2, StoreRoom2Inc)
    case StoreRoom2Inc => Goto(s, i, LoadRoom1Dec).(room2 := t.tmp + 1)
    case LoadRoom1Dec => Load(s, i, s.room1, StoreRoom1Dec)
    case StoreRoom1Dec => Goto(s, i, TestRoom1).(room1 := t.tmp - 1)
    case TestRoom1 => if s.room1 == 0 then Goto(s, i, PostMutexLast) else Goto(s, i, PostMutexMore)
    case PostMutexLast => Goto(s, i, PostT2Last).(mutex := s.mutex + 1)
    case PostT2Last => Goto(s, i, WaitT2).(t2 := s.t2 + 1)
    case PostMutexMore => Goto(s, i, PostT1More).(mutex := s.mutex + 1)
    case PostT1More => Goto(s, i, WaitT2).(t1 := s.t1 + 1)
    case WaitT2 => Goto(s, i, LoadRoom2Dec).(t2 := s.t2 - 1)
    case LoadRoom2Dec => Load(s, i, s.room2, StoreRoom2Dec)
    case StoreRoom2Dec => Goto(s, i, Critical).(room2 := t.tmp - 1)
    // the caller's critical section, then release
    case Critical => Goto(s, i, TestRoom2)
    case TestRoom2 => if s.room2 == 0 then Goto(s, i, PostT1Release) else Goto(s, i, PostT2Release)
    case PostT1Release => Goto(s, i, Idle).(t1 := s.t1 + 1)
    case PostT2Release => Goto(s, i, Idle).(t2 := s.t2 + 1)
  }

  // A run is the sequence of threads that move.
  ghost predicate Run(s: State, schedule: seq<nat>)
    decreases schedule
  {
    schedule == [] || (Enabled(s, schedule[0]) && Run(Next(s, schedule[0]), schedule[1..]))
  }

  ghost function After(s: State, schedule: seq<nat>): State
    requires Run(s, schedule)
    decreases schedule
  {
    if schedule == [] then s else After(Next(s, schedule[0]), schedule[1..])
  }

  // ----- Regions of the code -----

  predicate HoldsMutex(t: Thread) {
    match t.pc
    case LoadRoom1Inc | StoreRoom1Inc | PostMutexIn | LoadRoom2Inc | StoreRoom2Inc | LoadRoom1Dec
      | StoreRoom1Dec | TestRoom1 | PostMutexLast | PostMutexMore => true
    case _ => false
  }

  // Past Sem_wait on a turnstile and not yet past the post that passes the token on.
  predicate HoldsToken(t: Thread) {
    match t.pc
    case WaitMutexMove | LoadRoom2Inc | StoreRoom2Inc | LoadRoom1Dec | StoreRoom1Dec | TestRoom1
      | PostMutexLast | PostT2Last | PostMutexMore | PostT1More | LoadRoom2Dec | StoreRoom2Dec | Critical
      | TestRoom2 | PostT1Release | PostT2Release => true
    case _ => false
  }

  // Between room1++ and room1--.
  predicate InRoom1(t: Thread) {
    match t.pc
    case PostMutexIn | WaitT1 | WaitMutexMove | LoadRoom2Inc | StoreRoom2Inc | LoadRoom1Dec | StoreRoom1Dec => true
    case _ => false
  }

  // Between room2++ and room2--.
  predicate InRoom2(t: Thread) {
    match t.pc
    case LoadRoom1Dec | StoreRoom1Dec | TestRoom1 | PostMutexLast | PostT2Last | PostMutexMore | PostT1More
      | WaitT2 | LoadRoom2Dec | StoreRoom2Dec => true
    case _ => false
  }

  // ----- The split-token invariant -----

  ghost predicate Counters(s: State) {
    && s.mutex + Count(HoldsMutex, s.threads) == 1
    && s.t1 + s.t2 + Count(HoldsToken, s.threads) == 1
    && s.room1 == Count(InRoom1, s.threads)
    && s.room2 == Count(InRoom2, s.threads)
  }

  // What a thread has read, and the branch it has taken, still hold.
  ghost predicate Fresh(s: State, t: Thread) {
    && (t.pc in {StoreRoom1Inc, StoreRoom1Dec} ==> t.tmp == s.room1)
    && (t.pc in {StoreRoom2Inc, StoreRoom2Dec} ==> t.tmp == s.room2)
    && (t.pc in {PostMutexMore, PostT1More} ==> s.room1 > 0)
    && (t.pc == PostT1Release ==> s.room2 == 0)
    && (t.pc == PostT2Release ==> s.room2 > 0)
  }

  ghost predicate Inv(s: State) {
    && Counters(s)
    && (forall i :: 0 <= i < |s.threads| ==> Fresh(s, s.threads[i]))
    && (s.t1 > 0 ==> s.room1 > 0 || s.room2 == 0)
    && (s.t2 > 0 ==> s.room2 > 0)
  }

  lemma InitHolds(n: nat)
    ensures Inv(Init(n))
  {
    var s := Init(n);
    CountZero(HoldsMutex, s.threads);
    CountZero(HoldsToken, s.threads);
    CountZero(InRoom1, s.threads);
    CountZero(InRoom2, s.threads);
  }

  lemma StepCounters(s: State, i: nat)
    requires Inv(s) && Enabled(s, i)
    ensures Counters(Next(s, i))
  {
    var t, t' := s.threads[i], Next(s, i).threads[i];
    CountUpdate(HoldsMutex, s.threads, i, t');
    CountUpdate(HoldsToken, s.threads, i, t');
    CountUpdate(InRoom1, s.threads, i, t');
    CountUpdate(InRoom2, s.threads, i, t');
    StepSemaphores(s, i);
    StepRooms(s, i);
  }

  // What a step adds to a semaphore it takes from the number of threads in its region.
  lemma StepSemaphores(s: State, i: nat)
    requires Enabled(s, i)
    ensures var s' := Next(s, i);
      && |s'.threads| == |s.threads| && s'.threads == s.threads[i := s'.threads[i]]
      && s'.mutex - s.mutex == B(HoldsMutex(s.threads[i])) - B(HoldsMutex(s'.threads[i]))
      && s'.t1 + s'.t2 - s.t1 - s.t2 == B(HoldsToken(s.threads[i])) - B(HoldsToken(s'.threads[i]))
  {
  }

  lemma StepRooms(s: State, i: nat)
    requires Enabled(s, i) && Fresh(s, s.threads[i])
    ensures var s' := Next(s, i);
      && s'.room1 - s.room1 == B(InRoom1(s'.threads[i])) - B(InRoom1(s.threads[i]))
      && s'.room2 - s.room2 == B(InRoom2(s'.threads[i])) - B(InRoom2(s.threads[i]))
  {
  }

  // Every other thread is outside a region that thread i is in alone.
  lemma Exclusion(s: State, i: nat)
    requires Counters(s) && i < |s.threads|
    ensures HoldsMutex(s.threads[i]) ==>
      s.mutex == 0 && forall j :: 0 <= j < |s.threads| && j != i ==> !HoldsMutex(s.threads[j])
    ensures HoldsToken(s.threads[i]) ==>
      s.t1 == s.t2 == 0 && forall j :: 0 <= j < |s.threads| && j != i ==> !HoldsToken(s.threads[j])
    ensures s.mutex > 0 ==> !HoldsMutex(s.threads[i])
    ensures s.t1 + s.t2 > 0 ==> !HoldsToken(s.threads[i])
    ensures InRoom1(s.threads[i]) ==> s.room1 > 0
    ensures InRoom2(s.threads[i]) ==> s.room2 > 0
  {
    CountZero(HoldsMutex, s.threads);
    CountZero(HoldsToken, s.threads);
    CountZero(InRoom1, s.threads);
    CountZero(InRoom2, s.threads);
    if HoldsMutex(s.threads[i]) { AtMostOne(HoldsMutex, s.threads, i); }
    if HoldsToken(s.threads[i]) { AtMostOne(HoldsToken, s.threads, i); }
  }

  lemma StepHolds(s: State, i: nat)
    requires Inv(s) && Enabled(s, i)
    ensures Inv(Next(s, i))
  {
    StepCounters(s, i);
    var s' := Next(s, i);
    Exclusion(s, i);
    Exclusion(s', i);
    forall j | 0 <= j < |s'.threads| ensures Fresh(s', s'.threads[j]) {
      if j != i { OthersStayFresh(s, i, j); }
    }
  }

  lemma OthersStayFresh(s: State, i: nat, j: nat)
    requires Inv(s) && Enabled(s, i) && j < |s.threads| && i != j
    ensures Fresh(Next(s, i), s.threads[j])
  {
    Exclusion(s, i);
    Exclusion(s, j);
    assert Fresh(s, s.threads[i]) && Fresh(s, s.threads[j]);
  }

  lemma {:induction false} RunHolds(s: State, schedule: seq<nat>)
    requires Inv(s) && Run(s, schedule)
    ensures Inv(After(s, schedule)) && |After(s, schedule).threads| == |s.threads|
    decreases schedule
  {
    if schedule != [] {
      StepHolds(s, schedule[0]);
      RunHolds(Next(s, schedule[0]), schedule[1..]);
    }
  }

  // ----- Safety: mutual exclusion and freedom from races -----

  datatype Variable = Room1 | Room2
  datatype Access = None | Read(v: Variable) | Write(v: Variable)

  // The shared variable that the next statement of a thread touches.
  function NextAccess(t: Thread): Access {
    match t.pc
    case LoadRoom1Inc | LoadRoom1Dec | TestRoom1 => Read(Room1)
    case StoreRoom1Inc | StoreRoom1Dec => Write(Room1)
    case LoadRoom2Inc | LoadRoom2Dec | TestRoom2 => Read(Room2)
    case StoreRoom2Inc | StoreRoom2Dec => Write(Room2)
    case _ => None
  }

  predicate Conflict(a: Access, b: Access) {
    !a.None? && !b.None? && a.v == b.v && (a.Write? || b.Write?)
  }

  // Two threads are never both about to touch the same counter, whether or not they write it;
  // room2 is touched without the mutex and is still protected.
  lemma RaceFree(n: nat, schedule: seq<nat>, i: nat, j: nat)
    requires Run(Init(n), schedule) && i < n && j < n && i != j
    ensures var s := After(Init(n), schedule);
      && |s.threads| == n
      && !Conflict(NextAccess(s.threads[i]), NextAccess(s.threads[j]))
      && (NextAccess(s.threads[i]).None? || NextAccess(s.threads[i]) != NextAccess(s.threads[j]))
  {
    InitHolds(n);
    RunHolds(Init(n), schedule);
    Exclusion(After(Init(n), schedule), i);
  }

  lemma MutualExclusion(n: nat, schedule: seq<nat>, i: nat, j: nat)
    requires Run(Init(n), schedule) && i < n && j < n && i != j
    ensures var s := After(Init(n), schedule);
      && |s.threads| == n
      && !(s.threads[i].pc == Critical && s.threads[j].pc == Critical)
  {
    InitHolds(n);
    RunHolds(Init(n), schedule);
    Exclusion(After(Init(n), schedule), i);
  }

  // One token in all, counted over t1, t2 and the threads that hold it, and the rooms count heads.
  lemma SplitToken(n: nat, schedule: seq<nat>)
    requires Run(Init(n), schedule)
    ensures Counters(After(Init(n), schedule))
  {
    InitHolds(n);
    RunHolds(Init(n), schedule);
  }

  // ----- Deadlock freedom -----

  // A thread that is inside acquire or release can move.
  ghost predicate CanMove(s: State) {
    exists i :: 0 <= i < |s.threads| && s.threads[i].pc != Idle && Enabled(s, i)
  }

  // As long as some thread is inside acquire or release, one of those threads can move.
  lemma NeverStuck(n: nat, schedule: seq<nat>)
    requires Run(Init(n), schedule)
    ensures var s := After(Init(n), schedule);
      (exists i :: 0 <= i < |s.threads| && s.threads[i].pc != Idle) ==> CanMove(s)
  {
    InitHolds(n);
    RunHolds(Init(n), schedule);
    var s := After(Init(n), schedule);
    if exists i :: 0 <= i < |s.threads| && s.threads[i].pc != Idle {
      SomeoneMoves(s);
    }
  }

  lemma SomeoneMoves(s: State)
    requires Inv(s) && exists i :: 0 <= i < |s.threads| && s.threads[i].pc != Idle
    ensures CanMove(s)
  {
    CountZero(HoldsMutex, s.threads);
    CountZero(HoldsToken, s.threads);
    CountZero(InRoom1, s.threads);
    CountZero(InRoom2, s.threads);
    if s.mutex == 0 {
      var i :| 0 <= i < |s.threads| && HoldsMutex(s.threads[i]);
      assert Enabled(s, i);
    } else if s.t1 == s.t2 == 0 {
      var i :| 0 <= i < |s.threads| && HoldsToken(s.threads[i]);
      assert Enabled(s, i);
    } else {
      var i :| 0 <= i < |s.threads| && s.threads[i].pc != Idle;
      if s.t1 > 0 && s.room1 > 0 {
        var k :| 0 <= k < |s.threads| && InRoom1(s.threads[k]);
        assert Enabled(s, k);
      } else if s.t2 > 0 {
        var k :| 0 <= k < |s.threads| && InRoom2(s.threads[k]);
        assert Enabled(s, k);
      } else {
        assert !InRoom1(s.threads[i]) && !InRoom2(s.threads[i]);
        assert Enabled(s, i);
      }
    }
  }

  // ----- Bounded bypass -----

  // Queued at the first or the second turnstile: room1++ done, Sem_wait(t2) not yet passed.
  predicate Waiting(t: Thread) {
    InRoom1(t) || WaitingAtT2(t)
  }

  predicate WaitingAtT2(t: Thread) {
    InRoom2(t) && t.pc !in {LoadRoom2Dec, StoreRoom2Dec}
  }

  predicate DrainPc(t: Thread) {
    match t.pc
    case PostMutexLast | PostT2Last | LoadRoom2Dec | StoreRoom2Dec | Critical | TestRoom2 | PostT1Release
      | PostT2Release => true
    case _ => false
  }

  // The token is on the t2 side: the second room is being emptied.
  ghost predicate Draining(s: State) {
    s.t2 > 0 || exists k :: 0 <= k < |s.threads| && DrainPc(s.threads[k])
  }

  // How many times thread j can still get past Sem_wait(t2) before thread i does.
  ghost function Bypasses(s: State, i: nat, j: nat): nat
    requires i < |s.threads| && j < |s.threads|
  {
    if !Draining(s) then 1
    else (if WaitingAtT2(s.threads[j]) then 1 else 0) + (if WaitingAtT2(s.threads[i]) then 0 else 1)
  }

  function Passing(s: State, i: nat, j: nat): nat
    requires j < |s.threads|
  {
    if i == j && s.threads[j].pc == WaitT2 then 1 else 0
  }

  lemma DrainingAfter(s: State, k: nat)
    requires Inv(s) && Enabled(s, k)
    ensures var pc := s.threads[k].pc; var pc' := Next(s, k).threads[k].pc;
      && (Draining(s) && !Draining(Next(s, k)) ==> pc == PostT1Release)
      && (!Draining(s) && Draining(Next(s, k)) ==> pc == TestRoom1 && s.room1 == 0)
      && (pc == WaitT2 ==> Draining(s) && Draining(Next(s, k)))
      && (pc == StoreRoom2Inc ==> !Draining(s))
  {
    var s' := Next(s, k);
    Exclusion(s, k);
    forall j | 0 <= j < |s.threads| && j != k ensures s'.threads[j] == s.threads[j] {}
    assert s'.threads[k] == Next(s, k).threads[k];
    if Draining(s) && s.t2 == 0 {
      var d :| 0 <= d < |s.threads| && DrainPc(s.threads[d]);
      if d != k { assert DrainPc(s'.threads[d]); }
    }
    if !Draining(s) {
      assert forall j :: 0 <= j < |s.threads| ==> !DrainPc(s.threads[j]);
    }
    if DrainPc(s'.threads[k]) { assert Draining(s'); }
  }

  // A step by k never raises the number, and getting past t2 uses one up.
  lemma StepBypass(s: State, k: nat, i: nat, j: nat)
    requires Inv(s) && Enabled(s, k) && i < |s.threads| && j < |s.threads| && i != j
    requires Waiting(s.threads[i]) && Waiting(Next(s, k).threads[i])
    ensures Passing(s, k, j) + Bypasses(Next(s, k), i, j) <= Bypasses(s, i, j)
  {
    DrainingAfter(s, k);
    Exclusion(s, k);
    Exclusion(s, i);
    Exclusion(s, j);
  }

  // Thread i waits at every moment of the run.
  ghost predicate StaysWaiting(s: State, schedule: seq<nat>, i: nat)
    requires Run(s, schedule)
    decreases schedule
  {
    && i < |s.threads| && Waiting(s.threads[i])
    && (schedule != [] ==> StaysWaiting(Next(s, schedule[0]), schedule[1..], i))
  }

  // How often j gets past Sem_wait(t2) in the run.
  ghost function Passes(s: State, schedule: seq<nat>, j: nat): nat
    requires Run(s, schedule) && j < |s.threads|
    decreases schedule
  {
    if schedule == [] then 0
    else Passing(s, schedule[0], j) + Passes(Next(s, schedule[0]), schedule[1..], j)
  }

  lemma {:induction false} RunBypass(s: State, schedule: seq<nat>, i: nat, j: nat)
    requires Inv(s) && Run(s, schedule) && StaysWaiting(s, schedule, i)
    requires j < |s.threads| && i != j
    ensures Passes(s, schedule, j) <= Bypasses(s, i, j)
    decreases schedule
  {
    if schedule != [] {
      StepHolds(s, schedule[0]);
      StepBypass(s, schedule[0], i, j);
      RunBypass(Next(s, schedule[0]), schedule[1..], i, j);
    }
  }

  // In every run of any number of threads: from the moment thread i has executed room1++ and for as
  // long as it has not got past Sem_wait(t2), any other thread gets past Sem_wait(t2) at most twice.
  lemma BoundedBypass(n: nat, before: seq<nat>, during: seq<nat>, i: nat, j: nat)
    requires Run(Init(n), before) && Run(After(Init(n), before), during)
    requires StaysWaiting(After(Init(n), before), during, i)
    requires i != j && j < |After(Init(n), before).threads|
    ensures Passes(After(Init(n), before), during, j) <= 2
  {
    InitHolds(n);
    RunHolds(Init(n), before);
    RunBypass(After(Init(n), before), during, i, j);
  }

  // ----- Nobody starves -----

  // The statements that a thread executes up to and including its next pass of Sem_wait(t2).
  function StepsToPass(t: Thread): nat {
    match t.pc
    case LoadRoom2Dec => 20
    case StoreRoom2Dec => 19
    case Critical => 18
    case TestRoom2 => 17
    case PostT1Release | PostT2Release => 16
    case Idle => 15
    case WaitMutexIn => 14
    case LoadRoom1Inc => 13
    case StoreRoom1Inc => 12
    case PostMutexIn => 11
    case WaitT1 => 10
    case WaitMutexMove => 9
    case LoadRoom2Inc => 8
    case StoreRoom2Inc => 7
    case LoadRoom1Dec => 6
    case StoreRoom1Dec => 5
    case TestRoom1 => 4
    case PostMutexLast | PostMutexMore => 3
    case PostT2Last | PostT1More => 2
    case WaitT2 => 1
  }

  // The steps that thread j can still make while thread i waits.
  ghost function StepsWhileWaiting(s: State, i: nat, j: nat): nat
    requires i < |s.threads| && j < |s.threads|
  {
    StepsToPass(s.threads[j]) + if i == j then 0 else 20 * Bypasses(s, i, j)
  }

  // The steps that the first n threads can still make.
  ghost function TotalSteps(s: State, i: nat, n: nat): (r: nat)
    requires i < |s.threads| && n <= |s.threads|
    ensures r <= 60 * n
  {
    if n == 0 then 0 else TotalSteps(s, i, n - 1) + StepsWhileWaiting(s, i, n - 1)
  }

  lemma StepUsesStatement(s: State, k: nat, j: nat)
    requires Enabled(s, k) && j < |s.threads|
    ensures |Next(s, k).threads| == |s.threads|
    ensures StepsToPass(Next(s, k).threads[j])
         == StepsToPass(s.threads[j]) - (if j == k then 1 else 0) + 20 * Passing(s, k, j)
  {
  }

  lemma StepUsesOne(s: State, k: nat, i: nat, j: nat)
    requires Inv(s) && Enabled(s, k) && i < |s.threads| && j < |s.threads|
    requires Waiting(s.threads[i]) && Waiting(Next(s, k).threads[i])
    ensures |Next(s, k).threads| == |s.threads|
    ensures UsesOne(s, Next(s, k), k, i, j)
  {
    StepUsesStatement(s, k, j);
    if i != j { StepBypass(s, k, i, j); } else { WaitsOn(s, k, i); }
  }

  lemma WaitsOn(s: State, k: nat, i: nat)
    requires Enabled(s, k) && i < |s.threads| && Waiting(Next(s, k).threads[i])
    ensures Passing(s, k, i) == 0
  {
  }

  // From s to s' thread j has used up a step if it is the one that moved.
  ghost predicate UsesOne(s: State, s': State, k: nat, i: nat, j: nat)
    requires i < |s.threads| == |s'.threads| && j < |s.threads|
  {
    StepsWhileWaiting(s', i, j) + (if j == k then 1 else 0) <= StepsWhileWaiting(s, i, j)
  }

  lemma {:induction false} TotalUsesOne(s: State, s': State, k: nat, i: nat, n: nat)
    requires i < |s.threads| == |s'.threads| && n <= |s.threads|
    requires forall j :: 0 <= j < n ==> UsesOne(s, s', k, i, j)
    ensures TotalSteps(s', i, n) + (if k < n then 1 else 0) <= TotalSteps(s, i, n)
  {
    if n > 0 {
      TotalUsesOne(s, s', k, i, n - 1);
      assert UsesOne(s, s', k, i, n - 1);
    }
  }

  lemma StepUsesTotal(s: State, k: nat, i: nat)
    requires Inv(s) && Enabled(s, k) && i < |s.threads|
    requires Waiting(s.threads[i]) && Waiting(Next(s, k).threads[i])
    ensures |Next(s, k).threads| == |s.threads|
    ensures TotalSteps(Next(s, k), i, |s.threads|) + 1 <= TotalSteps(s, i, |s.threads|)
  {
    StepUsesStatement(s, k, i);
    forall j | 0 <= j < |s.threads| ensures UsesOne(s, Next(s, k), k, i, j) {
      StepUsesOne(s, k, i, j);
    }
    TotalUsesOne(s, Next(s, k), k, i, |s.threads|);
  }

  lemma {:induction false} WaitUsesTotal(s: State, schedule: seq<nat>, i: nat)
    requires Inv(s) && Run(s, schedule) && StaysWaiting(s, schedule, i)
    ensures |schedule| <= TotalSteps(s, i, |s.threads|)
    decreases schedule
  {
    if schedule != [] {
      StepHolds(s, schedule[0]);
      StepUsesTotal(s, schedule[0], i);
      WaitUsesTotal(Next(s, schedule[0]), schedule[1..], i);
    }
  }

  // Thread i gets past Sem_wait(t2) in the run.
  ghost predicate GetsIn(s: State, schedule: seq<nat>, i: nat)
    requires Run(s, schedule) && i < |s.threads|
    decreases schedule
  {
    schedule != [] && (Passing(s, schedule[0], i) == 1 || GetsIn(Next(s, schedule[0]), schedule[1..], i))
  }

  // There is no other way to stop waiting.
  lemma {:induction false} WaitsOrGetsIn(s: State, schedule: seq<nat>, i: nat)
    requires Run(s, schedule) && i < |s.threads| && Waiting(s.threads[i])
    ensures StaysWaiting(s, schedule, i) || GetsIn(s, schedule, i)
    decreases schedule
  {
    if schedule != [] && Passing(s, schedule[0], i) == 0 {
      WaitsOrGetsIn(Next(s, schedule[0]), schedule[1..], i);
    }
  }

  // Once thread i has executed room1++, it gets past Sem_wait(t2) within 60 steps for each thread, however the
  // threads are scheduled; and until then some thread inside acquire or release can move.
  lemma NobodyStarves(n: nat, before: seq<nat>, after: seq<nat>, i: nat)
    requires Run(Init(n), before) && Run(After(Init(n), before), after)
    requires i < |After(Init(n), before).threads| && Waiting(After(Init(n), before).threads[i])
    ensures var s := After(Init(n), before);
      && (|after| > 60 * n ==> GetsIn(s, after, i))
      && (!GetsIn(s, after, i) ==> CanMove(After(s, after)))
  {
    InitHolds(n);
    RunHolds(Init(n), before);
    var s := After(Init(n), before);
    RunHolds(s, after);
    WaitsOrGetsIn(s, after, i);
    if StaysWaiting(s, after, i) {
      WaitUsesTotal(s, after, i);
      WaitsAtEnd(s, after, i);
      SomeoneMoves(After(s, after));
    }
  }

  lemma {:induction false} WaitsAtEnd(s: State, schedule: seq<nat>, i: nat)
    requires Run(s, schedule) && StaysWaiting(s, schedule, i)
    ensures i < |After(s, schedule).threads| && Waiting(After(s, schedule).threads[i])
    decreases schedule
  {
    if schedule != [] {
      WaitsAtEnd(Next(s, schedule[0]), schedule[1..], i);
    }
  }
}
