// The producer/consumer program of "30-Condition Variables/main-two-cvs-while.c" and main-common.c.
module BoundedBuffer {
  // Any number of producers, one main thread that adds the end-of-stream markers once they are done, and any number of
  // consumers, under one mutex and two condition variables with Mesa semantics.

  import opened Counting
  import opened RingBuffer

  datatype Config = Config(producers: nat, consumers: nat, loops: nat, max: nat)

  // What main asserts of its arguments.
  predicate Legal(c: Config) {
    c.loops > 0 && c.max > 0
  }

  datatype Role = Producer | Consumer | Main

  // The statement that a thread executes next. Testing the condition and entering Cond_wait is one
  // step: the mutex is held throughout.
  datatype PC = Lock | Test | Asleep | Relock | Act | Signal | Unlock | JoinProducers | JoinConsumers | Done

  // n counts the iterations that the thread has finished; tmp is the consumer's last value.
  datatype Thread = Thread(role: Role, pc: PC, n: nat, tmp: int)

  // filled and taken record every value put into and taken out of the buffer, in order.
  datatype State = State(ring: Ring, mutex: nat, threads: seq<Thread>, failed: bool,
                         filled: seq<int>, taken: seq<int>)

  // Threads 0.. are the producers, then come the consumers, then main.
  function RoleOf(c: Config, i: nat): Role {
    if i < c.producers then Producer else if i < c.producers + c.consumers then Consumer else Main
  }

  function MainIndex(c: Config): nat {
    c.producers + c.consumers
  }

  function Init(c: Config): State {
    var start := i requires 0 <= i < MainIndex(c) + 1 =>
      Thread(RoleOf(c, i), if RoleOf(c, i).Main? then JoinProducers else Lock, 0, 0);
    State(EmptyRing(c.max), 1, seq(MainIndex(c) + 1, start), false, [], [])
  }

  // One step of thread i; if it is a signal, it wakes sleeper, of those that wait. Or a spurious wakeup of i.
  datatype Move = Step(i: nat, sleeper: nat) | Spurious(i: nat)

  predicate Filler(t: Thread) {
    !t.role.Consumer?
  }

  // Producers and main sleep on the condition empty, consumers on fill.
  predicate SleepsOnEmpty(t: Thread) {
    t.pc.Asleep? && Filler(t)
  }

  predicate SleepsOnFill(t: Thread) {
    t.pc.Asleep? && !Filler(t)
  }

  // t is about to signal; u waits on the condition that it signals.
  predicate Wakes(t: Thread, u: Thread) {
    u.pc.Asleep? && Filler(t) != Filler(u)
  }

  predicate Enabled(c: Config, s: State, m: Move) {
    && m.i < |s.threads| && !s.failed
    && var t := s.threads[m.i];
      if m.Spurious? then t.pc.Asleep?
      else match t.pc
        case Lock => s.mutex > 0
        case Relock => s.mutex > 0
        case Asleep => false
        case Done => false
        case Signal =>
          (m.sleeper < |s.threads| && Wakes(t, s.threads[m.sleeper]))
          || forall j :: 0 <= j < |s.threads| ==> !Wakes(t, s.threads[j])
        case JoinProducers => t.n < c.producers && t.n < |s.threads| ==> s.threads[t.n].pc.Done?
        case JoinConsumers =>
          t.n < c.consumers && c.producers + t.n < |s.threads| ==> s.threads[c.producers + t.n].pc.Done?
        case _ => true
  }

  // The while condition: the buffer is full, or empty for a consumer.
  predicate MustWait(c: Config, s: State, t: Thread) {
    if Filler(t) then s.ring.numFull == c.max else s.ring.numFull == 0
  }

  // base + i of producer p.
  function Item(c: Config, p: nat, i: nat): nat {
    p * c.loops + i
  }

  function Value(c: Config, i: nat, t: Thread): int {
    if t.role.Main? then END_OF_STREAM else Item(c, i, t.n)
  }

  function Goto(s: State, i: nat, pc: PC): State
    requires i < |s.threads|
  {
    s.(threads := s.threads[i := s.threads[i].(pc := pc)])
  }

  // What follows the loop body: the loop condition, and for main the step from one loop to the next.
  function EndOfLoop(c: Config, t: Thread): Thread {
    match t.role
    case Producer => t.(n := t.n + 1, pc := if t.n + 1 < c.loops then Lock else Done)
    case Consumer => t.(n := t.n + 1, pc := if t.tmp != END_OF_STREAM then Lock else Done)
    case Main => if t.n + 1 < c.consumers then t.(n := t.n + 1, pc := Lock) else t.(n := 0, pc := JoinConsumers)
  }

  // do_fill or do_get; the check before it ends the program if it fails.
  function Access(c: Config, s: State, i: nat): State
    requires i < |s.threads| && s.ring.usePtr < |s.ring.buffer| && s.ring.fillPtr < |s.ring.buffer|
  {
    var t := s.threads[i];
    if Filler(t) then
      if s.ring.buffer[s.ring.fillPtr] != EMPTY then s.(failed := true)
      else
        Goto(s, i, Signal).(ring := Fill(s.ring, Value(c, i, t)), filled := s.filled + [Value(c, i, t)])
    else
      var tmp := s.ring.buffer[s.ring.usePtr];
      if tmp == EMPTY then s.(failed := true)
      else
        s.(threads := s.threads[i := t.(pc := Signal, tmp := tmp)], ring := Get(s.ring), taken := s.taken + [tmp])
  }

  ghost predicate Sane(s: State) {
    s.ring.usePtr < |s.ring.buffer| && s.ring.fillPtr < |s.ring.buffer|
  }

  function Next(c: Config, s: State, m: Move): State
    requires Enabled(c, s, m) && Sane(s)
  {
    var t := s.threads[m.i];
    if m.Spurious? then Goto(s, m.i, Relock)
    else match t.pc
      case Lock => Goto(s, m.i, Test).(mutex := s.mutex - 1)
      case Relock => Goto(s, m.i, Test).(mutex := s.mutex - 1)
      case Test =>
        if MustWait(c, s, t) then Goto(s, m.i, Asleep).(mutex := s.mutex + 1)
        else Goto(s, m.i, Act)
      case Act => Access(c, s, m.i)
      case Signal =>
        var woken :=
          if m.sleeper < |s.threads| && Wakes(t, s.threads[m.sleeper]) then Goto(s, m.sleeper, Relock) else s;
        Goto(woken, m.i, Unlock)
      case Unlock => s.(mutex := s.mutex + 1, threads := s.threads[m.i := EndOfLoop(c, t)])
      case JoinProducers =>
        if t.n < c.producers then s.(threads := s.threads[m.i := t.(n := t.n + 1)])
        else s.(threads := s.threads[m.i := t.(n := 0, pc := if c.consumers > 0 then Lock else JoinConsumers)])
      case JoinConsumers =>
        if t.n < c.consumers then s.(threads := s.threads[m.i := t.(n := t.n + 1)])
        else Goto(s, m.i, Done)
      case _ => s
  }

  // ----- Invariants, in the order in which they build on one another -----

  predicate HoldsMutex(t: Thread) {
    match t.pc
    case Test | Act | Signal | Unlock => true
    case _ => false
  }

  // What is known of one thread by itself.
  ghost predicate ThreadOk(c: Config, t: Thread) {
    match t.role
    case Producer => t.n <= c.loops && !t.pc.JoinProducers? && !t.pc.JoinConsumers? && (t.pc.Done? <==> t.n == c.loops)
    case Consumer =>
      && !t.pc.JoinProducers? && !t.pc.JoinConsumers?
      && (if t.pc.Signal? || t.pc.Unlock? then true else t.pc.Done? <==> t.tmp == END_OF_STREAM)
    case Main =>
      match t.pc
      case JoinProducers => t.n <= c.producers
      case JoinConsumers => t.n <= c.consumers
      case Done => true
      case _ => t.n < c.consumers
  }

  ghost predicate Layout(c: Config, s: State) {
    && |s.threads| == MainIndex(c) + 1
    && forall i :: 0 <= i < |s.threads| ==> s.threads[i].role == RoleOf(c, i) && ThreadOk(c, s.threads[i])
  }

  ghost predicate Locking(s: State) {
    s.mutex + Count(HoldsMutex, s.threads) == 1
  }

  // Neither check has failed, and the buffer is a first-in first-out queue.
  ghost predicate Queue(c: Config, s: State) {
    && Legal(c) && Valid(s.ring, c.max) && !s.failed
    && s.filled == s.taken + Contents(s.ring)
  }

  // Whoever is about to access the buffer may do so.
  ghost predicate Ready(c: Config, s: State) {
    forall i :: 0 <= i < |s.threads| && s.threads[i].pc.Act? ==> !MustWait(c, s, s.threads[i])
  }

  ghost predicate Safe(c: Config, s: State) {
    Layout(c, s) && Locking(s) && Queue(c, s) && Ready(c, s)
  }

  lemma InitSafe(c: Config)
    requires Legal(c)
    ensures Safe(c, Init(c))
  {
    CountZero(HoldsMutex, Init(c).threads);
  }

  lemma OnlyHolder(s: State, i: nat)
    requires s.mutex + Count(HoldsMutex, s.threads) == 1 && i < |s.threads|
    ensures HoldsMutex(s.threads[i]) ==>
      s.mutex == 0 && forall j :: 0 <= j < |s.threads| && j != i ==> !HoldsMutex(s.threads[j])
    ensures s.mutex > 0 ==> !HoldsMutex(s.threads[i])
  {
    CountZero(HoldsMutex, s.threads);
    if HoldsMutex(s.threads[i]) { AtMostOne(HoldsMutex, s.threads, i); }
  }

  // The access step: neither check fails, and the queue moves by one value at one end.
  lemma AccessMovesQueue(c: Config, s: State, i: nat)
    requires Queue(c, s) && i < |s.threads| && !MustWait(c, s, s.threads[i])
    ensures var s', t := Access(c, s, i), s.threads[i];
      && Queue(c, s') && s'.mutex == s.mutex
      && s'.threads == s.threads[i := t.(pc := Signal, tmp := s'.threads[i].tmp)]
      && s'.ring.numFull == s.ring.numFull + (if Filler(t) then 1 else -1)
      && s'.filled == s.filled + (if Filler(t) then [Value(c, i, t)] else [])
      && s'.taken == s.taken + (if Filler(t) then [] else [s'.threads[i].tmp])
      && (Filler(t) ==> s'.threads[i].tmp == t.tmp)
  {
    var t := s.threads[i];
    if Filler(t) {
      FillAppends(s.ring, c.max, Value(c, i, t));
      assert s.taken + (Contents(s.ring) + [Value(c, i, t)]) == s.taken + Contents(s.ring) + [Value(c, i, t)];
    } else {
      GetTakesHead(s.ring, c.max);
      var s' := Access(c, s, i);
      assert s.taken + ([s'.threads[i].tmp] + Contents(s'.ring)) == s.taken + [s'.threads[i].tmp] + Contents(s'.ring);
    }
  }

  // The step is a signal that finds the sleeper it names.
  predicate WakesOne(s: State, m: Move) {
    && m.Step? && m.i < |s.threads| && s.threads[m.i].pc.Signal?
    && m.sleeper < |s.threads| && Wakes(s.threads[m.i], s.threads[m.sleeper])
  }

  // A step changes one thread, or two if it is a signal that finds a sleeper.
  lemma StepThreads(c: Config, s: State, m: Move)
    requires Enabled(c, s, m) && Sane(s)
    ensures var s', t := Next(c, s, m), s.threads[m.i];
      && |s'.threads| == |s.threads| && s'.threads[m.i].role == t.role
      && (if WakesOne(s, m)
          then
            && m.sleeper != m.i
            && s'.threads == s.threads[m.sleeper := s.threads[m.sleeper].(pc := Relock)][m.i := t.(pc := Unlock)]
          else s'.threads == s.threads[m.i := s'.threads[m.i]])
  {
  }

  // A step other than an access leaves the buffer alone.
  lemma OtherSteps(c: Config, s: State, m: Move)
    requires Enabled(c, s, m) && Sane(s) && (m.Spurious? || !s.threads[m.i].pc.Act?)
    ensures var s' := Next(c, s, m);
      s'.ring == s.ring && s'.filled == s.filled && s'.taken == s.taken && s'.failed == s.failed
  {
  }

  // What a step does to the number of threads with a property.
  lemma StepCount(p: Thread -> bool, c: Config, s: State, m: Move)
    requires Enabled(c, s, m) && Sane(s)
    ensures var s' := Next(c, s, m);
      && |s'.threads| == |s.threads|
      && Count(p, s'.threads) == Count(p, s.threads) + B(p(s'.threads[m.i])) - B(p(s.threads[m.i]))
          + (if WakesOne(s, m) then B(p(s.threads[m.sleeper].(pc := Relock))) - B(p(s.threads[m.sleeper])) else 0)
  {
    StepThreads(c, s, m);
    var s' := Next(c, s, m);
    if WakesOne(s, m) {
      var woken := s.threads[m.sleeper := s.threads[m.sleeper].(pc := Relock)];
      CountUpdate(p, s.threads, m.sleeper, woken[m.sleeper]);
      CountUpdate(p, woken, m.i, s'.threads[m.i]);
    } else {
      CountUpdate(p, s.threads, m.i, s'.threads[m.i]);
    }
  }

  lemma StepThreadOk(c: Config, s: State, m: Move)
    requires Enabled(c, s, m) && Sane(s) && ThreadOk(c, s.threads[m.i]) && (m.Spurious? || !s.threads[m.i].pc.Act?)
    ensures |Next(c, s, m).threads| == |s.threads| && ThreadOk(c, Next(c, s, m).threads[m.i])
  {
  }

  lemma StepLayout(c: Config, s: State, m: Move)
    requires Safe(c, s) && Enabled(c, s, m)
    ensures Layout(c, Next(c, s, m))
  {
    StepThreads(c, s, m);
    assert ThreadOk(c, s.threads[m.i]);
    if m.Step? && s.threads[m.i].pc.Act? {
      AccessMovesQueue(c, s, m.i);
    } else {
      StepThreadOk(c, s, m);
    }
    var s' := Next(c, s, m);
    forall j | 0 <= j < |s'.threads| ensures s'.threads[j].role == RoleOf(c, j) && ThreadOk(c, s'.threads[j]) {
      if j != m.i {
        assert s'.threads[j] == s.threads[j] ||
          (s.threads[j].pc.Asleep? && s'.threads[j] == s.threads[j].(pc := Relock));
      }
    }
  }

  lemma StepMutex(c: Config, s: State, m: Move)
    requires Enabled(c, s, m) && Sane(s) && !Next(c, s, m).failed
    ensures var s' := Next(c, s, m);
      && |s'.threads| == |s.threads|
      && s'.mutex - s.mutex == B(HoldsMutex(s.threads[m.i])) - B(HoldsMutex(s'.threads[m.i]))
  {
  }

  lemma StepLocking(c: Config, s: State, m: Move)
    requires Safe(c, s) && Enabled(c, s, m) && !Next(c, s, m).failed
    ensures Locking(Next(c, s, m))
  {
    StepMutex(c, s, m);
    StepCount(HoldsMutex, c, s, m);
  }

  lemma StepReady(c: Config, s: State, m: Move, j: nat)
    requires Safe(c, s) && Enabled(c, s, m) && j < |s.threads|
    requires |Next(c, s, m).threads| == |s.threads| && Next(c, s, m).threads[j].pc.Act?
    ensures !MustWait(c, Next(c, s, m), Next(c, s, m).threads[j])
  {
    if m.Step? && s.threads[m.i].pc.Act? {
      OnlyHolder(s, m.i);
      AccessMovesQueue(c, s, m.i);
    } else {
      OtherSteps(c, s, m);
    }
  }

  lemma StepSafe(c: Config, s: State, m: Move)
    requires Safe(c, s) && Enabled(c, s, m)
    ensures Safe(c, Next(c, s, m))
  {
    if m.Step? && s.threads[m.i].pc.Act? {
      AccessMovesQueue(c, s, m.i);
    } else {
      OtherSteps(c, s, m);
    }
    StepLocking(c, s, m);
    StepLayout(c, s, m);
    var s' := Next(c, s, m);
    forall j | 0 <= j < |s'.threads| && s'.threads[j].pc.Act? ensures !MustWait(c, s', s'.threads[j]) {
      StepReady(c, s, m, j);
    }
  }

  // ----- No wakeup is lost -----

  // Up and on its way to the buffer: what it was woken for is still to be had.
  predicate AwakeFiller(t: Thread) {
    Filler(t) && (t.pc.Relock? || t.pc.Test? || t.pc.Act?)
  }

  predicate AwakeGetter(t: Thread) {
    !Filler(t) && (t.pc.Relock? || t.pc.Test? || t.pc.Act?)
  }

  predicate SignalsFill(t: Thread) {
    t.pc.Signal? && Filler(t)
  }

  predicate SignalsEmpty(t: Thread) {
    t.pc.Signal? && !Filler(t)
  }

  // While a consumer sleeps there are no more values than consumers on their way and pending signals;
  // while a producer or main sleeps, no more free slots.
  ghost predicate NoLostWakeup(c: Config, s: State) {
    && (Count(SleepsOnFill, s.threads) > 0 ==>
          s.ring.numFull <= Count(AwakeGetter, s.threads) + Count(SignalsFill, s.threads))
    && (Count(SleepsOnEmpty, s.threads) > 0 ==>
          c.max - s.ring.numFull <= Count(AwakeFiller, s.threads) + Count(SignalsEmpty, s.threads))
  }

  lemma StepFill(c: Config, s: State, m: Move)
    requires Safe(c, s) && Enabled(c, s, m) && NoLostWakeup(c, s)
    ensures var s' := Next(c, s, m);
      Count(SleepsOnFill, s'.threads) > 0 ==>
        s'.ring.numFull <= Count(AwakeGetter, s'.threads) + Count(SignalsFill, s'.threads)
  {
    StepCount(SleepsOnFill, c, s, m);
    StepCount(AwakeGetter, c, s, m);
    StepCount(SignalsFill, c, s, m);
    StepThreads(c, s, m);
    if m.Step? && s.threads[m.i].pc.Act? {
      AccessMovesQueue(c, s, m.i);
    } else {
      OtherSteps(c, s, m);
      CountZero(SleepsOnFill, s.threads);
    }
  }

  lemma StepEmpty(c: Config, s: State, m: Move)
    requires Safe(c, s) && Enabled(c, s, m) && NoLostWakeup(c, s)
    ensures var s' := Next(c, s, m);
      Count(SleepsOnEmpty, s'.threads) > 0 ==>
        c.max - s'.ring.numFull <= Count(AwakeFiller, s'.threads) + Count(SignalsEmpty, s'.threads)
  {
    StepCount(SleepsOnEmpty, c, s, m);
    StepCount(AwakeFiller, c, s, m);
    StepCount(SignalsEmpty, c, s, m);
    StepThreads(c, s, m);
    if m.Step? && s.threads[m.i].pc.Act? {
      AccessMovesQueue(c, s, m.i);
    } else {
      OtherSteps(c, s, m);
      CountZero(SleepsOnEmpty, s.threads);
    }
  }

  // ----- What has been put in and taken out -----

  predicate IsEnd(v: int) {
    v == END_OF_STREAM
  }

  predicate TookEnd(t: Thread) {
    t.role.Consumer? && t.tmp == END_OF_STREAM
  }

  predicate AfterAccess(t: Thread) {
    t.pc.Signal? || t.pc.Unlock?
  }

  // Values that a producer has put in, and that a consumer has taken out.
  function PutBy(t: Thread): int {
    if t.role.Producer? then t.n + B(AfterAccess(t)) else 0
  }

  function TakenBy(t: Thread): int {
    if t.role.Consumer? then t.n + B(AfterAccess(t)) else 0
  }

  // Markers that main has put in.
  function MarkersBy(c: Config, t: Thread): int {
    match t.pc
    case JoinProducers => 0
    case JoinConsumers => c.consumers
    case Done => c.consumers
    case _ => t.n + B(AfterAccess(t))
  }

  // Main has joined the threads it says it has.
  ghost predicate Joined(c: Config, s: State)
    requires |s.threads| == MainIndex(c) + 1
  {
    var main := s.threads[MainIndex(c)];
    && (forall p :: 0 <= p < c.producers && (!main.pc.JoinProducers? || p < main.n) ==> s.threads[p].pc.Done?)
    && (main.pc.JoinConsumers? ==>
          forall k :: c.producers <= k < MainIndex(c) && k < c.producers + main.n ==> s.threads[k].pc.Done?)
    && (main.pc.Done? ==> forall k :: c.producers <= k < MainIndex(c) ==> s.threads[k].pc.Done?)
  }

  // The markers come last, main has put in the ones it has, and every consumer keeps the one it takes.
  ghost predicate Markers(c: Config, s: State)
    requires |s.threads| == MainIndex(c) + 1
  {
    && (forall i, j :: 0 <= i < j < |s.filled| && s.filled[i] == END_OF_STREAM ==> s.filled[j] == END_OF_STREAM)
    && Count(IsEnd, s.filled) == MarkersBy(c, s.threads[MainIndex(c)])
    && Count(IsEnd, s.taken) == Count(TookEnd, s.threads)
  }

  ghost predicate Lengths(s: State) {
    && |s.filled| == Sum(PutBy, s.threads) + Count(IsEnd, s.filled)
    && |s.taken| == Sum(TakenBy, s.threads)
  }

  // The i-th value of producer p has been put in once if p is past it, and otherwise not at all.
  ghost predicate PutOnce(c: Config, s: State)
    requires |s.threads| == MainIndex(c) + 1
  {
    forall p: nat, i: nat :: p < c.producers && i < c.loops ==>
      multiset(s.filled)[Item(c, p, i)] == B(i < PutBy(s.threads[p]))
  }

  // Nothing else has been put in.
  ghost predicate OnlyItems(c: Config, s: State) {
    forall k :: 0 <= k < |s.filled| ==> s.filled[k] == END_OF_STREAM || 0 <= s.filled[k] < c.producers * c.loops
  }

  ghost predicate Stream(c: Config, s: State)
    requires |s.threads| == MainIndex(c) + 1
  {
    Joined(c, s) && Markers(c, s) && Lengths(s) && PutOnce(c, s) && OnlyItems(c, s)
  }

  lemma StepSum(f: Thread -> int, c: Config, s: State, m: Move)
    requires Enabled(c, s, m) && Sane(s)
    ensures var s' := Next(c, s, m);
      && |s'.threads| == |s.threads|
      && Sum(f, s'.threads) == Sum(f, s.threads) + f(s'.threads[m.i]) - f(s.threads[m.i])
          + (if WakesOne(s, m) then f(s.threads[m.sleeper].(pc := Relock)) - f(s.threads[m.sleeper]) else 0)
  {
    StepThreads(c, s, m);
    var s' := Next(c, s, m);
    if WakesOne(s, m) {
      var woken := s.threads[m.sleeper := s.threads[m.sleeper].(pc := Relock)];
      SumUpdate(f, s.threads, m.sleeper, woken[m.sleeper]);
      SumUpdate(f, woken, m.i, s'.threads[m.i]);
    } else {
      SumUpdate(f, s.threads, m.i, s'.threads[m.i]);
    }
  }

  predicate Accesses(s: State, m: Move) {
    m.Step? && m.i < |s.threads| && s.threads[m.i].pc.Act?
  }

  // Only an access puts in or takes out a value, and it goes to the account of the thread.
  lemma StepAccounts(c: Config, s: State, m: Move)
    requires Safe(c, s) && Enabled(c, s, m)
    ensures var s', t, access := Next(c, s, m), s.threads[m.i], Accesses(s, m);
      && |s'.threads| == |s.threads|
      && PutBy(s'.threads[m.i]) == PutBy(t) + B(access && t.role.Producer?)
      && TakenBy(s'.threads[m.i]) == TakenBy(t) + B(access && t.role.Consumer?)
      && (t.role.Main? ==> MarkersBy(c, s'.threads[m.i]) == MarkersBy(c, t) + B(access))
      && (if access && t.role.Consumer? then !TookEnd(t) else TookEnd(s'.threads[m.i]) == TookEnd(t))
  {
    assert ThreadOk(c, s.threads[m.i]);
    if Accesses(s, m) {
      AccessMovesQueue(c, s, m.i);
    } else {
      StepNoAccount(c, s, m);
    }
  }

  lemma StepNoAccount(c: Config, s: State, m: Move)
    requires Sane(s) && Enabled(c, s, m) && ThreadOk(c, s.threads[m.i]) && !Accesses(s, m)
    ensures var s', t := Next(c, s, m), s.threads[m.i];
      && |s'.threads| == |s.threads|
      && PutBy(s'.threads[m.i]) == PutBy(t) && TakenBy(s'.threads[m.i]) == TakenBy(t)
      && (t.role.Main? ==> MarkersBy(c, s'.threads[m.i]) == MarkersBy(c, t))
      && TookEnd(s'.threads[m.i]) == TookEnd(t)
  {
  }

  lemma StepQueue(c: Config, s: State, m: Move)
    requires Safe(c, s) && Enabled(c, s, m)
    ensures var s', t, access := Next(c, s, m), s.threads[m.i], Accesses(s, m);
      && |s'.threads| == |s.threads|
      && s'.filled == s.filled + (if access && Filler(t) then [Value(c, m.i, t)] else [])
      && s'.taken == s.taken + (if access && !Filler(t) then [s'.threads[m.i].tmp] else [])
  {
    if Accesses(s, m) {
      AccessMovesQueue(c, s, m.i);
    } else {
      OtherSteps(c, s, m);
    }
  }

  // The other threads' accounts stay.
  lemma StepOthers(c: Config, s: State, m: Move, j: nat)
    requires Sane(s) && Enabled(c, s, m) && j < |s.threads| && j != m.i
    ensures var s' := Next(c, s, m);
      && |s'.threads| == |s.threads| && s'.threads[j] in {s.threads[j], s.threads[j].(pc := Relock)}
      && (s'.threads[j] != s.threads[j] ==> s.threads[j].pc.Asleep?)
  {
    StepThreads(c, s, m);
  }

  lemma DoneStaysDone(c: Config, s: State, m: Move, j: nat)
    requires Sane(s) && Enabled(c, s, m) && j < |s.threads| && s.threads[j].pc.Done?
    ensures |Next(c, s, m).threads| == |s.threads| && Next(c, s, m).threads[j] == s.threads[j]
  {
    StepThreads(c, s, m);
  }

  // Main goes on from one loop to the next, and counts a join only once the thread is done.
  ghost predicate MainGoesOn(c: Config, s: State, s': State)
    requires |s'.threads| == |s.threads| == MainIndex(c) + 1
  {
    var main, main' := s.threads[MainIndex(c)], s'.threads[MainIndex(c)];
    && (main'.pc.JoinProducers? ==>
          && main.pc.JoinProducers? && main.n <= main'.n <= main.n + 1
          && (main.n < main'.n && main.n < c.producers ==> s.threads[main.n].pc.Done?))
    && (main.pc.JoinProducers? && !main'.pc.JoinProducers? ==> main.n == c.producers)
    && (main'.pc.JoinConsumers? ==>
          if main.pc.JoinConsumers? then
            && main.n <= main'.n <= main.n + 1
            && (main.n < main'.n && main.n < c.consumers ==> s.threads[c.producers + main.n].pc.Done?)
          else main'.n == 0)
    && (main'.pc.Done? ==> main.pc.Done? || (main.pc.JoinConsumers? && main.n == c.consumers))
  }

  lemma StepMain(c: Config, s: State, m: Move)
    requires Safe(c, s) && Enabled(c, s, m)
    ensures |Next(c, s, m).threads| == |s.threads| && MainGoesOn(c, s, Next(c, s, m))
  {
    StepThreads(c, s, m);
    assert ThreadOk(c, s.threads[MainIndex(c)]);
    if Accesses(s, m) {
      AccessMovesQueue(c, s, m.i);
    }
  }

  lemma JoinedKept(c: Config, s: State, s': State)
    requires |s'.threads| == |s.threads| == MainIndex(c) + 1 && MainGoesOn(c, s, s') && Joined(c, s)
    requires forall j :: 0 <= j < |s.threads| && s.threads[j].pc.Done? ==> s'.threads[j].pc.Done?
    ensures Joined(c, s')
  {
  }

  lemma StepJoined(c: Config, s: State, m: Move)
    requires Safe(c, s) && Enabled(c, s, m) && Joined(c, s)
    ensures |Next(c, s, m).threads| == |s.threads| && Joined(c, Next(c, s, m))
  {
    StepMain(c, s, m);
    forall j | 0 <= j < |s.threads| && s.threads[j].pc.Done? ensures Next(c, s, m).threads[j].pc.Done? {
      DoneStaysDone(c, s, m, j);
    }
    JoinedKept(c, s, Next(c, s, m));
  }

  lemma StepLengths(c: Config, s: State, m: Move)
    requires Safe(c, s) && Enabled(c, s, m) && Lengths(s)
    ensures Lengths(Next(c, s, m))
  {
    StepAccounts(c, s, m);
    StepQueue(c, s, m);
    StepSum(PutBy, c, s, m);
    StepSum(TakenBy, c, s, m);
    CountAppend(IsEnd, s.filled,
      if Accesses(s, m) && Filler(s.threads[m.i]) then [Value(c, m.i, s.threads[m.i])] else []);
  }

  // A producer that is not done keeps main from adding a marker.
  lemma NoMarkerYet(c: Config, s: State, p: nat)
    requires Layout(c, s) && Joined(c, s) && Markers(c, s) && p < c.producers && !s.threads[p].pc.Done?
    ensures forall i :: 0 <= i < |s.filled| ==> s.filled[i] != END_OF_STREAM
  {
    CountZero(IsEnd, s.filled);
  }

  lemma MarkersLast(c: Config, s: State, m: Move)
    requires Safe(c, s) && Enabled(c, s, m) && Joined(c, s) && Markers(c, s)
    ensures var filled := Next(c, s, m).filled;
      forall i, j :: 0 <= i < j < |filled| && filled[i] == END_OF_STREAM ==> filled[j] == END_OF_STREAM
  {
    StepQueue(c, s, m);
    if Accesses(s, m) && s.threads[m.i].role.Producer? {
      NoMarkerYet(c, s, m.i);
    }
  }

  lemma MarkersCounted(c: Config, s: State, m: Move)
    requires Safe(c, s) && Enabled(c, s, m) && Markers(c, s)
    ensures var s' := Next(c, s, m);
      && |s'.threads| == |s.threads|
      && Count(IsEnd, s'.filled) == MarkersBy(c, s'.threads[MainIndex(c)])
  {
    StepQueue(c, s, m);
    StepAccounts(c, s, m);
    CountAppend(IsEnd, s.filled,
      if Accesses(s, m) && Filler(s.threads[m.i]) then [Value(c, m.i, s.threads[m.i])] else []);
    if m.i != MainIndex(c) { StepOthers(c, s, m, MainIndex(c)); }
  }

  lemma MarkersKept(c: Config, s: State, m: Move)
    requires Safe(c, s) && Enabled(c, s, m) && Markers(c, s)
    ensures var s' := Next(c, s, m);
      && |s'.threads| == |s.threads|
      && Count(IsEnd, s'.taken) == Count(TookEnd, s'.threads)
  {
    StepQueue(c, s, m);
    StepAccounts(c, s, m);
    StepCount(TookEnd, c, s, m);
    StepThreads(c, s, m);
    CountAppend(IsEnd, s.taken,
      if Accesses(s, m) && !Filler(s.threads[m.i]) then [Next(c, s, m).threads[m.i].tmp] else []);
  }

  // Different producers, or different iterations of one, put in different values.
  lemma ItemsDiffer(c: Config, p: nat, i: nat, p': nat, i': nat)
    requires i < c.loops && i' < c.loops && Item(c, p, i) == Item(c, p', i')
    ensures p == p' && i == i'
  {
    if p < p' { Distance(p, p', c.loops); }
    if p' < p { Distance(p', p, c.loops); }
  }

  lemma Distance(p: nat, p': nat, loops: nat)
    requires p < p'
    ensures p * loops + loops <= p' * loops
  {
    var d := p' - p - 1;
    assert p' * loops == p * loops + loops + d * loops;
  }

  lemma StepPutOnce(c: Config, s: State, m: Move)
    requires Safe(c, s) && Enabled(c, s, m) && PutOnce(c, s)
    ensures |Next(c, s, m).threads| == |s.threads| && PutOnce(c, Next(c, s, m))
  {
    StepQueue(c, s, m);
    StepAccounts(c, s, m);
    var t, s' := s.threads[m.i], Next(c, s, m);
    forall p: nat, i: nat | p < c.producers && i < c.loops
      ensures multiset(s'.filled)[Item(c, p, i)] == B(i < PutBy(s'.threads[p]))
    {
      ItemPutOnce(c, s, m, p, i);
    }
  }

  lemma ItemPutOnce(c: Config, s: State, m: Move, p: nat, i: nat)
    requires Safe(c, s) && Enabled(c, s, m) && PutOnce(c, s) && p < c.producers && i < c.loops
    ensures var s' := Next(c, s, m);
      && |s'.threads| == |s.threads|
      && multiset(s'.filled)[Item(c, p, i)] == B(i < PutBy(s'.threads[p]))
  {
    StepQueue(c, s, m);
    StepAccounts(c, s, m);
    var t := s.threads[m.i];
    assert ThreadOk(c, t);
    assert multiset(s.filled)[Item(c, p, i)] == B(i < PutBy(s.threads[p]));
    if m.i != p { StepOthers(c, s, m, p); }
    if Accesses(s, m) && Filler(t) {
      var v := Value(c, m.i, t);
      assert multiset(s.filled + [v]) == multiset(s.filled) + multiset{v};
      if v == Item(c, p, i) { ItemsDiffer(c, p, i, m.i, t.n); }
    }
  }

  lemma StepOnlyItems(c: Config, s: State, m: Move)
    requires Safe(c, s) && Enabled(c, s, m) && OnlyItems(c, s)
    ensures OnlyItems(c, Next(c, s, m))
  {
    StepQueue(c, s, m);
    if Accesses(s, m) && s.threads[m.i].role.Producer? {
      assert ThreadOk(c, s.threads[m.i]);
      Distance(m.i, c.producers, c.loops);
    }
  }

  lemma StepStream(c: Config, s: State, m: Move)
    requires Safe(c, s) && Enabled(c, s, m) && Stream(c, s)
    ensures |Next(c, s, m).threads| == |s.threads| && Stream(c, Next(c, s, m))
  {
    StepJoined(c, s, m);
    StepLengths(c, s, m);
    MarkersLast(c, s, m);
    MarkersCounted(c, s, m);
    MarkersKept(c, s, m);
    StepPutOnce(c, s, m);
    StepOnlyItems(c, s, m);
  }

  // ----- All invariants together -----

  ghost predicate Inv(c: Config, s: State) {
    Safe(c, s) && NoLostWakeup(c, s) && Stream(c, s)
  }

  lemma StepHolds(c: Config, s: State, m: Move)
    requires Inv(c, s) && Enabled(c, s, m)
    ensures Inv(c, Next(c, s, m))
  {
    StepSafe(c, s, m);
    StepFill(c, s, m);
    StepEmpty(c, s, m);
    StepStream(c, s, m);
  }

  lemma InitHolds(c: Config)
    requires Legal(c)
    ensures Inv(c, Init(c))
  {
    var s := Init(c);
    InitSafe(c);
    CountZero(SleepsOnFill, s.threads);
    CountZero(SleepsOnEmpty, s.threads);
    CountZero(TookEnd, s.threads);
    SumZero(PutBy, s.threads);
    SumZero(TakenBy, s.threads);
  }

  // A run is the sequence of moves made. Sane, which Next needs, holds in every state that is reached.
  ghost predicate Run(c: Config, s: State, moves: seq<Move>)
    decreases moves
  {
    Sane(s) && (moves == [] || (Enabled(c, s, moves[0]) && Run(c, Next(c, s, moves[0]), moves[1..])))
  }

  ghost function After(c: Config, s: State, moves: seq<Move>): State
    requires Run(c, s, moves)
    decreases moves
  {
    if moves == [] then s else After(c, Next(c, s, moves[0]), moves[1..])
  }

  lemma {:induction false} RunHolds(c: Config, s: State, moves: seq<Move>)
    requires Inv(c, s) && Run(c, s, moves)
    ensures Inv(c, After(c, s, moves))
    decreases moves
  {
    if moves != [] {
      StepHolds(c, s, moves[0]);
      RunHolds(c, Next(c, s, moves[0]), moves[1..]);
    }
  }

  // After any run, spurious wakeups included: neither check has failed, and what has been taken out is
  // what was put in, in that order, up to the at most max values still in the buffer.
  lemma FifoDelivery(c: Config, moves: seq<Move>)
    requires Legal(c) && Run(c, Init(c), moves)
    ensures var s := After(c, Init(c), moves);
      && !s.failed && Valid(s.ring, c.max) && |Contents(s.ring)| <= c.max
      && s.filled == s.taken + Contents(s.ring)
      && (forall i, j :: 0 <= i < j < |s.filled| && s.filled[i] == END_OF_STREAM ==> s.filled[j] == END_OF_STREAM)
  {
    InitHolds(c);
    RunHolds(c, Init(c), moves);
  }

  // ----- Never stuck -----

  ghost predicate Finished(s: State) {
    forall i :: 0 <= i < |s.threads| ==> s.threads[i].pc.Done?
  }

  // Some thread can move by itself, without a spurious wakeup.
  ghost predicate CanMove(c: Config, s: State) {
    exists m: Move :: m.Step? && Enabled(c, s, m)
  }

  lemma StuckPcs(c: Config, s: State)
    requires Inv(c, s) && !CanMove(c, s)
    ensures s.mutex == 1
    ensures forall i :: 0 <= i < |s.threads| ==>
      || s.threads[i].pc.Asleep? || s.threads[i].pc.Done?
      || s.threads[i].pc.JoinProducers? || s.threads[i].pc.JoinConsumers?
  {
    forall i | 0 <= i < |s.threads| ensures !HoldsMutex(s.threads[i]) {
      if HoldsMutex(s.threads[i]) { HolderMoves(c, s, i); }
    }
    CountZero(HoldsMutex, s.threads);
    forall i | 0 <= i < |s.threads| ensures !s.threads[i].pc.Lock? && !s.threads[i].pc.Relock? {
      if s.threads[i].pc.Lock? || s.threads[i].pc.Relock? { assert Enabled(c, s, Step(i, 0)); }
    }
  }

  lemma HolderMoves(c: Config, s: State, i: nat)
    requires !s.failed && i < |s.threads| && HoldsMutex(s.threads[i])
    ensures CanMove(c, s)
  {
    if s.threads[i].pc.Signal? && exists j :: 0 <= j < |s.threads| && Wakes(s.threads[i], s.threads[j]) {
      var j :| 0 <= j < |s.threads| && Wakes(s.threads[i], s.threads[j]);
      assert Enabled(c, s, Step(i, j));
    } else {
      assert Enabled(c, s, Step(i, 0));
    }
  }

  // If main waits to join a thread, that thread is not done.
  lemma MainStuck(c: Config, s: State)
    requires Inv(c, s) && !CanMove(c, s)
    ensures var main := s.threads[MainIndex(c)];
      && (main.pc.JoinProducers? ==> main.n < c.producers && !s.threads[main.n].pc.Done?)
      && (main.pc.JoinConsumers? ==> main.n < c.consumers && !s.threads[c.producers + main.n].pc.Done?)
  {
    assert !Enabled(c, s, Step(MainIndex(c), 0));
  }

  lemma StuckSleepers(c: Config, s: State)
    requires Inv(c, s) && !CanMove(c, s)
    ensures (exists i :: 0 <= i < |s.threads| && SleepsOnFill(s.threads[i])) ==> s.ring.numFull == 0
    ensures (exists i :: 0 <= i < |s.threads| && SleepsOnEmpty(s.threads[i])) ==> s.ring.numFull == c.max
  {
    StuckPcs(c, s);
    forall i | 0 <= i < |s.threads|
      ensures !AwakeGetter(s.threads[i]) && !AwakeFiller(s.threads[i])
      ensures !SignalsFill(s.threads[i]) && !SignalsEmpty(s.threads[i])
    {
    }
    NobodyOnTheWay(c, s);
  }

  lemma NobodyOnTheWay(c: Config, s: State)
    requires NoLostWakeup(c, s) && 0 <= s.ring.numFull <= c.max
    requires forall i :: 0 <= i < |s.threads| ==> !AwakeGetter(s.threads[i]) && !SignalsFill(s.threads[i])
    requires forall i :: 0 <= i < |s.threads| ==> !AwakeFiller(s.threads[i]) && !SignalsEmpty(s.threads[i])
    ensures (exists i :: 0 <= i < |s.threads| && SleepsOnFill(s.threads[i])) ==> s.ring.numFull == 0
    ensures (exists i :: 0 <= i < |s.threads| && SleepsOnEmpty(s.threads[i])) ==> s.ring.numFull == c.max
  {
    CountZero(AwakeGetter, s.threads);
    CountZero(AwakeFiller, s.threads);
    CountZero(SignalsFill, s.threads);
    CountZero(SignalsEmpty, s.threads);
    CountZero(SleepsOnFill, s.threads);
    CountZero(SleepsOnEmpty, s.threads);
  }

  // If all consumers are done, they have taken out every marker, and so everything.
  lemma AllTaken(c: Config, s: State)
    requires Inv(c, s) && c.consumers > 0
    requires forall k :: c.producers <= k < MainIndex(c) ==> s.threads[k].pc.Done?
    ensures s.taken == s.filled && s.ring.numFull == 0
    ensures MarkersBy(c, s.threads[MainIndex(c)]) == c.consumers == Count(TookEnd, s.threads)
  {
    forall k | 0 <= k < |s.threads| ensures TookEnd(s.threads[k]) <==> c.producers <= k < MainIndex(c) {
      assert ThreadOk(c, s.threads[k]);
    }
    CountRange(TookEnd, s.threads, c.producers, MainIndex(c));
    CountAppend(IsEnd, s.taken, Contents(s.ring));
    assert ThreadOk(c, s.threads[MainIndex(c)]);
    CountZero(IsEnd, s.taken);
    var j :| 0 <= j < |s.taken| && s.taken[j] == END_OF_STREAM;
    assert s.filled[j] == END_OF_STREAM;
    forall k | 0 <= k < |Contents(s.ring)| ensures Contents(s.ring)[k] == END_OF_STREAM {
      assert s.filled[|s.taken| + k] == Contents(s.ring)[k];
    }
    CountAll(IsEnd, Contents(s.ring));
  }

  lemma NotStuck(c: Config, s: State)
    requires Inv(c, s) && c.consumers > 0 && !CanMove(c, s)
    ensures Finished(s)
  {
    StuckPcs(c, s);
    StuckSleepers(c, s);
    var main := s.threads[MainIndex(c)];
    assert ThreadOk(c, main);
    if forall k :: c.producers <= k < MainIndex(c) ==> s.threads[k].pc.Done? {
      AllTaken(c, s);
      MainStuck(c, s);
      assert main.pc.Done?;
    } else {
      var k :| c.producers <= k < MainIndex(c) && !s.threads[k].pc.Done?;
      assert ThreadOk(c, s.threads[k]) && SleepsOnFill(s.threads[k]);
      assert forall p :: 0 <= p < |s.threads| ==> !SleepsOnEmpty(s.threads[p]);
      ProducersDone(c, s);
      ConsumerHasMarker(c, s, k);
    }
  }

  lemma ProducersDone(c: Config, s: State)
    requires Inv(c, s) && !CanMove(c, s)
    requires forall p :: 0 <= p < |s.threads| ==> !SleepsOnEmpty(s.threads[p])
    ensures forall p :: 0 <= p < c.producers ==> s.threads[p].pc.Done?
    ensures !s.threads[MainIndex(c)].pc.JoinProducers? && !s.threads[MainIndex(c)].pc.Asleep?
  {
    StuckPcs(c, s);
    forall p | 0 <= p < c.producers ensures s.threads[p].pc.Done? {
      assert ThreadOk(c, s.threads[p]) && !SleepsOnEmpty(s.threads[p]);
    }
    assert !SleepsOnEmpty(s.threads[MainIndex(c)]);
    MainStuck(c, s);
  }

  // A sleeping consumer has not had its marker, so with main past its markers one is in the buffer.
  lemma ConsumerHasMarker(c: Config, s: State, k: nat)
    requires Inv(c, s) && c.producers <= k < MainIndex(c) && s.threads[k].pc.Asleep?
    requires MarkersBy(c, s.threads[MainIndex(c)]) == c.consumers
    ensures s.ring.numFull > 0
  {
    assert ThreadOk(c, s.threads[k]);
    assert !TookEnd(s.threads[k]);
    var upTo := s.threads[k := s.threads[k].(tmp := END_OF_STREAM)];
    CountUpdate(TookEnd, s.threads, k, upTo[k]);
    CountMonotone(TookEnd, IsConsumer, upTo);
    CountRange(IsConsumer, upTo, c.producers, MainIndex(c));
    CountAppend(IsEnd, s.taken, Contents(s.ring));
    CountZero(IsEnd, Contents(s.ring));
  }

  predicate IsConsumer(t: Thread) {
    t.role.Consumer?
  }

  // With at least one consumer no run reaches a state in which some thread is unfinished and none can move.
  lemma NeverStuck(c: Config, moves: seq<Move>)
    requires Legal(c) && c.consumers > 0 && Run(c, Init(c), moves)
    ensures var s := After(c, Init(c), moves); Finished(s) || CanMove(c, s)
  {
    InitHolds(c);
    RunHolds(c, Init(c), moves);
    var s := After(c, Init(c), moves);
    if !CanMove(c, s) { NotStuck(c, s); }
  }

  // ----- Always finishes -----

  // What a thread can still do before the next access to the buffer, or before it is woken.
  function Rank(t: Thread): int {
    match t.pc
    case Act => 1
    case Test => 2
    case Lock => 3
    case Relock => 3
    case JoinProducers => 3
    case Unlock => 4
    case Signal => 8
    case _ => 0
  }

  // The joins that main still has before it.
  function JoinsLeft(c: Config, t: Thread): int {
    match t.pc
    case JoinProducers => c.producers - t.n + c.consumers + 3
    case JoinConsumers => c.consumers - t.n + 1
    case Done => 0
    case _ => c.consumers + 2
  }

  // Every value goes in once and out once.
  function Transfers(c: Config): nat {
    c.producers * c.loops + c.consumers
  }

  ghost function Work(c: Config, s: State): int
    requires |s.threads| == MainIndex(c) + 1
  {
    10 * (2 * Transfers(c) - |s.filled| - |s.taken|) + RanksAndJoins(c, s)
  }

  lemma PutAtMost(c: Config, s: State)
    requires Layout(c, s)
    ensures Sum(PutBy, s.threads) <= c.producers * c.loops
    ensures (forall p :: 0 <= p < c.producers ==> s.threads[p].pc.Done?) ==>
      Sum(PutBy, s.threads) == c.producers * c.loops
  {
    var producers, others := s.threads[..c.producers], s.threads[c.producers..];
    assert s.threads == producers + others;
    forall k | 0 <= k < |producers| ensures PutBy(producers[k]) <= c.loops {
      assert producers[k] == s.threads[k] && ThreadOk(c, s.threads[k]);
    }
    forall k | 0 <= k < |others| ensures PutBy(others[k]) == 0 {
      assert others[k] == s.threads[c.producers + k];
    }
    SumAppend(PutBy, producers, others);
    SumAtMost(PutBy, producers, c.loops);
    SumZero(PutBy, others);
    if forall p :: 0 <= p < c.producers ==> s.threads[p].pc.Done? {
      forall k | 0 <= k < |producers| ensures PutBy(producers[k]) == c.loops {
        assert producers[k] == s.threads[k] && ThreadOk(c, s.threads[k]);
      }
      SumSame(PutBy, producers, c.loops);
    }
  }

  lemma WorkNonNegative(c: Config, s: State)
    requires Inv(c, s)
    ensures Work(c, s) >= 0 && |s.filled| <= Transfers(c)
  {
    PutAtMost(c, s);
    assert ThreadOk(c, s.threads[MainIndex(c)]);
    forall k | 0 <= k < |s.threads| ensures Rank(s.threads[k]) >= 0 {}
    SumNonNegative(Rank, s.threads);
  }

  lemma StepRank(c: Config, s: State, m: Move)
    requires Safe(c, s) && Enabled(c, s, m)
    ensures var s', t := Next(c, s, m), s.threads[m.i];
      && |s'.threads| == |s.threads|
      && var joins := if t.role.Main? then JoinsLeft(c, s'.threads[m.i]) - JoinsLeft(c, t) else 0;
        var d := Rank(s'.threads[m.i]) - Rank(t) + joins;
        if m.Spurious? then d <= 3 else if t.pc.Act? then d == 7 else if t.pc.Signal? then d == -4 else d < 0
  {
    if Accesses(s, m) {
      AccessMovesQueue(c, s, m.i);
    } else {
      assert ThreadOk(c, s.threads[m.i]);
    }
  }

  ghost function RanksAndJoins(c: Config, s: State): int
    requires |s.threads| == MainIndex(c) + 1
  {
    Sum(Rank, s.threads) + JoinsLeft(c, s.threads[MainIndex(c)])
  }

  lemma StepRanks(c: Config, s: State, m: Move)
    requires Safe(c, s) && Enabled(c, s, m)
    ensures |Next(c, s, m).threads| == |s.threads|
    ensures RanksAndJoins(c, Next(c, s, m))
         <= RanksAndJoins(c, s) + (if m.Spurious? then 3 else if Accesses(s, m) then 7 else -1)
  {
    StepSum(Rank, c, s, m);
    StepRank(c, s, m);
    if m.i != MainIndex(c) { StepOthers(c, s, m, MainIndex(c)); }
  }

  // Every step uses work up; a spurious wakeup adds at most three units.
  lemma StepWork(c: Config, s: State, m: Move)
    requires Inv(c, s) && Enabled(c, s, m)
    ensures |Next(c, s, m).threads| == |s.threads|
    ensures Work(c, Next(c, s, m)) <= Work(c, s) + (if m.Spurious? then 3 else -1)
  {
    StepRanks(c, s, m);
    StepQueue(c, s, m);
  }

  ghost function SpuriousIn(moves: seq<Move>): nat {
    if moves == [] then 0 else B(moves[0].Spurious?) + SpuriousIn(moves[1..])
  }

  lemma {:induction false} RunWork(c: Config, s: State, moves: seq<Move>)
    requires Inv(c, s) && Run(c, s, moves)
    ensures |moves| <= Work(c, s) + 4 * SpuriousIn(moves)
    decreases moves
  {
    WorkNonNegative(c, s);
    if moves != [] {
      StepHolds(c, s, moves[0]);
      StepWork(c, s, moves[0]);
      RunWork(c, Next(c, s, moves[0]), moves[1..]);
    }
  }

  // The length of a run is bounded, and so, with NeverStuck, every run can be continued until all
  // threads are finished, unless wakeups without a signal go on for ever.
  lemma RunsEnd(c: Config, moves: seq<Move>)
    requires Legal(c) && Run(c, Init(c), moves)
    ensures |moves| <= 20 * Transfers(c) + 4 * (c.producers + c.consumers) + 6 + 4 * SpuriousIn(moves)
  {
    var s := Init(c);
    InitHolds(c);
    RunWork(c, s, moves);
    SumSame(Rank, s.threads, 3);
  }

  // ----- Exactly once -----

  // What a consumer returns to main.
  function Returned(t: Thread): int {
    if t.role.Consumer? then t.n - 1 else 0
  }

  // When all threads have finished, each value 0 .. producers * loops - 1 has been taken out exactly once,
  // each consumer has taken exactly one marker, nothing else was taken, nothing is left, and the counts
  // that the consumers return add up.
  lemma ExactlyOnce(c: Config, moves: seq<Move>)
    requires Legal(c) && c.consumers > 0 && Run(c, Init(c), moves) && Finished(After(c, Init(c), moves))
    ensures var s := After(c, Init(c), moves);
      && s.taken == s.filled && s.ring.numFull == 0
      && (forall v :: 0 <= v < c.producers * c.loops ==> multiset(s.taken)[v] == 1)
      && Count(IsEnd, s.taken) == Count(TookEnd, s.threads) == c.consumers
      && |s.taken| == c.producers * c.loops + c.consumers
      && (forall k :: 0 <= k < |s.taken| ==> s.taken[k] == END_OF_STREAM || 0 <= s.taken[k] < c.producers * c.loops)
      && Sum(Returned, s.threads) == c.producers * c.loops
  {
    InitHolds(c);
    RunHolds(c, Init(c), moves);
    var s := After(c, Init(c), moves);
    AllTaken(c, s);
    PutAtMost(c, s);
    forall v | 0 <= v < c.producers * c.loops ensures multiset(s.taken)[v] == 1 {
      ItemOf(c, v);
      var p: nat, i: nat :| p < c.producers && i < c.loops && v == Item(c, p, i);
      assert ThreadOk(c, s.threads[p]);
      assert multiset(s.filled)[Item(c, p, i)] == B(i < PutBy(s.threads[p]));
    }
    CountRange(IsConsumer, s.threads, c.producers, MainIndex(c));
    SumReturned(s.threads);
  }

  lemma ItemOf(c: Config, v: nat)
    requires v < c.producers * c.loops
    ensures exists p: nat, i: nat :: p < c.producers && i < c.loops && v == Item(c, p, i)
  {
    var p, i := v / c.loops, v % c.loops;
    assert v == p * c.loops + i;
    NoLess(c.producers, p, c.loops);
    assert v == Item(c, p, i);
  }

  lemma NoLess(a: nat, b: nat, loops: nat)
    ensures a <= b ==> a * loops <= b * loops
  {
    if a < b { Distance(a, b, loops); }
  }

  lemma {:induction false} SumReturned(threads: seq<Thread>)
    requires forall k :: 0 <= k < |threads| ==> threads[k].pc.Done?
    ensures Sum(Returned, threads) == Sum(TakenBy, threads) - Count(IsConsumer, threads)
  {
    if threads != [] {
      assert forall k :: 0 <= k < |threads[1..]| ==> threads[1..][k] == threads[k + 1];
      SumReturned(threads[1..]);
    }
  }

  // ----- The exact condition -----

  // No run of the program gets stuck.
  ghost predicate AlwaysFinishes(c: Config) {
    forall moves :: Run(c, Init(c), moves) ==>
      Finished(After(c, Init(c), moves)) || CanMove(c, After(c, Init(c), moves))
  }

  lemma NothingTaken(c: Config, s: State)
    requires Inv(c, s) && c.consumers == 0
    ensures s.taken == [] && |s.filled| == s.ring.numFull == Sum(PutBy, s.threads)
  {
    forall k | 0 <= k < |s.threads| ensures TakenBy(s.threads[k]) == 0 {
      assert s.threads[k].role == RoleOf(c, k);
    }
    SumZero(TakenBy, s.threads);
    assert ThreadOk(c, s.threads[MainIndex(c)]);
  }

  // Without consumers a producer that sleeps on a full buffer has a value left over.
  lemma SleeperHasMore(c: Config, s: State, p: nat)
    requires Inv(c, s) && c.consumers == 0 && p < c.producers && s.threads[p].pc.Asleep?
    ensures s.ring.numFull < c.producers * c.loops
  {
    NothingTaken(c, s);
    assert ThreadOk(c, s.threads[p]);
    var upTo := s.threads[p := s.threads[p].(pc := Done, n := c.loops)];
    SumUpdate(PutBy, s.threads, p, upTo[p]);
    PutAtMost(c, s.(threads := upTo));
  }

  lemma NotStuckWithRoom(c: Config, s: State)
    requires Inv(c, s) && c.consumers == 0 && c.producers * c.loops <= c.max && !CanMove(c, s)
    ensures Finished(s)
  {
    StuckPcs(c, s);
    StuckSleepers(c, s);
    forall p | 0 <= p < |s.threads| ensures !SleepsOnEmpty(s.threads[p]) {
      assert ThreadOk(c, s.threads[p]);
      if SleepsOnEmpty(s.threads[p]) { SleeperHasMore(c, s, p); }
    }
    ProducersDone(c, s);
    MainStuck(c, s);
  }

  // From every state some run ends where no thread can move.
  lemma {:induction false} RunToTheEnd(c: Config, s: State) returns (moves: seq<Move>)
    requires Inv(c, s)
    ensures Run(c, s, moves) && !CanMove(c, After(c, s, moves))
    decreases Work(c, s)
  {
    WorkNonNegative(c, s);
    moves := [];
    if CanMove(c, s) {
      var m: Move :| m.Step? && Enabled(c, s, m);
      StepHolds(c, s, m);
      StepWork(c, s, m);
      WorkNonNegative(c, Next(c, s, m));
      var rest := RunToTheEnd(c, Next(c, s, m));
      moves := [m] + rest;
      assert moves[1..] == rest;
    }
  }

  // The program always finishes exactly if there is a consumer or the buffer has room for everything.
  lemma WhenItFinishes(c: Config)
    requires Legal(c)
    ensures AlwaysFinishes(c) <==> c.consumers > 0 || c.producers * c.loops <= c.max
  {
    InitHolds(c);
    if c.consumers > 0 || c.producers * c.loops <= c.max {
      forall moves | Run(c, Init(c), moves)
        ensures Finished(After(c, Init(c), moves)) || CanMove(c, After(c, Init(c), moves))
      {
        RunHolds(c, Init(c), moves);
        var s := After(c, Init(c), moves);
        if !CanMove(c, s) {
          if c.consumers > 0 { NotStuck(c, s); } else { NotStuckWithRoom(c, s); }
        }
      }
    } else {
      var moves := RunToTheEnd(c, Init(c));
      RunHolds(c, Init(c), moves);
      var s := After(c, Init(c), moves);
      NothingTaken(c, s);
      PutAtMost(c, s);
      assert !Finished(s);
    }
  }
}
