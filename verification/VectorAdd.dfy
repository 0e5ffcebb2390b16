// vector_add of 32-Common_Concurrency_Problems in its three locking variants.
module VectorAdd {
  // Any number of threads call it on any vectors: with locks in address order (vector-global-order.c), both locks
  // under a global lock (vector-avoid-hold-and-wait.c), and trylock with back-off (vector-try-wait.c).

  import opened Counting

  // ----- The addition itself -----

  // dst + src, entry by entry.
  function Add(dst: seq<int>, src: seq<int>): (r: seq<int>)
    requires |dst| == |src|
  {
    seq(|dst|, i requires 0 <= i < |dst| => dst[i] + src[i])
  }

  // The loop of vector_add, in place; dst and src may be the same vector.
  method AddInPlace(dst: array<int>, src: array<int>)
    requires dst.Length == src.Length
    modifies dst
    ensures dst[..] == Add(old(dst[..]), old(src[..]))
    ensures forall j :: 0 <= j < dst.Length ==> dst[j] == old(dst[j]) + old(src[j])
  {
    for i := 0 to dst.Length
      invariant forall j :: 0 <= j < i ==> dst[j] == old(dst[j]) + old(src[j])
      invariant forall j :: i <= j < dst.Length ==> dst[j] == old(dst[j])
      invariant src != dst ==> src[..] == old(src[..])
    {
      dst[i] := dst[i] + src[i];
    }
  }

  // ----- The program -----

  datatype Variant = GlobalOrder | AvoidHoldAndWait | TryWait

  // vector_add(&v[dst], &v[src]); the index stands for the address.
  datatype Call = Call(dst: nat, src: nat)

  // calls[k] are the calls that thread k makes, in order.
  datatype Config = Config(variant: Variant, vectors: seq<seq<int>>, calls: seq<seq<Call>>)

  ghost predicate Legal(c: Config) {
    && (forall v :: 0 <= v < |c.vectors| ==> |c.vectors[v]| == |c.vectors[0]|)
    && (forall k :: 0 <= k < |c.calls| ==> InRange(c, c.calls[k]))
  }

  ghost predicate InRange(c: Config, calls: seq<Call>) {
    forall x :: 0 <= x < |calls| ==> calls[x].dst < |c.vectors| && calls[x].src < |c.vectors|
  }

  // What main and worker of main-common.c make the threads do.
  function MainCalls(numThreads: nat, loops: nat, parallel: bool, causeDeadlock: bool): seq<seq<Call>> {
    seq(numThreads, (k: nat) =>
      var v0, v1 := if parallel then 2 * k else 0, if parallel then 2 * k + 1 else 1;
      seq(loops, _ => if causeDeadlock && k % 2 == 1 then Call(v1, v0) else Call(v0, v1)))
  }

  // The statement that a thread executes next, inside its current call todo[0].
  datatype PC = LockGlobal | LockFirst | LockSecond | BackOff | UnlockGlobal
              | LoadDst | LoadSrc | Store | UnlockOne | UnlockOther

  datatype Thread = Thread(pc: PC, todo: seq<Call>, i: nat, tmp: int)

  datatype Lock = Free | HeldBy(k: nat)

  // log records, in the order in which the calls got their last lock, who made which call.
  datatype State = State(values: seq<seq<int>>, locks: seq<Lock>, global: Lock, threads: seq<Thread>,
                         log: seq<(nat, Call)>)

  function StartPc(c: Config): PC {
    if c.variant.AvoidHoldAndWait? then LockGlobal else LockFirst
  }

  function Init(c: Config): State {
    State(c.vectors, seq(|c.vectors|, _ => Free), Free,
          seq(|c.calls|, k requires 0 <= k < |c.calls| => Thread(StartPc(c), c.calls[k], 0, 0)), [])
  }

  // The order in which a call takes the two locks; only GlobalOrder looks at the addresses.
  function First(c: Config, call: Call): nat {
    if c.variant.GlobalOrder? && call.src < call.dst then call.src else call.dst
  }

  function Second(c: Config, call: Call): nat {
    if c.variant.GlobalOrder? && call.src < call.dst then call.dst else call.src
  }

  // The order in which it releases them.
  function ReleasedFirst(c: Config, call: Call): nat {
    if c.variant.GlobalOrder? then call.src else call.dst
  }

  function ReleasedLast(c: Config, call: Call): nat {
    if c.variant.GlobalOrder? then call.dst else call.src
  }

  // Every vector that a thread still has to visit exists.
  ghost predicate Sane(c: Config, s: State) {
    && |s.locks| == |s.values| == |c.vectors| && |s.threads| == |c.calls|
    && (forall v :: 0 <= v < |s.values| ==> |s.values[v]| == Size(c))
    && (forall k :: 0 <= k < |s.threads| ==> InRange(c, s.threads[k].todo))
    && (forall k :: 0 <= k < |s.threads| && (s.threads[k].pc.LoadSrc? || s.threads[k].pc.Store?) ==>
          s.threads[k].i < Size(c))
  }

  function Size(c: Config): nat {
    if c.vectors == [] then 0 else |c.vectors[0]|
  }

  // A thread without calls left is finished; pthread_mutex_lock waits for the lock to be free, and
  // waits for ever if the caller holds it; trylock never waits.
  ghost predicate Enabled(c: Config, s: State, k: nat) {
    && Sane(c, s) && k < |s.threads| && s.threads[k].todo != []
    && var t := s.threads[k];
      match t.pc
      case LockGlobal => s.global.Free?
      case LockFirst => c.variant.TryWait? || s.locks[First(c, t.todo[0])].Free?
      case LockSecond => c.variant.TryWait? || s.locks[Second(c, t.todo[0])].Free?
      case _ => true
  }

  function Set(s: State, k: nat, t: Thread): State
    requires k < |s.threads|
  {
    s.(threads := s.threads[k := t])
  }

  // All locks of the call obtained: this is where it takes its place in the log.
  function GotLocks(c: Config, s: State, k: nat): State
    requires k < |s.threads| && s.threads[k].todo != []
  {
    var t := s.threads[k];
    var pc := if c.variant.AvoidHoldAndWait? then UnlockGlobal else LoadDst;
    Set(s, k, t.(pc := pc, i := 0)).(log := s.log + [(k, t.todo[0])])
  }

  function Next(c: Config, s: State, k: nat): State
    requires Enabled(c, s, k)
  {
    var t := s.threads[k];
    var call := t.todo[0];
    match t.pc
    case LockGlobal => Set(s, k, t.(pc := LockFirst)).(global := HeldBy(k))
    case LockFirst =>
      if !s.locks[First(c, call)].Free? then s
      else
        var s' := s.(locks := s.locks[First(c, call) := HeldBy(k)]);
        if c.variant.GlobalOrder? && call.dst == call.src then GotLocks(c, s', k)
        else Set(s', k, t.(pc := LockSecond))
    case LockSecond =>
      if !s.locks[Second(c, call)].Free? then Set(s, k, t.(pc := BackOff))
      else GotLocks(c, s.(locks := s.locks[Second(c, call) := HeldBy(k)]), k)
    case BackOff => Set(s, k, t.(pc := LockFirst)).(locks := s.locks[First(c, call) := Free])
    case UnlockGlobal => Set(s, k, t.(pc := LoadDst)).(global := Free)
    case LoadDst =>
      if t.i < Size(c) then Set(s, k, t.(pc := LoadSrc, tmp := s.values[call.dst][t.i]))
      else Set(s, k, t.(pc := UnlockOne))
    case LoadSrc => Set(s, k, t.(pc := Store, tmp := t.tmp + s.values[call.src][t.i]))
    case Store =>
      Set(s, k, t.(pc := LoadDst, i := t.i + 1)).(values := s.values[call.dst := s.values[call.dst][t.i := t.tmp]])
    case UnlockOne =>
      var s' := s.(locks := s.locks[ReleasedFirst(c, call) := Free]);
      if c.variant.GlobalOrder? && call.dst == call.src then Return(c, s', k)
      else Set(s', k, t.(pc := UnlockOther))
    case UnlockOther => Return(c, s.(locks := s.locks[ReleasedLast(c, call) := Free]), k)
  }

  function Return(c: Config, s: State, k: nat): State
    requires k < |s.threads| && s.threads[k].todo != []
  {
    Set(s, k, Thread(StartPc(c), s.threads[k].todo[1..], 0, 0))
  }

  // A run is the sequence of threads that move. Sane, which Enabled asks for so that Next is defined,
  // holds in every state that is reached.
  ghost predicate Run(c: Config, s: State, schedule: seq<nat>)
    decreases schedule
  {
    schedule == [] || (Enabled(c, s, schedule[0]) && Run(c, Next(c, s, schedule[0]), schedule[1..]))
  }

  ghost function After(c: Config, s: State, schedule: seq<nat>): State
    requires Run(c, s, schedule)
    decreases schedule
  {
    if schedule == [] then s else After(c, Next(c, s, schedule[0]), schedule[1..])
  }

  // ----- What the locks protect -----

  // The vectors whose locks a thread holds.
  ghost predicate Holds(c: Config, t: Thread, v: nat) {
    t.todo != [] &&
    match t.pc
    case LockSecond => v == First(c, t.todo[0])
    case BackOff => v == First(c, t.todo[0])
    case UnlockGlobal => v == t.todo[0].dst || v == t.todo[0].src
    case LoadDst => v == t.todo[0].dst || v == t.todo[0].src
    case LoadSrc => v == t.todo[0].dst || v == t.todo[0].src
    case Store => v == t.todo[0].dst || v == t.todo[0].src
    case UnlockOne => v == t.todo[0].dst || v == t.todo[0].src
    case UnlockOther => v == ReleasedLast(c, t.todo[0])
    case _ => false
  }

  ghost predicate HoldsGlobal(c: Config, t: Thread) {
    c.variant.AvoidHoldAndWait? && t.todo != [] && (t.pc.LockFirst? || t.pc.LockSecond? || t.pc.UnlockGlobal?)
  }

  // The call has its place in the log and has not released a lock yet.
  predicate Adding(t: Thread) {
    t.todo != [] && (t.pc.UnlockGlobal? || t.pc.LoadDst? || t.pc.LoadSrc? || t.pc.Store? || t.pc.UnlockOne?)
  }

  ghost predicate ThreadOk(c: Config, t: Thread) {
    && InRange(c, t.todo)
    && t.i <= Size(c)
    && (t.pc.LoadSrc? || t.pc.Store? ==> t.i < Size(c))
    && (t.pc.LockGlobal? || t.pc.UnlockGlobal? ==> c.variant.AvoidHoldAndWait?)
    && (t.pc.BackOff? ==> c.variant.TryWait?)
    && (t.pc.UnlockGlobal? ==> t.i == 0)
    && (t.pc.UnlockOne? ==> t.i == Size(c))
    && (t.todo == [] ==> t.pc == StartPc(c))
    // only GlobalOrder gets anywhere with a call on a single vector, and it takes one lock for it
    && (t.todo != [] && t.todo[0].dst == t.todo[0].src ==>
          if c.variant.GlobalOrder? then !t.pc.LockSecond? && !t.pc.UnlockOther?
          else !Adding(t) && !t.pc.UnlockOther?)
  }

  ghost predicate Locking(c: Config, s: State) {
    && Sane(c, s) && Legal(c)
    && (forall k :: 0 <= k < |s.threads| ==> ThreadOk(c, s.threads[k]))
    && (forall v, k :: 0 <= v < |s.locks| && 0 <= k < |s.threads| ==>
          (s.locks[v] == HeldBy(k) <==> Holds(c, s.threads[k], v)))
    && (forall v :: 0 <= v < |s.locks| && s.locks[v].HeldBy? ==> s.locks[v].k < |s.threads|)
    && (forall k :: 0 <= k < |s.threads| ==> (s.global == HeldBy(k) <==> HoldsGlobal(c, s.threads[k])))
    && (s.global.HeldBy? ==> s.global.k < |s.threads|)
  }

  lemma InitLocking(c: Config)
    requires Legal(c)
    ensures Locking(c, Init(c))
  {
    var s := Init(c);
    forall k | 0 <= k < |s.threads| ensures s.threads[k] == Thread(StartPc(c), c.calls[k], 0, 0) {}
  }

  // The step changes thread k and, in the vectors' locks, only what k gains or gives up; what it gains
  // was free.
  lemma StepThread(c: Config, s: State, k: nat)
    requires Locking(c, s) && Enabled(c, s, k)
    ensures var s' := Next(c, s, k);
      && |s'.threads| == |s.threads| && s'.threads == s.threads[k := s'.threads[k]]
      && ThreadOk(c, s'.threads[k])
      && |s'.values| == |s.values| && |s'.locks| == |s.locks|
  {
    StepFrame(c, s, k);
    MoverIsSound(c, s, k);
    StepThreadOk(c, s, k);
  }

  lemma StepFrame(c: Config, s: State, k: nat)
    requires Enabled(c, s, k)
    ensures var s' := Next(c, s, k);
      && |s'.threads| == |s.threads| && s'.threads == s.threads[k := s'.threads[k]]
      && |s'.values| == |s.values| && |s'.locks| == |s.locks|
  {
  }

  lemma NeverLocksTwice(c: Config, s: State, k: nat)
    requires Locking(c, s) && Enabled(c, s, k)
    ensures var t := s.threads[k];
      t.pc.LockSecond? && t.todo[0].dst == t.todo[0].src ==> !s.locks[Second(c, t.todo[0])].Free?
  {
    var t := s.threads[k];
    if t.pc.LockSecond? {
      assert Holds(c, t, First(c, t.todo[0]));
    }
  }

  // What the invariant says about the thread that moves.
  ghost predicate Sound(c: Config, s: State, k: nat) {
    && Enabled(c, s, k) && ThreadOk(c, s.threads[k])
    && var t := s.threads[k];
      t.pc.LockSecond? && t.todo[0].dst == t.todo[0].src ==> !s.locks[Second(c, t.todo[0])].Free?
  }

  lemma MoverIsSound(c: Config, s: State, k: nat)
    requires Locking(c, s) && Enabled(c, s, k)
    ensures Sound(c, s, k)
  {
    NeverLocksTwice(c, s, k);
  }

  // The step is one of those that get the call its locks.
  predicate Acquires(pc: PC) {
    pc.LockGlobal? || pc.LockFirst? || pc.LockSecond? || pc.BackOff?
  }

  lemma AcquireThreadOk(c: Config, s: State, k: nat)
    requires Sound(c, s, k) && Acquires(s.threads[k].pc)
    ensures |Next(c, s, k).threads| == |s.threads| && ThreadOk(c, Next(c, s, k).threads[k])
  {
  }

  lemma StepThreadOk(c: Config, s: State, k: nat)
    requires Sound(c, s, k)
    ensures |Next(c, s, k).threads| == |s.threads| && ThreadOk(c, Next(c, s, k).threads[k])
  {
    if Acquires(s.threads[k].pc) { AcquireThreadOk(c, s, k); }
  }

  lemma AcquireLock(c: Config, s: State, k: nat, v: nat)
    requires Sound(c, s, k) && v < |s.locks| && Acquires(s.threads[k].pc)
    ensures |Next(c, s, k).locks| == |s.locks| && |Next(c, s, k).threads| == |s.threads|
    ensures var had, has := Holds(c, s.threads[k], v), Holds(c, Next(c, s, k).threads[k], v);
      && (has && !had ==> s.locks[v].Free?)
      && Next(c, s, k).locks[v] == if has && !had then HeldBy(k) else if had && !has then Free else s.locks[v]
  {
  }

  lemma StepLock(c: Config, s: State, k: nat, v: nat)
    requires Sound(c, s, k) && v < |s.locks|
    ensures |Next(c, s, k).locks| == |s.locks| && |Next(c, s, k).threads| == |s.threads|
    ensures var had, has := Holds(c, s.threads[k], v), Holds(c, Next(c, s, k).threads[k], v);
      && (has && !had ==> s.locks[v].Free?)
      && Next(c, s, k).locks[v] == if has && !had then HeldBy(k) else if had && !has then Free else s.locks[v]
  {
    if Acquires(s.threads[k].pc) { AcquireLock(c, s, k, v); }
  }

  lemma StepGlobal(c: Config, s: State, k: nat)
    requires Sound(c, s, k)
    ensures |Next(c, s, k).threads| == |s.threads|
    ensures var had, has := HoldsGlobal(c, s.threads[k]), HoldsGlobal(c, Next(c, s, k).threads[k]);
      && (has && !had ==> s.global.Free?)
      && Next(c, s, k).global == if has && !had then HeldBy(k) else if had && !has then Free else s.global
  {
  }

  lemma StepSane(c: Config, s: State, k: nat)
    requires Locking(c, s) && Enabled(c, s, k)
    ensures Sane(c, Next(c, s, k))
  {
    StepThread(c, s, k);
    var s' := Next(c, s, k);
    forall j | 0 <= j < |s'.threads|
      ensures InRange(c, s'.threads[j].todo)
      ensures s'.threads[j].pc.LoadSrc? || s'.threads[j].pc.Store? ==> s'.threads[j].i < Size(c)
    {
      assert ThreadOk(c, s'.threads[k]);
    }
  }

  lemma StepLocking(c: Config, s: State, k: nat)
    requires Locking(c, s) && Enabled(c, s, k)
    ensures Locking(c, Next(c, s, k))
  {
    StepSane(c, s, k);
    StepThread(c, s, k);
    MoverIsSound(c, s, k);
    StepGlobal(c, s, k);
    var s' := Next(c, s, k);
    forall v, j | 0 <= v < |s'.locks| && 0 <= j < |s'.threads|
      ensures s'.locks[v] == HeldBy(j) <==> Holds(c, s'.threads[j], v)
    {
      StepLock(c, s, k, v);
      assert s.locks[v] == HeldBy(k) <==> Holds(c, s.threads[k], v);
      assert s.locks[v] == HeldBy(j) <==> Holds(c, s.threads[j], v);
    }
    forall v | 0 <= v < |s'.locks| && s'.locks[v].HeldBy? ensures s'.locks[v].k < |s'.threads| {
      StepLock(c, s, k, v);
    }
  }

  // In every state that is reached, a thread between its two lock operations holds the lock that the variant takes
  // first, under the global order that of the lower address, and between its two unlock operations the one that it
  // releases last.
  lemma LockingOrder(c: Config, s: State, k: nat)
    requires Locking(c, s) && k < |s.threads| && s.threads[k].todo != []
    ensures var t, call := s.threads[k], s.threads[k].todo[0];
      && (t.pc.LockSecond? && c.variant.GlobalOrder? ==>
            && s.locks[if call.dst < call.src then call.dst else call.src] == HeldBy(k)
            && s.locks[if call.dst < call.src then call.src else call.dst] != HeldBy(k))
      && (t.pc.LockSecond? && !c.variant.GlobalOrder? ==> s.locks[call.dst] == HeldBy(k))
      && (t.pc.UnlockOther? && c.variant.GlobalOrder? ==>
            s.locks[call.dst] == HeldBy(k) && s.locks[call.src] != HeldBy(k))
      && (t.pc.UnlockOther? && !c.variant.GlobalOrder? ==>
            s.locks[call.src] == HeldBy(k) && s.locks[call.dst] != HeldBy(k))
  {
    var t := s.threads[k];
    assert ThreadOk(c, t);
    assert s.locks[t.todo[0].dst] == HeldBy(k) <==> Holds(c, t, t.todo[0].dst);
    assert s.locks[t.todo[0].src] == HeldBy(k) <==> Holds(c, t, t.todo[0].src);
  }

  // ----- Serializability -----

  ghost predicate Uniform(vectors: seq<seq<int>>, size: nat) {
    forall v :: 0 <= v < |vectors| ==> |vectors[v]| == size
  }

  // What a call does when it runs alone.
  ghost function Apply(vectors: seq<seq<int>>, size: nat, call: Call): (r: seq<seq<int>>)
    requires Uniform(vectors, size) && call.dst < |vectors| && call.src < |vectors|
    ensures |r| == |vectors| && Uniform(r, size)
  {
    vectors[call.dst := Add(vectors[call.dst], vectors[call.src])]
  }

  ghost predicate LogInRange(log: seq<(nat, Call)>, n: nat) {
    forall x :: 0 <= x < |log| ==> log[x].1.dst < n && log[x].1.src < n
  }

  // The vectors after running the calls of the log one at a time, in that order.
  ghost function Serial(vectors: seq<seq<int>>, size: nat, log: seq<(nat, Call)>): (r: seq<seq<int>>)
    requires Uniform(vectors, size) && LogInRange(log, |vectors|)
    ensures |r| == |vectors| && Uniform(r, size)
  {
    if log == [] then vectors
    else Apply(Serial(vectors, size, log[..|log| - 1]), size, log[|log| - 1].1)
  }

  // The calls of thread k in the log.
  ghost function LogOf(log: seq<(nat, Call)>, k: nat): seq<Call> {
    if log == [] then []
    else LogOf(log[..|log| - 1], k) + (if log[|log| - 1].0 == k then [log[|log| - 1].1] else [])
  }

  // A call that is in the log is not one that the thread still has to get locks for.
  function Unlogged(t: Thread): seq<Call> {
    if t.todo != [] && (Adding(t) || t.pc.UnlockOther?) then t.todo[1..] else t.todo
  }

  // The log holds the calls that the threads have made, each thread's in its own order.
  ghost predicate Logged(c: Config, s: State)
    requires |s.threads| == |c.calls|
  {
    && LogInRange(s.log, |c.vectors|)
    && (c.variant.GlobalOrder? || forall x :: 0 <= x < |s.log| ==> s.log[x].1.dst != s.log[x].1.src)
    && forall k :: 0 <= k < |s.threads| ==> LogOf(s.log, k) + Unlogged(s.threads[k]) == c.calls[k]
  }

  // The serial vectors are ahead of the real ones by what the running calls have yet to add.
  ghost predicate Ahead(t: Thread, values: seq<seq<int>>, serial: seq<seq<int>>, size: nat)
    requires Adding(t) && t.todo[0].dst < |values| && t.todo[0].src < |values| && |serial| == |values|
    requires Uniform(values, size) && Uniform(serial, size)
  {
    var dst, src := t.todo[0].dst, t.todo[0].src;
    && (forall j :: 0 <= j < size ==>
          serial[dst][j] == if j < t.i then values[dst][j] else values[dst][j] + values[src][j])
    && (t.pc.LoadSrc? && t.i < size ==> t.tmp == values[dst][t.i])
    && (t.pc.Store? && t.i < size ==> t.tmp == values[dst][t.i] + values[src][t.i])
  }

  ghost predicate Written(s: State, v: nat) {
    exists k :: 0 <= k < |s.threads| && Adding(s.threads[k]) && s.threads[k].todo[0].dst == v
  }

  ghost function SerialOf(c: Config, s: State): (r: seq<seq<int>>)
    requires Legal(c) && LogInRange(s.log, |c.vectors|)
    ensures |r| == |c.vectors| && Uniform(r, Size(c))
  {
    Serial(c.vectors, Size(c), s.log)
  }

  ghost predicate Tracks(c: Config, s: State)
    requires Locking(c, s) && LogInRange(s.log, |c.vectors|)
  {
    && (forall k :: 0 <= k < |s.threads| && Adding(s.threads[k]) ==>
          Ahead(s.threads[k], s.values, SerialOf(c, s), Size(c)))
    && (forall v :: 0 <= v < |s.values| && !Written(s, v) ==> SerialOf(c, s)[v] == s.values[v])
  }

  ghost predicate Inv(c: Config, s: State) {
    Locking(c, s) && Logged(c, s) && Tracks(c, s)
  }

  // Does this step give the call its place in the log?
  predicate Logs(s: State, s': State, k: nat)
    requires k < |s.threads| == |s'.threads|
  {
    !Adding(s.threads[k]) && Adding(s'.threads[k])
  }

  lemma AcquireLog(c: Config, s: State, k: nat)
    requires Sound(c, s, k) && Acquires(s.threads[k].pc)
    ensures |Next(c, s, k).threads| == |s.threads|
    ensures var s', t := Next(c, s, k), s.threads[k];
      && s'.log == (if Logs(s, s', k) then s.log + [(k, t.todo[0])] else s.log)
      && Unlogged(s'.threads[k]) == (if Logs(s, s', k) then Unlogged(t)[1..] else Unlogged(t))
      && (Logs(s, s', k) ==> Unlogged(t) == t.todo == s'.threads[k].todo && s'.threads[k].i == 0)
      && (Logs(s, s', k) ==> !s'.threads[k].pc.LoadSrc? && !s'.threads[k].pc.Store?)
  {
  }

  lemma StepLog(c: Config, s: State, k: nat)
    requires Sound(c, s, k)
    ensures |Next(c, s, k).threads| == |s.threads|
    ensures var s', t := Next(c, s, k), s.threads[k];
      && s'.log == (if Logs(s, s', k) then s.log + [(k, t.todo[0])] else s.log)
      && Unlogged(s'.threads[k]) == (if Logs(s, s', k) then Unlogged(t)[1..] else Unlogged(t))
      && (Logs(s, s', k) ==> Unlogged(t) == t.todo == s'.threads[k].todo && s'.threads[k].i == 0)
      && (Logs(s, s', k) ==> !s'.threads[k].pc.LoadSrc? && !s'.threads[k].pc.Store?)
  {
    if Acquires(s.threads[k].pc) { AcquireLog(c, s, k); }
  }

  lemma LogOfAppend(log: seq<(nat, Call)>, k: nat, call: Call, j: nat)
    ensures LogOf(log + [(k, call)], j) == LogOf(log, j) + (if j == k then [call] else [])
  {
    assert (log + [(k, call)])[..|log|] == log;
  }

  lemma Regroup(done: seq<Call>, todo: seq<Call>)
    requires todo != []
    ensures done + [todo[0]] + todo[1..] == done + todo
  {
  }

  // What is logged and what is not yet make up the calls of thread j after the step too.
  lemma StepAccount(c: Config, s: State, k: nat, j: nat)
    requires Locking(c, s) && Logged(c, s) && Enabled(c, s, k) && j < |s.threads|
    ensures var s' := Next(c, s, k);
      |s'.threads| == |s.threads| && LogOf(s'.log, j) + Unlogged(s'.threads[j]) == c.calls[j]
  {
    var s' := Next(c, s, k);
    MoverIsSound(c, s, k);
    StepLog(c, s, k);
    StepFrame(c, s, k);
    assert LogOf(s.log, j) + Unlogged(s.threads[j]) == c.calls[j];
    if Logs(s, s', k) {
      LogOfAppend(s.log, k, s.threads[k].todo[0], j);
      Regroup(LogOf(s.log, k), s.threads[k].todo);
    }
  }

  // The step logs calls that the program makes, and no call on a single vector without the global order.
  lemma StepEntries(c: Config, s: State, k: nat)
    requires Locking(c, s) && Logged(c, s) && Enabled(c, s, k)
    ensures var log := Next(c, s, k).log;
      && LogInRange(log, |c.vectors|)
      && (c.variant.GlobalOrder? || forall x :: 0 <= x < |log| ==> log[x].1.dst != log[x].1.src)
  {
    MoverIsSound(c, s, k);
    StepLog(c, s, k);
    StepThreadOk(c, s, k);
    assert ThreadOk(c, s.threads[k]);
  }

  lemma StepLogged(c: Config, s: State, k: nat)
    requires Locking(c, s) && Logged(c, s) && Enabled(c, s, k)
    ensures |Next(c, s, k).threads| == |s.threads| && Logged(c, Next(c, s, k))
  {
    StepFrame(c, s, k);
    StepEntries(c, s, k);
    forall j | 0 <= j < |s.threads|
      ensures LogOf(Next(c, s, k).log, j) + Unlogged(Next(c, s, k).threads[j]) == c.calls[j]
    {
      StepAccount(c, s, k, j);
    }
  }

  // Two threads never hold the same lock.
  lemma Exclusive(c: Config, s: State, k: nat, j: nat, v: nat)
    requires Locking(c, s) && k < |s.threads| && j < |s.threads| && v < |s.locks| && k != j
    ensures !(Holds(c, s.threads[k], v) && Holds(c, s.threads[j], v))
  {
    assert s.locks[v] == HeldBy(k) <==> Holds(c, s.threads[k], v);
    assert s.locks[v] == HeldBy(j) <==> Holds(c, s.threads[j], v);
  }

  // While thread k has dst and src locked, no other call in progress touches what k writes, or the other
  // way round.
  lemma AddingApart(c: Config, s: State, k: nat, j: nat)
    requires Locking(c, s) && k < |s.threads| && j < |s.threads| && k != j
    requires Adding(s.threads[k]) && Adding(s.threads[j])
    ensures var a, b := s.threads[k].todo[0], s.threads[j].todo[0];
      a.dst != b.dst && a.dst != b.src && a.src != b.dst
  {
    var t, u := s.threads[k], s.threads[j];
    assert ThreadOk(c, t) && ThreadOk(c, u);
    Exclusive(c, s, k, j, t.todo[0].dst);
    Exclusive(c, s, k, j, t.todo[0].src);
  }

  lemma StepValues(c: Config, s: State, k: nat)
    requires Locking(c, s) && Enabled(c, s, k)
    ensures var s', t := Next(c, s, k), s.threads[k];
      s'.values == if t.pc.Store? then s.values[t.todo[0].dst := s.values[t.todo[0].dst][t.i := t.tmp]] else s.values
  {
  }

  // The new thread state is one for which serial is ahead by the right amount.
  lemma StepAheadSelf(c: Config, s: State, k: nat)
    requires Inv(c, s) && Enabled(c, s, k) && Locking(c, Next(c, s, k))
    requires Adding(s.threads[k]) && Adding(Next(c, s, k).threads[k])
    ensures var s' := Next(c, s, k); Ahead(s'.threads[k], s'.values, SerialOf(c, s), Size(c))
  {
    var t := s.threads[k];
    assert ThreadOk(c, t) && Ahead(t, s.values, SerialOf(c, s), Size(c));
  }

  lemma StepAheadOther(c: Config, s: State, k: nat, j: nat)
    requires Inv(c, s) && Enabled(c, s, k) && Locking(c, Next(c, s, k))
    requires j < |s.threads| && j != k && Adding(s.threads[j])
    ensures var s' := Next(c, s, k); Ahead(s.threads[j], s'.values, SerialOf(c, s), Size(c))
  {
    assert ThreadOk(c, s.threads[j]) && Ahead(s.threads[j], s.values, SerialOf(c, s), Size(c));
    StepValues(c, s, k);
    if s.threads[k].pc.Store? { AddingApart(c, s, k, j); }
  }

  // A call that gets its last lock finds its two vectors as they are in the serial order so far.
  lemma NotWritten(c: Config, s: State, k: nat)
    requires Inv(c, s) && Enabled(c, s, k) && Locking(c, Next(c, s, k)) && Logs(s, Next(c, s, k), k)
    ensures var call := s.threads[k].todo[0];
      && SerialOf(c, s)[call.dst] == s.values[call.dst] && SerialOf(c, s)[call.src] == s.values[call.src]
  {
    var s', call := Next(c, s, k), s.threads[k].todo[0];
    StepThread(c, s, k);
    MoverIsSound(c, s, k);
    StepLog(c, s, k);
    forall j | 0 <= j < |s.threads| && Adding(s.threads[j])
      ensures s.threads[j].todo[0].dst != call.dst && s.threads[j].todo[0].dst != call.src
    {
      assert s'.threads[j] == s.threads[j];
      AddingApart(c, s', k, j);
    }
    assert !Written(s, call.dst) && !Written(s, call.src);
  }

  lemma LogStep(c: Config, s: State, k: nat)
    requires Inv(c, s) && Enabled(c, s, k) && Locking(c, Next(c, s, k)) && Logs(s, Next(c, s, k), k)
    ensures LogInRange(Next(c, s, k).log, |c.vectors|)
    ensures SerialOf(c, Next(c, s, k)) == Apply(SerialOf(c, s), Size(c), s.threads[k].todo[0])
  {
    MoverIsSound(c, s, k);
    StepLog(c, s, k);
    assert ThreadOk(c, s.threads[k]);
    var s' := Next(c, s, k);
    assert s'.log[..|s'.log| - 1] == s.log;
  }

  lemma AheadAfterLog(c: Config, s: State, k: nat, j: nat)
    requires Inv(c, s) && Enabled(c, s, k) && Locking(c, Next(c, s, k)) && Logs(s, Next(c, s, k), k)
    requires j < |s.threads| && Adding(Next(c, s, k).threads[j])
    ensures LogInRange(Next(c, s, k).log, |c.vectors|)
    ensures var s' := Next(c, s, k); Ahead(s'.threads[j], s'.values, SerialOf(c, s'), Size(c))
  {
    LogStep(c, s, k);
    MoverIsSound(c, s, k);
    StepLog(c, s, k);
    StepFrame(c, s, k);
    StepValues(c, s, k);
    if j == k {
      NotWritten(c, s, k);
    } else {
      assert Ahead(s.threads[j], s.values, SerialOf(c, s), Size(c));
      AddingApart(c, Next(c, s, k), k, j);
    }
  }

  lemma UnwrittenAfterLog(c: Config, s: State, k: nat, v: nat)
    requires Inv(c, s) && Enabled(c, s, k) && Locking(c, Next(c, s, k)) && Logs(s, Next(c, s, k), k)
    requires v < |s.values| && !Written(Next(c, s, k), v)
    ensures LogInRange(Next(c, s, k).log, |c.vectors|)
    ensures SerialOf(c, Next(c, s, k))[v] == Next(c, s, k).values[v]
  {
    var s', call := Next(c, s, k), s.threads[k].todo[0];
    LogStep(c, s, k);
    MoverIsSound(c, s, k);
    StepLog(c, s, k);
    StepValues(c, s, k);
    assert Written(s', call.dst) by { assert Adding(s'.threads[k]); }
    WrittenStays(c, s, k, v);
  }

  lemma TracksAfterLog(c: Config, s: State, k: nat)
    requires Inv(c, s) && Enabled(c, s, k) && Locking(c, Next(c, s, k)) && Logs(s, Next(c, s, k), k)
    ensures LogInRange(Next(c, s, k).log, |c.vectors|) && Tracks(c, Next(c, s, k))
  {
    var s' := Next(c, s, k);
    LogStep(c, s, k);
    StepFrame(c, s, k);
    forall j | 0 <= j < |s'.threads| && Adding(s'.threads[j])
      ensures Ahead(s'.threads[j], s'.values, SerialOf(c, s'), Size(c))
    {
      AheadAfterLog(c, s, k, j);
    }
    forall v | 0 <= v < |s'.values| && !Written(s', v) ensures SerialOf(c, s')[v] == s'.values[v] {
      UnwrittenAfterLog(c, s, k, v);
    }
  }

  lemma WrittenStays(c: Config, s: State, k: nat, v: nat)
    requires Locking(c, s) && Enabled(c, s, k) && |Next(c, s, k).threads| == |s.threads|
    requires Adding(s.threads[k]) ==> s.threads[k].todo[0].dst != v
    requires !Written(Next(c, s, k), v)
    ensures !Written(s, v)
  {
    StepThread(c, s, k);
    var s' := Next(c, s, k);
    forall j | 0 <= j < |s.threads| && Adding(s.threads[j]) ensures s.threads[j].todo[0].dst != v {
      assert j != k ==> s'.threads[j] == s.threads[j];
    }
  }

  lemma TracksOtherwise(c: Config, s: State, k: nat)
    requires Inv(c, s) && Enabled(c, s, k) && Locking(c, Next(c, s, k)) && !Logs(s, Next(c, s, k), k)
    ensures LogInRange(Next(c, s, k).log, |c.vectors|) && Tracks(c, Next(c, s, k))
  {
    var s' := Next(c, s, k);
    StepThread(c, s, k);
    MoverIsSound(c, s, k);
    StepLog(c, s, k);
    forall j | 0 <= j < |s'.threads| && Adding(s'.threads[j])
      ensures Ahead(s'.threads[j], s'.values, SerialOf(c, s'), Size(c))
    {
      if j == k { StepAheadSelf(c, s, k); } else { StepAheadOther(c, s, k, j); }
    }
    forall v | 0 <= v < |s'.values| && !Written(s', v) ensures SerialOf(c, s')[v] == s'.values[v] {
      StepUnwritten(c, s, k, v);
    }
  }

  // A thread that stops adding has added everything.
  lemma AddedUp(c: Config, s: State, k: nat)
    requires Inv(c, s) && Enabled(c, s, k)
    requires |Next(c, s, k).threads| == |s.threads| && Adding(s.threads[k]) && !Adding(Next(c, s, k).threads[k])
    ensures SerialOf(c, s)[s.threads[k].todo[0].dst] == s.values[s.threads[k].todo[0].dst]
  {
    var t := s.threads[k];
    assert Ahead(t, s.values, SerialOf(c, s), Size(c)) && ThreadOk(c, t);
    assert t.pc.UnlockOne?;
  }

  lemma StepUnwritten(c: Config, s: State, k: nat, v: nat)
    requires Inv(c, s) && Enabled(c, s, k) && Locking(c, Next(c, s, k)) && !Logs(s, Next(c, s, k), k)
    requires v < |s.values| && !Written(Next(c, s, k), v)
    ensures SerialOf(c, s)[v] == Next(c, s, k).values[v]
  {
    var t := s.threads[k];
    StepFrame(c, s, k);
    StepValues(c, s, k);
    if Adding(t) && t.todo[0].dst == v {
      AddedUp(c, s, k);
    } else {
      WrittenStays(c, s, k, v);
    }
  }

  lemma StepHolds(c: Config, s: State, k: nat)
    requires Inv(c, s) && Enabled(c, s, k)
    ensures Inv(c, Next(c, s, k))
  {
    StepLocking(c, s, k);
    StepThread(c, s, k);
    StepLogged(c, s, k);
    if Logs(s, Next(c, s, k), k) { TracksAfterLog(c, s, k); } else { TracksOtherwise(c, s, k); }
  }

  lemma InitHolds(c: Config)
    requires Legal(c)
    ensures Inv(c, Init(c))
  {
    InitLocking(c);
    var s := Init(c);
    forall k | 0 <= k < |s.threads| ensures !Adding(s.threads[k]) && Unlogged(s.threads[k]) == c.calls[k] {
      assert s.threads[k] == Thread(StartPc(c), c.calls[k], 0, 0);
    }
  }

  lemma {:induction false} RunHolds(c: Config, s: State, schedule: seq<nat>)
    requires Inv(c, s) && Run(c, s, schedule)
    ensures Inv(c, After(c, s, schedule))
    decreases schedule
  {
    if schedule != [] {
      StepHolds(c, s, schedule[0]);
      RunHolds(c, Next(c, s, schedule[0]), schedule[1..]);
    }
  }

  ghost predicate Finished(s: State) {
    forall k :: 0 <= k < |s.threads| ==> s.threads[k].todo == []
  }

  // When all calls have returned, the vectors are as if the calls had run one at a time, in the order in
  // which they got their last lock; that order has every thread's calls, in the thread's own order.
  lemma Serializable(c: Config, schedule: seq<nat>)
    requires Legal(c) && Run(c, Init(c), schedule) && Finished(After(c, Init(c), schedule))
    ensures var s := After(c, Init(c), schedule);
      && LogInRange(s.log, |c.vectors|) && s.values == Serial(c.vectors, Size(c), s.log)
      && forall k :: 0 <= k < |c.calls| ==> LogOf(s.log, k) == c.calls[k]
  {
    InitHolds(c);
    RunHolds(c, Init(c), schedule);
    var s := After(c, Init(c), schedule);
    forall v | 0 <= v < |s.values| ensures !Written(s, v) {}
    forall k | 0 <= k < |c.calls| ensures LogOf(s.log, k) == c.calls[k] {
      assert LogOf(s.log, k) + Unlogged(s.threads[k]) == c.calls[k];
    }
  }

  // ----- Deadlock freedom -----

  ghost predicate CanMove(c: Config, s: State) {
    exists k :: Enabled(c, s, k)
  }

  ghost predicate NoSelfCalls(c: Config) {
    forall k, x :: 0 <= k < |c.calls| && 0 <= x < |c.calls[k]| ==> c.calls[k][x].dst != c.calls[k][x].src
  }

  // The lock that an unfinished thread waits for; beyond all locks if it waits for none.
  ghost function WaitsFor(c: Config, t: Thread): nat {
    if t.todo != [] && t.pc.LockFirst? then First(c, t.todo[0])
    else if t.todo != [] && t.pc.LockSecond? then Second(c, t.todo[0])
    else |c.vectors|
  }

  // With the locks in address order, follow the holders: each waits for a higher lock than the last.
  lemma {:induction false} OrderedMoves(c: Config, s: State, k: nat)
    requires Locking(c, s) && c.variant.GlobalOrder? && k < |s.threads| && s.threads[k].todo != []
    ensures CanMove(c, s)
    decreases |c.vectors| - WaitsFor(c, s.threads[k])
  {
    var t := s.threads[k];
    assert ThreadOk(c, t);
    if !Enabled(c, s, k) {
      var v := WaitsFor(c, t);
      var h := s.locks[v].k;
      assert Holds(c, s.threads[h], v) && ThreadOk(c, s.threads[h]);
      if s.threads[h].pc.LockSecond? {
        OrderedMoves(c, s, h);
      } else {
        assert Enabled(c, s, h);
      }
    }
  }

  // Only the holder of the global lock waits for a vector's lock, and whoever has that one moves on.
  lemma HolderMoves(c: Config, s: State, g: nat)
    requires Locking(c, s) && c.variant.AvoidHoldAndWait? && g < |s.threads| && HoldsGlobal(c, s.threads[g])
    requires s.threads[g].todo[0].dst != s.threads[g].todo[0].src
    ensures CanMove(c, s)
  {
    var t := s.threads[g];
    assert ThreadOk(c, t);
    if !Enabled(c, s, g) {
      var v := WaitsFor(c, t);
      var h := s.locks[v].k;
      assert Holds(c, s.threads[h], v) && ThreadOk(c, s.threads[h]);
      assert s.global == HeldBy(g) && (s.global == HeldBy(h) <==> HoldsGlobal(c, s.threads[h]));
      assert Enabled(c, s, h);
    }
  }

  lemma CurrentCall(c: Config, s: State, k: nat)
    requires Locking(c, s) && Logged(c, s) && NoSelfCalls(c) && k < |s.threads|
    requires Unlogged(s.threads[k]) == s.threads[k].todo != []
    ensures s.threads[k].todo[0].dst != s.threads[k].todo[0].src
  {
    assert LogOf(s.log, k) + Unlogged(s.threads[k]) == c.calls[k];
    assert c.calls[k][|LogOf(s.log, k)|] == s.threads[k].todo[0];
  }

  lemma NotStuck(c: Config, s: State)
    requires Inv(c, s) && !Finished(s)
    requires c.variant.AvoidHoldAndWait? ==> NoSelfCalls(c)
    ensures CanMove(c, s)
  {
    var k :| 0 <= k < |s.threads| && s.threads[k].todo != [];
    assert ThreadOk(c, s.threads[k]);
    match c.variant
    case GlobalOrder => OrderedMoves(c, s, k);
    case TryWait => assert Enabled(c, s, k);
    case AvoidHoldAndWait =>
      if !Enabled(c, s, k) {
        var g := if s.threads[k].pc.LockGlobal? then s.global.k else k;
        assert HoldsGlobal(c, s.threads[g]);
        if s.threads[g].pc.UnlockGlobal? {
          assert Enabled(c, s, g);
        } else {
          CurrentCall(c, s, g);
          HolderMoves(c, s, g);
        }
      }
  }

  // ----- How long runs are -----

  // The steps that a thread has behind it in its current call; backing off gives up the first lock.
  function Progress(size: nat, t: Thread): int {
    match t.pc
    case LockGlobal => 0
    case LockFirst => 1
    case LockSecond => 2
    case BackOff => 0
    case UnlockGlobal => 3
    case LoadDst => 4 + 3 * t.i
    case LoadSrc => 5 + 3 * t.i
    case Store => 6 + 3 * t.i
    case UnlockOne => 5 + 3 * size
    case UnlockOther => 6 + 3 * size
  }

  function CallCost(size: nat): nat {
    7 + 3 * size
  }

  function StepsLeft(size: nat): Thread -> int {
    (t: Thread) => if t.todo == [] then 0 else |t.todo| * CallCost(size) - Progress(size, t)
  }

  ghost function Work(c: Config, s: State): int {
    Sum(StepsLeft(Size(c)), s.threads)
  }

  // A step that finds a lock taken, which only a trylock does.
  ghost predicate FailsToLock(c: Config, s: State, k: nat)
    requires Enabled(c, s, k)
  {
    var t := s.threads[k];
    || (t.pc.LockFirst? && !s.locks[First(c, t.todo[0])].Free?)
    || (t.pc.LockSecond? && !s.locks[Second(c, t.todo[0])].Free?)
  }

  // How often that happens in a run.
  ghost function Failures(c: Config, s: State, schedule: seq<nat>): nat
    requires Run(c, s, schedule)
    decreases schedule
  {
    if schedule == [] then 0
    else (if FailsToLock(c, s, schedule[0]) then 1 else 0) + Failures(c, Next(c, s, schedule[0]), schedule[1..])
  }

  lemma StepWork(c: Config, s: State, k: nat)
    requires Inv(c, s) && Enabled(c, s, k)
    ensures 0 <= Work(c, Next(c, s, k)) <= Work(c, s) - 1 + (if FailsToLock(c, s, k) then 3 else 0)
    ensures FailsToLock(c, s, k) ==> c.variant.TryWait?
  {
    StepThread(c, s, k);
    StepHolds(c, s, k);
    var s' := Next(c, s, k);
    SumUpdate(StepsLeft(Size(c)), s.threads, k, s'.threads[k]);
    WorkNonNegative(c, s');
    StepProgress(c, s, k);
  }

  lemma WorkNonNegative(c: Config, s: State)
    requires Locking(c, s)
    ensures Work(c, s) >= 0
  {
    forall k | 0 <= k < |s.threads| ensures StepsLeft(Size(c))(s.threads[k]) >= 0 {
      assert ThreadOk(c, s.threads[k]);
      AtLeastOnce(|s.threads[k].todo|, CallCost(Size(c)));
    }
    SumNonNegative(StepsLeft(Size(c)), s.threads);
  }

  lemma AtLeastOnce(n: nat, cost: nat)
    ensures n > 0 ==> n * cost == (n - 1) * cost + cost && (n - 1) * cost >= 0
  {
  }

  lemma StepProgress(c: Config, s: State, k: nat)
    requires Locking(c, s) && Enabled(c, s, k)
    ensures |Next(c, s, k).threads| == |s.threads|
    ensures StepsLeft(Size(c))(Next(c, s, k).threads[k])
         <= StepsLeft(Size(c))(s.threads[k]) - 1 + (if FailsToLock(c, s, k) then 3 else 0)
  {
    var t := s.threads[k];
    assert ThreadOk(c, t);
    AtLeastOnce(|t.todo|, CallCost(Size(c)));
  }

  // From every state some run ends where no thread can move.
  lemma {:induction false} RunToTheEnd(c: Config, s: State) returns (schedule: seq<nat>)
    requires Inv(c, s) && !c.variant.TryWait?
    ensures Run(c, s, schedule) && !CanMove(c, After(c, s, schedule))
    decreases Work(c, s)
  {
    schedule := [];
    if CanMove(c, s) {
      var k: nat :| Enabled(c, s, k);
      StepHolds(c, s, k);
      StepWork(c, s, k);
      var rest := RunToTheEnd(c, Next(c, s, k));
      schedule := [k] + rest;
      assert schedule[1..] == rest;
    }
  }

  lemma {:induction false} RunWork(c: Config, s: State, schedule: seq<nat>)
    requires Inv(c, s) && Run(c, s, schedule)
    ensures |schedule| <= Work(c, s) + 3 * Failures(c, s, schedule)
    ensures !c.variant.TryWait? ==> Failures(c, s, schedule) == 0
    decreases schedule
  {
    WorkNonNegative(c, s);
    if schedule != [] {
      StepHolds(c, s, schedule[0]);
      StepWork(c, s, schedule[0]);
      RunWork(c, Next(c, s, schedule[0]), schedule[1..]);
    }
  }

  // No run is longer than its calls have steps and three more for each lock that a trylock finds taken; in
  // the two variants that wait for locks there are none of those.
  lemma RunsEnd(c: Config, schedule: seq<nat>)
    requires Legal(c) && Run(c, Init(c), schedule)
    ensures |schedule| <= Sum(CostOf(Size(c)), c.calls) + 3 * Failures(c, Init(c), schedule)
    ensures !c.variant.TryWait? ==> Failures(c, Init(c), schedule) == 0
  {
    InitHolds(c);
    RunWork(c, Init(c), schedule);
    InitialWork(c);
  }

  lemma InitialWork(c: Config)
    ensures Work(c, Init(c)) <= Sum(CostOf(Size(c)), c.calls)
  {
    InitWork(c, Init(c).threads, c.calls);
  }

  function CostOf(size: nat): seq<Call> -> int {
    (calls: seq<Call>) => |calls| * CallCost(size)
  }

  lemma {:induction false} InitWork(c: Config, threads: seq<Thread>, calls: seq<seq<Call>>)
    requires |threads| == |calls| && forall k :: 0 <= k < |threads| ==> threads[k] == Thread(StartPc(c), calls[k], 0, 0)
    ensures Sum(StepsLeft(Size(c)), threads) <= Sum(CostOf(Size(c)), calls)
  {
    if threads != [] {
      InitWork(c, threads[1..], calls[1..]);
    }
  }

  // ----- When the program finishes -----

  lemma {:induction false} LogOfMember(log: seq<(nat, Call)>, k: nat, x: nat)
    requires x < |LogOf(log, k)|
    ensures exists y :: 0 <= y < |log| && log[y].1 == LogOf(log, k)[x]
  {
    var rest := log[..|log| - 1];
    if x < |LogOf(rest, k)| {
      LogOfMember(rest, k, x);
      var y :| 0 <= y < |rest| && rest[y].1 == LogOf(rest, k)[x];
      assert log[y].1 == LogOf(log, k)[x];
    } else {
      assert log[|log| - 1].1 == LogOf(log, k)[x];
    }
  }

  // vector_add(&v, &v) returns only under the global order: elsewhere the caller waits for, or keeps
  // trying to get, a lock that it holds itself.
  lemma SelfCallNeverReturns(c: Config, schedule: seq<nat>)
    requires Legal(c) && Run(c, Init(c), schedule) && !c.variant.GlobalOrder? && !NoSelfCalls(c)
    ensures !Finished(After(c, Init(c), schedule))
  {
    InitHolds(c);
    RunHolds(c, Init(c), schedule);
    var s := After(c, Init(c), schedule);
    var k, x :| 0 <= k < |c.calls| && 0 <= x < |c.calls[k]| && c.calls[k][x].dst == c.calls[k][x].src;
    assert LogOf(s.log, k) + Unlogged(s.threads[k]) == c.calls[k];
    if x < |LogOf(s.log, k)| {
      LogOfMember(s.log, k, x);
    }
  }

  // No run gets stuck.
  ghost predicate NeverStuck(c: Config) {
    forall schedule :: Run(c, Init(c), schedule) ==>
      Finished(After(c, Init(c), schedule)) || CanMove(c, After(c, Init(c), schedule))
  }

  // Address order never gets stuck, whatever the calls; the global lock exactly if no call adds a vector
  // to itself. A trylock never waits, so there what counts is whether the program can finish.
  lemma WhenItGetsStuck(c: Config)
    requires Legal(c)
    ensures NeverStuck(c) <==> (c.variant.AvoidHoldAndWait? ==> NoSelfCalls(c))
  {
    InitHolds(c);
    if c.variant.AvoidHoldAndWait? ==> NoSelfCalls(c) {
      forall schedule | Run(c, Init(c), schedule)
        ensures Finished(After(c, Init(c), schedule)) || CanMove(c, After(c, Init(c), schedule))
      {
        RunHolds(c, Init(c), schedule);
        if !Finished(After(c, Init(c), schedule)) { NotStuck(c, After(c, Init(c), schedule)); }
      }
    } else {
      var schedule := RunToTheEnd(c, Init(c));
      SelfCallNeverReturns(c, schedule);
    }
  }

  // ----- When trylock can finish -----

  // What a thread has left where trying for the locks is a loop: the fewer locks it holds, the closer it is
  // to trying from the start, and only getting both gets it any further.
  function TriesLeft(size: nat): Thread -> int {
    (t: Thread) => if t.todo == [] then 0 else |t.todo| * CallCost(size) - TryProgress(size, t)
  }

  function TryProgress(size: nat, t: Thread): int {
    match t.pc
    case LockFirst => 2
    case BackOff => 1
    case LockSecond => 0
    case _ => Progress(size, t)
  }

  ghost function TryWork(c: Config, s: State): int {
    Sum(TriesLeft(Size(c)), s.threads)
  }

  lemma TryWorkNonNegative(c: Config, s: State)
    requires Locking(c, s)
    ensures TryWork(c, s) >= 0
  {
    forall k | 0 <= k < |s.threads| ensures TriesLeft(Size(c))(s.threads[k]) >= 0 {
      assert ThreadOk(c, s.threads[k]);
      AtLeastOnce(|s.threads[k].todo|, CallCost(Size(c)));
    }
    SumNonNegative(TriesLeft(Size(c)), s.threads);
  }

  // A thread that holds both locks runs on; one that holds one gets the other or backs off.
  lemma StepTries(c: Config, s: State, k: nat)
    requires Locking(c, s) && Enabled(c, s, k) && c.variant.TryWait? && !s.threads[k].pc.LockFirst?
    ensures TryWork(c, Next(c, s, k)) < TryWork(c, s)
  {
    StepFrame(c, s, k);
    SumUpdate(TriesLeft(Size(c)), s.threads, k, Next(c, s, k).threads[k]);
    TriesLess(c, s, k);
  }

  lemma TriesLess(c: Config, s: State, k: nat)
    requires Locking(c, s) && Enabled(c, s, k) && c.variant.TryWait? && !s.threads[k].pc.LockFirst?
    ensures |Next(c, s, k).threads| == |s.threads|
    ensures TriesLeft(Size(c))(Next(c, s, k).threads[k]) < TriesLeft(Size(c))(s.threads[k])
  {
    var t := s.threads[k];
    assert ThreadOk(c, t);
    AtLeastOnce(|t.todo|, CallCost(Size(c)));
  }

  // All threads with calls left are about to try for their first lock.
  ghost predicate AllAtStart(s: State) {
    forall j :: 0 <= j < |s.threads| && s.threads[j].todo != [] ==> s.threads[j].pc.LockFirst?
  }

  lemma AllFree(c: Config, s: State, v: nat)
    requires Locking(c, s) && c.variant.TryWait? && AllAtStart(s) && v < |s.locks|
    ensures s.locks[v].Free?
  {
    forall k | 0 <= k < |s.threads| ensures s.locks[v] != HeldBy(k) {
      assert !Holds(c, s.threads[k], v);
    }
  }

  lemma TakesFirst(c: Config, s: State, k: nat)
    requires Sane(c, s) && c.variant.TryWait? && k < |s.threads|
    requires s.threads[k].todo != [] && s.threads[k].pc.LockFirst? && s.locks[s.threads[k].todo[0].dst].Free?
    ensures Enabled(c, s, k)
    ensures Next(c, s, k) == s.(locks := s.locks[s.threads[k].todo[0].dst := HeldBy(k)],
                                threads := s.threads[k := s.threads[k].(pc := LockSecond)])
  {
  }

  lemma TakesSecond(c: Config, s: State, k: nat)
    requires Sane(c, s) && c.variant.TryWait? && k < |s.threads|
    requires s.threads[k].todo != [] && s.threads[k].pc.LockSecond? && s.locks[s.threads[k].todo[0].src].Free?
    ensures Enabled(c, s, k) && |Next(c, s, k).threads| == |s.threads|
    ensures Next(c, s, k).threads == s.threads[k := s.threads[k].(pc := LoadDst, i := 0)]
  {
  }

  // Then any one of them gets both locks in two steps.
  lemma GetsBoth(c: Config, s: State, k: nat)
    requires Inv(c, s) && c.variant.TryWait? && NoSelfCalls(c) && AllAtStart(s)
    requires k < |s.threads| && s.threads[k].todo != []
    ensures Enabled(c, s, k) && Enabled(c, Next(c, s, k), k)
    ensures TryWork(c, Next(c, Next(c, s, k), k)) < TryWork(c, s)
  {
    CurrentCall(c, s, k);
    AllFree(c, s, s.threads[k].todo[0].dst);
    AllFree(c, s, s.threads[k].todo[0].src);
    TakesBoth(c, s, k);
    BothCloser(c, s.threads, k);
  }

  lemma TakesBoth(c: Config, s: State, k: nat)
    requires Sane(c, s) && c.variant.TryWait? && k < |s.threads|
    requires s.threads[k].todo != [] && s.threads[k].pc.LockFirst?
    requires var call := s.threads[k].todo[0];
      call.dst != call.src && s.locks[call.dst].Free? && s.locks[call.src].Free?
    ensures Enabled(c, s, k) && Enabled(c, Next(c, s, k), k)
    ensures Next(c, Next(c, s, k), k).threads == s.threads[k := s.threads[k].(pc := LoadDst, i := 0)]
  {
    TakesFirst(c, s, k);
    TakesSecond(c, Next(c, s, k), k);
  }

  lemma BothCloser(c: Config, threads: seq<Thread>, k: nat)
    requires k < |threads| && threads[k].todo != [] && threads[k].pc.LockFirst?
    ensures Sum(TriesLeft(Size(c)), threads[k := threads[k].(pc := LoadDst, i := 0)])
          < Sum(TriesLeft(Size(c)), threads)
  {
    SumUpdate(TriesLeft(Size(c)), threads, k, threads[k].(pc := LoadDst, i := 0));
  }

  lemma RunTwo(c: Config, s: State, i: nat, j: nat)
    requires Enabled(c, s, i) && Enabled(c, Next(c, s, i), j)
    ensures Run(c, s, [i, j]) && After(c, s, [i, j]) == Next(c, Next(c, s, i), j)
  {
    var s1 := Next(c, s, i);
    assert Run(c, Next(c, s1, j), []);
    assert [j][1..] == [] && Run(c, s1, [j]) && After(c, s1, [j]) == Next(c, s1, j);
    assert [i, j][1..] == [j];
  }

  lemma {:induction false} RunOn(c: Config, s: State, schedule: seq<nat>, rest: seq<nat>)
    requires Run(c, s, schedule) && Run(c, After(c, s, schedule), rest)
    ensures Run(c, s, schedule + rest) && After(c, s, schedule + rest) == After(c, After(c, s, schedule), rest)
    decreases schedule
  {
    if schedule == [] {
      assert schedule + rest == rest;
    } else {
      assert (schedule + rest)[1..] == schedule[1..] + rest;
      RunOn(c, Next(c, s, schedule[0]), schedule[1..], rest);
    }
  }

  // First whoever holds a lock makes its call or backs off, then one call is made alone, and so on.
  lemma {:induction false} TryToTheEnd(c: Config, s: State) returns (schedule: seq<nat>)
    requires Inv(c, s) && c.variant.TryWait? && NoSelfCalls(c)
    ensures Run(c, s, schedule) && Finished(After(c, s, schedule))
    decreases TryWork(c, s)
  {
    TryWorkNonNegative(c, s);
    schedule := [];
    if k: nat :| k < |s.threads| && s.threads[k].todo != [] && !s.threads[k].pc.LockFirst? {
      assert ThreadOk(c, s.threads[k]) && Enabled(c, s, k);
      StepHolds(c, s, k);
      StepTries(c, s, k);
      var rest := TryToTheEnd(c, Next(c, s, k));
      schedule := [k] + rest;
      assert schedule[1..] == rest;
    } else if k: nat :| k < |s.threads| && s.threads[k].todo != [] {
      GetsBoth(c, s, k);
      StepHolds(c, s, k);
      StepHolds(c, Next(c, s, k), k);
      RunTwo(c, s, k, k);
      var rest := TryToTheEnd(c, After(c, s, [k, k]));
      schedule := [k, k] + rest;
      RunOn(c, s, [k, k], rest);
    }
  }

  ghost predicate CanFinish(c: Config, s: State) {
    exists rest :: Run(c, s, rest) && Finished(After(c, s, rest))
  }

  // However a run has gone, it can still be continued to its end.
  ghost predicate CanAlwaysFinish(c: Config) {
    forall schedule :: Run(c, Init(c), schedule) ==> CanFinish(c, After(c, Init(c), schedule))
  }

  // Whatever has happened, all calls can still return: under the global order always, and in the other two
  // variants exactly if no call adds a vector to itself.
  lemma WhenItCanFinish(c: Config)
    requires Legal(c)
    ensures CanAlwaysFinish(c) <==> (c.variant.GlobalOrder? || NoSelfCalls(c))
  {
    InitHolds(c);
    if c.variant.GlobalOrder? || NoSelfCalls(c) {
      forall schedule | Run(c, Init(c), schedule) ensures CanFinish(c, After(c, Init(c), schedule)) {
        RunHolds(c, Init(c), schedule);
        FinishFrom(c, After(c, Init(c), schedule));
      }
    } else if CanAlwaysFinish(c) {
      assert Run(c, Init(c), []) && After(c, Init(c), []) == Init(c);
      var rest :| Run(c, Init(c), rest) && Finished(After(c, Init(c), rest));
      SelfCallNeverReturns(c, rest);
    }
  }

  lemma FinishFrom(c: Config, s: State)
    requires Inv(c, s) && (c.variant.GlobalOrder? || NoSelfCalls(c))
    ensures CanFinish(c, s)
  {
    if c.variant.TryWait? {
      var rest := TryToTheEnd(c, s);
    } else {
      var rest := RunToTheEnd(c, s);
      RunHolds(c, s, rest);
      if !Finished(After(c, s, rest)) { NotStuck(c, After(c, s, rest)); }
    }
  }

  // A schedule that leads back to where it started.
  ghost predicate Repeats(c: Config, s: State, schedule: seq<nat>) {
    Run(c, s, schedule) && After(c, s, schedule) == s
  }

  function Times(round: seq<nat>, n: nat): seq<nat> {
    if n == 0 then [] else round + Times(round, n - 1)
  }

  lemma {:induction false} RepeatsAgain(c: Config, s: State, round: seq<nat>, n: nat)
    requires Repeats(c, s, round)
    ensures Repeats(c, s, Times(round, n))
  {
    if n > 0 {
      RepeatsAgain(c, s, round, n - 1);
      RunOn(c, s, round, Times(round, n - 1));
    }
  }

  // Two threads that add the same two vectors in opposite directions.
  ghost predicate Opposed(c: Config) {
    && Legal(c) && c.variant.TryWait? && |c.calls| >= 2 && c.calls[0] != [] && c.calls[1] != []
    && c.calls[0][0].dst == c.calls[1][0].src
    && c.calls[0][0].src == c.calls[1][0].dst
    && c.calls[0][0].dst != c.calls[0][0].src
  }

  // Both threads have got their first locks and are at the same statement.
  ghost function BothAt(c: Config, pc: PC): State
    requires Opposed(c)
  {
    var s := Init(c);
    assert InRange(c, c.calls[0]) && InRange(c, c.calls[1]);
    s.(locks := s.locks[c.calls[0][0].dst := HeldBy(0)][c.calls[1][0].dst := HeldBy(1)],
       threads := s.threads[0 := Thread(pc, c.calls[0], 0, 0)][1 := Thread(pc, c.calls[1], 0, 0)])
  }

  lemma BothSane(c: Config, pc: PC)
    requires Opposed(c) && !pc.LoadSrc? && !pc.Store?
    ensures Sane(c, BothAt(c, pc))
  {
    InitLocking(c);
  }

  lemma OpposedStart(c: Config)
    requires Opposed(c)
    ensures Init(c).threads[0] == Thread(LockFirst, c.calls[0], 0, 0)
    ensures Init(c).threads[1] == Thread(LockFirst, c.calls[1], 0, 0)
  {
    var s := Init(c);
    assert s.threads[0] == Thread(StartPc(c), c.calls[0], 0, 0);
    assert s.threads[1] == Thread(StartPc(c), c.calls[1], 0, 0);
  }

  lemma BothTake(c: Config)
    requires Opposed(c)
    ensures Enabled(c, Init(c), 0) && Enabled(c, Next(c, Init(c), 0), 1)
    ensures Next(c, Next(c, Init(c), 0), 1) == BothAt(c, LockSecond)
  {
    InitLocking(c);
    assert InRange(c, c.calls[0]) && InRange(c, c.calls[1]);
    OpposedStart(c);
    TakesFirst(c, Init(c), 0);
    StepLocking(c, Init(c), 0);
    TakesFirst(c, Next(c, Init(c), 0), 1);
  }

  lemma BothFail(c: Config)
    requires Opposed(c)
    ensures var s := BothAt(c, LockSecond);
      && Enabled(c, s, 0) && Enabled(c, Next(c, s, 0), 1)
      && Next(c, Next(c, s, 0), 1) == BothAt(c, BackOff)
  {
    var s := BothAt(c, LockSecond);
    BothSane(c, LockSecond);
    assert Next(c, s, 0) == Set(s, 0, s.threads[0].(pc := BackOff));
    assert Next(c, Next(c, s, 0), 1).threads == BothAt(c, BackOff).threads;
  }

  lemma BothBackOff(c: Config)
    requires Opposed(c)
    ensures var s := BothAt(c, BackOff);
      && Enabled(c, s, 0) && Enabled(c, Next(c, s, 0), 1)
      && Next(c, Next(c, s, 0), 1) == Init(c)
  {
    var s := BothAt(c, BackOff);
    BothSane(c, BackOff);
    OpposedStart(c);
    assert Next(c, Next(c, s, 0), 1).threads == Init(c).threads;
    assert Next(c, Next(c, s, 0), 1).locks == Init(c).locks;
  }

  // That a trylock program can finish does not mean that it must: opposed threads can take one lock each,
  // fail to get the other, and back off, for ever, and each of them moves in every round.
  lemma MayTryForEver(c: Config, n: nat)
    requires Opposed(c)
    ensures Repeats(c, Init(c), Times([0, 1] + [0, 1] + [0, 1], n))
  {
    BothTake(c);
    BothFail(c);
    BothBackOff(c);
    RunTwo(c, Init(c), 0, 1);
    RunTwo(c, BothAt(c, LockSecond), 0, 1);
    RunTwo(c, BothAt(c, BackOff), 0, 1);
    RunOn(c, Init(c), [0, 1], [0, 1]);
    RunOn(c, Init(c), [0, 1] + [0, 1], [0, 1]);
    RepeatsAgain(c, Init(c), [0, 1] + [0, 1] + [0, 1], n);
  }

  // Each thread makes its calls on one pair of vectors, its own if they are to run in parallel and otherwise the first
  // two; it adds the second to the first, or the other way round in every other thread if a deadlock is to be caused.
  lemma MainPairs(numThreads: nat, loops: nat, parallel: bool, causeDeadlock: bool, k: nat)
    requires k < numThreads
    ensures var calls := MainCalls(numThreads, loops, parallel, causeDeadlock);
      && |calls| == numThreads && |calls[k]| == loops
      && forall x :: 0 <= x < loops ==>
          && (if parallel then {calls[k][x].dst, calls[k][x].src} == {2 * k, 2 * k + 1}
              else {calls[k][x].dst, calls[k][x].src} == {0, 1})
          && (calls[k][x].dst < calls[k][x].src <==> !(causeDeadlock && k % 2 == 1))
  {
  }

  // The calls that main hands out add no vector to itself: none of the three variants gets stuck on them, and
  // however a run has gone, all threads can still return.
  lemma MainCanFinish(
      variant: Variant, vectors: seq<seq<int>>, numThreads: nat, loops: nat, parallel: bool, causeDeadlock: bool)
    requires forall v :: 0 <= v < |vectors| ==> |vectors[v]| == |vectors[0]|
    requires 2 * numThreads <= |vectors|
    ensures var c := Config(variant, vectors, MainCalls(numThreads, loops, parallel, causeDeadlock));
      Legal(c) && NeverStuck(c) && CanAlwaysFinish(c)
  {
    var c := Config(variant, vectors, MainCalls(numThreads, loops, parallel, causeDeadlock));
    WhenItGetsStuck(c);
    WhenItCanFinish(c);
  }
}
