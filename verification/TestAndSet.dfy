// The spin lock x86/test-and-set.s on the machine of module X86: any number of threads, any loop counts in %bx, and any
// interleaving.
module TestAndSet {
  import opened Counting
  import opened X86

  // Where the loader puts the variables mutex and count.
  const MUTEX := 100
  const COUNT := 104
  const LENGTH := 12

  // The instruction of test-and-set.s that the loader puts k cells after the load address.
  function Program(loadaddr: int, k: int): Instr
    requires 0 <= k < LENGTH
  {
    match k
    case 0 => MovIR(1, AX)
    case 1 => Xchg(AX, Variable(MUTEX))
    case 2 => TestIR(0, AX)
    case 3 => Jne(loadaddr)
    case 4 => MovMR(Variable(COUNT), AX)
    case 5 => AddIR(1, AX)
    case 6 => MovRM(AX, Variable(COUNT))
    case 7 => MovIM(0, Variable(MUTEX))
    case 8 => SubIR(1, BX)
    case 9 => TestIR(0, BX)
    case 10 => Jgt(loadaddr)
    case 11 => Halt
  }

  predicate InstrAt(mem: Memory, loadaddr: int, k: int)
    requires 0 <= k < LENGTH
  {
    loadaddr + k in mem && mem[loadaddr + k] == Code(Program(loadaddr, k))
  }

  // The program is in memory at an address beyond the variables.
  ghost predicate Loaded(mem: Memory, loadaddr: int) {
    && loadaddr > COUNT + 4
    && (forall k :: 0 <= k < LENGTH ==> InstrAt(mem, loadaddr, k))
    && HasData(mem, MUTEX) && HasData(mem, COUNT)
  }

  datatype Vars = Vars(mutex: int, count: int)

  function VarsOf(mem: Memory): Vars
    requires HasData(mem, MUTEX) && HasData(mem, COUNT)
  {
    Vars(mem[MUTEX].value, mem[COUNT].value)
  }

  // The effect of the instruction at offset o, in the program's own terms.
  function Local(loadaddr: int, c: Core, v: Vars): (Core, Vars)
    requires 0 <= c.pc - loadaddr < LENGTH
  {
    var n := c.(pc := c.pc + 1);
    match c.pc - loadaddr
    case 0 => (n.(regs := c.regs.(ax := 1)), v)
    case 1 => (n.(regs := c.regs.(ax := v.mutex)), v.(mutex := c.regs.ax))
    case 2 => (n.(conds := Test(0, c.regs.ax)), v)
    case 3 => (JumpIf(n, c.conds.neq, loadaddr), v)
    case 4 => (n.(regs := c.regs.(ax := v.count)), v)
    case 5 => (n.(regs := c.regs.(ax := c.regs.ax + 1)), v)
    case 6 => (n, v.(count := c.regs.ax))
    case 7 => (n, v.(mutex := 0))
    case 8 => (n.(regs := c.regs.(bx := c.regs.bx - 1)), v)
    case 9 => (n.(conds := Test(0, c.regs.bx)), v)
    case 10 => (JumpIf(n, c.conds.gt, loadaddr), v)
    case 11 => (n, v)
  }

  lemma CycleIsLocal(loadaddr: int, c: Core, mem: Memory)
    requires Loaded(mem, loadaddr) && 0 <= c.pc - loadaddr < LENGTH && c.regs.zero == 0
    ensures var done := Cycle(c, mem);
      && !done.Crash? && Loaded(done.mem, loadaddr)
      && (done.core, VarsOf(done.mem)) == Local(loadaddr, c, VarsOf(mem))
      && done.rc == if c.pc == loadaddr + 11 then Halted else Continue
  {
    var k := c.pc - loadaddr;
    assert InstrAt(mem, loadaddr, k);
    var done := Cycle(c, mem);
    forall j | 0 <= j < LENGTH ensures InstrAt(done.mem, loadaddr, j) {
      assert InstrAt(mem, loadaddr, j);
    }
  }

  // ----- Who has the lock -----

  // The exchange gave 0, and the lock has not been given back.
  predicate Owns(loadaddr: int, c: Core) {
    var o := c.pc - loadaddr;
    ((o == 2 || o == 3) && c.regs.ax == 0) || 4 <= o <= 7
  }

  function OwnerAt(loadaddr: int): ThreadState -> bool {
    (t: ThreadState) => t.Live? && Owns(loadaddr, t.core)
  }

  predicate Inside(loadaddr: int, c: Core) {
    4 <= c.pc - loadaddr <= 7
  }

  ghost predicate ThreadOk(loadaddr: int, c: Core, v: Vars) {
    var o := c.pc - loadaddr;
    && 0 <= o < LENGTH && c.regs.zero == 0
    && (o == 1 ==> c.regs.ax == 1)
    && (o == 3 ==> (c.conds.neq <==> c.regs.ax != 0))
    && (o == 5 ==> c.regs.ax == v.count)
    && (o == 6 ==> c.regs.ax == v.count + 1)
    && (o == 10 ==> (c.conds.gt <==> c.regs.bx > 0))
  }

  // The variable is 1 while some thread has the lock, and 0 while none has.
  ghost predicate Inv(loadaddr: int, m: Machine) {
    && Loaded(m.mem, loadaddr)
    && 0 <= VarsOf(m.mem).mutex <= 1
    && VarsOf(m.mem).mutex == Count(OwnerAt(loadaddr), m.threads)
    && forall i :: IsLive(m, i) ==> ThreadOk(loadaddr, m.threads[i].core, VarsOf(m.mem))
  }

  // All threads at the start of the program.
  ghost predicate Start(loadaddr: int, m: Machine) {
    && Loaded(m.mem, loadaddr) && VarsOf(m.mem) == Vars(0, 0)
    && forall i :: 0 <= i < |m.threads| ==>
        m.threads[i].Live? && m.threads[i].core.pc == loadaddr && m.threads[i].core.regs.zero == 0
  }

  lemma StartHolds(loadaddr: int, m: Machine)
    requires Start(loadaddr, m)
    ensures Inv(loadaddr, m)
  {
    CountZero(OwnerAt(loadaddr), m.threads);
  }

  // The step of thread i, seen from the whole machine.
  lemma StepIsLocal(loadaddr: int, m: Machine, i: nat)
    requires Inv(loadaddr, m) && IsLive(m, i)
    ensures CanStep(m, i) && Loaded(Step(m, i).mem, loadaddr)
    ensures var c := m.threads[i].core; var (c', v') := Local(loadaddr, c, VarsOf(m.mem));
      && VarsOf(Step(m, i).mem) == v'
      && Step(m, i).threads == m.threads[i := if c.pc == loadaddr + 11 then Stopped else Live(c')]
  {
    CycleIsLocal(loadaddr, m.threads[i].core, m.mem);
  }

  // No other thread has the lock if thread i has it, and none has it if the variable is 0.
  lemma OtherOwners(loadaddr: int, m: Machine, i: nat, j: nat)
    requires Inv(loadaddr, m) && IsLive(m, i) && IsLive(m, j) && i != j && Owns(loadaddr, m.threads[j].core)
    ensures !Owns(loadaddr, m.threads[i].core) && VarsOf(m.mem).mutex == 1
  {
    CountZero(OwnerAt(loadaddr), m.threads);
    AtMostOne(OwnerAt(loadaddr), m.threads, j);
  }

  lemma StepOk(loadaddr: int, m: Machine, i: nat, j: nat)
    requires Inv(loadaddr, m) && IsLive(m, i) && CanStep(m, i) && Loaded(Step(m, i).mem, loadaddr)
    requires IsLive(Step(m, i), j)
    ensures ThreadOk(loadaddr, Step(m, i).threads[j].core, VarsOf(Step(m, i).mem))
  {
    StepIsLocal(loadaddr, m, i);
    assert ThreadOk(loadaddr, m.threads[i].core, VarsOf(m.mem));
    if j != i {
      assert IsLive(m, j) && ThreadOk(loadaddr, m.threads[j].core, VarsOf(m.mem));
      if Owns(loadaddr, m.threads[j].core) { OtherOwners(loadaddr, m, i, j); }
    }
  }

  lemma StepHolds(loadaddr: int, m: Machine, i: nat)
    requires Inv(loadaddr, m) && IsLive(m, i)
    ensures CanStep(m, i) && Inv(loadaddr, Step(m, i))
  {
    StepIsLocal(loadaddr, m, i);
    assert ThreadOk(loadaddr, m.threads[i].core, VarsOf(m.mem));
    CountZero(OwnerAt(loadaddr), m.threads);
    CountUpdate(OwnerAt(loadaddr), m.threads, i, Step(m, i).threads[i]);
    forall j: nat | IsLive(Step(m, i), j)
      ensures ThreadOk(loadaddr, Step(m, i).threads[j].core, VarsOf(Step(m, i).mem))
    {
      StepOk(loadaddr, m, i, j);
    }
  }

  // No instruction of the program can fail, whatever the schedule.
  lemma {:induction false} RunHolds(loadaddr: int, m: Machine, schedule: seq<nat>)
    requires Inv(loadaddr, m) && Interleaving(m, schedule)
    ensures Inv(loadaddr, After(m, schedule))
    ensures forall i :: IsLive(After(m, schedule), i) ==> CanStep(After(m, schedule), i)
    decreases schedule
  {
    if schedule != [] {
      StepHolds(loadaddr, m, schedule[0]);
      RunHolds(loadaddr, Step(m, schedule[0]), schedule[1..]);
    } else {
      forall i: nat | IsLive(m, i) ensures CanStep(m, i) { StepHolds(loadaddr, m, i); }
    }
  }

  lemma MutualExclusion(loadaddr: int, m: Machine, schedule: seq<nat>, i: nat, j: nat)
    requires Start(loadaddr, m) && Interleaving(m, schedule)
    requires IsLive(After(m, schedule), i) && Inside(loadaddr, After(m, schedule).threads[i].core)
    requires IsLive(After(m, schedule), j) && Inside(loadaddr, After(m, schedule).threads[j].core)
    ensures i == j
  {
    StartHolds(loadaddr, m);
    RunHolds(loadaddr, m, schedule);
    if i != j { OtherOwners(loadaddr, After(m, schedule), i, j); }
  }

  // ----- The final count -----

  // The increments of count that a thread has before it.
  function Left(loadaddr: int, c: Core): int {
    var o := c.pc - loadaddr;
    if o <= 6 then AtLeast(1, c.regs.bx)
    else if o <= 8 then AtLeast(1, c.regs.bx) - 1
    else if o <= 10 then AtLeast(0, c.regs.bx)
    else 0
  }

  function LeftOf(loadaddr: int): ThreadState -> int {
    (t: ThreadState) => if t.Live? then Left(loadaddr, t.core) else 0
  }

  ghost function Total(loadaddr: int, m: Machine): int
    requires Loaded(m.mem, loadaddr)
  {
    VarsOf(m.mem).count + Sum(LeftOf(loadaddr), m.threads)
  }

  // What is counted and what is still to be counted stay the same together.
  lemma StepTotal(loadaddr: int, m: Machine, i: nat)
    requires Inv(loadaddr, m) && IsLive(m, i)
    ensures CanStep(m, i) && Inv(loadaddr, Step(m, i)) && Total(loadaddr, Step(m, i)) == Total(loadaddr, m)
  {
    StepHolds(loadaddr, m, i);
    StepIsLocal(loadaddr, m, i);
    assert ThreadOk(loadaddr, m.threads[i].core, VarsOf(m.mem));
    SumUpdate(LeftOf(loadaddr), m.threads, i, Step(m, i).threads[i]);
  }

  lemma {:induction false} RunTotal(loadaddr: int, m: Machine, schedule: seq<nat>)
    requires Inv(loadaddr, m) && Interleaving(m, schedule)
    ensures Inv(loadaddr, After(m, schedule)) && Total(loadaddr, After(m, schedule)) == Total(loadaddr, m)
    decreases schedule
  {
    if schedule != [] {
      StepTotal(loadaddr, m, schedule[0]);
      RunTotal(loadaddr, Step(m, schedule[0]), schedule[1..]);
    }
  }

  lemma {:induction false} StartTotal(loadaddr: int, threads: seq<ThreadState>)
    requires forall i :: 0 <= i < |threads| ==> threads[i].Live? && threads[i].core.pc == loadaddr
    ensures Sum(LeftOf(loadaddr), threads) == Sum(Loops, threads)
  {
    if threads != [] {
      StartTotal(loadaddr, threads[1..]);
    }
  }

  // When all threads have halted, count is the number of iterations of all threads together, and the lock is free.
  lemma FinalCount(loadaddr: int, m: Machine, schedule: seq<nat>)
    requires Start(loadaddr, m) && Interleaving(m, schedule) && AllStopped(After(m, schedule))
    ensures Loaded(After(m, schedule).mem, loadaddr)
    ensures VarsOf(After(m, schedule).mem) == Vars(0, Sum(Loops, m.threads))
  {
    StartHolds(loadaddr, m);
    RunTotal(loadaddr, m, schedule);
    SumZero(LeftOf(loadaddr), After(m, schedule).threads);
    CountZero(OwnerAt(loadaddr), After(m, schedule).threads);
    StartTotal(loadaddr, m.threads);
  }

  // ----- All threads can halt -----

  // The instructions that a thread executes, at most, before it counts, or halts, if it gets the lock when it tries.
  // One that has failed to get it tries again.
  function ToCount(loadaddr: int, c: Core): int {
    match c.pc - loadaddr
    case 0 => 8
    case 1 => 7
    case 2 => if c.regs.ax == 0 then 6 else 10
    case 3 => if c.regs.ax == 0 then 5 else 9
    case 4 => 4
    case 5 => 3
    case 6 => 2
    case 7 => 14
    case 8 => 13
    case 9 => 12
    case 10 => 11
    case _ => 1
  }

  function WorkOf(loadaddr: int): ThreadState -> int {
    (t: ThreadState) => if t.Live? then 20 * Left(loadaddr, t.core) + ToCount(loadaddr, t.core) else 0
  }

  ghost function Work(loadaddr: int, m: Machine): int {
    Sum(WorkOf(loadaddr), m.threads)
  }

  lemma WorkNonNegative(loadaddr: int, m: Machine)
    ensures Work(loadaddr, m) >= 0
  {
    SumNonNegative(WorkOf(loadaddr), m.threads);
  }

  // The owner of the lock gets on, and so does every thread if there is none.
  lemma StepWorks(loadaddr: int, m: Machine, i: nat)
    requires Inv(loadaddr, m) && IsLive(m, i)
    requires Owns(loadaddr, m.threads[i].core) || VarsOf(m.mem).mutex == 0
    ensures CanStep(m, i) && Work(loadaddr, Step(m, i)) < Work(loadaddr, m)
  {
    StepIsLocal(loadaddr, m, i);
    assert ThreadOk(loadaddr, m.threads[i].core, VarsOf(m.mem));
    SumUpdate(WorkOf(loadaddr), m.threads, i, Step(m, i).threads[i]);
  }

  // From every state some schedule halts all threads.
  lemma {:induction false} RunToHalt(loadaddr: int, m: Machine) returns (schedule: seq<nat>)
    requires Inv(loadaddr, m)
    ensures Interleaving(m, schedule) && AllStopped(After(m, schedule))
    decreases Work(loadaddr, m)
  {
    WorkNonNegative(loadaddr, m);
    schedule := [];
    if !AllStopped(m) {
      CountZero(OwnerAt(loadaddr), m.threads);
      var i: nat :| IsLive(m, i) && (Owns(loadaddr, m.threads[i].core) || VarsOf(m.mem).mutex == 0);
      StepWorks(loadaddr, m, i);
      StepHolds(loadaddr, m, i);
      var rest := RunToHalt(loadaddr, Step(m, i));
      schedule := [i] + rest;
      assert schedule[1..] == rest;
    }
  }

  // However a run has gone, all threads can still halt: the lock is never lost.
  lemma CanHalt(loadaddr: int, m: Machine, schedule: seq<nat>) returns (rest: seq<nat>)
    requires Start(loadaddr, m) && Interleaving(m, schedule)
    ensures Interleaving(After(m, schedule), rest) && AllStopped(After(After(m, schedule), rest))
  {
    StartHolds(loadaddr, m);
    RunHolds(loadaddr, m, schedule);
    rest := RunToHalt(loadaddr, After(m, schedule));
  }
}
