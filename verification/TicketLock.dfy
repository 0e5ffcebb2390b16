// The ticket lock x86/ticket.s on the machine of module X86: any number of threads, any loop counts in %bx, any
// interleaving for what is safe, and the round-robin CPU for the end of the run.
module TicketLock {
  import opened Counting
  import opened X86

  // Where the loader puts the variables ticket, turn and count.
  const TICKET := 100
  const TURN := 104
  const COUNT := 108
  const LENGTH := 14

  // The instruction of ticket.s that the loader puts k cells after the load address.
  function Program(loadaddr: int, k: int): Instr
    requires 0 <= k < LENGTH
  {
    match k
    case 0 => MovIR(1, AX)
    case 1 => FetchAdd(AX, Variable(TICKET))
    case 2 => MovMR(Variable(TURN), CX)
    case 3 => TestRR(CX, AX)
    case 4 => Jne(loadaddr + 2)
    case 5 => MovMR(Variable(COUNT), AX)
    case 6 => AddIR(1, AX)
    case 7 => MovRM(AX, Variable(COUNT))
    case 8 => MovIR(1, AX)
    case 9 => FetchAdd(AX, Variable(TURN))
    case 10 => SubIR(1, BX)
    case 11 => TestIR(0, BX)
    case 12 => Jgt(loadaddr)
    case 13 => Halt
  }

  datatype Vars = Vars(ticket: int, turn: int, count: int)

  predicate InstrAt(mem: Memory, loadaddr: int, k: int)
    requires 0 <= k < LENGTH
  {
    loadaddr + k in mem && mem[loadaddr + k] == Code(Program(loadaddr, k))
  }

  // The program is in memory at an address beyond the variables.
  ghost predicate Loaded(mem: Memory, loadaddr: int) {
    && loadaddr > COUNT + 4
    && (forall k :: 0 <= k < LENGTH ==> InstrAt(mem, loadaddr, k))
    && HasData(mem, TICKET) && HasData(mem, TURN) && HasData(mem, COUNT)
  }

  function VarsOf(mem: Memory): Vars
    requires HasData(mem, TICKET) && HasData(mem, TURN) && HasData(mem, COUNT)
  {
    Vars(mem[TICKET].value, mem[TURN].value, mem[COUNT].value)
  }

  // ----- What one thread does -----

  // The effect of the instruction at offset o, in the program's own terms.
  function Local(loadaddr: int, c: Core, v: Vars): (Core, Vars)
    requires 0 <= c.pc - loadaddr < LENGTH
  {
    var n := c.(pc := c.pc + 1);
    match c.pc - loadaddr
    case 0 => (n.(regs := c.regs.(ax := 1)), v)
    case 1 => (n.(regs := c.regs.(ax := v.ticket)), v.(ticket := v.ticket + c.regs.ax))
    case 2 => (n.(regs := c.regs.(cx := v.turn)), v)
    case 3 => (n.(conds := Test(c.regs.cx, c.regs.ax)), v)
    case 4 => (JumpIf(n, c.conds.neq, loadaddr + 2), v)
    case 5 => (n.(regs := c.regs.(ax := v.count)), v)
    case 6 => (n.(regs := c.regs.(ax := c.regs.ax + 1)), v)
    case 7 => (n, v.(count := c.regs.ax))
    case 8 => (n.(regs := c.regs.(ax := 1)), v)
    case 9 => (n.(regs := c.regs.(ax := v.turn)), v.(turn := v.turn + c.regs.ax))
    case 10 => (n.(regs := c.regs.(bx := c.regs.bx - 1)), v)
    case 11 => (n.(conds := Test(0, c.regs.bx)), v)
    case 12 => (JumpIf(n, c.conds.gt, loadaddr), v)
    case 13 => (n, v)
  }

  lemma CycleIsLocal(loadaddr: int, c: Core, mem: Memory)
    requires Loaded(mem, loadaddr) && 0 <= c.pc - loadaddr < LENGTH && c.regs.zero == 0
    ensures var done := Cycle(c, mem);
      && !done.Crash? && Loaded(done.mem, loadaddr)
      && (done.core, VarsOf(done.mem)) == Local(loadaddr, c, VarsOf(mem))
      && done.rc == if c.pc == loadaddr + 13 then Halted else Continue
  {
    var k := c.pc - loadaddr;
    assert InstrAt(mem, loadaddr, k);
    var done := Cycle(c, mem);
    forall j | 0 <= j < LENGTH ensures InstrAt(done.mem, loadaddr, j) {
      assert InstrAt(mem, loadaddr, j);
    }
  }

  // Between drawing a ticket and seeing it called; inside the critical section and its release.
  predicate Spinning(loadaddr: int, c: Core) {
    2 <= c.pc - loadaddr <= 4
  }

  predicate Inside(loadaddr: int, c: Core) {
    5 <= c.pc - loadaddr <= 9
  }

  predicate Holding(loadaddr: int, c: Core) {
    Spinning(loadaddr, c) || Inside(loadaddr, c)
  }

  function TicketOf(loadaddr: int, c: Core, v: Vars): int {
    if Spinning(loadaddr, c) then c.regs.ax else v.turn
  }

  ghost predicate ThreadOk(loadaddr: int, c: Core, v: Vars) {
    var o := c.pc - loadaddr;
    && 0 <= o < LENGTH && c.regs.zero == 0
    && (o == 1 || o == 9 ==> c.regs.ax == 1)
    && (Holding(loadaddr, c) ==> v.turn <= TicketOf(loadaddr, c, v) < v.ticket)
    && (o == 3 || o == 4 ==> c.regs.cx <= v.turn)
    && (o == 4 ==> (c.conds.neq <==> c.regs.ax != c.regs.cx))
    && (o == 6 ==> c.regs.ax == v.count)
    && (o == 7 ==> c.regs.ax == v.count + 1)
    && (o == 12 ==> (c.conds.gt <==> c.regs.bx > 0))
  }

  // ----- The invariant -----

  ghost predicate Inv(loadaddr: int, m: Machine) {
    && Loaded(m.mem, loadaddr)
    && var v := VarsOf(m.mem);
      && 0 <= v.turn <= v.ticket
      && (forall i :: IsLive(m, i) ==> ThreadOk(loadaddr, m.threads[i].core, v))
      // no ticket is held twice, and every ticket that has not been served is held
      && (forall i, j :: Holds(loadaddr, m, i) && Holds(loadaddr, m, j) && i != j ==>
            TicketAt(loadaddr, m, i) != TicketAt(loadaddr, m, j))
      && (forall t :: v.turn <= t < v.ticket ==> Held(loadaddr, m, t))
  }

  ghost predicate Holds(loadaddr: int, m: Machine, i: int) {
    IsLive(m, i) && Holding(loadaddr, m.threads[i].core)
  }

  ghost predicate Held(loadaddr: int, m: Machine, t: int)
    requires Loaded(m.mem, loadaddr)
  {
    exists i :: Holds(loadaddr, m, i) && TicketAt(loadaddr, m, i) == t
  }

  ghost function TicketAt(loadaddr: int, m: Machine, i: int): int
    requires Holds(loadaddr, m, i) && Loaded(m.mem, loadaddr)
  {
    TicketOf(loadaddr, m.threads[i].core, VarsOf(m.mem))
  }

  // All threads at the start of the program, nothing drawn.
  ghost predicate Start(loadaddr: int, m: Machine) {
    && Loaded(m.mem, loadaddr) && VarsOf(m.mem) == Vars(0, 0, 0)
    && forall i :: 0 <= i < |m.threads| ==>
        m.threads[i].Live? && m.threads[i].core.pc == loadaddr && m.threads[i].core.regs.zero == 0
  }

  // The step of thread i, seen from the whole machine.
  lemma StepIsLocal(loadaddr: int, m: Machine, i: nat)
    requires Inv(loadaddr, m) && IsLive(m, i)
    ensures CanStep(m, i) && Loaded(Step(m, i).mem, loadaddr)
    ensures var c := m.threads[i].core; var (c', v') := Local(loadaddr, c, VarsOf(m.mem));
      && VarsOf(Step(m, i).mem) == v'
      && Step(m, i).threads == m.threads[i := if c.pc == loadaddr + 13 then Stopped else Live(c')]
  {
    CycleIsLocal(loadaddr, m.threads[i].core, m.mem);
  }

  // Thread j's ticket is not affected by the step of thread i, and i's changes only where it draws one or
  // gives it up.
  lemma StepTickets(loadaddr: int, m: Machine, i: nat, j: int)
    requires Inv(loadaddr, m) && IsLive(m, i)
    ensures CanStep(m, i) && Loaded(Step(m, i).mem, loadaddr)
    ensures var m', o := Step(m, i), m.threads[i].core.pc - loadaddr;
      && (j != i ==> (Holds(loadaddr, m', j) <==> Holds(loadaddr, m, j)))
      && (j == i ==> (Holds(loadaddr, m', j) <==> 1 <= o <= 8))
      && (Holds(loadaddr, m', j) ==>
            TicketAt(loadaddr, m', j) == if j == i && o == 1 then VarsOf(m.mem).ticket else TicketAt(loadaddr, m, j))
  {
    StepIsLocal(loadaddr, m, i);
    var c, v := m.threads[i].core, VarsOf(m.mem);
    assert ThreadOk(loadaddr, c, v);
    if j != i && Holds(loadaddr, m, j) && Holds(loadaddr, m, i) {
      assert TicketAt(loadaddr, m, i) != TicketAt(loadaddr, m, j);
    }
  }

  lemma StepOk(loadaddr: int, m: Machine, i: nat, j: int)
    requires Inv(loadaddr, m) && IsLive(m, i) && CanStep(m, i) && Loaded(Step(m, i).mem, loadaddr)
    requires IsLive(Step(m, i), j)
    ensures ThreadOk(loadaddr, Step(m, i).threads[j].core, VarsOf(Step(m, i).mem))
  {
    StepIsLocal(loadaddr, m, i);
    var c, v := m.threads[i].core, VarsOf(m.mem);
    assert ThreadOk(loadaddr, c, v);
    if j == i {
    } else {
      assert IsLive(m, j) && ThreadOk(loadaddr, m.threads[j].core, v);
      if Holds(loadaddr, m, i) && Holds(loadaddr, m, j) {
        assert TicketAt(loadaddr, m, i) != TicketAt(loadaddr, m, j);
      }
    }
  }

  lemma StepHeld(loadaddr: int, m: Machine, i: nat, t: int)
    requires Inv(loadaddr, m) && IsLive(m, i) && CanStep(m, i) && Loaded(Step(m, i).mem, loadaddr)
    requires VarsOf(Step(m, i).mem).turn <= t < VarsOf(Step(m, i).mem).ticket
    ensures Held(loadaddr, Step(m, i), t)
  {
    StepIsLocal(loadaddr, m, i);
    var c, v := m.threads[i].core, VarsOf(m.mem);
    assert ThreadOk(loadaddr, c, v);
    if c.pc - loadaddr == 1 && t == v.ticket {
      StepTickets(loadaddr, m, i, i);
      assert Holds(loadaddr, Step(m, i), i);
    } else {
      assert Held(loadaddr, m, t);
      var h :| Holds(loadaddr, m, h) && TicketAt(loadaddr, m, h) == t;
      StepTickets(loadaddr, m, i, h);
      assert Holds(loadaddr, Step(m, i), h);
    }
  }

  lemma StepHolds(loadaddr: int, m: Machine, i: nat)
    requires Inv(loadaddr, m) && IsLive(m, i)
    ensures CanStep(m, i) && Inv(loadaddr, Step(m, i))
  {
    StepIsLocal(loadaddr, m, i);
    var m', v := Step(m, i), VarsOf(m.mem);
    assert ThreadOk(loadaddr, m.threads[i].core, v);
    forall j | IsLive(m', j) ensures ThreadOk(loadaddr, m'.threads[j].core, VarsOf(m'.mem)) {
      StepOk(loadaddr, m, i, j);
    }
    forall j, k | Holds(loadaddr, m', j) && Holds(loadaddr, m', k) && j != k
      ensures TicketAt(loadaddr, m', j) != TicketAt(loadaddr, m', k)
    {
      StepTickets(loadaddr, m, i, j);
      StepTickets(loadaddr, m, i, k);
      assert IsLive(m, j) && ThreadOk(loadaddr, m.threads[j].core, v);
      assert IsLive(m, k) && ThreadOk(loadaddr, m.threads[k].core, v);
    }
    forall t | VarsOf(m'.mem).turn <= t < VarsOf(m'.mem).ticket ensures Held(loadaddr, m', t) {
      StepHeld(loadaddr, m, i, t);
    }
  }

  // No instruction of the program can fail, whatever the schedule.
  lemma {:induction false} RunHolds(loadaddr: int, m: Machine, schedule: seq<nat>)
    requires Inv(loadaddr, m) && Interleaving(m, schedule)
    ensures Inv(loadaddr, After(m, schedule))
    ensures forall i :: IsLive(After(m, schedule), i) ==> CanStep(After(m, schedule), i)
    decreases schedule
  {
    if schedule != [] {
      StepHolds(loadaddr, m, schedule[0]);
      RunHolds(loadaddr, Step(m, schedule[0]), schedule[1..]);
    } else {
      forall i: nat | IsLive(m, i) ensures CanStep(m, i) { StepHolds(loadaddr, m, i); }
    }
  }

  // ----- Mutual exclusion and first come, first served -----

  ghost predicate InsideAt(loadaddr: int, m: Machine, i: int) {
    IsLive(m, i) && Inside(loadaddr, m.threads[i].core)
  }

  lemma OneInside(loadaddr: int, m: Machine, i: int, j: int)
    requires Inv(loadaddr, m) && InsideAt(loadaddr, m, i) && InsideAt(loadaddr, m, j)
    ensures i == j
  {
    assert Holds(loadaddr, m, i) && Holds(loadaddr, m, j);
  }

  lemma MutualExclusion(loadaddr: int, m: Machine, schedule: seq<nat>, i: int, j: int)
    requires Start(loadaddr, m) && Interleaving(m, schedule)
    requires InsideAt(loadaddr, After(m, schedule), i) && InsideAt(loadaddr, After(m, schedule), j)
    ensures i == j
  {
    RunHolds(loadaddr, m, schedule);
    OneInside(loadaddr, After(m, schedule), i, j);
  }

  // The step of thread i goes from the spin loop into the critical section.
  ghost predicate Enters(loadaddr: int, m: Machine, i: nat) {
    IsLive(m, i) && m.threads[i].core.pc == loadaddr + 4 && !m.threads[i].core.conds.neq
  }

  // The tickets of the threads that enter, in the order in which they do.
  ghost function Entries(loadaddr: int, m: Machine, schedule: seq<nat>): seq<int>
    requires Interleaving(m, schedule)
    decreases schedule
  {
    if schedule == [] then []
    else
      (if Enters(loadaddr, m, schedule[0]) then [m.threads[schedule[0]].core.regs.ax] else [])
      + Entries(loadaddr, Step(m, schedule[0]), schedule[1..])
  }

  // The ticket that is to enter next.
  ghost function NextToEnter(loadaddr: int, m: Machine): int
    requires Inv(loadaddr, m)
  {
    VarsOf(m.mem).turn + (if exists i :: InsideAt(loadaddr, m, i) then 1 else 0)
  }

  lemma StepEntry(loadaddr: int, m: Machine, i: nat)
    requires Inv(loadaddr, m) && IsLive(m, i)
    ensures CanStep(m, i) && Inv(loadaddr, Step(m, i))
    ensures NextToEnter(loadaddr, Step(m, i)) == NextToEnter(loadaddr, m) + (if Enters(loadaddr, m, i) then 1 else 0)
    ensures Enters(loadaddr, m, i) ==> m.threads[i].core.regs.ax == NextToEnter(loadaddr, m)
  {
    StepHolds(loadaddr, m, i);
    StepIsLocal(loadaddr, m, i);
    var m', c := Step(m, i), m.threads[i].core;
    assert ThreadOk(loadaddr, c, VarsOf(m.mem));
    assert forall j :: j != i ==> (InsideAt(loadaddr, m', j) <==> InsideAt(loadaddr, m, j));
    if Enters(loadaddr, m, i) {
      assert InsideAt(loadaddr, m', i);
      assert Holds(loadaddr, m, i);
      forall j ensures !InsideAt(loadaddr, m, j) {
        if InsideAt(loadaddr, m, j) { assert Holds(loadaddr, m, j); }
      }
    } else if InsideAt(loadaddr, m, i) {
      forall j | j != i ensures !InsideAt(loadaddr, m, j) {
        if InsideAt(loadaddr, m, j) { OneInside(loadaddr, m, i, j); }
      }
      if c.pc != loadaddr + 9 { assert InsideAt(loadaddr, m', i); }
    } else {
      assert !InsideAt(loadaddr, m', i);
    }
  }

  lemma {:induction false} EntriesFrom(loadaddr: int, m: Machine, schedule: seq<nat>)
    requires Inv(loadaddr, m) && Interleaving(m, schedule)
    ensures forall k :: 0 <= k < |Entries(loadaddr, m, schedule)| ==>
      Entries(loadaddr, m, schedule)[k] == NextToEnter(loadaddr, m) + k
    decreases schedule
  {
    if schedule != [] {
      StepEntry(loadaddr, m, schedule[0]);
      EntriesFrom(loadaddr, Step(m, schedule[0]), schedule[1..]);
    }
  }

  // The k-th entry into the critical section, counting from 0, is made by the holder of ticket k.
  lemma InTicketOrder(loadaddr: int, m: Machine, schedule: seq<nat>)
    requires Start(loadaddr, m) && Interleaving(m, schedule)
    ensures forall k :: 0 <= k < |Entries(loadaddr, m, schedule)| ==> Entries(loadaddr, m, schedule)[k] == k
  {
    assert forall i :: !InsideAt(loadaddr, m, i);
    EntriesFrom(loadaddr, m, schedule);
  }

  // ----- The final count -----

  // The increments of count that a thread has before it.
  function Left(loadaddr: int, c: Core): int {
    var o := c.pc - loadaddr;
    if o <= 7 then AtLeast(1, c.regs.bx)
    else if o <= 10 then AtLeast(1, c.regs.bx) - 1
    else if o <= 12 then AtLeast(0, c.regs.bx)
    else 0
  }

  function LeftOf(loadaddr: int): ThreadState -> int {
    (t: ThreadState) => if t.Live? then Left(loadaddr, t.core) else 0
  }

  ghost function Total(loadaddr: int, m: Machine): int
    requires Loaded(m.mem, loadaddr)
  {
    VarsOf(m.mem).count + Sum(LeftOf(loadaddr), m.threads)
  }

  lemma StepTotal(loadaddr: int, m: Machine, i: nat)
    requires Inv(loadaddr, m) && IsLive(m, i)
    ensures CanStep(m, i) && Inv(loadaddr, Step(m, i)) && Total(loadaddr, Step(m, i)) == Total(loadaddr, m)
  {
    StepHolds(loadaddr, m, i);
    StepIsLocal(loadaddr, m, i);
    assert ThreadOk(loadaddr, m.threads[i].core, VarsOf(m.mem));
    SumUpdate(LeftOf(loadaddr), m.threads, i, Step(m, i).threads[i]);
  }

  lemma {:induction false} RunTotal(loadaddr: int, m: Machine, schedule: seq<nat>)
    requires Inv(loadaddr, m) && Interleaving(m, schedule)
    ensures Inv(loadaddr, After(m, schedule)) && Total(loadaddr, After(m, schedule)) == Total(loadaddr, m)
    decreases schedule
  {
    if schedule != [] {
      StepTotal(loadaddr, m, schedule[0]);
      RunTotal(loadaddr, Step(m, schedule[0]), schedule[1..]);
    }
  }

  // When all threads have halted, count is the number of iterations of all threads together.
  lemma FinalCount(loadaddr: int, m: Machine, schedule: seq<nat>)
    requires Start(loadaddr, m) && Interleaving(m, schedule) && AllStopped(After(m, schedule))
    ensures Loaded(After(m, schedule).mem, loadaddr) && VarsOf(After(m, schedule).mem).count == Sum(Loops, m.threads)
  {
    RunTotal(loadaddr, m, schedule);
    SumZero(LeftOf(loadaddr), After(m, schedule).threads);
    StartTotal(loadaddr, m.threads);
  }

  lemma {:induction false} StartTotal(loadaddr: int, threads: seq<ThreadState>)
    requires forall i :: 0 <= i < |threads| ==> threads[i].Live? && threads[i].core.pc == loadaddr
    ensures Sum(LeftOf(loadaddr), threads) == Sum(Loops, threads)
  {
    if threads != [] {
      StartTotal(loadaddr, threads[1..]);
    }
  }

  // ----- The run ends -----

  // A thread in the spin loop whose ticket is not called only goes round.
  predicate Waits(loadaddr: int, turn: int, c: Core) {
    Spinning(loadaddr, c) && c.regs.ax != turn
  }

  // The steps that a thread has before it in this pass, at most; a thread that waits has a fixed number.
  function InPass(loadaddr: int, turn: int, c: Core): int {
    match c.pc - loadaddr
    case 0 => 20
    case 1 => 19
    case 2 => if Waits(loadaddr, turn, c) then 18 else 15
    case 3 => if Waits(loadaddr, turn, c) then 18 else if c.regs.cx != c.regs.ax then 17 else 14
    case 4 => if Waits(loadaddr, turn, c) then 18 else if c.conds.neq then 16 else 13
    case 5 => 12
    case 6 => 11
    case 7 => 10
    case 8 => 9
    case 9 => 8
    case 10 => 7
    case 11 => 6
    case 12 => 5
    case _ => 1
  }

  // The passes after this one.
  function PassesLeft(loadaddr: int, c: Core): int {
    var o := c.pc - loadaddr;
    if o <= 10 then AtLeast(1, c.regs.bx) - 1 else if o <= 12 then AtLeast(0, c.regs.bx) else 0
  }

  function StepsLeft(loadaddr: int, turn: int): ThreadState -> int {
    (t: ThreadState) => if t.Live? then 20 * PassesLeft(loadaddr, t.core) + InPass(loadaddr, turn, t.core) else 0
  }

  ghost function Work(loadaddr: int, m: Machine): int
    requires Loaded(m.mem, loadaddr)
  {
    Sum(StepsLeft(loadaddr, VarsOf(m.mem).turn), m.threads)
  }

  ghost predicate Productive(loadaddr: int, m: Machine, i: int)
    requires Loaded(m.mem, loadaddr)
  {
    IsLive(m, i) && !Waits(loadaddr, VarsOf(m.mem).turn, m.threads[i].core)
  }

  lemma WorkNonNegative(loadaddr: int, m: Machine)
    requires Inv(loadaddr, m)
    ensures Work(loadaddr, m) >= 0
  {
    var f := StepsLeft(loadaddr, VarsOf(m.mem).turn);
    forall i | 0 <= i < |m.threads| ensures f(m.threads[i]) >= 0 {
      assert IsLive(m, i) ==> ThreadOk(loadaddr, m.threads[i].core, VarsOf(m.mem));
    }
    SumNonNegative(f, m.threads);
  }

  // Calling the next ticket brings nobody further from the end.
  lemma TurnHelps(loadaddr: int, m: Machine, i: nat)
    requires Inv(loadaddr, m) && IsLive(m, i) && m.threads[i].core.pc == loadaddr + 9
    ensures var turn := VarsOf(m.mem).turn;
      && Sum(StepsLeft(loadaddr, turn + 1), m.threads) <= Sum(StepsLeft(loadaddr, turn), m.threads)
      && StepsLeft(loadaddr, turn + 1)(m.threads[i]) == StepsLeft(loadaddr, turn)(m.threads[i])
  {
    var turn := VarsOf(m.mem).turn;
    var f, g := StepsLeft(loadaddr, turn + 1), StepsLeft(loadaddr, turn);
    forall k | 0 <= k < |m.threads| ensures f(m.threads[k]) <= g(m.threads[k]) {
      if k != i && IsLive(m, k) && Spinning(loadaddr, m.threads[k].core) {
        assert Holds(loadaddr, m, k) && Holds(loadaddr, m, i);
        assert TicketAt(loadaddr, m, i) != TicketAt(loadaddr, m, k);
      }
    }
    SumLess(f, g, m.threads);
  }

  lemma StepWork(loadaddr: int, m: Machine, i: nat)
    requires Inv(loadaddr, m) && IsLive(m, i)
    ensures CanStep(m, i) && Inv(loadaddr, Step(m, i))
    ensures Productive(loadaddr, m, i) ==> Work(loadaddr, Step(m, i)) < Work(loadaddr, m)
    ensures !Productive(loadaddr, m, i) ==>
      && Work(loadaddr, Step(m, i)) == Work(loadaddr, m) && IsLive(Step(m, i), i)
      && forall j :: Productive(loadaddr, Step(m, i), j) <==> Productive(loadaddr, m, j)
  {
    StepHolds(loadaddr, m, i);
    StepIsLocal(loadaddr, m, i);
    var m', c, v := Step(m, i), m.threads[i].core, VarsOf(m.mem);
    assert ThreadOk(loadaddr, c, v);
    SumUpdate(StepsLeft(loadaddr, VarsOf(m'.mem).turn), m.threads, i, m'.threads[i]);
    if c.pc == loadaddr + 9 {
      TurnHelps(loadaddr, m, i);
    }
  }

  // As long as a thread is live, one is productive: if all live threads wait, one of them has the ticket called.
  lemma SomeoneProductive(loadaddr: int, m: Machine)
    requires Inv(loadaddr, m) && !AllStopped(m)
    ensures exists i :: Productive(loadaddr, m, i)
  {
    var i :| 0 <= i < |m.threads| && !m.threads[i].Stopped?;
    var turn := VarsOf(m.mem).turn;
    assert IsLive(m, i) && ThreadOk(loadaddr, m.threads[i].core, VarsOf(m.mem));
    if Spinning(loadaddr, m.threads[i].core) {
      assert Held(loadaddr, m, turn);
      var h :| Holds(loadaddr, m, h) && TicketAt(loadaddr, m, h) == turn;
      assert Productive(loadaddr, m, h);
    } else {
      assert Productive(loadaddr, m, i);
    }
  }

  // The thread d places after curr, going round.
  function Place(n: nat, curr: nat, d: nat): (p: nat)
    requires curr < n && d <= n
    ensures p < n
  {
    if curr + d < n then curr + d else curr + d - n
  }

  // How many places after curr the first productive thread is, looking from d on.
  ghost function Distance(loadaddr: int, m: Machine, curr: nat, d: nat): (r: nat)
    requires Loaded(m.mem, loadaddr) && curr < |m.threads| && d <= |m.threads|
    ensures d <= r <= |m.threads|
    ensures r < |m.threads| ==> Productive(loadaddr, m, Place(|m.threads|, curr, r))
    ensures forall e :: d <= e < |m.threads| && Productive(loadaddr, m, Place(|m.threads|, curr, e)) ==> r <= e
    decreases |m.threads| - d
  {
    if d == |m.threads| || Productive(loadaddr, m, Place(|m.threads|, curr, d)) then d
    else Distance(loadaddr, m, curr, d + 1)
  }

  // Going to the next live thread gets closer to a productive one, if the current one is not.
  lemma NextIsCloser(loadaddr: int, m: Machine, curr: nat, next: nat)
    requires Inv(loadaddr, m) && curr < |m.threads| && NextInTurn(m, curr, next)
    requires !Productive(loadaddr, m, curr) && exists i :: Productive(loadaddr, m, i)
    ensures Distance(loadaddr, m, next, 0) < Distance(loadaddr, m, curr, 0)
  {
    var n := |m.threads|;
    var i :| Productive(loadaddr, m, i);
    assert Place(n, curr, if curr <= i then i - curr else i - curr + n) == i;
    var d := Distance(loadaddr, m, curr, 0);
    assert Place(n, curr, 0) == curr;
    var p := Place(n, curr, d);
    var e := if curr < next then next - curr else next - curr + n;
    if d < e { assert Between(curr, p, next); }
    assert Place(n, next, d - e) == p;
  }

  // One turn of the simulator's loop: work is done, or else the CPU gets closer to a thread that can do
  // some, or else to the interrupt that switches to the next one.
  lemma TurnGetsOn(loadaddr: int, m: Machine, tid: nat, curr: nat, interrupt: nat, interrupt': nat)
    requires Inv(loadaddr, m) && IsLive(m, tid) && CanStep(m, tid) && IsLive(Step(m, tid), curr)
    requires IsLive(Step(m, tid), tid) ==>
      if interrupt > 1 && !Cycle(m.threads[tid].core, m.mem).rc.Yielded? then curr == tid && interrupt' == interrupt - 1
      else NextInTurn(Step(m, tid), tid, curr)
    ensures Inv(loadaddr, Step(m, tid)) && 0 <= Work(loadaddr, Step(m, tid)) <= Work(loadaddr, m)
    ensures Work(loadaddr, Step(m, tid)) == Work(loadaddr, m) ==>
      var d, d' := Distance(loadaddr, m, tid, 0), Distance(loadaddr, Step(m, tid), curr, 0);
      d' < d || (d' == d && interrupt' < interrupt)
  {
    StepWork(loadaddr, m, tid);
    var m' := Step(m, tid);
    WorkNonNegative(loadaddr, m');
    if !Productive(loadaddr, m, tid) {
      CycleIsLocal(loadaddr, m.threads[tid].core, m.mem);
      SomeoneProductive(loadaddr, m');
      if curr != tid || interrupt <= 1 { NextIsCloser(loadaddr, m', tid, curr); }
    }
  }

  // The machine that the simulator starts with.
  function Boot(mem: Memory, cores: seq<Core>): Machine {
    Machine(seq(|cores|, i requires 0 <= i < |cores| => Live(cores[i])), mem)
  }

  // One turn, for a simulator that is running this program.
  method TicketTurn(sim: Simulator, loadaddr: int, intfreq: nat, intrand: bool, interrupt: nat)
    returns (last: bool, interrupt': nat)
    requires sim.Valid() && !sim.plist[sim.curr].done && intfreq > 0 && interrupt > 0
    requires IsLive(sim.View(), sim.curr) && Inv(loadaddr, sim.View())
    modifies sim
    ensures CanStep(old(sim.View()), old(sim.curr)) && sim.Valid() && sim.View() == Step(old(sim.View()), old(sim.curr))
    ensures last <==> AllStopped(sim.View())
    ensures !last ==>
      && !sim.plist[sim.curr].done && interrupt' > 0 && IsLive(sim.View(), sim.curr) && Inv(loadaddr, sim.View())
      && 0 <= Work(loadaddr, sim.View()) <= Work(loadaddr, old(sim.View()))
      && (Work(loadaddr, sim.View()) == Work(loadaddr, old(sim.View())) ==>
            var d, d' := Distance(loadaddr, old(sim.View()), old(sim.curr), 0),
              Distance(loadaddr, sim.View(), sim.curr, 0);
            d' < d || (d' == d && interrupt' < interrupt))
  {
    ghost var m, tid := sim.View(), sim.curr;
    assert m.threads[tid] == Live(sim.Current());
    StepHolds(loadaddr, m, tid);
    var status;
    status, interrupt' := sim.Turn(intfreq, intrand, interrupt);
    last := status.AllDone?;
    if !last {
      TurnGetsOn(loadaddr, m, tid, sim.curr, interrupt, interrupt');
    }
  }

  // The simulator's loop on this program. It ends, for any number of threads, any values of %bx, and any
  // interrupt interval, fixed or random; and then every thread has halted and count is right.
  method RunTicketLock(mem: Memory, cores: seq<Core>, loadaddr: int, intfreq: nat, intrand: bool)
    returns (final: Memory, icount: nat, ghost schedule: seq<nat>)
    requires cores != [] && intfreq > 0 && Start(loadaddr, Boot(mem, cores))
    ensures Interleaving(Boot(mem, cores), schedule) && icount == |schedule|
    ensures AllStopped(After(Boot(mem, cores), schedule)) && final == After(Boot(mem, cores), schedule).mem
    ensures COUNT in final && final[COUNT] == Data(Sum(Loops, Boot(mem, cores).threads))
  {
    ghost var m0 := Boot(mem, cores);
    WorkNonNegative(loadaddr, m0);
    var sim := new Simulator(mem, cores);
    var interrupt := sim.SetInterrupt(intfreq, intrand);
    icount, schedule := 0, [];
    assert IsLive(m0, 0);
    var last := false;
    while !last
      invariant sim.Valid() && fresh(sim) && icount == |schedule|
      invariant Interleaving(m0, schedule) && sim.View() == After(m0, schedule)
      invariant last ==> AllStopped(sim.View())
      invariant !last ==> IsLive(sim.View(), sim.curr) && !sim.plist[sim.curr].done && interrupt > 0
      invariant !last ==> Inv(loadaddr, sim.View()) && Work(loadaddr, sim.View()) >= 0
      decreases !last, if last then 0 else Work(loadaddr, sim.View()),
                if last then 0 else Distance(loadaddr, sim.View(), sim.curr, 0), interrupt
    {
      ghost var tid := sim.curr;
      last, interrupt := TicketTurn(sim, loadaddr, intfreq, intrand, interrupt);
      Extend(m0, schedule, tid);
      schedule := schedule + [tid];
      icount := icount + 1;
    }
    FinalCount(loadaddr, m0, schedule);
    final := sim.memory;
  }
}
