// The machine of x86/x86.py: its instructions, and the one CPU that runs any number of threads.
module X86 {
  // The CPU saves and restores registers. It is proved to run an interleaving of threads that each have a processor of
  // their own and share the memory.

  import opened Counting

  // ----- Instructions -----

  datatype Reg = Zero | AX | BX | CX | DX | SP | BP

  datatype Regs = Regs(zero: int, ax: int, bx: int, cx: int, dx: int, sp: int, bp: int)

  function Get(r: Regs, reg: Reg): int {
    match reg
    case Zero => r.zero
    case AX => r.ax
    case BX => r.bx
    case CX => r.cx
    case DX => r.dx
    case SP => r.sp
    case BP => r.bp
  }

  function Set(r: Regs, reg: Reg, value: int): Regs {
    match reg
    case Zero => r.(zero := value)
    case AX => r.(ax := value)
    case BX => r.(bx := value)
    case CX => r.(cx := value)
    case DX => r.(dx := value)
    case SP => r.(sp := value)
    case BP => r.(bp := value)
  }

  datatype Conds = Conds(gte: bool, gt: bool, lte: bool, lt: bool, neq: bool, eq: bool)

  // value(reg1, reg2)
  datatype Addr = Addr(value: int, reg1: Reg, reg2: Reg)

  datatype Instr =
    | Halt | Yield | Nop
    | MovIR(imm: int, dst: Reg) | MovIM(imm: int, to: Addr) | MovMR(from: Addr, dst: Reg)
    | MovRM(src: Reg, to: Addr) | MovRR(src: Reg, dst: Reg)
    | AddIR(imm: int, dst: Reg) | AddRR(src: Reg, dst: Reg) | SubIR(imm: int, dst: Reg) | SubRR(src: Reg, dst: Reg)
    | Xchg(src: Reg, at: Addr) | FetchAdd(src: Reg, at: Addr)
    | TestIR(imm: int, dst: Reg) | TestRI(src: Reg, imm: int) | TestRR(src: Reg, dst: Reg)
    | Jump(targ: int) | Jne(targ: int) | Je(targ: int)
    | Jlt(targ: int) | Jlte(targ: int) | Jgt(targ: int) | Jgte(targ: int)
    | Call(targ: int) | Ret
    | PushR(src: Reg) | PushM(at: Addr) | Pop | PopR(dst: Reg)

  // A memory cell holds a number or an instruction.
  datatype Cell = Data(value: int) | Code(instr: Instr)

  type Memory = map<int, Cell>

  // What a processor holds.
  datatype Core = Core(regs: Regs, conds: Conds, pc: int)

  // The return code of an instruction; Crash if the interpreter raises an exception.
  datatype Outcome = Crash | Done(core: Core, mem: Memory, rc: ReturnCode)

  datatype ReturnCode = Continue | Halted | Yielded

  function Effective(r: Regs, a: Addr): int {
    a.value + Get(r, a.reg1) + Get(r, a.reg2)
  }

  // test_all.
  function Test(src: int, dst: int): Conds {
    Conds(dst >= src, dst > src, dst <= src, dst < src, dst != src, dst == src)
  }

  predicate HasData(mem: Memory, addr: int) {
    addr in mem && mem[addr].Data?
  }

  function JumpIf(c: Core, cond: bool, targ: int): Core {
    if cond then c.(pc := targ) else c
  }

  // One instruction, after the PC has been advanced. Writing anywhere is possible, code included;
  // reading a cell that does not exist is not.
  function Exec(i: Instr, c: Core, mem: Memory): Outcome {
    var r := c.regs;
    match i
    case Halt => Done(c, mem, Halted)
    case Yield => Done(c, mem, Yielded)
    case Nop => Done(c, mem, Continue)
    case MovIR(imm, dst) => Done(c.(regs := Set(r, dst, imm)), mem, Continue)
    case MovIM(imm, to) => Done(c, mem[Effective(r, to) := Data(imm)], Continue)
    case MovMR(from, dst) =>
      if !HasData(mem, Effective(r, from)) then Crash
      else Done(c.(regs := Set(r, dst, mem[Effective(r, from)].value)), mem, Continue)
    case MovRM(src, to) => Done(c, mem[Effective(r, to) := Data(Get(r, src))], Continue)
    case MovRR(src, dst) => Done(c.(regs := Set(r, dst, Get(r, src))), mem, Continue)
    case AddIR(imm, dst) => Done(c.(regs := Set(r, dst, Get(r, dst) + imm)), mem, Continue)
    case AddRR(src, dst) => Done(c.(regs := Set(r, dst, Get(r, dst) + Get(r, src))), mem, Continue)
    case SubIR(imm, dst) => Done(c.(regs := Set(r, dst, Get(r, dst) - imm)), mem, Continue)
    case SubRR(src, dst) => Done(c.(regs := Set(r, dst, Get(r, dst) - Get(r, src))), mem, Continue)
    case Xchg(src, at) =>
      var a := Effective(r, at);
      if !HasData(mem, a) then Crash
      else Done(c.(regs := Set(r, src, mem[a].value)), mem[a := Data(Get(r, src))], Continue)
    case FetchAdd(src, at) =>
      var a := Effective(r, at);
      if !HasData(mem, a) then Crash
      else Done(c.(regs := Set(r, src, mem[a].value)), mem[a := Data(mem[a].value + Get(r, src))], Continue)
    case TestIR(imm, dst) => Done(c.(conds := Test(imm, Get(r, dst))), mem, Continue)
    case TestRI(src, imm) => Done(c.(conds := Test(Get(r, src), imm)), mem, Continue)
    case TestRR(src, dst) => Done(c.(conds := Test(Get(r, src), Get(r, dst))), mem, Continue)
    case Jump(targ) => Done(c.(pc := targ), mem, Continue)
    case Jne(targ) => Done(JumpIf(c, c.conds.neq, targ), mem, Continue)
    case Je(targ) => Done(JumpIf(c, c.conds.eq, targ), mem, Continue)
    case Jlt(targ) => Done(JumpIf(c, c.conds.lt, targ), mem, Continue)
    case Jlte(targ) => Done(JumpIf(c, c.conds.lte, targ), mem, Continue)
    case Jgt(targ) => Done(JumpIf(c, c.conds.gt, targ), mem, Continue)
    case Jgte(targ) => Done(JumpIf(c, c.conds.gte, targ), mem, Continue)
    case Call(targ) =>
      var sp := r.sp - 4;
      Done(c.(regs := r.(sp := sp), pc := targ), mem[sp := Data(c.pc)], Continue)
    case Ret =>
      if !HasData(mem, r.sp) then Crash
      else Done(c.(regs := r.(sp := r.sp + 4), pc := mem[r.sp].value), mem, Continue)
    case PushR(src) =>
      var r' := r.(sp := r.sp - 4);
      Done(c.(regs := r'), mem[r'.sp := Data(Get(r', src))], Continue)
    case PushM(at) =>
      var r' := r.(sp := r.sp - 4);
      Done(c.(regs := r'), mem[r'.sp := Data(Effective(r', at))], Continue)
    case Pop => Done(c.(regs := r.(sp := r.sp + 4)), mem, Continue)
    case PopR(dst) =>
      var r' := Set(r, dst, r.sp);
      Done(c.(regs := r'.(sp := r'.sp + 4)), mem, Continue)
  }

  // Fetch, advance the PC, decode and execute.
  function Cycle(c: Core, mem: Memory): Outcome {
    if c.pc !in mem || !mem[c.pc].Code? then Crash
    else Exec(mem[c.pc].instr, c.(pc := c.pc + 1), mem)
  }

  // ----- What instructions do, taken together -----

  lemma GetSet(r: Regs, reg: Reg, value: int, other: Reg)
    ensures Get(Set(r, reg, value), other) == if other == reg then value else Get(r, other)
  {
  }

  // The register that an instruction on registers changes, and its new value.
  function Result(i: Instr, r: Regs): (Reg, int)
    requires i.MovIR? || i.MovRR? || i.AddIR? || i.AddRR? || i.SubIR? || i.SubRR?
  {
    match i
    case MovIR(imm, dst) => (dst, imm)
    case MovRR(src, dst) => (dst, Get(r, src))
    case AddIR(imm, dst) => (dst, Get(r, dst) + imm)
    case AddRR(src, dst) => (dst, Get(r, dst) + Get(r, src))
    case SubIR(imm, dst) => (dst, Get(r, dst) - imm)
    case SubRR(src, dst) => (dst, Get(r, dst) - Get(r, src))
  }

  // Moves, sums and differences change one register and nothing else.
  lemma OneRegister(i: Instr, c: Core, mem: Memory, reg: Reg)
    requires i.MovIR? || i.MovRR? || i.AddIR? || i.AddRR? || i.SubIR? || i.SubRR?
    ensures var done, (dst, value) := Exec(i, c, mem), Result(i, c.regs);
      && done.Done? && done.rc.Continue? && done.mem == mem && done.core == c.(regs := done.core.regs)
      && Get(done.core.regs, reg) == if reg == dst then value else Get(c.regs, reg)
  {
  }

  // A conditional jump after a test goes by how the second operand compares with the first.
  function Taken(jump: Instr, first: int, second: int): bool
    requires IsJump(jump)
  {
    match jump
    case Jump(_) => true
    case Jne(_) => second != first
    case Je(_) => second == first
    case Jlt(_) => second < first
    case Jlte(_) => second <= first
    case Jgt(_) => second > first
    case Jgte(_) => second >= first
  }

  predicate IsJump(i: Instr) {
    i.Jump? || i.Jne? || i.Je? || i.Jlt? || i.Jlte? || i.Jgt? || i.Jgte?
  }

  predicate Tests(i: Instr, r: Regs, first: int, second: int) {
    match i
    case TestIR(imm, dst) => first == imm && second == Get(r, dst)
    case TestRI(src, imm) => first == Get(r, src) && second == imm
    case TestRR(src, dst) => first == Get(r, src) && second == Get(r, dst)
    case _ => false
  }

  lemma TestThenJump(test: Instr, jump: Instr, c: Core, mem: Memory, first: int, second: int, pc: int)
    requires Tests(test, c.regs, first, second) && IsJump(jump)
    ensures var tested := Exec(test, c, mem);
      && tested.Done? && tested.rc.Continue? && tested.mem == mem && tested.core == c.(conds := tested.core.conds)
      && Exec(jump, tested.core.(pc := pc), mem) ==
          Done(tested.core.(pc := if Taken(jump, first, second) then jump.targ else pc), mem, Continue)
  {
  }

  // What is stored can be loaded again.
  lemma StoreThenLoad(c: Core, mem: Memory, src: Reg, dst: Reg, at: Addr, pc: int)
    ensures var stored := Exec(MovRM(src, at), c, mem);
      && stored.Done? && stored.core == c && stored.mem == mem[Effective(c.regs, at) := Data(Get(c.regs, src))]
      && Exec(MovMR(at, dst), c.(pc := pc), stored.mem) ==
          Done(c.(regs := Set(c.regs, dst, Get(c.regs, src)), pc := pc), stored.mem, Continue)
  {
  }

  // An exchange swaps the register and the cell, and a fetch-and-add adds the register to the cell and gives its old
  // value; no other cell or register changes.
  lemma AtomicEffects(c: Core, mem: Memory, src: Reg, at: Addr)
    requires HasData(mem, Effective(c.regs, at))
    ensures var a := Effective(c.regs, at); var x, f := Exec(Xchg(src, at), c, mem), Exec(FetchAdd(src, at), c, mem);
      && x.Done? && f.Done?
      && x.core == f.core == c.(regs := Set(c.regs, src, mem[a].value))
      && x.mem[a] == Data(Get(c.regs, src)) && f.mem[a] == Data(mem[a].value + Get(c.regs, src))
      && x.mem.Keys == f.mem.Keys == mem.Keys
      && forall b :: b in mem && b != a ==> x.mem[b] == f.mem[b] == mem[b]
  {
  }

  // A return goes to the instruction after the call and restores the stack pointer, whatever was done in between, as
  // long as the stack pointer and its cell are then as the call left them.
  lemma CallThenRet(c: Core, mem: Memory, targ: int, later: Core, mem': Memory)
    requires var called := Exec(Call(targ), c, mem);
      called.Done? && later.regs.sp == called.core.regs.sp && called.core.regs.sp in mem'
      && called.core.regs.sp in called.mem && mem'[called.core.regs.sp] == called.mem[called.core.regs.sp]
    ensures Exec(Call(targ), c, mem).core.pc == targ
    ensures Exec(Ret, later, mem') == Done(later.(regs := later.regs.(sp := c.regs.sp), pc := c.pc), mem', Continue)
  {
  }

  // A push makes room for one cell and leaves the value there: that of the register, with the stack pointer itself
  // already moved, or the effective address.
  lemma PushEffects(c: Core, mem: Memory, src: Reg, at: Addr)
    ensures var r, p := Exec(PushR(src), c, mem), Exec(PushM(at), c, mem);
      && r.Done? && p.Done?
      && r.core == p.core == c.(regs := c.regs.(sp := c.regs.sp - 4))
      && r.mem == mem[c.regs.sp - 4 := Data(Get(r.core.regs, src))]
      && p.mem == mem[c.regs.sp - 4 := Data(Effective(p.core.regs, at))]
  {
  }

  // Popping takes the room back. (Into a register it copies the stack pointer and not the cell.)
  lemma PopEffects(c: Core, mem: Memory, dst: Reg)
    requires dst != SP
    ensures Exec(Pop, c.(regs := c.regs.(sp := c.regs.sp - 4)), mem) == Done(c, mem, Continue)
    ensures var p := Exec(PopR(dst), c, mem);
      && p.Done? && p.rc.Continue? && p.mem == mem && p.core == c.(regs := p.core.regs)
      && p.core.regs.sp == c.regs.sp + 4
      && forall reg :: reg != SP ==> Get(p.core.regs, reg) == if reg == dst then c.regs.sp else Get(c.regs, reg)
  {
  }

  // ----- The machine with one processor for each thread -----

  datatype ThreadState = Live(core: Core) | Stopped

  datatype Machine = Machine(threads: seq<ThreadState>, mem: Memory)

  predicate IsLive(m: Machine, i: int) {
    0 <= i < |m.threads| && m.threads[i].Live?
  }

  predicate AllStopped(m: Machine) {
    forall i :: 0 <= i < |m.threads| ==> m.threads[i].Stopped?
  }

  // Thread i can execute its next instruction.
  predicate CanStep(m: Machine, i: int) {
    IsLive(m, i) && !Cycle(m.threads[i].core, m.mem).Crash?
  }

  // It does, on its own registers and the shared memory.
  function Step(m: Machine, i: nat): Machine
    requires CanStep(m, i)
  {
    var done := Cycle(m.threads[i].core, m.mem);
    Machine(m.threads[i := if done.rc.Halted? then Stopped else Live(done.core)], done.mem)
  }

  // A run is the sequence of threads that execute an instruction.
  ghost predicate Interleaving(m: Machine, schedule: seq<nat>)
    decreases schedule
  {
    schedule == [] || (CanStep(m, schedule[0]) && Interleaving(Step(m, schedule[0]), schedule[1..]))
  }

  ghost function After(m: Machine, schedule: seq<nat>): Machine
    requires Interleaving(m, schedule)
    decreases schedule
  {
    if schedule == [] then m else After(Step(m, schedule[0]), schedule[1..])
  }

  lemma {:induction false} Extend(m: Machine, schedule: seq<nat>, i: nat)
    requires Interleaving(m, schedule) && CanStep(After(m, schedule), i)
    ensures Interleaving(m, schedule + [i]) && After(m, schedule + [i]) == Step(After(m, schedule), i)
    decreases schedule
  {
    if schedule != [] {
      Extend(Step(m, schedule[0]), schedule[1..], i);
      assert (schedule + [i])[1..] == schedule[1..] + [i];
    }
  }

  // ----- What the lock programs have in common -----

  // A variable, addressed without registers.
  function Variable(addr: int): Addr {
    Addr(addr, Zero, Zero)
  }

  function AtLeast(low: int, x: int): int {
    if x < low then low else x
  }

  // The iterations of a thread that counts %bx down to zero: its %bx at the start, and at least one.
  function Loops(t: ThreadState): int {
    if t.Live? then AtLeast(1, t.core.regs.bx) else 0
  }

  // ----- The CPU that the threads share -----

  // What the process list keeps of a thread that is not running.
  datatype Process = Process(core: Core, done: bool)

  predicate NotDone(p: Process) {
    !p.done
  }

  // The thread that comes after curr in round-robin order, skipping those that have stopped.
  ghost predicate NextInTurn(m: Machine, curr: nat, next: nat) {
    && IsLive(m, next)
    && forall j :: Between(curr, j, next) ==> !IsLive(m, j)
  }

  // j is passed on the way from curr round to next.
  ghost predicate Between(curr: nat, j: int, next: nat) {
    if curr < next then curr < j < next else curr < j || 0 <= j < next
  }

  // What setint gives.
  predicate Interval(intfreq: nat, intrand: bool, interrupt: nat) {
    0 < interrupt <= intfreq && (!intrand ==> interrupt == intfreq)
  }

  // Who is on the CPU after a turn of thread tid has led to m, and the number of turns to the next interrupt. A halt
  // hands the CPU to the next thread in turn, and an interrupt that is due then to the one after it.
  ghost predicate HandsOver(
      m: Machine, tid: nat, curr: nat, yielded: bool, interrupt: nat, interrupt': nat, intfreq: nat, intrand: bool)
  {
    if interrupt > 1 && !yielded then
      interrupt' == interrupt - 1 && if IsLive(m, tid) then curr == tid else NextInTurn(m, tid, curr)
    else
      && Interval(intfreq, intrand, interrupt')
      && if IsLive(m, tid) then NextInTurn(m, tid, curr)
         else exists next: nat :: NextInTurn(m, tid, next) && NextInTurn(m, next, curr)
  }

  datatype Status = Running | AllDone | Crashed

  class Simulator {
    var regs: Regs
    var conds: Conds
    var pc: int
    var memory: Memory
    var plist: seq<Process>
    var curr: nat
    var active: nat

    ghost predicate Valid()
      reads this
    {
      && curr < |plist| && active == Count(NotDone, plist)
    }

    function Current(): Core
      reads this
    {
      Core(regs, conds, pc)
    }

    // The machine that this CPU stands for: the current thread's state is in the CPU, the others' in the
    // process list.
    ghost function View(): (m: Machine)
      reads this
      ensures |m.threads| == |plist|
    {
      Machine(seq(|plist|, i requires 0 <= i < |plist| reads this =>
                if plist[i].done then Stopped else Live(if i == curr then Current() else plist[i].core)),
              memory)
    }

    // A program loaded at the threads' common start address, and the first thread made current.
    constructor (mem: Memory, cores: seq<Core>)
      requires cores != []
      ensures Valid() && curr == 0
      ensures View() == Machine(seq(|cores|, i requires 0 <= i < |cores| => Live(cores[i])), mem)
    {
      memory := mem;
      plist := seq(|cores|, i requires 0 <= i < |cores| => Process(cores[i], false));
      curr, active := 0, |cores|;
      regs, conds, pc := cores[0].regs, cores[0].conds, cores[0].pc;
      new;
      CountAll(NotDone, plist);
    }

    method Save()
      requires Valid()
      modifies this`plist
      ensures Valid() && View() == old(View())
      ensures !plist[curr].done ==> plist[curr].core == Current()
    {
      CountUpdate(NotDone, plist, curr, plist[curr].(core := Current()));
      plist := plist[curr := plist[curr].(core := Current())];
    }

    method Restore()
      requires Valid()
      modifies this`regs, this`conds, this`pc
      ensures Valid() && Current() == plist[curr].core
    {
      regs := plist[curr].core.regs;
      conds := plist[curr].core.conds;
      pc := plist[curr].core.pc;
    }

    method MarkDone()
      requires Valid() && !plist[curr].done
      modifies this`plist, this`active
      ensures Valid() && plist == old(plist)[curr := old(plist)[curr].(done := true)]
    {
      CountUpdate(NotDone, plist, curr, plist[curr].(done := true));
      plist := plist[curr := plist[curr].(done := true)];
      active := active - 1;
    }

    // The method __next__: the first live thread after curr, from the start again if need be. If there is none, curr
    // stays.
    method Advance()
      requires Valid()
      modifies this`curr
      ensures Valid()
      ensures if exists i :: 0 <= i < |plist| && !plist[i].done
              then !plist[curr].done && forall j :: 0 <= j < |plist| && Between(old(curr), j, curr) ==> plist[j].done
              else curr == old(curr)
    {
      for i := curr + 1 to |plist|
        invariant forall j :: curr < j < i ==> plist[j].done
      {
        if !plist[i].done {
          curr := i;
          return;
        }
      }
      for i := 0 to curr + 1
        invariant forall j :: 0 <= j < i ==> plist[j].done
      {
        if !plist[i].done {
          curr := i;
          return;
        }
      }
    }

    // Save, next and restore: the machine does not change, only who is on the CPU.
    method Switch()
      requires Valid() && !plist[curr].done
      modifies this`plist, this`curr, this`regs, this`conds, this`pc
      ensures Valid() && View() == old(View()) && NextInTurn(View(), old(curr), curr)
      ensures !plist[curr].done
    {
      Save();
      ghost var saved := plist;
      Advance();
      Restore();
      assert forall i :: 0 <= i < |plist| ==> View().threads[i] == old(View()).threads[i];
    }

    // setint: the next interrupt comes after intfreq instructions, or at random after 1 to intfreq.
    method SetInterrupt(intfreq: nat, intrand: bool) returns (interrupt: nat)
      requires intfreq > 0
      ensures Interval(intfreq, intrand, interrupt)
    {
      if !intrand {
        return intfreq;
      }
      interrupt :| 0 < interrupt <= intfreq;
    }

    // Fetch, decode and execute for the thread on the CPU.
    method Execute() returns (ok: bool, rc: ReturnCode)
      requires Valid() && !plist[curr].done
      modifies this`regs, this`conds, this`pc, this`memory
      ensures ok <==> CanStep(old(View()), curr)
      ensures ok ==> rc == Cycle(old(Current()), old(memory)).rc
      ensures ok && !rc.Halted? ==> View() == Step(old(View()), curr)
      ensures ok && rc.Halted? ==>
        View().threads[curr := Stopped] == Step(old(View()), curr).threads && memory == Step(old(View()), curr).mem
    {
      assert View().threads[curr] == Live(Current());
      var done := Cycle(Current(), memory);
      if done.Crash? {
        return false, Continue;
      }
      ghost var next := Step(View(), curr);
      regs, conds, pc, memory := done.core.regs, done.core.conds, done.core.pc, done.mem;
      assert forall i :: 0 <= i < |plist| && i != curr ==> View().threads[i] == next.threads[i];
      assert !done.rc.Halted? ==> View().threads[curr] == next.threads[curr];
      return true, done.rc;
    }

    // procs.done, and unless that was the last thread, next and restore.
    method Stop() returns (last: bool)
      requires Valid() && !plist[curr].done
      modifies this`plist, this`active, this`curr, this`regs, this`conds, this`pc
      ensures Valid() && View() == Machine(old(View()).threads[old(curr) := Stopped], memory)
      ensures last <==> AllStopped(View())
      ensures !last ==> !plist[curr].done && NextInTurn(View(), old(curr), curr)
    {
      ghost var threads := View().threads[curr := Stopped];
      MarkDone();
      assert forall i :: 0 <= i < |plist| ==> View().threads[i] == threads[i];
      CountZero(NotDone, plist);
      last := active == 0;
      if last {
        assert forall i :: 0 <= i < |plist| ==> plist[i].done;
      } else {
        Advance();
        Restore();
        assert forall i :: 0 <= i < |plist| ==> View().threads[i] == threads[i];
        assert View().threads[curr].Live?;
      }
    }

    // One turn of the loop in run. On the machine with a processor for each thread it is one instruction
    // of the current thread.
    method Turn(intfreq: nat, intrand: bool, interrupt: nat) returns (status: Status, interrupt': nat)
      requires Valid() && !plist[curr].done && intfreq > 0 && interrupt > 0
      modifies this
      ensures status.Crashed? <==> !CanStep(old(View()), old(curr))
      ensures !status.Crashed? ==>
        && Valid() && View() == Step(old(View()), old(curr))
        && (status.AllDone? <==> AllStopped(View()))
        && (status.Running? ==> !plist[curr].done && interrupt' > 0 && IsLive(View(), curr))
      ensures status.Running? ==>
        HandsOver(View(), old(curr), curr, Cycle(old(Current()), old(memory)).rc.Yielded?,
                  interrupt, interrupt', intfreq, intrand)
    {
      interrupt' := interrupt;
      var ok, rc := Execute();
      if !ok {
        return Crashed, interrupt;
      }
      if rc.Halted? {
        var last := Stop();
        if last {
          return AllDone, interrupt;
        }
      }
      assert View().threads[curr] == Live(Current());
      interrupt' := interrupt' - 1;
      if interrupt' == 0 || rc.Yielded? {
        interrupt' := SetInterrupt(intfreq, intrand);
        Switch();
      }
      status := Running;
      assert View().threads[curr].Live?;
    }

    // The loop in run, watched for at most turns turns: it is an interleaving of the threads, and it
    // returns exactly when all of them have stopped.
    method Run(intfreq: nat, intrand: bool, turns: nat) returns (status: Status, icount: nat, ghost schedule: seq<nat>)
      requires Valid() && !plist[curr].done && intfreq > 0
      modifies this
      ensures Interleaving(old(View()), schedule) && icount == |schedule| <= turns
      ensures !status.Crashed? ==> Valid() && View() == After(old(View()), schedule)
      ensures status.Crashed? ==>
        exists i :: IsLive(After(old(View()), schedule), i) && !CanStep(After(old(View()), schedule), i)
      ensures status.AllDone? ==> AllStopped(View())
      ensures status.Running? ==> icount == turns && !AllStopped(View())
    {
      var interrupt := SetInterrupt(intfreq, intrand);
      schedule, icount, status := [], 0, Running;
      assert IsLive(View(), curr);
      while icount < turns
        invariant Valid() && !plist[curr].done && interrupt > 0 && IsLive(View(), curr)
        invariant Interleaving(old(View()), schedule) && icount == |schedule| <= turns
        invariant View() == After(old(View()), schedule) && status.Running?
      {
        ghost var tid := curr;
        status, interrupt := Turn(intfreq, intrand, interrupt);
        if status.Crashed? {
          assert IsLive(After(old(View()), schedule), tid) && !CanStep(After(old(View()), schedule), tid);
          return;
        }
        Extend(old(View()), schedule, tid);
        schedule := schedule + [tid];
        icount := icount + 1;
        if status.AllDone? {
          return;
        }
      }
    }
  }
}
