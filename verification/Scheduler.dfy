// The process scheduler simulation of process_py/process-run.py.
//
// There is one CPU, with instructions that compute or issue an IO of fixed length, and two choices each of when to
// switch and of what to do when an IO is done.
module Scheduler {
  import opened Counting

  datatype Switch = SWITCH_ON_IO | SWITCH_ON_END
  datatype IODone = IO_RUN_LATER | IO_RUN_IMMEDIATE
  datatype State = RUNNING | READY | DONE | WAITING
  datatype Op = CPU | IO

  // A process: the instructions left, its state, and the ticks at which its IOs finish, in order of issue.
  datatype Process = Process(code: seq<Op>, state: State, finish: seq<int>)

  datatype Stats = NoProcesses | Stats(cpuBusy: int, ioBusy: int, clockTick: int)

  // ----- What holds of the processes -----

  // Only the current process runs, and what is done has no instructions left.
  ghost predicate Consistent(procs: seq<Process>, curr: int) {
    && 0 <= curr < |procs|
    && (forall p :: 0 <= p < |procs| && procs[p].state.RUNNING? ==> p == curr)
    && forall p :: 0 <= p < |procs| && procs[p].state.DONE? ==> procs[p].code == []
  }

  // If a process is ready the CPU is in use, or kept for a process that waits; if processes switch only at their end,
  // only the current one can wait.
  ghost predicate Busy(switch: Switch, procs: seq<Process>, curr: int)
    requires 0 <= curr < |procs|
  {
    && (forall p :: 0 <= p < |procs| && procs[p].state.READY? ==>
      procs[curr].state.RUNNING? || (switch.SWITCH_ON_END? && procs[curr].state.WAITING?))
    && (switch.SWITCH_ON_END? ==> forall p :: 0 <= p < |procs| && procs[p].state.WAITING? ==> p == curr)
  }

  // A process has just become ready; apart from that the CPU is in use, or kept for this process.
  ghost predicate Awake(switch: Switch, procs: seq<Process>, curr: int, pid: int) {
    && 0 <= curr < |procs| && 0 <= pid < |procs| && procs[pid].state.READY?
    && (forall p :: 0 <= p < |procs| && p != pid && procs[p].state.READY? ==>
          procs[curr].state.RUNNING? || switch.SWITCH_ON_END?)
    && (switch.SWITCH_ON_END? ==> curr == pid && forall p :: 0 <= p < |procs| ==> !procs[p].state.WAITING?)
  }

  // A process waits exactly while its last IO has not finished; all others have.
  ghost predicate OnTime(p: Process, clock: int) {
    if p.state.WAITING? then
      p.finish != [] && p.finish[|p.finish| - 1] > clock && forall i :: 0 <= i < |p.finish| - 1 ==> p.finish[i] <= clock
    else forall i :: 0 <= i < |p.finish| ==> p.finish[i] <= clock
  }

  // While IOs that finish at clock are being looked for: processes from k on have not been looked at.
  ghost predicate Times(procs: seq<Process>, clock: int, k: int) {
    forall p :: 0 <= p < |procs| ==> OnTime(procs[p], if p < k then clock else clock - 1)
  }

  // What a process may turn into while finished IOs are dealt with.
  ghost predicate Later(p: Process, q: Process) {
    && q.code == p.code && q.finish == p.finish
    && (q.state.WAITING? ==> p.state.WAITING?) && (p.state.DONE? ==> q.state.DONE?)
  }

  ghost predicate AllLater(procs: seq<Process>, procs': seq<Process>) {
    |procs'| == |procs| && forall p :: 0 <= p < |procs| ==> Later(procs[p], procs'[p])
  }

  // Waiting goes on, for all processes but one.
  ghost predicate SameWaits(procs: seq<Process>, procs': seq<Process>, but: int) {
    && |procs'| == |procs|
    && forall p :: 0 <= p < |procs| && p != but ==> (procs'[p].state.WAITING? <==> procs[p].state.WAITING?)
  }

  // How many steps from curr a round over all processes gets to p.
  function Turn(curr: int, p: int, n: int): int {
    if p > curr then p - curr - 1 else p - curr - 1 + n
  }

  // The first ready process after curr, curr itself last.
  ghost predicate IsNext(procs: seq<Process>, curr: int, p: int) {
    && 0 <= p < |procs| && procs[p].state.READY?
    && forall q :: 0 <= q < |procs| && procs[q].state.READY? ==> Turn(curr, p, |procs|) <= Turn(curr, q, |procs|)
  }

  ghost predicate AnyReady(procs: seq<Process>) {
    exists p :: 0 <= p < |procs| && procs[p].state.READY?
  }

  // The next ready process runs, if there is one.
  ghost predicate Chose(procs: seq<Process>, curr: int, procs': seq<Process>, curr': int) {
    if AnyReady(procs) then IsNext(procs, curr, curr') && procs' == procs[curr' := procs[curr'].(state := RUNNING)]
    else procs' == procs && curr' == curr
  }

  // If nothing runs, choosing the next process makes the CPU busy again.
  lemma ChoseIsBusy(switch: Switch, procs: seq<Process>, curr: int, procs': seq<Process>, curr': int)
    requires Consistent(procs, curr) && !procs[curr].state.RUNNING? && Chose(procs, curr, procs', curr')
    requires switch.SWITCH_ON_END? ==> forall p :: 0 <= p < |procs| ==> !procs[p].state.WAITING?
    ensures Consistent(procs', curr') && Busy(switch, procs', curr')
  {
  }

  lemma ChoseOnTime(procs: seq<Process>, curr: int, procs': seq<Process>, curr': int, clock: int)
    requires 0 <= curr < |procs| && Chose(procs, curr, procs', curr') && Times(procs, clock, |procs|)
    ensures Times(procs', clock, |procs'|)
  {
    forall p | 0 <= p < |procs'| ensures OnTime(procs'[p], if p < |procs'| then clock else clock - 1) {
      assert OnTime(procs[p], if p < |procs| then clock else clock - 1);
    }
  }

  // That is the first ready process with a larger number than curr, or if there is none, the first of all.
  lemma NextIsFirst(procs: seq<Process>, curr: int, p: int)
    requires 0 <= curr < |procs| && 0 <= p < |procs|
    ensures IsNext(procs, curr, p) <==>
      && procs[p].state.READY?
      && (p > curr ==> forall q :: curr < q < p ==> !procs[q].state.READY?)
      && (p <= curr ==> forall q :: curr < q < |procs| || 0 <= q < p ==> !procs[q].state.READY?)
  {
  }

  lemma ChoseOnce(procs: seq<Process>, curr: int, a: seq<Process>, i: int, b: seq<Process>, j: int)
    requires 0 <= curr < |procs| && Chose(procs, curr, a, i) && Chose(procs, curr, b, j)
    ensures a == b && i == j
  {
  }

  // ----- Which process runs -----

  // From p to q one instruction is taken off, and if it is an IO it is to finish at the given tick.
  predicate Did(p: Process, q: Process, at: int) {
    p.code != [] && q.code == p.code[1..] && q.finish == if p.code[0].IO? then p.finish + [at] else p.finish
  }

  // Nothing is taken off, and no IO is issued.
  predicate DidNothing(p: Process, q: Process) {
    q.code == p.code && q.finish == p.finish
  }

  // Process p runs and has instructions left.
  predicate RunsOn(procs: seq<Process>, p: int) {
    0 <= p < |procs| && procs[p].state.RUNNING? && procs[p].code != []
  }

  // If the current process has run out of instructions it is done and the next one runs.
  ghost predicate EndsIfDone(procs: seq<Process>, curr: int, procs': seq<Process>, curr': int) {
    && 0 <= curr < |procs|
    && if procs[curr].state.RUNNING? && procs[curr].code == [] then
        Chose(procs[curr := procs[curr].(state := DONE)], curr, procs', curr')
       else procs' == procs && curr' == curr
  }

  // Process pid is ready, or runs if it is the winner, which any other running process is not.
  function Handed(procs: seq<Process>, pid: int, winner: int): seq<Process> {
    seq(|procs|, p requires 0 <= p < |procs| =>
      if p == winner then procs[p].(state := RUNNING)
      else if p == pid || procs[p].state.RUNNING? then procs[p].(state := READY)
      else procs[p])
  }

  // Who has the CPU when the IO of pid ends. Only if processes switch on IO and are run later can another process keep
  // it, and then it does if it has it.
  function Winner(switch: Switch, ioDone: IODone, procs: seq<Process>, curr: int, pid: int): int
    requires 0 <= curr < |procs|
  {
    if switch.SWITCH_ON_IO? && ioDone.IO_RUN_LATER? && procs[curr].state.RUNNING? then curr else pid
  }

  ghost predicate IoEnds(
      switch: Switch, ioDone: IODone, procs: seq<Process>, curr: int, pid: int, procs': seq<Process>, curr': int)
  {
    && 0 <= curr < |procs| && 0 <= pid < |procs|
    && var winner := Winner(switch, ioDone, procs, curr, pid);
      EndsIfDone(Handed(procs, pid, winner), winner, procs', curr')
  }

  // In the words of the two settings, for processes with instructions left.
  lemma WhoGoesOn(
      switch: Switch, ioDone: IODone, procs: seq<Process>, curr: int, pid: int, procs': seq<Process>, curr': int)
    requires IoEnds(switch, ioDone, procs, curr, pid, procs', curr') && Consistent(procs, curr)
    requires procs[pid].state.WAITING?
    ensures |procs'| == |procs| && 0 <= curr' < |procs|
    ensures ioDone.IO_RUN_IMMEDIATE? || switch.SWITCH_ON_END? || !procs[curr].state.RUNNING? ==>
      procs[pid].code != [] ==> curr' == pid && procs'[pid].state.RUNNING?
    ensures ioDone.IO_RUN_LATER? && switch.SWITCH_ON_IO? && RunsOn(procs, curr) ==>
      curr' == curr && procs'[curr].state.RUNNING? && procs'[pid].state.READY?
  {
  }

  // IOs of different processes finish at different ticks, and none after the last one given.
  ghost predicate Spread(procs: seq<Process>, last: int) {
    && (forall p, t :: 0 <= p < |procs| && t in procs[p].finish ==> t <= last)
    && forall p, q, t :: 0 <= p < |procs| && 0 <= q < |procs| && t in procs[p].finish && t in procs[q].finish ==> p == q
  }

  ghost predicate NoneFinish(procs: seq<Process>, clock: int) {
    forall p :: 0 <= p < |procs| ==> clock !in procs[p].finish
  }

  // The IOs that finish at this tick have been dealt with; there is at most one.
  ghost predicate Wakes(
      switch: Switch, ioDone: IODone, clock: int, procs: seq<Process>, curr: int, procs': seq<Process>, curr': int)
  {
    && (NoneFinish(procs, clock) ==> procs' == procs && curr' == curr)
    && forall p :: 0 <= p < |procs| && clock in procs[p].finish ==>
        IoEnds(switch, ioDone, procs, curr, p, procs', curr')
  }

  // That, as far as the first k processes go.
  ghost predicate WakesUpTo(
      switch: Switch, ioDone: IODone, clock: int, k: int, procs: seq<Process>, curr: int,
      procs': seq<Process>, curr': int)
  {
    && 0 <= k <= |procs|
    && ((forall p :: 0 <= p < k ==> clock !in procs[p].finish) ==> procs' == procs && curr' == curr)
    && forall p :: 0 <= p < k && clock in procs[p].finish ==> IoEnds(switch, ioDone, procs, curr, p, procs', curr')
  }

  lemma WakesNext(
      switch: Switch, ioDone: IODone, clock: int, k: int, procs: seq<Process>, curr: int,
      procs1: seq<Process>, curr1: int, procs2: seq<Process>, curr2: int, last: int)
    requires WakesUpTo(switch, ioDone, clock, k, procs, curr, procs1, curr1) && Spread(procs, last) && k < |procs|
    requires if clock in procs[k].finish then IoEnds(switch, ioDone, procs1, curr1, k, procs2, curr2)
             else procs2 == procs1 && curr2 == curr1
    ensures WakesUpTo(switch, ioDone, clock, k + 1, procs, curr, procs2, curr2)
  {
    if clock in procs[k].finish {
      assert forall p :: 0 <= p < k ==> clock !in procs[p].finish;
    }
  }

  // The current process has executed its next instruction, if it runs and has one; an IO may have handed the CPU on.
  ghost predicate Executes(
      switch: Switch, l: int, clock: int, procs: seq<Process>, curr: int, procs': seq<Process>, curr': int)
  {
    && 0 <= curr < |procs|
    && if procs[curr].state.RUNNING? && procs[curr].code != [] then
        var issued := procs[curr := Executed(procs[curr], clock + l)];
        if switch.SWITCH_ON_IO? && procs[curr].code[0].IO? then Chose(issued, curr, procs', curr')
        else procs' == issued && curr' == curr
       else procs' == procs && curr' == curr
  }

  // An instruction is executed, and the process ends if it was its last.
  ghost predicate MovesOn(
      switch: Switch, l: int, clock: int, procs: seq<Process>, curr: int, procs': seq<Process>, curr': int)
  {
    exists executed, next ::
      Executes(switch, l, clock, procs, curr, executed, next) && EndsIfDone(executed, next, procs', curr')
  }

  // The processes after a tick, the current one, and whether an instruction was executed and an IO was in flight.
  datatype Moment = Moment(procs: seq<Process>, curr: int, ran: bool, inFlight: bool)

  ghost predicate InFlight(procs: seq<Process>, clock: int) {
    exists p, i :: 0 <= p < |procs| && 0 <= i < |procs[p].finish| && procs[p].finish[i] > clock
  }

  // The CPU is with curr when the instruction is executed.
  ghost predicate TickBy(
      switch: Switch, ioDone: IODone, l: int, clock: int, procs0: seq<Process>, curr0: int,
      procs: seq<Process>, curr: int, m': Moment)
  {
    && Wakes(switch, ioDone, clock, procs0, curr0, procs, curr) && 0 <= curr < |procs|
    && m'.ran == RunsOn(procs, curr)
    && m'.inFlight == InFlight(procs0, clock)
    && MovesOn(switch, l, clock, procs, curr, m'.procs, m'.curr)
  }

  ghost predicate TickStep(
      switch: Switch, ioDone: IODone, l: int, clock: int, procs0: seq<Process>, curr0: int, m': Moment)
  {
    exists procs, curr :: TickBy(switch, ioDone, l, clock, procs0, curr0, procs, curr, m')
  }

  // h has the moments after each tick from the first on, and before it.
  ghost predicate History(switch: Switch, ioDone: IODone, l: int, h: seq<Moment>) {
    h != [] && forall t :: 0 < t < |h| ==> TickStep(switch, ioDone, l, t, h[t - 1].procs, h[t - 1].curr, h[t])
  }

  function Ran(): Moment -> bool {
    (m: Moment) => m.ran
  }

  function Flying(): Moment -> bool {
    (m: Moment) => m.inFlight
  }

  // The numbers that are reported: ticks, and those in which an instruction was executed or an IO was in flight.
  ghost predicate Tallied(h: seq<Moment>, stats: Stats) {
    && stats.Stats? && stats.clockTick == |h| - 1
    && h != [] && stats.cpuBusy == Count(Ran(), h[1..]) && stats.ioBusy == Count(Flying(), h[1..])
  }

  // A tick does work.
  ghost predicate TickWork(l: int, clock: int, procs: seq<Process>, procs': seq<Process>, ran: bool, inFlight: bool) {
    && Sum(Instructions(), procs') == Sum(Instructions(), procs) - B(ran)
    && Sum(Work(l, clock), procs') < Sum(Work(l, clock - 1), procs)
    && Sum(IoWork(l, clock), procs') + B(inFlight) <= Sum(IoWork(l, clock - 1), procs)
  }

  // Executing an instruction does one tick of work; a process that runs without one ends, which is work too.
  ghost predicate OneStep(l: int, clock: int, procs: seq<Process>, curr: int, procs': seq<Process>, ran: bool) {
    && 0 <= curr < |procs|
    && Sum(Instructions(), procs') == Sum(Instructions(), procs) - B(ran)
    && Sum(Work(l, clock), procs') <= Sum(Work(l, clock), procs) - B(ran)
    && (!ran && procs[curr].state.RUNNING? ==> Sum(Work(l, clock), procs') < Sum(Work(l, clock), procs))
    && Sum(IoWork(l, clock), procs') == Sum(IoWork(l, clock), procs)
  }

  lemma TickIsWork(
      switch: Switch, l: int, clock: int, procs: seq<Process>, procs1: seq<Process>, cpu: int,
      procs': seq<Process>, ran: bool)
    requires AllLater(procs, procs1) && Times(procs1, clock, |procs1|) && Count(Active(), procs) > 0
    requires Consistent(procs1, cpu) && Busy(switch, procs1, cpu) && OneStep(l, clock, procs1, cpu, procs', ran)
    ensures TickWork(l, clock, procs, procs', ran, Count(Waiting(), procs1) > 0)
  {
    TickPasses(l, procs, procs1, clock);
    if !ran && !procs1[cpu].state.RUNNING? {
      SomethingWaits(switch, procs, procs1, cpu);
    }
  }

  // What has been done and what is left make up what there was at the start.
  ghost predicate Accounts(l: int, procs0: seq<Process>, procs: seq<Process>, stats: Stats) {
    && stats.Stats?
    && stats.cpuBusy + Sum(Instructions(), procs) == Sum(Instructions(), procs0) && stats.cpuBusy <= stats.clockTick
    && stats.clockTick + Sum(Work(l, stats.clockTick), procs) <= Sum(Work(l, 0), procs0)
    && 0 <= stats.ioBusy && stats.ioBusy + Sum(IoWork(l, stats.clockTick), procs) <= Sum(IoWork(l, 0), procs0)
  }

  lemma AccountsNext(
      l: int, procs0: seq<Process>, procs: seq<Process>, procs': seq<Process>, stats: Stats, stats': Stats,
      ran: bool, inFlight: bool)
    requires Accounts(l, procs0, procs, stats) && Counted(stats, stats', ran, inFlight)
    requires TickWork(l, stats'.clockTick, procs, procs', ran, inFlight)
    ensures Accounts(l, procs0, procs', stats')
  {
    assert stats'.clockTick - 1 == stats.clockTick;
  }

  lemma AccountsBound(l: int, procs0: seq<Process>, procs: seq<Process>, stats: Stats)
    requires l >= 1 && Accounts(l, procs0, procs, stats)
    ensures stats.clockTick <= Sum(Work(l, 0), procs0) && 0 <= stats.ioBusy <= Sum(IoWork(l, 0), procs0)
  {
    WorkIsNatural(l, stats.clockTick, procs);
  }

  lemma HistoryNext(switch: Switch, ioDone: IODone, l: int, h: seq<Moment>, m: Moment, stats: Stats, stats': Stats)
    requires History(switch, ioDone, l, h) && Tallied(h, stats) && Counted(stats, stats', m.ran, m.inFlight)
    requires TickStep(switch, ioDone, l, stats'.clockTick, h[|h| - 1].procs, h[|h| - 1].curr, m)
    ensures History(switch, ioDone, l, h + [m]) && Tallied(h + [m], stats')
  {
    TalliedNext(h, m, stats, stats');
    forall t | 0 < t < |h + [m]|
      ensures TickStep(switch, ioDone, l, t, (h + [m])[t - 1].procs, (h + [m])[t - 1].curr, (h + [m])[t])
    {
      if t < |h| { assert (h + [m])[t - 1] == h[t - 1] && (h + [m])[t] == h[t]; }
    }
  }

  lemma TalliedNext(h: seq<Moment>, m: Moment, stats: Stats, stats': Stats)
    requires Tallied(h, stats) && Counted(stats, stats', m.ran, m.inFlight)
    ensures Tallied(h + [m], stats')
  {
    assert (h + [m])[1..] == h[1..] + [m];
    CountAppend(Ran(), h[1..], [m]);
    CountAppend(Flying(), h[1..], [m]);
  }

  // The run so far.
  ghost predicate Recorded(
      switch: Switch, ioDone: IODone, l: int, procs0: seq<Process>, curr0: int, h: seq<Moment>,
      procs: seq<Process>, curr: int, stats: Stats)
  {
    && History(switch, ioDone, l, h) && h[0].procs == procs0 && h[0].curr == curr0
    && h[|h| - 1].procs == procs && h[|h| - 1].curr == curr
    && Tallied(h, stats) && Accounts(l, procs0, procs, stats)
  }

  // The numbers after one more tick.
  ghost predicate Counted(stats: Stats, stats': Stats, ran: bool, inFlight: bool) {
    && stats.Stats? && stats'.Stats? && stats'.clockTick == stats.clockTick + 1
    && stats'.cpuBusy == stats.cpuBusy + B(ran) && stats'.ioBusy == stats.ioBusy + B(inFlight)
  }

  lemma RecordedNext(
      switch: Switch, ioDone: IODone, l: int, procs0: seq<Process>, curr0: int, h: seq<Moment>,
      procs: seq<Process>, curr: int, stats: Stats, m: Moment, stats': Stats)
    requires Recorded(switch, ioDone, l, procs0, curr0, h, procs, curr, stats)
    requires Counted(stats, stats', m.ran, m.inFlight)
    requires TickStep(switch, ioDone, l, stats'.clockTick, procs, curr, m)
    requires TickWork(l, stats'.clockTick, procs, m.procs, m.ran, m.inFlight)
    ensures Recorded(switch, ioDone, l, procs0, curr0, h + [m], m.procs, m.curr, stats')
  {
    HistoryNext(switch, ioDone, l, h, m, stats, stats');
    AccountsNext(l, procs0, procs, m.procs, stats, stats', m.ran, m.inFlight);
  }

  // The processes as they were added, with the first one running and no IOs.
  ghost predicate Started(procs: seq<Process>, procs0: seq<Process>) {
    && |procs0| == |procs|
    && forall p :: 0 <= p < |procs| ==> procs0[p] == Process(procs[p].code, if p == 0 then RUNNING else READY, [])
  }

  lemma StartIsSound(procs: seq<Process>, procs0: seq<Process>, switch: Switch, l: int)
    requires procs != [] && Started(procs, procs0)
    ensures Consistent(procs0, 0) && Busy(switch, procs0, 0) && Times(procs0, 0, |procs0|) && Spread(procs0, l)
  {
  }

  lemma EndsOnce(procs: seq<Process>, curr: int, a: seq<Process>, i: int, b: seq<Process>, j: int)
    requires EndsIfDone(procs, curr, a, i) && EndsIfDone(procs, curr, b, j)
    ensures a == b && i == j
  {
    if procs[curr].state.RUNNING? && procs[curr].code == [] {
      ChoseOnce(procs[curr := procs[curr].(state := DONE)], curr, a, i, b, j);
    }
  }

  lemma WakesOnce(
      switch: Switch, ioDone: IODone, clock: int, procs: seq<Process>, curr: int,
      a: seq<Process>, i: int, b: seq<Process>, j: int)
    requires Wakes(switch, ioDone, clock, procs, curr, a, i) && Wakes(switch, ioDone, clock, procs, curr, b, j)
    ensures a == b && i == j
  {
    if p :| 0 <= p < |procs| && clock in procs[p].finish {
      var winner := Winner(switch, ioDone, procs, curr, p);
      EndsOnce(Handed(procs, p, winner), winner, a, i, b, j);
    }
  }

  lemma ExecutesOnce(
      switch: Switch, l: int, clock: int, procs: seq<Process>, curr: int,
      a: seq<Process>, i: int, b: seq<Process>, j: int)
    requires Executes(switch, l, clock, procs, curr, a, i) && Executes(switch, l, clock, procs, curr, b, j)
    ensures a == b && i == j
  {
    if procs[curr].state.RUNNING? && procs[curr].code != [] && switch.SWITCH_ON_IO? && procs[curr].code[0].IO? {
      ChoseOnce(procs[curr := Executed(procs[curr], clock + l)], curr, a, i, b, j);
    }
  }

  // What a tick leads to is determined.
  lemma TickOnce(
      switch: Switch, ioDone: IODone, l: int, clock: int, procs0: seq<Process>, curr0: int, a: Moment, b: Moment)
    requires TickStep(switch, ioDone, l, clock, procs0, curr0, a)
    requires TickStep(switch, ioDone, l, clock, procs0, curr0, b)
    ensures a == b
  {
    var procs, curr :| TickBy(switch, ioDone, l, clock, procs0, curr0, procs, curr, a);
    var procs', curr' :| TickBy(switch, ioDone, l, clock, procs0, curr0, procs', curr', b);
    WakesOnce(switch, ioDone, clock, procs0, curr0, procs, curr, procs', curr');
    var x, i :| Executes(switch, l, clock, procs, curr, x, i) && EndsIfDone(x, i, a.procs, a.curr);
    var y, j :| Executes(switch, l, clock, procs, curr, y, j) && EndsIfDone(y, j, b.procs, b.curr);
    ExecutesOnce(switch, l, clock, procs, curr, x, i, y, j);
    EndsOnce(x, i, a.procs, a.curr, b.procs, b.curr);
  }

  // And so is the whole run, tick by tick.
  lemma {:induction false} HistoryOnce(switch: Switch, ioDone: IODone, l: int, g: seq<Moment>, h: seq<Moment>)
    requires History(switch, ioDone, l, g) && History(switch, ioDone, l, h) && g[0] == h[0] && |g| <= |h|
    ensures g == h[..|g|]
  {
    if |g| > 1 {
      var t := |g| - 1;
      HistoryOnce(switch, ioDone, l, g[..t], h);
      assert g[t - 1] == g[..t][t - 1] == h[t - 1];
      TickOnce(switch, ioDone, l, t, h[t - 1].procs, h[t - 1].curr, g[t], h[t]);
      assert g == g[..t] + [g[t]];
    }
  }

  function Active(): Process -> bool {
    (p: Process) => !p.state.DONE?
  }

  function Runnable(): Process -> bool {
    (p: Process) => p.state.READY? || p.state.RUNNING?
  }

  // ----- What is left to do -----

  // Ticks that instructions may take: one each, and for an IO the ticks that may go by until it is finished.
  function Cost(l: int, code: seq<Op>): int {
    if code == [] then 0 else (if code[0].IO? then l else 1) + Cost(l, code[1..])
  }

  function IoCost(l: int, code: seq<Op>): int {
    if code == [] then 0 else (if code[0].IO? then l - 1 else 0) + IoCost(l, code[1..])
  }

  function Ios(code: seq<Op>): nat {
    if code == [] then 0 else (if code[0].IO? then 1 else 0) + Ios(code[1..])
  }

  // Ticks after clock that a process goes on waiting.
  function Wait(clock: int, p: Process): int {
    if p.state.WAITING? && p.finish != [] && p.finish[|p.finish| - 1] > clock then
      p.finish[|p.finish| - 1] - clock - 1
    else 0
  }

  function Work(l: int, clock: int): Process -> int {
    (p: Process) => Cost(l, p.code) + Wait(clock, p) + (if p.state.DONE? then 0 else 1)
  }

  function IoWork(l: int, clock: int): Process -> int {
    (p: Process) => IoCost(l, p.code) + Wait(clock, p)
  }

  function Instructions(): Process -> int {
    (p: Process) => |p.code|
  }

  function AllIos(): Process -> int {
    (p: Process) => Ios(p.code)
  }

  function Waiting(): Process -> bool {
    (p: Process) => p.state.WAITING?
  }

  lemma {:induction false} CostOf(l: int, code: seq<Op>)
    requires l >= 1
    ensures Cost(l, code) == |code| + Ios(code) * (l - 1) && IoCost(l, code) == Ios(code) * (l - 1)
    ensures Cost(l, code) >= 0 && IoCost(l, code) >= 0
  {
    if code != [] {
      CostOf(l, code[1..]);
    }
  }

  // A process waits, or has just ended.
  ghost predicate WaitsOrEnds(procs: seq<Process>, procs': seq<Process>)
    requires |procs| == |procs'|
  {
    exists p ::
      && 0 <= p < |procs|
      && (procs'[p].state.WAITING? || (procs'[p].state.DONE? && !procs[p].state.DONE?))
  }

  // A tick goes by while finished IOs are dealt with. Work is done if a process ends, or waits.
  lemma TickPasses(l: int, procs: seq<Process>, procs': seq<Process>, clock: int)
    requires AllLater(procs, procs') && Times(procs', clock, |procs'|)
    ensures Sum(Work(l, clock), procs') <= Sum(Work(l, clock - 1), procs)
    ensures WaitsOrEnds(procs, procs') ==> Sum(Work(l, clock), procs') < Sum(Work(l, clock - 1), procs)
    ensures Sum(IoWork(l, clock), procs') + B(Count(Waiting(), procs') > 0) <= Sum(IoWork(l, clock - 1), procs)
    ensures Sum(Instructions(), procs') == Sum(Instructions(), procs)
  {
    forall p | 0 <= p < |procs|
      ensures Wait(clock, procs'[p]) + B(procs'[p].state.WAITING?) <= Wait(clock - 1, procs[p])
      ensures Work(l, clock)(procs'[p]) <= Work(l, clock - 1)(procs[p])
    {
      assert Later(procs[p], procs'[p]) && OnTime(procs'[p], clock);
    }
    SumBelow(Work(l, clock), Work(l, clock - 1), procs', procs);
    SumBelow(IoWork(l, clock), IoWork(l, clock - 1), procs', procs);
    SumBelow(Instructions(), Instructions(), procs', procs);
    SumBelow(Instructions(), Instructions(), procs, procs');
    CountZero(Waiting(), procs');
    if p :| 0 <= p < |procs| && (procs'[p].state.WAITING? || (procs'[p].state.DONE? && !procs[p].state.DONE?)) {
      assert Work(l, clock)(procs'[p]) < Work(l, clock - 1)(procs[p]);
    }
    if Count(Waiting(), procs') > 0 {
      var p :| 0 <= p < |procs| && Waiting()(procs'[p]);
      assert IoWork(l, clock)(procs'[p]) < IoWork(l, clock - 1)(procs[p]);
    }
  }

  // ----- The scheduler -----

  class Simulator {
    const switch: Switch
    const ioDone: IODone
    const ioLength: int

    var procs: seq<Process>
    var curr: int

    ghost predicate Valid()
      reads this
    {
      Consistent(procs, curr) && Busy(switch, procs, curr)
    }

    constructor (switch: Switch, ioDone: IODone, ioLength: int)
      ensures this.switch == switch && this.ioDone == ioDone && this.ioLength == ioLength && procs == []
    {
      this.switch, this.ioDone, this.ioLength := switch, ioDone, ioLength;
      procs, curr := [], 0;
    }

    method NewProcess(code: seq<Op>)
      modifies this`procs
      ensures procs == old(procs) + [Process(code, READY, [])]
    {
      procs := procs + [Process(code, READY, [])];
    }

    // A change of state; what the source asserts of the state before is the requires clause.
    method MoveTo(pid: int, expected: State, state: State)
      requires 0 <= pid < |procs| && procs[pid].state == expected
      modifies this`procs
      ensures procs == old(procs)[pid := old(procs)[pid].(state := state)]
    {
      procs := procs[pid := procs[pid].(state := state)];
    }

    // Run a given process.
    method RunProc(pid: int)
      requires 0 <= pid < |procs| && procs[pid].state.READY?
      modifies this
      ensures curr == pid && procs == old(procs)[pid := old(procs)[pid].(state := RUNNING)]
    {
      curr := pid;
      MoveTo(curr, READY, RUNNING);
    }

    // Run the next ready process, if there is one.
    method NextProc()
      requires 0 <= curr < |procs|
      modifies this
      ensures Chose(old(procs), old(curr), procs, curr)
    {
      for pid := curr + 1 to |procs|
        invariant procs == old(procs) && curr == old(curr)
        invariant forall q :: old(curr) < q < pid ==> !procs[q].state.READY?
      {
        if procs[pid].state.READY? {
          RunProc(pid);
          return;
        }
      }
      for pid := 0 to curr + 1
        invariant procs == old(procs) && curr == old(curr)
        invariant forall q :: 0 <= q < pid || old(curr) < q < |procs| ==> !procs[q].state.READY?
      {
        if procs[pid].state.READY? {
          RunProc(pid);
          return;
        }
      }
    }

    method GetNumActive() returns (n: nat)
      ensures n == Count(Active(), procs)
    {
      n := 0;
      for pid := 0 to |procs|
        invariant n == Count(Active(), procs[..pid])
      {
        assert procs[..pid + 1] == procs[..pid] + [procs[pid]];
        CountAppend(Active(), procs[..pid], [procs[pid]]);
        if !procs[pid].state.DONE? {
          n := n + 1;
        }
      }
      assert procs[..|procs|] == procs;
    }

    method GetNumRunnable() returns (n: nat)
      ensures n == Count(Runnable(), procs)
    {
      n := 0;
      for pid := 0 to |procs|
        invariant n == Count(Runnable(), procs[..pid])
      {
        assert procs[..pid + 1] == procs[..pid] + [procs[pid]];
        CountAppend(Runnable(), procs[..pid], [procs[pid]]);
        if procs[pid].state.READY? || procs[pid].state.RUNNING? {
          n := n + 1;
        }
      }
      assert procs[..|procs|] == procs;
    }

    // If the current process has run out of instructions it is done, and the next one runs.
    method CheckIfDone()
      requires Valid()
      modifies this
      ensures Valid() && AllLater(old(procs), procs) && SameWaits(old(procs), procs, -1)
      ensures EndsIfDone(old(procs), old(curr), procs, curr)
      ensures old(procs)[old(curr)].state.RUNNING? && old(procs)[old(curr)].code == [] ==> procs[old(curr)].state.DONE?
    {
      if |procs[curr].code| == 0 {
        if procs[curr].state.RUNNING? {
          MoveTo(curr, RUNNING, DONE);
          ghost var before := procs;
          NextProc();
          ChoseIsBusy(switch, before, old(curr), procs, curr);
        }
      }
    }

    // What IO_RUN_IMMEDIATE does with a process whose IO is done: it runs.
    method RunNow(pid: int)
      requires Consistent(procs, curr) && Awake(switch, procs, curr, pid)
      modifies this
      ensures Valid() && AllLater(old(procs), procs) && SameWaits(old(procs), procs, -1)
      ensures curr == pid && procs == Handed(old(procs), pid, pid)
    {
      if curr != pid {
        if procs[curr].state.RUNNING? {
          MoveTo(curr, RUNNING, READY);
        }
      }
      RunProc(pid);
    }

    // What IO_RUN_LATER does: it runs only if it is the one to go on, or if nothing else can run.
    method RunIfAlone(pid: int)
      requires Consistent(procs, curr) && Awake(switch, procs, curr, pid)
      modifies this
      ensures Valid() && AllLater(old(procs), procs) && SameWaits(old(procs), procs, -1)
      ensures switch.SWITCH_ON_END? || Count(Runnable(), old(procs)) == 1 ==> curr == pid && procs[pid].state.RUNNING?
      ensures switch.SWITCH_ON_IO? && Count(Runnable(), old(procs)) > 1 ==> procs == old(procs) && curr == old(curr)
      ensures if switch.SWITCH_ON_IO? && old(procs)[old(curr)].state.RUNNING?
        then procs == Handed(old(procs), pid, curr) && curr == old(curr)
        else procs == Handed(old(procs), pid, pid) && curr == pid
    {
      var runnable := GetNumRunnable();
      Another(procs, pid);
      if switch.SWITCH_ON_END? && runnable > 1 {
        ghost var before := procs;
        RunProc(pid);
        CountUpdate(Runnable(), before, pid, procs[pid]);
      }
      runnable := GetNumRunnable();
      if runnable == 1 {
        AtMostOne(Runnable(), procs, pid);
        RunProc(pid);
      }
    }

    // The IO of a waiting process is done.
    method FinishIO(pid: int)
      requires Valid() && 0 <= pid < |procs| && procs[pid].state.WAITING?
      modifies this
      ensures Valid() && AllLater(old(procs), procs) && SameWaits(old(procs), procs, pid) && !procs[pid].state.WAITING?
      ensures IoEnds(switch, ioDone, old(procs), old(curr), pid, procs, curr)
      // in the words of the two settings, for processes with instructions left
      ensures (ioDone.IO_RUN_IMMEDIATE? || switch.SWITCH_ON_END?) && procs[pid].code != [] ==>
        curr == pid && procs[pid].state.RUNNING?
      ensures ioDone.IO_RUN_LATER? && switch.SWITCH_ON_IO? && RunsOn(old(procs), old(curr)) ==>
        curr == old(curr) && procs[curr].state.RUNNING? && procs[pid].state.READY?
      ensures procs[pid].code != [] && (forall p :: 0 <= p < |procs| && p != pid ==> !Runnable()(old(procs)[p])) ==>
        curr == pid && procs[pid].state.RUNNING?
    {
      ghost var before := procs;
      HandOver(pid);
      CheckIfDone();
      WhoGoesOn(switch, ioDone, before, old(curr), pid, procs, curr);
    }

    // The process is ready, and the CPU goes to whom it should.
    method HandOver(pid: int)
      requires Valid() && 0 <= pid < |procs| && procs[pid].state.WAITING?
      modifies this
      ensures Valid() && AllLater(old(procs), procs) && SameWaits(old(procs), procs, pid)
      ensures curr == Winner(switch, ioDone, old(procs), old(curr), pid)
      ensures procs == Handed(old(procs), pid, curr)
    {
      ghost var before := procs;
      MoveTo(pid, WAITING, READY);
      assert Handed(procs, pid, pid) == Handed(before, pid, pid);
      assert before[curr].state.RUNNING? ==> curr != pid && Handed(procs, pid, curr) == Handed(before, pid, curr);
      if ioDone.IO_RUN_IMMEDIATE? {
        RunNow(pid);
      } else {
        RunIfAlone(pid);
      }
    }

    // The loop over processes that looks for IOs that finish at this tick.
    method CompleteIOs(clock: int, ghost last: int)
      requires Valid() && Times(procs, clock, 0) && Spread(procs, last)
      modifies this
      ensures Valid() && AllLater(old(procs), procs) && Times(procs, clock, |procs|)
      ensures Wakes(switch, ioDone, clock, old(procs), old(curr), procs, curr)
    {
      for pid := 0 to |procs|
        invariant Valid() && AllLater(old(procs), procs) && Times(procs, clock, pid)
        invariant WakesUpTo(switch, ioDone, clock, pid, old(procs), old(curr), procs, curr)
      {
        ghost var before, was := procs, curr;
        assert OnTime(procs[pid], clock - 1);
        assert Later(old(procs)[pid], procs[pid]);
        if clock in procs[pid].finish {
          FinishIO(pid);
        }
        TimesNext(before, procs, clock, pid);
        WakesNext(switch, ioDone, clock, pid, old(procs), old(curr), before, was, procs, curr, last);
      }
    }

    // The number of IOs in flight: one for each waiting process.
    method GetIosInFlight(clock: int) returns (n: nat)
      requires Times(procs, clock, |procs|)
      ensures n == Count(Waiting(), procs)
    {
      n := 0;
      for pid := 0 to |procs|
        invariant n == Count(Waiting(), procs[..pid])
      {
        assert procs[..pid + 1] == procs[..pid] + [procs[pid]];
        CountAppend(Waiting(), procs[..pid], [procs[pid]]);
        ghost var before := n;
        assert OnTime(procs[pid], clock);
        var finish := procs[pid].finish;
        for t := 0 to |finish|
          invariant n == before + (if procs[pid].state.WAITING? && t == |finish| then 1 else 0)
        {
          if finish[t] > clock {
            n := n + 1;
          }
        }
      }
      assert procs[..|procs|] == procs;
    }

    // Take the next instruction off the current process; an IO makes it wait.
    method Issue(clock: int) returns (op: Op)
      requires 0 <= curr < |procs| && procs[curr].state.RUNNING? && procs[curr].code != []
      modifies this`procs
      ensures op == old(procs)[curr].code[0]
      ensures procs == old(procs)[curr := Executed(old(procs)[curr], clock + ioLength)]
    {
      op := procs[curr].code[0];
      procs := procs[curr := procs[curr].(code := procs[curr].code[1..])];
      if op.IO? {
        MoveTo(curr, RUNNING, WAITING);
        procs := procs[curr := procs[curr].(finish := procs[curr].finish + [clock + ioLength])];
      }
    }

    // The current process executes its next instruction, if it runs and has one, and may give up the CPU.
    method Execute(clock: int) returns (ran: bool)
      requires Valid() && Times(procs, clock, |procs|) && ioLength >= 1
      modifies this
      ensures Valid() && Times(procs, clock, |procs|) && |procs| == |old(procs)|
      ensures ran == (old(procs)[old(curr)].state.RUNNING? && old(procs)[old(curr)].code != [])
      ensures Executes(switch, ioLength, clock, old(procs), old(curr), procs, curr)
      ensures !ran ==> procs == old(procs) && curr == old(curr)
      ensures Sum(Instructions(), procs) == Sum(Instructions(), old(procs)) - B(ran)
      ensures Sum(Work(ioLength, clock), procs) == Sum(Work(ioLength, clock), old(procs)) - B(ran)
      ensures Sum(IoWork(ioLength, clock), procs) == Sum(IoWork(ioLength, clock), old(procs))
    {
      ran := procs[curr].state.RUNNING? && |procs[curr].code| > 0;
      if ran {
        IssueWorks(switch, ioLength, clock, procs, curr);
        var op := Issue(clock);
        if op.IO? && switch.SWITCH_ON_IO? {
          PassOn(clock);
        }
      }
    }

    // The next process runs in place of one that has just issued an IO.
    method PassOn(ghost clock: int)
      requires Consistent(procs, curr) && !procs[curr].state.RUNNING? && Times(procs, clock, |procs|)
      requires switch.SWITCH_ON_IO?
      modifies this
      ensures Valid() && Times(procs, clock, |procs|) && Chose(old(procs), old(curr), procs, curr)
      ensures Sum(Instructions(), procs) == Sum(Instructions(), old(procs))
      ensures Sum(Work(ioLength, clock), procs) == Sum(Work(ioLength, clock), old(procs))
      ensures Sum(IoWork(ioLength, clock), procs) == Sum(IoWork(ioLength, clock), old(procs))
    {
      NextProc();
      ChoseIsBusy(switch, old(procs), old(curr), procs, curr);
      ChoseOnTime(old(procs), old(curr), procs, curr, clock);
      Dispatched(ioLength, clock, old(procs), procs, curr);
    }

    // One turn of the main loop; procs1 and cpu are the processes and the current one once finished IOs have been dealt
    // with.
    method Tick(clock: int) returns (ran: bool, inFlight: bool, ghost procs1: seq<Process>, ghost cpu: int)
      requires Valid() && Times(procs, clock, 0) && ioLength >= 1 && Count(Active(), procs) > 0
      requires Spread(procs, clock - 1 + ioLength)
      modifies this
      ensures Valid() && Times(procs, clock, |procs|) && |procs| == |old(procs)| && Spread(procs, clock + ioLength)
      ensures TickBy(switch, ioDone, ioLength, clock, old(procs), old(curr), procs1, cpu,
                     Moment(procs, curr, ran, inFlight))
      ensures AllLater(old(procs), procs1) && TickWork(ioLength, clock, old(procs), procs, ran, inFlight)
    {
      CompleteIOs(clock, clock - 1 + ioLength);
      procs1, cpu := procs, curr;
      StillInFlight(old(procs), procs1, clock);
      var outstanding := GetIosInFlight(clock);
      inFlight := outstanding > 0;
      ran := ExecuteAndEnd(clock);
      LaterSpread(old(procs), procs1, clock - 1 + ioLength);
      MovesOnSpread(switch, ioLength, clock, procs1, cpu, procs, curr);
      TickIsWork(switch, ioLength, clock, old(procs), procs1, cpu, procs, ran);
    }

    // The instruction, and the end of the process if it was the last.
    method ExecuteAndEnd(clock: int) returns (ran: bool)
      requires Valid() && Times(procs, clock, |procs|) && ioLength >= 1
      modifies this
      ensures Valid() && Times(procs, clock, |procs|) && |procs| == |old(procs)|
      ensures ran == RunsOn(old(procs), old(curr))
      ensures MovesOn(switch, ioLength, clock, old(procs), old(curr), procs, curr)
      ensures OneStep(ioLength, clock, old(procs), old(curr), procs, ran)
    {
      ran := Execute(clock);
      ghost var procs2, curr2 := procs, curr;
      CheckIfDone();
      EndingHelps(ioLength, clock, procs2, procs);
      assert Executes(switch, ioLength, clock, old(procs), old(curr), procs2, curr2);
      EndsOnTime(procs2, curr2, procs, curr, clock);
    }

    // The whole simulation. Every instruction is executed, and the clock is bounded by the instructions, the ticks that
    // IOs may keep the CPU waiting, and one tick for each process to end.
    method Run() returns (stats: Stats, ghost h: seq<Moment>)
      requires ioLength >= 1 && forall p :: 0 <= p < |procs| ==> procs[p].state.READY?
      modifies this
      ensures stats.NoProcesses? <==> old(procs) == []
      ensures |procs| == |old(procs)| && forall p :: 0 <= p < |procs| ==> procs[p].state.DONE? && procs[p].code == []
      ensures stats.Stats? ==> stats.cpuBusy == Sum(Instructions(), old(procs)) <= stats.clockTick
      ensures stats.Stats? ==> 0 <= stats.ioBusy <= Sum(AllIos(), old(procs)) * (ioLength - 1)
      ensures stats.Stats? ==>
        stats.clockTick <= Sum(Instructions(), old(procs)) + Sum(AllIos(), old(procs)) * (ioLength - 1) + |old(procs)|
      // tick by tick, from the first process running
      ensures stats.Stats? ==> History(switch, ioDone, ioLength, h) && Started(old(procs), h[0].procs) && h[0].curr == 0
      ensures stats.Stats? ==> h[|h| - 1].procs == procs && Tallied(h, stats)
    {
      h := [];
      if |procs| == 0 {
        return NoProcesses, h;
      }
      procs := seq(|procs|, p requires 0 <= p < |procs| reads this => Process(procs[p].code, procs[p].state, []));
      curr := 0;
      MoveTo(curr, READY, RUNNING);
      StartWork(old(procs), procs, ioLength);
      StartIsSound(old(procs), procs, switch, ioLength);
      stats, h := Loop();
    }

    // The main loop.
    method Loop() returns (stats: Stats, ghost h: seq<Moment>)
      requires ioLength >= 1 && Valid() && Times(procs, 0, |procs|) && Spread(procs, ioLength)
      modifies this
      ensures |procs| == |old(procs)| && forall p :: 0 <= p < |procs| ==> procs[p].state.DONE? && procs[p].code == []
      ensures stats.Stats? && stats.cpuBusy == Sum(Instructions(), old(procs)) <= stats.clockTick
      ensures stats.clockTick <= Sum(Work(ioLength, 0), old(procs))
      ensures 0 <= stats.ioBusy <= Sum(IoWork(ioLength, 0), old(procs))
      ensures History(switch, ioDone, ioLength, h) && h[0].procs == old(procs) && h[0].curr == old(curr)
      ensures h[|h| - 1].procs == procs && Tallied(h, stats)
    {
      ghost var procs0 := procs;
      var clock, ioBusy, cpuBusy := 0, 0, 0;
      var active := GetNumActive();
      h := [Moment(procs, curr, false, false)];
      while active > 0
        invariant Valid() && Times(procs, clock, |procs|) && |procs| == |procs0| && active == Count(Active(), procs)
        invariant Spread(procs, clock + ioLength)
        invariant Recorded(switch, ioDone, ioLength, procs0, old(curr), h, procs, curr, Stats(cpuBusy, ioBusy, clock))
        decreases Sum(Work(ioLength, 0), procs0) - clock
      {
        ghost var before, was, stats0 := procs, curr, Stats(cpuBusy, ioBusy, clock);
        AccountsBound(ioLength, procs0, procs, stats0);
        NextTick(procs, clock);
        clock := clock + 1;
        var ran, inFlight, _, _ := Tick(clock);
        if ran {
          cpuBusy := cpuBusy + 1;
        }
        if inFlight {
          ioBusy := ioBusy + 1;
        }
        ghost var m := Moment(procs, curr, ran, inFlight);
        stats := Stats(cpuBusy, ioBusy, clock);
        RecordedNext(switch, ioDone, ioLength, procs0, old(curr), h, before, was, stats0, m, stats);
        h := h + [m];
        active := GetNumActive();
      }
      AllIsDone(ioLength, clock, procs, curr);
      stats := Stats(cpuBusy, ioBusy, clock);
      AccountsBound(ioLength, procs0, procs, stats);
    }
  }

  lemma LaterSpread(procs: seq<Process>, procs': seq<Process>, last: int)
    requires AllLater(procs, procs') && Spread(procs, last)
    ensures Spread(procs', last)
  {
    assert forall p :: 0 <= p < |procs| ==> Later(procs[p], procs'[p]);
  }

  lemma EndsOnTime(procs: seq<Process>, curr: int, procs': seq<Process>, curr': int, clock: int)
    requires EndsIfDone(procs, curr, procs', curr') && Times(procs, clock, |procs|)
    ensures Times(procs', clock, |procs'|)
  {
    forall p | 0 <= p < |procs'| ensures OnTime(procs'[p], if p < |procs'| then clock else clock - 1) {
      assert OnTime(procs[p], if p < |procs| then clock else clock - 1);
    }
  }

  // Only one IO is issued at a tick, and all take the same time.
  lemma MovesOnSpread(
      switch: Switch, l: int, clock: int, procs: seq<Process>, curr: int, procs': seq<Process>, curr': int)
    requires MovesOn(switch, l, clock, procs, curr, procs', curr') && Spread(procs, clock - 1 + l)
    ensures Spread(procs', clock + l)
  {
    MovesOnKeeps(switch, l, clock, procs, curr, procs', curr');
    if RunsOn(procs, curr) {
      IssuedSpread(procs, curr, clock + l);
      SameFinish(procs[curr := Executed(procs[curr], clock + l)], procs', clock + l);
    } else {
      SameFinish(procs, procs', clock + l);
    }
  }

  // Codes and times of IOs change for the process that executes an instruction only.
  lemma EndsKeeps(procs: seq<Process>, curr: int, procs': seq<Process>, curr': int)
    requires EndsIfDone(procs, curr, procs', curr')
    ensures SameRest(procs, procs')
  {
  }

  ghost predicate SameRest(procs: seq<Process>, procs': seq<Process>) {
    && |procs'| == |procs|
    && forall p :: 0 <= p < |procs| ==> procs'[p].finish == procs[p].finish && procs'[p].code == procs[p].code
  }

  lemma MovesOnKeeps(
      switch: Switch, l: int, clock: int, procs: seq<Process>, curr: int, procs': seq<Process>, curr': int)
    requires MovesOn(switch, l, clock, procs, curr, procs', curr')
    ensures 0 <= curr < |procs|
    ensures SameRest(if RunsOn(procs, curr) then procs[curr := Executed(procs[curr], clock + l)] else procs, procs')
  {
    var executed, next :|
      Executes(switch, l, clock, procs, curr, executed, next) && EndsIfDone(executed, next, procs', curr');
    EndsKeeps(executed, next, procs', curr');
  }

  lemma IssuedSpread(procs: seq<Process>, curr: nat, at: int)
    requires curr < |procs| && procs[curr].code != [] && Spread(procs, at - 1)
    ensures Spread(procs[curr := Executed(procs[curr], at)], at)
  {
  }

  lemma SameFinish(procs: seq<Process>, procs': seq<Process>, last: int)
    requires |procs'| == |procs| && forall p :: 0 <= p < |procs| ==> procs'[p].finish == procs[p].finish
    requires Spread(procs, last)
    ensures Spread(procs', last)
  {
  }

  // The process that executes an instruction.
  lemma WhoRuns(
      switch: Switch, ioDone: IODone, l: int, clock: int, procs0: seq<Process>, curr0: int,
      procs: seq<Process>, cpu: int, m: Moment)
    requires TickBy(switch, ioDone, l, clock, procs0, curr0, procs, cpu, m) && 0 <= curr0 < |procs0|
    ensures NoneFinish(procs0, clock) ==> m.ran == RunsOn(procs0, curr0) && cpu == curr0
    ensures switch.SWITCH_ON_IO? && ioDone.IO_RUN_LATER? && RunsOn(procs0, curr0) ==> m.ran && cpu == curr0
    ensures forall pid :: 0 <= pid < |procs0| && clock in procs0[pid].finish && procs0[pid].code != [] ==>
      ioDone.IO_RUN_IMMEDIATE? || switch.SWITCH_ON_END? || !procs0[curr0].state.RUNNING? ==> m.ran && cpu == pid
  {
    forall pid | 0 <= pid < |procs0| && clock in procs0[pid].finish
      ensures IoEnds(switch, ioDone, procs0, curr0, pid, procs, cpu) && !NoneFinish(procs0, clock)
    {
    }
    forall pid | 0 <= pid < |procs0| && clock in procs0[pid].finish {
      WinnerRuns(switch, ioDone, procs0, curr0, pid, procs, cpu);
    }
  }

  // Only its instructions change, by the first of them, and if that is an IO it finishes l ticks later.
  lemma WhatRuns(
      switch: Switch, ioDone: IODone, l: int, clock: int, procs0: seq<Process>, curr0: int,
      procs: seq<Process>, cpu: int, m: Moment, p: int)
    requires TickBy(switch, ioDone, l, clock, procs0, curr0, procs, cpu, m) && 0 <= p < |procs0|
    ensures |m.procs| == |procs0| && 0 <= cpu < |procs0|
    ensures if m.ran && p == cpu then Did(procs0[p], m.procs[p], clock + l) else DidNothing(procs0[p], m.procs[p])
  {
    MovesOnKeeps(switch, l, clock, procs, cpu, m.procs, m.curr);
    WakesKeeps(switch, ioDone, clock, procs0, curr0, procs, cpu);
  }

  lemma WakesKeeps(
      switch: Switch, ioDone: IODone, clock: int, procs: seq<Process>, curr: int, procs': seq<Process>, curr': int)
    requires Wakes(switch, ioDone, clock, procs, curr, procs', curr')
    ensures SameRest(procs, procs')
  {
    if p :| 0 <= p < |procs| && clock in procs[p].finish {
      var winner := Winner(switch, ioDone, procs, curr, p);
      EndsKeeps(Handed(procs, p, winner), winner, procs', curr');
    }
  }

  lemma WinnerRuns(
      switch: Switch, ioDone: IODone, procs: seq<Process>, curr: int, pid: int, procs': seq<Process>, curr': int)
    requires IoEnds(switch, ioDone, procs, curr, pid, procs', curr')
    ensures var winner := Winner(switch, ioDone, procs, curr, pid);
      procs[winner].code != [] ==> curr' == winner && RunsOn(procs', winner)
  {
  }

  // An IO is in flight exactly while a process waits for it.
  lemma StillInFlight(procs: seq<Process>, procs': seq<Process>, clock: int)
    requires AllLater(procs, procs') && Times(procs', clock, |procs'|)
    ensures Count(Waiting(), procs') > 0 <==> InFlight(procs, clock)
  {
    CountZero(Waiting(), procs');
    forall p | 0 <= p < |procs|
      ensures Waiting()(procs'[p]) <==> exists i :: 0 <= i < |procs[p].finish| && procs[p].finish[i] > clock
    {
      assert OnTime(procs'[p], if p < |procs'| then clock else clock - 1) && Later(procs[p], procs'[p]);
    }
  }

  lemma NextTick(procs: seq<Process>, clock: int)
    requires Times(procs, clock, |procs|)
    ensures Times(procs, clock + 1, 0)
  {
    forall p | 0 <= p < |procs| ensures OnTime(procs[p], clock) {
      assert OnTime(procs[p], if p < |procs| then clock else clock - 1);
    }
  }

  lemma WorkIsNatural(l: int, clock: int, procs: seq<Process>)
    requires l >= 1
    ensures Sum(Work(l, clock), procs) >= 0 && Sum(IoWork(l, clock), procs) >= 0
  {
    forall p | 0 <= p < |procs| ensures Work(l, clock)(procs[p]) >= 0 && IoWork(l, clock)(procs[p]) >= 0 {
      CostOf(l, procs[p].code);
    }
    SumNonNegative(Work(l, clock), procs);
    SumNonNegative(IoWork(l, clock), procs);
  }

  // What there is to do before the first tick.
  ghost predicate Fresh(procs: seq<Process>, procs0: seq<Process>) {
    && |procs0| == |procs|
    && forall p :: 0 <= p < |procs| ==> procs[p].state.READY? && procs0[p] == Process(procs[p].code, READY, [])
  }

  lemma Distribute(a: int, b: int, k: int)
    ensures (a + b) * k == a * k + b * k
  {
  }

  lemma {:induction false} IosToDo(l: int, procs: seq<Process>, procs0: seq<Process>)
    requires l >= 1 && Fresh(procs, procs0)
    ensures Sum(IoWork(l, 0), procs0) == Sum(AllIos(), procs) * (l - 1)
  {
    if procs != [] {
      IosToDo(l, procs[1..], procs0[1..]);
      CostOf(l, procs[0].code);
      Distribute(Ios(procs[0].code), Sum(AllIos(), procs[1..]), l - 1);
    }
  }

  lemma {:induction false} WorkToDo(l: int, procs: seq<Process>, procs0: seq<Process>)
    requires l >= 1 && Fresh(procs, procs0)
    ensures Sum(Instructions(), procs0) == Sum(Instructions(), procs)
    ensures Sum(Work(l, 0), procs0) == Sum(Instructions(), procs) + Sum(IoWork(l, 0), procs0) + |procs|
  {
    if procs != [] {
      WorkToDo(l, procs[1..], procs0[1..]);
      CostOf(l, procs[0].code);
    }
  }

  // What there is to do when the first process runs.
  lemma StartWork(procs: seq<Process>, procs0: seq<Process>, l: int)
    requires l >= 1 && procs != [] && Started(procs, procs0)
    requires forall p :: 0 <= p < |procs| ==> procs[p].state.READY?
    ensures Sum(Instructions(), procs0) == Sum(Instructions(), procs)
    ensures Sum(IoWork(l, 0), procs0) == Sum(AllIos(), procs) * (l - 1)
    ensures Sum(Work(l, 0), procs0) == Sum(Instructions(), procs) + Sum(AllIos(), procs) * (l - 1) + |procs|
  {
    var ready := procs0[0 := procs0[0].(state := READY)];
    IosToDo(l, procs, ready);
    WorkToDo(l, procs, ready);
    assert procs0 == ready[0 := ready[0].(state := RUNNING)];
    Dispatched(l, 0, ready, procs0, 0);
  }

  // Nothing is left when everything is done.
  lemma AllIsDone(l: int, clock: int, procs: seq<Process>, curr: int)
    requires l >= 1 && Consistent(procs, curr) && Count(Active(), procs) == 0
    ensures forall p :: 0 <= p < |procs| ==> procs[p].state.DONE? && procs[p].code == []
    ensures Sum(Instructions(), procs) == 0
  {
    CountZero(Active(), procs);
    forall p | 0 <= p < |procs| ensures procs[p].state.DONE? {
      assert !Active()(procs[p]);
    }
    SumZero(Instructions(), procs);
  }

  // If nothing runs although not all was done, something waits or something has just ended.
  lemma SomethingWaits(switch: Switch, procs: seq<Process>, procs': seq<Process>, curr: int)
    requires AllLater(procs, procs') && Count(Active(), procs) > 0
    requires 0 <= curr < |procs| && Busy(switch, procs', curr) && Consistent(procs', curr)
    requires !procs'[curr].state.RUNNING?
    ensures WaitsOrEnds(procs, procs')
  {
    CountZero(Active(), procs);
    var p :| 0 <= p < |procs| && Active()(procs[p]);
    assert procs'[p].state.READY? ==> procs'[curr].state.WAITING?;
  }

  // A process that ends does the work of ending.
  lemma EndingHelps(l: int, clock: int, procs: seq<Process>, procs': seq<Process>)
    requires AllLater(procs, procs') && SameWaits(procs, procs', -1)
    ensures Sum(Work(l, clock), procs') <= Sum(Work(l, clock), procs)
    ensures (exists p :: 0 <= p < |procs| && procs'[p].state.DONE? && !procs[p].state.DONE?) ==>
      Sum(Work(l, clock), procs') < Sum(Work(l, clock), procs)
    ensures Sum(IoWork(l, clock), procs') == Sum(IoWork(l, clock), procs)
    ensures Sum(Instructions(), procs') == Sum(Instructions(), procs)
  {
    forall p | 0 <= p < |procs|
      ensures Wait(clock, procs'[p]) == Wait(clock, procs[p]) && Work(l, clock)(procs'[p]) <= Work(l, clock)(procs[p])
    {
      assert Later(procs[p], procs'[p]);
    }
    SumBelow(Work(l, clock), Work(l, clock), procs', procs);
    SumBelow(IoWork(l, clock), IoWork(l, clock), procs', procs);
    SumBelow(IoWork(l, clock), IoWork(l, clock), procs, procs');
    SumBelow(Instructions(), Instructions(), procs', procs);
    SumBelow(Instructions(), Instructions(), procs, procs');
    if p :| 0 <= p < |procs| && procs'[p].state.DONE? && !procs[p].state.DONE? {
      assert Work(l, clock)(procs'[p]) < Work(l, clock)(procs[p]);
    }
  }

  // A process that has been looked at, and possibly taken out of its wait, is on time.
  lemma TimesNext(procs: seq<Process>, procs': seq<Process>, clock: int, pid: nat)
    requires Times(procs, clock, pid) && AllLater(procs, procs') && pid < |procs|
    requires
      if clock in procs[pid].finish then SameWaits(procs, procs', pid) && !procs'[pid].state.WAITING?
      else procs' == procs
    requires clock in procs[pid].finish ==> procs[pid].state.WAITING?
    ensures Times(procs', clock, pid + 1)
  {
    forall p | 0 <= p < |procs| ensures OnTime(procs'[p], if p < pid + 1 then clock else clock - 1) {
      assert OnTime(procs[p], if p < pid then clock else clock - 1) && Later(procs[p], procs'[p]);
    }
  }

  // A process after its next instruction, which finishes at the given tick if it is an IO.
  function Executed(p: Process, at: int): Process
    requires p.code != []
  {
    if p.code[0].IO? then Process(p.code[1..], WAITING, p.finish + [at]) else p.(code := p.code[1..])
  }

  // Executing an instruction does one tick of work. Only an IO of a process that gives up the CPU leaves it idle.
  lemma IssueWorks(switch: Switch, l: int, clock: int, procs: seq<Process>, curr: int)
    requires Consistent(procs, curr) && Busy(switch, procs, curr) && Times(procs, clock, |procs|) && l >= 1
    requires procs[curr].state.RUNNING? && procs[curr].code != []
    ensures var procs' := procs[curr := Executed(procs[curr], clock + l)];
      && Consistent(procs', curr) && Times(procs', clock, |procs'|)
      && (procs'[curr].state.RUNNING? || switch.SWITCH_ON_END? ==> Busy(switch, procs', curr))
      && Sum(Instructions(), procs') == Sum(Instructions(), procs) - 1
      && Sum(Work(l, clock), procs') == Sum(Work(l, clock), procs) - 1
      && Sum(IoWork(l, clock), procs') == Sum(IoWork(l, clock), procs)
  {
    assert OnTime(procs[curr], clock);
    Replaced(l, clock, procs, curr, Executed(procs[curr], clock + l));
    var procs' := procs[curr := Executed(procs[curr], clock + l)];
    forall p | 0 <= p < |procs'| ensures OnTime(procs'[p], if p < |procs'| then clock else clock - 1) {
      assert OnTime(procs[p], if p < |procs| then clock else clock - 1);
    }
  }

  lemma Replaced(l: int, clock: int, procs: seq<Process>, pid: nat, q: Process)
    requires pid < |procs|
    ensures Sum(Work(l, clock), procs[pid := q]) ==
      Sum(Work(l, clock), procs) - Work(l, clock)(procs[pid]) + Work(l, clock)(q)
    ensures Sum(IoWork(l, clock), procs[pid := q])
      == Sum(IoWork(l, clock), procs) - IoWork(l, clock)(procs[pid]) + IoWork(l, clock)(q)
    ensures Sum(Instructions(), procs[pid := q]) == Sum(Instructions(), procs) - |procs[pid].code| + |q.code|
  {
    SumUpdate(Work(l, clock), procs, pid, q);
    SumUpdate(IoWork(l, clock), procs, pid, q);
    SumUpdate(Instructions(), procs, pid, q);
  }

  // Running a ready process is no work.
  lemma Dispatched(l: int, clock: int, procs: seq<Process>, procs': seq<Process>, pid: nat)
    requires pid < |procs|
    requires procs' == procs || (procs[pid].state.READY? && procs' == procs[pid := procs[pid].(state := RUNNING)])
    ensures Sum(Work(l, clock), procs') == Sum(Work(l, clock), procs)
    ensures Sum(IoWork(l, clock), procs') == Sum(IoWork(l, clock), procs)
    ensures Sum(Instructions(), procs') == Sum(Instructions(), procs)
  {
    Replaced(l, clock, procs, pid, procs'[pid]);
    assert procs == procs[pid := procs[pid]];
  }

  // If a runnable process is not the only one there is another.
  lemma Another(procs: seq<Process>, pid: nat)
    requires pid < |procs| && Runnable()(procs[pid])
    ensures Count(Runnable(), procs) >= 1
    ensures Count(Runnable(), procs) != 1 ==>
      exists q :: 0 <= q < |procs| && q != pid && (procs[q].state.READY? || procs[q].state.RUNNING?)
  {
    var gone := procs[pid].(state := DONE);
    CountUpdate(Runnable(), procs, pid, gone);
    CountZero(Runnable(), procs);
    CountZero(Runnable(), procs[pid := gone]);
    if Count(Runnable(), procs) != 1 {
      var q :| 0 <= q < |procs| && Runnable()(procs[pid := gone][q]);
      assert q != pid && procs[pid := gone][q] == procs[q];
    }
  }
}
