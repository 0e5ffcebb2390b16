// The bookkeeping of CodeGeneratorRunnable in cpu_api/generator.py.
//
// Which process the code being generated belongs to, and whom each process has to wait for. What it writes to the file
// is not part of this model.
module ForkRunner {
  import opened ForkParser
  import opened Sequences

  datatype Option<T> = None | Some(value: T)

  // curr_thread, parent_list and waiting_for.
  datatype State = State(curr: string, parents: seq<string>, waiting: map<string, seq<string>>)

  function Initial(): State {
    State("a", [], map["a" := []])
  }

  // One action. None is an exit with children outstanding, a wait with none, or an exit of the first process.
  function ExecOne(st: State, a: Action): Option<State> {
    if st.curr !in st.waiting then None
    else match a
      case Fork(name, sleep) =>
        Some(State(name, st.parents + [st.curr], st.waiting[st.curr := st.waiting[st.curr] + [name]][name := []]))
      case Exit =>
        if st.waiting[st.curr] != [] || st.parents == [] then None
        else Some(State(st.parents[|st.parents| - 1], st.parents[..|st.parents| - 1], st.waiting))
      case Wait =>
        if st.waiting[st.curr] == [] then None
        else Some(st.(waiting := st.waiting[st.curr := st.waiting[st.curr][1..]]))
  }

  function Exec(st: State, actions: seq<Action>): Option<State> {
    if actions == [] then Some(st)
    else match Exec(st, actions[..|actions| - 1])
      case None => None
      case Some(mid) => ExecOne(mid, actions[|actions| - 1])
  }

  lemma {:induction false} ExecAppend(st: State, a: seq<Action>, b: seq<Action>)
    ensures Exec(st, a + b) == if Exec(st, a).None? then None else Exec(Exec(st, a).value, b)
  {
    if b == [] {
      assert a + b == a;
    } else {
      ExecAppend(st, a, b[..|b| - 1]);
      assert (a + b)[..|a + b| - 1] == a + b[..|b| - 1];
    }
  }

  // ----- Names -----

  function ForkNames(actions: seq<Action>): seq<string> {
    if actions == [] then []
    else
      var last := actions[|actions| - 1];
      ForkNames(actions[..|actions| - 1]) + (if last.Fork? then [last.name] else [])
  }

  lemma {:induction false} ForkNamesAppend(a: seq<Action>, b: seq<Action>)
    ensures ForkNames(a + b) == ForkNames(a) + ForkNames(b)
  {
    if b == [] {
      assert a + b == a && ForkNames(a) + [] == ForkNames(a);
    } else {
      ForkNamesAppend(a, b[..|b| - 1]);
      assert (a + b)[..|a + b| - 1] == a + b[..|b| - 1];
    }
  }

  // No name is forked twice, or used already.
  ghost predicate Fresh(names: seq<string>, used: set<string>) {
    NoDup(names) && forall n :: n in names ==> n !in used
  }

  lemma {:induction false} FreshAppend(a: seq<string>, b: seq<string>, used: set<string>)
    requires Fresh(a + b, used)
    ensures Fresh(a, used) && Fresh(b, used + Members(a)) && Members(a + b) == Members(a) + Members(b)
  {
    assert forall i :: 0 <= i < |a| ==> (a + b)[i] == a[i];
    assert forall i :: 0 <= i < |b| ==> (a + b)[|a| + i] == b[i];
    assert forall n :: n in a + b <==> n in a || n in b;
  }

  // ----- When a program runs -----

  // Every wait comes after its fork: starting with m children to wait for, at no point are there fewer than none, and
  // each new process starts with none and waits for all.
  predicate Timely(items: seq<Item>, m: int)
    decreases items
  {
    if items == [] then m >= 0
    else
      && Timely(items[..|items| - 1], m)
      && match items[|items| - 1]
         case DoWait => m + Owed(items) >= 0
         case DoFork(name, sleep, body) => Timely(body, 0) && Owed(body) == 0
  }

  // Where a process stands after running its own items.
  ghost predicate Ran(st: State, st': State, items: seq<Item>, names: seq<string>)
    requires st.curr in st.waiting
  {
    && st'.curr == st.curr && st'.parents == st.parents && st'.waiting.Keys == st.waiting.Keys + Members(names)
    && |st'.waiting[st.curr]| == |st.waiting[st.curr]| + Owed(items)
    && (forall n :: n in st.waiting && n != st.curr ==> st'.waiting[n] == st.waiting[n])
    && (forall n :: n in names ==> st'.waiting[n] == [])
  }

  lemma RanBoth(st: State, mid: State, st': State, init: seq<Item>, last: Item, a: seq<string>, b: seq<string>)
    requires st.curr in st.waiting && Ran(st, mid, init, a) && Ran(mid, st', [last], b)
    requires Fresh(b, st.waiting.Keys + Members(a)) && Fresh(a, st.waiting.Keys)
    ensures Ran(st, st', init + [last], a + b)
  {
    assert (init + [last])[..|init|] == init && Owed([last]) == if last.DoFork? then 1 else -1;
    assert Members(a + b) == Members(a) + Members(b) by { assert forall n :: n in a + b <==> n in a || n in b; }
    forall n | n in a + b ensures st'.waiting[n] == [] {
      assert n in a ==> n in Members(a) && n in mid.waiting;
    }
  }

  // A program with names of its own runs without error exactly if it is timely.
  lemma {:induction false} RunsIffTimely(items: seq<Item>, st: State)
    requires st.curr in st.waiting && Fresh(ForkNames(Flatten(items)), st.waiting.Keys)
    ensures Exec(st, Flatten(items)).Some? <==> Timely(items, |st.waiting[st.curr]|)
    ensures Timely(items, |st.waiting[st.curr]|) ==>
      Ran(st, Exec(st, Flatten(items)).value, items, ForkNames(Flatten(items)))
    decreases items
  {
    if items != [] {
      var init, last := items[..|items| - 1], items[|items| - 1];
      var m := |st.waiting[st.curr]|;
      ForkNamesAppend(Flatten(init), FlattenItem(last));
      var a, b := ForkNames(Flatten(init)), ForkNames(FlattenItem(last));
      FreshAppend(a, b, st.waiting.Keys);
      RunsIffTimely(init, st);
      ExecAppend(st, Flatten(init), FlattenItem(last));
      if Timely(init, m) {
        var mid := Exec(st, Flatten(init)).value;
        RunsItem(last, mid);
        TimelyOwed(init, m);
        var end := Exec(mid, FlattenItem(last));
        if end.Some? {
          RanBoth(st, mid, end.value, init, last, a, b);
          assert items == init + [last];
        }
      }
    }
  }

  lemma {:induction false} TimelyOwed(items: seq<Item>, m: int)
    requires Timely(items, m)
    ensures m + Owed(items) >= 0
    decreases |items|
  {
    if items != [] { TimelyOwed(items[..|items| - 1], m); }
  }

  lemma {:induction false} RunsItem(item: Item, st: State)
    requires st.curr in st.waiting && Fresh(ForkNames(FlattenItem(item)), st.waiting.Keys)
    ensures Exec(st, FlattenItem(item)).Some? <==>
      match item
      case DoWait => |st.waiting[st.curr]| > 0
      case DoFork(name, sleep, body) => Timely(body, 0) && Owed(body) == 0
    ensures Exec(st, FlattenItem(item)).Some? ==>
      Ran(st, Exec(st, FlattenItem(item)).value, [item], ForkNames(FlattenItem(item)))
    decreases item
  {
    match item
    case DoWait =>
      assert Exec(st, [Wait]) == ExecOne(st, Wait);
      assert Owed([item]) == -1;
    case DoFork(name, sleep, body) =>
      NamesOfFork(name, sleep, body);
      var names := ForkNames(Flatten(body));
      FreshAppend([name], names, st.waiting.Keys);
      var child := Child(st, name);
      assert child.waiting.Keys == st.waiting.Keys + Members([name]);
      ExecFork(st, name, sleep, body);
      RunsIffTimely(body, child);
  }

  // The state in which the new process starts.
  function Child(st: State, name: string): State
    requires st.curr in st.waiting
  {
    State(name, st.parents + [st.curr], st.waiting[st.curr := st.waiting[st.curr] + [name]][name := []])
  }

  lemma NamesOfFork(name: string, sleep: string, body: seq<Item>)
    ensures ForkNames(FlattenItem(DoFork(name, sleep, body))) == [name] + ForkNames(Flatten(body))
  {
    ForkNamesAppend([Fork(name, sleep)] + Flatten(body), [Exit]);
    ForkNamesAppend([Fork(name, sleep)], Flatten(body));
  }

  lemma ExecFork(st: State, name: string, sleep: string, body: seq<Item>)
    requires st.curr in st.waiting
    ensures Exec(st, FlattenItem(DoFork(name, sleep, body))) ==
      match Exec(Child(st, name), Flatten(body))
      case None => None
      case Some(done) => ExecOne(done, Exit)
  {
    ExecAppend(st, [Fork(name, sleep)] + Flatten(body), [Exit]);
    ExecAppend(st, [Fork(name, sleep)], Flatten(body));
    assert Exec(st, [Fork(name, sleep)]) == Some(Child(st, name));
  }

  // Whatever the parser accepts runs exactly if it is timely, provided its names are its own. Then the first process is
  // current again at the end, and nobody has anybody left to wait for.
  lemma ParsedRuns(tokens: seq<Token>, items: seq<Item>)
    requires Balanced(items) && tokens == Print(items) && Fresh(ForkNames(Flatten(items)), {"a"})
    ensures ParseFrom(tokens, [0], []) == Parsed(Flatten(items))
    ensures Exec(Initial(), Flatten(items)).Some? <==> Timely(items, 0)
    ensures Timely(items, 0) ==>
      var st := Exec(Initial(), Flatten(items)).value;
      st.curr == "a" && st.parents == [] && forall n :: n in st.waiting ==> st.waiting[n] == []
  {
    RoundTrip(items);
    assert Initial().waiting.Keys == {"a"};
    RunsIffTimely(items, Initial());
  }

  // A process that waits before it forks.
  function WaitThenFork(name: string, sleep: string): seq<Item> {
    [DoWait, DoFork(name, sleep, [])]
  }

  lemma WaitThenForkOwes(name: string, sleep: string)
    ensures var items := WaitThenFork(name, sleep); Balanced(items) && !Timely(items, 0)
  {
    var items := WaitThenFork(name, sleep);
    assert items[..1] == [DoWait] && [DoWait][..0] == [];
    assert Owed([]) == 0 && Owed([DoWait]) == -1 && Owed(items) == 0;
    assert BodiesBalanced([]) && BodiesBalanced([DoWait]) && Balanced([]);
    assert !Timely([DoWait], 0);
  }

  lemma WaitThenForkNames(name: string, sleep: string)
    ensures ForkNames(Flatten(WaitThenFork(name, sleep))) == [name]
  {
    var items := WaitThenFork(name, sleep);
    assert items[..1] == [DoWait] && [DoWait][..0] == [];
    assert Flatten([DoWait]) == [Wait] && ForkNames([Wait]) == [];
    NamesOfFork(name, sleep, []);
    ForkNamesAppend([Wait], FlattenItem(items[1]));
  }

  // The parser counts waits without minding their order: it accepts such a program, which does not run.
  lemma WaitTooEarly(name: string, sleep: string)
    requires name != "a"
    ensures var items := WaitThenFork(name, sleep);
      && Balanced(items) && ParseFrom(Print(items), [0], []) == Parsed(Flatten(items))
      && Exec(Initial(), Flatten(items)).None?
  {
    WaitThenForkOwes(name, sleep);
    WaitThenForkNames(name, sleep);
    ParsedRuns(Print(WaitThenFork(name, sleep)), WaitThenFork(name, sleep));
  }

  // ----- The code generator -----

  class CodeGenerator {
    var currThread: string
    var parentList: seq<string>
    var waitingFor: map<string, seq<string>>

    ghost function S(): State
      reads this
    {
      State(currThread, parentList, waitingFor)
    }

    constructor ()
      ensures parentList == [] && waitingFor == map[]
    {
      currThread, parentList, waitingFor := "", [], map[];
    }

    method AddThread(threadId: string)
      modifies this
      ensures S() == State(threadId, old(parentList), old(waitingFor)[threadId := []])
    {
      waitingFor := waitingFor[threadId := []];
      currThread := threadId;
    }

    method AddFork(childThread: string)
      requires currThread in waitingFor
      modifies this
      ensures S() == State(old(currThread), old(parentList) + [old(currThread)],
                           old(waitingFor)[old(currThread) := old(waitingFor)[old(currThread)] + [childThread]])
    {
      parentList := parentList + [currThread];
      waitingFor := waitingFor[currThread := waitingFor[currThread] + [childThread]];
    }

    // False if children are outstanding, or if there is no parent to go back to.
    method AddExit() returns (ok: bool)
      requires currThread in waitingFor
      modifies this
      ensures ok <==> ExecOne(old(S()), Exit).Some?
      ensures ok <==> old(waitingFor)[old(currThread)] == [] && old(parentList) != []
      ensures ok ==> parentList + [currThread] == old(parentList) && waitingFor == old(waitingFor)
      ensures ok ==> S() == ExecOne(old(S()), Exit).value
    {
      if |waitingFor[currThread]| > 0 || parentList == [] {
        return false;
      }
      currThread := parentList[|parentList| - 1];
      parentList := parentList[..|parentList| - 1];
      ok := true;
    }

    // False if there is no child to wait for.
    method AddWait() returns (ok: bool)
      requires currThread in waitingFor
      modifies this
      ensures ok <==> ExecOne(old(S()), Wait).Some?
      ensures ok <==> old(waitingFor)[old(currThread)] != []
      ensures ok ==> currThread == old(currThread) && parentList == old(parentList)
      ensures ok ==> waitingFor == old(waitingFor)[currThread := old(waitingFor)[currThread][1..]]
      ensures ok ==> S() == ExecOne(old(S()), Wait).value
    {
      if waitingFor[currThread] == [] {
        return false;
      }
      waitingFor := waitingFor[currThread := waitingFor[currThread][1..]];
      ok := true;
    }

    method Generate(actions: seq<Action>) returns (ok: bool)
      requires parentList == [] && waitingFor == map[]
      modifies this
      ensures ok <==> Exec(Initial(), actions).Some?
      ensures ok ==> S() == Exec(Initial(), actions).value
    {
      AddThread("a");
      assert actions[..0] == [];
      for i := 0 to |actions|
        invariant Exec(Initial(), actions[..i]) == Some(S()) && KnowsItself(S())
      {
        assert actions[..i + 1] == actions[..i] + [actions[i]];
        ExecAppend(Initial(), actions[..i], [actions[i]]);
        assert Exec(S(), [actions[i]]) == ExecOne(S(), actions[i]);
        assert actions == actions[..i + 1] + actions[i + 1..];
        ExecAppend(Initial(), actions[..i + 1], actions[i + 1..]);
        match actions[i] {
          case Fork(name, sleep) =>
            AddFork(name);
            AddThread(name);
            ok := true;
          case Exit =>
            ok := AddExit();
          case Wait =>
            ok := AddWait();
        }
        if !ok {
          return;
        }
      }
      assert actions[..|actions|] == actions;
      ok := true;
    }
  }

  // The current process and all its parents have lists of children to wait for.
  ghost predicate KnowsItself(st: State) {
    st.curr in st.waiting && forall i :: 0 <= i < |st.parents| ==> st.parents[i] in st.waiting
  }
}
