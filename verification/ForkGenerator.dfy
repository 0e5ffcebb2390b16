// ProgramGenerator of cpu_api/generator.py: random fork programs.
//
// The random draws are an input. What comes out is shown to be a program, whatever the draws are, and one that the code
// generator can run.
module ForkGenerator {
  import opened ForkParser
  import opened ForkRunner
  import opened Sequences

  // A draw: fork, with the time that the new process is to sleep, wait, or exit.
  datatype Draw = DrawFork(sleep: string) | DrawWait | DrawExit

  datatype Outcome = Generated(actions: seq<Action>) | OutOfNames | OutOfDraws

  // ----- The program being made -----

  // The counts say how many children each process being written has yet to wait for, and so far nobody waits too early.
  ghost predicate Writing(frames: seq<Frame>, items: seq<Item>, needWait: map<int, int>) {
    && |frames| in needWait && needWait[|frames|] == Owed(items) && Timely(items, 0) && BodiesBalanced(items)
    && forall k :: 0 <= k < |frames| ==>
        && k in needWait && needWait[k] == Owed(frames[k].items) + 1
        && Timely(frames[k].items, 0) && BodiesBalanced(frames[k].items)
  }

  // The actions so far are what has been written, with the names handed out so far.
  ghost predicate Made(frames: seq<Frame>, items: seq<Item>, actions: seq<Action>, nameIndex: int) {
    && 1 <= nameIndex <= 52
    && actions == Flattened(frames, items) && ForkNames(actions) == Letters()[1..nameIndex]
  }

  lemma MadeFork(frames: seq<Frame>, items: seq<Item>, actions: seq<Action>, nameIndex: int, sleep: string)
    requires Made(frames, items, actions, nameIndex) && nameIndex < 52
    ensures var name := Letters()[nameIndex];
      Made(frames + [Frame(items, name, sleep)], [], actions + [Fork(name, sleep)], nameIndex + 1)
  {
    assert Letters()[1..nameIndex + 1] == Letters()[1..nameIndex] + [Letters()[nameIndex]];
  }

  lemma MadeWait(frames: seq<Frame>, items: seq<Item>, actions: seq<Action>, nameIndex: int)
    requires Made(frames, items, actions, nameIndex)
    ensures Made(frames, items + [DoWait], actions + [Wait], nameIndex)
  {
    PrintedNext(frames, items, DoWait);
  }

  lemma MadeExit(frames: seq<Frame>, items: seq<Item>, actions: seq<Action>, nameIndex: int)
    requires Made(frames, items, actions, nameIndex) && frames != []
    ensures var f, outer := frames[|frames| - 1], frames[..|frames| - 1];
      Made(outer, f.items + [DoFork(f.name, f.sleep, items)], actions + [Exit], nameIndex)
  {
    PrintedClose(frames, items);
  }

  // A fork is one more child to wait for, and opens a level.
  lemma WroteFork(frames: seq<Frame>, items: seq<Item>, needWait: map<int, int>, name: string, sleep: string)
    requires Writing(frames, items, needWait)
    ensures Writing(frames + [Frame(items, name, sleep)], [],
                    needWait[|frames| := needWait[|frames|] + 1][|frames| + 1 := 0])
  {
  }

  // A wait is for a child that is there.
  lemma WroteWait(frames: seq<Frame>, items: seq<Item>, needWait: map<int, int>)
    requires Writing(frames, items, needWait) && needWait[|frames|] > 0
    ensures Writing(frames, items + [DoWait], needWait[|frames| := needWait[|frames|] - 1])
  {
    PrintedNext(frames, items, DoWait);
  }

  // A process that has waited for all its children is done, and an item of its parent.
  lemma WroteExit(frames: seq<Frame>, items: seq<Item>, needWait: map<int, int>)
    requires Writing(frames, items, needWait) && frames != [] && needWait[|frames|] == 0
    ensures var f, outer := frames[|frames| - 1], frames[..|frames| - 1];
      Writing(outer, f.items + [DoFork(f.name, f.sleep, items)], needWait)
  {
    var f, outer := frames[|frames| - 1], frames[..|frames| - 1];
    PrintedNext(outer, f.items, DoFork(f.name, f.sleep, items));
  }

  // ----- The generator -----

  function Waits(n: nat): (waits: seq<Action>)
    ensures |waits| == n
  {
    seq(n, _ => Wait)
  }

  class ProgramGenerator {
    const numActions: int
    var nameIndex: int
    var actions: seq<Action>
    var needWait: map<int, int>
    var forkLevel: int

    ghost var frames: seq<Frame>
    ghost var items: seq<Item>

    ghost predicate Valid()
      reads this
    {
      forkLevel == |frames| && Writing(frames, items, needWait) && Made(frames, items, actions, nameIndex)
    }

    constructor (numActions: int)
      ensures nameIndex == 1 && this.numActions == numActions
    {
      this.numActions := numActions;
      nameIndex, actions, needWait, forkLevel := 1, [], map[], 0;
    }

    method AddForkBegin(sleep: string) returns (ok: bool)
      requires Valid()
      modifies this
      ensures ok <==> old(nameIndex) < 52
      ensures ok ==> Valid() && forkLevel == old(forkLevel) + 1 && nameIndex == old(nameIndex) + 1
      ensures ok ==> actions == old(actions) + [Fork(Letters()[old(nameIndex)], sleep)]
      ensures ok ==> frames == old(frames) + [Frame(old(items), Letters()[old(nameIndex)], sleep)] && items == []
      ensures !ok ==> Valid() && actions == old(actions) && forkLevel == old(forkLevel) && needWait == old(needWait)
    {
      if nameIndex == |Letters()| {
        return false;
      }
      var name := Letters()[nameIndex];
      MadeFork(frames, items, actions, nameIndex, sleep);
      WroteFork(frames, items, needWait, name, sleep);
      frames, items := frames + [Frame(items, name, sleep)], [];
      nameIndex := nameIndex + 1;
      actions := actions + [Fork(name, sleep)];
      needWait := needWait[forkLevel := needWait[forkLevel] + 1];
      forkLevel := forkLevel + 1;
      needWait := needWait[forkLevel := 0];
      ok := true;
    }

    method AddWait()
      requires Valid() && needWait[forkLevel] > 0
      modifies this
      ensures Valid() && forkLevel == old(forkLevel) && nameIndex == old(nameIndex) && frames == old(frames)
      ensures actions == old(actions) + [Wait] && items == old(items) + [DoWait]
    {
      WroteWait(frames, items, needWait);
      MadeWait(frames, items, actions, nameIndex);
      items := items + [DoWait];
      actions := actions + [Wait];
      needWait := needWait[forkLevel := needWait[forkLevel] - 1];
    }

    // The waits that the current process still has to do. (The source leaves its count alone, which is not used again:
    // so the proof counts down a copy.)
    method WaitForAll() returns (n: int)
      requires Valid()
      modifies this`actions, this`items
      ensures n == needWait[forkLevel] >= 0 && Writing(frames, items, needWait[forkLevel := 0])
      ensures Made(frames, items, actions, nameIndex) && actions == old(actions) + Waits(n)
    {
      n := needWait[forkLevel];
      TimelyOwed(items, 0);
      ghost var left := needWait;
      for i := 0 to n
        invariant Writing(frames, items, left) && Made(frames, items, actions, nameIndex)
        invariant left == needWait[forkLevel := n - i] && actions == old(actions) + Waits(i)
      {
        WroteWait(frames, items, left);
        MadeWait(frames, items, actions, nameIndex);
        left := left[forkLevel := left[forkLevel] - 1];
        items := items + [DoWait];
        actions := actions + [Wait];
        assert Waits(i + 1) == Waits(i) + [Wait];
      }
    }

    // The end of the current process. For the first process nothing is left to be done after its waits.
    method CleanUp() returns (n: int)
      requires Valid()
      modifies this
      ensures n >= 1 && nameIndex == old(nameIndex) && forkLevel == old(forkLevel)
      ensures forkLevel > 0 ==> forkLevel - 1 == |frames| && Writing(frames, items, needWait[forkLevel := 0])
      ensures forkLevel == 0 ==> frames == [] && Writing(frames, items, map[0 := 0])
      ensures Made(frames, items, actions, nameIndex)
      ensures actions == old(actions) + Waits(n - 1) + (if forkLevel > 0 then [Exit] else [])
    {
      n := WaitForAll();
      if forkLevel > 0 {
        ExitToParent();
      }
      n := n + 1;
    }

    // The process that is being written ends, and becomes an item of its parent.
    method ExitToParent()
      requires forkLevel == |frames| > 0 && forkLevel in needWait && Made(frames, items, actions, nameIndex)
      requires Writing(frames, items, needWait[forkLevel := 0])
      modifies this`actions, this`frames, this`items
      ensures |frames| == forkLevel - 1 && Writing(frames, items, needWait[forkLevel := 0])
      ensures Made(frames, items, actions, nameIndex) && actions == old(actions) + [Exit]
    {
      ghost var f, outer := frames[|frames| - 1], frames[..|frames| - 1];
      ghost var written := f.items + [DoFork(f.name, f.sleep, items)];
      assert Writing(outer, written, needWait[forkLevel := 0]) by {
        WroteExit(frames, items, needWait[forkLevel := 0]);
      }
      assert Made(outer, written, actions + [Exit], nameIndex) by { MadeExit(frames, items, actions, nameIndex); }
      actions, frames, items := actions + [Exit], outer, written;
    }

    // The program: random actions until there are enough, then all that are needed to end all processes.
    method Generate(draws: seq<Draw>) returns (r: Outcome)
      requires nameIndex == 1
      modifies this
      ensures r.Generated? ==> exists p: seq<Item> :: Balanced(p) && Timely(p, 0) && r.actions == Flatten(p)
      ensures r.Generated? ==> Fresh(ForkNames(r.actions), {"a"}) && |ForkNames(r.actions)| <= 51
      ensures r.Generated? ==> Exec(Initial(), r.actions).Some? && |r.actions| >= numActions
    {
      actions, forkLevel, needWait := [], 0, map[0 := 0];
      frames, items := [], [];
      var n, i := 0, 0;
      while n < numActions
        invariant Valid() && 0 <= i <= |draws| && |actions| == n
        decreases |draws| - i
      {
        if i == |draws| {
          return OutOfDraws;
        }
        match draws[i] {
          case DrawFork(sleep) =>
            var ok := AddForkBegin(sleep);
            if !ok {
              return OutOfNames;
            }
            n := n + 1;
          case DrawWait =>
            if needWait[forkLevel] > 0 {
              AddWait();
              n := n + 1;
            }
          case DrawExit =>
            if forkLevel > 0 {
              var done := CleanUp();
              n := n + done;
              LevelsBelow(frames, items, needWait, forkLevel);
              forkLevel := forkLevel - 1;
            }
        }
        i := i + 1;
      }
      while forkLevel >= 0
        invariant forkLevel >= 0 ==> Valid()
        invariant forkLevel == -1 ==>
          frames == [] && Writing([], items, map[0 := 0]) && Made([], items, actions, nameIndex)
        invariant forkLevel >= -1 && |actions| >= numActions
      {
        var _ := CleanUp();
        if forkLevel > 0 {
          LevelsBelow(frames, items, needWait, forkLevel);
        }
        forkLevel := forkLevel - 1;
      }
      MadeRuns(items, actions, nameIndex);
      r := Generated(actions);
    }
  }

  // The counts of levels that are left do not matter.
  lemma LevelsBelow(frames: seq<Frame>, items: seq<Item>, needWait: map<int, int>, level: int)
    requires level > 0 && |frames| == level - 1 && Writing(frames, items, needWait[level := 0])
    ensures Writing(frames, items, needWait)
  {
    forall k | 0 <= k < |frames| ensures k in needWait && needWait[k] == Owed(frames[k].items) + 1 {
      assert k in needWait[level := 0] && needWait[level := 0][k] == Owed(frames[k].items) + 1;
    }
  }

  // What is made in the end runs.
  lemma MadeRuns(items: seq<Item>, actions: seq<Action>, nameIndex: int)
    requires Writing([], items, map[0 := 0]) && Made([], items, actions, nameIndex)
    ensures Balanced(items) && Timely(items, 0) && actions == Flatten(items)
    ensures Fresh(ForkNames(actions), {"a"}) && |ForkNames(actions)| <= 51
    ensures Exec(Initial(), actions).Some?
  {
    var names := Letters();
    forall i, j | 0 <= i < j < |ForkNames(actions)| ensures ForkNames(actions)[i] != ForkNames(actions)[j] {
      assert ForkNames(actions)[i] == names[i + 1] && ForkNames(actions)[j] == names[j + 1];
    }
    ParsedRuns(Print(items), items);
  }
}
