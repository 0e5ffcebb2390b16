// The supply of process names of cpu_api/fork.py. Names are all the words of one letter, then all the words of two
// letters, and so on; no name is given out twice.
//
// It is used to make random lists of actions for the process tree, which are shown to be legal.
module ProcessNames {
  import opened ProcessTree
  import opened Sequences

  // ----- Names -----

  // Every name of curr with every letter behind it, in order.
  ghost predicate Grown(curr: seq<string>, names: seq<string>) {
    forall k {:trigger GrownAt(curr, names, k)} :: 0 <= k < |names| ==> GrownAt(curr, names, k)
  }

  ghost predicate GrownAt(curr: seq<string>, names: seq<string>, k: nat)
    requires k < |names|
  {
    k / 52 < |curr| && names[k] == curr[k / 52] + Letters()[k % 52]
  }

  lemma TwoGrown(curr: seq<string>, names: seq<string>, length: nat, i: nat, j: nat)
    requires NoDup(curr) && i < j < |names| && GrownAt(curr, names, i) && GrownAt(curr, names, j)
    requires |curr[i / 52]| == length && |curr[j / 52]| == length
    ensures names[i] != names[j]
  {
    assert names[i][..length] == curr[i / 52] && names[j][..length] == curr[j / 52];
    if i / 52 == j / 52 {
      assert i % 52 < j % 52;
      assert names[i][length] != names[j][length];
    }
  }

  lemma {:induction false} GrownNoDup(curr: seq<string>, names: seq<string>, length: nat)
    requires NoDup(curr) && Grown(curr, names) && forall k :: 0 <= k < |curr| ==> |curr[k]| == length
    ensures NoDup(names) && forall k :: 0 <= k < |names| ==> |names[k]| == length + 1
  {
    forall k | 0 <= k < |names| ensures |names[k]| == length + 1 {
      assert GrownAt(curr, names, k);
    }
    forall i, j | 0 <= i < j < |names| ensures names[i] != names[j] {
      assert GrownAt(curr, names, i) && GrownAt(curr, names, j);
      TwoGrown(curr, names, length, i, j);
    }
  }

  lemma {:induction false} GrownNext(curr: seq<string>, names: seq<string>, i: nat, j: nat)
    requires Grown(curr, names) && |names| == 52 * i + j && i < |curr| && j < 52
    ensures Grown(curr, names + [curr[i] + Letters()[j]])
  {
    var names' := names + [curr[i] + Letters()[j]];
    forall k | 0 <= k < |names'| ensures GrownAt(curr, names', k) {
      if k < |names| {
        assert GrownAt(curr, names, k);
      } else {
        assert k / 52 == i && k % 52 == j;
      }
    }
  }

  // The two loops of grow_names.
  method LongerNames(currNames: seq<string>) returns (newNames: seq<string>)
    ensures |newNames| == 52 * |currNames| && Grown(currNames, newNames)
  {
    newNames := [];
    var baseNames := Letters();
    for i := 0 to |currNames|
      invariant |newNames| == 52 * i && Grown(currNames, newNames)
    {
      for j := 0 to |baseNames|
        invariant |newNames| == 52 * i + j && Grown(currNames, newNames)
      {
        GrownNext(currNames, newNames, i, j);
        newNames := newNames + [currNames[i] + baseNames[j]];
      }
    }
  }

  class Names {
    var currNames: seq<string>
    var currIndex: nat
    ghost var length: nat
    ghost var issued: set<string>

    // The names of one length are handed out in turn; shorter ones have all been issued.
    ghost predicate Valid()
      reads this
    {
      && currIndex <= |currNames| && |currNames| > 0
      && NoDup(currNames) && (forall k :: 0 <= k < |currNames| ==> |currNames[k]| == length)
      && forall n :: n in issued ==> |n| < length || n in currNames[..currIndex]
    }

    constructor ()
      ensures Valid() && issued == {"a"}
    {
      currNames := Letters();
      currIndex, length, issued := 1, 1, {"a"};
      new;
      assert currNames[..1][0] == currNames[0];
    }

    method GrowNames()
      requires Valid() && currIndex == |currNames|
      modifies this
      ensures Valid() && issued == old(issued) && currIndex == 0 && Grown(old(currNames), currNames)
      ensures |currNames| == 52 * |old(currNames)| && length == old(length) + 1
    {
      var newNames := LongerNames(currNames);
      GrownNoDup(currNames, newNames, length);
      assert currNames[..currIndex] == currNames;
      currNames, currIndex, length := newNames, 0, length + 1;
    }

    // A name that has never been given out before.
    method GetName() returns (name: string)
      requires Valid()
      modifies this
      ensures Valid() && name !in old(issued) && issued == old(issued) + {name}
    {
      if currIndex == |currNames| {
        GrowNames();
      }
      name := currNames[currIndex];
      NextIsNew(currNames, currIndex);
      currIndex := currIndex + 1;
      issued := issued + {name};
    }
  }

  // ----- Random actions -----

  // A list of actions that has been made, with the processes that it leaves.
  ghost predicate Made(issued: set<string>, root: string, processes: seq<string>, actions: seq<Action>) {
    && Legal({root}, root, actions) && FreshNames({root}, actions)
    && NoDup(processes) && root in processes && Members(processes) == LiveAfter({root}, actions)
    && Members(processes) <= issued
    && forall i :: 0 <= i < |actions| && actions[i].Fork? ==> actions[i].child in issued
  }

  lemma {:induction false} MadeFork(
      issued: set<string>, root: string, processes: seq<string>, actions: seq<Action>, p: string,
      child: string)
    requires Made(issued, root, processes, actions) && p in processes && child !in issued
    ensures Made(issued + {child}, root, processes + [child], actions + [Fork(p, child)])
  {
    assert root in Members(processes);
    LegalNext({root}, root, actions, Fork(p, child));
    assert forall n :: n in processes ==> n in Members(processes);
    NoDupAppend(processes, [child]);
    assert Members(processes + [child]) == Members(processes) + {child};
  }

  lemma {:induction false} MadeExit(
      issued: set<string>, root: string, processes: seq<string>, actions: seq<Action>, p: string)
    requires Made(issued, root, processes, actions) && p in processes && p != root
    ensures Made(issued, root, Without(processes, p), actions + [Exit(p)])
  {
    LegalNext({root}, root, actions, Exit(p));
    WithoutOne(processes, p);
    assert Members(Without(processes, p)) == Members(processes) - {p};
  }

  // A random list of actions: any live process forks, or any but the root exits. (Choices of the root are skipped.)
  method MakeActions(names: Names, root: string, maxActions: nat) returns (actions: seq<Action>)
    requires names.Valid() && names.issued == {root}
    modifies names
    ensures |actions| == maxActions && Legal({root}, root, actions) && FreshNames({root}, actions)
  {
    var processes := [root];
    actions := [];
    for n := 0 to maxActions
      invariant |actions| == n && names.Valid() && Made(names.issued, root, processes, actions)
    {
      var fork: bool := *;
      var choice: nat :| choice < |processes|;
      if fork || processes[choice] == root {
        ghost var issued := names.issued;
        var child := names.GetName();
        MadeFork(issued, root, processes, actions, processes[choice], child);
        actions := actions + [Fork(processes[choice], child)];
        processes := processes + [child];
      } else {
        MadeExit(names.issued, root, processes, actions, processes[choice]);
        actions := actions + [Exit(processes[choice])];
        processes := Without(processes, processes[choice]);
      }
    }
  }
}
