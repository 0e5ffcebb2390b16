// The process tree of cpu_api/fork.py: forks, exits with two ways of finding new parents for orphans, the listing of
// all descendants, and the supply of process names.
module ProcessTree {
  import opened Counting
  import opened Sequences

  // ----- The tree -----

  // Children and parents of the live processes. The rank of a process is one more than that of the process that forked
  // it; ranks never change.
  datatype Tree = Tree(
    children: map<string, seq<string>>, parents: map<string, string>, rank: map<string, nat>, top: nat)

  // Process n has one parent, unless it is the root, and is one of its children; its own children have it as parent.
  ghost predicate Linked(t: Tree, root: string, n: string)
    requires n in t.children
  {
    && (n != root ==> n in t.parents && t.parents[n] in t.children && n in t.children[t.parents[n]])
    && (forall c :: c in t.children[n] ==> c in t.parents && t.parents[c] == n)
    && NoDup(t.children[n])
  }

  // Parents come before their children.
  ghost predicate Ranked(t: Tree, n: string) {
    && n in t.rank && t.rank[n] <= t.top
    && (n in t.parents ==> t.parents[n] in t.rank && t.rank[t.parents[n]] < t.rank[n])
  }

  ghost predicate Ok(t: Tree, root: string) {
    && root in t.children && t.parents.Keys == t.children.Keys - {root}
    && t.rank.Keys == t.children.Keys && t.rank[root] == 0
    && (forall n {:trigger Linked(t, root, n)} :: n in t.children ==> Linked(t, root, n))
    && (forall n {:trigger Ranked(t, n)} :: n in t.children ==> Ranked(t, n))
  }

  // n is p or a descendant of p.
  ghost predicate Under(t: Tree, root: string, p: string, n: string)
    requires Ok(t, root) && n in t.children
    decreases t.rank[n]
  {
    assert Linked(t, root, n) && Ranked(t, n);
    n == p || (n in t.parents && Under(t, root, p, t.parents[n]))
  }

  // p and all its descendants, parents first.
  ghost function Collect(t: Tree, root: string, p: string): seq<string>
    requires Ok(t, root) && p in t.children
    decreases t.top - t.rank[p], 1, 0
  {
    assert Linked(t, root, p);
    [p] + CollectAll(t, root, p, t.children[p])
  }

  ghost function CollectAll(t: Tree, root: string, p: string, cs: seq<string>): seq<string>
    requires Ok(t, root) && p in t.children && forall c :: c in cs ==> c in t.children[p]
    decreases t.top - t.rank[p], 0, |cs|
  {
    if cs == [] then []
    else
      assert cs[|cs| - 1] in cs && Linked(t, root, p) && Ranked(t, cs[|cs| - 1]);
      CollectAll(t, root, p, cs[..|cs| - 1]) + Collect(t, root, cs[|cs| - 1])
  }

  lemma {:induction false} UnderRank(t: Tree, root: string, p: string, n: string)
    requires Ok(t, root) && n in t.children && p in t.children && Under(t, root, p, n)
    ensures t.rank[p] <= t.rank[n] && (p != n ==> t.rank[p] < t.rank[n])
    decreases t.rank[n]
  {
    assert Linked(t, root, n) && Ranked(t, n);
    if n != p { UnderRank(t, root, p, t.parents[n]); }
  }

  // Every process is under the root.
  lemma {:induction false} AllUnderRoot(t: Tree, root: string, n: string)
    requires Ok(t, root) && n in t.children
    ensures Under(t, root, root, n)
    decreases t.rank[n]
  {
    assert Linked(t, root, n) && Ranked(t, n);
    if n != root { AllUnderRoot(t, root, t.parents[n]); }
  }

  // What is under p, but not p, is under one of its children,
  lemma {:induction false} UnderChild(t: Tree, root: string, p: string, n: string) returns (c: string)
    requires Ok(t, root) && n in t.children && p in t.children && Under(t, root, p, n) && n != p
    ensures c in t.children[p] && Under(t, root, c, n)
    decreases t.rank[n]
  {
    assert Linked(t, root, n) && Ranked(t, n);
    if t.parents[n] == p {
      c := n;
    } else {
      c := UnderChild(t, root, p, t.parents[n]);
    }
  }

  // and only one,
  lemma {:induction false} UnderOne(t: Tree, root: string, p: string, c: string, d: string, n: string)
    requires Ok(t, root) && n in t.children && p in t.children && c in t.children[p] && d in t.children[p]
    requires Under(t, root, c, n) && Under(t, root, d, n)
    ensures c == d
    decreases t.rank[n]
  {
    assert Linked(t, root, p) && Linked(t, root, n) && Ranked(t, n) && Ranked(t, c) && Ranked(t, d);
    if n == c {
      if d != c { UnderRank(t, root, d, p); }
    } else if n == d {
      UnderRank(t, root, c, p);
    } else {
      UnderOne(t, root, p, c, d, t.parents[n]);
    }
  }

  // and what is under a child is under p.
  lemma {:induction false} UnderParent(t: Tree, root: string, p: string, c: string, n: string)
    requires Ok(t, root) && n in t.children && p in t.children && c in t.children[p] && Under(t, root, c, n)
    ensures Under(t, root, p, n) && n != p
    decreases t.rank[n]
  {
    assert Linked(t, root, p) && Linked(t, root, n) && Ranked(t, n) && Ranked(t, c);
    UnderRank(t, root, c, n);
    if n != c { UnderParent(t, root, p, c, t.parents[n]); }
  }

  ghost predicate UnderSome(t: Tree, root: string, cs: seq<string>, n: string)
    requires Ok(t, root) && n in t.children
  {
    exists c :: c in cs && Under(t, root, c, n)
  }

  // The descendants are listed once each, and nothing else is.
  lemma {:induction false} CollectOnce(t: Tree, root: string, p: string, n: string)
    requires Ok(t, root) && p in t.children
    ensures multiset(Collect(t, root, p))[n] == B(n in t.children && Under(t, root, p, n))
    decreases t.top - t.rank[p], 1, 0
  {
    assert Linked(t, root, p);
    CollectAllOnce(t, root, p, t.children[p], n);
    if n in t.children {
      if Under(t, root, p, n) && n != p {
        var c := UnderChild(t, root, p, n);
      }
      if c :| c in t.children[p] && Under(t, root, c, n) {
        UnderParent(t, root, p, c, n);
      }
    }
  }

  lemma {:induction false} CollectAllOnce(t: Tree, root: string, p: string, cs: seq<string>, n: string)
    requires Ok(t, root) && p in t.children && NoDup(cs) && forall c :: c in cs ==> c in t.children[p]
    ensures multiset(CollectAll(t, root, p, cs))[n] == B(n in t.children && UnderSome(t, root, cs, n))
    decreases t.top - t.rank[p], 0, |cs|
  {
    if cs != [] {
      var init, last := cs[..|cs| - 1], cs[|cs| - 1];
      assert last in cs && Linked(t, root, p) && Ranked(t, last);
      CollectAllOnce(t, root, p, init, n);
      CollectOnce(t, root, last, n);
      if n in t.children {
        SomeLast(t, root, p, cs, n);
      }
    }
  }

  // Something is under at most one of some children.
  lemma SomeLast(t: Tree, root: string, p: string, cs: seq<string>, n: string)
    requires Ok(t, root) && n in t.children && p in t.children && NoDup(cs) && cs != []
    requires forall c :: c in cs ==> c in t.children[p]
    ensures B(UnderSome(t, root, cs, n))
      == B(UnderSome(t, root, cs[..|cs| - 1], n)) + B(Under(t, root, cs[|cs| - 1], n))
  {
    var init, last := cs[..|cs| - 1], cs[|cs| - 1];
    assert cs == init + [last] && last in cs;
    if c :| c in init && Under(t, root, c, n) {
      assert c in cs && c != last;
      if Under(t, root, last, n) {
        UnderOne(t, root, p, c, last, n);
      }
    }
  }

  // From the root, every live process is listed exactly once.
  lemma RootListsAll(t: Tree, root: string, n: string)
    requires Ok(t, root)
    ensures multiset(Collect(t, root, root))[n] == B(n in t.children)
  {
    CollectOnce(t, root, root, n);
    if n in t.children { AllUnderRoot(t, root, n); }
  }

  // ----- Forks and exits -----

  // A list without the first occurrence of x.
  function Without(s: seq<string>, x: string): seq<string> {
    if s == [] then [] else if s[0] == x then s[1..] else [s[0]] + Without(s[1..], x)
  }

  lemma {:induction false} WithoutOne(s: seq<string>, x: string)
    requires NoDup(s)
    ensures NoDup(Without(s, x)) && forall y :: y in Without(s, x) <==> y in s && y != x
  {
    if s != [] {
      WithoutOne(s[1..], x);
      assert forall y :: y in s <==> y == s[0] || y in s[1..];
      NoDupAppend([s[0]], if s[0] == x then [] else Without(s[1..], x));
    }
  }

  ghost function ForkTree(t: Tree, p: string, c: string): Tree
    requires p in t.children && p in t.rank
  {
    Tree(t.children[c := []][p := t.children[p] + [c]], t.parents[c := p], t.rank[c := t.rank[p] + 1], t.top + 1)
  }

  lemma ForkKeeps(t: Tree, root: string, p: string, c: string)
    requires Ok(t, root) && p in t.children && c !in t.children
    ensures Ok(ForkTree(t, p, c), root)
  {
    var t' := ForkTree(t, p, c);
    assert Linked(t, root, p) && Ranked(t, p);
    forall n | n in t'.children ensures Linked(t', root, n) && Ranked(t', n) {
      if n != c {
        assert Linked(t, root, n) && Ranked(t, n);
      }
      if n == p {
        NoDupAppend(t.children[p], [c]);
      }
    }
  }

  // The children and parents once some orphans have been given to another process.
  ghost function Adopted(t: Tree, parent: string, orphans: seq<string>): Tree
    requires parent in t.children
  {
    Tree(t.children[parent := t.children[parent] + orphans],
      map n | n in t.parents :: if n in orphans then parent else t.parents[n], t.rank, t.top)
  }

  // And once process p has left.
  ghost function Left(t: Tree, parent: string, p: string): Tree
    requires parent in t.children
  {
    Tree(t.children[parent := Without(t.children[parent], p)] - {p}, t.parents - {p}, t.rank - {p}, t.top)
  }

  // A process leaves, and its children are given to its parent.
  ghost function ExitLocal(t: Tree, root: string, p: string): Tree
    requires Ok(t, root) && p in t.children && p != root
  {
    assert Linked(t, root, p);
    Left(Adopted(t, t.parents[p], t.children[p]), t.parents[p], p)
  }

  lemma ExitLocalKeeps(t: Tree, root: string, p: string)
    requires Ok(t, root) && p in t.children && p != root
    ensures Ok(ExitLocal(t, root, p), root)
  {
    var t' := ExitLocal(t, root, p);
    assert Linked(t, root, p) && Ranked(t, p);
    var parent, orphans := t.parents[p], t.children[p];
    assert Linked(t, root, parent);
    NoDupAppend(t.children[parent], orphans);
    WithoutOne(t.children[parent] + orphans, p);
    forall n | n in t'.children ensures Linked(t', root, n) && Ranked(t', n) {
      assert Linked(t, root, n) && Ranked(t, n);
    }
  }

  // The descendants of p.
  ghost function Descendants(t: Tree, root: string, p: string): seq<string>
    requires Ok(t, root) && p in t.children
  {
    Collect(t, root, p)[1..]
  }

  lemma DescendantsOnce(t: Tree, root: string, p: string)
    requires Ok(t, root) && p in t.children
    ensures NoDup(Descendants(t, root, p))
    ensures forall n :: n in Descendants(t, root, p) <==> n in t.children && n != p && Under(t, root, p, n)
  {
    var all, ds := Collect(t, root, p), Descendants(t, root, p);
    assert all == [p] + ds;
    forall n ensures multiset(ds)[n] == B(n in t.children && n != p && Under(t, root, p, n)) {
      CollectOnce(t, root, p, n);
    }
    forall n ensures n in ds <==> n in t.children && n != p && Under(t, root, p, n) {
      assert n in ds <==> multiset(ds)[n] > 0;
    }
    forall i, j | 0 <= i < j < |ds| ensures ds[i] != ds[j] {
      if ds[i] == ds[j] {
        Twice(ds, i, j);
      }
    }
  }

  lemma Twice(s: seq<string>, i: nat, j: nat)
    requires i < j < |s| && s[i] == s[j]
    ensures multiset(s)[s[i]] >= 2
  {
    assert s == s[..j] + [s[j]] + s[j + 1..];
    assert s[i] in s[..j];
    assert s[i] in multiset(s[..j]);
  }

  // The children and parents once all the descendants in ds have been given to the root.
  ghost function Orphaned(t: Tree, root: string, ds: seq<string>): Tree
    requires root in t.children
  {
    Tree(map n | n in t.children :: if n in ds then [] else if n == root then t.children[n] + ds else t.children[n],
      map n | n in t.parents :: if n in ds then root else t.parents[n], t.rank, t.top)
  }

  // A process leaves, and all its descendants are given to the root.
  ghost function ExitRoot(t: Tree, root: string, p: string): Tree
    requires Ok(t, root) && p in t.children && p != root
  {
    assert Linked(t, root, p);
    Left(Orphaned(t, root, Descendants(t, root, p)), t.parents[p], p)
  }

  // What is not under p has no children under p, except p itself.
  lemma OutsideStays(t: Tree, root: string, p: string, n: string, c: string)
    requires Ok(t, root) && p in t.children && n in t.children && c in t.children[n] && c != p
    ensures c in t.children && (Under(t, root, p, n) <==> Under(t, root, p, c))
  {
    assert Linked(t, root, n);
  }

  // The new list of children of the root has no repetition.
  lemma RootAdopts(t: Tree, root: string, p: string)
    requires Ok(t, root) && p in t.children && p != root
    ensures NoDup(t.children[root] + Descendants(t, root, p))
    ensures root !in Descendants(t, root, p) && forall c :: c in t.children[root] ==> c !in Descendants(t, root, p)
  {
    DescendantsOnce(t, root, p);
    assert Linked(t, root, root);
    forall c | c in t.children[root] ensures c !in Descendants(t, root, p) {
      if c != p { OutsideStays(t, root, p, root, c); }
    }
    NoDupAppend(t.children[root], Descendants(t, root, p));
  }

  // Who has which parent after an exit: no child of n but p changes sides.
  lemma ExitRootSides(t: Tree, root: string, p: string, n: string)
    requires Ok(t, root) && p in t.children && p != root && n in t.children && n != p
    ensures p in t.parents && t.parents[p] in t.children && t.parents[p] !in Descendants(t, root, p)
    ensures n in Descendants(t, root, p) <==> Under(t, root, p, n)
    ensures n != root ==> n in t.parents && t.parents[n] in t.children
    ensures n != root && n !in Descendants(t, root, p) ==> t.parents[n] != p && t.parents[n] !in Descendants(t, root, p)
    ensures forall c :: c in t.children[n] && c != p ==>
      c in t.children && (c in Descendants(t, root, p) <==> Under(t, root, p, n))
  {
    DescendantsOnce(t, root, p);
    assert Linked(t, root, p) && Linked(t, root, n) && Ranked(t, p);
    if Under(t, root, p, t.parents[p]) { UnderRank(t, root, p, t.parents[p]); }
    if n != root {
      OutsideStays(t, root, p, t.parents[n], n);
    }
    forall c | c in t.children[n] && c != p
      ensures c in t.children && (c in Descendants(t, root, p) <==> Under(t, root, p, n))
    {
      OutsideStays(t, root, p, n, c);
    }
  }

  // The entry of n after an exit.
  lemma ExitRootAt(t: Tree, root: string, p: string, n: string)
    requires Ok(t, root) && p in t.children && p != root && n in t.children && n != p
    ensures var t', ds := ExitRoot(t, root, p), Descendants(t, root, p);
      && n in t'.children && NoDup(t'.children[n])
      && (forall c :: c in t'.children[n] <==> c != p && n !in ds && (c in t.children[n] || (n == root && c in ds)))
      && (n != root ==> n in t.parents && n in t'.parents && t'.parents[n] == if n in ds then root else t.parents[n])
  {
    ExitRootSides(t, root, p, n);
    RootAdopts(t, root, p);
    assert Linked(t, root, n);
    var before := if n == root then t.children[root] + Descendants(t, root, p) else t.children[n];
    WithoutOne(before, p);
    assert p !in Descendants(t, root, p) by { DescendantsOnce(t, root, p); }
  }

  lemma ExitRootLinks(t: Tree, root: string, p: string, n: string)
    requires Ok(t, root) && p in t.children && p != root && n in t.children && n != p
    ensures n in ExitRoot(t, root, p).children && Linked(ExitRoot(t, root, p), root, n)
  {
    ExitRootSides(t, root, p, n);
    ExitRootAt(t, root, p, n);
    ExitRootAt(t, root, p, root);
    assert Linked(t, root, n) && Linked(t, root, root);
    var t', ds := ExitRoot(t, root, p), Descendants(t, root, p);
    RootAdopts(t, root, p);
    if n != root && n !in ds {
      ExitRootAt(t, root, p, t.parents[n]);
    }
    forall c | c in t'.children[n] ensures c in t'.parents && t'.parents[c] == n {
      DescendantsOnce(t, root, p);
      ExitRootAt(t, root, p, c);
    }
  }

  lemma ExitRootKeeps(t: Tree, root: string, p: string)
    requires Ok(t, root) && p in t.children && p != root
    ensures Ok(ExitRoot(t, root, p), root)
  {
    var t' := ExitRoot(t, root, p);
    assert Linked(t, root, p);
    forall n | n in t'.children ensures Linked(t', root, n) && Ranked(t', n) {
      assert Linked(t, root, n) && Ranked(t, n) && Ranked(t, root);
      ExitRootLinks(t, root, p, n);
    }
  }

  lemma OnlyRootAbove(t: Tree, root: string, p: string)
    requires Ok(t, root) && p != root
    ensures !Under(t, root, p, root)
  {
  }

  // All descendants end up as leaves below the root; everything else stays where it is.
  lemma DescendantsBecomeLeaves(t: Tree, root: string, p: string, n: string)
    requires Ok(t, root) && p in t.children && p != root && n in t.children && n != p
    ensures var t' := ExitRoot(t, root, p);
      && p !in t'.children && n in t'.children
      && (Under(t, root, p, n) ==>
          n in t'.parents && t'.children[n] == [] && t'.parents[n] == root && n in t'.children[root])
      && (!Under(t, root, p, n) && n != root ==>
        n in t'.parents && t'.parents[n] == t.parents[n] && t'.children[n] == Without(t.children[n], p))
  {
    DescendantsOnce(t, root, p);
    ExitRootLinks(t, root, p, n);
    assert Linked(t, root, p) && Linked(t, root, n);
    ExitRootKeeps(t, root, p);
    OnlyRootAbove(t, root, p);
    if !Under(t, root, p, n) && n != root && n != t.parents[p] {
      NoneToRemove(t.children[n], p);
    }
  }

  lemma {:induction false} NoneToRemove(s: seq<string>, x: string)
    requires x !in s
    ensures Without(s, x) == s
  {
    if s != [] { NoneToRemove(s[1..], x); }
  }

  // Only the first of x is gone; the others keep their order.
  lemma {:induction false} WithoutAt(s: seq<string>, x: string, i: nat)
    requires i < |s| && s[i] == x && x !in s[..i]
    ensures Without(s, x) == s[..i] + s[i + 1..]
  {
    if i > 0 {
      assert s[1..][..i - 1] == s[..i][1..] && s[..i][0] == s[0];
      WithoutAt(s[1..], x, i - 1);
      assert s[..i] + s[i + 1..] == [s[0]] + (s[1..][..i - 1] + s[1..][i..]);
    }
  }

  // A fork adds a leaf as the last child of its parent, and nothing else changes.
  lemma ForkAddsLeaf(t: Tree, root: string, p: string, c: string, n: string)
    requires Ok(t, root) && p in t.children && c !in t.children
    ensures var t' := ForkTree(t, p, c);
      && t'.children.Keys == t.children.Keys + {c}
      && t'.parents[c] == p && t'.children[c] == [] && t'.children[p] == t.children[p] + [c]
      && (n in t.children && n != p ==> t'.children[n] == t.children[n])
      && (n in t.children && n != root ==> n in t'.parents && t'.parents[n] == t.parents[n])
  {
    assert Linked(t, root, p) && Ranked(t, p);
  }

  // p is the child of its parent with this index.
  ghost predicate ChildAt(t: Tree, p: string, at: nat) {
    && p in t.parents && t.parents[p] in t.children
    && at < |t.children[t.parents[p]]| && t.children[t.parents[p]][at] == p
  }

  // After an exit with local reparenting the orphans follow the other children of their grandparent, and everybody else
  // has the parent and the children that it had.
  lemma OrphansMoveUp(t: Tree, root: string, p: string, n: string, at: nat)
    requires Ok(t, root) && p in t.children && p != root && n in t.children && n != p && ChildAt(t, p, at)
    ensures var t', parent := ExitLocal(t, root, p), t.parents[p];
      && t'.children.Keys == t.children.Keys - {p}
      && (n in t.children[p] ==> n in t'.parents && t'.parents[n] == parent)
      && (n !in t.children[p] && n != root ==> n in t'.parents && t'.parents[n] == t.parents[n])
      && parent in t'.children
      && t'.children[parent] == t.children[parent][..at] + t.children[parent][at + 1..] + t.children[p]
      && (n != parent ==> t'.children[n] == t.children[n])
  {
    var siblings := t.children[t.parents[p]];
    assert Linked(t, root, p) && Ranked(t, p) && Linked(t, root, t.parents[p]) && Linked(t, root, n);
    assert (siblings + t.children[p])[..at] == siblings[..at];
    WithoutAt(siblings + t.children[p], p, at);
    assert (siblings + t.children[p])[at + 1..] == siblings[at + 1..] + t.children[p];
  }

  // After an exit with reparenting to the root its descendants follow the other children of the root, in the order in
  // which they were collected.
  lemma RootChildren(t: Tree, root: string, p: string, at: nat)
    requires Ok(t, root) && p in t.children && p != root && ChildAt(t, p, at)
    ensures var t', was := ExitRoot(t, root, p), t.children[root];
      && root in t'.children
      && t'.children[root] ==
        (if t.parents[p] == root then was[..at] + was[at + 1..] else was) + Descendants(t, root, p)
  {
    var was, ds := t.children[root], Descendants(t, root, p);
    assert Linked(t, root, p) && Linked(t, root, root);
    RootAdopts(t, root, p);
    if t.parents[p] == root {
      assert (was + ds)[..at] == was[..at];
      WithoutAt(was + ds, p, at);
      assert (was + ds)[at + 1..] == was[at + 1..] + ds;
    }
  }

  // ----- The order of the list of descendants -----

  // x stands before y in the list.
  ghost predicate Precedes(list: seq<string>, x: string, y: string) {
    exists i, j :: 0 <= i < j < |list| && list[i] == x && list[j] == y
  }

  // The list of what is under x, as a part of another.
  ghost predicate Within(part: seq<string>, list: seq<string>) {
    exists i, j :: 0 <= i <= j <= |list| && list[i..j] == part
  }

  lemma WithinOf(before: seq<string>, part: seq<string>, after: seq<string>)
    ensures Within(part, before + part + after)
  {
    assert (before + part + after)[|before|..|before| + |part|] == part;
  }

  lemma WithinMore(part: seq<string>, list: seq<string>, before: seq<string>, after: seq<string>)
    requires Within(part, list)
    ensures Within(part, before + list + after)
  {
    var i, j :| 0 <= i <= j <= |list| && list[i..j] == part;
    assert (before + list + after)[|before| + i..|before| + j] == list[i..j];
  }

  lemma WithinPrecedes(part: seq<string>, list: seq<string>, x: string, y: string)
    requires Within(part, list) && Precedes(part, x, y)
    ensures Precedes(list, x, y)
  {
    var i, j :| 0 <= i <= j <= |list| && list[i..j] == part;
    var k, l :| 0 <= k < l < |part| && part[k] == x && part[l] == y;
    assert list[i + k] == x && list[i + l] == y;
  }

  // The lists of some children, split at one of them.
  lemma {:induction false} CollectSplit(t: Tree, root: string, p: string, cs: seq<string>, i: nat)
    returns (after: seq<string>)
    requires Ok(t, root) && p in t.children && i < |cs| && forall c :: c in cs ==> c in t.children[p]
    ensures cs[i] in t.children
    ensures CollectAll(t, root, p, cs) == CollectAll(t, root, p, cs[..i]) + Collect(t, root, cs[i]) + after
  {
    var init, last := cs[..|cs| - 1], cs[|cs| - 1];
    assert last in cs && Linked(t, root, p) && Ranked(t, last) && cs[i] in cs;
    if i == |cs| - 1 {
      after := [];
    } else {
      var rest := CollectSplit(t, root, p, init, i);
      assert init[..i] == cs[..i] && init[i] == cs[i];
      after := rest + Collect(t, root, last);
    }
  }

  // The list of any process under p is a part of the list of p.
  lemma {:induction false} CollectWithin(t: Tree, root: string, p: string, x: string)
    requires Ok(t, root) && p in t.children && x in t.children && Under(t, root, p, x)
    ensures Within(Collect(t, root, x), Collect(t, root, p))
    decreases t.top - t.rank[p]
  {
    var all := Collect(t, root, p);
    if x == p {
      WithinOf([], all, []);
      assert [] + all + [] == all;
    } else {
      assert Linked(t, root, p) && Ranked(t, p);
      var c := UnderChild(t, root, p, x);
      assert Ranked(t, c);
      CollectWithin(t, root, c, x);
      var i :| 0 <= i < |t.children[p]| && t.children[p][i] == c;
      var after := CollectSplit(t, root, p, t.children[p], i);
      var before := [p] + CollectAll(t, root, p, t.children[p][..i]);
      assert all == before + Collect(t, root, c) + after;
      WithinMore(Collect(t, root, x), Collect(t, root, c), before, after);
    }
  }

  lemma UnderCollected(t: Tree, root: string, p: string, n: string)
    requires Ok(t, root) && p in t.children && n in t.children && Under(t, root, p, n)
    ensures n in Collect(t, root, p)
  {
    CollectOnce(t, root, p, n);
    assert n in multiset(Collect(t, root, p));
  }

  // Every process stands before its descendants.
  lemma CollectParentsFirst(t: Tree, root: string, p: string, x: string, n: string)
    requires Ok(t, root) && p in t.children && x in t.children && n in t.children
    requires Under(t, root, p, x) && Under(t, root, x, n) && n != x
    ensures Precedes(Collect(t, root, p), x, n)
  {
    CollectWithin(t, root, p, x);
    UnderCollected(t, root, x, n);
    var list := Collect(t, root, x);
    var j :| 0 <= j < |list| && list[j] == n;
    assert list[0] == x && j > 0;
    WithinPrecedes(list, Collect(t, root, p), x, n);
  }

  // The list of x, split at two of its children.
  lemma CollectSplitTwice(t: Tree, root: string, x: string, i: nat, j: nat)
    returns (before: seq<string>, between: seq<string>, after: seq<string>)
    requires Ok(t, root) && x in t.children && i < j < |t.children[x]|
    ensures t.children[x][i] in t.children && t.children[x][j] in t.children
    ensures Collect(t, root, x) ==
      before + Collect(t, root, t.children[x][i]) + between + Collect(t, root, t.children[x][j]) + after
  {
    var cs := t.children[x];
    assert Linked(t, root, x);
    after := CollectSplit(t, root, x, cs, j);
    between := CollectSplit(t, root, x, cs[..j], i);
    before := [x] + CollectAll(t, root, x, cs[..j][..i]);
  }

  // Of two children of a process, the one that is older stands, with all its descendants, before the other with its.
  lemma CollectOlderFirst(t: Tree, root: string, p: string, x: string, i: nat, j: nat, m: string, n: string)
    requires Ok(t, root) && p in t.children && x in t.children && m in t.children && n in t.children
    requires Under(t, root, p, x) && i < j < |t.children[x]|
    requires Under(t, root, t.children[x][i], m) && Under(t, root, t.children[x][j], n)
    ensures Precedes(Collect(t, root, p), m, n)
  {
    var before, between, after := CollectSplitTwice(t, root, x, i, j);
    CollectWithin(t, root, p, x);
    UnderCollected(t, root, t.children[x][i], m);
    UnderCollected(t, root, t.children[x][j], n);
    InParts(before, Collect(t, root, t.children[x][i]), between, Collect(t, root, t.children[x][j]), after, m, n);
    WithinPrecedes(Collect(t, root, x), Collect(t, root, p), m, n);
  }

  lemma InParts(a: seq<string>, s: seq<string>, b: seq<string>, u: seq<string>, c: seq<string>, m: string, n: string)
    requires m in s && n in u
    ensures Precedes(a + s + b + u + c, m, n)
  {
    var i :| 0 <= i < |s| && s[i] == m;
    var j :| 0 <= j < |u| && u[j] == n;
    var list := a + s + b + u + c;
    assert list[|a| + i] == m && list[|a + s + b| + j] == n;
  }

  // ----- The simulation -----

  datatype Action = Fork(parent: string, child: string) | Exit(name: string)

  // What an action, and a list of actions, does to the set of live processes if it succeeds.
  ghost function Then(live: set<string>, a: Action): set<string> {
    match a
    case Fork(p, c) => live + {c}
    case Exit(p) => live - {p}
  }

  ghost function LiveAfter(live: set<string>, actions: seq<Action>): set<string> {
    if actions == [] then live else Then(LiveAfter(live, actions[..|actions| - 1]), actions[|actions| - 1])
  }

  // A live process forks, or one that is not the root exits.
  ghost predicate LegalNow(live: set<string>, root: string, a: Action) {
    match a
    case Fork(p, c) => p in live
    case Exit(p) => p in live && p != root
  }

  ghost predicate Legal(live: set<string>, root: string, actions: seq<Action>) {
    forall i {:trigger actions[i]} :: 0 <= i < |actions| ==> LegalNow(LiveAfter(live, actions[..i]), root, actions[i])
  }

  lemma {:induction false} LegalNext(live: set<string>, root: string, actions: seq<Action>, a: Action)
    requires Legal(live, root, actions)
    ensures Legal(live, root, actions + [a]) <==> LegalNow(LiveAfter(live, actions), root, a)
    ensures LiveAfter(live, actions + [a]) == Then(LiveAfter(live, actions), a)
  {
    var actions' := actions + [a];
    assert actions'[..|actions|] == actions && actions'[|actions|] == a;
    forall i | 0 <= i < |actions| ensures LegalNow(LiveAfter(live, actions'[..i]), root, actions'[i]) {
      assert actions'[..i] == actions[..i] && actions'[i] == actions[i];
    }
  }

  // If leaves only may exit, nobody ever gets a new parent, so it is enough to know who forked whom: the exit of
  // a process that has forked a live one is an error that is reported and skipped.
  ghost function LeafThen(parents: map<string, string>, a: Action): map<string, string> {
    match a
    case Fork(p, c) => parents[c := p]
    case Exit(p) => if p in parents.Values then parents else parents - {p}
  }

  ghost function LeafAfter(parents: map<string, string>, actions: seq<Action>): map<string, string> {
    if actions == [] then parents else LeafThen(LeafAfter(parents, actions[..|actions| - 1]), actions[|actions| - 1])
  }

  // A live process forks or exits; the exit of the root is skipped, as others are, while it has children, and is
  // refused if not.
  ghost predicate LeafLegalNow(parents: map<string, string>, root: string, a: Action) {
    match a
    case Fork(p, c) => p == root || p in parents
    case Exit(p) => if p == root then root in parents.Values else p in parents
  }

  ghost predicate LeafLegal(parents: map<string, string>, root: string, actions: seq<Action>) {
    forall i {:trigger actions[i]} :: 0 <= i < |actions| ==>
      LeafLegalNow(LeafAfter(parents, actions[..i]), root, actions[i])
  }

  lemma {:induction false} LeafLegalNext(parents: map<string, string>, root: string, actions: seq<Action>, a: Action)
    requires LeafLegal(parents, root, actions)
    ensures LeafLegal(parents, root, actions + [a]) <==> LeafLegalNow(LeafAfter(parents, actions), root, a)
    ensures LeafAfter(parents, actions + [a]) == LeafThen(LeafAfter(parents, actions), a)
  {
    var actions' := actions + [a];
    assert actions'[..|actions|] == actions && actions'[|actions|] == a;
    forall i | 0 <= i < |actions| ensures LeafLegalNow(LeafAfter(parents, actions'[..i]), root, actions'[i]) {
      assert actions'[..i] == actions[..i] && actions'[i] == actions[i];
    }
  }

  // Processes with children may not exit if leaves only may.
  ghost predicate Fails(t: Tree, p: string) {
    p in t.children && t.children[p] != []
  }

  // The tree after an action that is not refused.
  ghost function Outcome(t: Tree, root: string, leafOnly: bool, localReparent: bool, a: Action): Tree
    requires Ok(t, root)
    requires match a
      case Fork(p, _) => p in t.children
      case Exit(p) => p in t.children && (p == root ==> leafOnly && Fails(t, p))
  {
    match a
    case Fork(p, c) => ForkTree(t, p, c)
    case Exit(p) =>
      if leafOnly && Fails(t, p) then t else if localReparent then ExitLocal(t, root, p) else ExitRoot(t, root, p)
  }

  // Who has children is somebody's parent.
  lemma FailsIfParent(t: Tree, root: string, p: string)
    requires Ok(t, root) && p in t.children
    ensures Fails(t, p) <==> p in t.parents.Values
  {
    assert Linked(t, root, p);
    if Fails(t, p) {
      assert t.children[p][0] in t.children[p];
    }
    if p in t.parents.Values {
      var c :| c in t.parents && t.parents[c] == p;
      assert Linked(t, root, c);
    }
  }

  // A process without children leaves and nobody gets a new parent, in either mode.
  lemma LeafLeaves(t: Tree, root: string, p: string)
    requires Ok(t, root) && p in t.children && p != root && t.children[p] == []
    ensures ExitLocal(t, root, p).parents == t.parents - {p}
    ensures ExitRoot(t, root, p).parents == t.parents - {p}
  {
    assert Linked(t, root, p);
    assert Adopted(t, t.parents[p], []).parents == t.parents;
    assert Collect(t, root, p) == [p] + CollectAll(t, root, p, []);
    assert Descendants(t, root, p) == [];
    assert Orphaned(t, root, []).parents == t.parents;
  }

  lemma LeafOutcome(t: Tree, root: string, localReparent: bool, a: Action)
    requires Ok(t, root)
    requires match a
      case Fork(p, _) => p in t.children
      case Exit(p) => p in t.children && (p == root ==> Fails(t, p))
    ensures Outcome(t, root, true, localReparent, a).parents == LeafThen(t.parents, a)
  {
    if a.Exit? {
      FailsIfParent(t, root, a.name);
      if !Fails(t, a.name) { LeafLeaves(t, root, a.name); }
    }
  }

  // Names of new processes have not been used before.
  ghost predicate FreshNames(used: set<string>, actions: seq<Action>) {
    && (forall i :: 0 <= i < |actions| && actions[i].Fork? ==> actions[i].child !in used)
    && forall i, j :: 0 <= i < j < |actions| && actions[i].Fork? && actions[j].Fork? ==>
      actions[i].child != actions[j].child
  }

  ghost predicate Lists(list: seq<string>, children: map<string, seq<string>>) {
    forall n :: n in list <==> n in children
  }

  class Forker {
    const root: string
    const leafOnly: bool
    const localReparent: bool
    var processList: seq<string>
    var children: map<string, seq<string>>
    var parents: map<string, string>
    ghost var rank: map<string, nat>
    ghost var top: nat

    ghost function T(): Tree
      reads this
    {
      Tree(children, parents, rank, top)
    }

    // One tree, and the list of processes is what is in it.
    ghost predicate Valid()
      reads this
    {
      Ok(T(), root) && NoDup(processList) && Lists(processList, children)
    }

    constructor (leafOnly: bool, localReparent: bool)
      ensures Valid() && root == "a" && processList == ["a"] && children == map["a" := []] && parents == map[]
      ensures this.leafOnly == leafOnly && this.localReparent == localReparent
    {
      this.leafOnly, this.localReparent := leafOnly, localReparent;
      root := "a";
      processList := ["a"];
      children := map["a" := []];
      parents, rank, top := map[], map["a" := 0], 0;
    }

    // A fork of a live process, with a fresh name for the new one.
    method DoFork(p: string, c: string)
      requires Valid() && p in processList && c !in processList
      modifies this
      ensures Valid() && T() == ForkTree(old(T()), p, c) && processList == old(processList) + [c]
    {
      ghost var t := T();
      ForkKeeps(t, root, p, c);
      NoDupAppend(processList, [c]);
      processList := processList + [c];
      children := children[c := []];
      children := children[p := children[p] + [c]];
      parents := parents[c := p];
      rank, top := rank[c := rank[p] + 1], top + 1;
      assert T() == ForkTree(t, p, c);
    }

    // A process and all its descendants.
    method CollectChildren(p: string) returns (l: seq<string>)
      requires Valid() && p in children
      ensures l == Collect(T(), root, p)
      decreases top - rank[p]
    {
      assert Linked(T(), root, p);
      if children[p] == [] {
        return [p];
      } else {
        l := [p];
        for i := 0 to |children[p]|
          invariant l == [p] + CollectAll(T(), root, p, children[p][..i])
        {
          var c := children[p][i];
          assert c in children[p] && Linked(T(), root, p) && Ranked(T(), c) && Ranked(T(), p);
          var more := CollectChildren(c);
          assert children[p][..i + 1][..i] == children[p][..i];
          l := l + more;
        }
        assert children[p][..|children[p]|] == children[p];
      }
    }

    // Give the orphans of p to its parent.
    method ReparentLocally(orphans: seq<string>, exitParent: string)
      requires exitParent in children && forall c :: c in orphans ==> c in parents
      modifies this`children, this`parents
      ensures T() == Adopted(old(T()), exitParent, orphans)
    {
      ghost var t := T();
      AdoptedNone(t, exitParent);
      for i := 0 to |orphans|
        invariant AreAdopted(T(), t, exitParent, orphans[..i])
      {
        ghost var now := T();
        PrefixNext(orphans, i);
        Adopt(orphans[i], exitParent);
        AdoptedNext(t, exitParent, orphans[..i], orphans[i], now, T());
      }
      assert orphans[..|orphans|] == orphans;
    }

    method Adopt(orphan: string, exitParent: string)
      requires exitParent in children
      modifies this`children, this`parents
      ensures T() == AdoptedBy(old(T()), exitParent, orphan)
    {
      parents := parents[orphan := exitParent];
      children := children[exitParent := children[exitParent] + [orphan]];
    }

    // Give all descendants of p to the root.
    method ReparentToRoot(p: string)
      requires Valid() && p in children && p != root
      modifies this`children, this`parents
      ensures T() == Orphaned(old(T()), root, Descendants(old(T()), root, p))
    {
      var all := CollectChildren(p);
      var ds := all[1..];
      ghost var t := T();
      DescendantsOnce(t, root, p);
      RootAdopts(t, root, p);
      GiveToRoot(ds);
    }

    method GiveOneToRoot(d: string)
      requires root in children && root != d
      modifies this`children, this`parents
      ensures T() == GivenToRoot(old(T()), root, d)
    {
      children := children[d := []];
      parents := parents[d := root];
      children := children[root := children[root] + [d]];
    }

    // The loop over the descendants.
    method GiveToRoot(ds: seq<string>)
      requires root in children && root !in ds && NoDup(ds) && forall d :: d in ds ==> d in children && d in parents
      modifies this`children, this`parents
      ensures T() == Orphaned(old(T()), root, ds)
    {
      ghost var t := T();
      OrphanedNone(t, root);
      for i := 0 to |ds|
        invariant AreOrphaned(T(), t, root, ds[..i])
      {
        ghost var now := T();
        NextIsNew(ds, i);
        GiveOneToRoot(ds[i]);
        OrphanedNext(t, root, ds[..i], ds[i], now, T());
      }
      assert ds[..|ds|] == ds;
    }

    // The process itself goes. What the source marks as unusable is removed from the maps.
    method Leave(p: string, exitParent: string)
      requires exitParent in children && p != exitParent
      modifies this
      ensures T() == Left(old(T()), exitParent, p) && processList == old(processList)
    {
      children := children[exitParent := Without(children[exitParent], p)];
      children := children - {p};
      parents := parents - {p};
      rank := rank - {p};
    }

    // An exit; the root cannot.
    method DoExit(p: string) returns (ok: bool)
      requires Valid() && p in processList
      modifies this
      ensures Valid() && ok == (p != root)
      ensures !ok ==> T() == old(T()) && processList == old(processList)
      ensures ok ==> T() == (if localReparent then ExitLocal(old(T()), root, p) else ExitRoot(old(T()), root, p))
      ensures ok ==> processList == Without(old(processList), p)
    {
      if p == root {
        return false;
      }
      ghost var t, list := T(), processList;
      assert Linked(t, root, p) && Ranked(t, p);
      var exitParent := parents[p];
      if localReparent {
        ExitLocalKeeps(t, root, p);
        ReparentLocally(children[p], exitParent);
      } else {
        ExitRootKeeps(t, root, p);
        ReparentToRoot(p);
      }
      Leave(p, exitParent);
      assert T() == if localReparent then ExitLocal(t, root, p) else ExitRoot(t, root, p);
      processList := Without(processList, p);
      ListWithout(list, t.children, T().children, p);
      ok := true;
    }

    // One action. False if it is bad: the process is not there, or is the root and should exit. If leaves only may
    // exit, that of a process with children, the root or not, is skipped.
    method Perform(a: Action) returns (ok: bool)
      requires Valid() && (a.Fork? ==> a.child !in processList)
      modifies this
      ensures Valid()
      ensures ok <==> LegalNow(old(Members(processList)), root, a) || (leafOnly && a.Exit? && Fails(old(T()), a.name))
      ensures !ok ==> T() == old(T()) && processList == old(processList)
      ensures ok ==> T() == Outcome(old(T()), root, leafOnly, localReparent, a)
      ensures ok && leafOnly && a.Exit? && Fails(old(T()), a.name) ==>
        T() == old(T()) && processList == old(processList)
      ensures ok && !leafOnly ==> Members(processList) == Then(old(Members(processList)), a)
      ensures ok ==> Members(processList) >= Then(old(Members(processList)), a)
      ensures Members(processList) <= old(Members(processList)) + (if a.Fork? then {a.child} else {})
    {
      ghost var list := processList;
      match a
      case Fork(p, c) =>
        if p !in processList {
          return false;
        }
        DoFork(p, c);
        MembersFork(list, c);
        ok := true;
      case Exit(p) =>
        MembersExit(list, p);
        ok := PerformExit(p);
    }

    method PerformExit(p: string) returns (ok: bool)
      requires Valid()
      modifies this
      ensures Valid() && (ok <==> p in old(processList) && (p == root ==> leafOnly && Fails(old(T()), p)))
      ensures !ok || (leafOnly && Fails(old(T()), p)) ==> T() == old(T()) && processList == old(processList)
      ensures ok && !(leafOnly && Fails(old(T()), p)) ==>
        && T() == (if localReparent then ExitLocal(old(T()), root, p) else ExitRoot(old(T()), root, p))
        && processList == Without(old(processList), p)
    {
      if p !in processList {
        return false;
      }
      if leafOnly && |children[p]| > 0 {
        ok := true;
      } else {
        ok := DoExit(p);
      }
    }

    // What is refused and what changes if leaves only may exit, by who forked whom.
    lemma LeafAccepts(a: Action)
      requires Valid() && leafOnly
      ensures LeafLegalNow(parents, root, a) <==>
        LegalNow(Members(processList), root, a) || (a.Exit? && Fails(T(), a.name))
      ensures LeafLegalNow(parents, root, a) ==>
        Outcome(T(), root, true, localReparent, a).parents == LeafThen(parents, a)
    {
      if a.Exit? && a.name in children { FailsIfParent(T(), root, a.name); }
      if a.Exit? && a.name == root { assert root in children; }
      if LeafLegalNow(parents, root, a) { LeafOutcome(T(), root, localReparent, a); }
    }

    lemma LiveAreForked()
      requires Valid()
      ensures Members(processList) == parents.Keys + {root}
    {
    }

    // One action after others have been performed.
    method PerformNext(a: Action, ghost live: set<string>, ghost forked: map<string, string>, ghost done: seq<Action>)
      returns (ok: bool)
      requires Valid() && (a.Fork? ==> a.child !in processList)
      requires Follows(leafOnly, root, live, forked, done, Members(processList), parents)
      modifies this
      ensures Valid() && Members(processList) <= old(Members(processList)) + (if a.Fork? then {a.child} else {})
      ensures ok ==> Follows(leafOnly, root, live, forked, done + [a], Members(processList), parents)
      ensures !ok ==> Refuses(leafOnly, root, live, forked, done + [a])
    {
      if leafOnly { LeafAccepts(a); }
      ghost var was := parents;
      AfterNext(live, root, done, a);
      if leafOnly { LeafLegalNext(forked, root, done, a); } else { LegalNext(live, root, done, a); }
      LegalLast(live, root, done, a);
      ok := Perform(a);
      assert leafOnly && ok ==> parents == LeafThen(was, a);
    }

    // A whole list of actions. If leaves only may exit, an exit that fails is no error.
    method Run(actions: seq<Action>) returns (ok: bool)
      requires Valid() && FreshNames(Members(processList), actions)
      modifies this
      ensures Valid()
      ensures Legal(old(Members(processList)), root, actions) ==> ok
      ensures !leafOnly ==> (ok <==> Legal(old(Members(processList)), root, actions))
      ensures !leafOnly && ok ==> Members(processList) == LiveAfter(old(Members(processList)), actions)
      ensures leafOnly ==> (ok <==> LeafLegal(old(parents), root, actions))
      ensures leafOnly && ok ==> parents == LeafAfter(old(parents), actions)
      ensures Members(processList) == parents.Keys + {root}
    {
      ghost var live, forked := Members(processList), parents;
      for i := 0 to |actions|
        invariant Valid() && Follows(leafOnly, root, live, forked, actions[..i], Members(processList), parents)
        invariant forall j :: i <= j < |actions| && actions[j].Fork? ==> actions[j].child !in Members(processList)
      {
        assert actions[..i + 1] == actions[..i] + [actions[i]];
        ok := PerformNext(actions[i], live, forked, actions[..i]);
        if !ok {
          RefusesAll(leafOnly, root, live, forked, actions, i + 1);
          LiveAreForked();
          return;
        }
      }
      assert actions[..|actions|] == actions;
      LiveAreForked();
      ok := true;
    }
  }

  // The actions done so far have been accepted and have led to these processes.
  ghost predicate Follows(
      leafOnly: bool, root: string, live: set<string>, forked: map<string, string>, done: seq<Action>,
      live': set<string>, forked': map<string, string>)
  {
    && live' >= LiveAfter(live, done)
    && if leafOnly then LeafLegal(forked, root, done) && forked' == LeafAfter(forked, done)
       else Legal(live, root, done) && live' == LiveAfter(live, done)
  }

  // The list is not legal, by either account.
  ghost predicate Refuses(
      leafOnly: bool, root: string, live: set<string>, forked: map<string, string>, actions: seq<Action>)
  {
    !Legal(live, root, actions) && (leafOnly ==> !LeafLegal(forked, root, actions))
  }

  // Nor is a list that starts with it.
  lemma RefusesAll(
      leafOnly: bool, root: string, live: set<string>, forked: map<string, string>, actions: seq<Action>, n: nat)
    requires n <= |actions| && Refuses(leafOnly, root, live, forked, actions[..n])
    ensures Refuses(leafOnly, root, live, forked, actions)
  {
    assert forall i :: 0 <= i < n ==> actions[..n][..i] == actions[..i] && actions[..n][i] == actions[i];
  }

  lemma AfterNext(live: set<string>, root: string, done: seq<Action>, a: Action)
    ensures LiveAfter(live, done + [a]) == Then(LiveAfter(live, done), a)
  {
    assert (done + [a])[..|done|] == done;
  }

  lemma LegalLast(live: set<string>, root: string, done: seq<Action>, a: Action)
    ensures Legal(live, root, done + [a]) ==> LegalNow(LiveAfter(live, done), root, a)
  {
    assert (done + [a])[..|done|] == done && (done + [a])[|done|] == a;
  }

  lemma MembersFork(list: seq<string>, c: string)
    ensures Members(list + [c]) == Members(list) + {c}
  {
  }

  lemma MembersExit(list: seq<string>, p: string)
    requires NoDup(list)
    ensures Members(Without(list, p)) == Members(list) - {p}
  {
    WithoutOne(list, p);
  }

  lemma ListWithout(
      list: seq<string>, children: map<string, seq<string>>, children': map<string, seq<string>>, p: string)
    requires NoDup(list) && Lists(list, children) && children'.Keys == children.Keys - {p}
    ensures NoDup(Without(list, p)) && Lists(Without(list, p), children')
  {
    WithoutOne(list, p);
  }

  lemma PrefixNext(s: seq<string>, i: nat)
    requires i < |s|
    ensures s[i] in s && s[..i + 1] == s[..i] + [s[i]]
  {
  }

  lemma AdoptedNone(t: Tree, parent: string)
    requires parent in t.children
    ensures Adopted(t, parent, []) == t
  {
    assert t.children[parent] + [] == t.children[parent];
  }

  ghost predicate AreAdopted(now: Tree, t: Tree, parent: string, os: seq<string>)
    requires parent in t.children
  {
    now == Adopted(t, parent, os)
  }

  // One more orphan is given to its new parent.
  ghost function AdoptedBy(t: Tree, parent: string, o: string): Tree
    requires parent in t.children
  {
    Tree(t.children[parent := t.children[parent] + [o]], t.parents[o := parent], t.rank, t.top)
  }

  lemma AdoptedNext(t: Tree, parent: string, os: seq<string>, o: string, now: Tree, now': Tree)
    requires parent in t.children && o in t.parents
    requires AreAdopted(now, t, parent, os) && now' == AdoptedBy(now, parent, o)
    ensures AreAdopted(now', t, parent, os + [o])
  {
    assert (t.children[parent] + os) + [o] == t.children[parent] + (os + [o]);
  }

  lemma OrphanedNone(t: Tree, root: string)
    requires root in t.children
    ensures Orphaned(t, root, []) == t
  {
    assert t.children[root] + [] == t.children[root];
  }

  ghost predicate AreOrphaned(now: Tree, t: Tree, root: string, ds: seq<string>)
    requires root in t.children
  {
    now == Orphaned(t, root, ds)
  }

  // One more descendant is given to the root.
  ghost function GivenToRoot(t: Tree, root: string, d: string): Tree
    requires root in t.children && root != d
  {
    Tree(t.children[d := []][root := t.children[root] + [d]], t.parents[d := root], t.rank, t.top)
  }

  lemma OrphanedNext(t: Tree, root: string, ds: seq<string>, d: string, now: Tree, now': Tree)
    requires root in t.children && d in t.children && d in t.parents && d != root && root !in ds && d !in ds
    requires AreOrphaned(now, t, root, ds) && now' == GivenToRoot(now, root, d)
    ensures AreOrphaned(now', t, root, ds + [d])
  {
    assert (t.children[root] + ds) + [d] == t.children[root] + (ds + [d]);
  }
}
