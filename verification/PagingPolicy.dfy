// The access loop of paging-policy_py/paging-policy.py: seven replacement policies over one list of pages.
module PagingPolicy {
  // Its OPT branch misses no more often than any other policy can, and its LRU branch keeps the most recently used
  // pages, so that a larger cache never misses more.

  import opened DemandPaging
  import opened Sequences

  datatype Policy = FIFO | LRU | MRU | RAND | CLOCK | OPT | UNOPT

  function RemoveAt(s: seq<int>, i: nat): (r: seq<int>)
    requires i < |s|
    ensures |r| == |s| - 1
  {
    s[..i] + s[i + 1..]
  }

  lemma RemoveAtPages(s: seq<int>, i: nat)
    requires i < |s| && NoDup(s)
    ensures NoDup(RemoveAt(s, i)) && Members(RemoveAt(s, i)) == Members(s) - {s[i]}
  {
    var r := RemoveAt(s, i);
    forall p | p in Members(s) - {s[i]} ensures p in r {
      var j :| 0 <= j < |s| && s[j] == p;
      assert r[if j < i then j else j - 1] == p;
    }
  }

  // memory.index(n), -1 if it raises.
  function IndexOf(memory: seq<int>, n: int): (idx: int)
    ensures -1 <= idx < |memory|
    ensures idx == -1 ==> n !in memory
    ensures idx >= 0 ==> memory[idx] == n && n !in memory[..idx]
  {
    if memory == [] then -1
    else if memory[0] == n then 0
    else
      var idx := IndexOf(memory[1..], n);
      assert idx >= 0 ==> memory[..idx + 1] == [memory[0]] + memory[1..][..idx];
      if idx == -1 then -1 else idx + 1
  }

  // memory.remove(n) and memory.append(n); just the append if n is not there.
  function MoveToEnd(s: seq<int>, n: int): seq<int> {
    if n in s then RemoveAt(s, IndexOf(s, n)) + [n] else s + [n]
  }

  // ----- What each policy promises -----

  // Position idx of a full cache is the victim for the miss at trace[i].
  ghost predicate IsVictim(policy: Policy, trace: seq<int>, i: nat, memory: seq<int>, idx: nat)
    requires i < |trace|
  {
    idx < |memory| &&
    match policy
    case FIFO => idx == 0
    case LRU => idx == 0
    case MRU => idx == |memory| - 1
    case RAND => true
    case CLOCK => true
    case OPT =>
      // the last of the pages whose next use is furthest away
      forall j :: 0 <= j < |memory| ==>
        NextUse(trace, i + 1, memory[j]) + (if j > idx then 1 else 0) <= NextUse(trace, i + 1, memory[idx])
    case UNOPT =>
      // the first of the pages whose next use is nearest
      forall j :: 0 <= j < |memory| ==>
        NextUse(trace, i + 1, memory[idx]) + (if j < idx then 1 else 0) <= NextUse(trace, i + 1, memory[j])
  }

  // The access to trace[i] turns the list memory into memory'.
  ghost predicate Serves(policy: Policy, trace: seq<int>, k: nat, i: nat, memory: seq<int>, memory': seq<int>)
    requires i < |trace|
  {
    var n := trace[i];
    if n in memory then
      memory' == if policy.LRU? || policy.MRU? then MoveToEnd(memory, n) else memory
    else if |memory| == k then
      exists idx: nat :: IsVictim(policy, trace, i, memory, idx) && memory' == RemoveAt(memory, idx) + [n]
    else memory' == memory + [n]
  }

  // The lists after 0, 1, 2, ... accesses.
  ghost predicate History(policy: Policy, trace: seq<int>, k: nat, h: seq<seq<int>>) {
    && 0 < |h| <= |trace| + 1 && h[0] == []
    && forall i :: 0 <= i < |h| - 1 ==> Serves(policy, trace, k, i, h[i], h[i + 1])
  }

  ghost predicate FullHistory(policy: Policy, trace: seq<int>, k: nat, h: seq<seq<int>>) {
    History(policy, trace, k, h) && |h| == |trace| + 1
  }

  // The misses among the first i accesses.
  ghost function Misses(trace: seq<int>, h: seq<seq<int>>, i: nat): (m: nat)
    requires i <= |trace| && i <= |h|
    ensures m <= i
  {
    if i == 0 then 0 else Misses(trace, h, i - 1) + (if trace[i - 1] in h[i - 1] then 0 else 1)
  }

  lemma {:induction false} MissesExtend(trace: seq<int>, h: seq<seq<int>>, h': seq<seq<int>>, i: nat)
    requires i <= |trace| && i <= |h| && h <= h'
    ensures Misses(trace, h', i) == Misses(trace, h, i)
  {
    if i > 0 {
      MissesExtend(trace, h, h', i - 1);
    }
  }

  lemma {:induction false} MissesGrow(trace: seq<int>, h: seq<seq<int>>, i: nat, j: nat)
    requires i <= j <= |trace| && j <= |h|
    ensures Misses(trace, h, i) <= Misses(trace, h, j)
  {
    if i < j {
      MissesGrow(trace, h, i, j - 1);
    }
  }

  // One access keeps the list free of duplicates and within its size, and is what a demand policy does.
  lemma ServesPages(policy: Policy, trace: seq<int>, k: nat, i: nat, memory: seq<int>, memory': seq<int>)
    requires i < |trace| && 0 < k && NoDup(memory) && |memory| <= k && Serves(policy, trace, k, i, memory, memory')
    ensures NoDup(memory') && |memory'| <= k
    ensures trace[i] in memory ==> Members(memory') == Members(memory) && |memory'| == |memory|
    ensures trace[i] !in memory && |memory| < k ==> Members(memory') == Members(memory) + {trace[i]}
    ensures trace[i] !in memory && |memory| == k ==>
      exists idx: nat :: IsVictim(policy, trace, i, memory, idx)
        && Members(memory') == Replace(Members(memory), memory[idx], trace[i])
  {
    var n := trace[i];
    if n in memory {
      if policy.LRU? || policy.MRU? {
        assert Members(memory') == Members(memory);
      }
    } else if |memory| == k {
      var idx: nat :| IsVictim(policy, trace, i, memory, idx) && memory' == RemoveAt(memory, idx) + [n];
      RemoveAtPages(memory, idx);
      assert n !in Members(RemoveAt(memory, idx));
      assert Members(memory') == Members(RemoveAt(memory, idx)) + {n};
    } else {
      assert Members(memory') == Members(memory) + {n};
    }
  }

  lemma {:induction false} HistoryPages(policy: Policy, trace: seq<int>, k: nat, h: seq<seq<int>>, i: nat)
    requires History(policy, trace, k, h) && i < |h| && 0 < k
    ensures NoDup(h[i]) && |h[i]| <= k && |Members(h[i])| == |h[i]|
  {
    if i > 0 {
      HistoryPages(policy, trace, k, h, i - 1);
      ServesPages(policy, trace, k, i - 1, h[i - 1], h[i]);
    }
    MembersSize(h[i]);
  }

  // ----- OPT is optimal -----

  // Whatever the policy, its misses are ones that some choice of victims gives.
  lemma {:induction false} EveryPolicyIsDemand(policy: Policy, trace: seq<int>, k: nat, h: seq<seq<int>>, i: nat)
    requires FullHistory(policy, trace, k, h) && i <= |trace| && 0 < k
    ensures Misses(trace, h, i) <= Misses(trace, h, |trace|)
    ensures Within(k, trace, i, Members(h[i]), Misses(trace, h, |trace|) - Misses(trace, h, i))
    decreases |trace| - i
  {
    MissesGrow(trace, h, i, |trace|);
    if i < |trace| {
      EveryPolicyIsDemand(policy, trace, k, h, i + 1);
      HistoryPages(policy, trace, k, h, i);
      ServesPages(policy, trace, k, i, h[i], h[i + 1]);
      var m := Misses(trace, h, |trace|) - Misses(trace, h, i);
      assert trace[i] in Members(h[i]) <==> trace[i] in h[i];
      if trace[i] !in h[i] && |h[i]| == k {
        var idx: nat :| IsVictim(policy, trace, i, h[i], idx)
          && Members(h[i + 1]) == Replace(Members(h[i]), h[i][idx], trace[i]);
        assert Evicting(k, trace, i, Members(h[i]), h[i][idx], m);
      }
    }
  }

  lemma OptServes(trace: seq<int>, k: nat, i: nat, memory: seq<int>, memory': seq<int>, m: nat)
    requires i < |trace| && 0 < k && NoDup(memory) && |memory| <= k && Serves(OPT, trace, k, i, memory, memory')
    requires Within(k, trace, i, Members(memory), m)
    ensures trace[i] in memory ==> Within(k, trace, i + 1, Members(memory'), m)
    ensures trace[i] !in memory ==> m > 0 && Within(k, trace, i + 1, Members(memory'), m - 1)
  {
    MembersSize(memory);
    ServesPages(OPT, trace, k, i, memory, memory');
    assert trace[i] in Members(memory) <==> trace[i] in memory;
    if trace[i] !in memory && |memory| == k {
      var idx: nat :| IsVictim(OPT, trace, i, memory, idx) &&
        Members(memory') == Replace(Members(memory), memory[idx], trace[i]);
      FurthestIsBest(k, trace, i, Members(memory), memory[idx], m);
    }
  }

  lemma {:induction false} OptFromHere(trace: seq<int>, k: nat, h: seq<seq<int>>, i: nat, m: nat)
    requires FullHistory(OPT, trace, k, h) && i <= |trace| && 0 < k
    requires Within(k, trace, i, Members(h[i]), m)
    ensures Misses(trace, h, |trace|) - Misses(trace, h, i) <= m
    decreases |trace| - i
  {
    if i < |trace| {
      HistoryPages(OPT, trace, k, h, i);
      OptServes(trace, k, i, h[i], h[i + 1], m);
      OptFromHere(trace, k, h, i + 1, if trace[i] in h[i] then m else m - 1);
    }
  }

  // For every trace and every cache size, OPT misses at most as often as any policy (RAND allows
  // every choice of victims).
  lemma OptIsOptimal(policy: Policy, trace: seq<int>, k: nat, opt: seq<seq<int>>, other: seq<seq<int>>)
    requires 0 < k && FullHistory(OPT, trace, k, opt) && FullHistory(policy, trace, k, other)
    ensures Misses(trace, opt, |trace|) <= Misses(trace, other, |trace|)
  {
    EveryPolicyIsDemand(policy, trace, k, other, 0);
    OptFromHere(trace, k, opt, 0, Misses(trace, other, |trace|));
  }

  lemma OptIsBest(policy: Policy, trace: seq<int>, k: nat, h: seq<seq<int>>)
    requires 0 < k && FullHistory(policy, trace, k, h)
    ensures forall opt :: FullHistory(OPT, trace, k, opt) ==> Misses(trace, opt, |trace|) <= Misses(trace, h, |trace|)
  {
    forall opt | FullHistory(OPT, trace, k, opt) ensures Misses(trace, opt, |trace|) <= Misses(trace, h, |trace|) {
      OptIsOptimal(policy, trace, k, opt, h);
    }
  }

  // ----- LRU is a stack policy -----

  // The pages of trace[..i] in order of their last use: each access moves its page to the end.
  ghost function Recency(trace: seq<int>, i: nat): seq<int>
    requires i <= |trace|
  {
    if i == 0 then []
    else MoveToEnd(Recency(trace, i - 1), trace[i - 1])
  }

  // The last access to page among the first i, -1 if there is none.
  ghost function LastUse(trace: seq<int>, i: nat, page: int): (when: int)
    requires i <= |trace|
    ensures -1 <= when < i
  {
    if i == 0 then -1 else if trace[i - 1] == page then i - 1 else LastUse(trace, i - 1, page)
  }

  // Recency lists every page used so far exactly once, and in the order of the last uses.
  lemma {:induction false} RecencyOrder(trace: seq<int>, i: nat)
    requires i <= |trace|
    ensures var r := Recency(trace, i);
      && NoDup(r) && Members(r) == Members(trace[..i])
      && (forall x, y :: 0 <= x < y < |r| ==> LastUse(trace, i, r[x]) < LastUse(trace, i, r[y]))
  {
    if i > 0 {
      RecencyOrder(trace, i - 1);
      var r, n := Recency(trace, i - 1), trace[i - 1];
      assert trace[..i] == trace[..i - 1] + [n];
      assert Members(trace[..i]) == Members(trace[..i - 1]) + {n};
      RecencyStep(trace, i);
    }
  }

  // Where in r an entry of MoveToEnd(r, n) other than the last comes from.
  ghost function Origin(r: seq<int>, n: int, x: nat): (x': nat)
    requires NoDup(r) && x < |MoveToEnd(r, n)| - 1
    ensures x' < |r| && r[x'] == MoveToEnd(r, n)[x] && r[x'] != n && x <= x' <= x + 1
  {
    if n in r && IndexOf(r, n) <= x then x + 1 else x
  }

  lemma RecencyStep(trace: seq<int>, i: nat)
    requires 0 < i <= |trace|
    requires var r := Recency(trace, i - 1);
      NoDup(r) && forall x, y :: 0 <= x < y < |r| ==> LastUse(trace, i - 1, r[x]) < LastUse(trace, i - 1, r[y])
    ensures var r := Recency(trace, i);
      forall x, y :: 0 <= x < y < |r| ==> LastUse(trace, i, r[x]) < LastUse(trace, i, r[y])
  {
    var r, n := Recency(trace, i - 1), trace[i - 1];
    var r' := Recency(trace, i);
    forall x, y | 0 <= x < y < |r'| ensures LastUse(trace, i, r'[x]) < LastUse(trace, i, r'[y]) {
      var x' := Origin(r, n, x);
      if y < |r'| - 1 {
        var y' := Origin(r, n, y);
        assert x' < y';
      }
    }
  }

  // The last k entries of s, or all of them.
  function Last(s: seq<int>, k: nat): seq<int> {
    if |s| <= k then s else s[|s| - k..]
  }

  // Moving n to the end of r does to the tail of r what LRU does to its list.
  lemma LastOfMove(r: seq<int>, k: nat, n: int)
    requires NoDup(r) && 0 < k
    ensures var tail := Last(r, k);
      Last(MoveToEnd(r, n), k) ==
        if n in tail then MoveToEnd(tail, n) else if |tail| == k then RemoveAt(tail, 0) + [n] else tail + [n]
  {
    var tail := Last(r, k);
    var d := |r| - |tail|;
    assert forall j {:trigger tail[j]} :: 0 <= j < |tail| ==> tail[j] == r[d + j];
    if n in r {
      var at := IndexOf(r, n);
      if at >= d {
        assert tail[at - d] == n;
        LastAfterHit(r, k, at, n);
      } else {
        assert n !in tail;
        LastAfterMiss(r, k, at, n);
      }
    } else {
      assert n !in tail;
    }
  }

  lemma LastAfterHit(r: seq<int>, k: nat, at: nat, n: int)
    requires NoDup(r) && |r| - k <= at < |r| && r[at] == n
    ensures Last(RemoveAt(r, at) + [n], k) == MoveToEnd(Last(r, k), n)
  {
    var tail := Last(r, k);
    var d := |r| - |tail|;
    assert tail[at - d] == n;
    assert tail[IndexOf(tail, n)] == r[d + IndexOf(tail, n)];
    assert IndexOf(tail, n) == at - d;
    var left, right := Last(RemoveAt(r, at) + [n], k), RemoveAt(tail, at - d) + [n];
    assert |left| == |right|;
    forall j | 0 <= j < |left| ensures left[j] == right[j] {}
  }

  lemma LastAfterMiss(r: seq<int>, k: nat, at: nat, n: int)
    requires at < |r| - k && 0 < k
    ensures Last(RemoveAt(r, at) + [n], k) == RemoveAt(Last(r, k), 0) + [n]
  {
  }

  lemma {:induction false} LruKeepsTheMostRecent(trace: seq<int>, k: nat, h: seq<seq<int>>, i: nat)
    requires History(LRU, trace, k, h) && i < |h| && 0 < k
    ensures h[i] == Last(Recency(trace, i), k)
  {
    if i > 0 {
      LruKeepsTheMostRecent(trace, k, h, i - 1);
      RecencyOrder(trace, i - 1);
      LastOfMove(Recency(trace, i - 1), k, trace[i - 1]);
      LruServes(trace, k, i - 1, h[i - 1], h[i]);
    }
  }

  // What LRU does with its list.
  lemma LruServes(trace: seq<int>, k: nat, i: nat, memory: seq<int>, memory': seq<int>)
    requires i < |trace| && Serves(LRU, trace, k, i, memory, memory') && 0 < k
    ensures memory' ==
      if trace[i] in memory then MoveToEnd(memory, trace[i])
      else if |memory| == k then RemoveAt(memory, 0) + [trace[i]]
      else memory + [trace[i]]
  {
  }

  // ----- Which page FIFO, LRU and MRU evict -----

  // The last access among the first i that loaded the page, -1 if none did.
  ghost function LoadTime(trace: seq<int>, h: seq<seq<int>>, i: nat, page: int): (when: int)
    requires i <= |trace| && i <= |h|
    ensures -1 <= when < i
  {
    if i == 0 then -1
    else if trace[i - 1] == page && page !in h[i - 1] then i - 1
    else LoadTime(trace, h, i - 1, page)
  }

  // Unless hits move pages, the list has the pages in the order in which they were loaded.
  lemma {:induction false} LoadOrder(policy: Policy, trace: seq<int>, k: nat, h: seq<seq<int>>, i: nat)
    requires History(policy, trace, k, h) && i < |h| && 0 < k && !policy.LRU? && !policy.MRU?
    ensures forall x, y :: 0 <= x < y < |h[i]| ==> LoadTime(trace, h, i, h[i][x]) < LoadTime(trace, h, i, h[i][y])
  {
    if i > 0 {
      LoadOrder(policy, trace, k, h, i - 1);
      HistoryPages(policy, trace, k, h, i);
      assert Serves(policy, trace, k, i - 1, h[i - 1], h[i]);
      if trace[i - 1] !in h[i - 1] {
        KeptThenLoaded(policy, trace, k, i - 1, h[i - 1], h[i]);
        LoadedLast(trace, h, i);
      }
    }
  }

  // On a miss the list is what is kept of it, in its order, and then the new page.
  ghost predicate Kept(was: seq<int>, kept: seq<int>) {
    kept == was || exists idx: nat :: idx < |was| && kept == RemoveAt(was, idx)
  }

  lemma KeptThenLoaded(policy: Policy, trace: seq<int>, k: nat, i: nat, memory: seq<int>, memory': seq<int>)
    requires i < |trace| && Serves(policy, trace, k, i, memory, memory') && trace[i] !in memory
    ensures memory' != [] && memory'[|memory'| - 1] == trace[i] && Kept(memory, memory'[..|memory'| - 1])
  {
    if |memory| == k {
      var idx: nat :| IsVictim(policy, trace, i, memory, idx) && memory' == RemoveAt(memory, idx) + [trace[i]];
      assert memory'[..|memory'| - 1] == RemoveAt(memory, idx);
    } else {
      assert memory'[..|memory'| - 1] == memory;
    }
  }

  lemma LoadedLast(trace: seq<int>, h: seq<seq<int>>, i: nat)
    requires 0 < i <= |trace| && i < |h| && trace[i - 1] !in h[i - 1] && h[i] != []
    requires h[i][|h[i]| - 1] == trace[i - 1] && Kept(h[i - 1], h[i][..|h[i]| - 1])
    requires var was := h[i - 1];
      forall x, y :: 0 <= x < y < |was| ==> LoadTime(trace, h, i - 1, was[x]) < LoadTime(trace, h, i - 1, was[y])
    ensures forall x, y :: 0 <= x < y < |h[i]| ==> LoadTime(trace, h, i, h[i][x]) < LoadTime(trace, h, i, h[i][y])
  {
    var was, now := h[i - 1], h[i];
    var kept := now[..|now| - 1];
    forall x | 0 <= x < |kept|
      ensures kept[x] in was && LoadTime(trace, h, i, now[x]) == LoadTime(trace, h, i - 1, now[x])
    {
    }
    forall x, y | 0 <= x < y < |now| ensures LoadTime(trace, h, i, now[x]) < LoadTime(trace, h, i, now[y]) {
      if y < |kept| { StillInOrder(was, kept, x, y); }
    }
  }

  // Removing one entry keeps the order of the others.
  lemma StillInOrder(was: seq<int>, kept: seq<int>, x: nat, y: nat)
    requires x < y < |kept| && Kept(was, kept)
    ensures exists x', y' :: 0 <= x' < y' < |was| && was[x'] == kept[x] && was[y'] == kept[y]
  {
    if kept != was {
      var idx: nat :| idx < |was| && kept == RemoveAt(was, idx);
      var x', y' := if x < idx then x else x + 1, if y < idx then y else y + 1;
      assert was[x'] == kept[x] && was[y'] == kept[y];
    } else {
      assert was[x] == kept[x] && was[y] == kept[y];
    }
  }

  // Page v leaves, and all others stay.
  ghost predicate Evicted(memory: seq<int>, memory': seq<int>, v: int) {
    v in memory && forall p :: p in memory ==> (p in memory' <==> p != v)
  }

  lemma VictimLeaves(policy: Policy, trace: seq<int>, k: nat, h: seq<seq<int>>, i: nat) returns (idx: nat)
    requires FullHistory(policy, trace, k, h) && i < |trace| && 0 < k && trace[i] !in h[i] && |h[i]| == k
    ensures IsVictim(policy, trace, i, h[i], idx) && Evicted(h[i], h[i + 1], h[i][idx]) && NoDup(h[i])
  {
    HistoryPages(policy, trace, k, h, i);
    assert Serves(policy, trace, k, i, h[i], h[i + 1]);
    idx :| IsVictim(policy, trace, i, h[i], idx) && h[i + 1] == RemoveAt(h[i], idx) + [trace[i]];
    RemoveAtPages(h[i], idx);
    assert forall p :: p in h[i] <==> p in Members(h[i]);
    assert forall p :: p in RemoveAt(h[i], idx) <==> p in Members(RemoveAt(h[i], idx));
  }

  // FIFO evicts the page that was loaded first.
  lemma FifoVictim(trace: seq<int>, k: nat, h: seq<seq<int>>, i: nat) returns (v: int)
    requires FullHistory(FIFO, trace, k, h) && i < |trace| && 0 < k && trace[i] !in h[i] && |h[i]| == k
    ensures Evicted(h[i], h[i + 1], v)
    ensures forall p :: p in h[i] && p != v ==> LoadTime(trace, h, i, v) < LoadTime(trace, h, i, p)
  {
    var idx := VictimLeaves(FIFO, trace, k, h, i);
    v := h[i][idx];
    LoadOrder(FIFO, trace, k, h, i);
  }

  // LRU evicts the page that was used longest ago,
  lemma LruVictim(trace: seq<int>, k: nat, h: seq<seq<int>>, i: nat) returns (v: int)
    requires FullHistory(LRU, trace, k, h) && i < |trace| && 0 < k && trace[i] !in h[i] && |h[i]| == k
    ensures Evicted(h[i], h[i + 1], v)
    ensures forall p :: p in h[i] && p != v ==> LastUse(trace, i, v) < LastUse(trace, i, p)
  {
    var idx := VictimLeaves(LRU, trace, k, h, i);
    v := h[i][idx];
    LruKeepsTheMostRecent(trace, k, h, i);
    RecencyOrder(trace, i);
    var r := Recency(trace, i);
    assert forall x :: 0 <= x < k ==> h[i][x] == r[|r| - k + x];
  }

  // and MRU the one that was used last, which is there.
  lemma MruVictim(trace: seq<int>, k: nat, h: seq<seq<int>>, i: nat)
    requires FullHistory(MRU, trace, k, h) && i < |trace| && 0 < k && trace[i] !in h[i] && |h[i]| == k
    ensures i > 0 && Evicted(h[i], h[i + 1], trace[i - 1])
  {
    var idx := VictimLeaves(MRU, trace, k, h, i);
    assert Serves(MRU, trace, k, i - 1, h[i - 1], h[i]);
  }

  // At every moment the smaller LRU cache is the recently used end of the larger one.
  lemma LruInclusion(trace: seq<int>, k: nat, k': nat, h: seq<seq<int>>, h': seq<seq<int>>, i: nat)
    requires 0 < k <= k' && History(LRU, trace, k, h) && History(LRU, trace, k', h') && i < |h| && i < |h'|
    ensures h[i] == Last(h'[i], k)
  {
    LruKeepsTheMostRecent(trace, k, h, i);
    LruKeepsTheMostRecent(trace, k', h', i);
  }

  lemma {:induction false} LruLargerCacheMissesLess(
      trace: seq<int>, k: nat, k': nat, h: seq<seq<int>>, h': seq<seq<int>>, i: nat)
    requires 0 < k <= k' && History(LRU, trace, k, h) && History(LRU, trace, k', h')
    requires i < |h| && i < |h'|
    ensures Misses(trace, h', i) <= Misses(trace, h, i)
  {
    if i > 0 {
      LruLargerCacheMissesLess(trace, k, k', h, h', i - 1);
      LruInclusion(trace, k, k', h, h', i - 1);
    }
  }

  // ----- The loop itself -----

  // The OPT branch: scan the cache for the page whose next use is furthest away.
  method FindFurthest(addrList: seq<int>, addrIndex: nat, memory: seq<int>) returns (replaceIdx: nat)
    requires addrIndex < |addrList| && memory != []
    ensures IsVictim(OPT, addrList, addrIndex, memory, replaceIdx)
  {
    var maxReplace: int := -1;
    replaceIdx := 0;
    for pageIndex := 0 to |memory|
      invariant pageIndex > 0 ==>
        replaceIdx < pageIndex && maxReplace == NextUse(addrList, addrIndex + 1, memory[replaceIdx])
      invariant forall j :: 0 <= j < pageIndex ==>
        NextUse(addrList, addrIndex + 1, memory[j]) + (if j > replaceIdx then 1 else 0) <= maxReplace
      invariant pageIndex == 0 ==> maxReplace == -1
    {
      var whenReferenced := WhenReferenced(addrList, addrIndex, memory[pageIndex]);
      if whenReferenced >= maxReplace {
        replaceIdx := pageIndex;
        maxReplace := whenReferenced;
      }
    }
  }

  // The UNOPT branch: the page whose next use is nearest.
  method FindNearest(addrList: seq<int>, addrIndex: nat, memory: seq<int>) returns (replaceIdx: nat)
    requires addrIndex < |addrList| && memory != []
    ensures IsVictim(UNOPT, addrList, addrIndex, memory, replaceIdx)
  {
    var minReplace := |addrList| + 1;
    replaceIdx := 0;
    for pageIndex := 0 to |memory|
      invariant pageIndex > 0 ==>
        replaceIdx < pageIndex && minReplace == NextUse(addrList, addrIndex + 1, memory[replaceIdx])
      invariant forall j :: 0 <= j < pageIndex ==>
        minReplace + (if j < replaceIdx then 1 else 0) <= NextUse(addrList, addrIndex + 1, memory[j])
      invariant pageIndex == 0 ==> minReplace == |addrList| + 1
    {
      var whenReferenced := WhenReferenced(addrList, addrIndex, memory[pageIndex]);
      if whenReferenced < minReplace {
        replaceIdx := pageIndex;
        minReplace := whenReferenced;
      }
    }
  }

  // The inner loop of both branches.
  method WhenReferenced(addrList: seq<int>, addrIndex: nat, page: int) returns (whenReferenced: nat)
    requires addrIndex < |addrList|
    ensures whenReferenced == NextUse(addrList, addrIndex + 1, page)
  {
    whenReferenced := |addrList|;
    for futureIdx := addrIndex + 1 to |addrList|
      invariant whenReferenced == |addrList|
      invariant NextUse(addrList, addrIndex + 1, page) >= futureIdx
    {
      if page == addrList[futureIdx] {
        whenReferenced := futureIdx;
        break;
      }
    }
  }

  // The reference counts that the clock can still use up.
  ghost function Charge(memory: seq<int>, ref: map<int, int>): nat {
    if memory == [] then 0
    else (if memory[0] in ref && ref[memory[0]] > 0 then ref[memory[0]] else 0) + Charge(memory[1..], ref)
  }

  lemma {:induction false} ChargeDrops(memory: seq<int>, ref: map<int, int>, page: int)
    requires page in ref && ref[page] >= 1
    ensures Charge(memory, ref[page := ref[page] - 1]) <= Charge(memory, ref)
    ensures page in memory ==> Charge(memory, ref[page := ref[page] - 1]) < Charge(memory, ref)
  {
    if memory != [] {
      ChargeDrops(memory[1..], ref, page);
    }
  }

  // The reference counts after the clock has looked at some positions: one less for each look.
  ghost function AfterLooks(memory: seq<int>, ref: map<int, int>, looks: seq<nat>): map<int, int> {
    if looks == [] then ref
    else
      var before, last := AfterLooks(memory, ref, looks[..|looks| - 1]), looks[|looks| - 1];
      if last < |memory| && memory[last] in before then before[memory[last] := before[memory[last]] - 1] else before
  }

  // The clock goes past pages that have a count left and stops at one that has none, which it forgets.
  ghost predicate ClockStops(memory: seq<int>, ref: map<int, int>, looks: seq<nat>, idx: nat, ref': map<int, int>) {
    && (forall i :: 0 <= i < |looks| ==> GoesPast(memory, ref, looks, i))
    && idx < |memory| && memory[idx] in AfterLooks(memory, ref, looks)
    && AfterLooks(memory, ref, looks)[memory[idx]] < 1
    && ref' == AfterLooks(memory, ref, looks) - {memory[idx]}
  }

  ghost predicate GoesPast(memory: seq<int>, ref: map<int, int>, looks: seq<nat>, i: nat)
    requires i < |looks|
  {
    var before := AfterLooks(memory, ref, looks[..i]);
    looks[i] < |memory| && memory[looks[i]] in before && before[memory[looks[i]]] >= 1
  }

  lemma {:induction false} LookOnce(memory: seq<int>, ref: map<int, int>, looks: seq<nat>, idx: nat)
    requires forall i :: 0 <= i < |looks| ==> GoesPast(memory, ref, looks, i)
    requires idx < |memory| && memory[idx] in AfterLooks(memory, ref, looks)
    requires AfterLooks(memory, ref, looks)[memory[idx]] >= 1
    ensures forall i :: 0 <= i < |looks + [idx]| ==> GoesPast(memory, ref, looks + [idx], i)
    ensures AfterLooks(memory, ref, looks + [idx])
      == AfterLooks(memory, ref, looks)[memory[idx] := AfterLooks(memory, ref, looks)[memory[idx]] - 1]
  {
    var looks' := looks + [idx];
    assert looks'[..|looks|] == looks;
    forall i | 0 <= i < |looks'| ensures GoesPast(memory, ref, looks', i) {
      if i < |looks| {
        assert looks'[..i] == looks[..i] && GoesPast(memory, ref, looks, i);
      }
    }
  }

  // The CLOCK branch: look at pages at random, using up one reference count a look, until one has none
  // left. However the pages are drawn, the counts run out, so the loop ends.
  method ScanClock(memory: seq<int>, ref: map<int, int>) returns (idx: nat, ref': map<int, int>, ghost looks: seq<nat>)
    requires memory != [] && forall p :: p in memory ==> p in ref
    ensures ClockStops(memory, ref, looks, idx, ref')
    ensures idx < |memory| && ref'.Keys == ref.Keys - {memory[idx]}
  {
    ref', looks := ref, [];
    while true
      invariant ref'.Keys == ref.Keys && ref' == AfterLooks(memory, ref, looks)
      invariant forall i :: 0 <= i < |looks| ==> GoesPast(memory, ref, looks, i)
      decreases Charge(memory, ref')
    {
      idx :| 0 <= idx < |memory|;
      var page := memory[idx];
      assert page in memory;
      if ref'[page] >= 1 {
        ChargeDrops(memory, ref', page);
        LookOnce(memory, ref, looks, idx);
        looks := looks + [idx];
        ref' := ref'[page := ref'[page] - 1];
      } else {
        ref' := ref' - {page};
        return;
      }
    }
  }

  // The full-cache branch: drop the victim from memory (and, under CLOCK, from ref).
  method Evict(policy: Policy, addrList: seq<int>, addrIndex: nat, memory: seq<int>, ref: map<int, int>)
    returns (memory': seq<int>, ref': map<int, int>, victim: nat, ghost looks: seq<nat>)
    requires addrIndex < |addrList| && memory != [] && NoDup(memory) && forall p :: p in memory ==> p in ref
    ensures IsVictim(policy, addrList, addrIndex, memory, victim) && memory' == RemoveAt(memory, victim)
    ensures forall p :: p in memory' ==> p in ref'
    ensures if policy == CLOCK then ClockStops(memory, ref, looks, victim, ref') else ref' == ref
  {
    ref', looks := ref, [];
    match policy {
      case FIFO => victim := 0;
      case LRU => victim := 0;
      case MRU => victim := |memory| - 1;
      case RAND => victim :| 0 <= victim < |memory|;
      case CLOCK => victim, ref', looks := ScanClock(memory, ref);
      case OPT => victim := FindFurthest(addrList, addrIndex, memory);
      case UNOPT => victim := FindNearest(addrList, addrIndex, memory);
    }
    memory' := RemoveAt(memory, victim);
    RemoveAtPages(memory, victim);
    assert forall p :: p in memory' ==> p in Members(memory');
  }

  // The reference counts after a reference to page n.
  function Counted(ref: map<int, int>, n: int, clockbits: int): map<int, int> {
    ref[n := if n !in ref then 1 else if ref[n] + 1 > clockbits then clockbits else ref[n] + 1]
  }

  // One turn of the loop: look the page up, replace if need be, then count the reference.
  method Access(policy: Policy, addrList: seq<int>, cachesize: nat, clockbits: int, addrIndex: nat,
                memory: seq<int>, ref: map<int, int>, count: nat)
    returns (memory': seq<int>, ref': map<int, int>, count': nat, hit: bool, ghost victim: nat, ghost looks: seq<nat>)
    requires addrIndex < |addrList| && 0 < cachesize
    requires NoDup(memory) && |memory| <= cachesize && count == |memory| && forall p :: p in memory ==> p in ref
    ensures Serves(policy, addrList, cachesize, addrIndex, memory, memory')
    ensures hit <==> addrList[addrIndex] in memory
    ensures count' == |memory'| && forall p :: p in memory' ==> p in ref'
    ensures policy != CLOCK || hit || count < cachesize ==> ref' == Counted(ref, addrList[addrIndex], clockbits)
    ensures policy == CLOCK && !hit && count == cachesize ==>
      && victim < |memory| && memory' == RemoveAt(memory, victim) + [addrList[addrIndex]]
      && exists mid ::
          ClockStops(memory, ref, looks, victim, mid) && ref' == Counted(mid, addrList[addrIndex], clockbits)
  {
    memory', ref', count', victim, looks := memory, ref, count, 0, [];
    var n := addrList[addrIndex];
    var idx := IndexOf(memory, n);
    hit := idx != -1;
    if hit {
      if policy == LRU || policy == MRU {
        memory' := RemoveAt(memory, idx);
        memory' := memory' + [n];
      }
    } else {
      if count == cachesize {
        memory', ref', victim, looks := Evict(policy, addrList, addrIndex, memory, ref);
      } else {
        count' := count + 1;
      }
      memory' := memory' + [n];
    }
    ref' := CountReference(ref', n, clockbits);
  }

  // One more reference to page n.
  method CountReference(ref: map<int, int>, n: int, clockbits: int) returns (ref': map<int, int>)
    ensures ref' == Counted(ref, n, clockbits)
  {
    ref' := ref;
    if n !in ref' {
      ref' := ref'[n := 1];
    } else {
      ref' := ref'[n := ref'[n] + 1];
      if ref'[n] > clockbits {
        ref' := ref'[n := clockbits];
      }
    }
  }

  // memory, hits and miss after the whole address list. The ghost list h records memory after each access.
  method Solve(policy: Policy, addrList: seq<int>, cachesize: nat, clockbits: int)
    returns (memory: seq<int>, hits: nat, miss: nat, ghost h: seq<seq<int>>)
    requires cachesize > 0
    ensures FullHistory(policy, addrList, cachesize, h) && memory == h[|addrList|]
    ensures miss == Misses(addrList, h, |addrList|) && hits + miss == |addrList|
    ensures NoDup(memory) && |memory| <= cachesize
    ensures forall opt :: FullHistory(OPT, addrList, cachesize, opt) ==> Misses(addrList, opt, |addrList|) <= miss
    ensures policy == LRU ==> memory == Last(Recency(addrList, |addrList|), cachesize)
  {
    var count := 0;
    memory, hits, miss := [], 0, 0;
    h := [[]];
    var ref: map<int, int> := map[];
    for addrIndex := 0 to |addrList|
      invariant |h| == addrIndex + 1 && History(policy, addrList, cachesize, h) && memory == h[addrIndex]
      invariant count == |memory| && miss == Misses(addrList, h, addrIndex) && hits + miss == addrIndex
      invariant forall p :: p in memory ==> p in ref
    {
      HistoryPages(policy, addrList, cachesize, h, addrIndex);
      var hit;
      ghost var victim, looks;
      memory, ref, count, hit, victim, looks :=
        Access(policy, addrList, cachesize, clockbits, addrIndex, memory, ref, count);
      if hit { hits := hits + 1; } else { miss := miss + 1; }
      MissesExtend(addrList, h, h + [memory], addrIndex);
      h := h + [memory];
    }
    HistoryPages(policy, addrList, cachesize, h, |addrList|);
    OptIsBest(policy, addrList, cachesize, h);
    if policy == LRU {
      LruKeepsTheMostRecent(addrList, cachesize, h, |addrList|);
    }
  }
}
