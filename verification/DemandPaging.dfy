// What a demand-paging policy can achieve on a trace, whatever victims it picks, and the exchange
// argument: the victim to evict is a page whose next use is furthest away.
module DemandPaging {

  // Starting with the pages M in a cache of k frames, some choice of victims serves trace[i..] with at
  // most m misses. A demand policy loads the missing page, and evicts one page if the cache is full.
  ghost predicate Within(k: nat, trace: seq<int>, i: nat, M: set<int>, m: nat)
    requires i <= |trace|
    decreases |trace| - i, 1
  {
    i == |trace| ||
    var a := trace[i];
    if a in M then Within(k, trace, i + 1, M, m)
    else
      m > 0 &&
      if |M| < k then Within(k, trace, i + 1, M + {a}, m - 1)
      else exists v :: Evicting(k, trace, i, M, v, m)
  }

  // Likewise if the page evicted for trace[i] is v.
  ghost predicate Evicting(k: nat, trace: seq<int>, i: nat, M: set<int>, v: int, m: nat)
    requires i < |trace|
    decreases |trace| - i, 0
  {
    v in M && m > 0 && Within(k, trace, i + 1, Replace(M, v, trace[i]), m - 1)
  }

  function Replace(M: set<int>, v: int, a: int): set<int> {
    M - {v} + {a}
  }

  // When page is referenced next, at or after i; |trace| if never.
  function NextUse(trace: seq<int>, i: nat, page: int): (when: nat)
    requires i <= |trace|
    ensures i <= when <= |trace|
    ensures when < |trace| ==> trace[when] == page
    ensures forall j :: i <= j < when ==> trace[j] != page
    decreases |trace| - i
  {
    if i == |trace| then i else if trace[i] == page then i else NextUse(trace, i + 1, page)
  }

  lemma {:induction false} WithinMore(k: nat, trace: seq<int>, i: nat, M: set<int>, m: nat, m': nat)
    requires i <= |trace| && m <= m' && Within(k, trace, i, M, m)
    ensures Within(k, trace, i, M, m')
    decreases |trace| - i
  {
    if i < |trace| {
      var a := trace[i];
      if a in M {
        WithinMore(k, trace, i + 1, M, m, m');
      } else if |M| < k {
        WithinMore(k, trace, i + 1, M + {a}, m - 1, m' - 1);
      } else {
        var v :| Evicting(k, trace, i, M, v, m);
        WithinMore(k, trace, i + 1, Replace(M, v, a), m - 1, m' - 1);
        assert Evicting(k, trace, i, M, v, m');
      }
    }
  }

  // A is B with p in place of q.
  ghost predicate Swapped(A: set<int>, B: set<int>, p: int, q: int) {
    p in A && q in B && p !in B && q !in A && A - {p} == B - {q}
  }

  lemma SwappedSize(A: set<int>, B: set<int>, p: int, q: int)
    requires Swapped(A, B, p, q)
    ensures |A| == |B|
    ensures forall a :: a != p && a != q ==> (a in A <==> a in B)
  {
    assert |A - {p}| == |A| - 1 && |B - {q}| == |B| - 1;
    assert forall a :: a != p ==> (a in A <==> a in A - {p});
    assert forall a :: a != q ==> (a in B <==> a in B - {q});
  }

  // Both caches load a, A evicting v or p for it, B evicting v.
  lemma SwappedReplace(A: set<int>, B: set<int>, p: int, q: int, v: int, a: int)
    requires Swapped(A, B, p, q) && v in B && a !in B && a != p
    ensures v == q ==> Replace(A, p, a) == Replace(B, v, a)
    ensures v != q ==> v in A && Swapped(Replace(A, v, a), Replace(B, v, a), p, q)
  {
    assert forall x :: x in A && x != p <==> x in A - {p};
    assert forall x :: x in B && x != q <==> x in B - {q};
    if v == q {
      assert Replace(A, p, a) == Replace(B, v, a);
    } else {
      assert Replace(A, v, a) - {p} == Replace(B, v, a) - {q};
    }
  }

  // B loads p, which A has, evicting v.
  lemma SwappedCatchUp(A: set<int>, B: set<int>, p: int, q: int, v: int)
    requires Swapped(A, B, p, q) && v in B
    ensures v == q ==> A == Replace(B, v, p)
    ensures v != q ==> Swapped(A, Replace(B, v, p), v, q)
  {
    assert forall x :: x in A && x != p <==> x in A - {p};
    assert forall x :: x in B && x != q <==> x in B - {q};
    if v == q {
      assert A == Replace(B, v, p);
    } else {
      assert A - {v} == Replace(B, v, p) - {q};
    }
  }

  lemma SwappedLoad(A: set<int>, B: set<int>, p: int, q: int, a: int)
    requires Swapped(A, B, p, q) && a !in B
    ensures a != p ==> Swapped(A + {a}, B + {a}, p, q)
    ensures a == p ==> q !in A && B + {a} == A + {q}
  {
    assert forall x :: x in A && x != p <==> x in A - {p};
    assert forall x :: x in B && x != q <==> x in B - {q};
    if a != p {
      assert A + {a} - {p} == B + {a} - {q};
    } else {
      assert B + {a} == A + {q};
    }
  }

  // Having p cached in place of q costs at most one miss.
  lemma {:induction false} SwapCostsOne(
      k: nat, trace: seq<int>, i: nat, A: set<int>, B: set<int>, p: int, q: int, m: nat)
    requires i <= |trace| && Swapped(A, B, p, q) && |B| <= k
    requires Within(k, trace, i, B, m)
    ensures Within(k, trace, i, A, m + 1)
    decreases |trace| - i
  {
    SwappedSize(A, B, p, q);
    if i < |trace| {
      var a := trace[i];
      if a == q {
        if |A| < k {
          SwappedLoad(B, A, q, p, q);
          GainedPage(k, trace, i + 1, B, p, m);
        } else {
          SwappedCatchUp(B, A, q, p, p);
          assert Evicting(k, trace, i, A, p, m + 1);
        }
      } else if a in B {
        SwapCostsOne(k, trace, i + 1, A, B, p, q, m);
      } else if |B| < k {
        SwappedLoad(A, B, p, q, a);
        if a == p {
          MissingCostsOne(k, trace, i + 1, A, q, m - 1);
          WithinMore(k, trace, i + 1, A, m, m + 1);
        } else {
          SwapCostsOne(k, trace, i + 1, A + {a}, B + {a}, p, q, m - 1);
        }
      } else {
        var v :| Evicting(k, trace, i, B, v, m);
        if a == p {
          CaughtUp(k, trace, i, A, B, p, q, v, m);
          WithinMore(k, trace, i + 1, A, m, m + 1);
        } else {
          BothEvict(k, trace, i, A, B, p, q, v, m);
        }
      }
    }
  }

  // When both miss, A evicts what B evicts, or p if that is q.
  lemma {:induction false} BothEvict(
      k: nat, trace: seq<int>, i: nat, A: set<int>, B: set<int>, p: int, q: int, v: int, m: nat)
    requires i < |trace| && Swapped(A, B, p, q) && |B| <= k && trace[i] !in B && trace[i] != p
    requires Evicting(k, trace, i, B, v, m)
    ensures Evicting(k, trace, i, A, if v == q then p else v, m + 1)
    decreases |trace| - i, 0
  {
    var a := trace[i];
    SwappedReplace(A, B, p, q, v, a);
    SwappedSize(A, B, p, q);
    if v == q {
      WithinMore(k, trace, i + 1, Replace(A, p, a), m - 1, m);
    } else {
      assert |Replace(B, v, a)| == |B - {v}| + 1;
      SwapCostsOne(k, trace, i + 1, Replace(A, v, a), Replace(B, v, a), p, q, m - 1);
    }
  }

  // When B misses on p, which A has, A is level with it.
  lemma {:induction false} CaughtUp(
      k: nat, trace: seq<int>, i: nat, A: set<int>, B: set<int>, p: int, q: int, v: int, m: nat)
    requires i < |trace| && Swapped(A, B, p, q) && |B| <= k && trace[i] == p
    requires Evicting(k, trace, i, B, v, m)
    ensures Within(k, trace, i + 1, A, m)
    decreases |trace| - i, 0
  {
    SwappedCatchUp(A, B, p, q, v);
    SwappedSize(A, B, p, q);
    if v == q {
      WithinMore(k, trace, i + 1, A, m - 1, m);
    } else {
      SwappedSize(A, Replace(B, v, p), v, q);
      SwapCostsOne(k, trace, i + 1, A, Replace(B, v, p), v, q, m - 1);
    }
  }

  // Not having q cached costs at most one miss.
  lemma {:induction false} MissingCostsOne(k: nat, trace: seq<int>, i: nat, A: set<int>, q: int, m: nat)
    requires i <= |trace| && q !in A && |A| < k
    requires Within(k, trace, i, A + {q}, m)
    ensures Within(k, trace, i, A, m + 1)
    decreases |trace| - i
  {
    if i < |trace| {
      var a := trace[i];
      var B := A + {q};
      if a in A {
        MissingCostsOne(k, trace, i + 1, A, q, m);
      } else if a != q {
        if |B| < k {
          assert B + {a} == A + {a} + {q};
          MissingCostsOne(k, trace, i + 1, A + {a}, q, m - 1);
        } else {
          var v :| Evicting(k, trace, i, B, v, m);
          if v == q {
            assert Replace(B, v, a) == A + {a};
            WithinMore(k, trace, i + 1, A + {a}, m - 1, m);
          } else {
            assert A + {a} - {v} == Replace(B, v, a) - {q};
            SwappedSize(A + {a}, Replace(B, v, a), v, q);
            SwapCostsOne(k, trace, i + 1, A + {a}, Replace(B, v, a), v, q, m - 1);
          }
        }
      }
    }
  }

  // An extra cached page never hurts.
  lemma {:induction false} GainedPage(k: nat, trace: seq<int>, i: nat, A: set<int>, p: int, m: nat)
    requires i <= |trace| && p !in A && |A| < k
    requires Within(k, trace, i, A, m)
    ensures Within(k, trace, i, A + {p}, m)
    decreases |trace| - i
  {
    if i < |trace| {
      var a := trace[i];
      if a in A {
        GainedPage(k, trace, i + 1, A, p, m);
      } else if a == p {
        WithinMore(k, trace, i + 1, A + {p}, m - 1, m);
      } else if |A + {p}| < k {
        assert A + {p} + {a} == A + {a} + {p};
        GainedPage(k, trace, i + 1, A + {a}, p, m - 1);
      } else {
        assert Replace(A + {p}, p, a) == A + {a};
        assert Evicting(k, trace, i, A + {p}, p, m);
      }
    }
  }

  // The exchange argument: a cached page that is used no later is worth at least as much.
  lemma {:induction false} SoonerIsBetter(
      k: nat, trace: seq<int>, i: nat, A: set<int>, B: set<int>, p: int, q: int, m: nat)
    requires i <= |trace| && Swapped(A, B, p, q) && |B| <= k
    requires NextUse(trace, i, p) <= NextUse(trace, i, q)
    requires Within(k, trace, i, B, m)
    ensures Within(k, trace, i, A, m)
    decreases |trace| - i
  {
    SwappedSize(A, B, p, q);
    if i < |trace| {
      var a := trace[i];
      assert a != q;
      if a in B {
        SoonerIsBetter(k, trace, i + 1, A, B, p, q, m);
      } else if |B| < k {
        SwappedLoad(A, B, p, q, a);
        if a == p {
          MissingCostsOne(k, trace, i + 1, A, q, m - 1);
        } else {
          SoonerIsBetter(k, trace, i + 1, A + {a}, B + {a}, p, q, m - 1);
        }
      } else {
        var v :| Evicting(k, trace, i, B, v, m);
        if a == p {
          CaughtUp(k, trace, i, A, B, p, q, v, m);
        } else {
          BothEvictSooner(k, trace, i, A, B, p, q, v, m);
        }
      }
    }
  }

  lemma {:induction false} BothEvictSooner(
      k: nat, trace: seq<int>, i: nat, A: set<int>, B: set<int>, p: int, q: int, v: int, m: nat)
    requires i < |trace| && Swapped(A, B, p, q) && |B| <= k && trace[i] !in B && trace[i] != p
    requires NextUse(trace, i, p) <= NextUse(trace, i, q)
    requires Evicting(k, trace, i, B, v, m)
    ensures Evicting(k, trace, i, A, if v == q then p else v, m)
    decreases |trace| - i, 0
  {
    var a := trace[i];
    SwappedReplace(A, B, p, q, v, a);
    SwappedSize(A, B, p, q);
    if v != q {
      assert |Replace(B, v, a)| == |B - {v}| + 1;
      SoonerIsBetter(k, trace, i + 1, Replace(A, v, a), Replace(B, v, a), p, q, m - 1);
    }
  }

  // Evicting a page whose next use is furthest away loses nothing against any other victim.
  lemma FurthestIsBest(k: nat, trace: seq<int>, i: nat, M: set<int>, w: int, m: nat)
    requires i < |trace| && trace[i] !in M && |M| == k && w in M
    requires forall v :: v in M ==> NextUse(trace, i + 1, v) <= NextUse(trace, i + 1, w)
    requires Within(k, trace, i, M, m)
    ensures Evicting(k, trace, i, M, w, m)
  {
    var a := trace[i];
    var v :| Evicting(k, trace, i, M, v, m);
    if v != w {
      var A, B := Replace(M, w, a), Replace(M, v, a);
      assert A - {v} == B - {w};
      assert |B| == |M - {v}| + 1 == |M|;
      SoonerIsBetter(k, trace, i + 1, A, B, v, w, m - 1);
    }
  }
}
