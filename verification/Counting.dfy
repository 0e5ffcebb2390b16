// Counting and summing over a sequence of threads, and what one changed entry does to the result.
module Counting {

  // The number of entries of s that satisfy p.
  ghost function Count<T>(p: T -> bool, s: seq<T>): (n: nat)
    ensures n <= |s|
  {
    if s == [] then 0 else (if p(s[0]) then 1 else 0) + Count(p, s[1..])
  }

  lemma {:induction false} CountUpdate<T>(p: T -> bool, s: seq<T>, i: nat, v: T)
    requires i < |s|
    ensures Count(p, s[i := v]) == Count(p, s) - (if p(s[i]) then 1 else 0) + (if p(v) then 1 else 0)
  {
    if i > 0 {
      assert s[i := v][1..] == s[1..][i - 1 := v];
      CountUpdate(p, s[1..], i - 1, v);
    } else {
      assert s[0 := v][1..] == s[1..];
    }
  }

  lemma {:induction false} CountZero<T>(p: T -> bool, s: seq<T>)
    ensures Count(p, s) == 0 <==> forall k :: 0 <= k < |s| ==> !p(s[k])
  {
    if s != [] {
      CountZero(p, s[1..]);
      assert forall k :: 0 < k < |s| ==> s[k] == s[1..][k - 1];
    }
  }

  lemma {:induction false} CountTwo<T>(p: T -> bool, s: seq<T>, i: nat, j: nat)
    requires i < j < |s| && p(s[i]) && p(s[j])
    ensures Count(p, s) >= 2
  {
    if i == 0 {
      assert s[1..][j - 1] == s[j];
      CountZero(p, s[1..]);
    } else {
      CountTwo(p, s[1..], i - 1, j - 1);
    }
  }

  // A region occupied at most once is occupied by one thread.
  lemma AtMostOne<T>(p: T -> bool, s: seq<T>, i: nat)
    requires i < |s| && p(s[i]) && Count(p, s) <= 1
    ensures forall j :: 0 <= j < |s| && j != i ==> !p(s[j])
  {
    forall j | 0 <= j < |s| && j != i ensures !p(s[j]) {
      if p(s[j]) {
        if i < j { CountTwo(p, s, i, j); } else { CountTwo(p, s, j, i); }
      }
    }
  }

  lemma {:induction false} CountAll<T>(p: T -> bool, s: seq<T>)
    ensures Count(p, s) == |s| <==> forall k :: 0 <= k < |s| ==> p(s[k])
  {
    if s != [] {
      CountAll(p, s[1..]);
      assert forall k :: 0 < k < |s| ==> s[k] == s[1..][k - 1];
    }
  }

  lemma {:induction false} CountAppend<T>(p: T -> bool, s: seq<T>, t: seq<T>)
    ensures Count(p, s + t) == Count(p, s) + Count(p, t)
  {
    if s == [] {
      assert s + t == t;
    } else {
      assert (s + t)[1..] == s[1..] + t;
      CountAppend(p, s[1..], t);
    }
  }

  lemma {:induction false} CountMonotone<T>(p: T -> bool, q: T -> bool, s: seq<T>)
    requires forall k :: 0 <= k < |s| && p(s[k]) ==> q(s[k])
    ensures Count(p, s) <= Count(q, s)
  {
    if s != [] {
      assert p(s[0]) ==> q(s[0]);
      assert forall k :: 0 <= k < |s[1..]| ==> s[1..][k] == s[k + 1];
      CountMonotone(p, q, s[1..]);
    }
  }

  // One if b holds, and otherwise zero.
  function B(b: bool): nat { if b then 1 else 0 }

  // The sum of f over the entries of s.
  ghost function Sum<T>(f: T -> int, s: seq<T>): int {
    if s == [] then 0 else f(s[0]) + Sum(f, s[1..])
  }

  lemma {:induction false} SumUpdate<T>(f: T -> int, s: seq<T>, i: nat, v: T)
    requires i < |s|
    ensures Sum(f, s[i := v]) == Sum(f, s) - f(s[i]) + f(v)
  {
    if i > 0 {
      assert s[i := v][1..] == s[1..][i - 1 := v];
      SumUpdate(f, s[1..], i - 1, v);
    } else {
      assert s[0 := v][1..] == s[1..];
    }
  }

  lemma {:induction false} SumAppend<T>(f: T -> int, s: seq<T>, t: seq<T>)
    ensures Sum(f, s + t) == Sum(f, s) + Sum(f, t)
  {
    if s == [] {
      assert s + t == t;
    } else {
      assert (s + t)[1..] == s[1..] + t;
      SumAppend(f, s[1..], t);
    }
  }

  lemma {:induction false} SumNonNegative<T>(f: T -> int, s: seq<T>)
    requires forall k :: 0 <= k < |s| ==> f(s[k]) >= 0
    ensures Sum(f, s) >= 0
    ensures forall k :: 0 <= k < |s| ==> f(s[k]) <= Sum(f, s)
  {
    if s != [] {
      assert forall k :: 0 <= k < |s[1..]| ==> s[1..][k] == s[k + 1];
      SumNonNegative(f, s[1..]);
      assert forall k :: 0 < k < |s| ==> s[k] == s[1..][k - 1];
    }
  }

  lemma {:induction false} SumZero<T>(f: T -> int, s: seq<T>)
    requires forall k :: 0 <= k < |s| ==> f(s[k]) == 0
    ensures Sum(f, s) == 0
  {
    if s != [] {
      assert forall k :: 0 <= k < |s[1..]| ==> s[1..][k] == s[k + 1];
      SumZero(f, s[1..]);
    }
  }

  // Exactly the entries from lo to hi satisfy p.
  lemma {:induction false} CountRange<T>(p: T -> bool, s: seq<T>, lo: nat, hi: nat)
    requires lo <= hi <= |s| && forall k :: 0 <= k < |s| ==> (p(s[k]) <==> lo <= k < hi)
    ensures Count(p, s) == hi - lo
  {
    assert s == s[..lo] + (s[lo..hi] + s[hi..]);
    CountZero(p, s[..lo]);
    CountAll(p, s[lo..hi]);
    CountZero(p, s[hi..]);
    CountAppend(p, s[lo..hi], s[hi..]);
    CountAppend(p, s[..lo], s[lo..hi] + s[hi..]);
  }

  lemma {:induction false} SumAtMost<T>(f: T -> int, s: seq<T>, bound: int)
    requires forall k :: 0 <= k < |s| ==> f(s[k]) <= bound
    ensures Sum(f, s) <= |s| * bound
  {
    if s != [] {
      assert forall k :: 0 <= k < |s[1..]| ==> s[1..][k] == s[k + 1];
      SumAtMost(f, s[1..], bound);
      assert |s| * bound == (|s| - 1) * bound + bound;
    }
  }

  lemma {:induction false} SumSame<T>(f: T -> int, s: seq<T>, value: int)
    requires forall k :: 0 <= k < |s| ==> f(s[k]) == value
    ensures Sum(f, s) == |s| * value
  {
    if s != [] {
      assert forall k :: 0 <= k < |s[1..]| ==> s[1..][k] == s[k + 1];
      SumSame(f, s[1..], value);
      assert |s| * value == (|s| - 1) * value + value;
    }
  }

  lemma {:induction false} SumLess<T>(f: T -> int, g: T -> int, s: seq<T>)
    requires forall k :: 0 <= k < |s| ==> f(s[k]) <= g(s[k])
    ensures Sum(f, s) <= Sum(g, s)
  {
    if s != [] {
      assert f(s[0]) <= g(s[0]);
      assert forall k :: 0 <= k < |s[1..]| ==> s[1..][k] == s[k + 1];
      SumLess(f, g, s[1..]);
    }
  }

  // Sums of two sequences compared entry by entry.
  lemma {:induction false} SumBelow<T>(f: T -> int, g: T -> int, s: seq<T>, t: seq<T>)
    requires |s| == |t| && forall k :: 0 <= k < |s| ==> f(s[k]) <= g(t[k])
    ensures Sum(f, s) <= Sum(g, t)
    ensures (exists k :: 0 <= k < |s| && f(s[k]) < g(t[k])) ==> Sum(f, s) < Sum(g, t)
  {
    if s != [] {
      SumBelow(f, g, s[1..], t[1..]);
      if k :| 0 <= k < |s| && f(s[k]) < g(t[k]) {
        assert k > 0 ==> s[1..][k - 1] == s[k] && t[1..][k - 1] == t[k];
      }
    }
  }
}
