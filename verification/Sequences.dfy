// What several of the programs need to say about lists.
module Sequences {
  // No entry twice, the set of the entries, and the letters that processes are named with.

  ghost predicate NoDup<T>(s: seq<T>) {
    forall i, j :: 0 <= i < j < |s| ==> s[i] != s[j]
  }

  ghost function Members<T>(s: seq<T>): set<T> {
    set x | x in s
  }

  lemma {:induction false} MembersSize<T>(s: seq<T>)
    requires NoDup(s)
    ensures |Members(s)| == |s|
  {
    if s != [] {
      var init, last := s[..|s| - 1], s[|s| - 1];
      MembersSize(init);
      assert s == init + [last] && last !in Members(init);
      assert Members(s) == Members(init) + {last};
    }
  }

  lemma {:induction false} NoDupAppend<T>(s: seq<T>, u: seq<T>)
    requires NoDup(s) && NoDup(u) && forall y :: y in s ==> y !in u
    ensures NoDup(s + u)
  {
    forall i, j | 0 <= i < j < |s + u| ensures (s + u)[i] != (s + u)[j] {
      assert i < |s| <= j ==> s[i] in s && u[j - |s|] in u;
    }
  }

  lemma {:induction false} NextIsNew<T>(s: seq<T>, i: nat)
    requires NoDup(s) && i < |s|
    ensures s[i] in s && s[i] !in s[..i] && s[..i + 1] == s[..i] + [s[i]]
    ensures forall x :: x in s[..i + 1] <==> x in s[..i] || x == s[i]
  {
    assert s[..i + 1] == s[..i] + [s[i]];
  }

  // The letters, small ones first, as names of one letter.
  function Letters(): (names: seq<string>)
    ensures |names| == 52 && names[0] == "a" && NoDup(names)
    ensures forall i :: 0 <= i < 52 ==> |names[i]| == 1
    ensures names[25] == "z" && names[26] == "A" && names[51] == "Z"
    ensures forall i :: 0 < i < 52 && i != 26 ==> names[i - 1][0] < names[i][0]
  {
    var names := seq(52, i requires 0 <= i < 52 => [if i < 26 then 'a' + i as char else 'A' + (i - 26) as char]);
    assert names[0] == ['a'] && names[25] == ['z'] && names[26] == ['A'] && names[51] == ['Z'];
    assert forall i :: 0 <= i < 52 ==>
      |names[i]| == 1 && names[i][0] as int == if i < 26 then 'a' as int + i else 'A' as int + i - 26;
    names
  }
}
