// The free-list allocator of malloc_py/malloc.py: three search policies, five list orders, splitting, and
// optional coalescing.
module Malloc {
  import opened Counting

  datatype Policy = FIRST | BEST | WORST
  datatype Order = ADDRSORT | SIZESORT_UP | SIZESORT_DOWN | INSERT_FRONT | INSERT_BACK

  // An entry of the free list.
  datatype Chunk = Chunk(addr: int, size: int)

  function End(c: Chunk): int {
    c.addr + c.size
  }

  // ----- The heap is tiled -----

  predicate Contains(c: Chunk, x: int) {
    c.addr <= x < End(c)
  }

  function Containing(x: int): Chunk -> bool {
    (c: Chunk) => Contains(c, x)
  }

  // How many entries of the free list contain the address x.
  ghost function FreeAt(list: seq<Chunk>, x: int): nat {
    Count(Containing(x), list)
  }

  // The allocated blocks that contain it.
  ghost function BlocksAt(sizemap: map<int, int>, x: int): set<int> {
    set a | a in sizemap && a <= x < a + sizemap[a]
  }

  ghost predicate PositiveSizes(list: seq<Chunk>, sizemap: map<int, int>) {
    && (forall i :: 0 <= i < |list| ==> list[i].size > 0)
    && (forall a :: a in sizemap ==> sizemap[a] > 0)
  }

  // Every address of the heap is in exactly one free chunk or allocated block, and no other address is in any.
  ghost predicate Tiled(start: int, size: int, list: seq<Chunk>, sizemap: map<int, int>) {
    && PositiveSizes(list, sizemap)
    && forall x :: FreeAt(list, x) + |BlocksAt(sizemap, x)| == B(start <= x < start + size)
  }

  function RemoveAt(list: seq<Chunk>, i: nat): seq<Chunk>
    requires i < |list|
  {
    list[..i] + list[i + 1..]
  }

  lemma FreeAtRemove(list: seq<Chunk>, i: nat, x: int)
    requires i < |list|
    ensures FreeAt(RemoveAt(list, i), x) == FreeAt(list, x) - B(Contains(list[i], x))
  {
    assert list == list[..i] + ([list[i]] + list[i + 1..]);
    CountAppend(Containing(x), list[..i], list[i + 1..]);
    CountAppend(Containing(x), list[..i], [list[i]] + list[i + 1..]);
    CountAppend(Containing(x), [list[i]], list[i + 1..]);
  }

  // Two free chunks share no address.
  lemma FreeDisjoint(start: int, size: int, list: seq<Chunk>, sizemap: map<int, int>, i: nat, j: nat, x: int)
    requires Tiled(start, size, list, sizemap) && i < |list| && j < |list| && Contains(list[i], x)
    requires Contains(list[j], x)
    ensures i == j
  {
    assert FreeAt(list, x) + |BlocksAt(sizemap, x)| == B(start <= x < start + size);
    AtMostOne(Containing(x), list, i);
  }

  // A free address is in the heap and in no block.
  lemma FreeAddress(start: int, size: int, list: seq<Chunk>, sizemap: map<int, int>, i: nat, x: int)
    requires Tiled(start, size, list, sizemap) && i < |list| && Contains(list[i], x)
    ensures start <= x < start + size && BlocksAt(sizemap, x) == {} && x !in sizemap && FreeAt(list, x) == 1
  {
    CountZero(Containing(x), list);
    assert FreeAt(list, x) + |BlocksAt(sizemap, x)| == B(start <= x < start + size);
    assert x in sizemap ==> x in BlocksAt(sizemap, x);
  }

  lemma ChunkInHeap(start: int, size: int, list: seq<Chunk>, sizemap: map<int, int>, i: nat)
    requires Tiled(start, size, list, sizemap) && i < |list|
    ensures start <= list[i].addr && End(list[i]) <= start + size
  {
    FreeAddress(start, size, list, sizemap, i, list[i].addr);
    FreeAddress(start, size, list, sizemap, i, End(list[i]) - 1);
  }

  // ----- Searching -----

  // A request rounded up to the alignment, with its header.
  function Padded(size: int, headerSize: int, align: int): int
    requires align == -1 || align > 0
  {
    (if align != -1 && size % align != 0 then size + (align - size % align) else size) + headerSize
  }

  // What is granted without the header holds the request and is aligned.
  ghost predicate Holds(align: int, size: int, granted: int) {
    granted >= size && (align == -1 || (align > 0 && granted % align == 0))
  }

  // The padding is enough, and no smaller block would do.
  lemma PaddedIsLeast(size: int, headerSize: int, align: int)
    requires align == -1 || align > 0
    ensures Holds(align, size, Padded(size, headerSize, align) - headerSize)
    ensures forall n :: Holds(align, size, n) ==> Padded(size, headerSize, align) - headerSize <= n
    ensures align > 0 ==> Padded(size, headerSize, align) - headerSize < size + align
    ensures align == -1 ==> Padded(size, headerSize, align) == size + headerSize
  {
    if align > 0 {
      var q, r := size / align, size % align;
      var up := if r == 0 then q else q + 1;
      assert size == q * align + r;
      assert up * align == if r == 0 then size else size + (align - r);
      MultipleIs(up, align);
      forall n | Holds(align, size, n) ensures up * align <= n {
        LeastMultiple(size, align, up, n);
      }
    }
  }

  lemma MultipleIs(k: int, align: int)
    requires align > 0
    ensures (k * align) % align == 0
  {
    var q, r := k * align / align, k * align % align;
    assert k * align == q * align + r;
    assert (k - q) * align == r;
    if k != q { NoLess(if k > q then 1 else k - q, if k > q then k - q else -1, align); }
  }

  lemma NoLess(a: int, b: int, align: int)
    requires a <= b && align > 0
    ensures a * align <= b * align
  {
  }

  lemma LeastMultiple(size: int, align: int, up: int, n: int)
    requires align > 0 && up * align < size + align && n >= size && n % align == 0
    ensures up * align <= n
  {
    var k := n / align;
    assert n == k * align;
    if k < up { NoLess(k + 1, up, align); }
  }

  // The chunk that the search settles on: the first that is adequate and smallest, largest, or just first.
  ghost predicate Chosen(policy: Policy, list: seq<Chunk>, need: int, i: nat) {
    && i < |list| && list[i].size >= need
    && forall j :: 0 <= j < |list| && list[j].size >= need ==>
        match policy
        case FIRST => i <= j
        case BEST => list[i].size + B(j < i) <= list[j].size
        case WORST => list[i].size >= list[j].size + B(j < i)
  }

  ghost predicate Adequate(list: seq<Chunk>, need: int) {
    exists i :: 0 <= i < |list| && list[i].size >= need
  }

  // What is left of the chunk that a block of size need is cut from.
  function Cut(list: seq<Chunk>, i: nat, need: int): seq<Chunk>
    requires i < |list|
  {
    if list[i].size > need then list[i := Chunk(list[i].addr + need, list[i].size - need)] else RemoveAt(list, i)
  }

  // A block at addr, cut from the chunk that the policy chooses after looking at count of them.
  ghost predicate Granted(policy: Policy, list: seq<Chunk>, list': seq<Chunk>, need: int, addr: int, count: nat) {
    exists i: nat :: Chosen(policy, list, need, i) && addr == list[i].addr && list' == Cut(list, i, need)
      && count == if policy.FIRST? then i + 1 else |list|
  }

  lemma BlockAdded(sizemap: map<int, int>, a: int, need: int, x: int)
    requires a !in sizemap
    ensures |BlocksAt(sizemap[a := need], x)| == |BlocksAt(sizemap, x)| + B(a <= x < a + need)
  {
    assert a !in BlocksAt(sizemap, x);
    assert BlocksAt(sizemap[a := need], x) == BlocksAt(sizemap, x) + (if a <= x < a + need then {a} else {});
  }

  lemma CutAt(list: seq<Chunk>, sizemap: map<int, int>, i: nat, need: int, x: int)
    requires i < |list| && 0 < need <= list[i].size && list[i].addr !in sizemap
    ensures FreeAt(Cut(list, i, need), x) + |BlocksAt(sizemap[list[i].addr := need], x)| ==
      FreeAt(list, x) + |BlocksAt(sizemap, x)|
  {
    BlockAdded(sizemap, list[i].addr, need, x);
    if list[i].size > need {
      CountUpdate(Containing(x), list, i, Cut(list, i, need)[i]);
    } else {
      FreeAtRemove(list, i, x);
    }
  }

  lemma CutTiles(start: int, size: int, list: seq<Chunk>, sizemap: map<int, int>, i: nat, need: int)
    requires Tiled(start, size, list, sizemap) && i < |list| && 0 < need <= list[i].size
    ensures list[i].addr !in sizemap
    ensures Tiled(start, size, Cut(list, i, need), sizemap[list[i].addr := need])
  {
    var list', sizemap' := Cut(list, i, need), sizemap[list[i].addr := need];
    FreeAddress(start, size, list, sizemap, i, list[i].addr);
    forall x ensures FreeAt(list', x) + |BlocksAt(sizemap', x)| == B(start <= x < start + size) {
      assert FreeAt(list, x) + |BlocksAt(sizemap, x)| == B(start <= x < start + size);
      CutAt(list, sizemap, i, need, x);
    }
  }

  // ----- Freeing -----

  // Does a come strictly before b in a list of this order?
  predicate Before(order: Order, a: Chunk, b: Chunk) {
    match order
    case ADDRSORT => a.addr < b.addr
    case SIZESORT_UP => a.size < b.size
    case SIZESORT_DOWN => a.size > b.size
    case _ => false
  }

  // Insertion behind everything that c does not come before: sorting that way is stable, as sorted is.
  function Insert(order: Order, list: seq<Chunk>, c: Chunk): seq<Chunk> {
    if list != [] && Before(order, c, list[|list| - 1]) then Insert(order, list[..|list| - 1], c) + [list[|list| - 1]]
    else list + [c]
  }

  function Sorted(order: Order, list: seq<Chunk>): seq<Chunk> {
    if list == [] then [] else Insert(order, Sorted(order, list[..|list| - 1]), list[|list| - 1])
  }

  ghost predicate InOrder(order: Order, list: seq<Chunk>) {
    forall i, j :: 0 <= i < j < |list| ==> !Before(order, list[j], list[i])
  }

  lemma {:induction false} InsertKeeps(order: Order, list: seq<Chunk>, c: Chunk)
    ensures multiset(Insert(order, list, c)) == multiset(list) + multiset{c}
  {
    if list != [] && Before(order, c, list[|list| - 1]) {
      InsertKeeps(order, list[..|list| - 1], c);
      assert list == list[..|list| - 1] + [list[|list| - 1]];
    }
  }

  lemma {:induction false} InsertFrom(order: Order, list: seq<Chunk>, c: Chunk)
    ensures forall i :: 0 <= i < |Insert(order, list, c)| ==>
      Insert(order, list, c)[i] == c || Insert(order, list, c)[i] in list
  {
    if list != [] && Before(order, c, list[|list| - 1]) {
      InsertFrom(order, list[..|list| - 1], c);
    }
  }

  lemma {:induction false} InsertSorts(order: Order, list: seq<Chunk>, c: Chunk)
    requires InOrder(order, list)
    ensures InOrder(order, Insert(order, list, c))
  {
    if list != [] && Before(order, c, list[|list| - 1]) {
      var init, last := list[..|list| - 1], list[|list| - 1];
      InsertSorts(order, init, c);
      InsertFrom(order, init, c);
      assert forall e :: e in init ==> !Before(order, last, e);
    }
  }

  lemma {:induction false} SortedKeeps(order: Order, list: seq<Chunk>)
    ensures multiset(Sorted(order, list)) == multiset(list)
  {
    if list != [] {
      var init, last := list[..|list| - 1], list[|list| - 1];
      SortedKeeps(order, init);
      InsertKeeps(order, Sorted(order, init), last);
      assert list == init + [last];
    }
  }

  lemma {:induction false} SortedSorts(order: Order, list: seq<Chunk>)
    ensures InOrder(order, Sorted(order, list))
  {
    if list != [] {
      SortedSorts(order, list[..|list| - 1]);
      InsertSorts(order, Sorted(order, list[..|list| - 1]), list[|list| - 1]);
    }
  }

  // What the chunks are sorted by.
  function Key(order: Order, c: Chunk): int {
    if order.ADDRSORT? then c.addr else c.size
  }

  function WithKey(order: Order, list: seq<Chunk>, key: int): seq<Chunk> {
    if list == [] then []
    else
      var last := list[|list| - 1];
      WithKey(order, list[..|list| - 1], key) + (if Key(order, last) == key then [last] else [])
  }

  lemma {:induction false} InsertIsStable(order: Order, list: seq<Chunk>, c: Chunk, key: int)
    ensures WithKey(order, Insert(order, list, c), key)
         == WithKey(order, list, key) + (if Key(order, c) == key then [c] else [])
  {
    if list != [] && Before(order, c, list[|list| - 1]) {
      InsertIsStable(order, list[..|list| - 1], c, key);
    }
  }

  // Chunks with the same key stay in the order in which they were.
  lemma {:induction false} SortedIsStable(order: Order, list: seq<Chunk>, key: int)
    ensures WithKey(order, Sorted(order, list), key) == WithKey(order, list, key)
  {
    if list != [] {
      SortedIsStable(order, list[..|list| - 1], key);
      InsertIsStable(order, Sorted(order, list[..|list| - 1]), list[|list| - 1], key);
    }
  }

  // Where a chunk stands in the list makes no difference to what it contains.
  lemma AppendCovers(list: seq<Chunk>, c: Chunk, x: int)
    ensures FreeAt(list + [c], x) == FreeAt(list, x) + B(Contains(c, x))
  {
    CountAppend(Containing(x), list, [c]);
    assert Count(Containing(x), [c]) == B(Contains(c, x));
  }

  lemma {:induction false} InsertCovers(order: Order, list: seq<Chunk>, c: Chunk, x: int)
    ensures FreeAt(Insert(order, list, c), x) == FreeAt(list, x) + B(Contains(c, x))
  {
    if list != [] && Before(order, c, list[|list| - 1]) {
      var init, last := list[..|list| - 1], list[|list| - 1];
      InsertCovers(order, init, c, x);
      assert list == init + [last];
      AppendCovers(init, last, x);
      AppendCovers(Insert(order, init, c), last, x);
    } else {
      AppendCovers(list, c, x);
    }
  }

  lemma {:induction false} SortedCovers(order: Order, list: seq<Chunk>, x: int)
    ensures FreeAt(Sorted(order, list), x) == FreeAt(list, x)
  {
    if list != [] {
      var init, last := list[..|list| - 1], list[|list| - 1];
      SortedCovers(order, init, x);
      assert FreeAt(Sorted(order, list), x) == FreeAt(Sorted(order, init), x) + B(Contains(last, x)) by {
        InsertCovers(order, Sorted(order, init), last, x);
      }
      assert FreeAt(list, x) == FreeAt(init, x) + B(Contains(last, x)) by {
        AppendCovers(init, last, x);
        assert list == init + [last];
      }
    }
  }

  // The list with a freed block put back.
  function PutBack(order: Order, list: seq<Chunk>, c: Chunk): seq<Chunk> {
    match order
    case INSERT_BACK => list + [c]
    case INSERT_FRONT => [c] + list
    case _ => Sorted(order, list + [c])
  }

  lemma PutBackKeeps(order: Order, list: seq<Chunk>, c: Chunk)
    ensures multiset(PutBack(order, list, c)) == multiset(list) + multiset{c}
    ensures forall x :: FreeAt(PutBack(order, list, c), x) == FreeAt(list, x) + B(Contains(c, x))
    ensures InOrder(order, PutBack(order, list, c))
  {
    SortedSorts(order, list + [c]);
    SortedKeeps(order, list + [c]);
    forall x ensures FreeAt(PutBack(order, list, c), x) == FreeAt(list, x) + B(Contains(c, x)) {
      SortedCovers(order, list + [c], x);
      CountAppend(Containing(x), list, [c]);
      CountAppend(Containing(x), [c], list);
    }
  }

  // A freed chunk goes to the front or to the back, or behind the chunks with the same key.
  lemma PutBackPlaces(order: Order, list: seq<Chunk>, c: Chunk)
    ensures |PutBack(order, list, c)| == |list| + 1
    ensures order.INSERT_FRONT? ==> PutBack(order, list, c)[0] == c && PutBack(order, list, c)[1..] == list
    ensures order.INSERT_BACK? ==> PutBack(order, list, c)[|list|] == c && PutBack(order, list, c)[..|list|] == list
    ensures !order.INSERT_FRONT? && !order.INSERT_BACK? ==>
      forall key :: WithKey(order, PutBack(order, list, c), key) ==
        WithKey(order, list, key) + (if Key(order, c) == key then [c] else [])
  {
    PutBackKeeps(order, list, c);
    assert |multiset(PutBack(order, list, c))| == |multiset(list) + multiset{c}|;
    forall key ensures WithKey(order, Sorted(order, list + [c]), key) == WithKey(order, list + [c], key) {
      SortedIsStable(order, list + [c], key);
    }
    assert (list + [c])[..|list|] == list;
  }

  lemma FreeTiles(start: int, size: int, order: Order, list: seq<Chunk>, sizemap: map<int, int>, a: int)
    requires Tiled(start, size, list, sizemap) && a in sizemap
    ensures Tiled(start, size, PutBack(order, list, Chunk(a, sizemap[a])), sizemap - {a})
  {
    var c := Chunk(a, sizemap[a]);
    var list', sizemap' := PutBack(order, list, c), sizemap - {a};
    PutBackKeeps(order, list, c);
    forall i | 0 <= i < |list'| ensures list'[i].size > 0 {
      assert list'[i] in multiset(list');
    }
    forall x ensures FreeAt(list', x) + |BlocksAt(sizemap', x)| == B(start <= x < start + size) {
      assert FreeAt(list, x) + |BlocksAt(sizemap, x)| == B(start <= x < start + size);
      assert BlocksAt(sizemap', x) == BlocksAt(sizemap, x) - (if Contains(c, x) then {a} else {});
    }
  }

  // ----- Coalescing -----

  // Sorted by address without overlap, and with a gap between neighbours.
  ghost predicate Ascending(list: seq<Chunk>) {
    forall i, j :: 0 <= i < j < |list| ==> End(list[i]) <= list[j].addr
  }

  ghost predicate Gaps(list: seq<Chunk>) {
    forall i, j :: 0 <= i < j < |list| ==> End(list[i]) < list[j].addr
  }

  lemma SortedAscends(start: int, size: int, list: seq<Chunk>, sizemap: map<int, int>)
    requires Tiled(start, size, list, sizemap) && InOrder(ADDRSORT, list)
    ensures Ascending(list)
  {
    forall i, j | 0 <= i < j < |list| ensures End(list[i]) <= list[j].addr {
      assert !Before(ADDRSORT, list[j], list[i]);
      if Contains(list[i], list[j].addr) {
        FreeDisjoint(start, size, list, sizemap, i, j, list[j].addr);
      }
    }
  }

  // No entry starts where the one before it ends.
  ghost predicate Apart(list: seq<Chunk>) {
    forall i :: 0 < i < |list| ==> End(list[i - 1]) != list[i].addr
  }

  ghost predicate SameCover(list: seq<Chunk>, list': seq<Chunk>) {
    forall x :: FreeAt(list, x) == FreeAt(list', x)
  }

  lemma CoverAppend(list: seq<Chunk>, list': seq<Chunk>, c: Chunk)
    requires SameCover(list, list')
    ensures SameCover(list + [c], list' + [c])
  {
    forall x ensures FreeAt(list + [c], x) == FreeAt(list' + [c], x) {
      assert FreeAt(list, x) == FreeAt(list', x);
      CountAppend(Containing(x), list, [c]);
      CountAppend(Containing(x), list', [c]);
    }
  }

  // Two chunks that touch contain together what the merged chunk contains.
  lemma CoverMerge(list: seq<Chunk>, curr: Chunk, e: Chunk)
    requires curr.size > 0 && e.size > 0 && e.addr == End(curr)
    ensures SameCover(list + [Chunk(curr.addr, curr.size + e.size)], list + [curr] + [e])
  {
    forall x ensures FreeAt(list + [Chunk(curr.addr, curr.size + e.size)], x) == FreeAt(list + [curr] + [e], x) {
      CountAppend(Containing(x), list, [Chunk(curr.addr, curr.size + e.size)]);
      CountAppend(Containing(x), list + [curr], [e]);
      CountAppend(Containing(x), list, [curr]);
    }
  }

  // One turn of the coalescing loop: the next entry is merged into the current chunk, or the current chunk is done.
  function MergeNext(newlist: seq<Chunk>, curr: Chunk, e: Chunk): (seq<Chunk>, Chunk) {
    if e.addr == End(curr) then (newlist, Chunk(curr.addr, curr.size + e.size)) else (newlist + [curr], e)
  }

  // All turns of it: what is done, and the current chunk.
  function MergeAll(list: seq<Chunk>): (seq<Chunk>, Chunk)
    requires list != []
  {
    if |list| == 1 then ([], list[0])
    else
      var (newlist, curr) := MergeAll(list[..|list| - 1]);
      MergeNext(newlist, curr, list[|list| - 1])
  }

  function Coalesced(list: seq<Chunk>): seq<Chunk>
    requires list != []
  {
    MergeAll(list).0 + [MergeAll(list).1]
  }

  // What the loop has made of the entries it has seen covers the same addresses and leaves nothing to merge.
  ghost predicate MergedCover(newlist: seq<Chunk>, curr: Chunk, seen: seq<Chunk>) {
    && |newlist| < |seen|
    && (forall k :: 0 <= k < |newlist| ==> newlist[k].size > 0)
    && curr.size > 0
    && SameCover(newlist + [curr], seen)
    && Apart(newlist)
    && (newlist != [] ==> End(newlist[|newlist| - 1]) != curr.addr)
  }

  // And in address order it leaves gaps.
  ghost predicate MergedGaps(newlist: seq<Chunk>, curr: Chunk, seen: seq<Chunk>) {
    && seen != []
    && (Ascending(seen) ==>
      && End(curr) == End(seen[|seen| - 1]) && Gaps(newlist)
      && forall k :: 0 <= k < |newlist| ==> End(newlist[k]) < curr.addr)
    && (Gaps(seen) ==> newlist == seen[..|seen| - 1] && curr == seen[|seen| - 1])
  }

  lemma {:induction false} MergeNextCover(newlist: seq<Chunk>, curr: Chunk, seen: seq<Chunk>, e: Chunk)
    requires MergedCover(newlist, curr, seen) && e.size > 0
    ensures MergedCover(MergeNext(newlist, curr, e).0, MergeNext(newlist, curr, e).1, seen + [e])
  {
    CoverAppend(newlist + [curr], seen, e);
    if e.addr == End(curr) {
      CoverMerge(newlist, curr, e);
    }
  }

  lemma {:induction false} MergeNextGaps(newlist: seq<Chunk>, curr: Chunk, seen: seq<Chunk>, e: Chunk)
    requires MergedGaps(newlist, curr, seen) && curr.size > 0 && e.size > 0
    ensures MergedGaps(MergeNext(newlist, curr, e).0, MergeNext(newlist, curr, e).1, seen + [e])
  {
    var seen' := seen + [e];
    assert Ascending(seen') ==> Ascending(seen) by {
      assert forall i :: 0 <= i < |seen| ==> seen'[i] == seen[i];
    }
    assert Gaps(seen') ==> Gaps(seen) by {
      assert forall i :: 0 <= i < |seen| ==> seen'[i] == seen[i];
    }
    assert seen'[|seen| - 1] == seen[|seen| - 1] && seen'[|seen|] == e;
    assert seen'[..|seen|] == seen;
    assert seen == seen[..|seen| - 1] + [seen[|seen| - 1]];
    assert Ascending(seen') ==> End(curr) <= e.addr;
  }

  // Where the loop stands after the entries it has seen.
  ghost predicate Merging(newlist: seq<Chunk>, curr: Chunk, seen: seq<Chunk>) {
    && seen != [] && (newlist, curr) == MergeAll(seen)
    && MergedCover(newlist, curr, seen) && MergedGaps(newlist, curr, seen)
  }

  lemma {:induction false} MergeStart(c: Chunk)
    requires c.size > 0
    ensures Merging([], c, [c])
  {
    assert [] + [c] == [c];
  }

  lemma {:induction false} MergeMore(newlist: seq<Chunk>, curr: Chunk, seen: seq<Chunk>, e: Chunk)
    requires Merging(newlist, curr, seen) && e.size > 0
    ensures Merging(MergeNext(newlist, curr, e).0, MergeNext(newlist, curr, e).1, seen + [e])
  {
    MergeNextCover(newlist, curr, seen, e);
    MergeNextGaps(newlist, curr, seen, e);
    assert (seen + [e])[..|seen|] == seen;
  }

  lemma {:induction false} MergeEnd(newlist: seq<Chunk>, curr: Chunk, seen: seq<Chunk>)
    requires Merging(newlist, curr, seen)
    ensures newlist + [curr] == Coalesced(seen)
    ensures forall i :: 0 <= i < |newlist + [curr]| ==> (newlist + [curr])[i].size > 0
    ensures SameCover(newlist + [curr], seen) && Apart(newlist + [curr])
    ensures |newlist + [curr]| <= |seen|
    ensures Ascending(seen) ==> Gaps(newlist + [curr])
    ensures Gaps(seen) ==> newlist + [curr] == seen
  {
  }

  // The loop at the end of free: merge each entry into the one before it if it starts where that one ends.
  method CoalesceList(freelist: seq<Chunk>) returns (newlist: seq<Chunk>)
    requires freelist != [] && forall i :: 0 <= i < |freelist| ==> freelist[i].size > 0
    ensures newlist == Coalesced(freelist)
    ensures forall i :: 0 <= i < |newlist| ==> newlist[i].size > 0
    ensures SameCover(newlist, freelist) && Apart(newlist)
    ensures 0 < |newlist| <= |freelist|
    ensures Ascending(freelist) ==> Gaps(newlist)
    ensures Gaps(freelist) ==> newlist == freelist
  {
    newlist := [];
    var curr := freelist[0];
    MergeStart(curr);
    assert freelist[..1] == [freelist[0]];
    for i := 1 to |freelist|
      invariant Merging(newlist, curr, freelist[..i])
    {
      var e := freelist[i];
      MergeMore(newlist, curr, freelist[..i], e);
      assert freelist[..i + 1] == freelist[..i] + [e];
      if e.addr == curr.addr + curr.size {
        curr := Chunk(curr.addr, curr.size + e.size);
      } else {
        newlist := newlist + [curr];
        curr := e;
      }
    }
    assert freelist[..|freelist|] == freelist;
    MergeEnd(newlist, curr, freelist);
    newlist := newlist + [curr];
  }

  lemma CoalescedTiles(start: int, size: int, list: seq<Chunk>, list': seq<Chunk>, sizemap: map<int, int>)
    requires Tiled(start, size, list, sizemap) && forall i :: 0 <= i < |list'| ==> list'[i].size > 0
    requires SameCover(list', list)
    ensures Tiled(start, size, list', sizemap)
  {
    forall x ensures FreeAt(list', x) + |BlocksAt(sizemap, x)| == B(start <= x < start + size) {
      assert FreeAt(list, x) + |BlocksAt(sizemap, x)| == B(start <= x < start + size);
      assert FreeAt(list', x) == FreeAt(list, x);
    }
  }

  // Cutting a block keeps the list sorted and its gaps.
  lemma {:induction false} CutKeepsGaps(list: seq<Chunk>, i: nat, need: int)
    requires i < |list| && 0 < need <= list[i].size && Gaps(list)
    ensures Gaps(Cut(list, i, need))
  {
    if list[i].size == need {
      forall j, k | 0 <= j < k < |list| - 1 ensures End(RemoveAt(list, i)[j]) < RemoveAt(list, i)[k].addr {
        var j', k' := if j < i then j else j + 1, if k < i then k else k + 1;
        assert End(list[j']) < list[k'].addr;
      }
    }
  }

  lemma {:induction false} CutKeepsOrder(list: seq<Chunk>, i: nat, need: int)
    requires i < |list| && 0 < need <= list[i].size && forall k :: 0 <= k < |list| ==> list[k].size > 0
    requires Ascending(list)
    ensures InOrder(ADDRSORT, Cut(list, i, need))
  {
    var list' := Cut(list, i, need);
    forall j, k | 0 <= j < k < |list'| ensures !Before(ADDRSORT, list'[k], list'[j]) {
      var skip := list[i].size == need;
      var j', k' := if skip && j >= i then j + 1 else j, if skip && k >= i then k + 1 else k;
      assert End(list[j']) <= list[k'].addr;
    }
  }

  // ----- What address order with coalescing buys -----

  // The addresses x .. x + need - 1 are in the heap and in no allocated block.
  ghost predicate UnallocatedRun(start: int, size: int, sizemap: map<int, int>, x: int, need: int) {
    && start <= x && x + need <= start + size
    && forall y :: x <= y < x + need ==> BlocksAt(sizemap, y) == {}
  }

  ghost predicate FitsSomewhere(start: int, size: int, sizemap: map<int, int>, need: int) {
    exists x :: UnallocatedRun(start, size, sizemap, x, need)
  }

  // An unallocated run lies within one free chunk, since what follows a chunk is allocated.
  lemma RunInChunk(start: int, size: int, list: seq<Chunk>, sizemap: map<int, int>, x: int, need: int) returns (i: nat)
    requires Tiled(start, size, list, sizemap) && Gaps(list) && need > 0
    requires UnallocatedRun(start, size, sizemap, x, need)
    ensures i < |list| && list[i].addr <= x && x + need <= End(list[i])
  {
    i := FreeChunkAt(start, size, list, sizemap, x);
    if x + need > End(list[i]) {
      var e := End(list[i]);
      var j := FreeChunkAt(start, size, list, sizemap, e);
      assert false;
    }
  }

  lemma FreeChunkAt(start: int, size: int, list: seq<Chunk>, sizemap: map<int, int>, y: int) returns (i: nat)
    requires Tiled(start, size, list, sizemap) && start <= y < start + size && BlocksAt(sizemap, y) == {}
    ensures i < |list| && Contains(list[i], y)
  {
    assert FreeAt(list, y) + |BlocksAt(sizemap, y)| == B(start <= y < start + size);
    CountZero(Containing(y), list);
    i :| 0 <= i < |list| && Contains(list[i], y);
  }

  // So a request fails only if no unallocated run is long enough.
  lemma FailsOnlyIfFull(start: int, size: int, list: seq<Chunk>, sizemap: map<int, int>, need: int)
    requires Tiled(start, size, list, sizemap) && Gaps(list) && need > 0
    ensures Adequate(list, need) <==> FitsSomewhere(start, size, sizemap, need)
  {
    if Adequate(list, need) {
      var i :| 0 <= i < |list| && list[i].size >= need;
      ChunkInHeap(start, size, list, sizemap, i);
      forall y | list[i].addr <= y < list[i].addr + need ensures BlocksAt(sizemap, y) == {} {
        FreeAddress(start, size, list, sizemap, i, y);
      }
      assert UnallocatedRun(start, size, sizemap, list[i].addr, need);
    }
    if x :| UnallocatedRun(start, size, sizemap, x, need) {
      var i := RunInChunk(start, size, list, sizemap, x, need);
    }
  }

  // And once every block is freed the free list is the single chunk it started as.
  lemma AllFreedIsInitial(start: int, size: int, list: seq<Chunk>)
    requires Tiled(start, size, list, map[]) && Gaps(list) && size > 0
    ensures list == [Chunk(start, size)]
  {
    var i := RunInChunk(start, size, list, map[], start, size);
    ChunkInHeap(start, size, list, map[], i);
    ChunkInHeap(start, size, list, map[], 0);
    ChunkInHeap(start, size, list, map[], |list| - 1);
    FreeDisjoint(start, size, list, map[], i, 0, list[0].addr);
    FreeDisjoint(start, size, list, map[], i, |list| - 1, list[|list| - 1].addr);
  }

  // ----- The allocator -----

  class Allocator {
    const start: int
    const size: int
    const headerSize: int
    const policy: Policy
    const order: Order
    const coalesce: bool
    const align: int

    var freelist: seq<Chunk>
    var sizemap: map<int, int>

    // Address order is kept, without gaps of no length if free coalesces.
    ghost predicate Valid()
      reads this
    {
      && size > 0 && start >= 0 && (align == -1 || align > 0)
      && Tiled(start, size, freelist, sizemap)
      && (order.ADDRSORT? ==> InOrder(ADDRSORT, freelist))
      && (order.ADDRSORT? && coalesce ==> Gaps(freelist))
    }

    constructor (size: int, start: int, headerSize: int, policy: Policy, order: Order, coalesce: bool, align: int)
      requires size > 0 && start >= 0 && (align == -1 || align > 0)
      ensures Valid() && freelist == [Chunk(start, size)] && sizemap == map[]
      ensures this.size == size && this.start == start && this.headerSize == headerSize && this.policy == policy
      ensures this.order == order && this.coalesce == coalesce && this.align == align
    {
      this.size, this.start, this.headerSize := size, start, headerSize;
      this.policy, this.order, this.coalesce, this.align := policy, order, coalesce, align;
      freelist := [Chunk(start, size)];
      sizemap := map[];
      new;
      forall x ensures FreeAt(freelist, x) + |BlocksAt(sizemap, x)| == B(start <= x < start + size) {
        assert FreeAt([], x) == 0;
      }
    }

    // The assertion that the address has no block yet is the requires clause.
    method AddToMap(addr: int, size: int)
      requires addr !in sizemap
      modifies this`sizemap
      ensures sizemap == old(sizemap)[addr := size]
    {
      sizemap := sizemap[addr := size];
    }

    // The search loop: bestIdx is -1 if no chunk is adequate; count is the number of entries looked at.
    method Search(need: int) returns (bestIdx: int, count: nat)
      requires Valid() && need > 0
      ensures -1 <= bestIdx < |freelist|
      ensures bestIdx == -1 <==> !Adequate(freelist, need)
      ensures bestIdx >= 0 ==> Chosen(policy, freelist, need, bestIdx)
      ensures count == if policy.FIRST? && bestIdx >= 0 then bestIdx + 1 else |freelist|
    {
      bestIdx, count := -1, 0;
      var bestSize := if policy.BEST? then size + 1 else -1;
      for i := 0 to |freelist|
        invariant -1 <= bestIdx < i && count == i
        invariant bestIdx == -1 ==> bestSize == (if policy.BEST? then size + 1 else -1)
        invariant bestIdx == -1 ==> forall j :: 0 <= j < i ==> freelist[j].size < need
        invariant bestIdx >= 0 ==>
          !policy.FIRST? && bestSize == freelist[bestIdx].size && Chosen(policy, freelist[..i], need, bestIdx)
      {
        var esize := freelist[i].size;
        ChunkInHeap(start, size, freelist, sizemap, i);
        count := count + 1;
        ghost var seen := freelist[..i + 1];
        assert seen == freelist[..i] + [freelist[i]];
        if esize >= need
          && ((policy.BEST? && esize < bestSize) || (policy.WORST? && esize > bestSize) || policy.FIRST?) {
          bestSize := esize;
          bestIdx := i;
          if policy.FIRST? {
            break;
          }
        }
      }
      assert freelist[..|freelist|] == freelist;
    }

    // Take need bytes off the front of chunk bestIdx, or all of it.
    method Place(bestIdx: nat, need: int) returns (addr: int)
      requires Valid() && bestIdx < |freelist| && 0 < need <= freelist[bestIdx].size
      modifies this`freelist, this`sizemap
      ensures Valid() && start <= addr
      ensures addr == old(freelist)[bestIdx].addr && addr !in old(sizemap)
      ensures freelist == Cut(old(freelist), bestIdx, need) && sizemap == old(sizemap)[addr := need]
    {
      var best := freelist[bestIdx];
      ChunkInHeap(start, size, freelist, sizemap, bestIdx);
      CutTiles(start, size, freelist, sizemap, bestIdx, need);
      if order.ADDRSORT? {
        SortedAscends(start, size, freelist, sizemap);
        CutKeepsOrder(freelist, bestIdx, need);
      }
      if order.ADDRSORT? && coalesce {
        CutKeepsGaps(freelist, bestIdx, need);
      }
      if best.size > need {
        freelist := freelist[bestIdx := Chunk(best.addr + need, best.size - need)];
      } else {
        freelist := RemoveAt(freelist, bestIdx);
      }
      AddToMap(best.addr, need);
      addr := best.addr;
    }

    // A block for size bytes, or -1. The heap stays tiled and in order.
    method Malloc(size: int) returns (addr: int, count: nat)
      requires Valid() && Padded(size, headerSize, align) > 0
      modifies this`freelist, this`sizemap
      ensures Valid()
      ensures addr == -1 <==> !Adequate(old(freelist), Padded(size, headerSize, align))
      ensures addr == -1 ==> freelist == old(freelist) && sizemap == old(sizemap) && count == |freelist|
      ensures addr != -1 ==> addr !in old(sizemap) && sizemap == old(sizemap)[addr := Padded(size, headerSize, align)]
      ensures addr != -1 ==> Granted(policy, old(freelist), freelist, Padded(size, headerSize, align), addr, count)
      ensures order.ADDRSORT? && coalesce ==>
        (addr == -1 <==> !FitsSomewhere(start, this.size, old(sizemap), Padded(size, headerSize, align)))
      ensures addr != -1 ==>
        && Holds(align, size, sizemap[addr] - headerSize)
        && forall n :: Holds(align, size, n) ==> sizemap[addr] <= headerSize + n
    {
      PaddedIsLeast(size, headerSize, align);
      var need := Padded(size, headerSize, align);
      if order.ADDRSORT? && coalesce {
        FailsOnlyIfFull(start, this.size, freelist, sizemap, need);
      }
      var bestIdx;
      bestIdx, count := Search(need);
      if bestIdx == -1 {
        return -1, count;
      }
      addr := Place(bestIdx, need);
    }

    // Give a block back; -1 if there is none at addr.
    method Free(addr: int) returns (rc: int)
      requires Valid()
      modifies this`freelist, this`sizemap
      ensures Valid()
      ensures rc == if addr in old(sizemap) then 0 else -1
      ensures rc == -1 ==> freelist == old(freelist) && sizemap == old(sizemap)
      ensures rc == 0 ==> sizemap == old(sizemap) - {addr}
      ensures rc == 0 ==> SameCover(freelist, old(freelist) + [Chunk(addr, old(sizemap)[addr])])
      ensures rc == 0 && coalesce ==> Apart(freelist)
      ensures rc == 0 ==>
        var list := PutBack(order, old(freelist), Chunk(addr, old(sizemap)[addr]));
        list != [] && freelist == if coalesce then Coalesced(list) else list
      ensures order.ADDRSORT? && coalesce && sizemap == map[] ==> freelist == [Chunk(start, size)]
    {
      if addr !in sizemap {
        if order.ADDRSORT? && coalesce && sizemap == map[] { AllFreedIsInitial(start, size, freelist); }
        return -1;
      }
      var c := Chunk(addr, sizemap[addr]);
      FreeTiles(start, size, order, freelist, sizemap, addr);
      PutBackKeeps(order, freelist, c);
      forall x ensures FreeAt(PutBack(order, freelist, c), x) == FreeAt(freelist + [c], x) {
        AppendCovers(freelist, c, x);
      }
      freelist := PutBack(order, freelist, c);
      assert c in multiset(freelist);
      sizemap := sizemap - {addr};
      if order.ADDRSORT? {
        SortedAscends(start, size, freelist, sizemap);
      }
      if coalesce {
        var newlist := CoalesceList(freelist);
        CoalescedTiles(start, size, freelist, newlist, sizemap);
        freelist := newlist;
        if order.ADDRSORT? && sizemap == map[] { AllFreedIsInitial(start, size, freelist); }
      }
      rc := 0;
    }
  }
}
