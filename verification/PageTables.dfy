// The two-level page tables of paging-multilevel-translate/paging-multilevel-translate.py.
module PageTables {
  // Tables are bytes in a flat physical memory of 128 pages of 32 bytes. Masks and shifts are written as division and
  // remainder.

  import opened Sequences

  const PAGE_SIZE := 32
  const PHYS_PAGES := 128
  const PHYS_MEM := 4096
  const VA_PAGES := 1024
  const EMPTY := 0x7f
  const VALID := 0x80

  // ----- Entries -----

  function Entry(mem: seq<int>, page: int, i: int): int
    requires |mem| == PHYS_MEM && 0 <= page < PHYS_PAGES && 0 <= i < PAGE_SIZE
  {
    mem[page * PAGE_SIZE + i]
  }

  predicate IsValid(entry: int) {
    entry / VALID % 2 == 1
  }

  function Pfn(entry: int): (pfn: int)
    ensures 0 <= pfn < PHYS_PAGES
  {
    entry % VALID
  }

  function DirIndex(va: nat): (i: int)
    ensures 0 <= i < PAGE_SIZE
  {
    va / 1024 % 32
  }

  function TableIndex(va: nat): (i: int)
    ensures 0 <= i < PAGE_SIZE
  {
    va / 32 % 32
  }

  // The virtual page of an address; bits above the fifteenth are ignored.
  function Vpn(va: nat): (v: int)
    ensures 0 <= v < VA_PAGES && v / 32 == DirIndex(va) && v % 32 == TableIndex(va)
  {
    Digits(va);
    va / 32 % 1024
  }

  // An address is its directory index, table index and offset, as digits.
  lemma Digits(va: nat)
    ensures va / 32 % 1024 == (va / 1024 % 32) * 32 + va / 32 % 32
  {
    var high, b, c := va / 32768, va / 1024 % 32, va / 32 % 32;
    assert va / 1024 == 32 * high + b;
    assert va / 32 == 32 * (va / 1024) + c;
    assert va / 32 == 1024 * high + (32 * b + c);
  }

  // The three fields of an address of 15 bits, from the left.
  lemma Fields(va: nat)
    requires va < 32 * 1024
    ensures va == DirIndex(va) * 1024 + TableIndex(va) * 32 + va % 32
    ensures DirIndex(va) < 32 && TableIndex(va) < 32
  {
    Digits(va);
  }

  // An entry is a valid bit and seven bits for a page; the empty one is not valid and names page 127.
  lemma EntryFields(page: int)
    requires 0 <= page < 128
    ensures IsValid(128 + page) && Pfn(128 + page) == page && !IsValid(page) && Pfn(page) == page
    ensures EMPTY == 127 && VALID == 128 && PAGE_SIZE == 32 && PHYS_PAGES == 128
  {
  }

  // ----- What the tables stand for -----

  // The tables of one page directory, by slot, and the frames its virtual pages are mapped to.
  datatype Space = Space(tables: map<int, int>, frames: map<int, int>)

  // What a page in use is for. A space is known by the page that holds its directory.
  datatype Role = Directory | Table(dir: int, slot: int) | Data(dir: int, vp: int)

  ghost predicate Owned(owner: map<int, Role>, d: int, sp: Space) {
    && 0 <= d < PHYS_PAGES && d in owner && owner[d] == Directory
    && (forall s :: s in sp.tables ==>
      && 0 <= s < 32 && 0 <= sp.tables[s] < PHYS_PAGES
      && sp.tables[s] in owner && owner[sp.tables[s]] == Table(d, s))
    && (forall v :: v in sp.frames ==>
      && 0 <= v < VA_PAGES && 0 <= sp.frames[v] < PHYS_PAGES && v / 32 in sp.tables
      && sp.frames[v] in owner && owner[sp.frames[v]] == Data(d, v))
  }

  function DirEntry(sp: Space, s: int): int {
    if s in sp.tables then VALID + sp.tables[s] else EMPTY
  }

  function TableEntry(sp: Space, v: int): int {
    if v in sp.frames then VALID + sp.frames[v] else EMPTY
  }

  // The bytes of the directory and of the tables say what the space says.
  ghost predicate Matches(mem: seq<int>, owner: map<int, Role>, d: int, sp: Space)
    requires |mem| == PHYS_MEM && Owned(owner, d, sp)
  {
    && (forall s :: 0 <= s < 32 ==> Entry(mem, d, s) == DirEntry(sp, s))
    && (forall s, i :: s in sp.tables && 0 <= i < 32 ==> Entry(mem, sp.tables[s], i) == TableEntry(sp, s * 32 + i))
  }

  predicate Shares(v: int, s: int) {
    v / 32 == s
  }

  // Some page is mapped through slot s.
  ghost predicate SlotInUse(sp: Space, s: int) {
    exists v :: v in sp.frames && Shares(v, s)
  }

  ghost predicate Represents(mem: seq<int>, owner: map<int, Role>, d: int, sp: Space)
    requires |mem| == PHYS_MEM
  {
    && Owned(owner, d, sp)
    && Matches(mem, owner, d, sp)
    && forall s :: s in sp.tables ==> SlotInUse(sp, s)
  }

  // The walk through directory and table: -1 and -2 are the two faults.
  function Walk(mem: seq<int>, dir: int, va: nat): int
    requires |mem| == PHYS_MEM && 0 <= dir < PHYS_PAGES
  {
    var pde := Entry(mem, dir, DirIndex(va));
    if !IsValid(pde) then -1
    else
      var pte := Entry(mem, Pfn(pde), TableIndex(va));
      if !IsValid(pte) then -2 else Pfn(pte) * PAGE_SIZE + va % PAGE_SIZE
  }

  // The walk finds exactly the mapped pages, and the kind of fault tells whether a mapped page shares the slot.
  lemma WalkFindsMapping(mem: seq<int>, owner: map<int, Role>, d: int, sp: Space, va: nat)
    requires |mem| == PHYS_MEM && Represents(mem, owner, d, sp)
    ensures Vpn(va) in sp.frames ==> Walk(mem, d, va) == sp.frames[Vpn(va)] * PAGE_SIZE + va % PAGE_SIZE
    ensures Vpn(va) !in sp.frames ==> Walk(mem, d, va) == if SlotInUse(sp, DirIndex(va)) then -2 else -1
  {
    var v, s, i := Vpn(va), DirIndex(va), TableIndex(va);
    assert v == s * 32 + i;
    assert Entry(mem, d, s) == DirEntry(sp, s);
    if s in sp.tables {
      assert Entry(mem, sp.tables[s], i) == TableEntry(sp, s * 32 + i);
      assert SlotInUse(sp, s);
    } else {
      assert !SlotInUse(sp, s);
    }
  }

  ghost predicate AllRepresented(mem: seq<int>, owner: map<int, Role>, spaces: map<int, Space>)
    requires |mem| == PHYS_MEM
  {
    forall d :: d in spaces ==> Represents(mem, owner, d, spaces[d])
  }

  // Addresses of different spaces, or of different pages of one, never reach the same frame, and no address reaches
  // a page that holds a directory or a table of any space.
  lemma Isolated(mem: seq<int>, owner: map<int, Role>, spaces: map<int, Space>, d: int, e: int, va: nat, vb: nat)
    requires |mem| == PHYS_MEM && AllRepresented(mem, owner, spaces) && d in spaces && e in spaces
    requires Walk(mem, d, va) >= 0
    ensures Walk(mem, e, vb) >= 0 && (d != e || Vpn(va) != Vpn(vb)) ==>
      Walk(mem, d, va) / PAGE_SIZE != Walk(mem, e, vb) / PAGE_SIZE
    ensures Walk(mem, d, va) / PAGE_SIZE != e
    ensures forall s :: s in spaces[e].tables ==> Walk(mem, d, va) / PAGE_SIZE != spaces[e].tables[s]
  {
    WalkFindsMapping(mem, owner, d, spaces[d], va);
    WalkFindsMapping(mem, owner, e, spaces[e], vb);
    var f := spaces[d].frames[Vpn(va)];
    assert Walk(mem, d, va) / PAGE_SIZE == f && owner[f] == Data(d, Vpn(va));
    if Walk(mem, e, vb) >= 0 {
      var g := spaces[e].frames[Vpn(vb)];
      assert Walk(mem, e, vb) / PAGE_SIZE == g && owner[g] == Data(e, Vpn(vb));
    }
  }

  // ----- Changes to memory -----

  // Only page p differs.
  ghost predicate OnlyPage(mem: seq<int>, mem': seq<int>, p: int)
    requires |mem| == |mem'| == PHYS_MEM
  {
    forall q, i :: 0 <= q < PHYS_PAGES && 0 <= i < PAGE_SIZE && q != p ==> Entry(mem', q, i) == Entry(mem, q, i)
  }

  // Writing to a page that is neither the directory nor a table of a space leaves what it represents.
  lemma WriteElsewhere(
      mem: seq<int>, mem': seq<int>, owner: map<int, Role>, owner': map<int, Role>, p: int, d: int, sp: Space)
    requires |mem| == |mem'| == PHYS_MEM && OnlyPage(mem, mem', p) && Represents(mem, owner, d, sp)
    requires p != d && forall s :: s in sp.tables ==> sp.tables[s] != p
    requires forall q :: q in owner ==> q in owner' && owner'[q] == owner[q]
    ensures Represents(mem', owner', d, sp)
  {
    forall s | 0 <= s < 32 ensures Entry(mem', d, s) == DirEntry(sp, s) {
      assert Entry(mem, d, s) == DirEntry(sp, s);
    }
    forall s, i | s in sp.tables && 0 <= i < 32 ensures Entry(mem', sp.tables[s], i) == TableEntry(sp, s * 32 + i) {
      assert Entry(mem, sp.tables[s], i) == TableEntry(sp, s * 32 + i);
    }
  }

  // So a write to a page of space d, or to data, leaves the other spaces.
  lemma OthersKept(mem: seq<int>, mem': seq<int>, owner: map<int, Role>, owner': map<int, Role>, p: int, d: int,
                   others: map<int, Space>)
    requires |mem| == |mem'| == PHYS_MEM && OnlyPage(mem, mem', p) && AllRepresented(mem, owner, others) && d !in others
    requires forall q :: q in owner ==> q in owner' && owner'[q] == owner[q]
    requires p in owner ==>
      (owner[p].Data? || (owner[p] == Directory && p == d) || (owner[p].Table? && owner[p].dir == d))
    ensures AllRepresented(mem', owner', others)
  {
    forall e | e in others ensures Represents(mem', owner', e, others[e]) {
      assert Represents(mem, owner, e, others[e]);
      WriteElsewhere(mem, mem', owner, owner', p, e, others[e]);
    }
  }

  // A blank page becomes the table of slot s.
  lemma AddTable(mem: seq<int>, mem': seq<int>, owner: map<int, Role>, d: int, sp: Space, s: int, t: int)
    requires |mem| == |mem'| == PHYS_MEM && Represents(mem, owner, d, sp)
    requires 0 <= s < 32 && s !in sp.tables && 0 <= t < PHYS_PAGES && t !in owner
    requires Entry(mem', d, s) == VALID + t && forall i :: 0 <= i < 32 ==> Entry(mem', t, i) == EMPTY
    requires forall q, i :: 0 <= q < PHYS_PAGES && 0 <= i < PAGE_SIZE && q != t && !(q == d && i == s) ==>
      Entry(mem', q, i) == Entry(mem, q, i)
    ensures Owned(owner[t := Table(d, s)], d, Space(sp.tables[s := t], sp.frames))
    ensures Matches(mem', owner[t := Table(d, s)], d, Space(sp.tables[s := t], sp.frames))
  {
    var sp' := Space(sp.tables[s := t], sp.frames);
    forall r | 0 <= r < 32 ensures Entry(mem', d, r) == DirEntry(sp', r) {
      assert Entry(mem, d, r) == DirEntry(sp, r);
    }
    forall r, i | r in sp'.tables && 0 <= i < 32 ensures Entry(mem', sp'.tables[r], i) == TableEntry(sp', r * 32 + i) {
      if r == s {
        assert (r * 32 + i) / 32 == s;
        assert r * 32 + i !in sp.frames;
      } else {
        assert Entry(mem, sp.tables[r], i) == TableEntry(sp, r * 32 + i);
      }
    }
  }

  // A page is mapped, in a table that is there.
  lemma AddFrame(mem: seq<int>, mem': seq<int>, owner: map<int, Role>, d: int, sp: Space, v: int, pp: int)
    requires |mem| == |mem'| == PHYS_MEM && Owned(owner, d, sp) && Matches(mem, owner, d, sp)
    requires 0 <= v < VA_PAGES && v / 32 in sp.tables && 0 <= pp < PHYS_PAGES && pp in owner && owner[pp] == Data(d, v)
    requires Entry(mem', sp.tables[v / 32], v % 32) == VALID + pp
    requires forall q, i :: 0 <= q < PHYS_PAGES && 0 <= i < PAGE_SIZE && !(q == sp.tables[v / 32] && i == v % 32) ==>
      Entry(mem', q, i) == Entry(mem, q, i)
    requires forall s :: s in sp.tables && s != v / 32 ==> SlotInUse(sp, s)
    ensures Represents(mem', owner, d, Space(sp.tables, sp.frames[v := pp]))
  {
    var sp' := Space(sp.tables, sp.frames[v := pp]);
    forall r | 0 <= r < 32 ensures Entry(mem', d, r) == DirEntry(sp', r) {
      assert Entry(mem, d, r) == DirEntry(sp, r);
    }
    forall r, i | r in sp.tables && 0 <= i < 32 ensures Entry(mem', sp.tables[r], i) == TableEntry(sp', r * 32 + i) {
      assert Entry(mem, sp.tables[r], i) == TableEntry(sp, r * 32 + i);
      assert (r * 32 + i) / 32 == r && (r * 32 + i) % 32 == i;
    }
    forall s | s in sp.tables ensures SlotInUse(sp', s) {
      if s == v / 32 {
        assert v in sp'.frames && Shares(v, s);
      } else {
        var w :| w in sp.frames && Shares(w, s);
        assert w in sp'.frames && Shares(w, s);
      }
    }
  }

  // A blank page is the directory of an empty space.
  lemma AddDirectory(mem: seq<int>, owner: map<int, Role>, d: int)
    requires |mem| == PHYS_MEM && 0 <= d < PHYS_PAGES && d in owner && owner[d] == Directory
    requires forall i :: 0 <= i < 32 ==> Entry(mem, d, i) == EMPTY
    ensures Represents(mem, owner, d, Space(map[], map[]))
  {
  }

  // ----- Room -----

  function Upto(n: nat): (s: set<int>)
    ensures |s| == n && forall i :: i in s <==> 0 <= i < n
  {
    if n == 0 then {} else Upto(n - 1) + {n - 1}
  }

  // A set with fewer than n members misses one of the first n numbers.
  lemma Missing(s: set<int>, n: nat) returns (i: int)
    requires |s| < n
    ensures 0 <= i < n && i !in s
  {
    if Upto(n) <= s {
      SubsetSize(Upto(n), s);
    }
    i :| i in Upto(n) && i !in s;
  }

  lemma {:induction false} SubsetSize(a: set<int>, b: set<int>)
    requires a <= b
    ensures |a| <= |b|
  {
    assert b == a + (b - a);
    assert |b| == |a| + |b - a|;
  }

  lemma AtMostAll(owner: map<int, Role>)
    requires forall p :: p in owner ==> 0 <= p < PHYS_PAGES
    ensures |owner| <= PHYS_PAGES
  {
    SubsetSize(owner.Keys, Upto(PHYS_PAGES));
  }

  // The directory slots that some virtual pages need.
  function Slots(vps: seq<int>): set<int> {
    set v | v in vps :: v / 32
  }

  lemma SlotsAppend(vps: seq<int>, v: int)
    ensures Slots(vps + [v]) == Slots(vps) + {v / 32} && Members(vps + [v]) == Members(vps) + {v}
  {
    assert v in vps + [v];
    forall w | w in vps ensures w / 32 in Slots(vps + [v]) {
      assert w in vps + [v];
    }
  }

  // The table of used pages agrees with the list of those allocated, which has no repetition.
  ghost predicate Picked(used: seq<int>, vps: seq<int>) {
    && |used| == VA_PAGES
    && (forall v :: v in vps ==> 0 <= v < VA_PAGES)
    && (forall v :: 0 <= v < VA_PAGES ==> (used[v] == 1 <==> v in vps))
    && forall i, j :: 0 <= i < j < |vps| ==> vps[i] != vps[j]
  }

  lemma PickedNext(used: seq<int>, vps: seq<int>, vp: int)
    requires Picked(used, vps) && 0 <= vp < VA_PAGES && vp !in vps
    ensures Picked(used[vp := 1], vps + [vp])
  {
    forall v | 0 <= v < VA_PAGES ensures used[vp := 1][v] == 1 <==> v in vps + [vp] {
      assert v in vps + [vp] <==> v in vps || v == vp;
    }
  }

  // ----- The operating system -----

  class OS {
    const memory: array<int>
    const usedPages: array<int>
    var usedPagesCount: int
    var pdbr: map<int, int>

    ghost var owner: map<int, Role>
    ghost var spaces: map<int, Space>

    // Every page is used for one thing at most.
    ghost predicate Accounted()
      reads this, usedPages
    {
      && usedPages.Length == PHYS_PAGES
      && (forall p :: 0 <= p < PHYS_PAGES ==> usedPages[p] == if p in owner then 1 else 0)
      && (forall p :: p in owner ==> 0 <= p < PHYS_PAGES)
      && usedPagesCount == |owner|
    }

    ghost predicate Valid()
      reads this, memory, usedPages
    {
      && memory != usedPages && memory.Length == PHYS_MEM
      && Accounted()
      && AllRepresented(memory[..], owner, spaces)
      && (forall pid :: pid in pdbr ==> pdbr[pid] in spaces)
      && (forall pid, qid :: pid in pdbr && qid in pdbr && pid != qid ==> pdbr[pid] != pdbr[qid])
    }

    // Valid, except that no page may be mapped through slot s of space d yet.
    ghost predicate AlmostValid(d: int, s: int)
      reads this, memory, usedPages
    {
      && memory != usedPages && memory.Length == PHYS_MEM
      && Accounted()
      && d in spaces && AllRepresented(memory[..], owner, spaces - {d})
      && Owned(owner, d, spaces[d]) && Matches(memory[..], owner, d, spaces[d])
      && (forall r :: r in spaces[d].tables && r != s ==> SlotInUse(spaces[d], r))
      && (forall pid :: pid in pdbr ==> pdbr[pid] in spaces)
      && (forall pid, qid :: pid in pdbr && qid in pdbr && pid != qid ==> pdbr[pid] != pdbr[qid])
    }

    constructor ()
      ensures Valid() && fresh(memory) && fresh(usedPages)
      ensures usedPagesCount == 0 && pdbr == map[] && spaces == map[] && owner == map[]
    {
      memory := new int[PHYS_MEM](_ => 0);
      usedPages := new int[PHYS_PAGES](_ => 0);
      usedPagesCount := 0;
      pdbr, owner, spaces := map[], map[], map[];
    }

    // Any unused page, if there is one; the role is what it will be used for.
    method FindFree(ghost role: Role) returns (ok: bool, look: int)
      requires Accounted() && memory != usedPages
      modifies this`usedPagesCount, this`owner, usedPages
      ensures Accounted() && usedPagesCount <= PHYS_PAGES
      ensures ok <==> old(usedPagesCount) < PHYS_PAGES
      ensures !ok ==> owner == old(owner)
      ensures ok ==> 0 <= look < PHYS_PAGES && look !in old(owner) && owner == old(owner)[look := role]
      ensures ok ==> usedPagesCount == old(usedPagesCount) + 1
    {
      AtMostAll(owner);
      ok := usedPagesCount < PHYS_PAGES;
      if !ok {
        return false, 0;
      }
      ghost var page := Missing(owner.Keys, PHYS_PAGES);
      assert usedPages[page] == 0;
      look :| 0 <= look < PHYS_PAGES && usedPages[look] != 1;
      assert look !in owner;
      usedPagesCount := usedPagesCount + 1;
      usedPages[look] := 1;
      owner := owner[look := role];
    }

    // Blank a page of the directory, or of a table.
    method InitPageDir(whichPage: int)
      requires memory.Length == PHYS_MEM && 0 <= whichPage < PHYS_PAGES
      modifies memory
      ensures OnlyPage(old(memory[..]), memory[..], whichPage)
      ensures forall i :: 0 <= i < PAGE_SIZE ==> Entry(memory[..], whichPage, i) == EMPTY
    {
      var whichByte := whichPage * PAGE_SIZE;
      for i := whichByte to whichByte + PAGE_SIZE
        invariant forall b :: 0 <= b < PHYS_MEM ==> memory[b] == if whichByte <= b < i then EMPTY else old(memory[b])
      {
        memory[i] := EMPTY;
      }
    }

    // Fill a page with values below 31.
    method FillPage(whichPage: int)
      requires memory.Length == PHYS_MEM && 0 <= whichPage < PHYS_PAGES
      modifies memory
      ensures OnlyPage(old(memory[..]), memory[..], whichPage)
      ensures forall i :: 0 <= i < PAGE_SIZE ==> 0 <= Entry(memory[..], whichPage, i) < 31
    {
      for j := 0 to PAGE_SIZE
        invariant forall b :: 0 <= b < PHYS_MEM ==>
          if whichPage * PAGE_SIZE <= b < whichPage * PAGE_SIZE + j then 0 <= memory[b] < 31
          else memory[b] == old(memory[b])
      {
        var value: int :| 0 <= value < 31;
        memory[whichPage * PAGE_SIZE + j] := value;
      }
    }

    function GetPageTableEntry(va: nat, ptePage: int): (r: (bool, int, int))
      requires memory.Length == PHYS_MEM && 0 <= ptePage < PHYS_PAGES
      reads this, memory
      ensures 0 <= r.2 < PHYS_MEM && r.2 == ptePage * PAGE_SIZE + TableIndex(va)
      ensures r.0 == IsValid(Entry(memory[..], ptePage, TableIndex(va)))
      ensures r.1 == Pfn(Entry(memory[..], ptePage, TableIndex(va)))
    {
      var pteAddr := ptePage * PAGE_SIZE + TableIndex(va);
      (IsValid(memory[pteAddr]), Pfn(memory[pteAddr]), pteAddr)
    }

    function GetPageDirEntry(pid: int, va: nat): (r: (bool, int, int))
      requires memory.Length == PHYS_MEM && pid in pdbr && 0 <= pdbr[pid] < PHYS_PAGES
      reads this, memory
      ensures 0 <= r.2 < PHYS_MEM && r.2 == pdbr[pid] * PAGE_SIZE + DirIndex(va)
      ensures r.0 == IsValid(Entry(memory[..], pdbr[pid], DirIndex(va)))
      ensures r.1 == Pfn(Entry(memory[..], pdbr[pid], DirIndex(va)))
    {
      var pdeAddr := pdbr[pid] * PAGE_SIZE + DirIndex(va);
      (IsValid(memory[pdeAddr]), Pfn(memory[pdeAddr]), pdeAddr)
    }

    // The physical address, or the kind of fault.
    method Translate(pid: int, va: nat) returns (paddr: int)
      requires Valid() && pid in pdbr
      ensures paddr == Walk(memory[..], pdbr[pid], va)
      ensures var sp := spaces[pdbr[pid]];
        paddr == if Vpn(va) in sp.frames then sp.frames[Vpn(va)] * PAGE_SIZE + va % PAGE_SIZE
                 else if SlotInUse(sp, DirIndex(va)) then -2 else -1
    {
      assert Represents(memory[..], owner, pdbr[pid], spaces[pdbr[pid]]);
      WalkFindsMapping(memory[..], owner, pdbr[pid], spaces[pdbr[pid]], va);
      var (valid, ptPtr, _) := GetPageDirEntry(pid, va);
      if valid {
        var (valid, pfn, _) := GetPageTableEntry(va, ptPtr);
        if valid {
          var offset := va % PAGE_SIZE;
          return pfn * PAGE_SIZE + offset;
        } else {
          return -2;
        }
      }
      return -1;
    }

    // The entry for slot s of the directory of a space without that table: a new table page, blank. False if no page
    // is left.
    method NewTable(pdeAddr: int, ghost d: int, ghost s: int) returns (ok: bool, ptePage: int)
      requires Valid() && d in spaces && 0 <= s < 32 && s !in spaces[d].tables && pdeAddr == d * PAGE_SIZE + s
      modifies this`usedPagesCount, this`owner, this`spaces, usedPages, memory
      ensures ok <==> old(usedPagesCount) < PHYS_PAGES
      ensures !ok ==> Valid() && owner == old(owner) && spaces == old(spaces) && usedPagesCount == PHYS_PAGES
      ensures ok ==> AlmostValid(d, s) && usedPagesCount == old(usedPagesCount) + 1
      ensures ok ==> 0 <= ptePage < PHYS_PAGES && ptePage !in old(owner) && owner == old(owner)[ptePage := Table(d, s)]
      ensures ok ==> spaces == old(spaces)[d := Space(old(spaces)[d].tables[s := ptePage], old(spaces)[d].frames)]
    {
      ghost var others, sp := spaces - {d}, spaces[d];
      ghost var owner0, mem0 := owner, memory[..];
      assert Represents(mem0, owner0, d, sp) && AllRepresented(mem0, owner0, others);
      ok, ptePage := FindFree(Table(d, s));
      if !ok {
        assert AllRepresented(memory[..], owner, spaces);
        return;
      }
      memory[pdeAddr] := VALID + ptePage;
      ghost var mem1 := memory[..];
      OthersKept(mem0, mem1, owner0, owner, d, d, others);
      InitPageDir(ptePage);
      OthersKept(mem1, memory[..], owner, owner, ptePage, d, others);
      AddTable(mem0, memory[..], owner0, d, sp, s, ptePage);
      spaces := spaces[d := Space(sp.tables[s := ptePage], sp.frames)];
      assert spaces - {d} == others;
    }

    // The entry for a page in a table that is there.
    method SetPageTableEntry(pteAddr: int, physicalPage: int, ghost d: int, ghost v: int)
      requires 0 <= v < VA_PAGES && AlmostValid(d, v / 32) && v / 32 in spaces[d].tables && v !in spaces[d].frames
      requires 0 <= physicalPage < PHYS_PAGES && physicalPage in owner && owner[physicalPage] == Data(d, v)
      requires pteAddr == spaces[d].tables[v / 32] * PAGE_SIZE + v % 32
      modifies this`spaces, memory
      ensures Valid()
      ensures spaces == old(spaces)[d := Space(old(spaces)[d].tables, old(spaces)[d].frames[v := physicalPage])]
    {
      ghost var sp, mem := spaces[d], memory[..];
      memory[pteAddr] := VALID + physicalPage;
      AddFrame(mem, memory[..], owner, d, sp, v, physicalPage);
      OthersKept(mem, memory[..], owner, owner, sp.tables[v / 32], d, spaces - {d});
      spaces := spaces[d := Space(sp.tables, sp.frames[v := physicalPage])];
      assert forall e :: e in spaces && e != d ==> e in old(spaces) - {d};
    }

    // Map a virtual page to a physical page, adding a table if its slot has none. False if no page is left for it.
    method AllocVirtualPage(pid: int, virtualPage: int, physicalPage: int) returns (ok: bool)
      requires Valid() && pid in pdbr && 0 <= virtualPage < VA_PAGES && virtualPage !in spaces[pdbr[pid]].frames
      requires 0 <= physicalPage < PHYS_PAGES && physicalPage in owner
      requires owner[physicalPage] == Data(pdbr[pid], virtualPage)
      modifies this`usedPagesCount, this`owner, this`spaces, usedPages, memory
      ensures Valid() && spaces.Keys == old(spaces).Keys
      ensures forall d :: d in spaces && d != pdbr[pid] ==> spaces[d] == old(spaces)[d]
      ensures forall p :: p in old(owner) ==> p in owner && owner[p] == old(owner)[p]
      ensures ok <==> old(usedPagesCount) < PHYS_PAGES || virtualPage / 32 in old(spaces)[pdbr[pid]].tables
      ensures ok ==> spaces[pdbr[pid]].frames == old(spaces)[pdbr[pid]].frames[virtualPage := physicalPage]
      ensures ok ==> spaces[pdbr[pid]].tables.Keys == old(spaces)[pdbr[pid]].tables.Keys + {virtualPage / 32}
      ensures ok ==> usedPagesCount - |spaces[pdbr[pid]].tables| == old(usedPagesCount - |spaces[pdbr[pid]].tables|)
      ensures !ok ==> usedPagesCount == PHYS_PAGES && spaces == old(spaces)
    {
      ghost var d, s := pdbr[pid], virtualPage / 32;
      var virtualAddr := virtualPage * PAGE_SIZE;
      Shifted(virtualPage);
      var (valid, ptPtr, pdeAddr) := GetPageDirEntry(pid, virtualAddr);
      Lookup(d, s);
      var ptePage := ptPtr;
      if !valid {
        assert ptPtr == 127;
        ok, ptePage := NewTable(pdeAddr, d, s);
        if !ok {
          return;
        }
      }
      LookupTable(d, virtualPage);
      var (pteValid, pfn, pteAddr) := GetPageTableEntry(virtualAddr, ptePage);
      assert !pteValid && pfn == 127;
      SetPageTableEntry(pteAddr, physicalPage, d, virtualPage);
      ok := true;
    }

    // The directory entry of slot s, read back.
    lemma Lookup(d: int, s: int)
      requires Valid() && d in spaces && 0 <= s < 32
      ensures AlmostValid(d, s)
      ensures IsValid(Entry(memory[..], d, s)) == (s in spaces[d].tables)
      ensures Pfn(Entry(memory[..], d, s)) == if s in spaces[d].tables then spaces[d].tables[s] else 127
    {
      assert Represents(memory[..], owner, d, spaces[d]);
    }

    // The table entry of page v, not mapped yet.
    lemma LookupTable(d: int, v: int)
      requires 0 <= v < VA_PAGES && AlmostValid(d, v / 32) && v / 32 in spaces[d].tables && v !in spaces[d].frames
      ensures !IsValid(Entry(memory[..], spaces[d].tables[v / 32], v % 32))
      ensures Pfn(Entry(memory[..], spaces[d].tables[v / 32], v % 32)) == 127
    {
      assert Entry(memory[..], spaces[d].tables[v / 32], v % 32) == TableEntry(spaces[d], v / 32 * 32 + v % 32);
    }

    // A blank page directory for a process. False if no page is left for it.
    method NewDirectory(pid: int) returns (ok: bool)
      requires Valid()
      modifies this, usedPages, memory
      ensures Valid() && usedPagesCount <= PHYS_PAGES
      ensures ok <==> old(usedPagesCount) < PHYS_PAGES
      ensures !ok ==> pdbr == old(pdbr) && spaces == old(spaces) && usedPagesCount == PHYS_PAGES
      ensures ok ==> pid in pdbr && pdbr == old(pdbr)[pid := pdbr[pid]] && pdbr[pid] !in old(spaces)
      ensures ok ==>
        && spaces == old(spaces)[pdbr[pid] := Space(map[], map[])]
        && usedPagesCount == old(usedPagesCount) + 1
    {
      ghost var owner0, mem := owner, memory[..];
      var pageDir;
      ok, pageDir := FindFree(Directory);
      if !ok {
        assert AllRepresented(memory[..], owner, spaces);
        return;
      }
      pdbr := pdbr[pid := pageDir];
      InitPageDir(pageDir);
      OthersKept(mem, memory[..], owner0, owner, pageDir, pageDir, spaces);
      AddDirectory(memory[..], owner, pageDir);
      spaces := spaces[pageDir := Space(map[], map[])];
    }

    // A new process with numPages virtual pages, chosen at will, each with a frame of its own. False if there is no
    // memory left.
    method ProcAlloc(pid: int, numPages: nat) returns (ok: bool, allocatedVPs: seq<int>)
      requires Valid()
      modifies this, usedPages, memory
      ensures Valid()
      ensures forall d :: d in old(spaces) ==> d in spaces && spaces[d] == old(spaces)[d]
      ensures forall q :: q != pid ==> (q in pdbr <==> q in old(pdbr)) && (q in pdbr ==> pdbr[q] == old(pdbr)[q])
      ensures ok ==> pid in pdbr && pdbr[pid] !in old(spaces) && |allocatedVPs| == numPages
      ensures ok ==> forall i, j :: 0 <= i < j < numPages ==> allocatedVPs[i] != allocatedVPs[j]
      ensures ok ==> spaces[pdbr[pid]].frames.Keys == Members(allocatedVPs)
      ensures ok ==> usedPagesCount == old(usedPagesCount) + 1 + numPages + |Slots(allocatedVPs)|
      ensures !ok ==> usedPagesCount == PHYS_PAGES
    {
      allocatedVPs := [];
      ok := NewDirectory(pid);
      if ok {
        ok, allocatedVPs := MapPages(pid, numPages);
      }
    }

    // The loop of ProcAlloc.
    method MapPages(pid: int, numPages: nat) returns (ok: bool, allocatedVPs: seq<int>)
      requires Valid() && pid in pdbr && spaces[pdbr[pid]] == Space(map[], map[]) && usedPagesCount <= PHYS_PAGES
      modifies this`usedPagesCount, this`owner, this`spaces, usedPages, memory
      ensures Valid() && spaces.Keys == old(spaces).Keys
      ensures forall d :: d in spaces && d != pdbr[pid] ==> spaces[d] == old(spaces)[d]
      ensures ok ==> |allocatedVPs| == numPages
      ensures ok ==> forall i, j :: 0 <= i < j < numPages ==> allocatedVPs[i] != allocatedVPs[j]
      ensures ok ==> spaces[pdbr[pid]].frames.Keys == Members(allocatedVPs)
      ensures ok ==> usedPagesCount == old(usedPagesCount) + numPages + |Slots(allocatedVPs)|
      ensures !ok ==> usedPagesCount == PHYS_PAGES
    {
      ok, allocatedVPs := true, [];
      var used := seq(VA_PAGES, _ => 0);
      for i := 0 to numPages
        invariant ok && Valid() && spaces.Keys == old(spaces).Keys && usedPagesCount <= PHYS_PAGES
        invariant forall d :: d in spaces && d != pdbr[pid] ==> spaces[d] == old(spaces)[d]
        invariant Picked(used, allocatedVPs) && |allocatedVPs| == i
        invariant spaces[pdbr[pid]].frames.Keys == Members(allocatedVPs)
        invariant spaces[pdbr[pid]].tables.Keys == Slots(allocatedVPs)
        invariant usedPagesCount == old(usedPagesCount) + i + |spaces[pdbr[pid]].tables|
      {
        var vp := UnusedPage(used, allocatedVPs);
        PickedNext(used, allocatedVPs, vp);
        used := used[vp := 1];
        SlotsAppend(allocatedVPs, vp);
        allocatedVPs := allocatedVPs + [vp];
        ok := MapNewPage(pid, vp);
        if !ok {
          return;
        }
      }
      assert |spaces[pdbr[pid]].tables| == |spaces[pdbr[pid]].tables.Keys|;
    }

    // A frame for one more virtual page, filled with values. False if memory runs out.
    method MapNewPage(pid: int, vp: int) returns (ok: bool)
      requires Valid() && pid in pdbr && 0 <= vp < VA_PAGES && vp !in spaces[pdbr[pid]].frames
      modifies this`usedPagesCount, this`owner, this`spaces, usedPages, memory
      ensures Valid() && spaces.Keys == old(spaces).Keys
      ensures forall d :: d in spaces && d != pdbr[pid] ==> spaces[d] == old(spaces)[d]
      ensures ok ==> spaces[pdbr[pid]].frames.Keys == old(spaces)[pdbr[pid]].frames.Keys + {vp}
      ensures ok ==> spaces[pdbr[pid]].tables.Keys == old(spaces)[pdbr[pid]].tables.Keys + {vp / 32}
      ensures ok ==> usedPagesCount - |spaces[pdbr[pid]].tables| == old(usedPagesCount - |spaces[pdbr[pid]].tables|) + 1
      ensures usedPagesCount <= PHYS_PAGES && (!ok ==> usedPagesCount == PHYS_PAGES)
    {
      var pp;
      ok, pp := NewFrame(Data(pdbr[pid], vp));
      if ok {
        ok := AllocVirtualPage(pid, vp, pp);
        if ok {
          FillFrame(pp);
          AtMostAll(owner);
        }
      }
    }

    // An unused page is taken for data.
    method NewFrame(ghost role: Role) returns (ok: bool, pp: int)
      requires Valid()
      modifies this`usedPagesCount, this`owner, usedPages
      ensures Valid() && usedPagesCount <= PHYS_PAGES && (!ok ==> usedPagesCount == PHYS_PAGES)
      ensures ok ==> 0 <= pp < PHYS_PAGES && owner == old(owner)[pp := role] && usedPagesCount == old(usedPagesCount) + 1
      ensures !ok ==> owner == old(owner)
    {
      ghost var owner0 := owner;
      ok, pp := FindFree(role);
      OthersKept(memory[..], memory[..], owner0, owner, -1, -1, spaces);
    }

    // Data is written to a frame, and the tables stay.
    method FillFrame(pp: int)
      requires Valid() && pp in owner && owner[pp].Data? && 0 <= pp < PHYS_PAGES
      modifies memory
      ensures Valid()
    {
      ghost var mem := memory[..];
      FillPage(pp);
      OthersKept(mem, memory[..], owner, owner, pp, -1, spaces);
    }
  }

  // Any virtual page not used yet.
  method UnusedPage(used: seq<int>, vps: seq<int>) returns (vp: int)
    requires Picked(used, vps) && |vps| < VA_PAGES
    ensures 0 <= vp < VA_PAGES && vp !in vps
  {
    ghost var members := Members(vps);
    FewMembers(vps);
    ghost var spare := Missing(members, VA_PAGES);
    assert used[spare] != 1;
    vp :| 0 <= vp < VA_PAGES && used[vp] != 1;
  }

  lemma {:induction false} FewMembers(vps: seq<int>)
    ensures |Members(vps)| <= |vps|
  {
    if vps != [] {
      FewMembers(vps[1..]);
      assert Members(vps) == Members(vps[1..]) + {vps[0]};
    }
  }

  lemma Shifted(v: nat)
    requires v < VA_PAGES
    ensures DirIndex(v * PAGE_SIZE) == v / 32 && TableIndex(v * PAGE_SIZE) == v % 32
  {
  }
}
