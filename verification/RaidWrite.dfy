// The write path of RAID-4 and RAID-5 in 38-RAID/raid.py.
module RaidWrite {
  // How a request is split at stripe boundaries, which blocks are read and written for each part, and why what is read
  // is enough to keep the parity right.

  import opened RaidMapping

  // ----- What the write path has to know of a layout -----

  // The number of disks, the blocks in a stripe, the disk and row of a block, the parity disk of a stripe, the stripe
  // of a row, and the block at a place.
  datatype Place = Place(n: nat, size: int, disk: int -> int, off: int -> int, pdisk: int -> int, stripe: int -> int,
                         unmap: (int, int) -> int)

  function PlaceOf(l: Layout): Place
    requires l.Ok()
  {
    Place(l.numDisks, l.BlocksInStripe(), (b: int) => if l.Ok() then l.Bmap(b).0 else 0,
      (b: int) => if l.Ok() then l.Bmap(b).1 else 0, (s: int) => if l.Ok() then l.Pmap(s) else 0,
      (o: int) => if l.Ok() then l.StripeOfRow(o) else 0, (d: int, o: int) => if l.Ok() then l.Unmap(d, o) else 0)
  }

  // Data blocks and parity fill the disks, each place once, and a stripe has rows of its own.
  ghost predicate Good(l: Place) {
    && l.n >= 2 && l.size > 0
    && (forall b :: b >= 0 ==> GoodBlock(l, b))
    && (forall o :: o >= 0 ==> GoodRow(l, o))
  }

  ghost predicate GoodBlock(l: Place, b: int)
    requires l.size > 0
  {
    var d, o := l.disk(b), l.off(b);
    0 <= d < l.n && o >= 0 && d != l.pdisk(l.stripe(o)) && l.unmap(d, o) == b && l.stripe(o) == b / l.size >= 0
  }

  ghost predicate GoodRow(l: Place, o: int) {
    forall d :: 0 <= d < l.n ==> GoodPlace(l, d, o)
  }

  ghost predicate GoodPlace(l: Place, d: int, o: int) {
    && l.stripe(o) >= 0 && 0 <= l.pdisk(l.stripe(o)) < l.n
    && (d != l.pdisk(l.stripe(o)) ==> l.unmap(d, o) >= 0 && l.disk(l.unmap(d, o)) == d && l.off(l.unmap(d, o)) == o)
  }

  lemma LayoutBlock(l: Layout, b: int)
    requires l.Ok() && b >= 0
    ensures PlaceOf(l).size > 0 && GoodBlock(PlaceOf(l), b)
  {
    BlockPlaced(l, b);
  }

  lemma LayoutPlace(l: Layout, d: int, o: int)
    requires l.Ok() && 0 <= d < l.numDisks && o >= 0
    ensures GoodPlace(PlaceOf(l), d, o)
  {
    NonNegative(o, l.chunkSize);
    ParityDisk(l, l.StripeOfRow(o));
    if d != l.Pmap(l.StripeOfRow(o)) { PlaceFilled(l, d, o); }
  }

  // Every layout of RAID-4 and RAID-5 is like that.
  lemma LayoutIsGood(l: Layout)
    requires l.Ok()
    ensures Good(PlaceOf(l))
  {
    LayoutBlock(l, 0);
    forall b | b >= 0 ensures GoodBlock(PlaceOf(l), b) {
      LayoutBlock(l, b);
    }
    forall o | o >= 0 ensures GoodRow(PlaceOf(l), o) {
      forall d | 0 <= d < l.numDisks ensures GoodPlace(PlaceOf(l), d, o) {
        LayoutPlace(l, d, o);
      }
    }
  }

  // ----- Physical operations -----

  datatype IO = Read(disk: int, off: int) | Write(disk: int, off: int)

  function ReadOf(l: Place, b: int): IO {
    Read(l.disk(b), l.off(b))
  }

  function WriteOf(l: Place, b: int): IO {
    Write(l.disk(b), l.off(b))
  }

  function DataReads(l: Place, begin: int, end: int): seq<IO>
    decreases end - begin
  {
    if begin >= end then [] else DataReads(l, begin, end - 1) + [ReadOf(l, end - 1)]
  }

  function DataWrites(l: Place, begin: int, end: int): seq<IO>
    decreases end - begin
  {
    if begin >= end then [] else DataWrites(l, begin, end - 1) + [WriteOf(l, end - 1)]
  }

  // The rows of some blocks, each once, in order of first appearance.
  function Rows(l: Place, begin: int, end: int): seq<int>
    decreases end - begin
  {
    if begin >= end then []
    else
      var rows, off := Rows(l, begin, end - 1), l.off(end - 1);
      if off in rows then rows else rows + [off]
  }

  function ParityReads(pdisk: int, rows: seq<int>): seq<IO> {
    if rows == [] then [] else ParityReads(pdisk, rows[..|rows| - 1]) + [Read(pdisk, rows[|rows| - 1])]
  }

  function ParityWrites(pdisk: int, rows: seq<int>): seq<IO> {
    if rows == [] then [] else ParityWrites(pdisk, rows[..|rows| - 1]) + [Write(pdisk, rows[|rows| - 1])]
  }

  // Subtractive parity is used if it takes no more reads than additive parity.
  predicate Subtractive(l: Place, begin: int, end: int) {
    (end - begin) + 1 <= l.size - (end - begin)
  }

  function SubtractiveList(l: Place, pdisk: int, begin: int, end: int): seq<IO> {
    DataReads(l, begin, end) + ParityReads(pdisk, Rows(l, begin, end))
  }

  function AdditiveList(l: Place, first: int, begin: int, end: int, last: int): seq<IO> {
    DataReads(l, first, begin) + DataReads(l, end, last)
  }

  // What is read before part of a stripe is written.
  function ReadsFirst(l: Place, stripe: int, begin: int, end: int): seq<IO> {
    if Subtractive(l, begin, end) then SubtractiveList(l, l.pdisk(stripe), begin, end)
    else AdditiveList(l, stripe * l.size, begin, end, stripe * l.size + l.size)
  }

  function PartialWrite(l: Place, stripe: int, begin: int, end: int): seq<IO> {
    ReadsFirst(l, stripe, begin, end)
    + DataWrites(l, begin, end) + ParityWrites(l.pdisk(stripe), Rows(l, begin, end))
  }

  // ----- Which method reads less -----

  lemma {:induction false} DataReadsCount(l: Place, begin: int, end: int)
    requires begin <= end
    ensures |DataReads(l, begin, end)| == end - begin
    decreases end - begin
  {
    if begin < end { DataReadsCount(l, begin, end - 1); }
  }

  lemma {:induction false} ParityReadsCount(pdisk: int, rows: seq<int>)
    ensures |ParityReads(pdisk, rows)| == |rows|
  {
    if rows != [] { ParityReadsCount(pdisk, rows[..|rows| - 1]); }
  }

  // The subtractive method reads the blocks to be written and the parity of each of their rows, the additive method
  // the other blocks of the stripe.
  lemma ReadCounts(l: Place, pdisk: int, first: int, begin: int, end: int)
    requires first <= begin <= end <= first + l.size
    ensures |SubtractiveList(l, pdisk, begin, end)| == end - begin + |Rows(l, begin, end)|
    ensures |AdditiveList(l, first, begin, end, first + l.size)| == l.size - (end - begin)
  {
    DataReadsCount(l, begin, end);
    ParityReadsCount(pdisk, Rows(l, begin, end));
    DataReadsCount(l, first, begin);
    DataReadsCount(l, end, first + l.size);
  }

  // The method that is chosen takes the fewer reads, if the part to be written lies in one row, as it does with chunks
  // of one block. The source counts one parity read for the part, however many rows it is in.
  lemma FewerReads(l: Place, stripe: int, begin: int, end: int)
    requires 0 <= stripe && stripe * l.size <= begin < end <= stripe * l.size + l.size && |Rows(l, begin, end)| == 1
    ensures |ReadsFirst(l, stripe, begin, end)| <= |SubtractiveList(l, l.pdisk(stripe), begin, end)|
    ensures |ReadsFirst(l, stripe, begin, end)|
         <= |AdditiveList(l, stripe * l.size, begin, end, stripe * l.size + l.size)|
  {
    ReadCounts(l, l.pdisk(stripe), stripe * l.size, begin, end);
  }

  // In several rows it can take more: five disks with chunks of four blocks, and seven blocks to be written.
  lemma MoreReads()
    ensures var l := PlaceOf(Layout(RAID4, 5, 4));
      && l.size == 16 && Subtractive(l, 0, 7)
      && |ReadsFirst(l, 0, 0, 7)| > |AdditiveList(l, 0, 0, 7, 16)|
  {
    var l := PlaceOf(Layout(RAID4, 5, 4));
    assert l.off(0) == 0 && l.off(1) == 1 && l.off(2) == 2 && l.off(3) == 3;
    RowsOfFour(l);
    RowsGrow(l, 0, 4, 5);
    RowsGrow(l, 0, 5, 6);
    RowsGrow(l, 0, 6, 7);
    ReadCounts(l, l.pdisk(0), 0, 0, 7);
  }

  lemma RowsGrow(l: Place, begin: int, end: int, more: int)
    requires begin <= end && more == end + 1
    ensures |Rows(l, begin, end)| <= |Rows(l, begin, more)|
  {
  }

  lemma RowsOfFour(l: Place)
    requires l.off(0) == 0 && l.off(1) == 1 && l.off(2) == 2 && l.off(3) == 3
    ensures Rows(l, 0, 4) == [0, 1, 2, 3]
  {
    assert Rows(l, 0, 1) == [0];
    assert Rows(l, 0, 2) == [0, 1];
    assert Rows(l, 0, 3) == [0, 1, 2];
  }

  // ----- What the operations do to the disks -----

  // One bit of a block; every bit of a block is treated alike.
  datatype Bit = Off | On

  function Xor(a: Bit, b: Bit): Bit {
    if a == b then Off else On
  }

  lemma XorLaws(a: Bit, b: Bit, c: Bit)
    ensures Xor(a, b) == Xor(b, a) && Xor(Xor(a, b), c) == Xor(a, Xor(b, c)) && Xor(a, Off) == a
    ensures Xor(a, Xor(a, b)) == b
  {
  }

  // The contents of the disks, for one bit of every block.
  type Store = (int, int) -> Bit

  // The disks and, for each row, the exclusive or of everything read from it or newly written to it.
  datatype State = State(store: Store, acc: int -> Bit)

  function Put(store: Store, disk: int, off: int, value: Bit): Store {
    (d, o) => if d == disk && o == off then value else store(d, o)
  }

  function Mix(acc: int -> Bit, off: int, value: Bit): int -> Bit {
    o => if o == off then Xor(acc(o), value) else acc(o)
  }

  // A data block is written with the data given for it, a parity block with what its row has accumulated: no other
  // contents enter than what has been read.
  function Perform(l: Place, data: int -> Bit, st: State, io: IO): State {
    match io
    case Read(d, o) => State(st.store, Mix(st.acc, o, st.store(d, o)))
    case Write(d, o) =>
      if d == l.pdisk(l.stripe(o)) then State(Put(st.store, d, o, st.acc(o)), st.acc)
      else
        var value := data(l.unmap(d, o));
        State(Put(st.store, d, o, value), Mix(st.acc, o, value))
  }

  function PerformAll(l: Place, data: int -> Bit, st: State, ios: seq<IO>): State {
    if ios == [] then st else Perform(l, data, PerformAll(l, data, st, ios[..|ios| - 1]), ios[|ios| - 1])
  }

  lemma {:induction false} PerformAppend(l: Place, data: int -> Bit, st: State, ios: seq<IO>, more: seq<IO>)
    ensures PerformAll(l, data, st, ios + more) == PerformAll(l, data, PerformAll(l, data, st, ios), more)
  {
    if more == [] {
      assert ios + more == ios;
    } else {
      PerformAppend(l, data, st, ios, more[..|more| - 1]);
      assert (ios + more)[..|ios + more| - 1] == ios + more[..|more| - 1];
    }
  }

  // ----- Rows -----

  // The exclusive or, over the first k disks, of the data blocks of row o that are in begin .. end.
  ghost function RowXor(l: Place, store: Store, o: int, begin: int, end: int, k: nat): Bit {
    if k == 0 then Off
    else
      var d := k - 1;
      var rest := RowXor(l, store, o, begin, end, d);
      if d != l.pdisk(l.stripe(o)) && begin <= l.unmap(d, o) < end then Xor(rest, store(d, o)) else rest
  }

  // The data of row o in begin .. end, over all disks.
  ghost function RowData(l: Place, store: Store, o: int, begin: int, end: int): Bit {
    RowXor(l, store, o, begin, end, l.n)
  }

  ghost function Parity(l: Place, store: Store, o: int): Bit {
    store(l.pdisk(l.stripe(o)), o)
  }

  // One more block adds itself to its row.
  lemma {:induction false} RowXorNext(l: Place, store: Store, o: int, begin: int, end: int, k: nat)
    requires Good(l) && 0 <= begin <= end && o >= 0 && k <= l.n
    ensures RowXor(l, store, o, begin, end + 1, k) ==
      if l.off(end) == o && l.disk(end) < k then Xor(RowXor(l, store, o, begin, end, k), store(l.disk(end), o))
      else RowXor(l, store, o, begin, end, k)
  {
    assert GoodBlock(l, end);
    if k > 0 {
      var d := k - 1;
      RowXorNext(l, store, o, begin, end, d);
      assert GoodRow(l, o) && GoodPlace(l, d, o);
    }
  }

  lemma RowDataNext(l: Place, store: Store, o: int, begin: int, end: int)
    requires Good(l) && 0 <= begin <= end && o >= 0
    ensures RowData(l, store, o, begin, end + 1) ==
      if l.off(end) == o then Xor(RowData(l, store, o, begin, end), store(l.disk(end), o))
      else RowData(l, store, o, begin, end)
  {
    RowXorNext(l, store, o, begin, end, l.n);
    assert GoodBlock(l, end);
  }

  lemma {:induction false} RowXorNone(l: Place, store: Store, o: int, begin: int, end: int, k: nat)
    requires end <= begin
    ensures RowXor(l, store, o, begin, end, k) == Off
  {
    if k > 0 { RowXorNone(l, store, o, begin, end, k - 1); }
  }

  // Adjoining ranges of blocks.
  lemma {:induction false} RowXorSplit(l: Place, store: Store, o: int, begin: int, mid: int, end: int, k: nat)
    requires begin <= mid <= end
    ensures RowXor(l, store, o, begin, end, k) ==
      Xor(RowXor(l, store, o, begin, mid, k), RowXor(l, store, o, mid, end, k))
  {
    if k > 0 {
      var d := k - 1;
      RowXorSplit(l, store, o, begin, mid, end, d);
    }
  }

  // Only the data blocks of the row in the range matter.
  lemma {:induction false} RowXorSame(l: Place, store: Store, store': Store, o: int, begin: int, end: int, k: nat)
    requires forall d :: 0 <= d < k && d != l.pdisk(l.stripe(o)) && begin <= l.unmap(d, o) < end ==>
      store'(d, o) == store(d, o)
    ensures RowXor(l, store', o, begin, end, k) == RowXor(l, store, o, begin, end, k)
  {
    if k > 0 { RowXorSame(l, store, store', o, begin, end, k - 1); }
  }

  // ----- The three phases of a partial write -----

  // From st to st' nothing is written, and row o accumulates v.
  ghost predicate Gathered(st: State, st': State, o: int, v: Bit) {
    st'.store == st.store && st'.acc(o) == Xor(st.acc(o), v)
  }

  // Reading blocks accumulates their rows.
  lemma {:induction false} ReadingBlocks(l: Place, data: int -> Bit, st: State, begin: int, end: int, o: int)
    requires Good(l) && 0 <= begin && o >= 0
    ensures Gathered(st, PerformAll(l, data, st, DataReads(l, begin, end)), o, RowData(l, st.store, o, begin, end))
    decreases end - begin
  {
    if begin >= end {
      RowXorNone(l, st.store, o, begin, end, l.n);
      XorLaws(st.acc(o), Off, Off);
    } else {
      var before := DataReads(l, begin, end - 1);
      ReadingBlocks(l, data, st, begin, end - 1, o);
      RowDataNext(l, st.store, o, begin, end - 1);
    }
  }

  function IfIn(rows: seq<int>, o: int, v: Bit): Bit {
    if o in rows then v else Off
  }

  // Reading the parity of some rows accumulates it, once.
  lemma {:induction false} ReadingParity(l: Place, data: int -> Bit, st: State, p: int, rows: seq<int>, o: int)
    requires forall i, j :: 0 <= i < j < |rows| ==> rows[i] != rows[j]
    ensures Gathered(st, PerformAll(l, data, st, ParityReads(p, rows)), o, IfIn(rows, o, st.store(p, o)))
  {
    XorLaws(st.acc(o), Off, Off);
    if rows != [] {
      var init, last := rows[..|rows| - 1], rows[|rows| - 1];
      var v := st.store(p, o);
      ReadingParity(l, data, st, p, init, o);
      assert rows == init + [last];
      XorLaws(Off, v, Off);
      XorLaws(v, Off, Off);
    }
  }

  // What has been written into begin .. end, at a place that is not parity.
  function Written(l: Place, data: int -> Bit, store: Store, begin: int, end: int, d: int, o: int): Bit {
    if d != l.pdisk(l.stripe(o)) && begin <= l.unmap(d, o) < end then data(l.unmap(d, o)) else store(d, o)
  }

  // One write of a data block.
  lemma WriteStep(l: Place, data: int -> Bit, st: State, b: int, d: int, o: int)
    requires Good(l) && 0 <= b && 0 <= d < l.n && o >= 0
    ensures var st' := Perform(l, data, st, WriteOf(l, b));
      && st'.store(d, o) == (if l.disk(b) == d && l.off(b) == o then data(b) else st.store(d, o))
      && st'.acc(o) == (if l.off(b) == o then Xor(st.acc(o), data(b)) else st.acc(o))
  {
    assert GoodBlock(l, b);
  }

  // The data to be written, as if it were everywhere in place.
  function Target(l: Place, data: int -> Bit): Store {
    (d: int, o: int) => data(l.unmap(d, o))
  }

  lemma TargetNext(l: Place, data: int -> Bit, o: int, begin: int, end: int)
    requires Good(l) && 0 <= begin <= end && o >= 0
    ensures RowData(l, Target(l, data), o, begin, end + 1) ==
      Xor(RowData(l, Target(l, data), o, begin, end), if l.off(end) == o then data(end) else Off)
  {
    RowDataNext(l, Target(l, data), o, begin, end);
    assert GoodBlock(l, end);
  }

  // The exclusive or of the data to be written to a row.
  function NewData(l: Place, data: int -> Bit, o: int, begin: int, end: int): Bit
    decreases end - begin
  {
    if begin >= end then Off
    else Xor(NewData(l, data, o, begin, end - 1), if l.off(end - 1) == o then data(end - 1) else Off)
  }

  // From st to st' the data for begin .. end is written, as far as place (d, o) and row o can tell.
  ghost predicate Wrote(l: Place, data: int -> Bit, st: State, st': State, begin: int, end: int, d: int, o: int) {
    && st'.store(d, o) == Written(l, data, st.store, begin, end, d, o)
    && st'.acc(o) == Xor(st.acc(o), NewData(l, data, o, begin, end))
  }

  lemma WroteNext(l: Place, data: int -> Bit, st: State, st': State, begin: int, b: int, d: int, o: int)
    requires Good(l) && 0 <= begin <= b && 0 <= d < l.n && o >= 0 && Wrote(l, data, st, st', begin, b, d, o)
    ensures Wrote(l, data, st, Perform(l, data, st', WriteOf(l, b)), begin, b + 1, d, o)
  {
    WriteStep(l, data, st', b, d, o);
    assert GoodBlock(l, b) && GoodRow(l, o) && GoodPlace(l, d, o);
    XorLaws(st.acc(o), NewData(l, data, o, begin, b), data(b));
    XorLaws(NewData(l, data, o, begin, b), Off, Off);
  }

  // Writing blocks puts their data in place and accumulates it.
  lemma {:induction false} WritingBlocks(l: Place, data: int -> Bit, st: State, begin: int, end: int, d: int, o: int)
    requires Good(l) && 0 <= begin && 0 <= d < l.n && o >= 0
    ensures Wrote(l, data, st, PerformAll(l, data, st, DataWrites(l, begin, end)), begin, end, d, o)
    decreases end - begin
  {
    if begin >= end {
      XorLaws(st.acc(o), Off, Off);
    } else {
      var before := DataWrites(l, begin, end - 1);
      WritingBlocks(l, data, st, begin, end - 1, d, o);
      WroteNext(l, data, st, PerformAll(l, data, st, before), begin, end - 1, d, o);
    }
  }

  lemma {:induction false} NewDataInRow(l: Place, data: int -> Bit, o: int, begin: int, end: int)
    requires Good(l) && 0 <= begin && o >= 0
    ensures NewData(l, data, o, begin, end) == RowData(l, Target(l, data), o, begin, end)
    decreases end - begin
  {
    if begin < end {
      NewDataInRow(l, data, o, begin, end - 1);
      TargetNext(l, data, o, begin, end - 1);
    } else {
      RowXorNone(l, Target(l, data), o, begin, end, l.n);
    }
  }

  // Writing the parity of some rows.
  lemma {:induction false} WritingParity(l: Place, data: int -> Bit, st: State, p: int, rows: seq<int>, d: int, o: int)
    requires Good(l) && forall i :: 0 <= i < |rows| ==> l.pdisk(l.stripe(rows[i])) == p
    ensures PerformAll(l, data, st, ParityWrites(p, rows)).acc == st.acc
    ensures PerformAll(l, data, st, ParityWrites(p, rows)).store(d, o) ==
      if d == p && o in rows then st.acc(o) else st.store(d, o)
  {
    if rows != [] {
      var init, last := rows[..|rows| - 1], rows[|rows| - 1];
      WritingParity(l, data, st, p, init, d, o);
      assert rows == init + [last];
    }
  }

  // The rows of a part of a stripe.
  lemma {:induction false} RowsTouched(l: Place, begin: int, end: int, o: int)
    requires Good(l) && 0 <= begin
    ensures o in Rows(l, begin, end) <==> exists v :: begin <= v < end && l.off(v) == o
    ensures forall i, j :: 0 <= i < j < |Rows(l, begin, end)| ==> Rows(l, begin, end)[i] != Rows(l, begin, end)[j]
    decreases end - begin
  {
    if begin < end {
      RowsTouched(l, begin, end - 1, o);
      RowsTouched(l, begin, end - 1, l.off(end - 1));
    }
  }

  predicate InStripe(l: Place, stripe: int, begin: int, end: int) {
    0 <= stripe && stripe * l.size <= begin <= end <= stripe * l.size + l.size
  }

  lemma BlockInStripe(l: Place, stripe: int, b: int)
    requires Good(l) && b >= 0 && stripe >= 0
    ensures l.stripe(l.off(b)) == stripe
      <==> stripe * l.size <= b < stripe * l.size + l.size
  {
    assert GoodBlock(l, b);
    var n := l.size;
    if stripe * n <= b < stripe * n + n {
      Quotient(stripe, n, b - stripe * n);
    } else {
      assert b == b / n * n + b % n;
    }
  }

  lemma RowsInStripe(l: Place, stripe: int, begin: int, end: int, o: int)
    requires Good(l) && InStripe(l, stripe, begin, end) && 0 <= begin && o in Rows(l, begin, end)
    ensures o >= 0 && l.stripe(o) == stripe
  {
    RowsTouched(l, begin, end, o);
    var v :| begin <= v < end && l.off(v) == o;
    BlockInStripe(l, stripe, v);
    assert GoodBlock(l, v);
  }

  // The parity of a row is the exclusive or of its data.
  ghost predicate ParityRight(l: Place, store: Store, o: int) {
    var stripeBegin := l.stripe(o) * l.size;
    Parity(l, store, o) == RowData(l, store, o, stripeBegin, stripeBegin + l.size)
  }

  function Start(store: Store): State {
    State(store, (o: int) => Off)
  }

  // The data of row o in first .. last but outside begin .. end.
  ghost function Staying(l: Place, store: Store, first: int, begin: int, end: int, last: int, o: int): Bit {
    Xor(RowData(l, store, o, first, begin), RowData(l, store, o, end, last))
  }

  // What the reads of the two methods accumulate.
  lemma SubtractiveReads(l: Place, data: int -> Bit, st: State, p: int, begin: int, end: int, o: int)
    requires Good(l) && 0 <= begin && o >= 0 && o in Rows(l, begin, end)
    ensures Gathered(st, PerformAll(l, data, st, SubtractiveList(l, p, begin, end)), o,
      Xor(RowData(l, st.store, o, begin, end), st.store(p, o)))
  {
    RowsTouched(l, begin, end, o);
    var st' := PerformAll(l, data, st, DataReads(l, begin, end));
    var st'' := PerformAll(l, data, st', ParityReads(p, Rows(l, begin, end)));
    ReadingBlocks(l, data, st, begin, end, o);
    ReadingParity(l, data, st', p, Rows(l, begin, end), o);
    PerformAppend(l, data, st, DataReads(l, begin, end), ParityReads(p, Rows(l, begin, end)));
  }

  lemma AdditiveReads(l: Place, data: int -> Bit, st: State, first: int, begin: int, end: int, last: int, o: int)
    requires Good(l) && 0 <= first && 0 <= end && o >= 0
    ensures Gathered(st, PerformAll(l, data, st, AdditiveList(l, first, begin, end, last)), o,
      Staying(l, st.store, first, begin, end, last, o))
  {
    var st' := PerformAll(l, data, st, DataReads(l, first, begin));
    var st'' := PerformAll(l, data, st', DataReads(l, end, last));
    ReadingBlocks(l, data, st, first, begin, o);
    ReadingBlocks(l, data, st', end, last, o);
    PerformAppend(l, data, st, DataReads(l, first, begin), DataReads(l, end, last));
  }

  // The old parity with the old data of the part taken out is the data outside the part.
  lemma Outside(l: Place, store: Store, o: int, first: int, begin: int, end: int, last: int)
    requires first <= begin <= end <= last
    ensures Xor(RowData(l, store, o, begin, end), RowData(l, store, o, first, last)) ==
      Staying(l, store, first, begin, end, last, o)
  {
    RowXorSplit(l, store, o, first, begin, last, l.n);
    RowXorSplit(l, store, o, begin, end, last, l.n);
  }

  // The stripe of a row that is written, its parity disk and its blocks.
  lemma TouchedStripe(l: Place, stripe: int, begin: int, end: int, o: int)
    requires Good(l) && InStripe(l, stripe, begin, end) && 0 <= begin && o in Rows(l, begin, end)
    ensures o >= 0 && l.stripe(o) == stripe && 0 <= l.pdisk(stripe) < l.n && 0 <= stripe * l.size
  {
    RowsInStripe(l, stripe, begin, end, o);
    assert GoodRow(l, o) && GoodPlace(l, 0, o);
    MulMonotone(0, stripe, l.size);
  }

  lemma TouchedParity(l: Place, store: Store, stripe: int, begin: int, end: int, o: int)
    requires Good(l) && InStripe(l, stripe, begin, end) && 0 <= begin && o in Rows(l, begin, end)
    requires ParityRight(l, store, o)
    ensures o >= 0 && 0 <= stripe * l.size <= begin <= end <= stripe * l.size + l.size
    ensures store(l.pdisk(stripe), o) == RowData(l, store, o, stripe * l.size, stripe * l.size + l.size)
  {
    TouchedStripe(l, stripe, begin, end, o);
  }

  lemma SubtractiveSuffices(
      l: Place, data: int -> Bit, st: State, p: int, first: int, begin: int, end: int, last: int, o: int)
    requires Good(l) && 0 <= first <= begin <= end <= last && o >= 0 && o in Rows(l, begin, end)
    requires st.store(p, o) == RowData(l, st.store, o, first, last)
    ensures Gathered(st, PerformAll(l, data, st, SubtractiveList(l, p, begin, end)), o,
      Staying(l, st.store, first, begin, end, last, o))
  {
    SubtractiveReads(l, data, st, p, begin, end, o);
    Outside(l, st.store, o, first, begin, end, last);
  }

  // What is read is enough: every row that is going to be written accumulates the data that is going to stay.
  lemma ReadsSuffice(l: Place, data: int -> Bit, st: State, stripe: int, begin: int, end: int, o: int)
    requires Good(l) && InStripe(l, stripe, begin, end) && 0 <= begin && o in Rows(l, begin, end)
    requires ParityRight(l, st.store, o)
    ensures Gathered(st, PerformAll(l, data, st, ReadsFirst(l, stripe, begin, end)), o,
      Staying(l, st.store, stripe * l.size, begin, end, stripe * l.size + l.size, o))
  {
    TouchedParity(l, st.store, stripe, begin, end, o);
    EitherSuffices(l, data, st, stripe, stripe * l.size, begin, end, stripe * l.size + l.size, o);
    SubtractiveFirst(l, stripe, begin, end);
    AdditiveFirst(l, stripe, begin, end);
  }

  lemma EitherSuffices(
      l: Place, data: int -> Bit, st: State, stripe: int, first: int, begin: int, end: int, last: int, o: int)
    requires Good(l) && 0 <= first <= begin <= end <= last && o >= 0 && o in Rows(l, begin, end)
    requires st.store(l.pdisk(stripe), o) == RowData(l, st.store, o, first, last)
    ensures Gathered(st, PerformAll(l, data, st, SubtractiveList(l, l.pdisk(stripe), begin, end)), o,
      Staying(l, st.store, first, begin, end, last, o))
    ensures Gathered(st, PerformAll(l, data, st, AdditiveList(l, first, begin, end, last)), o,
      Staying(l, st.store, first, begin, end, last, o))
  {
    SubtractiveSuffices(l, data, st, l.pdisk(stripe), first, begin, end, last, o);
    AdditiveReads(l, data, st, first, begin, end, last, o);
  }

  lemma SubtractiveFirst(l: Place, stripe: int, begin: int, end: int)
    ensures Subtractive(l, begin, end) ==>
      ReadsFirst(l, stripe, begin, end) == SubtractiveList(l, l.pdisk(stripe), begin, end)
  {
  }

  lemma AdditiveFirst(l: Place, stripe: int, begin: int, end: int)
    ensures !Subtractive(l, begin, end) ==>
      ReadsFirst(l, stripe, begin, end) == AdditiveList(l, stripe * l.size, begin, end, stripe * l.size + l.size)
  {
  }

  // Reads change nothing on the disks.
  predicate AllReads(ios: seq<IO>) {
    forall i :: 0 <= i < |ios| ==> ios[i].Read?
  }

  lemma {:induction false} ReadsKeep(l: Place, data: int -> Bit, st: State, ios: seq<IO>)
    requires AllReads(ios)
    ensures PerformAll(l, data, st, ios).store == st.store
  {
    if ios != [] {
      ReadsKeep(l, data, st, ios[..|ios| - 1]);
    }
  }

  lemma {:induction false} DataReadsAreReads(l: Place, begin: int, end: int)
    ensures AllReads(DataReads(l, begin, end))
    decreases end - begin
  {
    if begin < end { DataReadsAreReads(l, begin, end - 1); }
  }

  lemma {:induction false} ParityReadsAreReads(p: int, rows: seq<int>)
    ensures AllReads(ParityReads(p, rows))
  {
    if rows != [] { ParityReadsAreReads(p, rows[..|rows| - 1]); }
  }

  lemma ReadsFirstKeeps(l: Place, data: int -> Bit, st: State, stripe: int, begin: int, end: int)
    ensures PerformAll(l, data, st, ReadsFirst(l, stripe, begin, end)).store == st.store
  {
    DataReadsAreReads(l, begin, end);
    DataReadsAreReads(l, stripe * l.size, begin);
    DataReadsAreReads(l, end, stripe * l.size + l.size);
    ParityReadsAreReads(l.pdisk(stripe), Rows(l, begin, end));
    ReadsKeep(l, data, st, ReadsFirst(l, stripe, begin, end));
  }

  // The disks after part of a stripe is written.
  function AfterPartial(l: Place, data: int -> Bit, store: Store, stripe: int, begin: int, end: int): Store {
    PerformAll(l, data, Start(store), PartialWrite(l, stripe, begin, end)).store
  }

  // Every place after a partial write: new data, what was there, or the parity of what has been accumulated.
  lemma PartialPlaces(l: Place, data: int -> Bit, store: Store, stripe: int, begin: int, end: int, d: int, o: int)
    requires Good(l) && InStripe(l, stripe, begin, end) && 0 <= begin && 0 <= d < l.n && o >= 0
    ensures AfterPartial(l, data, store, stripe, begin, end)(d, o) ==
      if d == l.pdisk(stripe) && o in Rows(l, begin, end)
      then
        var st := PerformAll(l, data, Start(store), ReadsFirst(l, stripe, begin, end));
        Xor(st.acc(o), NewData(l, data, o, begin, end))
      else Written(l, data, store, begin, end, d, o)
  {
    var st := Start(store);
    var first, puts, rows := ReadsFirst(l, stripe, begin, end), DataWrites(l, begin, end), Rows(l, begin, end);
    var st1 := PerformAll(l, data, st, first);
    var st2 := PerformAll(l, data, st1, puts);
    ReadsFirstKeeps(l, data, st, stripe, begin, end);
    PerformAppend(l, data, st, first, puts);
    PerformAppend(l, data, st, first + puts, ParityWrites(l.pdisk(stripe), rows));
    WritingBlocks(l, data, st1, begin, end, d, o);
    forall i | 0 <= i < |rows| ensures l.pdisk(l.stripe(rows[i])) == l.pdisk(stripe) {
      RowsInStripe(l, stripe, begin, end, rows[i]);
    }
    WritingParity(l, data, st2, l.pdisk(stripe), rows, d, o);
  }

  // ----- Parity after a partial write -----

  // In a row that is written, the parity is that of the data that stays and the new data.
  lemma PartialNewParity(l: Place, data: int -> Bit, store: Store, stripe: int, begin: int, end: int, o: int)
    requires Good(l) && InStripe(l, stripe, begin, end) && 0 <= begin && o in Rows(l, begin, end)
    requires ParityRight(l, store, o)
    ensures Parity(l, AfterPartial(l, data, store, stripe, begin, end), o)
      == Xor(Staying(l, store, stripe * l.size, begin, end, stripe * l.size + l.size, o),
             NewData(l, data, o, begin, end))
  {
    TouchedStripe(l, stripe, begin, end, o);
    PartialPlaces(l, data, store, stripe, begin, end, l.pdisk(stripe), o);
    ReadsSuffice(l, data, Start(store), stripe, begin, end, o);
    XorLaws(Staying(l, store, stripe * l.size, begin, end, stripe * l.size + l.size, o), Off, Off);
  }

  // And so is the data.
  lemma PartialNewData(
      l: Place, data: int -> Bit, store: Store, stripe: int, first: int, begin: int, end: int, last: int, o: int)
    requires Good(l) && InStripe(l, stripe, begin, end) && 0 <= begin && o >= 0 && l.stripe(o) == stripe
    requires first <= begin <= end <= last
    ensures RowData(l, AfterPartial(l, data, store, stripe, begin, end), o, first, last)
      == Xor(Staying(l, store, first, begin, end, last, o), NewData(l, data, o, begin, end))
  {
    var store' := AfterPartial(l, data, store, stripe, begin, end);
    PartialRow(l, data, store, stripe, begin, end, o, first, begin);
    PartialRow(l, data, store, stripe, begin, end, o, end, last);
    PartialNewRow(l, data, store, stripe, begin, end, o);
    NewDataInRow(l, data, o, begin, end);
    RowInThree(l, store', o, first, begin, end, last);
  }

  lemma RowInThree(l: Place, store: Store, o: int, first: int, begin: int, end: int, last: int)
    requires first <= begin <= end <= last
    ensures RowData(l, store, o, first, last) ==
      Xor(Staying(l, store, first, begin, end, last, o), RowData(l, store, o, begin, end))
  {
    RowXorSplit(l, store, o, first, begin, last, l.n);
    RowXorSplit(l, store, o, begin, end, last, l.n);
    var x, y, z := RowData(l, store, o, first, begin), RowData(l, store, o, begin, end),
      RowData(l, store, o, end, last);
    XorLaws(y, z, z);
    XorLaws(x, z, y);
  }

  // A row keeps its parity.
  lemma PartialParity(l: Place, data: int -> Bit, store: Store, stripe: int, begin: int, end: int, o: int)
    requires Good(l) && InStripe(l, stripe, begin, end) && 0 <= begin && o >= 0 && ParityRight(l, store, o)
    ensures ParityRight(l, AfterPartial(l, data, store, stripe, begin, end), o)
  {
    if o in Rows(l, begin, end) {
      TouchedStripe(l, stripe, begin, end, o);
      PartialNewParity(l, data, store, stripe, begin, end, o);
      PartialNewData(l, data, store, stripe, stripe * l.size, begin, end, stripe * l.size + l.size, o);
    } else {
      var p := l.pdisk(l.stripe(o));
      assert GoodRow(l, o) && GoodPlace(l, 0, o);
      PartialPlaces(l, data, store, stripe, begin, end, p, o);
      PartialOtherRow(l, data, store, stripe, begin, end, o, l.stripe(o) * l.size, l.stripe(o) * l.size + l.size);
    }
  }

  // Data outside the part stays.
  lemma PartialRow(
      l: Place, data: int -> Bit, store: Store, stripe: int, begin: int, end: int, o: int, lo: int, hi: int)
    requires Good(l) && InStripe(l, stripe, begin, end) && 0 <= begin && o >= 0 && l.stripe(o) == stripe
    requires hi <= begin || end <= lo
    ensures RowData(l, AfterPartial(l, data, store, stripe, begin, end), o, lo, hi) == RowData(l, store, o, lo, hi)
  {
    var store' := AfterPartial(l, data, store, stripe, begin, end);
    forall d | 0 <= d < l.n && d != l.pdisk(l.stripe(o)) && lo <= l.unmap(d, o) < hi
      ensures store'(d, o) == store(d, o)
    {
      PartialPlaces(l, data, store, stripe, begin, end, d, o);
    }
    RowXorSame(l, store, store', o, lo, hi, l.n);
  }

  // Data inside is new.
  lemma PartialNewRow(l: Place, data: int -> Bit, store: Store, stripe: int, begin: int, end: int, o: int)
    requires Good(l) && InStripe(l, stripe, begin, end) && 0 <= begin && o >= 0 && l.stripe(o) == stripe
    ensures RowData(l, AfterPartial(l, data, store, stripe, begin, end), o, begin, end)
      == RowData(l, Target(l, data), o, begin, end)
  {
    var store' := AfterPartial(l, data, store, stripe, begin, end);
    forall d | 0 <= d < l.n && d != l.pdisk(l.stripe(o)) && begin <= l.unmap(d, o) < end
      ensures store'(d, o) == Target(l, data)(d, o)
    {
      PartialPlaces(l, data, store, stripe, begin, end, d, o);
    }
    RowXorSame(l, Target(l, data), store', o, begin, end, l.n);
  }

  // A row that is not written stays.
  lemma PartialOtherRow(
      l: Place, data: int -> Bit, store: Store, stripe: int, begin: int, end: int, o: int, lo: int, hi: int)
    requires Good(l) && InStripe(l, stripe, begin, end) && 0 <= begin && o >= 0 && o !in Rows(l, begin, end)
    ensures RowData(l, AfterPartial(l, data, store, stripe, begin, end), o, lo, hi) == RowData(l, store, o, lo, hi)
  {
    var store' := AfterPartial(l, data, store, stripe, begin, end);
    forall d | 0 <= d < l.n && d != l.pdisk(l.stripe(o)) ensures store'(d, o) == store(d, o) {
      PartialPlaces(l, data, store, stripe, begin, end, d, o);
      assert GoodRow(l, o) && GoodPlace(l, d, o);
      RowsTouched(l, begin, end, o);
    }
    RowXorSame(l, store, store', o, lo, hi, l.n);
  }

  // ----- A whole write -----

  lemma StripeBounds(n: int, b: int)
    requires n > 0 && b >= 0
    ensures 0 <= b / n && 0 <= b / n * n <= b < b / n * n + n
  {
    assert b == b / n * n + b % n;
    MulMonotone(0, b / n, n);
  }

  // Where the part of the request that starts at begin ends: with the request or with the stripe.
  function PartEnd(l: Place, begin: int, end: int): (e: int)
    requires l.size > 0 && 0 <= begin < end
    ensures l.size > 0 && begin < e <= end && InStripe(l, begin / l.size, begin, e)
    ensures e == if end < begin / l.size * l.size + l.size then end else begin / l.size * l.size + l.size
  {
    StripeBounds(l.size, begin);
    var endOfStripe := begin / l.size * l.size + l.size;
    if end < endOfStripe then end else endOfStripe
  }

  function Parts(l: Place, begin: int, end: int): seq<(int, int)>
    requires l.size > 0 && 0 <= begin
    decreases end - begin
  {
    if begin >= end then [] else [(begin, PartEnd(l, begin, end))] + Parts(l, PartEnd(l, begin, end), end)
  }

  ghost predicate GoodPart(l: Place, part: (int, int)) {
    Good(l) && 0 <= part.0 < part.1 && InStripe(l, part.0 / l.size, part.0, part.1)
  }

  // The parts are not empty, each is within a stripe, and each starts where the one before ends.
  lemma {:induction false} PartsCover(l: Place, begin: int, end: int)
    requires Good(l) && 0 <= begin <= end
    ensures var parts := Parts(l, begin, end);
      && (forall i :: 0 <= i < |parts| ==> GoodPart(l, parts[i]))
      && (parts == [] <==> begin == end)
      && (parts != [] ==> parts[0].0 == begin && parts[|parts| - 1].1 == end)
      && forall i :: 0 < i < |parts| ==> parts[i - 1].1 == parts[i].0
    decreases end - begin
  {
    if begin < end {
      PartsCover(l, PartEnd(l, begin, end), end);
    }
  }

  // So every block of the request is in exactly one part.
  lemma {:induction false} PartsOnce(l: Place, begin: int, end: int, b: int) returns (i: nat)
    requires Good(l) && 0 <= begin <= b < end
    ensures i < |Parts(l, begin, end)| && Parts(l, begin, end)[i].0 <= b < Parts(l, begin, end)[i].1
    ensures forall j ::
      0 <= j < |Parts(l, begin, end)| && Parts(l, begin, end)[j].0 <= b < Parts(l, begin, end)[j].1 ==> j == i
    decreases end - begin
  {
    var e := PartEnd(l, begin, end);
    var rest := Parts(l, e, end);
    PartsFrom(l, e, end);
    if b < e {
      i := 0;
    } else {
      var k := PartsOnce(l, e, end, b);
      i := k + 1;
    }
  }

  lemma {:induction false} PartsFrom(l: Place, begin: int, end: int)
    requires Good(l) && 0 <= begin <= end
    ensures forall i :: 0 <= i < |Parts(l, begin, end)| ==> Parts(l, begin, end)[i].0 >= begin
    decreases end - begin
  {
    if begin < end {
      PartsFrom(l, PartEnd(l, begin, end), end);
    }
  }

  function Plan(l: Place, parts: seq<(int, int)>): seq<IO>
    requires l.size > 0
  {
    if parts == [] then [] else PartialWrite(l, parts[0].0 / l.size, parts[0].0, parts[0].1) + Plan(l, parts[1..])
  }

  // All that is done for a write of begin .. end.
  function PlanFor(l: Place, begin: int, end: int): seq<IO>
    requires l.size > 0 && 0 <= begin
  {
    Plan(l, Parts(l, begin, end))
  }

  // Where data block b is, there is the new data for the blocks of the request and the old data for all others.
  lemma {:induction false} PartialBlock(
      l: Place, data: int -> Bit, store: Store, stripe: int, begin: int, end: int, b: int)
    requires Good(l) && InStripe(l, stripe, begin, end) && 0 <= begin && b >= 0
    ensures AfterPartial(l, data, store, stripe, begin, end)(l.disk(b), l.off(b))
      == if begin <= b < end then data(b) else store(l.disk(b), l.off(b))
  {
    assert GoodBlock(l, b);
    var d, o := l.disk(b), l.off(b);
    PartialPlaces(l, data, store, stripe, begin, end, d, o);
    if o in Rows(l, begin, end) {
      RowsInStripe(l, stripe, begin, end, o);
    }
  }

  // ----- What parity is for -----

  // The exclusive or of a row over the first k disks, leaving out one disk.
  function OtherDisks(store: Store, o: int, skip: int, k: nat): Bit {
    if k == 0 then Off
    else if k - 1 == skip then OtherDisks(store, o, skip, k - 1)
    else Xor(OtherDisks(store, o, skip, k - 1), store(k - 1, o))
  }

  // Any one disk, the parity disk included, can be rebuilt from the others.
  lemma Rebuild(l: Place, store: Store, o: int, lost: int)
    requires Good(l) && o >= 0 && 0 <= lost < l.n && ParityRight(l, store, o)
    ensures store(lost, o) == OtherDisks(store, o, lost, l.n)
  {
    assert GoodRow(l, o) && GoodPlace(l, 0, o);
    RowIsAllDisks(l, store, o, l.n);
    SkipOne(store, o, lost, l.pdisk(l.stripe(o)), l.n);
  }

  // All the data of a row is in its stripe.
  lemma {:induction false} RowIsAllDisks(l: Place, store: Store, o: int, k: nat)
    requires Good(l) && o >= 0 && k <= l.n
    ensures var first := l.stripe(o) * l.size;
      RowXor(l, store, o, first, first + l.size, k) == OtherDisks(store, o, l.pdisk(l.stripe(o)), k)
  {
    if k > 0 {
      RowIsAllDisks(l, store, o, k - 1);
      if k - 1 != l.pdisk(l.stripe(o)) {
        assert GoodRow(l, o) && GoodPlace(l, k - 1, o);
        BlockInStripe(l, l.stripe(o), l.unmap(k - 1, o));
      }
    }
  }

  // Leaving out one disk or another differs by those two.
  lemma {:induction false} SkipOne(store: Store, o: int, x: int, y: int, k: nat)
    ensures Xor(OtherDisks(store, o, x, k), if 0 <= x < k then store(x, o) else Off)
      == Xor(OtherDisks(store, o, y, k), if 0 <= y < k then store(y, o) else Off)
  {
    if k > 0 { SkipOne(store, o, x, y, k - 1); }
  }

  // ----- Whole runs -----

  // A write of some blocks, with the data for them; and a part of one.
  datatype Request = Request(addr: int, size: int, data: int -> Bit)
  datatype Job = Job(data: int -> Bit, begin: int, end: int)

  ghost predicate Sound(requests: seq<Request>) {
    forall i :: 0 <= i < |requests| ==> requests[i].addr >= 0 && requests[i].size >= 0
  }

  function JobsOf(data: int -> Bit, parts: seq<(int, int)>): seq<Job> {
    if parts == [] then []
    else JobsOf(data, parts[..|parts| - 1]) + [Job(data, parts[|parts| - 1].0, parts[|parts| - 1].1)]
  }

  // The parts of all requests, in order.
  ghost function Jobs(l: Place, requests: seq<Request>): seq<Job>
    requires l.size > 0 && Sound(requests)
  {
    if requests == [] then []
    else
      var last := requests[|requests| - 1];
      Jobs(l, requests[..|requests| - 1]) + JobsOf(last.data, Parts(l, last.addr, last.addr + last.size))
  }

  // The disks after some parts have been written, one after the other.
  ghost function AfterJobs(l: Place, store: Store, jobs: seq<Job>): Store
    requires l.size > 0
  {
    if jobs == [] then store
    else
      var job := jobs[|jobs| - 1];
      AfterPartial(l, job.data, AfterJobs(l, store, jobs[..|jobs| - 1]), job.begin / l.size, job.begin, job.end)
  }

  ghost predicate GoodJobs(l: Place, jobs: seq<Job>) {
    forall i :: 0 <= i < |jobs| ==> GoodPart(l, (jobs[i].begin, jobs[i].end))
  }

  // What block b should hold: the data of the latest write to it.
  function Latest(requests: seq<Request>, b: int, initial: Bit): Bit {
    if requests == [] then initial
    else
      var last := requests[|requests| - 1];
      if last.addr <= b < last.addr + last.size then last.data(b) else Latest(requests[..|requests| - 1], b, initial)
  }

  function LatestJob(jobs: seq<Job>, b: int, initial: Bit): Bit {
    if jobs == [] then initial
    else
      var last := jobs[|jobs| - 1];
      if last.begin <= b < last.end then last.data(b) else LatestJob(jobs[..|jobs| - 1], b, initial)
  }

  // Every row keeps its parity through any number of writes.
  lemma {:induction false} JobsKeepParity(l: Place, store: Store, jobs: seq<Job>, o: int)
    requires Good(l) && GoodJobs(l, jobs) && o >= 0 && ParityRight(l, store, o)
    ensures ParityRight(l, AfterJobs(l, store, jobs), o)
  {
    if jobs != [] {
      var init, job := jobs[..|jobs| - 1], jobs[|jobs| - 1];
      assert GoodPart(l, (job.begin, job.end));
      JobsKeepParity(l, store, init, o);
      PartialParity(l, job.data, AfterJobs(l, store, init), job.begin / l.size, job.begin, job.end, o);
    }
  }

  // Every block holds what was written to it last.
  lemma {:induction false} JobsKeepData(l: Place, store: Store, jobs: seq<Job>, b: int)
    requires Good(l) && GoodJobs(l, jobs) && b >= 0
    ensures AfterJobs(l, store, jobs)(l.disk(b), l.off(b)) == LatestJob(jobs, b, store(l.disk(b), l.off(b)))
  {
    if jobs != [] {
      var init, job := jobs[..|jobs| - 1], jobs[|jobs| - 1];
      assert GoodPart(l, (job.begin, job.end));
      JobsKeepData(l, store, init, b);
      PartialBlock(l, job.data, AfterJobs(l, store, init), job.begin / l.size, job.begin, job.end, b);
    }
  }

  ghost predicate InSome(parts: seq<(int, int)>, b: int) {
    exists i :: 0 <= i < |parts| && parts[i].0 <= b < parts[i].1
  }

  lemma {:induction false} LatestOfParts(jobs: seq<Job>, data: int -> Bit, parts: seq<(int, int)>, b: int, initial: Bit)
    ensures LatestJob(jobs + JobsOf(data, parts), b, initial) ==
      if InSome(parts, b) then data(b) else LatestJob(jobs, b, initial)
  {
    if parts == [] {
      assert jobs + JobsOf(data, parts) == jobs;
    } else {
      var init, part := parts[..|parts| - 1], parts[|parts| - 1];
      LatestOfParts(jobs, data, init, b, initial);
      var all := jobs + JobsOf(data, parts);
      assert all[..|all| - 1] == jobs + JobsOf(data, init);
      InSomeLast(parts, b);
    }
  }

  lemma InSomeLast(parts: seq<(int, int)>, b: int)
    requires parts != []
    ensures var init, part := parts[..|parts| - 1], parts[|parts| - 1];
      InSome(parts, b) <==> InSome(init, b) || part.0 <= b < part.1
  {
    var init, part := parts[..|parts| - 1], parts[|parts| - 1];
    if i :| 0 <= i < |init| && init[i].0 <= b < init[i].1 {
      assert parts[i].0 <= b < parts[i].1;
    }
    if i :| 0 <= i < |parts| && parts[i].0 <= b < parts[i].1 {
      assert i < |init| ==> init[i].0 <= b < init[i].1;
    }
  }

  lemma {:induction false} PartsWithin(l: Place, begin: int, end: int, b: int)
    requires Good(l) && 0 <= begin <= end
    ensures InSome(Parts(l, begin, end), b) <==> begin <= b < end
    decreases end - begin
  {
    if begin < end {
      var e := PartEnd(l, begin, end);
      var rest := Parts(l, e, end);
      PartsWithin(l, e, end, b);
      var parts := Parts(l, begin, end);
      assert parts == [(begin, e)] + rest;
      if i :| 0 <= i < |rest| && rest[i].0 <= b < rest[i].1 {
        assert parts[i + 1].0 <= b < parts[i + 1].1;
      }
      if i :| 0 <= i < |parts| && parts[i].0 <= b < parts[i].1 {
        assert i > 0 ==> rest[i - 1].0 <= b < rest[i - 1].1;
      }
      assert parts[0].0 <= b < parts[0].1 <==> begin <= b < e;
    }
  }

  lemma {:induction false} LatestIsSame(l: Place, requests: seq<Request>, b: int, initial: Bit)
    requires Good(l) && Sound(requests)
    ensures LatestJob(Jobs(l, requests), b, initial) == Latest(requests, b, initial)
  {
    if requests != [] {
      var init, last := requests[..|requests| - 1], requests[|requests| - 1];
      LatestIsSame(l, init, b, initial);
      LatestOfParts(Jobs(l, init), last.data, Parts(l, last.addr, last.addr + last.size), b, initial);
      PartsWithin(l, last.addr, last.addr + last.size, b);
    }
  }

  lemma {:induction false} JobsOfParts(l: Place, data: int -> Bit, parts: seq<(int, int)>)
    requires forall i :: 0 <= i < |parts| ==> GoodPart(l, parts[i])
    ensures GoodJobs(l, JobsOf(data, parts))
  {
    if parts != [] {
      JobsOfParts(l, data, parts[..|parts| - 1]);
      assert GoodPart(l, parts[|parts| - 1]);
    }
  }

  lemma {:induction false} JobsAreGood(l: Place, requests: seq<Request>)
    requires Good(l) && Sound(requests)
    ensures GoodJobs(l, Jobs(l, requests))
  {
    if requests != [] {
      var init, last := requests[..|requests| - 1], requests[|requests| - 1];
      JobsAreGood(l, init);
      PartsCover(l, last.addr, last.addr + last.size);
      JobsOfParts(l, last.data, Parts(l, last.addr, last.addr + last.size));
    }
  }

  lemma {:induction false} BlankRow(l: Place, o: int, begin: int, end: int, k: nat)
    ensures RowXor(l, Blank(), o, begin, end, k) == Off
  {
    if k > 0 { BlankRow(l, o, begin, end, k - 1); }
  }

  function Blank(): Store {
    (d: int, o: int) => Off
  }

  // What the array is for: after any writes to blank disks, the data of every block can be read from its place, and
  // can also be rebuilt from the other disks if the disk that holds it is lost.
  lemma SurvivesLoss(layout: Layout, requests: seq<Request>, b: int)
    requires layout.Ok() && Sound(requests) && b >= 0
    ensures PlaceOf(layout).size > 0
    ensures var store := AfterJobs(PlaceOf(layout), Blank(), Jobs(PlaceOf(layout), requests));
      && store(layout.Bmap(b).0, layout.Bmap(b).1) == Latest(requests, b, Off)
      && OtherDisks(store, layout.Bmap(b).1, layout.Bmap(b).0, layout.numDisks) == Latest(requests, b, Off)
  {
    LayoutIsGood(layout);
    SurvivesAt(PlaceOf(layout), requests, b);
  }

  lemma SurvivesAt(l: Place, requests: seq<Request>, b: int)
    requires Good(l) && Sound(requests) && b >= 0
    ensures var store := AfterJobs(l, Blank(), Jobs(l, requests));
      && store(l.disk(b), l.off(b)) == Latest(requests, b, Off)
      && OtherDisks(store, l.off(b), l.disk(b), l.n) == Latest(requests, b, Off)
  {
    var jobs := Jobs(l, requests);
    assert GoodBlock(l, b);
    BlankRow(l, l.off(b), l.stripe(l.off(b)) * l.size, l.stripe(l.off(b)) * l.size + l.size, l.n);
    JobsAreGood(l, requests);
    JobsKeepParity(l, Blank(), jobs, l.off(b));
    JobsKeepData(l, Blank(), jobs, b);
    LatestIsSame(l, requests, b, Off);
    Rebuild(l, AfterJobs(l, Blank(), jobs), l.off(b), l.disk(b));
  }

  // ----- The array -----

  class Raid {
    const l: Place
    var log: seq<IO>

    constructor (kind: Kind, numDisks: int, chunkSize: int)
      requires numDisks >= 2 && chunkSize >= 1
      ensures l == PlaceOf(Layout(kind, numDisks, chunkSize)) && Good(l) && log == []
    {
      LayoutIsGood(Layout(kind, numDisks, chunkSize));
      l := PlaceOf(Layout(kind, numDisks, chunkSize));
      log := [];
    }

    method DoSingleRead(disk: int, off: int)
      modifies this
      ensures log == old(log) + [Read(disk, off)]
    {
      log := log + [Read(disk, off)];
    }

    method DoSingleWrite(disk: int, off: int)
      modifies this
      ensures log == old(log) + [Write(disk, off)]
    {
      log := log + [Write(disk, off)];
    }

    // Read data blocks begin .. end, collecting their rows.
    method ReadBlocks(begin: int, end: int) returns (offList: seq<int>)
      requires Good(l) && begin <= end
      modifies this
      ensures log == old(log) + DataReads(l, begin, end) && offList == Rows(l, begin, end)
    {
      offList := [];
      for voff := begin to end
        invariant log == old(log) + DataReads(l, begin, voff) && offList == Rows(l, begin, voff)
      {
        var disk, off := l.disk(voff), l.off(voff);
        DoSingleRead(disk, off);
        if off !in offList {
          offList := offList + [off];
        }
      }
    }

    method WriteBlocks(begin: int, end: int) returns (offList: seq<int>)
      requires Good(l) && begin <= end
      modifies this
      ensures log == old(log) + DataWrites(l, begin, end) && offList == Rows(l, begin, end)
    {
      offList := [];
      for voff := begin to end
        invariant log == old(log) + DataWrites(l, begin, voff) && offList == Rows(l, begin, voff)
      {
        var disk, off := l.disk(voff), l.off(voff);
        DoSingleWrite(disk, off);
        if off !in offList {
          offList := offList + [off];
        }
      }
    }

    method ReadParity(pdisk: int, offList: seq<int>)
      modifies this
      ensures log == old(log) + ParityReads(pdisk, offList)
    {
      for i := 0 to |offList|
        invariant log == old(log) + ParityReads(pdisk, offList[..i])
      {
        DoSingleRead(pdisk, offList[i]);
        assert offList[..i + 1][..i] == offList[..i];
      }
      assert offList[..|offList|] == offList;
    }

    method WriteParity(pdisk: int, offList: seq<int>)
      modifies this
      ensures log == old(log) + ParityWrites(pdisk, offList)
    {
      for i := 0 to |offList|
        invariant log == old(log) + ParityWrites(pdisk, offList[..i])
      {
        DoSingleWrite(pdisk, offList[i]);
        assert offList[..i + 1][..i] == offList[..i];
      }
      assert offList[..|offList|] == offList;
    }

    method ReadFirst(stripe: int, begin: int, end: int)
      requires Good(l) && InStripe(l, stripe, begin, end)
      modifies this
      ensures log == old(log) + ReadsFirst(l, stripe, begin, end)
    {
      var numWrites := end - begin;
      if numWrites + 1 <= l.size - numWrites {
        var offList := ReadBlocks(begin, end);
        ReadParity(l.pdisk(stripe), offList);
      } else {
        var stripeBegin := stripe * l.size;
        var stripeEnd := stripeBegin + l.size;
        var _ := ReadBlocks(stripeBegin, begin);
        var _ := ReadBlocks(end, stripeEnd);
      }
    }

    // Write part of a stripe.
    method DoPartialWrite(stripe: int, begin: int, end: int)
      requires Good(l) && InStripe(l, stripe, begin, end)
      modifies this
      ensures log == old(log) + PartialWrite(l, stripe, begin, end)
    {
      ReadFirst(stripe, begin, end);
      var offList := WriteBlocks(begin, end);
      WriteParity(l.pdisk(stripe), offList);
    }

    // A request: reads go to the blocks in turn, a write is done one stripe at a time. A request of no blocks does
    // nothing.
    method Enqueue45(addr: int, size: int, isWrite: bool)
      requires Good(l) && addr >= 0 && size >= 0
      modifies this
      ensures !isWrite ==> log == old(log) + DataReads(l, addr, addr + size)
      ensures l.size > 0
      ensures isWrite ==> log == old(log) + PlanFor(l, addr, addr + size)
      ensures size == 0 ==> log == old(log)
    {
      if !isWrite {
        var _ := ReadBlocks(addr, addr + size);
      } else {
        WriteStripes(addr, size, PlanFor(l, addr, addr + size));
      }
    }

    // The loop over stripes.
    method WriteStripes(addr: int, size: int, ghost plan: seq<IO>)
      requires Good(l) && addr >= 0 && size >= 0 && l.size > 0 && plan == PlanFor(l, addr, addr + size)
      modifies this
      ensures log == old(log) + plan
    {
      var initStripe := addr / l.size;
      var end := addr + size;
      var finalStripe := Truncated(end - 1, l.size);
      var left, begin := size, addr;
      ghost var done: seq<IO> := [];
      AtFirst(l, plan, addr, end);
      for stripe := initStripe to finalStripe + 1
        invariant left == end - begin && log == old(log) + done && AtTurn(l, plan, done, addr, begin, end, stripe)
      {
        InTurn(l, plan, done, addr, begin, end, stripe, finalStripe);
        var partEnd, part := WritePart(stripe, begin, left);
        TurnDone(l, plan, done, addr, begin, end, stripe, partEnd, part);
        Assoc(old(log), done, part);
        done := done + part;
        left := left - (partEnd - begin);
        begin := partEnd;
      }
      AfterTurns(l, plan, done, addr, begin, end, finalStripe);
    }

    // One turn of the loop over stripes; with no blocks to write there can be one turn, and it does nothing.
    method WritePart(stripe: int, begin: int, left: int) returns (end: int, ghost part: seq<IO>)
      requires Good(l) && left >= 0
      requires TurnFor(l, begin, begin + left, stripe)
      modifies this
      ensures log == old(log) + part && PartDone(l, begin, begin + left, stripe, end, part)
    {
      var endOfStripe := stripe * l.size + l.size;
      if left >= l.size {
        end := begin + l.size;
      } else {
        end := begin + left;
      }
      if end >= endOfStripe {
        end := endOfStripe;
      }
      StripeBounds(l.size, begin);
      if left > 0 { NextStripe(l.size, begin, begin + left, end, stripe); }
      DoPartialWrite(stripe, begin, end);
      part := PartialWrite(l, stripe, begin, end);
    }
  }

  // The turn for block begin of a request that ends at stop.
  ghost predicate TurnFor(l: Place, begin: int, stop: int, stripe: int) {
    && l.size > 0 && 0 <= begin
    && if begin < stop then AtStripe(l.size, begin, stop, stripe) else stripe == begin / l.size
  }

  // The part from begin has been written, of a request that ends at stop.
  ghost predicate PartDone(l: Place, begin: int, stop: int, stripe: int, end: int, part: seq<IO>) {
    && l.size > 0 && 0 <= begin
    && if begin < stop then
        && end == PartEnd(l, begin, stop) && part == PartialWrite(l, stripe, begin, end)
        && AtStripe(l.size, end, stop, stripe + 1)
       else end == begin && part == []
  }

  // The loop has written what comes before begin, and is at that block's stripe; if the request has no blocks it makes
  // at most one turn.
  ghost predicate AtTurn(l: Place, plan: seq<IO>, done: seq<IO>, addr: int, begin: int, end: int, stripe: int) {
    && DoneBefore(l, plan, done, addr, begin, end)
    && if addr < end then AtStripe(l.size, begin, end, stripe) else stripe >= addr / l.size
  }

  lemma InTurn(l: Place, plan: seq<IO>, done: seq<IO>, addr: int, begin: int, end: int, stripe: int, last: int)
    requires AtTurn(l, plan, done, addr, begin, end, stripe) && stripe <= last == Truncated(end - 1, l.size)
    ensures TurnFor(l, begin, end, stripe) && (addr < end ==> begin < end)
  {
    if addr == end { AtNone(addr, l.size); }
  }

  lemma AfterTurns(l: Place, plan: seq<IO>, done: seq<IO>, addr: int, begin: int, end: int, last: int)
    requires AtTurn(l, plan, done, addr, begin, end, last + 1) && last == Truncated(end - 1, l.size)
    ensures done == plan
  {
  }

  lemma TurnDone(
      l: Place, plan: seq<IO>, done: seq<IO>, addr: int, begin: int, end: int, stripe: int, e: int, part: seq<IO>)
    requires AtTurn(l, plan, done, addr, begin, end, stripe) && PartDone(l, begin, end, stripe, e, part)
    requires addr < end ==> begin < end
    ensures AtTurn(l, plan, done + part, addr, e, end, stripe + 1)
  {
    if addr < end { DoneNext(l, plan, done, addr, begin, end, e, part); }
  }

  // int(a / b), which truncates.
  function Truncated(a: int, b: int): int
    requires b > 0
  {
    if a < 0 then -(-a / b) else a / b
  }

  lemma BlockBefore(q: int, n: int, r: int)
    requires 0 <= r < n && q * n + r > 0
    ensures q - 1 <= (q * n + r - 1) / n <= q
  {
    if r == 0 {
      assert q * n - 1 == (q - 1) * n + (n - 1);
      Quotient(q - 1, n, n - 1);
    } else {
      Quotient(q, n, r - 1);
    }
  }

  // With no blocks to write the loop makes at most one turn, at the stripe of the address.
  lemma AtNone(addr: int, n: int)
    requires addr >= 0 && n > 0
    ensures addr / n <= Truncated(addr - 1, n) + 1 <= addr / n + 1
  {
    if addr > 0 {
      assert addr == addr / n * n + addr % n;
      BlockBefore(addr / n, n, addr % n);
    } else {
      assert 0 / n == 0 && 0 <= 1 / n <= 1 by { Quotient(0, n, 0); if n > 1 { Quotient(0, n, 1); } }
    }
  }

  // What is done by the time the loop gets to block begin.
  ghost predicate DoneBefore(l: Place, plan: seq<IO>, done: seq<IO>, addr: int, begin: int, end: int) {
    && l.size > 0 && 0 <= addr <= begin <= end
    && done + PlanFor(l, begin, end) == plan
  }

  lemma Assoc(a: seq<IO>, b: seq<IO>, c: seq<IO>)
    ensures a + (b + c) == (a + b) + c
  {
  }

  lemma PlanFirst(l: Place, begin: int, end: int)
    requires l.size > 0 && 0 <= begin < end
    ensures var e := PartEnd(l, begin, end);
      PlanFor(l, begin, end) == PartialWrite(l, begin / l.size, begin, e) + PlanFor(l, e, end)
  {
    var e := PartEnd(l, begin, end);
    assert Parts(l, begin, end) == [(begin, e)] + Parts(l, e, end);
  }

  lemma DoneNext(l: Place, plan: seq<IO>, done: seq<IO>, addr: int, begin: int, end: int, e: int, part: seq<IO>)
    requires DoneBefore(l, plan, done, addr, begin, end) && begin < end
    requires e == PartEnd(l, begin, end) && part == PartialWrite(l, begin / l.size, begin, e)
    ensures DoneBefore(l, plan, done + part, addr, e, end)
  {
    PlanFirst(l, begin, end);
    Assoc(done, part, PlanFor(l, e, end));
  }

  // The loop is at the stripe of block begin, or past the last stripe if everything is written.
  ghost predicate AtStripe(n: int, begin: int, end: int, stripe: int) {
    && n > 0 && 0 <= begin <= end && 0 < end
    && (if begin < end then stripe == begin / n && stripe <= (end - 1) / n else stripe == (end - 1) / n + 1)
  }

  lemma AtFirst(l: Place, plan: seq<IO>, addr: int, end: int)
    requires l.size > 0 && 0 <= addr <= end && plan == PlanFor(l, addr, end)
    ensures AtTurn(l, plan, [], addr, addr, end, addr / l.size)
    ensures addr / l.size <= Truncated(end - 1, l.size) + 1
  {
    TurnsInOrder(addr, end, l.size);
    assert [] + plan == plan;
  }

  lemma TurnsInOrder(addr: int, end: int, n: int)
    requires n > 0 && 0 <= addr <= end
    ensures addr / n <= Truncated(end - 1, n) + 1
    ensures addr < end ==> addr / n <= (end - 1) / n
  {
    if addr < end { StripesInOrder(addr, end - 1, n); } else { AtNone(addr, n); }
  }

  lemma NextStripe(n: int, begin: int, end: int, e: int, stripe: int)
    requires AtStripe(n, begin, end, stripe) && begin < end
    requires e == if end < stripe * n + n then end else stripe * n + n
    ensures AtStripe(n, e, end, stripe + 1)
  {
    StripeBounds(n, begin);
    Quotient(stripe + 1, n, 0);
    assert stripe * n + n == (stripe + 1) * n;
    if e < end {
      StripesInOrder(e, end - 1, n);
    } else {
      Quotient(stripe, n, n - 1);
      StripesInOrder(end - 1, stripe * n + (n - 1), n);
    }
  }

  lemma StripesInOrder(a: int, b: int, n: int)
    requires a <= b && n > 0
    ensures a / n <= b / n
  {
    var p, q := a / n, b / n;
    assert a == p * n + a % n && b == q * n + b % n;
    if p > q {
      MulMonotone(q + 1, p, n);
    }
  }
}
