// The block mappings of 38-RAID/raid.py and the write path of RAID-4 and RAID-5. Quotients of counts that are not
// negative are floor divisions.
module RaidMapping {
  // ----- Striping -----

  // Block bnum goes to column cnum % m of m columns, cnum its chunk, at a row counted in chunks of c blocks.
  function Column(m: int, c: int, bnum: int): int
    requires m > 0 && c > 0
  {
    bnum / c % m
  }

  function Row(m: int, c: int, bnum: int): int
    requires m > 0 && c > 0
  {
    bnum / c / m * c + bnum % c
  }

  // The block at a column and a row.
  function BlockAt(m: int, c: int, column: int, row: int): int
    requires c > 0
  {
    (row / c * m + column) * c + row % c
  }

  lemma Quotient(q: int, d: int, r: int)
    requires 0 <= r < d
    ensures (q * d + r) / d == q && (q * d + r) % d == r
  {
    var x := q * d + r;
    var p := x / d;
    assert x == p * d + x % d;
    if p < q {
      MulMonotone(p + 1, q, d);
    } else if p > q {
      MulMonotone(q + 1, p, d);
    }
  }

  lemma MulMonotone(a: int, b: int, d: int)
    requires a <= b && d >= 0
    ensures a * d <= b * d
  {
  }

  // Quotient and remainder of a number a little larger.
  lemma QuotientPlus(x: int, d: int, e: int)
    requires d > 0 && 0 <= e <= d
    ensures if x % d + e < d then (x + e) / d == x / d && (x + e) % d == x % d + e
            else (x + e) / d == x / d + 1 && (x + e) % d == x % d + e - d
  {
    var q, r := x / d, x % d;
    assert x == q * d + r;
    if r + e < d {
      Quotient(q, d, r + e);
    } else {
      assert (q + 1) * d == q * d + d;
      Quotient(q + 1, d, r + e - d);
    }
  }

  lemma NonNegative(a: int, b: int)
    requires a >= 0 && b > 0
    ensures a / b >= 0
  {
  }

  // Striping puts each block in a place of its own.
  lemma StripedBlock(m: int, c: int, b: int)
    requires m > 0 && c > 0 && b >= 0
    ensures 0 <= Column(m, c, b) < m && Row(m, c, b) >= 0
    ensures BlockAt(m, c, Column(m, c, b), Row(m, c, b)) == b
    ensures Row(m, c, b) / c == b / c / m
  {
    NonNegative(b, c);
    NonNegative(b / c, m);
    MulMonotone(0, b / c / m, c);
    Quotient(b / c / m, c, b % c);
    assert b / c == b / c / m * m + b / c % m;
    assert b == b / c * c + b % c;
  }

  // And fills every place.
  lemma StripedPlace(m: int, c: int, column: int, row: int)
    requires m > 0 && c > 0 && 0 <= column < m && row >= 0
    ensures BlockAt(m, c, column, row) >= 0
    ensures Column(m, c, BlockAt(m, c, column, row)) == column && Row(m, c, BlockAt(m, c, column, row)) == row
  {
    NonNegative(row, c);
    var chunk := row / c * m + column;
    MulMonotone(0, row / c, m);
    MulMonotone(0, chunk, c);
    Quotient(chunk, c, row % c);
    Quotient(row / c, m, column);
  }

  // The next block of a chunk is in the next row of the same column; the block one chunk later is in the next column
  // of the same row, or, from the last column, c rows further down in the first.
  lemma StripedSteps(m: int, c: int, b: int)
    requires m > 0 && c > 0 && b >= 0
    ensures Column(m, c, 0) == 0 && Row(m, c, 0) == 0
    ensures (b + 1) % c != 0 ==> Column(m, c, b + 1) == Column(m, c, b) && Row(m, c, b + 1) == Row(m, c, b) + 1
    ensures if Column(m, c, b) + 1 < m
      then Column(m, c, b + c) == Column(m, c, b) + 1 && Row(m, c, b + c) == Row(m, c, b)
      else Column(m, c, b + c) == 0 && Row(m, c, b + c) == Row(m, c, b) + c
  {
    NonNegative(b, c);
    QuotientPlus(b, c, 1);
    QuotientPlus(b, c, c);
    QuotientPlus(b / c, m, 1);
    assert (b / c / m + 1) * c == b / c / m * c + c;
    Quotient(0, c, 0);
    Quotient(0, m, 0);
  }

  // A stripe is m * c blocks in a row.
  lemma StripeOf(m: int, c: int, b: int)
    requires m > 0 && c > 0 && b >= 0
    ensures m * c > 0 && b / (m * c) == b / c / m
  {
    MulMonotone(1, m, c);
    var s, column := b / c / m, b / c % m;
    var rest := column * c + b % c;
    assert b == (s * m + column) * c + b % c == s * (m * c) + rest by {
      assert b / c == s * m + column;
      assert (s * m + column) * c == s * m * c + column * c;
      assert s * m * c == s * (m * c);
    }
    MulMonotone(0, column, c);
    assert (column + 1) * c <= m * c by { MulMonotone(column + 1, m, c); }
    Quotient(s, m * c, rest);
  }

  // ----- RAID-0 and RAID-1 -----

  function Bmap0(numDisks: int, chunkSize: int, bnum: int): (int, int)
    requires numDisks > 0 && chunkSize > 0
  {
    var cnum := bnum / chunkSize;
    var coff := bnum % chunkSize;
    (cnum % numDisks, cnum / numDisks * chunkSize + coff)
  }

  function Bmap1(numDisks: int, chunkSize: int, bnum: int): (int, int, int)
    requires numDisks >= 2 && chunkSize > 0
  {
    var cnum := bnum / chunkSize;
    var coff := bnum % chunkSize;
    var disk := 2 * (cnum % (numDisks / 2));
    (disk, disk + 1, cnum / (numDisks / 2) * chunkSize + coff)
  }

  // Each block of each disk holds exactly one block of the array.
  lemma Raid0Bijection(numDisks: int, chunkSize: int, b: int, disk: int, off: int)
    requires numDisks > 0 && chunkSize > 0
    ensures b >= 0 ==> 0 <= Bmap0(numDisks, chunkSize, b).0 < numDisks && Bmap0(numDisks, chunkSize, b).1 >= 0
    ensures b >= 0 && 0 <= disk < numDisks && off >= 0 ==>
      (Bmap0(numDisks, chunkSize, b) == (disk, off) <==> b == BlockAt(numDisks, chunkSize, disk, off))
    ensures 0 <= disk < numDisks && off >= 0 ==> BlockAt(numDisks, chunkSize, disk, off) >= 0
  {
    if b >= 0 { StripedBlock(numDisks, chunkSize, b); }
    if 0 <= disk < numDisks && off >= 0 { StripedPlace(numDisks, chunkSize, disk, off); }
  }

  // Each block of each mirrored pair does, and both disks of the pair hold it.
  lemma Raid1Bijection(numDisks: int, chunkSize: int, b: int, disk: int, off: int)
    requires numDisks >= 2 && numDisks % 2 == 0 && chunkSize > 0 && b >= 0 && 0 <= disk < numDisks && off >= 0
    ensures var (first, second, place) := Bmap1(numDisks, chunkSize, b);
      place == off && disk in [first, second] <==> b == BlockAt(numDisks / 2, chunkSize, disk / 2, off)
    ensures 0 <= Bmap1(numDisks, chunkSize, b).0 < Bmap1(numDisks, chunkSize, b).1 < numDisks
    ensures BlockAt(numDisks / 2, chunkSize, disk / 2, off) >= 0
  {
    StripedBlock(numDisks / 2, chunkSize, b);
    StripedPlace(numDisks / 2, chunkSize, disk / 2, off);
  }

  // Both go through a chunk row by row, and through the disks, or the pairs of disks, chunk by chunk.
  lemma Raid01Steps(numDisks: int, chunkSize: int, b: int)
    requires numDisks >= 2 && chunkSize > 0 && b >= 0
    ensures Bmap0(numDisks, chunkSize, 0) == (0, 0) && Bmap1(numDisks, chunkSize, 0) == (0, 1, 0)
    ensures var (disk, off) := Bmap0(numDisks, chunkSize, b);
      && ((b + 1) % chunkSize != 0 ==> Bmap0(numDisks, chunkSize, b + 1) == (disk, off + 1))
      && Bmap0(numDisks, chunkSize, b + chunkSize) ==
          if disk + 1 < numDisks then (disk + 1, off) else (0, off + chunkSize)
    ensures var (first, second, off) := Bmap1(numDisks, chunkSize, b);
      && ((b + 1) % chunkSize != 0 ==> Bmap1(numDisks, chunkSize, b + 1) == (first, second, off + 1))
      && Bmap1(numDisks, chunkSize, b + chunkSize) ==
          if first + 2 < numDisks / 2 * 2 then (first + 2, second + 2, off) else (0, 1, off + chunkSize)
  {
    StripedSteps(numDisks, chunkSize, b);
    StripedSteps(numDisks / 2, chunkSize, b);
  }

  // ----- RAID-4 and RAID-5 -----

  datatype Kind = RAID4 | LA | LS

  datatype Layout = Layout(kind: Kind, numDisks: int, chunkSize: int) {
    predicate Ok() {
      numDisks >= 2 && chunkSize >= 1
    }

    function BlocksInStripe(): int {
      (numDisks - 1) * chunkSize
    }

    function Bmap4(bnum: int): (int, int)
      requires Ok()
    {
      var cnum := bnum / chunkSize;
      var coff := bnum % chunkSize;
      (cnum % (numDisks - 1), cnum / (numDisks - 1) * chunkSize + coff)
    }

    // Where the given one of the data chunks of a stripe goes, if the parity is col disks before the last.
    function DataDisk(disk: int, col: int): int
      requires Ok()
    {
      if kind.LS? then (disk - col) % numDisks else if disk >= (numDisks - 1) - col then disk + 1 else disk
    }

    // Disk, parity disk and offset.
    function Bmap5Full(bnum: int): (int, int, int)
      requires Ok()
    {
      var cnum := bnum / chunkSize;
      var coff := bnum % chunkSize;
      var ddsk := cnum / (numDisks - 1);
      var doff := ddsk * chunkSize + coff;
      var disk := cnum % (numDisks - 1);
      var col := ddsk % numDisks;
      var pdisk := (numDisks - 1) - col;
      (DataDisk(disk, col), pdisk, doff)
    }

    function Bmap(bnum: int): (int, int)
      requires Ok()
    {
      if kind.RAID4? then Bmap4(bnum) else (Bmap5Full(bnum).0, Bmap5Full(bnum).2)
    }

    // The parity disk of a stripe.
    function Pmap(snum: int): int
      requires Ok()
    {
      if kind.RAID4? then numDisks - 1 else Bmap5Full(snum * BlocksInStripe()).1
    }

    // The stripe that a row is in.
    function StripeOfRow(off: int): int
      requires Ok()
    {
      off / chunkSize
    }

    // The block that a disk holds in a row, if the disk is not the row's parity disk.
    function Unmap(disk: int, off: int): int
      requires Ok()
    {
      var col := off / chunkSize % numDisks;
      var column := match kind
        case RAID4 => disk
        case LA => if disk > numDisks - 1 - col then disk - 1 else disk
        case LS => (disk + col) % numDisks;
      BlockAt(numDisks - 1, chunkSize, column, off)
    }
  }

  // The first block of stripe s is in chunk s * m.
  lemma FirstChunk(s: int, m: int, c: int)
    requires m > 0 && c > 0
    ensures s * (m * c) / c / m == s
  {
    assert s * (m * c) == s * m * c + 0;
    Quotient(s * m, c, 0);
    Quotient(s, m, 0);
  }

  // Where the parity of a stripe is.
  lemma ParityDisk(l: Layout, s: int)
    requires l.Ok() && s >= 0
    ensures 0 <= l.Pmap(s) < l.numDisks
    ensures l.Pmap(s) == l.numDisks - 1 - (if l.kind.RAID4? then 0 else s % l.numDisks)
  {
    FirstChunk(s, l.numDisks - 1, l.chunkSize);
  }

  lemma Rotate(a: int, n: int)
    requires -n <= a < 2 * n && n > 0
    ensures a % n == if a < 0 then a + n else if a < n then a else a - n
  {
    var r := if a < 0 then a + n else if a < n then a else a - n;
    var q := if a < 0 then -1 else if a < n then 0 else 1;
    assert a == q * n + r;
    Quotient(q, n, r);
  }

  // A data block is never on the parity disk of its stripe, and can be found again from where it is.
  lemma BlockPlaced(l: Layout, b: int)
    requires l.Ok() && b >= 0
    ensures 0 <= l.Bmap(b).0 < l.numDisks && l.Bmap(b).1 >= 0
    ensures l.BlocksInStripe() > 0 && l.StripeOfRow(l.Bmap(b).1) == b / l.BlocksInStripe() >= 0
    ensures l.Bmap(b).0 != l.Pmap(l.StripeOfRow(l.Bmap(b).1))
    ensures l.Unmap(l.Bmap(b).0, l.Bmap(b).1) == b
  {
    var n, c := l.numDisks, l.chunkSize;
    StripedBlock(n - 1, c, b);
    StripeOf(n - 1, c, b);
    NonNegative(b, l.BlocksInStripe());
    var s, disk := b / c / (n - 1), b / c % (n - 1);
    ParityDisk(l, s);
    var col := s % n;
    Rotate(disk - col, n);
    Rotate((disk - col) % n + col, n);
  }

  // The offsets of a stripe are the next chunkSize ones, in every layout, and a chunk fills them in order.
  lemma OffsetInStripe(l: Layout, b: int)
    requires l.Ok() && b >= 0
    ensures l.BlocksInStripe() > 0
    ensures l.Bmap(b).1 == b / l.BlocksInStripe() * l.chunkSize + b % l.chunkSize
  {
    StripeOf(l.numDisks - 1, l.chunkSize, b);
  }

  // Counting on from s places back, around n of them, is counting s * (n - 1) places on.
  lemma CountBack(s: int, disk: int, n: int)
    requires n > 0 && 0 <= disk < n
    ensures (s * (n - 1) + disk) % n == (disk - s % n) % n
  {
    var turns, col := s / n, s % n;
    var k, r := (disk - col) / n, (disk - col) % n;
    assert s == turns * n + col && disk - col == k * n + r;
    Factor(s, turns, k, n);
    Quotient(s - turns + k, n, r);
  }

  lemma Factor(s: int, turns: int, k: int, n: int)
    ensures (s - turns + k) * n == s * (n - 1) + s - turns * n + k * n
  {
  }

  lemma SkipParity(chunk: int, n: int)
    requires n >= 2 && chunk >= 0
    ensures (chunk % (n - 1) - chunk / (n - 1) % n) % n == chunk % n
  {
    var s, disk := chunk / (n - 1), chunk % (n - 1);
    CountBack(s, disk, n);
    assert chunk == s * (n - 1) + disk;
  }

  // Left-symmetric: chunks go round all the disks, skipping none,
  lemma RoundRobin(l: Layout, b: int)
    requires l.Ok() && l.kind.LS? && b >= 0
    ensures l.Bmap(b).0 == b / l.chunkSize % l.numDisks
  {
    var n, chunk := l.numDisks, b / l.chunkSize;
    NonNegative(b, l.chunkSize);
    SkipParity(chunk, n);
    assert l.Bmap(b).0 == l.DataDisk(chunk % (n - 1), chunk / (n - 1) % n);
  }

  // so that as many chunks in a row as there are disks are on different disks.
  lemma ConsecutiveChunks(l: Layout, b: int, b': int)
    requires l.Ok() && l.kind.LS? && 0 <= b && 0 <= b'
    requires b / l.chunkSize < b' / l.chunkSize < b / l.chunkSize + l.numDisks
    ensures l.Bmap(b).0 != l.Bmap(b').0
  {
    RoundRobin(l, b);
    RoundRobin(l, b');
    QuotientPlus(b / l.chunkSize, l.numDisks, b' / l.chunkSize - b / l.chunkSize);
  }

  // Left-asymmetric, and RAID-4: the chunks of a stripe are in the order of the disks.
  lemma InDiskOrder(l: Layout, b: int, b': int)
    requires l.Ok() && !l.kind.LS? && 0 <= b && 0 <= b'
    requires l.BlocksInStripe() > 0 && b / l.BlocksInStripe() == b' / l.BlocksInStripe()
    requires b / l.chunkSize < b' / l.chunkSize
    ensures l.Bmap(b).0 < l.Bmap(b').0
  {
    var m, x, y := l.numDisks - 1, b / l.chunkSize, b' / l.chunkSize;
    StripeOf(m, l.chunkSize, b);
    StripeOf(m, l.chunkSize, b');
    assert x == x / m * m + x % m && y == y / m * m + y % m;
  }

  // Every block of every disk that is not parity holds a data block.
  lemma PlaceFilled(l: Layout, disk: int, off: int)
    requires l.Ok() && 0 <= disk < l.numDisks && off >= 0 && disk != l.Pmap(l.StripeOfRow(off))
    ensures l.Unmap(disk, off) >= 0 && l.Bmap(l.Unmap(disk, off)) == (disk, off)
  {
    var n, c := l.numDisks, l.chunkSize;
    var s := off / c;
    NonNegative(off, c);
    ParityDisk(l, s);
    var col := s % n;
    Rotate(disk + col, n);
    var column := match l.kind
      case RAID4 => disk
      case LA => if disk > n - 1 - col then disk - 1 else disk
      case LS => (disk + col) % n;
    assert 0 <= column < n - 1;
    StripedPlace(n - 1, c, column, off);
    var b := l.Unmap(disk, off);
    StripedBlock(n - 1, c, b);
    Rotate(column - col, n);
  }

  // The block at a place is the one mapped there, and there is one exactly where there is no parity.
  lemma Bijection(l: Layout, disk: int, off: int, b: int)
    requires l.Ok() && 0 <= disk < l.numDisks && off >= 0 && b >= 0
    ensures l.Bmap(b) == (disk, off) <==> disk != l.Pmap(l.StripeOfRow(off)) && b == l.Unmap(disk, off)
    ensures disk != l.Pmap(l.StripeOfRow(off)) ==> l.Unmap(disk, off) >= 0
  {
    BlockPlaced(l, b);
    if disk != l.Pmap(l.StripeOfRow(off)) {
      PlaceFilled(l, disk, off);
    }
  }
}
