// The circular buffer that do_fill and do_get of "30-Condition Variables/main-two-cvs-while.c" share.
module RingBuffer {
  // First as a value with its abstraction to a bounded queue, then as the array they update in place.

  const EMPTY := -2
  const END_OF_STREAM := -1

  datatype Ring = Ring(buffer: seq<int>, usePtr: nat, fillPtr: nat, numFull: int)

  // The slot k places after usePtr.
  function Slot(max: nat, usePtr: nat, k: nat): (i: nat)
    requires usePtr < max && k <= max
    ensures i < max && (i == usePtr + k || i == usePtr + k - max)
  {
    if usePtr + k < max then usePtr + k else usePtr + k - max
  }

  ghost predicate Valid(r: Ring, max: nat) {
    && |r.buffer| == max > 0 && r.usePtr < max && 0 <= r.numFull <= max
    && r.fillPtr == Slot(max, r.usePtr, r.numFull)
    && (forall k: nat :: k < r.numFull ==> r.buffer[Slot(max, r.usePtr, k)] != EMPTY)
    && (forall k: nat :: r.numFull <= k < max ==> r.buffer[Slot(max, r.usePtr, k)] == EMPTY)
  }

  // The queue that the ring stands for, oldest value first.
  ghost function Contents(r: Ring): (q: seq<int>)
    requires Valid(r, |r.buffer|)
    ensures |q| == r.numFull
  {
    seq(r.numFull, k requires 0 <= k < r.numFull => r.buffer[Slot(|r.buffer|, r.usePtr, k)])
  }

  function EmptyRing(max: nat): (r: Ring)
    ensures max > 0 ==> Valid(r, max) && Contents(r) == []
  {
    Ring(seq(max, _ => EMPTY), 0, 0, 0)
  }

  // do_fill, once its check has passed; % max as in the source.
  function Fill(r: Ring, value: int): Ring
    requires r.fillPtr < |r.buffer|
  {
    Ring(r.buffer[r.fillPtr := value], r.usePtr, (r.fillPtr + 1) % |r.buffer|, r.numFull + 1)
  }

  // do_get, once its check has passed.
  function Get(r: Ring): Ring
    requires r.usePtr < |r.buffer|
  {
    Ring(r.buffer[r.usePtr := EMPTY], (r.usePtr + 1) % |r.buffer|, r.fillPtr, r.numFull - 1)
  }

  lemma Wrap(max: nat, i: nat)
    requires i < max
    ensures (i + 1) % max == if i + 1 < max then i + 1 else 0
  {
    if i + 1 < max { assert (i + 1) % max == i + 1; } else { assert (i + 1) % max == 0; }
  }

  // A fill appends to the queue: its check passes exactly when the queue is not full.
  lemma FillAppends(r: Ring, max: nat, value: int)
    requires Valid(r, max)
    ensures r.numFull < max <==> r.buffer[r.fillPtr] == EMPTY
    ensures r.numFull < max && value != EMPTY ==>
      Valid(Fill(r, value), max) && Contents(Fill(r, value)) == Contents(r) + [value]
  {
    if r.numFull < max {
      assert r.buffer[Slot(max, r.usePtr, r.numFull)] == EMPTY;
      if value != EMPTY {
        Wrap(max, r.fillPtr);
        var r' := Fill(r, value);
        assert forall k: nat :: k < max && k != r.numFull ==> Slot(max, r.usePtr, k) != r.fillPtr;
      }
    } else {
      assert Slot(max, r.usePtr, r.numFull) == Slot(max, r.usePtr, 0);
    }
  }

  // A get takes the head off: its check passes exactly when the queue is not empty.
  lemma GetTakesHead(r: Ring, max: nat)
    requires Valid(r, max)
    ensures r.numFull > 0 <==> r.buffer[r.usePtr] != EMPTY
    ensures r.numFull > 0 ==>
      Valid(Get(r), max) && Contents(r) == [r.buffer[r.usePtr]] + Contents(Get(r))
  {
    assert Slot(max, r.usePtr, 0) == r.usePtr;
    if r.numFull > 0 {
      Wrap(max, r.usePtr);
      var r' := Get(r);
      assert forall k: nat :: k < max - 1 ==> Slot(max, r'.usePtr, k) == Slot(max, r.usePtr, k + 1);
      assert Slot(max, r'.usePtr, max - 1) == r.usePtr;
      assert forall k: nat :: 0 < k < max ==> Slot(max, r.usePtr, k) != r.usePtr;
    }
  }

  // The globals buffer, use_ptr, fill_ptr and num_full.
  class SharedBuffer {
    var buffer: array<int>
    var usePtr: nat
    var fillPtr: nat
    var numFull: int

    ghost function View(): Ring
      reads this, buffer
    {
      Ring(buffer[..], usePtr, fillPtr, numFull)
    }

    constructor (max: nat)
      requires max > 0
      ensures View() == EmptyRing(max) && fresh(buffer)
    {
      buffer := new int[max](_ => EMPTY);
      usePtr, fillPtr, numFull := 0, 0, 0;
      new;
      assert buffer[..] == EmptyRing(max).buffer;
    }

    // ok is false where the source exits with an error, and then nothing has changed.
    method DoFill(value: int) returns (ok: bool)
      requires Valid(View(), buffer.Length) && value != EMPTY
      modifies this, buffer
      ensures buffer == old(buffer)
      ensures ok <==> old(numFull) < buffer.Length
      ensures Valid(View(), buffer.Length)
      ensures Contents(View()) == old(Contents(View())) + (if ok then [value] else [])
      ensures View() == if ok then Fill(old(View()), value) else old(View())
    {
      FillAppends(View(), buffer.Length, value);
      if buffer[fillPtr] != EMPTY {
        return false;
      }
      buffer[fillPtr] := value;
      fillPtr := (fillPtr + 1) % buffer.Length;
      numFull := numFull + 1;
      ok := true;
      assert View() == Fill(old(View()), value);
    }

    method DoGet() returns (ok: bool, tmp: int)
      requires Valid(View(), buffer.Length)
      modifies this, buffer
      ensures buffer == old(buffer)
      ensures ok <==> old(numFull) > 0
      ensures Valid(View(), buffer.Length)
      ensures ok ==> old(Contents(View())) == [tmp] + Contents(View())
      ensures View() == if ok then Get(old(View())) else old(View())
    {
      GetTakesHead(View(), buffer.Length);
      tmp := buffer[usePtr];
      if tmp == EMPTY {
        return false, tmp;
      }
      buffer[usePtr] := EMPTY;
      usePtr := (usePtr + 1) % buffer.Length;
      numFull := numFull - 1;
      ok := true;
      assert View() == Get(old(View()));
    }
  }
}
