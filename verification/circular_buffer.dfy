// The growing circular buffer: libdaylite/src/dynamic_circular_buffer.cpp and .hpp.

module CircularBuffers {
  import opened Numbers
  import opened Packets

  const DEFAULT_CAPACITY: nat := 0xFFFF
  const GROW_LIMIT: nat := 1_000_000

  /** What resize_backing asserts; a build without assertions grows in any case. */
  predicate CanGrow(physicalSize: nat) { physicalSize < GROW_LIMIT }

  /** The size to which n bytes make the buffer grow: doubled, then cut to 32 bits. */
  function GrownSize(n: nat): nat { 2 * n % U32 }

  /** The cut does harm exactly from 2^31 bytes on: the new buffer cannot hold them.
      For 2^31 bytes it has no room at all. */
  lemma GrowthSufficesIff(n: nat)
    ensures GrownSize(n) >= n <==> n < 0x8000_0000
    ensures n < 0x8000_0000 ==> GrownSize(n) == 2 * n
    ensures GrownSize(0x8000_0000) == 0
  {}

  // ---- the stored bytes ---------------------------------------------------

  /** The n bytes from `head` on, round the end. */
  function Window(b: seq<Byte>, head: nat, n: nat): seq<Byte>
    requires head <= |b| && n <= |b|
  {
    if head + n <= |b| then b[head..head + n] else b[head..] + b[..head + n - |b|]
  }

  /** Bytes put at position p, round the end. */
  function Stored(b: seq<Byte>, p: nat, data: seq<Byte>): seq<Byte>
    requires p < |b| && |data| <= |b|
  {
    if p + |data| <= |b| then b[..p] + data + b[p + |data|..]
    else data[|b| - p..] + b[p + |data| - |b|..p] + data[..|b| - p]
  }

  lemma WindowAt(b: seq<Byte>, head: nat, n: nat, i: nat)
    requires head < |b| && i < n <= |b|
    ensures |Window(b, head, n)| == n
    ensures Window(b, head, n)[i] == if head + i < |b| then b[head + i] else b[head + i - |b|]
  {}

  lemma StoredAt(b: seq<Byte>, p: nat, data: seq<Byte>, k: nat)
    requires p < |b| && |data| <= |b| && k < |b|
    ensures |Stored(b, p, data)| == |b|
    ensures Stored(b, p, data)[k] == if p <= k < p + |data| then data[k - p]
                                     else if k + |b| < p + |data| then data[k + |b| - p]
                                     else b[k]
  {}

  /** An index below twice the size, taken modulo the size. */
  function Round(k: nat, size: nat): nat { if k < size then k else k - size }

  lemma RoundIsModulo(k: nat, size: nat)
    requires k < 2 * size
    ensures k % size == Round(k, size)
  {
    if k >= size {
      assert k == size * 1 + (k - size);
    }
  }

  /** Storing at the end of the window appends to it. */
  lemma WindowAppend(b: seq<Byte>, head: nat, n: nat, data: seq<Byte>)
    requires head < |b| && n + |data| <= |b|
    ensures |Stored(b, Round(head + n, |b|), data)| == |b|
    ensures Window(Stored(b, Round(head + n, |b|), data), head, n + |data|) == Window(b, head, n) + data
  {
    StoredAt(b, Round(head + n, |b|), data, 0);
    var after := Stored(b, Round(head + n, |b|), data);
    WindowLength(b, head, n);
    WindowLength(after, head, n + |data|);
    forall i | 0 <= i < n + |data|
      ensures Window(after, head, n + |data|)[i] == (Window(b, head, n) + data)[i]
    {
      hide Window, Stored;
      AppendAt(b, head, n, data, i);
    }
  }

  lemma AppendAt(b: seq<Byte>, head: nat, n: nat, data: seq<Byte>, i: nat)
    requires head < |b| && i < n + |data| <= |b|
    ensures |Stored(b, Round(head + n, |b|), data)| == |b| && |Window(b, head, n)| == n
    ensures |Window(Stored(b, Round(head + n, |b|), data), head, n + |data|)| == n + |data|
    ensures Window(Stored(b, Round(head + n, |b|), data), head, n + |data|)[i] == (Window(b, head, n) + data)[i]
  {
    hide Window, Stored;
    StoredAt(b, Round(head + n, |b|), data, Round(head + i, |b|));
    WindowAt(Stored(b, Round(head + n, |b|), data), head, n + |data|, i);
    WindowLength(b, head, n);
    if i < n {
      WindowAt(b, head, n, i);
    }
  }

  lemma WindowLength(b: seq<Byte>, head: nat, n: nat)
    requires head <= |b| && n <= |b|
    ensures |Window(b, head, n)| == n
  {}

  /** Moving the head drops from the window's front. */
  lemma WindowDrop(b: seq<Byte>, head: nat, n: nat, k: nat)
    requires head < |b| && k <= n <= |b|
    ensures |Window(b, head, n)| == n && Window(b, Round(head + k, |b|), n - k) == Window(b, head, n)[k..]
  {
    hide Window;
    WindowLength(b, head, n);
    WindowLength(b, Round(head + k, |b|), n - k);
    forall i | 0 <= i < n - k
      ensures Window(b, Round(head + k, |b|), n - k)[i] == Window(b, head, n)[k..][i]
    {
      hide Window;
      WindowAt(b, Round(head + k, |b|), n - k, i);
      WindowAt(b, head, n, k + i);
    }
  }

  lemma WindowTake(b: seq<Byte>, head: nat, n: nat, k: nat)
    requires head < |b| && k <= n <= |b|
    ensures |Window(b, head, n)| == n && Window(b, head, k) == Window(b, head, n)[..k]
  {}

  lemma WindowPrefix(b: seq<Byte>, head: nat, n: nat, k: nat)
    requires head <= |b| && n <= |b|
    ensures |Window(b, head, n)| == n
    ensures k <= n && head + k <= |b| ==> b[head..head + k] == Window(b, head, n)[..k]
  {}

  // ---- copies in two pieces -----------------------------------------------

  /** A piece copied over part of a sequence. */
  function Pasted(b: seq<Byte>, at: nat, piece: seq<Byte>): (r: seq<Byte>)
    requires at + |piece| <= |b|
    ensures |r| == |b|
  {
    b[..at] + piece + b[at + |piece|..]
  }

  lemma StoredInTwo(b: seq<Byte>, p: nat, data: seq<Byte>)
    requires p < |b| && |data| <= |b| && p + |data| > |b|
    ensures Pasted(Pasted(b, p, data[..|b| - p]), 0, data[|b| - p..]) == Stored(b, p, data)
  {}

  lemma FetchedInTwo(d: seq<Byte>, b: seq<Byte>, head: nat, n: nat)
    requires head < |b| < head + n && n <= |b| && n <= |d|
    ensures Pasted(Pasted(d, 0, b[head..]), |b| - head, b[..head + n - |b|]) == Window(b, head, n) + d[n..]
  {}

  // ---- what growing costs -------------------------------------------------

  /** The sizes, and what the operations so far have written, copied and grown. */
  datatype Ledger = Ledger(size: nat, room: nat, written: nat, copied: nat, growths: nat)

  datatype Operation = Write(count: nat) | Read(most: nat) | Discard(most: nat) | Clear

  /** The operation makes the buffer grow. */
  predicate Grows(l: Ledger, op: Operation) { op.Write? && op.count + l.size > l.room }

  /** The new size is not cut to 32 bits. */
  predicate Allowed(l: Ledger, op: Operation) { Grows(l, op) ==> op.count + l.size < 0x8000_0000 }

  function Entered(l: Ledger, op: Operation): Ledger {
    match op
    case Write(count) =>
      if count + l.size > l.room
      then Ledger(l.size + count, GrownSize(count + l.size), l.written + count, l.copied + l.size, l.growths + 1)
      else l.(size := l.size + count, written := l.written + count)
    case Read(most) => l.(size := l.size - Least(most, l.size))
    case Discard(most) => l.(size := l.size - Least(most, l.size))
    case Clear => l.(size := 0)
  }

  predicate AllowedRun(l: Ledger, ops: seq<Operation>)
    decreases |ops|
  {
    ops == [] || (Allowed(l, ops[0]) && AllowedRun(Entered(l, ops[0]), ops[1..]))
  }

  function EnteredRun(l: Ledger, ops: seq<Operation>): Ledger
    decreases |ops|
  {
    if ops == [] then l else EnteredRun(Entered(l, ops[0]), ops[1..])
  }

  /** Every growth of the run passes the assertion. */
  predicate Asserted(l: Ledger, ops: seq<Operation>)
    decreases |ops|
  {
    ops == [] || ((Grows(l, ops[0]) ==> CanGrow(l.room)) && Asserted(Entered(l, ops[0]), ops[1..]))
  }

  function Fresh(capacity: nat): Ledger { Ledger(0, capacity, 0, 0, 0) }

  function Pow2(n: nat): nat { if n == 0 then 1 else 2 * Pow2(n - 1) }

  /** The bytes copied, and what the bytes beyond half the room have saved up for the
      next copy, are paid by twice the bytes written. Each growth doubles the room. */
  predicate Paid(l: Ledger, capacity: nat) {
    && l.size <= l.room
    && l.copied <= 2 * l.written
    && l.copied + 2 * l.size - l.room <= 2 * l.written
    && Pow2(l.growths) * (capacity + 2) <= l.room + 2
    && (l.growths > 0 ==> l.room < U32)
  }

  lemma EnterPays(l: Ledger, op: Operation, capacity: nat)
    requires Paid(l, capacity) && Allowed(l, op)
    ensures Paid(Entered(l, op), capacity)
  {
    if Grows(l, op) {
      GrowthSufficesIff(op.count + l.size);
      assert Pow2(l.growths + 1) * (capacity + 2) == 2 * (Pow2(l.growths) * (capacity + 2));
    }
  }

  lemma {:induction false} RunPays(l: Ledger, ops: seq<Operation>, capacity: nat)
    requires Paid(l, capacity) && AllowedRun(l, ops)
    ensures Paid(EnteredRun(l, ops), capacity)
    decreases |ops|
  {
    if ops != [] {
      EnterPays(l, ops[0], capacity);
      RunPays(Entered(l, ops[0]), ops[1..], capacity);
    }
  }

  lemma {:induction false} Pow2Grows(m: nat, n: nat)
    requires m <= n
    ensures Pow2(m) <= Pow2(n)
    decreases n - m
  {
    if m < n {
      Pow2Grows(m, n - 1);
    }
  }

  /** The room before the last growth was within the assertion. */
  predicate Limited(l: Ledger, capacity: nat) {
    l.growths > 0 ==> Pow2(l.growths - 1) * (capacity + 2) <= GROW_LIMIT + 1
  }

  lemma {:induction false} AssertedIsLimited(l: Ledger, ops: seq<Operation>, capacity: nat)
    requires Paid(l, capacity) && AllowedRun(l, ops) && Asserted(l, ops) && Limited(l, capacity)
    ensures Limited(EnteredRun(l, ops), capacity)
    decreases |ops|
  {
    if ops != [] {
      EnterPays(l, ops[0], capacity);
      AssertedIsLimited(Entered(l, ops[0]), ops[1..], capacity);
    }
  }

  /** Over any run whose sizes are not cut, growing copies at most two bytes per byte
      written. A buffer of the default capacity then grows at most 15 times, and at most
      four times while the assertion holds. */
  lemma GrowthCost(capacity: nat, ops: seq<Operation>)
    requires AllowedRun(Fresh(capacity), ops)
    ensures EnteredRun(Fresh(capacity), ops).copied <= 2 * EnteredRun(Fresh(capacity), ops).written
    ensures capacity == 0xFFFF ==> EnteredRun(Fresh(capacity), ops).growths <= 15
    ensures capacity == 0xFFFF && Asserted(Fresh(capacity), ops) ==>
              EnteredRun(Fresh(capacity), ops).growths <= 4
  {
    hide AllowedRun, Asserted, EnteredRun;
    RunPays(Fresh(capacity), ops, capacity);
    var growths := EnteredRun(Fresh(capacity), ops).growths;
    if capacity == DEFAULT_CAPACITY && growths > 15 {
      Pow2Grows(16, growths);
      PowersOfTwo();
    }
    if capacity == DEFAULT_CAPACITY && Asserted(Fresh(capacity), ops) && growths > 4 {
      AssertedIsLimited(Fresh(capacity), ops, capacity);
      Pow2Grows(4, growths - 1);
      PowersOfTwo();
    }
  }

  lemma PowersOfTwo()
    ensures Pow2(4) == 16 && Pow2(15) == 32768 && Pow2(16) == 65536
  {
    assert Pow2(8) == 256 && Pow2(12) == 4096;
  }

  /** Both numbers are reached, and every number below: each time one byte too many. */
  lemma {:induction false} GrowthsHappen(growths: nat) returns (ops: seq<Operation>)
    requires growths <= 15
    ensures AllowedRun(Fresh(DEFAULT_CAPACITY), ops)
    ensures EnteredRun(Fresh(DEFAULT_CAPACITY), ops).growths == growths
    ensures growths <= 4 ==> Asserted(Fresh(DEFAULT_CAPACITY), ops)
    ensures var l := EnteredRun(Fresh(DEFAULT_CAPACITY), ops);
            l.size <= l.room && l.room + 2 == Pow2(growths) * (DEFAULT_CAPACITY + 2)
  {
    if growths == 0 {
      ops := [];
    } else {
      hide AllowedRun, Asserted, EnteredRun;
      var front := GrowthsHappen(growths - 1);
      var l := EnteredRun(Fresh(DEFAULT_CAPACITY), front);
      var op := Write(l.room + 1 - l.size);
      ops := front + [op];
      OneMoreEntered(Fresh(DEFAULT_CAPACITY), front, op);
      PowersOfTwo();
      Pow2Grows(growths - 1, 14);
      GrowthSufficesIff(l.room + 1);
      if growths <= 4 {
        Pow2Grows(growths - 1, 3);
      }
    }
  }

  lemma {:induction false} OneMoreEntered(l: Ledger, ops: seq<Operation>, op: Operation)
    ensures EnteredRun(l, ops + [op]) == Entered(EnteredRun(l, ops), op)
    ensures AllowedRun(l, ops + [op]) <==> AllowedRun(l, ops) && Allowed(EnteredRun(l, ops), op)
    ensures Asserted(l, ops + [op]) <==>
              Asserted(l, ops) && (Grows(EnteredRun(l, ops), op) ==> CanGrow(EnteredRun(l, ops).room))
    decreases |ops|
  {
    if ops == [] {
      assert ops + [op] == [op] && [op][1..] == [];
    } else {
      assert (ops + [op])[1..] == ops[1..] + [op];
      OneMoreEntered(Entered(l, ops[0]), ops[1..], op);
    }
  }

  /** Four growths, and a fifth that only a build without assertions makes. */
  lemma FourGrowths()
    ensures CanGrow(999_999) && !CanGrow(1_000_000)
    ensures var ops := [Write(65536), Write(65537), Write(131074), Write(262148)];
            && AllowedRun(Fresh(0xFFFF), ops) && Asserted(Fresh(0xFFFF), ops)
            && EnteredRun(Fresh(0xFFFF), ops).growths == 4
            && AllowedRun(Fresh(DEFAULT_CAPACITY), ops + [Write(524296)])
            && !Asserted(Fresh(DEFAULT_CAPACITY), ops + [Write(524296)])
            && EnteredRun(Fresh(DEFAULT_CAPACITY), ops + [Write(524296)]).growths == 5
  {
    hide AllowedRun, EnteredRun, Asserted, Entered, Allowed, Grows;
    var l0 := Fresh(DEFAULT_CAPACITY);
    var l1, l2 := Ledger(65536, 131072, 65536, 0, 1), Ledger(131073, 262146, 131073, 65536, 2);
    var l3, l4 := Ledger(262147, 524294, 262147, 196609, 3), Ledger(524295, 1048590, 524295, 458756, 4);
    var l5 := Ledger(1048591, 2097182, 1048591, 983051, 5);
    NoneEntered(l0);
    OneGrowth([], Write(65536), l0, l1);
    var ops1 := [] + [Write(65536)];
    OneGrowth(ops1, Write(65537), l1, l2);
    var ops2 := ops1 + [Write(65537)];
    OneGrowth(ops2, Write(131074), l2, l3);
    var ops3 := ops2 + [Write(131074)];
    OneGrowth(ops3, Write(262148), l3, l4);
    var ops4 := ops3 + [Write(262148)];
    OneGrowth(ops4, Write(524296), l4, l5);
    assert ops4 == [Write(65536), Write(65537), Write(131074), Write(262148)];
  }

  lemma OneGrowth(ops: seq<Operation>, op: Operation, l: Ledger, grown: Ledger)
    requires AllowedRun(Fresh(DEFAULT_CAPACITY), ops) && EnteredRun(Fresh(DEFAULT_CAPACITY), ops) == l
    requires op.Write? && l.room < op.count + l.size < 0x8000_0000
    requires grown == Ledger(op.count + l.size, 2 * (op.count + l.size), l.written + op.count,
                             l.copied + l.size, l.growths + 1)
    ensures AllowedRun(Fresh(DEFAULT_CAPACITY), ops + [op])
    ensures EnteredRun(Fresh(DEFAULT_CAPACITY), ops + [op]) == grown
    ensures Asserted(Fresh(DEFAULT_CAPACITY), ops + [op])
       <==> Asserted(Fresh(DEFAULT_CAPACITY), ops) && CanGrow(l.room)
  {
    OneMoreEntered(Fresh(DEFAULT_CAPACITY), ops, op);
    GrowthSufficesIff(op.count + l.size);
  }

  lemma NoneEntered(l: Ledger)
    ensures AllowedRun(l, []) && Asserted(l, []) && EnteredRun(l, []) == l
  {}

  // ---- the buffer ---------------------------------------------------------

  method Memcpy(dst: array<Byte>, at: nat, src: array<Byte>, from: nat, n: nat)
    requires dst != src && at + n <= dst.Length && from + n <= src.Length
    modifies dst
    ensures dst[..] == Pasted(old(dst[..]), at, src[..][from..from + n])
  {
    forall i | 0 <= i < n {
      dst[at + i] := src[from + i];
    }
  }

  class DynamicCircularBuffer {
    var head: nat
    var virtualSize: nat
    var physicalSize: nat
    var backing: array<Byte>
    ghost var written: nat  // history: the bytes written,
    ghost var copied: nat   // the bytes moved to a new backing array,
    ghost var growths: nat  // and how often there was a new one

    ghost predicate Valid()
      reads this
    {
      && physicalSize == backing.Length
      && (head < physicalSize || head == physicalSize == 0)
      && virtualSize <= physicalSize
    }

    /** What the operations so far have cost. */
    ghost function Account(): Ledger
      reads this
    {
      Ledger(virtualSize, physicalSize, written, copied, growths)
    }

    /** A buffer made with a capacity of 0 divides by zero wherever it moves or looks
        past its head, growing included; it can only be cleared. */
    predicate Usable()
      reads this
    {
      physicalSize > 0
    }

    /** The queue. */
    ghost function Contents(): seq<Byte>
      reads this, backing
      requires Valid()
    {
      Window(backing[..], head, virtualSize)
    }

    constructor (initialCapacity: nat)
      ensures Valid() && fresh(backing) && Contents() == []
      ensures Account() == Fresh(initialCapacity)
    {
      head, virtualSize, physicalSize := 0, 0, initialCapacity;
      backing := new Byte[initialCapacity](_ => 0);
      written, copied, growths := 0, 0, 0;
    }

    method Write(data: array<Byte>, count: nat)
      requires Valid() && data != backing && count <= data.Length
      requires Usable() && Allowed(Account(), Operation.Write(count))
      modifies this, backing
      ensures Valid() && (backing == old(backing) || fresh(backing))
      ensures Contents() == old(Contents()) + old(data[..count])
      ensures Account() == Entered(old(Account()), Operation.Write(count))
    {
      hide Window;
      if count + virtualSize > physicalSize {
        GrowthSufficesIff(count + virtualSize);
        ResizeBacking(GrownSize(count + virtualSize));
      }
      assert data[..count] == old(data[..count]);
      Append(data, count);
    }

    /** What write does when there is room. */
    method Append(data: array<Byte>, count: nat)
      requires physicalSize == backing.Length && head < physicalSize && virtualSize + count <= physicalSize
      requires data != backing && count <= data.Length
      modifies this`virtualSize, this`written, backing
      ensures virtualSize == old(virtualSize) + count && written == old(written) + count
      ensures Window(backing[..], head, virtualSize) == old(Window(backing[..], head, virtualSize)) + data[..count]
    {
      hide Window, Stored;
      WindowAppend(backing[..], head, virtualSize, data[..count]);
      Store(data, count);
      virtualSize := virtualSize + count;
      written := written + count;
    }

    /** The copying part of write, in one piece or round the end. */
    method Store(data: array<Byte>, count: nat)
      requires physicalSize == backing.Length && head < physicalSize && virtualSize + count <= physicalSize
      requires data != backing && count <= data.Length
      modifies backing
      ensures backing[..] == Stored(old(backing[..]), Round(head + virtualSize, physicalSize), data[..count])
    {
      var insertionPoint := Advanced(virtualSize);
      if insertionPoint + count <= physicalSize {
        Memcpy(backing, insertionPoint, data, 0, count);
      } else {
        StoreRound(insertionPoint, data, count);
      }
    }

    method StoreRound(insertionPoint: nat, data: array<Byte>, count: nat)
      requires physicalSize == backing.Length && insertionPoint < physicalSize < insertionPoint + count
      requires data != backing && count <= data.Length && count <= physicalSize
      modifies backing
      ensures backing[..] == Stored(old(backing[..]), insertionPoint, data[..count])
    {
      ghost var b, d := backing[..], data[..count];
      var firstChunkSize := physicalSize - insertionPoint;
      var secondChunkSize := count - firstChunkSize;
      Memcpy(backing, insertionPoint, data, 0, firstChunkSize);
      assert backing[..] == Pasted(b, insertionPoint, d[..firstChunkSize]) by {
        assert data[..][0..firstChunkSize] == d[..firstChunkSize];
      }
      Memcpy(backing, 0, data, firstChunkSize, secondChunkSize);
      assert backing[..] == Pasted(Pasted(b, insertionPoint, d[..firstChunkSize]), 0, d[firstChunkSize..]) by {
        assert data[..][firstChunkSize..count] == d[firstChunkSize..];
      }
      StoredInTwo(b, insertionPoint, d);
    }

    method Read(data: array<Byte>, maxCount: nat) returns (count: nat)
      requires Valid() && Usable() && data != backing && Least(maxCount, virtualSize) <= data.Length
      modifies this`head, this`virtualSize, data
      ensures Valid() && count == Least(maxCount, |old(Contents())|)
      ensures data[..] == old(Contents())[..count] + old(data[..])[count..]
      ensures Contents() == old(Contents())[count..]
      ensures Account() == Entered(old(Account()), Operation.Read(maxCount))
    {
      count := if maxCount > virtualSize then virtualSize else maxCount;
      hide Window;
      ghost var queue := Contents();
      WindowTake(backing[..], head, virtualSize, count);
      Fetch(data, count);
      assert data[..] == queue[..count] + old(data[..])[count..];
      Drop(count);
    }

    /** The copying part of read, in one piece or round the end. */
    method Fetch(data: array<Byte>, count: nat)
      requires physicalSize == backing.Length && head < physicalSize && count <= physicalSize
      requires data != backing && count <= data.Length
      modifies data
      ensures data[..] == Window(backing[..], head, count) + old(data[..])[count..]
    {
      if head + count <= physicalSize {
        Memcpy(data, 0, backing, head, count);
      } else {
        FetchRound(data, count);
      }
    }

    method FetchRound(data: array<Byte>, count: nat)
      requires physicalSize == backing.Length && head < physicalSize < head + count
      requires data != backing && count <= data.Length && count <= physicalSize
      modifies data
      ensures data[..] == Window(backing[..], head, count) + old(data[..])[count..]
    {
      ghost var d, b := data[..], backing[..];
      var firstChunkSize := physicalSize - head;
      var secondChunkSize := count - firstChunkSize;
      Memcpy(data, 0, backing, head, firstChunkSize);
      assert data[..] == Pasted(d, 0, b[head..]) by {
        assert b[head..head + firstChunkSize] == b[head..];
      }
      Memcpy(data, firstChunkSize, backing, 0, secondChunkSize);
      FetchedInTwo(d, b, head, count);
    }

    method Discard(maxCount: nat) returns (count: nat)
      requires Valid() && Usable()
      modifies this`head, this`virtualSize
      ensures Valid() && count == Least(maxCount, |old(Contents())|)
      ensures Contents() == old(Contents())[count..]
      ensures Account() == Entered(old(Account()), Operation.Discard(maxCount))
    {
      count := if maxCount > virtualSize then virtualSize else maxCount;
      hide Window;
      WindowLength(backing[..], head, virtualSize);
      Drop(count);
    }

    /** The head moves past bytes that are taken out. */
    method Drop(count: nat)
      requires Valid() && Usable() && count <= virtualSize
      modifies this`head, this`virtualSize
      ensures head < physicalSize && virtualSize == old(virtualSize) - count
      ensures Window(backing[..], head, virtualSize) == old(Contents())[count..]
    {
      hide Window;
      WindowDrop(backing[..], head, virtualSize, count);
      head := Advanced(count);
      virtualSize := virtualSize - count;
    }

    method Advanced(count: nat) returns (next: nat)
      requires head < physicalSize && count <= physicalSize
      ensures next < physicalSize && next == Round(head + count, physicalSize)
    {
      RoundIsModulo(head + count, physicalSize);
      next := (head + count) % physicalSize;
    }

    method Clear()
      requires Valid()
      modifies this`head, this`virtualSize
      ensures Valid() && Contents() == [] && Data() == 0
      ensures Account() == Entered(old(Account()), Operation.Clear)
    {
      head := 0;
      virtualSize := 0;
    }

    /** Moves the queue, unchanged, to the start of a new array. */
    method ResizeBacking(newSize: nat)
      requires Valid() && Usable() && virtualSize <= newSize && 0 < newSize < U32
      modifies this`head, this`virtualSize, this`physicalSize, this`backing, this`copied, this`growths
      ensures head == 0 && virtualSize == old(virtualSize) && physicalSize == newSize == backing.Length
      ensures fresh(backing) && Window(backing[..], head, virtualSize) == old(Contents())
      ensures copied == old(copied) + old(virtualSize) && growths == old(growths) + 1
    {
      hide Window;
      WindowLength(backing[..], head, virtualSize);
      var newBacking := new Byte[newSize](_ => 0);
      var oldVirtualSize := virtualSize;
      var moved := Read(newBacking, virtualSize);
      WindowPrefix(newBacking[..], 0, moved, moved);
      copied := copied + moved;
      growths := growths + 1;
      head := 0;
      physicalSize := newSize;
      virtualSize := oldVirtualSize;
      backing := newBacking;
    }

    function ContiguousReadPossible(n: nat): (possible: bool)
      reads this, backing
      requires Valid()
      ensures possible <==> n <= |Contents()| && Data() + n <= backing.Length
      ensures possible ==> backing[Data()..Data() + n] == Contents()[..n]
    {
      WindowPrefix(backing[..], head, virtualSize, n);
      n <= virtualSize && head + n <= physicalSize
    }

    /** Where in the backing array the pointer handed out by data() points. */
    function Data(): nat
      reads this
    {
      head
    }
  }
}
