/**
 The bare-metal runtime's memory (include/nupa/runtime_baremetal.c:41-59, 61-82, 132-148): a bump
 allocator that rounds with a bit mask and never reuses a byte, and the pools that grow by copying.
 */
module BumpAllocator {
  import opened Words
  import opened Wrappers

  /** `(size + align - 1) & ~(align - 1)` on words of `bits` bits, `align` being `2^k`. */
  function RoundUp(size: nat, k: nat, bits: nat): nat {
    And((size + Pow2(k) - 1) % Pow2(bits), Not(Pow2(k) - 1, bits), bits)
  }

  /** The least multiple that holds the request when the addition does not wrap, and 0 when it does. */
  lemma {:induction false} RoundsToLeastMultiple(size: nat, k: nat, bits: nat)
    requires k <= bits && size < Pow2(bits)
    ensures var r, a := RoundUp(size, k, bits), Pow2(k);
            && r % a == 0
            && (size + a - 1 < Pow2(bits) ==> size <= r < size + a && forall m: nat :: m * a >= size ==> m * a >= r)
            && (size + a - 1 >= Pow2(bits) ==> r == 0 && size > 0)
  {
    hide Pow2, RoundUp;
    var a, w := Pow2(k), Pow2(bits);
    PowMonotone(k, bits);
    var x := (size + a - 1) % w;
    RoundUpIs(size, k, bits);
    RoundedDown(x, a);
    if size + a - 1 < w {
      Division(size + a - 1, w, (size + a - 1) / w, x, 0, size + a - 1);
      LeastMultiple(size, a);
    } else {
      Division(size + a - 1, w, (size + a - 1) / w, x, 1, size + a - 1 - w);
      Division(x, a, x / a, x % a, 0, x);
    }
  }

  lemma {:induction false} RoundUpIs(size: nat, k: nat, bits: nat)
    requires k <= bits
    ensures var x := (size + Pow2(k) - 1) % Pow2(bits); RoundUp(size, k, bits) == x - x % Pow2(k)
  {
    hide Pow2, And, Not;
    MaskClears((size + Pow2(k) - 1) % Pow2(bits), k, bits);
  }

  lemma {:induction false} RoundedDown(x: nat, a: nat)
    requires a > 0
    ensures (x - x % a) % a == 0
  {
    var q, y := x / a, x - x % a;
    assert x == a * q + x % a;
    Division(y, a, y / a, y % a, q, 0);
  }

  lemma {:induction false} LeastMultiple(size: nat, a: nat)
    requires a > 0
    ensures var x := size + a - 1; var r := x - x % a;
            size <= r < size + a && forall m: nat :: m * a >= size ==> m * a >= r
  {
    var x := size + a - 1;
    var q := x / a;
    assert x == a * q + x % a;
    forall m: nat | m * a >= size
      ensures m * a >= a * q
    {
      if m < q {
        Multiples(a, m, q);
      }
    }
  }

  lemma {:induction false} PowMonotone(k: nat, n: nat)
    requires k <= n
    ensures Pow2(k) <= Pow2(n)
  {
    PowSum(k, n - k);
    var rest := Pow2(n - k);
    assert Pow2(k) * rest >= Pow2(k) * 1 by {
      if rest > 1 {
        Multiples(Pow2(k), 1, rest);
      }
    }
  }

  /** A request holds what it asked for iff the rounding did not wrap. */
  lemma {:induction false} HoldsRequestIff(size: nat, k: nat, bits: nat)
    requires k <= bits && size < Pow2(bits)
    ensures RoundUp(size, k, bits) >= size <==> size + Pow2(k) - 1 < Pow2(bits)
  {
    RoundsToLeastMultiple(size, k, bits);
  }

  type Ref = nat        // address of an object; 0 is NULL

  /** A block handed out: where it starts and how many bytes were asked for. */
  datatype Block = Block(start: nat, size: nat)

  /** Aligned, inside what is used, and each behind the ones before it. */
  ghost predicate Apart(blocks: seq<Block>, used: nat, align: nat)
    requires align > 0
  {
    && (forall i :: 0 <= i < |blocks| ==> blocks[i].start % align == 0 && blocks[i].start + blocks[i].size <= used)
    && forall i, j :: 0 <= i < j < |blocks| ==> blocks[i].start + blocks[i].size <= blocks[j].start
  }

  lemma {:induction false} MultiplesAdd(x: nat, y: nat, a: nat)
    requires a > 0 && x % a == 0 && y % a == 0
    ensures (x + y) % a == 0
  {
    var p, q := x / a, y / a;
    assert x + y == a * (p + q);
    Division(x + y, a, (x + y) / a, (x + y) % a, p + q, 0);
  }

  lemma {:induction false} Appended(blocks: seq<Block>, off: nat, request: nat, after: nat, align: nat)
    requires align > 0 && Apart(blocks, off, align) && off % align == 0 && off + request <= after
    ensures Apart(blocks + [Block(off, request)], after, align)
  {
    var all := blocks + [Block(off, request)];
    assert forall i :: 0 <= i < |blocks| ==> all[i] == blocks[i];
  }

  // ---------------------------------------------------------------- the heap

  /** Memory starts zeroed. */
  function ReadFrom(memory: map<nat, Ref>, address: nat): Ref {
    if address in memory then memory[address] else 0
  }

  /** The offset after a request: `nupa_heap_off + size` on words of `bits` bits. */
  function OffsetAfter(off: nat, request: nat, k: nat, bits: nat): nat {
    (off + RoundUp(request, k, bits)) % Pow2(bits)
  }

  /** One of the two additions of a request wraps around. */
  predicate Wraps(off: nat, request: nat, k: nat, bits: nat) {
    request + Pow2(k) - 1 >= Pow2(bits) || off + RoundUp(request, k, bits) >= Pow2(bits)
  }

  lemma {:induction false} WithoutWrap(off: nat, request: nat, k: nat, bits: nat)
    requires k <= bits && off < Pow2(bits) && request < Pow2(bits) && off % Pow2(k) == 0
        && !Wraps(off, request, k, bits)
    ensures var after := OffsetAfter(off, request, k, bits);
            after == off + RoundUp(request, k, bits) && off + request <= after && after % Pow2(k) == 0
  {
    hide RoundUp, Pow2;
    RoundsToLeastMultiple(request, k, bits);
    var rounded := RoundUp(request, k, bits);
    var sum := off + rounded;
    Division(sum, Pow2(bits), sum / Pow2(bits), sum % Pow2(bits), 0, sum);
    MultiplesAdd(off, rounded, Pow2(k));
  }

  /** A request whose rounding wraps takes no bytes at all, at the current position. */
  lemma {:induction false} WrappedRequestGetsNothing(off: nat, request: nat, k: nat, bits: nat)
    requires k <= bits && off < Pow2(bits) && request < Pow2(bits) && request + Pow2(k) - 1 >= Pow2(bits)
    ensures OffsetAfter(off, request, k, bits) == off && request > 0
  {
    hide RoundUp, Pow2;
    RoundsToLeastMultiple(request, k, bits);
    Division(off, Pow2(bits), off / Pow2(bits), off % Pow2(bits), 0, off);
  }

  /** When only the sum wraps, the offset moves back. */
  lemma {:induction false} WrappedSumMovesBack(off: nat, request: nat, k: nat, bits: nat)
    requires k <= bits && off < Pow2(bits) && request < Pow2(bits) && request + Pow2(k) - 1 < Pow2(bits)
    requires off + RoundUp(request, k, bits) >= Pow2(bits)
    ensures OffsetAfter(off, request, k, bits) < off
  {
    hide RoundUp, Pow2;
    RoundUpBelow(request, k, bits);
    var sum, w := off + RoundUp(request, k, bits), Pow2(bits);
    Division(sum, w, sum / w, sum % w, 1, sum - w);
  }

  lemma {:induction false} RoundUpBelow(request: nat, k: nat, bits: nat)
    ensures RoundUp(request, k, bits) < Pow2(bits)
  {
  }

  /** Either way the block does not fit between the offsets before and after. */
  lemma {:induction false} WrapDoesNotHold(off: nat, request: nat, k: nat, bits: nat)
    requires k <= bits && off < Pow2(bits) && request < Pow2(bits) && Wraps(off, request, k, bits)
    ensures off + request > OffsetAfter(off, request, k, bits)
  {
    hide RoundUp, Pow2, OffsetAfter;
    if request + Pow2(k) - 1 >= Pow2(bits) {
      WrappedRequestGetsNothing(off, request, k, bits);
    } else {
      WrappedSumMovesBack(off, request, k, bits);
    }
  }

  /**
   Asking for two alignment units less than the word can count, with at least two in use: the call
   succeeds, and the next block begins two units inside what was handed out before.
   */
  lemma {:induction false} HugeRequestOverlaps(off: nat, k: nat, bits: nat, size: nat)
    requires k < bits && off % Pow2(k) == 0 && 2 * Pow2(k) <= off <= size < Pow2(bits)
    ensures var request := Pow2(bits) - 2 * Pow2(k);
            && request >= 0 && Wraps(off, request, k, bits)
            && OffsetAfter(off, request, k, bits) == off - 2 * Pow2(k) <= size
  {
    hide RoundUp, Pow2;
    var a, w := Pow2(k), Pow2(bits);
    var m := TwoUnitsLess(k, bits);
    var request := w - 2 * a;
    RoundsToLeastMultiple(request, k, bits);
    assert m * a >= request;
    var sum := off + RoundUp(request, k, bits);
    Division(sum, w, sum / w, sum % w, 1, off - 2 * a);
  }

  lemma {:induction false} TwoUnitsLess(k: nat, bits: nat) returns (m: nat)
    requires k < bits
    ensures m * Pow2(k) == Pow2(bits) - 2 * Pow2(k)
  {
    PowSum(k, bits - k);
    m := Pow2(bits - k) - 2;
    var a := Pow2(k);
    hide Pow2;
    assert m * a == (m + 2) * a - 2 * a;
  }

  class Heap {
    const bits: nat
    const alignBits: nat
    const size: nat
    var off: nat
    var memory: map<nat, Ref>        // pointers by address
    ghost var blocks: seq<Block>

    ghost predicate Valid()
      reads this
    {
      && alignBits <= bits && size < Pow2(bits)
      && off <= size && off % Pow2(alignBits) == 0
      && Apart(blocks, off, Pow2(alignBits))
    }

    constructor (bits: nat, alignBits: nat, size: nat)
      requires alignBits <= bits && size < Pow2(bits)
      ensures Valid() && off == 0 && blocks == []
      ensures this.bits == bits && this.alignBits == alignBits && this.size == size
    {
      this.bits, this.alignBits, this.size := bits, alignBits, size;
      off, memory := 0, map[];
      blocks := [];
      new;
      Division(0, Pow2(alignBits), 0 / Pow2(alignBits), 0 % Pow2(alignBits), 0, 0);
    }

    method Write(address: nat, value: Ref)
      modifies `memory
      ensures memory == old(memory)[address := value]
    {
      memory := memory[address := value];
    }

    /**
     NULL exactly if the new offset would be past the end, and then nothing changed. Otherwise a block at the
     old offset; blocks stay aligned, in bounds and disjoint exactly if neither addition wrapped around.
     */
    method Malloc(request: nat) returns (p: Option<nat>)
      requires Valid() && request < Pow2(bits)
      modifies `off, `blocks
      ensures var after := OffsetAfter(old(off), request, alignBits, bits);
              && (p.None? <==> after > size)
              && (p.None? ==> off == old(off) && blocks == old(blocks))
              && (p.Some? ==> p.value == old(off) && off == after && blocks == old(blocks) + [Block(p.value, request)])
      ensures Valid() <==> p.None? || !Wraps(old(off), request, alignBits, bits)
    {
      hide RoundUp, Pow2, Apart, OffsetAfter, Wraps;
      var rounded := RoundUp(request, alignBits, bits);
      var after := (off + rounded) % Pow2(bits);
      NewOffset(off, request, alignBits, bits);
      if after > size {
        return None;
      }
      if Wraps(off, request, alignBits, bits) {
        WrapDoesNotHold(off, request, alignBits, bits);
        NotApart(blocks, off, request, after, Pow2(alignBits));
      } else {
        WithoutWrap(off, request, alignBits, bits);
        Appended(blocks, off, request, after, Pow2(alignBits));
      }
      p := Some(off);
      off := after;
      blocks := blocks + [Block(p.value, request)];
    }

    /** Frees nothing. */
    method Free(p: Option<nat>)
      requires Valid()
      ensures Valid() && off == old(off) && blocks == old(blocks)
    {
    }
  }

  lemma {:induction false} NewOffset(off: nat, request: nat, k: nat, bits: nat)
    ensures OffsetAfter(off, request, k, bits) == (off + RoundUp(request, k, bits)) % Pow2(bits)
  {
  }

  lemma {:induction false} NotApart(blocks: seq<Block>, off: nat, request: nat, after: nat, align: nat)
    requires align > 0 && off + request > after
    ensures !Apart(blocks + [Block(off, request)], after, align)
  {
    var all := blocks + [Block(off, request)];
    assert all[|blocks|] == Block(off, request);
  }

  /** No address is in two blocks. */
  lemma {:induction false} BlocksDisjoint(blocks: seq<Block>, used: nat, align: nat, i: nat, j: nat, address: nat)
    requires align > 0 && Apart(blocks, used, align) && i < |blocks| && j < |blocks|
    requires blocks[i].start <= address < blocks[i].start + blocks[i].size
    requires blocks[j].start <= address < blocks[j].start + blocks[j].size
    ensures i == j
  {
  }

  // ---------------------------------------------------------------- pools

  /** The address of entry `i` of a buffer. */
  function Cell(base: nat, i: nat, width: nat): nat {
    base + i * width
  }

  lemma {:induction false} CellsInOrder(base: nat, i: nat, j: nat, width: nat)
    requires i < j && width > 0
    ensures Cell(base, i, width) < Cell(base, j, width)
  {
    Multiples(width, i, j);
  }

  lemma {:induction false} CellInside(base: nat, i: nat, capacity: nat, width: nat)
    requires i < capacity && width > 0
    ensures base <= Cell(base, i, width) < base + capacity * width
  {
    Multiples(width, i, capacity);
    assert i * width == width * i && capacity * width == width * capacity;
  }

  /** What a buffer holds in its first `n` entries. */
  ghost function Entries(memory: map<nat, Ref>, base: nat, n: nat, width: nat): (r: seq<Ref>)
    ensures |r| == n && forall i :: 0 <= i < n ==> r[i] == ReadFrom(memory, Cell(base, i, width))
  {
    seq(n, i requires 0 <= i < n => ReadFrom(memory, Cell(base, i, width)))
  }

  /** Writing the next entry appends it. */
  lemma {:induction false} EntriesPush(memory: map<nat, Ref>, base: nat, n: nat, width: nat, item: Ref)
    requires width > 0
    ensures Entries(memory[Cell(base, n, width) := item], base, n + 1, width)
        == Entries(memory, base, n, width) + [item]
  {
    forall i | 0 <= i < n
      ensures Cell(base, i, width) < Cell(base, n, width)
    {
      CellsInOrder(base, i, n, width);
    }
  }

  /** The pool's buffer is a block of the heap; `objects` is NULL until the first object comes. */
  class Pool {
    const heap: Heap
    const width: nat                 // sizeof(NPObject *)
    var objects: Option<nat>
    var count: nat
    var capacity: nat
    ghost var mine: nat              // which block of the heap the buffer is

    ghost predicate Valid()
      reads this, heap
    {
      && heap.Valid() && width > 0 && count <= capacity && (objects.None? ==> capacity == 0)
      && (objects.Some? ==> mine < |heap.blocks| && heap.blocks[mine] == Block(objects.value, capacity * width))
    }

    function Base(): nat
      reads this
    {
      if objects.Some? then objects.value else 0
    }

    ghost function Contents(): seq<Ref>
      reads this, heap
    {
      Entries(heap.memory, Base(), count, width)
    }

    constructor (heap: Heap, width: nat)
      requires heap.Valid() && width > 0
      ensures Valid() && Contents() == [] && this.heap == heap && this.width == width
    {
      this.heap, this.width := heap, width;
      objects, count, capacity := None, 0, 0;
    }

    /** The capacity a full pool asks for. */
    function Wanted(): nat
      reads this
    {
      if capacity > 0 then capacity * 2 else 16
    }

    /** The buffer lies below the heap's offset. */
    lemma {:induction false} BufferBelow()
      requires Valid()
      ensures objects.Some? ==> objects.value + capacity * width <= heap.off <= heap.size
      ensures objects.None? ==> capacity * width == 0
    {
      hide Pow2;
    }

    /** `new_cap * sizeof(NPObject *)` on words of the machine. */
    function Request(): nat
      reads this, heap
    {
      (Wanted() * width) % Pow2(heap.bits)
    }

    /** Neither the product nor an addition of the request wraps around. */
    predicate Unwrapped()
      reads this, heap
    {
      Wanted() * width < Pow2(heap.bits) && !Wraps(heap.off, Request(), heap.alignBits, heap.bits)
    }

    /** On a heap of less than a third of the address range no request of a pool wraps. */
    lemma {:induction false} SmallHeapUnwrapped()
      requires Valid() && 3 * heap.size + 16 * width + Pow2(heap.alignBits) <= Pow2(heap.bits)
      ensures Unwrapped()
    {
      hide RoundUp, Pow2;
      BufferBelow();
      TwiceAsMany(capacity, width);
      var request := Wanted() * width;
      assert request <= 2 * heap.size + 16 * width;
      PowMonotone(heap.alignBits, heap.bits);
      RoundsToLeastMultiple(request, heap.alignBits, heap.bits);
      Division(request, Pow2(heap.bits), request / Pow2(heap.bits), request % Pow2(heap.bits), 0, request);
    }

    lemma {:induction false} RequestFits()
      requires Valid()
      ensures Request() < Pow2(heap.bits)
      ensures Wanted() * width < Pow2(heap.bits) <==> Request() == Wanted() * width
    {
      hide Pow2;
      var request, m := Wanted() * width, Pow2(heap.bits);
      if request < m {
        Division(request, m, request / m, request % m, 0, request);
      }
    }

    /**
     A full pool moves everything, in order, to a block of its own. What it writes lies in that block, above
     everything handed out before, so nothing else changes. Without room the pool is left as it was. All that is so
     exactly if the request did not wrap around; otherwise the pool believes in a buffer that it was not given.
     */
    method Grow() returns (grown: bool)
      requires Valid()
      modifies `objects, `capacity, `mine, heap
      ensures grown <==> OffsetAfter(old(heap.off), old(Request()), heap.alignBits, heap.bits) <= heap.size
      ensures Valid() <==> !grown || old(Unwrapped())
      ensures Valid() ==> Contents() == old(Contents()) && Untouched(old(heap.memory), heap.memory, old(heap.off))
      ensures old(heap.blocks) <= heap.blocks && count == old(count)
      ensures grown ==> objects == Some(old(heap.off))
                        && capacity == if old(capacity) == 0 then 16 else 2 * old(capacity)
      ensures !grown ==> objects == old(objects) && capacity == old(capacity) && heap.off == old(heap.off)
    {
      hide Pow2, RoundUp, OffsetAfter, Wraps, Apart, Cell, Entries, Untouched;
      BufferBelow();
      RequestFits();
      var bigger := Wanted();
      ghost var unwrapped := Unwrapped();
      var block := heap.Malloc(Request());
      NothingWritten(heap.memory, old(heap.off));
      if block.None? {
        return false;
      }
      ghost var start := heap.memory;
      var from := Base();
      NoEntries(start, block.value, from, width);
      for i := 0 to count
        modifies heap`memory
        invariant Entries(heap.memory, block.value, i, width) == Entries(start, from, i, width)
        invariant Untouched(start, heap.memory, old(heap.off))
      {
        CellInside(from, i, capacity, width);
        CellInside(block.value, i, bigger, width);
        CopyStep(start, heap.memory, from, block.value, i, width, old(heap.off));
        heap.Write(Cell(block.value, i, width), ReadFrom(heap.memory, Cell(from, i, width)));
      }
      objects, capacity, mine := block, bigger, |heap.blocks| - 1;
      return true;
    }

    /**
     The object goes to the end, unless the pool is full and cannot grow; then it is not recorded. The pool stays
     sound exactly if it did not have to grow by a request that wrapped around.
     */
    method Autorelease(item: Ref) returns (recorded: bool)
      requires Valid()
      modifies this, heap
      ensures recorded <==>
                old(count) < old(capacity)
                || OffsetAfter(old(heap.off), old(Request()), heap.alignBits, heap.bits) <= heap.size
      ensures Valid() <==> !recorded || old(count) < old(capacity) || old(Unwrapped())
      ensures old(heap.blocks) <= heap.blocks
      ensures Valid() ==> Contents() == if recorded then old(Contents()) + [item] else old(Contents())
      ensures Valid() ==>
                forall a: nat :: a < old(heap.off) && a != Cell(old(Base()), old(count), width) ==>
                    ReadFrom(heap.memory, a) == ReadFrom(old(heap.memory), a)
    {
      hide Pow2, RoundUp, OffsetAfter, Wraps, Apart, Cell, Entries, Pool.Request, Pool.Unwrapped;
      if count >= capacity {
        var grown := Grow();
        if !grown {
          return false;
        }
        CellInside(Base(), count, capacity, width);
      }
      EntriesPush(heap.memory, Base(), count, width, item);
      heap.Write(Cell(Base(), count, width), item);
      count := count + 1;
      return true;
    }
  }

  /** Every address below `used` holds what it held. */
  ghost predicate Untouched(before: map<nat, Ref>, after: map<nat, Ref>, used: nat) {
    forall a: nat :: a < used ==> ReadFrom(after, a) == ReadFrom(before, a)
  }

  lemma {:induction false} NothingWritten(memory: map<nat, Ref>, used: nat)
    ensures Untouched(memory, memory, used)
  {
  }

  lemma {:induction false} NoEntries(memory: map<nat, Ref>, to: nat, from: nat, width: nat)
    ensures Entries(memory, to, 0, width) == [] == Entries(memory, from, 0, width)
  {
  }

  lemma {:induction false} TwiceAsMany(c: nat, p: nat)
    ensures c * 2 * p == 2 * (c * p)
  {
  }

  /** Copying one entry from below `used` to above it. */
  lemma {:induction false} CopyStep(start: map<nat, Ref>, memory: map<nat, Ref>, from: nat, to: nat, i: nat,
                                    width: nat, used: nat)
    requires width > 0 && Cell(from, i, width) < used <= Cell(to, i, width)
    requires Entries(memory, to, i, width) == Entries(start, from, i, width) && Untouched(start, memory, used)
    ensures var after := memory[Cell(to, i, width) := ReadFrom(memory, Cell(from, i, width))];
            Entries(after, to, i + 1, width) == Entries(start, from, i + 1, width) && Untouched(start, after, used)
  {
    hide Cell;
    var value := ReadFrom(memory, Cell(from, i, width));
    EntriesPush(memory, to, i, width, value);
    assert Entries(start, from, i + 1, width) == Entries(start, from, i, width) + [value];
  }
}
