/**
 * The buffer of lang/main.c: `size` elements of `elementSize` bytes each,
 * stored at the front of a caller-supplied or reallocated block of
 * `capacity` slots. Unlike tau.c's buffer it starts from memory the caller
 * owns, grows from 8 slots and guards the byte count against size_t
 * overflow, and reports failure as -1.
 *
 * size_t is 64 bits wide and is modelled explicitly: every size, capacity
 * and byte count is a SizeT, and `capacity * 2` and `capacity * elementSize`
 * wrap around modulo 2^64 as in C.
 */
module LangBuffer {

  import opened Wrappers
  import Memory

  const SIZE_MAX: int := 0xFFFF_FFFF_FFFF_FFFF
  /** 2^64: the modulus of size_t arithmetic. */
  const WORD: int := SIZE_MAX + 1

  type SizeT = x: int | 0 <= x <= SIZE_MAX

  /** `a * b` in size_t arithmetic. */
  function MulWrap(a: SizeT, b: SizeT): SizeT
  {
    (a * b) % WORD
  }

  /** The new capacity as computed in size_t: 8 for an empty block, else twice the old one. */
  function GrownCapacity(capacity: SizeT): SizeT
  {
    if capacity == 0 then 8 else MulWrap(capacity, 2)
  }

  /** The new capacity the code means, in unbounded integers. */
  function IntendedCapacity(capacity: nat): nat
  {
    if capacity == 0 then 8 else capacity * 2
  }

  /**
   * The overflow guard as coded: the doubled capacity wrapped below the old
   * one, or the wrapped byte count divided by the new capacity is not the
   * element size. The left operand protects the division: the new capacity
   * can only be 0 after wrapping below the old one.
   */
  predicate GrowthOverflows(capacity: SizeT, elementSize: SizeT)
  {
    var newCapacity := GrownCapacity(capacity);
    newCapacity < capacity || MulWrap(newCapacity, elementSize) / newCapacity != elementSize
  }

  lemma MulMonotone(n: int, a: int, b: int)
    requires n > 0 && a <= b
    ensures n * a <= n * b
  {
    assert n * b - n * a == n * (b - a);
  }

  /** Integer division of something below n * e by n stays below e. */
  lemma DivBelow(p: nat, n: nat, e: nat)
    requires n > 0 && p < n * e
    ensures p / n < e
  {
    assert n * (p / n) <= p;
    if p / n >= e {
      MulMonotone(n, e, p / n);
    }
  }

  /** Division undoes a multiplication by a positive number. */
  lemma DivOfMul(n: nat, e: nat)
    requires n > 0
    ensures (n * e) / n == e
  {
    var q := (n * e) / n;
    var r := (n * e) % n;
    assert n * e == n * q + r && 0 <= r < n;
    if q < e {
      MulMonotone(n, q + 1, e);
    } else if q > e {
      MulMonotone(n, e + 1, q);
    }
  }

  lemma ModSmall(x: int)
    requires 0 <= x < WORD
    ensures x % WORD == x
  {
  }

  lemma ModOnce(x: int)
    requires WORD <= x < 2 * WORD
    ensures x % WORD == x - WORD
  {
  }

  /** The wrapped new capacity: below the old one exactly when the intended one does not fit. */
  lemma GrownCapacityWraps(capacity: SizeT)
    ensures IntendedCapacity(capacity) <= SIZE_MAX ==> GrownCapacity(capacity) == IntendedCapacity(capacity)
    ensures IntendedCapacity(capacity) > SIZE_MAX ==> GrownCapacity(capacity) < capacity
  {
    if capacity > 0 {
      if capacity * 2 < WORD {
        ModSmall(capacity * 2);
      } else {
        ModOnce(capacity * 2);
      }
    }
  }

  /** The division test of the guard fails exactly when the byte count wraps. */
  lemma ByteCountTest(n: SizeT, elementSize: SizeT)
    requires n > 0
    ensures MulWrap(n, elementSize) / n != elementSize <==> n * elementSize > SIZE_MAX
    ensures n * elementSize <= SIZE_MAX ==> MulWrap(n, elementSize) == n * elementSize
  {
    var bytes := n * elementSize;
    assert MulWrap(n, elementSize) == bytes % WORD;
    if bytes > SIZE_MAX {
      assert bytes % WORD < WORD <= bytes;
      DivBelow(bytes % WORD, n, elementSize);
    } else {
      ModSmall(bytes);
      DivOfMul(n, elementSize);
    }
  }

  /**
   * The guard rejects exactly when the intended capacity, or the number of
   * bytes it takes, does not fit in a size_t; when it accepts, the wrapped
   * values are the intended ones and the block grows.
   */
  lemma GrowthGuardExact(capacity: SizeT, elementSize: SizeT)
    ensures GrowthOverflows(capacity, elementSize) <==>
      IntendedCapacity(capacity) > SIZE_MAX || IntendedCapacity(capacity) * elementSize > SIZE_MAX
    ensures !GrowthOverflows(capacity, elementSize) ==>
      && GrownCapacity(capacity) == IntendedCapacity(capacity) > capacity
      && MulWrap(GrownCapacity(capacity), elementSize) == GrownCapacity(capacity) * elementSize
  {
    GrownCapacityWraps(capacity);
    if IntendedCapacity(capacity) <= SIZE_MAX {
      ByteCountTest(GrownCapacity(capacity), elementSize);
    }
  }

  /**
   * When the code as written reallocates: only when the block is full
   * (lang/main.c:85), even when there is no block at all.
   */
  predicate NeedsGrowthAsWritten(size: SizeT, capacity: SizeT)
  {
    size == capacity
  }

  /** When a push reallocates: when the block is full or there is none yet. */
  predicate NeedsGrowth(hasBase: bool, size: SizeT, capacity: SizeT)
  {
    size == capacity || !hasBase
  }

  class Buffer<T> {
    /** The block; null models a NULL base pointer. */
    var base: array?<T>
    var size: SizeT
    var capacity: SizeT
    var elementSize: SizeT

    /**
     * A block, when present, holds `capacity` slots (the caller promises this
     * of its own memory); the elements are at its front; without a block
     * there are no elements, though `capacity` may say otherwise.
     */
    ghost predicate Valid()
      reads this
    {
      && size <= capacity
      && (base != null ==> capacity <= base.Length)
      && (base == null ==> size == 0)
    }

    /** The stored elements, oldest first. */
    ghost function Contents(): seq<T>
      reads this, base
      requires Valid()
    {
      if base == null then [] else base[..size]
    }

    /** buffer_create: an empty buffer over the caller's block, whatever the warnings. */
    constructor (base: array?<T>, elementSize: SizeT, capacity: SizeT)
      requires base != null ==> capacity <= base.Length
      ensures Valid() && Contents() == []
      ensures this.base == base && this.elementSize == elementSize
      ensures this.capacity == capacity && size == 0
    {
      this.base := base;
      this.elementSize := elementSize;
      this.capacity := capacity;
      this.size := 0;
    }
  }

  /**
   * When the store at lang/main.c:114-117 has a block to write into under the
   * rule as written: there is a block, or the push reallocates first.
   */
  ghost predicate PushDefinedAsWritten<T>(buf: Buffer<T>)
    reads buf
  {
    buf.base != null || NeedsGrowthAsWritten(buf.size, buf.capacity)
  }

  /**
   * buffer_create(NULL, es, capacity): a valid empty buffer without a block.
   * Under the rule as written its first push is defined only when
   * `capacity` is 0; for any other capacity that push skips the realloc and
   * copies the element to offset 0 of the NULL base.
   */
  method NullBaseFirstPushAsWritten<T>(elementSize: SizeT, capacity: SizeT) returns (buf: Buffer<T>)
    ensures buf.Valid() && buf.Contents() == []
    ensures buf.base == null && buf.size == 0 && buf.capacity == capacity && buf.elementSize == elementSize
    ensures PushDefinedAsWritten(buf) <==> capacity == 0
    ensures NeedsGrowth(false, buf.size, buf.capacity)
  {
    buf := new Buffer<T>(null, elementSize, capacity);
  }

  /** What a push or destroy may change: the buffer and its block. */
  function Footprint<T>(buf: Buffer?<T>): set<object>
    reads buf
  {
    if buf == null then {} else if buf.base == null then {buf} else {buf, buf.base}
  }

  /**
   * buffer_destroy: a buffer with a block releases it and is reset to all
   * zeros; a NULL buffer or one without a block is left as it is.
   */
  method BufferDestroy<T>(buf: Buffer?<T>)
    requires buf != null ==> buf.Valid()
    modifies buf
    ensures buf != null ==> buf.Valid() && buf.Contents() == []
    ensures buf != null && old(buf.base) != null ==>
      buf.base == null && buf.size == 0 && buf.capacity == 0 && buf.elementSize == 0
    ensures buf != null && old(buf.base) == null ==> unchanged(buf)
  {
    if buf != null && buf.base != null {
      buf.base := null;
      buf.size := 0;
      buf.capacity := 0;
      buf.elementSize := 0;
    }
  }

  /**
   * buffer_push with the corrected growth rule. `element` None models a NULL
   * element pointer; `reallocOk` is whether realloc succeeds. Returns 0 when
   * the element was appended and -1 when nothing changed: a NULL argument, a
   * zero element size, a size_t overflow in the new byte count, or a failed
   * realloc (which leaves the old block in place).
   */
  method BufferPush<T>(buf: Buffer?<T>, element: Option<T>, reallocOk: bool) returns (r: int)
    requires buf != null ==> buf.Valid()
    modifies Footprint(buf)
    ensures r == 0 || r == -1
    ensures buf == null ==> r == -1
    ensures buf != null ==> buf.Valid()
    ensures buf != null ==> (r == 0 <==>
      && element.Some?
      && old(buf.elementSize) > 0
      && (NeedsGrowth(old(buf.base) != null, old(buf.size), old(buf.capacity)) ==>
            !GrowthOverflows(old(buf.capacity), old(buf.elementSize)) && reallocOk))
    ensures buf != null && r == -1 ==> unchanged(buf) && (old(buf.base) != null ==> unchanged(old(buf.base)))
    ensures buf != null && r == 0 ==>
      && buf.Contents() == old(buf.Contents()) + [element.value]
      && buf.size == old(buf.size) + 1
      && buf.elementSize == old(buf.elementSize)
      && (if NeedsGrowth(old(buf.base) != null, old(buf.size), old(buf.capacity))
          then buf.capacity == IntendedCapacity(old(buf.capacity)) && fresh(buf.base)
          else buf.capacity == old(buf.capacity) && buf.base == old(buf.base))
  {
    if buf == null || element.None? {
      return -1;
    }
    if buf.elementSize == 0 {
      return -1;
    }
    ghost var before := buf.Contents();
    if NeedsGrowth(buf.base != null, buf.size, buf.capacity) {
      GrowthGuardExact(buf.capacity, buf.elementSize);
      if GrowthOverflows(buf.capacity, buf.elementSize) {
        return -1;
      }
      var newCapacity := GrownCapacity(buf.capacity);
      if !reallocOk {
        return -1;
      }
      var moved := Memory.Realloc(buf.base, buf.size, newCapacity, element.value);
      buf.base := moved;
      buf.capacity := newCapacity;
      assert buf.base[..buf.size] == before;
    }
    buf.base[buf.size] := element.value;
    buf.size := buf.size + 1;
    assert buf.base[..buf.size] == before + [element.value];
    return 0;
  }

  /**
   * buffer_push exactly as written: it reallocates only when `size ==
   * capacity` (lang/main.c:85). It is defined only where the store has a
   * block to write into (PushDefinedAsWritten), and on every such buffer it
   * reallocates exactly when the corrected rule of BufferPush does, so the
   * two pushes differ only on a NULL base with non-zero capacity.
   */
  method BufferPushAsWritten<T>(buf: Buffer?<T>, element: Option<T>, reallocOk: bool) returns (r: int)
    requires buf != null ==> buf.Valid() && PushDefinedAsWritten(buf)
    modifies Footprint(buf)
    ensures r == 0 || r == -1
    ensures buf == null ==> r == -1
    ensures buf != null ==> buf.Valid()
    ensures buf != null ==>
      (NeedsGrowthAsWritten(old(buf.size), old(buf.capacity)) <==>
       NeedsGrowth(old(buf.base) != null, old(buf.size), old(buf.capacity)))
    ensures buf != null ==> (r == 0 <==>
      && element.Some?
      && old(buf.elementSize) > 0
      && (NeedsGrowthAsWritten(old(buf.size), old(buf.capacity)) ==>
            !GrowthOverflows(old(buf.capacity), old(buf.elementSize)) && reallocOk))
    ensures buf != null && r == -1 ==> unchanged(buf) && (old(buf.base) != null ==> unchanged(old(buf.base)))
    ensures buf != null && r == 0 ==>
      && buf.Contents() == old(buf.Contents()) + [element.value]
      && buf.size == old(buf.size) + 1
      && buf.elementSize == old(buf.elementSize)
      && (if NeedsGrowthAsWritten(old(buf.size), old(buf.capacity))
          then buf.capacity == IntendedCapacity(old(buf.capacity)) && fresh(buf.base)
          else buf.capacity == old(buf.capacity) && buf.base == old(buf.base))
  {
    if buf == null || element.None? {
      return -1;
    }
    if buf.elementSize == 0 {
      return -1;
    }
    ghost var before := buf.Contents();
    if NeedsGrowthAsWritten(buf.size, buf.capacity) {
      GrowthGuardExact(buf.capacity, buf.elementSize);
      if GrowthOverflows(buf.capacity, buf.elementSize) {
        return -1;
      }
      var newCapacity := GrownCapacity(buf.capacity);
      if !reallocOk {
        return -1;
      }
      var moved := Memory.Realloc(buf.base, buf.size, newCapacity, element.value);
      buf.base := moved;
      buf.capacity := newCapacity;
      assert buf.base[..buf.size] == before;
    }
    buf.base[buf.size] := element.value;
    buf.size := buf.size + 1;
    assert buf.base[..buf.size] == before + [element.value];
    return 0;
  }

  /** What buffer_get_nth reads: the buffer and its block. */
  function NthFrame<T>(buf: Buffer?<T>): set<object>
    reads buf
  {
    if buf == null || buf.base == null then {} else {buf.base}
  }

  /**
   * buffer_get_nth: the n-th element (the pointer to it in C), or None (NULL)
   * for a NULL buffer or an index at or past the size.
   */
  function BufferGetNth<T>(buf: Buffer?<T>, n: SizeT): (e: Option<T>)
    reads buf, NthFrame(buf)
    requires buf != null ==> buf.Valid()
    ensures e.None? <==> buf == null || n >= buf.size
    ensures e.Some? ==> e.value == buf.Contents()[n]
  {
    if buf == null || n >= buf.size then None else Some(buf.base[n])
  }
}
