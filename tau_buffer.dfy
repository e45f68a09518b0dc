/**
 * The growable buffer of tau.c: `count` elements stored at the front of a
 * block of `capacity` slots; a push onto a full buffer doubles the block
 * (or makes it one slot if it had none).
 */
module TauBuffer {

  import opened Wrappers
  import Memory

  /**
   * The capacity buffer_push asks buffer_resize for when the buffer is full:
   * always room for one more element, and at least double the old capacity.
   */
  function GrownCapacity(capacity: nat): (c: nat)
    ensures c > capacity && c >= 2 * capacity
  {
    if capacity == 0 then 1 else capacity * 2
  }

  class Buffer<T> {
    var data: array<T>
    var capacity: nat
    var count: nat
    /** The element whose bytes are all zero: what buffer_clear writes into every slot. */
    const zero: T

    ghost predicate Valid()
      reads this
    {
      count <= capacity && data.Length == capacity
    }

    /** The stored elements, oldest first. */
    ghost function Contents(): seq<T>
      reads this, data
      requires Valid()
    {
      data[..count]
    }

    constructor (initialCapacity: nat, zero: T)
      ensures Valid() && fresh(data)
      ensures capacity == initialCapacity && Contents() == [] && this.zero == zero
    {
      data := new T[initialCapacity](_ => zero);
      capacity := initialCapacity;
      count := 0;
      this.zero := zero;
    }

    /**
     * buffer_create: NULL when either allocation fails (`allocOk` false),
     * otherwise an empty buffer of the requested capacity.
     */
    static method Create(initialCapacity: nat, zero: T, allocOk: bool) returns (buf: Buffer?<T>)
      ensures allocOk <==> buf != null
      ensures buf != null ==> fresh(buf) && fresh(buf.data) && buf.Valid()
      ensures buf != null ==> buf.capacity == initialCapacity && buf.Contents() == [] && buf.zero == zero
    {
      if !allocOk {
        return null;
      }
      buf := new Buffer(initialCapacity, zero);
    }

    /**
     * buffer_resize: 1 with the block moved to `newCapacity` slots when
     * realloc succeeds (`reallocOk`), 0 with nothing changed otherwise.
     */
    method Resize(newCapacity: nat, reallocOk: bool) returns (r: int)
      requires Valid() && count <= newCapacity
      modifies this
      ensures Valid() && count == old(count) && Contents() == old(Contents())
      ensures r == (if reallocOk then 1 else 0)
      ensures r == 1 ==> capacity == newCapacity && fresh(data)
      ensures r == 0 ==> capacity == old(capacity) && data == old(data)
    {
      if !reallocOk {
        return 0;
      }
      data := Memory.Realloc(data, count, newCapacity, zero);
      capacity := newCapacity;
      return 1;
    }

    /**
     * buffer_push: appends `element`, growing a full buffer first. Returns 0,
     * with nothing changed, only when that growth fails; 1 otherwise.
     */
    method Push(element: T, reallocOk: bool) returns (r: int)
      requires Valid()
      modifies this, data
      ensures Valid()
      ensures r == 0 || r == 1
      ensures r == 0 <==> old(count) == old(capacity) && !reallocOk
      ensures r == 0 ==> count == old(count) && capacity == old(capacity) && data == old(data)
      ensures r == 0 ==> unchanged(data)
      ensures r == 1 ==> Contents() == old(Contents()) + [element] && count == old(count) + 1
      ensures r == 1 ==> capacity == (if old(count) == old(capacity) then GrownCapacity(old(capacity)) else old(capacity))
      ensures data == old(data) || fresh(data)
    {
      if count == capacity {
        var resized := Resize(GrownCapacity(capacity), reallocOk);
        if resized == 0 {
          return 0;
        }
      }
      data[count] := element;
      count := count + 1;
      return 1;
    }

    /** buffer_nth: the element at index `n`, or NULL when `n` is past the end. */
    function Nth(n: nat): (e: Option<T>)
      reads this, data
      requires Valid()
      ensures e.None? <==> n >= count
      ensures e.Some? ==> e.value == Contents()[n]
    {
      if n >= count then None else Some(data[n])
    }

    /**
     * buffer_pop: 0 on an empty buffer, with nothing changed; otherwise 1,
     * the last element removed and, when the caller supplied somewhere to put
     * it (`wantElement`), handed back.
     */
    method Pop(wantElement: bool) returns (r: int, element: Option<T>)
      requires Valid()
      modifies this
      ensures Valid() && capacity == old(capacity) && data == old(data)
      ensures r == 0 || r == 1
      ensures r == 0 <==> old(count) == 0
      ensures r == 0 ==> count == 0 && element.None?
      ensures r == 1 ==> Contents() == old(Contents())[..old(count) - 1]
      ensures r == 1 && wantElement ==> element == Some(old(Contents())[old(count) - 1])
      ensures !wantElement ==> element.None?
    {
      if count == 0 {
        return 0, None;
      }
      count := count - 1;
      element := if wantElement then Some(data[count]) else None;
      r := 1;
    }

    /** buffer_clear: empties the buffer and zeroes every slot of its block. */
    method Clear()
      requires Valid()
      modifies this, data
      ensures Valid() && data == old(data) && capacity == old(capacity)
      ensures count == 0 && Contents() == []
      ensures forall k | 0 <= k < data.Length :: data[k] == zero
    {
      forall k | 0 <= k < data.Length {
        data[k] := zero;
      }
      count := 0;
    }
  }
}
