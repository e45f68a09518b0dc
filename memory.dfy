/**
 * The part of C's realloc that the buffers rely on: a fresh block of the new
 * length whose leading elements are those of the old block. Whether the
 * allocator succeeds is decided by the caller (a parameter of the buffer
 * operations), so this method only models the successful case.
 */
module Memory {

  /**
   * A fresh array of `newLength` slots holding the first `keep` elements of
   * `block` (a NULL `block` holds none). Slots past `keep` hold `filler`,
   * which stands for memory that the program never reads before writing.
   */
  method Realloc<T>(block: array?<T>, keep: nat, newLength: nat, filler: T) returns (moved: array<T>)
    requires keep <= newLength
    requires block == null ==> keep == 0
    requires block != null ==> keep <= block.Length
    ensures fresh(moved) && moved.Length == newLength
    ensures block != null ==> moved[..keep] == block[..keep]
  {
    moved := new T[newLength](_ => filler);
    for k := 0 to keep
      invariant block != null ==> moved[..k] == block[..k]
    {
      moved[k] := block[k];
    }
  }
}
