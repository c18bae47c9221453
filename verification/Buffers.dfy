/** Operations on byte buffers that several source files share. */
module Buffers {

  /** memory_resize: a buffer of the new size that keeps what fits of the old one. */
  method Resize(buffer: array<char>, size: nat) returns (resized: array<char>)
    ensures fresh(resized) && resized.Length == size
    ensures forall i :: 0 <= i < size && i < buffer.Length ==> resized[i] == buffer[i]
  {
    resized := new char[size];
    forall i | 0 <= i < size && i < buffer.Length {
      resized[i] := buffer[i];
    }
  }

  /** memmove of the last `count` bytes to the front, byte by byte in ascending order. */
  method MoveDown(buffer: array<char>, from: nat, count: nat)
    requires from + count == buffer.Length
    modifies buffer
    ensures forall i :: 0 <= i < count ==> buffer[i] == old(buffer[from + i])
  {
    var i := 0;
    while i < count
      invariant i <= count
      invariant forall k :: 0 <= k < i ==> buffer[k] == old(buffer[from + k])
      invariant forall k :: i <= k < buffer.Length ==> buffer[k] == old(buffer[k])
    {
      buffer[i] := buffer[from + i];
      i := i + 1;
    }
  }
}
