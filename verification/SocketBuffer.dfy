/** BufferedSocket::Buffer: a growing buffer with a read and a write position that acts as a byte queue. */
module SocketBuffer {

  const INITIAL_CAPACITY := 8192

  /** The capacity after the next growth. */
  function Twice(capacity: nat, maxCapacity: nat): nat {
    var d := if 2 * capacity < maxCapacity then 2 * capacity else maxCapacity;
    if d < INITIAL_CAPACITY then INITIAL_CAPACITY else d
  }

  /** The capacity of a buffer and the positions in it. */
  datatype Window = Window(cap: int, start: int, end: int)

  /** grow(): a larger buffer starts with the queue. */
  function Grown(w: Window, maxCapacity: nat): Window
    requires w.cap >= 0
  {
    if w.cap == maxCapacity then w else Window(Twice(w.cap, maxCapacity), 0, w.end - w.start)
  }

  /** maybeShift: an empty queue, or one that starts in the upper half, moves to the front. */
  function Shifted(w: Window): Window {
    if w.start == w.end then Window(w.cap, 0, 0)
    else if w.start > w.cap / 2 then Window(w.cap, 0, w.end - w.start)
    else w
  }

  class Buffer {
    const maxCapacity: nat
    var buf: array<int>
    var writePtr: int
    var readPtr: int

    ghost predicate Valid()
      reads this
    {
      INITIAL_CAPACITY <= maxCapacity && buf.Length <= maxCapacity && 0 <= readPtr <= writePtr <= buf.Length
    }

    /** The queue. */
    ghost function Contents(): seq<int>
      reads this, buf
      requires Valid()
    {
      buf[readPtr..writePtr]
    }

    ghost function Shape(): Window
      reads this
    {
      Window(buf.Length, readPtr, writePtr)
    }

    constructor (maxCapacity: nat)
      requires INITIAL_CAPACITY <= maxCapacity
      ensures Valid() && Contents() == [] && this.maxCapacity == maxCapacity && fresh(buf) && Shape() == Window(0, 0, 0)
    {
      this.maxCapacity := maxCapacity;
      buf := new int[0];
      writePtr, readPtr := 0, 0;
    }

    /** memmove of the queue to the front of to, which may be the same array. */
    method MoveTo(to: array<int>)
      requires Valid() && writePtr - readPtr <= to.Length
      modifies to
      ensures to[..writePtr - readPtr] == old(Contents())
    {
      ghost var was := Contents();
      var fill := writePtr - readPtr;
      ghost var from := buf[..];
      for i := 0 to fill
        invariant forall k {:trigger to[k]} :: 0 <= k < i ==> to[k] == from[readPtr + k]
        invariant buf == to ==> forall k {:trigger buf[k]} :: i <= k < buf.Length ==> buf[k] == from[k]
        invariant buf != to ==> buf[..] == from
      {
        assert buf[readPtr + i] == from[readPtr + i];
        to[i] := buf[readPtr + i];
      }
      assert to[..fill] == was;
    }

    method Shift()
      requires Valid()
      modifies this`readPtr, this`writePtr, buf
      ensures Valid() && Contents() == old(Contents()) && readPtr == 0 && writePtr == old(writePtr - readPtr)
    {
      var fill := writePtr - readPtr;
      MoveTo(buf);
      readPtr, writePtr := 0, fill;
    }

    method Reallocate(newCapacity: nat)
      requires Valid() && writePtr - readPtr <= newCapacity <= maxCapacity
      modifies this
      ensures Valid() && Contents() == old(Contents()) && readPtr == 0 && writePtr == old(writePtr - readPtr)
      ensures fresh(buf) && buf.Length == newCapacity
    {
      var newBuf := new int[newCapacity];
      MoveTo(newBuf);
      var fill := writePtr - readPtr;
      buf := newBuf;
      readPtr, writePtr := 0, fill;
    }

    function Doubled(): (r: nat)
      reads this
      requires Valid()
      ensures INITIAL_CAPACITY <= r <= maxCapacity && (buf.Length < maxCapacity ==> buf.Length < r)
    {
      Twice(buf.Length, maxCapacity)
    }

    /** grow(newCapacity): false when the buffer may not be that large. */
    method GrowTo(newCapacity: nat) returns (ok: bool)
      requires Valid() && newCapacity > buf.Length
      modifies this
      ensures Valid() && Contents() == old(Contents()) && (ok <==> newCapacity <= maxCapacity)
      ensures ok ==> fresh(buf) && newCapacity <= buf.Length && readPtr == 0 && writePtr == old(writePtr - readPtr)
      ensures !ok ==> buf == old(buf) && readPtr == old(readPtr) && writePtr == old(writePtr)
    {
      ok := newCapacity <= maxCapacity;
      if ok { Reallocate(if Doubled() > newCapacity then Doubled() else newCapacity); }
    }

    /** grow(). */
    method Grow()
      requires Valid()
      modifies this
      ensures Valid() && Contents() == old(Contents()) && Shape() == Grown(old(Shape()), maxCapacity)
      ensures if old(buf.Length) == maxCapacity then buf == old(buf) else fresh(buf) && writePtr < buf.Length
    {
      if buf.Length == maxCapacity { return; }
      Reallocate(Doubled());
    }

    /** memcpy behind the queue. */
    method Copy(data: seq<int>)
      requires Valid() && writePtr + |data| <= buf.Length
      modifies this`writePtr, buf
      ensures Valid() && Contents() == old(Contents()) + data && writePtr == old(writePtr) + |data|
    {
      ghost var was, w0 := Contents(), writePtr;
      for i := 0 to |data|
        invariant writePtr == w0 && forall k {:trigger buf[k]} :: w0 <= k < w0 + i ==> buf[k] == data[k - w0]
        invariant buf[readPtr..w0] == was
      {
        buf[writePtr + i] := data[i];
      }
      writePtr := writePtr + |data|;
      assert buf[readPtr..w0 + |data|] == buf[readPtr..w0] + buf[w0..w0 + |data|];
      assert buf[w0..w0 + |data|] == data;
    }

    /** append: to the end of the queue, making room by shifting or growing; refused only when all of it would
        not fit the largest buffer. */
    method Append(data: seq<int>) returns (ok: bool)
      requires Valid()
      modifies this, buf
      ensures Valid() && (ok <==> |old(Contents())| + |data| <= maxCapacity)
      ensures Contents() == if ok then old(Contents()) + data else old(Contents())
      ensures buf == old(buf) || fresh(buf)
    {
      ok := true;
      var fill := writePtr - readPtr;
      if writePtr + |data| <= buf.Length {
      } else if fill + |data| <= buf.Length {
        Shift();
      } else {
        ok := GrowTo(fill + |data|);
        if !ok { return; }
      }
      Copy(data);
    }

    /** remove: from the front of the queue. */
    method Remove(size: nat)
      requires Valid()
      modifies this`readPtr, this`writePtr, buf
      ensures Valid() && Contents() == if size <= |old(Contents())| then old(Contents())[size..] else []
    {
      ghost var was := Contents();
      readPtr := readPtr + size;
      if readPtr > writePtr { readPtr := writePtr; }
      assert size <= |was| ==> Contents() == was[size..];
      if readPtr >= buf.Length / 2 { Shift(); }
    }

    method MaybeShift()
      requires Valid()
      modifies this`readPtr, this`writePtr, buf
      ensures Valid() && Contents() == old(Contents()) && Shape() == Shifted(old(Shape()))
    {
      if readPtr == writePtr {
        readPtr, writePtr := 0, 0;
      } else if readPtr != 0 && readPtr > buf.Length / 2 {
        Shift();
      }
    }

    method Clear()
      requires Valid()
      modifies this`readPtr, this`writePtr
      ensures Valid() && Contents() == []
    {
      readPtr, writePtr := 0, 0;
    }
  }
}
