/**
 aesd-circular-buffer.c itself: the mutable ring on an array, and its wraparound loops.  Every method
 is tied to the value `Abs()` and through it to the retained sequence `Logical(Abs())`.
 */
module CircularBuffers {
  import opened Base
  import opened Rings

  newtype uint8 = x: int | 0 <= x < 256

  class CircularBuffer {
    const entry: array<Entry>
    var inOffs: uint8
    var outOffs: uint8
    var full: bool

    function Abs(): Ring
      reads this, entry
    {
      Ring(entry[..], inOffs as nat, outOffs as nat, full)
    }

    ghost predicate Valid()
      reads this, entry
    {
      WellFormed(Abs())
    }

    /** A buffer of capacity n, initialised by `Init`. */
    constructor (n: nat)
      requires 1 <= n <= 255
      ensures Valid() && fresh(entry)
      ensures Abs() == Empty(n)
    {
      entry := new Entry[n](_ => NULL_ENTRY);
      inOffs, outOffs, full := 0, 0, false;
    }

    /** aesd_circular_buffer_init: whatever the structure held, it is empty afterwards. */
    method Init()
      requires 1 <= entry.Length <= 255
      modifies this, entry
      ensures Valid()
      ensures Abs() == Empty(entry.Length)
    {
      forall k | 0 <= k < entry.Length {
        entry[k] := NULL_ENTRY;
      }
      inOffs, outOffs, full := 0, 0, false;
    }

    /** aesd_circular_buffer_size */
    function Count(): nat
      requires Valid()
      reads this, entry
    {
      Size(Abs())
    }

    /** aesd_circular_buffer_bytes_size */
    method BytesSize() returns (bytes: nat)
      requires Valid()
      ensures bytes == Total(Logical(Abs()))
    {
      ghost var es := Logical(Abs());
      bytes := 0;
      var size, index := Count(), outOffs as nat;
      while size > 0
        invariant 0 <= size <= |es|
        invariant size > 0 ==> index == SlotOf(Abs(), |es| - size)
        invariant bytes == Total(es[..|es| - size])
      {
        TotalSnoc(es, |es| - size);
        bytes := bytes + entry[index].size;
        index := Succ(index, entry.Length);
        size := size - 1;
      }
      assert es[..|es|] == es;
    }

    /** aesd_circular_buffer_offset_at: None stands for `false` with the out-parameter untouched. */
    method OffsetAt(entryIndex: nat, entryOffset: nat) returns (pos: Option<nat>)
      requires Valid()
      ensures pos == if ValidPair(Logical(Abs()), entryIndex, entryOffset)
                     then Some(PosOf(Logical(Abs()), entryIndex, entryOffset)) else None
    {
      ghost var es := Logical(Abs());
      var size := Count();
      if entryIndex >= size {
        return None;
      }
      var globalOffset, out := 0, outOffs as nat;
      var index := 0;
      while index < entryIndex
        invariant index <= entryIndex
        invariant out == SlotOf(Abs(), index)
        invariant globalOffset == Total(es[..index])
      {
        TotalSnoc(es, index);
        globalOffset := globalOffset + entry[out].size;
        out := Succ(out, entry.Length);
        index := index + 1;
      }
      if entryOffset >= entry[out].size {
        return None;
      }
      return Some(globalOffset + entryOffset);
    }
  }

  /**
   aesd_circular_buffer_find_entry_offset_for_fpos: the physical slot and the byte in it, or None for
   a NULL result.
   */
  method FindEntryOffsetForFpos(buffer: CircularBuffer?, charOffset: nat) returns (r: Option<(nat, nat)>)
    requires buffer != null ==> buffer.Valid()
    ensures buffer == null ==> r == None
    ensures buffer != null ==>
              r == match Locate(Logical(buffer.Abs()), charOffset)
                   case None => None
                   case Some((i, off)) =>
                     if i < Size(buffer.Abs()) then Some((SlotOf(buffer.Abs(), i), off)) else None
  {
    if buffer == null {
      return None;
    }
    ghost var es := Logical(buffer.Abs());
    var size, offset, index := buffer.Count(), 0, buffer.outOffs as nat;
    while size > 0
      invariant 0 <= size <= |es|
      invariant size > 0 ==> index == SlotOf(buffer.Abs(), |es| - size)
      invariant offset == Total(es[..|es| - size]) <= charOffset
    {
      ghost var i := |es| - size;
      if charOffset < offset + buffer.entry[index].size {
        LocateInvertsPosOf(es, i, charOffset - offset);
        return Some((index, charOffset - offset));
      }
      TotalSnoc(es, i);
      offset := offset + buffer.entry[index].size;
      index := Succ(index, buffer.entry.Length);
      size := size - 1;
    }
    assert es[..|es|] == es;
    PosOfInvertsLocate(es, charOffset);
    return None;
  }

  /** aesd_circular_buffer_add_entry */
  method AddEntry(buffer: CircularBuffer?, newEntry: Entry) returns (evicted: Entry)
    requires buffer != null ==> buffer.Valid()
    modifies buffer, if buffer != null then {buffer.entry} else {}
    ensures buffer == null ==> evicted == NULL_ENTRY
    ensures buffer != null ==>
              && buffer.Valid()
              && (buffer.Abs(), evicted) == Push(old(buffer.Abs()), newEntry)
              && var before := old(Logical(buffer.Abs()));
                 var wasFull := |before| == buffer.entry.Length;
                 && Logical(buffer.Abs()) == (if wasFull then before[1..] else before) + [newEntry]
                 && evicted == (if wasFull then before[0] else NULL_ENTRY)
  {
    evicted := NULL_ENTRY;
    if buffer == null {
      return;
    }
    PushRefinesQueue(buffer.Abs(), newEntry);
    if buffer.full {
      evicted := buffer.entry[buffer.inOffs];
    }
    buffer.entry[buffer.inOffs] := newEntry;
    buffer.inOffs := buffer.inOffs + 1;
    if buffer.inOffs as nat == buffer.entry.Length {
      buffer.inOffs := 0;
    }
    if buffer.full {
      buffer.outOffs := buffer.inOffs;
    } else if buffer.inOffs == buffer.outOffs {
      buffer.full := true;
    }
  }
}
