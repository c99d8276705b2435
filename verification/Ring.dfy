/**
 The circular buffer of aesd-circular-buffer.c as a value: physical slots, the two offsets and the
 full flag.  Its meaning is the sequence of entries read from outOffs on.
 */
module Rings {
  import opened Base

  /** A kernel pointer: NULL, or the identity of one allocation. */
  datatype Ptr = Null | Addr(id: nat)

  datatype Entry = Entry(buffptr: Ptr, size: nat)

  const NULL_ENTRY := Entry(Null, 0)

  /** AESDCHAR_MAX_WRITE_OPERATIONS_SUPPORTED */
  const MAX_WRITE_OPERATIONS: nat := 10

  datatype Ring = Ring(slots: seq<Entry>, inOffs: nat, outOffs: nat, full: bool)

  /** The three assertions of the C code, and a capacity that uint8_t offsets can address. */
  predicate WellFormed(r: Ring) {
    && 1 <= |r.slots| <= 255
    && r.inOffs < |r.slots|
    && r.outOffs < |r.slots|
    && (r.full ==> r.inOffs == r.outOffs)
  }

  function Empty(n: nat): Ring {
    Ring(seq(n, _ => NULL_ENTRY), 0, 0, false)
  }

  /** `index += 1; if (index == N) index = 0;` */
  function Succ(i: nat, n: nat): nat {
    if i + 1 == n then 0 else i + 1
  }

  /** The number of retained entries. */
  function Size(r: Ring): (n: nat)
    requires WellFormed(r)
    ensures n <= |r.slots|
    ensures n == |r.slots| <==> r.full
    ensures n == 0 <==> !r.full && r.inOffs == r.outOffs
  {
    if !r.full && r.inOffs >= r.outOffs then r.inOffs - r.outOffs
    else r.inOffs + |r.slots| - r.outOffs
  }

  /** The physical slot of the i-th oldest entry. */
  function SlotOf(r: Ring, i: nat): (k: nat)
    requires WellFormed(r) && i < |r.slots|
    ensures k < |r.slots|
  {
    if r.outOffs + i < |r.slots| then r.outOffs + i else r.outOffs + i - |r.slots|
  }

  /** The retained entries, oldest first. */
  function Logical(r: Ring): (es: seq<Entry>)
    requires WellFormed(r)
    ensures |es| == Size(r)
  {
    seq(Size(r), i requires 0 <= i < Size(r) => r.slots[SlotOf(r, i)])
  }

  predicate Occupied(r: Ring, k: nat)
    requires WellFormed(r) && k < |r.slots|
  {
    if r.full then true
    else if r.inOffs >= r.outOffs then r.outOffs <= k < r.inOffs
    else r.outOffs <= k || k < r.inOffs
  }

  /** Slots outside the retained range still hold what init put there. */
  predicate UnusedNull(r: Ring)
    requires WellFormed(r)
  {
    forall k :: 0 <= k < |r.slots| && !Occupied(r, k) ==> r.slots[k] == NULL_ENTRY
  }

  /** aesd_circular_buffer_add_entry: the new ring and the evicted entry. */
  function Push(r: Ring, e: Entry): (Ring, Entry)
    requires WellFormed(r)
  {
    var evicted := if r.full then r.slots[r.inOffs] else NULL_ENTRY;
    var i := Succ(r.inOffs, |r.slots|);
    (Ring(r.slots[r.inOffs := e], i,
          if r.full then i else r.outOffs,
          r.full || i == r.outOffs),
     evicted)
  }

  lemma OccupiedIffLogical(r: Ring, k: nat)
    requires WellFormed(r) && k < |r.slots|
    ensures Occupied(r, k) <==> exists i :: 0 <= i < Size(r) && SlotOf(r, i) == k
  {
    var i := if k >= r.outOffs then k - r.outOffs else k + |r.slots| - r.outOffs;
    assert Occupied(r, k) ==> i < Size(r) && SlotOf(r, i) == k;
  }

  /** Push refines "append, and drop the oldest when full" on the retained sequence. */
  lemma PushRefinesQueue(r: Ring, e: Entry)
    requires WellFormed(r)
    ensures var (r', evicted) := Push(r, e);
            && WellFormed(r')
            && Logical(r') == (if r.full then Logical(r)[1..] else Logical(r)) + [e]
            && evicted == (if r.full then Logical(r)[0] else NULL_ENTRY)
            && (UnusedNull(r) ==> UnusedNull(r') && evicted == r.slots[r.inOffs])
  {
    var (r', evicted) := Push(r, e);
    var old' := if r.full then Logical(r)[1..] else Logical(r);
    assert Size(r') == |old'| + 1;
    forall i | 0 <= i < |old'| ensures Logical(r')[i] == old'[i] {
      assert SlotOf(r', i) != r.inOffs;
    }
    assert SlotOf(r', |old'|) == r.inOffs;
    assert Logical(r') == old' + [e];
  }

  // ---------------------------------------------------------------- runs

  /** The ring after adding es, one by one, to a freshly initialised ring of capacity n. */
  function Pushes(n: nat, es: seq<Entry>): (r: Ring)
    requires 1 <= n <= 255
    ensures WellFormed(r) && |r.slots| == n
  {
    if es == [] then Empty(n)
    else Push(Pushes(n, es[..|es| - 1]), es[|es| - 1]).0
  }

  /** `in_offs` counts the adds modulo the capacity. */
  lemma SuccCountsModulo(k: nat, n: nat)
    requires 0 < n
    ensures Succ(k % n, n) == (k + 1) % n
  {
    var q := k / n;
    assert k == q * n + k % n;
    if k % n + 1 == n {
      assert k + 1 == (q + 1) * n;
      ModUnique(k + 1, n, q + 1, 0);
    } else {
      ModUnique(k + 1, n, q, k % n + 1);
    }
  }

  lemma ModUnique(a: nat, n: nat, q: nat, m: nat)
    requires 0 < n && m < n && a == q * n + m
    ensures a % n == m
  {
    var d := a / n - q;
    assert d * n == m - a % n;
  }

  /** After k adds to a ring of capacity n. */
  predicate CountsAdds(r: Ring, n: nat, k: nat)
    requires 0 < n
  {
    && r.inOffs == k % n
    && (r.full <==> k >= n)
    && r.outOffs == (if k < n then 0 else k % n)
  }

  lemma PushCountsAdds(r: Ring, e: Entry, k: nat)
    requires WellFormed(r) && CountsAdds(r, |r.slots|, k)
    ensures CountsAdds(Push(r, e).0, |r.slots|, k + 1)
  {
    var n := |r.slots|;
    SuccCountsModulo(k, n);
    if k < n { ModUnique(k, n, 0, k); }
    if k + 1 < n { ModUnique(k + 1, n, 0, k + 1); }
    if k + 1 == n { ModUnique(k + 1, n, 1, 0); }
  }

  /** Every reachable ring has offsets that count the adds, and untouched slots are still NULL. */
  lemma {:induction false} PushesCountAdds(n: nat, es: seq<Entry>)
    requires 1 <= n <= 255
    ensures CountsAdds(Pushes(n, es), n, |es|)
    ensures UnusedNull(Pushes(n, es))
  {
    if es == [] {
      ModUnique(0, n, 0, 0);
    } else {
      var es0, e := es[..|es| - 1], es[|es| - 1];
      PushesCountAdds(n, es0);
      PushCountsAdds(Pushes(n, es0), e, |es0|);
      PushRefinesQueue(Pushes(n, es0), e);
    }
  }

  /**
   Every reachable ring is the window on the last n adds, and each add hands back exactly the entry
   that leaves the window.
   */
  lemma {:induction false} PushesWindow(n: nat, es: seq<Entry>)
    requires 1 <= n <= 255
    ensures Logical(Pushes(n, es)) == LastN(es, n)
    ensures es != [] ==>
              Push(Pushes(n, es[..|es| - 1]), es[|es| - 1]).1
              == if |es| > n then es[|es| - 1 - n] else NULL_ENTRY
  {
    if es == [] {
      assert Logical(Pushes(n, es)) == [];
    } else {
      var es0, e := es[..|es| - 1], es[|es| - 1];
      assert es == es0 + [e];
      PushesWindow(n, es0);
      PushesCountAdds(n, es0);
      PushRefinesQueue(Pushes(n, es0), e);
      LastNSnoc(es0, e, n);
    }
  }

  // ---------------------------------------------------------------- flat positions

  /** Bytes held by a sequence of entries. */
  function Total(es: seq<Entry>): nat {
    if es == [] then 0 else es[0].size + Total(es[1..])
  }

  /** (i, off) names a byte that exists. */
  predicate ValidPair(es: seq<Entry>, i: nat, off: nat) {
    i < |es| && off < es[i].size
  }

  /** The flat position of byte off of entry i. */
  function PosOf(es: seq<Entry>, i: nat, off: nat): nat
    requires i <= |es|
  {
    Total(es[..i]) + off
  }

  /** The entry and the byte in it that a flat position names. */
  function Locate(es: seq<Entry>, pos: nat): Option<(nat, nat)> {
    if es == [] then None
    else if pos < es[0].size then Some((0, pos))
    else match Locate(es[1..], pos - es[0].size)
      case None => None
      case Some((i, off)) => Some((i + 1, off))
  }

  lemma {:induction false} TotalAppend(a: seq<Entry>, b: seq<Entry>)
    ensures Total(a + b) == Total(a) + Total(b)
  {
    if a == [] {
      assert a + b == b;
    } else {
      assert (a + b)[1..] == a[1..] + b;
      TotalAppend(a[1..], b);
    }
  }

  lemma TotalSnoc(es: seq<Entry>, i: nat)
    requires i < |es|
    ensures Total(es[..i + 1]) == Total(es[..i]) + es[i].size
  {
    assert es[..i + 1] == es[..i] + [es[i]];
    TotalAppend(es[..i], [es[i]]);
    assert Total([es[i]]) == es[i].size + Total([]);
  }

  lemma {:induction false} TotalMonotone(es: seq<Entry>, i: nat, j: nat)
    requires i <= j <= |es|
    ensures Total(es[..i]) <= Total(es[..j])
  {
    assert es[..j] == es[..i] + es[i..j];
    TotalAppend(es[..i], es[i..j]);
  }

  /** Locate undoes PosOf. */
  lemma {:induction false} LocateInvertsPosOf(es: seq<Entry>, i: nat, off: nat)
    requires ValidPair(es, i, off)
    ensures Locate(es, PosOf(es, i, off)) == Some((i, off))
  {
    if i > 0 {
      assert es[..i] == [es[0]] + es[1..][..i - 1];
      TotalAppend([es[0]], es[1..][..i - 1]);
      assert Total([es[0]]) == es[0].size + Total([]);
      LocateInvertsPosOf(es[1..], i - 1, off);
    }
  }

  /** PosOf undoes Locate, and Locate fails exactly at and beyond the total byte count. */
  lemma {:induction false} PosOfInvertsLocate(es: seq<Entry>, pos: nat)
    ensures Locate(es, pos) == None <==> pos >= Total(es)
    ensures match Locate(es, pos)
            case None => true
            case Some((i, off)) => ValidPair(es, i, off) && PosOf(es, i, off) == pos
  {
    if es != [] && pos >= es[0].size {
      PosOfInvertsLocate(es[1..], pos - es[0].size);
      match Locate(es[1..], pos - es[0].size)
      case None =>
      case Some((i, off)) =>
        assert es[..i + 1] == [es[0]] + es[1..][..i];
        TotalAppend([es[0]], es[1..][..i]);
        assert Total([es[0]]) == es[0].size + Total([]);
    }
  }

  /** Flat order is the lexicographic order on (entry, byte) pairs. */
  lemma PosOfIsMonotone(es: seq<Entry>, i: nat, off: nat, j: nat, off': nat)
    requires ValidPair(es, i, off) && ValidPair(es, j, off')
    ensures PosOf(es, i, off) < PosOf(es, j, off') <==> i < j || (i == j && off < off')
    ensures PosOf(es, i, off) < Total(es)
  {
    TotalSnoc(es, i);
    TotalSnoc(es, j);
    if i < j { TotalMonotone(es, i + 1, j); }
    if j < i { TotalMonotone(es, j + 1, i); }
    TotalMonotone(es, i + 1, |es|);
    assert es[..|es|] == es;
  }

  /** Bytes are conserved by an add: what leaves is exactly what the caller gets back. */
  lemma PushConservesBytes(r: Ring, e: Entry)
    requires WellFormed(r)
    ensures var (r', evicted) := Push(r, e);
            && WellFormed(r')
            && Total(Logical(r')) + evicted.size == Total(Logical(r)) + e.size
  {
    PushRefinesQueue(r, e);
    var kept := if r.full then Logical(r)[1..] else Logical(r);
    TotalAppend(kept, [e]);
    assert Total([e]) == e.size + Total([]);
  }
}
