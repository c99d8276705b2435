/**
 The inductive invariant of the driver's transition system: who holds the semaphore, who owns each
 allocation, what the device holds as a function of the accepted writes, and what each reader in
 flight has seen.
 */
module DriverInvariant {
  import opened Base
  import opened Rings
  import opened WriteLog
  import opened Driver

  /** The places that can own an allocation. */
  datatype Owner = Slot(k: nat) | Temp | Kern(t: nat) | Evicted(t: nat)

  function Held(s: Sys, o: Owner): Ptr {
    match o
    case Slot(k) => if k < |s.ring.slots| then s.ring.slots[k].buffptr else Null
    case Temp => s.temp.buffptr
    case Kern(t) => if t < |s.threads| then s.threads[t].kern else Null
    case Evicted(t) => if t < |s.threads| then s.threads[t].evicted.buffptr else Null
  }

  ghost predicate LockInv(s: Sys) {
    && (forall t :: 0 <= t < |s.threads| ==>
          && (HoldsWrite(s.threads[t].pc) <==> s.lock.writer == Some(t))
          && (HoldsRead(s.threads[t].pc) <==> t in s.lock.readers))
    && (s.lock.writer.Some? ==> s.lock.readers == {} && s.lock.writer.value < |s.threads|)
    && (forall t :: t in s.lock.readers ==> t < |s.threads|)
  }

  /** Every pointer held is live, no two places hold the same one, and no live allocation is lost. */
  ghost predicate OwnInv(s: Sys) {
    && (forall o :: Held(s, o).Addr? ==> Held(s, o).id in s.mem)
    && (forall o, o' :: Held(s, o).Addr? && Held(s, o) == Held(s, o') ==> o == o')
    && (forall id :: id in s.mem ==> id < s.next && exists o :: Held(s, o) == Addr(id))
  }

  /** An entry that owns a nonempty buffer of the recorded size. */
  predicate EntryOk(mem: map<nat, seq<byte>>, e: Entry) {
    e.buffptr.Addr? && e.buffptr.id in mem && |mem[e.buffptr.id]| == e.size > 0
  }

  ghost predicate StoreInv(s: Sys) {
    && WellFormed(s.ring)
    && UnusedNull(s.ring)
    && (forall k :: 0 <= k < |s.ring.slots| && Occupied(s.ring, k) ==> EntryOk(s.mem, s.ring.slots[k]))
    && (s.temp == NULL_ENTRY || EntryOk(s.mem, s.temp))
  }

  function EntryBytes(mem: map<nat, seq<byte>>, e: Entry): seq<byte> {
    if e.buffptr.Addr? && e.buffptr.id in mem then mem[e.buffptr.id] else []
  }

  /** The texts of a sequence of entries. */
  function Texts(mem: map<nat, seq<byte>>, es: seq<Entry>): seq<seq<byte>> {
    seq(|es|, i requires 0 <= i < |es| => EntryBytes(mem, es[i]))
  }

  /** What the device holds: retained entries and pending text. */
  function Contents(s: Sys): seq<seq<byte>>
    requires WellFormed(s.ring)
  {
    Texts(s.mem, Logical(s.ring))
  }

  /** Appended but not yet pushed: the window between lines 174 and 181. */
  function Uncommitted(s: Sys): seq<byte> {
    if s.lock.writer.Some? && s.lock.writer.value < |s.threads|
       && s.threads[s.lock.writer.value].pc == WCommit
    then s.threads[s.lock.writer.value].data else []
  }

  /** The device is a function of the accepted writes. */
  ghost predicate ViewInv(s: Sys)
    requires WellFormed(s.ring)
  {
    && Contents(s) == LastN(Replay(s.writes).log, |s.ring.slots|)
    && EntryBytes(s.mem, s.temp) == Replay(s.writes).pending + Uncommitted(s)
  }

  predicate InWrite(pc: Pc) {
    pc in {WAlloc, WCopy, WLock, WAppend, WCommit, WUnlock, WFreeEvicted, WFreeKern}
  }

  /** The local variables of a call, and the memory they own, at each line. */
  ghost predicate CallInv(s: Sys, th: Thread) {
    && (InWrite(th.pc) ==> th.data != [])
    && (th.pc !in {WUnlock, WFreeEvicted} ==> th.evicted == NULL_ENTRY)
    && (th.pc in {Idle, WAlloc, RLock, RFind, RCopy, RUnlock, ILock, ISeek, IUnlock} ==> th.kern.Null?)
    && (th.pc in {WCopy, WLock, WAppend} ==>
          th.kern.Addr? && th.kern.id in s.mem && |s.mem[th.kern.id]| == |th.data|)
    && (th.pc in {WLock, WAppend} ==> th.kern.id in s.mem && s.mem[th.kern.id] == th.data)
    && (th.pc == WCommit ==> EndsInNewline(th.data) && s.temp != NULL_ENTRY && th.ret == |th.data|)
    && (th.pc in {WUnlock, WFreeEvicted, WFreeKern} ==> th.ret < 0 || th.ret == |th.data|)
    && (th.pc in {RLock, RFind} ==> 0 < th.count)
  }

  /** Whether the write in flight has taken effect. */
  predicate Applied(th: Thread) {
    th.pc in {WUnlock, WFreeEvicted, WFreeKern} && th.ret >= 0
  }

  /** A thread's accepted writes are those that returned success and the one about to. */
  ghost predicate HistoryInv(s: Sys, t: nat)
    requires t < |s.threads|
  {
    By(s.writes, t) == s.threads[t].acked + if Applied(s.threads[t]) then [s.threads[t].data] else []
  }

  /** A reader between find and unlock: it holds a live entry of the ring and copies it exactly. */
  ghost predicate ReadInv(s: Sys, th: Thread)
    requires WellFormed(s.ring)
  {
    th.pc == RCopy ==>
      match Locate(Logical(s.ring), th.fpos)
      case None => false
      case Some((i, off)) =>
        && i < Size(s.ring)
        && var e := Logical(s.ring)[i];
           && off == th.off < e.size
           && th.src == e.buffptr
           && 0 < th.count
           && th.want == (if th.count < e.size - off then th.count else e.size - off)
           && |th.got| <= th.want
           && EntryOk(s.mem, e)
           && th.got == s.mem[e.buffptr.id][off..off + |th.got|]
  }

  ghost predicate ThreadInv(s: Sys, t: nat)
    requires WellFormed(s.ring) && t < |s.threads|
  {
    && CallInv(s, s.threads[t])
    && ReadInv(s, s.threads[t])
    && HistoryInv(s, t)
  }

  ghost predicate ThreadsInv(s: Sys)
    requires WellFormed(s.ring)
  {
    forall t :: 0 <= t < |s.threads| ==> ThreadInv(s, t)
  }

  ghost predicate Inv(s: Sys) {
    && !s.fault
    && LockInv(s)
    && OwnInv(s)
    && StoreInv(s)
    && ViewInv(s)
    && ThreadsInv(s)
    && forall i :: 0 <= i < |s.writes| ==> s.writes[i].data != []
  }

  // ---------------------------------------------------------------- frames

  lemma OwnFrame(s: Sys, s': Sys)
    requires OwnInv(s)
    requires s'.mem.Keys == s.mem.Keys && s'.next == s.next
    requires forall o :: Held(s', o) == Held(s, o)
    ensures OwnInv(s')
  {
    forall id | id in s'.mem ensures id < s'.next && exists o :: Held(s', o) == Addr(id) {
      var o :| Held(s, o) == Addr(id);
      assert Held(s', o) == Addr(id);
    }
  }

  /** The five ways a step of thread t can treat the semaphore. */
  predicate LockMove(l: RwLock, l': RwLock, t: nat, pc: Pc, pc': Pc) {
    || (l' == l && HoldsWrite(pc) == HoldsWrite(pc') && HoldsRead(pc) == HoldsRead(pc'))
    || (LockFree(l) && l' == RwLock(Some(t), {}) && HoldsWrite(pc'))
    || (HoldsWrite(pc) && l' == l.(writer := None) && !HoldsWrite(pc') && !HoldsRead(pc'))
    || (l.writer == None && l' == l.(readers := l.readers + {t}) && HoldsRead(pc'))
    || (HoldsRead(pc) && l' == l.(readers := l.readers - {t}) && !HoldsWrite(pc') && !HoldsRead(pc'))
  }

  lemma LockMoveKeepsInv(s: Sys, s': Sys, t: nat)
    requires LockInv(s) && t < |s.threads| == |s'.threads|
    requires forall u :: 0 <= u < |s.threads| && u != t ==> s'.threads[u] == s.threads[u]
    requires LockMove(s.lock, s'.lock, t, s.threads[t].pc, s'.threads[t].pc)
    ensures LockInv(s')
  {
    assert HoldsWrite(s.threads[t].pc) <==> s.lock.writer == Some(t);
    assert HoldsRead(s.threads[t].pc) <==> t in s.lock.readers;
  }

  /** The state after a step that changes only thread t and the semaphore. */
  function Local(s: Sys, t: nat, th: Thread, lock: RwLock): Sys
    requires t < |s.threads|
  {
    Put(s, t, th).(lock := lock)
  }

  lemma LocalStep(s: Sys, t: nat, th: Thread, lock: RwLock)
    requires Inv(s) && t < |s.threads|
    requires th.kern == s.threads[t].kern && th.evicted == s.threads[t].evicted
    requires LockMove(s.lock, lock, t, s.threads[t].pc, th.pc)
    requires th.pc != WCommit && s.threads[t].pc != WCommit
    requires CallInv(s, th) && ReadInv(s, th)
    requires th.acked == s.threads[t].acked
    requires Applied(th) == Applied(s.threads[t])
    requires Applied(th) ==> th.data == s.threads[t].data
    ensures Inv(Local(s, t, th, lock))
  {
    var s' := Local(s, t, th, lock);
    LockMoveKeepsInv(s, s', t);
    forall o ensures Held(s', o) == Held(s, o) {}
    OwnFrame(s, s');
    UncommittedFrame(s, s', t);
    forall u | 0 <= u < |s'.threads| ensures ThreadInv(s', u) {
      assert ThreadInv(s, u);
      LocalThread(s, t, th, lock, u);
    }
  }

  lemma UncommittedFrame(s: Sys, s': Sys, t: nat)
    requires LockInv(s) && LockInv(s') && t < |s.threads| == |s'.threads|
    requires forall u :: 0 <= u < |s.threads| && u != t ==> s'.threads[u] == s.threads[u]
    requires LockMove(s.lock, s'.lock, t, s.threads[t].pc, s'.threads[t].pc)
    requires s.threads[t].pc != WCommit && s'.threads[t].pc != WCommit
    ensures Uncommitted(s') == Uncommitted(s)
  {
  }

  lemma LocalThread(s: Sys, t: nat, th: Thread, lock: RwLock, u: nat)
    requires WellFormed(s.ring) && t < |s.threads| && u < |s.threads| && ThreadInv(s, u)
    requires CallInv(s, th) && ReadInv(s, th)
    requires th.acked == s.threads[t].acked
    requires Applied(th) == Applied(s.threads[t])
    requires Applied(th) ==> th.data == s.threads[t].data
    ensures ThreadInv(Local(s, t, th, lock), u)
  {
  }

  // ---------------------------------------------------------------- local steps

  /** Thread t stands at a line with this pc. */
  predicate At(s: Sys, t: nat, pc: Pc) {
    t < |s.threads| && s.threads[t].pc == pc
  }

  /** Entering a call, or returning at once. */
  lemma StartKeepsInv(s: Sys, t: nat, th: Thread)
    requires Inv(s) && At(s, t, Idle) && th.pc in {Idle, WAlloc, RLock, ILock}
    requires th.kern.Null? && th.evicted == NULL_ENTRY && th.acked == s.threads[t].acked
    requires th.pc == WAlloc ==> th.data != []
    requires th.pc == RLock ==> 0 < th.count
    ensures Inv(Put(s, t, th))
  {
    assert ThreadInv(s, t);
    LocalStep(s, t, th, s.lock);
    assert Put(s, t, th) == Local(s, t, th, s.lock);
  }

  lemma DownWriteKeepsInv(s: Sys, t: nat, ok: bool)
    requires Inv(s) && At(s, t, WLock) && (ok ==> LockFree(s.lock))
    ensures Inv(DownWriteStep(s, t, ok, WAppend, WFreeEvicted))
  {
    assert ThreadInv(s, t);
    var s' := DownWriteStep(s, t, ok, WAppend, WFreeEvicted);
    LocalStep(s, t, s'.threads[t], s'.lock);
    assert s' == Local(s, t, s'.threads[t], s'.lock);
  }

  lemma DownSeekKeepsInv(s: Sys, t: nat, ok: bool)
    requires Inv(s) && At(s, t, ILock) && (ok ==> LockFree(s.lock))
    ensures Inv(DownWriteStep(s, t, ok, ISeek, Idle))
  {
    assert ThreadInv(s, t);
    var s' := DownWriteStep(s, t, ok, ISeek, Idle);
    LocalStep(s, t, s'.threads[t], s'.lock);
    assert s' == Local(s, t, s'.threads[t], s'.lock);
  }

  lemma DownReadKeepsInv(s: Sys, t: nat, ok: bool)
    requires Inv(s) && At(s, t, RLock) && (ok ==> s.lock.writer == None)
    ensures Inv(DownReadStep(s, t, ok))
  {
    assert ThreadInv(s, t);
    var s' := DownReadStep(s, t, ok);
    LocalStep(s, t, s'.threads[t], s'.lock);
    assert s' == Local(s, t, s'.threads[t], s'.lock);
  }

  lemma UpWriteKeepsInv(s: Sys, t: nat)
    requires Inv(s) && At(s, t, WUnlock)
    ensures Inv(UpWriteStep(s, t, WFreeEvicted))
  {
    assert ThreadInv(s, t);
    var s' := UpWriteStep(s, t, WFreeEvicted);
    LocalStep(s, t, s'.threads[t], s'.lock);
    assert s' == Local(s, t, s'.threads[t], s'.lock);
  }

  lemma UpSeekKeepsInv(s: Sys, t: nat)
    requires Inv(s) && At(s, t, IUnlock)
    ensures Inv(UpWriteStep(s, t, Idle))
  {
    assert ThreadInv(s, t);
    var s' := UpWriteStep(s, t, Idle);
    LocalStep(s, t, s'.threads[t], s'.lock);
    assert s' == Local(s, t, s'.threads[t], s'.lock);
  }

  lemma UpReadKeepsInv(s: Sys, t: nat)
    requires Inv(s) && At(s, t, RUnlock)
    ensures Inv(UpReadStep(s, t))
  {
    assert ThreadInv(s, t);
    var s' := UpReadStep(s, t);
    LocalStep(s, t, s'.threads[t], s'.lock);
    assert s' == Local(s, t, s'.threads[t], s'.lock);
  }

  /** The search lands in a live entry, so neither assertion after it fails. */
  lemma FindReads(s: Sys, t: nat)
    requires StoreInv(s) && !s.fault && At(s, t, RFind) && 0 < s.threads[t].count
    ensures var s' := FindStep(s, t);
            && !s'.fault && |s'.threads| == |s.threads|
            && s' == Put(s, t, s'.threads[t]) && ReadInv(s, s'.threads[t])
  {
    PosOfInvertsLocate(Logical(s.ring), s.threads[t].fpos);
    match Locate(Logical(s.ring), s.threads[t].fpos) {
      case None =>
      case Some((i, off)) => OccupiedIffLogical(s.ring, SlotOf(s.ring, i));
    }
  }

  lemma FindKeepsInv(s: Sys, t: nat)
    requires Inv(s) && At(s, t, RFind)
    ensures Inv(FindStep(s, t))
  {
    var s' := FindStep(s, t);
    assert ThreadInv(s, t);
    FindReads(s, t);
    LocalStep(s, t, s'.threads[t], s.lock);
    assert s' == Local(s, t, s'.threads[t], s.lock);
  }

  lemma CopyByteKeepsInv(s: Sys, t: nat)
    requires Inv(s) && At(s, t, RCopy) && |s.threads[t].got| < s.threads[t].want
    ensures Inv(CopyByteStep(s, t))
  {
    var s' := CopyByteStep(s, t);
    assert ThreadInv(s, t);
    CopyByteReads(s, t);
    LocalStep(s, t, s'.threads[t], s.lock);
    assert s' == Local(s, t, s'.threads[t], s.lock);
  }

  /** The byte a reader copies is live, in bounds and the next byte of its entry. */
  lemma CopyByteReads(s: Sys, t: nat)
    requires StoreInv(s) && !s.fault && t < |s.threads|
    requires ReadInv(s, s.threads[t]) && s.threads[t].pc == RCopy && |s.threads[t].got| < s.threads[t].want
    ensures var s' := CopyByteStep(s, t);
            !s'.fault && |s'.threads| == |s.threads| && ReadInv(s, s'.threads[t])
  {
    var th, th' := s.threads[t], CopyByteStep(s, t).threads[t];
    var m, k := s.mem[th.src.id], th.off + |th.got|;
    assert m[th.off..k + 1] == m[th.off..k] + [m[k]];
  }

  lemma CopyToUserKeepsInv(s: Sys, t: nat, ok: bool)
    requires Inv(s) && At(s, t, RCopy)
    ensures Inv(CopyToUserStep(s, t, ok))
  {
    var s' := CopyToUserStep(s, t, ok);
    assert ThreadInv(s, t);
    LocalStep(s, t, s'.threads[t], s.lock);
    assert s' == Local(s, t, s'.threads[t], s.lock);
  }

  lemma SeekKeepsInv(s: Sys, t: nat)
    requires Inv(s) && At(s, t, ISeek)
    ensures Inv(SeekStep(s, t))
  {
    var s' := SeekStep(s, t);
    assert ThreadInv(s, t);
    LocalStep(s, t, s'.threads[t], s.lock);
    assert s' == Local(s, t, s'.threads[t], s.lock);
  }

  // ---------------------------------------------------------------- steps on memory

  /** Thread t's step leaves alone all memory but what t, or temp_entry, owns. */
  ghost predicate KeepsOthers(s: Sys, s': Sys, t: nat) {
    && t < |s.threads| == |s'.threads|
    && (forall u :: 0 <= u < |s.threads| && u != t ==> s'.threads[u] == s.threads[u])
    && (forall o :: Held(s, o).Addr? && o !in {Kern(t), Evicted(t), Temp} ==>
          Held(s, o).id in s'.mem && Held(s, o).id in s.mem
          && s'.mem[Held(s, o).id] == s.mem[Held(s, o).id])
  }

  /** The ring's entries and texts survive a step that keeps others. */
  lemma RingFrame(s: Sys, s': Sys, t: nat)
    requires Inv(s) && KeepsOthers(s, s', t) && s'.ring == s.ring
    ensures Contents(s') == Contents(s)
    ensures forall k :: 0 <= k < |s.ring.slots| && Occupied(s.ring, k) ==> EntryOk(s'.mem, s.ring.slots[k])
  {
    forall k | 0 <= k < |s.ring.slots| && Occupied(s.ring, k)
      ensures EntryOk(s'.mem, s.ring.slots[k])
              && EntryBytes(s'.mem, s.ring.slots[k]) == EntryBytes(s.mem, s.ring.slots[k])
    {
      assert Held(s, Slot(k)).Addr?;
    }
    forall i | 0 <= i < Size(s.ring) ensures Contents(s')[i] == Contents(s)[i] {
      OccupiedIffLogical(s.ring, SlotOf(s.ring, i));
    }
  }

  /** The other threads' calls survive it too. */
  lemma OthersFrame(s: Sys, s': Sys, t: nat, u: nat)
    requires Inv(s) && KeepsOthers(s, s', t) && s'.ring == s.ring && u < |s.threads| && u != t
    requires s.temp != NULL_ENTRY ==> s'.temp != NULL_ENTRY
    ensures CallInv(s', s'.threads[u]) && ReadInv(s', s'.threads[u])
  {
    var th := s.threads[u];
    assert ThreadInv(s, u);
    if th.kern.Addr? { assert Held(s, Kern(u)) == th.kern; }
    if th.pc == RCopy {
      var i := Locate(Logical(s.ring), th.fpos).value.0;
      assert Held(s, Slot(SlotOf(s.ring, i))) == th.src;
    }
  }

  /** A step of t on memory that leaves device and history as they are. */
  lemma MemoryStep(s: Sys, s': Sys, t: nat)
    requires Inv(s) && KeepsOthers(s, s', t) && OwnInv(s') && !s'.fault
    requires s'.ring == s.ring && s'.temp == s.temp && s'.writes == s.writes && s'.lock == s.lock
    requires s.temp != NULL_ENTRY ==> s.temp.buffptr.id in s'.mem && s'.mem[s.temp.buffptr.id] == s.mem[s.temp.buffptr.id]
    requires var pc, pc' := s.threads[t].pc, s'.threads[t].pc;
             && !HoldsWrite(pc) && !HoldsRead(pc) && !HoldsWrite(pc') && !HoldsRead(pc')
             && pc' !in {RLock, RFind, RCopy}
    requires CallInv(s', s'.threads[t]) && HistoryInv(s', t)
    ensures Inv(s')
  {
    LockMoveKeepsInv(s, s', t);
    UncommittedFrame(s, s', t);
    RingFrame(s, s', t);
    forall u | 0 <= u < |s'.threads|
      ensures ThreadInv(s', u)
    {
      if u != t {
        OthersFrame(s, s', t, u);
        assert ThreadInv(s, u);
      }
    }
  }

  /** A fresh block, owned by kern_buf. */
  lemma KmallocOwns(s: Sys, t: nat, junk: seq<byte>)
    requires OwnInv(s) && t < |s.threads| && s.threads[t].kern.Null?
    ensures var s' := KmallocStep(s, t, true, junk);
            && OwnInv(s') && KeepsOthers(s, s', t)
            && (s.temp.buffptr.Addr? ==> s.temp.buffptr.id in s.mem
                                         && s'.mem[s.temp.buffptr.id] == s.mem[s.temp.buffptr.id])
  {
    var s' := KmallocStep(s, t, true, junk);
    assert Held(s, Temp) == s.temp.buffptr;
    forall o ensures Held(s', o) == if o == Kern(t) then Addr(s.next) else Held(s, o) {}
    forall id | id in s'.mem ensures id < s'.next && exists o :: Held(s', o) == Addr(id) {
      if id == s.next {
        assert Held(s', Kern(t)) == Addr(id);
      } else {
        var o :| Held(s, o) == Addr(id);
        assert Held(s', o) == Addr(id);
      }
    }
  }

  lemma KmallocKeepsInv(s: Sys, t: nat, ok: bool, junk: seq<byte>)
    requires Inv(s) && At(s, t, WAlloc) && |junk| == |s.threads[t].data|
    ensures Inv(KmallocStep(s, t, ok, junk))
  {
    var s' := KmallocStep(s, t, ok, junk);
    assert ThreadInv(s, t);
    if ok {
      KmallocOwns(s, t, junk);
      MemoryStep(s, s', t);
    } else {
      LocalStep(s, t, s'.threads[t], s.lock);
      assert s' == Local(s, t, s'.threads[t], s.lock);
    }
  }

  /** Filling kern_buf disturbs nobody else. */
  lemma FillKern(s: Sys, t: nat, th: Thread, bytes: seq<byte>)
    requires OwnInv(s) && t < |s.threads| && s.threads[t].kern.Addr?
    requires th.kern == s.threads[t].kern && th.evicted == s.threads[t].evicted
    ensures var s' := Put(s, t, th).(mem := s.mem[th.kern.id := bytes]);
            && OwnInv(s') && KeepsOthers(s, s', t)
            && (s.temp.buffptr.Addr? ==> s.temp.buffptr.id in s.mem
                                         && s'.mem[s.temp.buffptr.id] == s.mem[s.temp.buffptr.id])
  {
    var s' := Put(s, t, th).(mem := s.mem[th.kern.id := bytes]);
    assert Held(s, Kern(t)) == th.kern;
    assert Held(s, Temp) == s.temp.buffptr;
    forall o ensures Held(s', o) == Held(s, o) {}
    OwnFrame(s, s');
  }

  lemma CopyFromUserKeepsInv(s: Sys, t: nat, ok: bool, junk: seq<byte>)
    requires Inv(s) && At(s, t, WCopy) && |junk| == |s.threads[t].data|
    ensures Inv(CopyFromUserStep(s, t, ok, junk))
  {
    var s' := CopyFromUserStep(s, t, ok, junk);
    assert ThreadInv(s, t);
    FillKern(s, t, s'.threads[t], if ok then s.threads[t].data else junk);
    MemoryStep(s, s', t);
  }

  /** Freeing what exactly one place owns, and clearing that place. */
  lemma FreeKeepsOwn(s: Sys, s': Sys, who: Owner)
    requires OwnInv(s) && s'.next == s.next
    requires s'.mem == if Held(s, who).Addr? then s.mem - {Held(s, who).id} else s.mem
    requires forall o :: Held(s', o) == if o == who then Null else Held(s, o)
    ensures OwnInv(s')
  {
    forall id | id in s'.mem ensures id < s'.next && exists o :: Held(s', o) == Addr(id) {
      var o :| Held(s, o) == Addr(id);
      assert Held(s', o) == Addr(id);
    }
  }

  lemma FreeEvictedKeepsInv(s: Sys, t: nat)
    requires Inv(s) && At(s, t, WFreeEvicted)
    ensures Inv(FreeEvictedStep(s, t))
  {
    var s' := FreeEvictedStep(s, t);
    assert ThreadInv(s, t);
    assert Held(s, Evicted(t)) == s.threads[t].evicted.buffptr;
    assert Held(s, Temp) == s.temp.buffptr;
    forall o ensures Held(s', o) == if o == Evicted(t) then Null else Held(s, o) {}
    FreeKeepsOwn(s, s', Evicted(t));
    MemoryStep(s, s', t);
  }

  lemma FreeKernKeepsInv(s: Sys, t: nat)
    requires Inv(s) && At(s, t, WFreeKern)
    ensures Inv(FreeKernStep(s, t))
  {
    var s' := FreeKernStep(s, t);
    assert ThreadInv(s, t);
    assert Held(s, Kern(t)) == s.threads[t].kern;
    assert Held(s, Temp) == s.temp.buffptr;
    forall o ensures Held(s', o) == if o == Kern(t) then Null else Held(s, o) {}
    FreeKeepsOwn(s, s', Kern(t));
    MemoryStep(s, s', t);
  }

  // ---------------------------------------------------------------- append and commit

  /** While t holds the write lock nobody else is in a critical section. */
  lemma WriterIsAlone(s: Sys, t: nat, u: nat)
    requires LockInv(s) && t < |s.threads| && u < |s.threads| && u != t && HoldsWrite(s.threads[t].pc)
    ensures !HoldsWrite(s.threads[u].pc) && !HoldsRead(s.threads[u].pc)
  {
    assert s.lock.writer == Some(t);
  }

  /** Ownership moves from a to b, which held nothing. */
  lemma MoveOwn(s: Sys, s': Sys, a: Owner, b: Owner)
    requires OwnInv(s) && s'.mem.Keys == s.mem.Keys && s'.next == s.next
    requires a != b && Held(s, b).Null?
    requires forall o :: Held(s', o) == if o == a then Null else if o == b then Held(s, a) else Held(s, o)
    ensures OwnInv(s')
  {
    forall id | id in s'.mem ensures id < s'.next && exists o :: Held(s', o) == Addr(id) {
      var o :| Held(s, o) == Addr(id);
      assert Held(s', if o == a then b else o) == Addr(id);
    }
  }

  /** One place exchanges its allocation for another that is fresh or the same. */
  lemma ReplaceOwn(s: Sys, s': Sys, who: Owner, id': nat)
    requires OwnInv(s) && Held(s, who).Addr?
    requires if id' == Held(s, who).id then s'.next == s.next else id' == s.next && s'.next == s.next + 1
    requires s'.mem.Keys == s.mem.Keys - {Held(s, who).id} + {id'}
    requires forall o :: Held(s', o) == if o == who then Addr(id') else Held(s, o)
    ensures OwnInv(s')
  {
    forall id | id in s'.mem ensures id < s'.next && exists o :: Held(s', o) == Addr(id) {
      if id == id' {
        assert Held(s', who) == Addr(id);
      } else {
        var o :| Held(s, o) == Addr(id);
        assert Held(s', o) == Addr(id);
      }
    }
  }

  /** Lines 166-173: an empty temp_entry takes over kern_buf. */
  lemma AppendTakesKern(s: Sys, t: nat, ok: bool, moved: bool)
    requires OwnInv(s) && StoreInv(s) && t < |s.threads|
    requires CallInv(s, s.threads[t]) && s.threads[t].pc == WAppend && s.temp == NULL_ENTRY
    ensures var s' := AppendStep(s, t, ok, moved);
            OwnInv(s') && KeepsOthers(s, s', t)
  {
    var s' := AppendStep(s, t, ok, moved);
    forall o ensures Held(s', o) == if o == Kern(t) then Null
                                    else if o == Temp then Held(s, Kern(t)) else Held(s, o) {}
    MoveOwn(s, s', Kern(t), Temp);
  }

  /** Lines 147-165: temp_entry is reallocated, in place or moved. */
  lemma AppendReallocates(s: Sys, t: nat, moved: bool)
    requires OwnInv(s) && StoreInv(s) && t < |s.threads|
    requires CallInv(s, s.threads[t]) && s.threads[t].pc == WAppend && s.temp != NULL_ENTRY
    ensures var s' := AppendStep(s, t, true, moved);
            OwnInv(s') && KeepsOthers(s, s', t)
  {
    var s' := AppendStep(s, t, true, moved);
    assert Held(s, Temp) == s.temp.buffptr;
    assert Held(s, Kern(t)) == s.threads[t].kern;
    forall o ensures Held(s', o) == if o == Temp then s'.temp.buffptr else Held(s, o) {}
    ReplaceOwn(s, s', Temp, s'.temp.buffptr.id);
  }

  /** What a successful append does: the text of temp_entry grows by the data. */
  ghost predicate Appended(s: Sys, s': Sys, t: nat) {
    && OwnInv(s') && KeepsOthers(s, s', t) && !s'.fault
    && s'.ring == s.ring && s'.lock == s.lock
    && EntryOk(s'.mem, s'.temp)
    && EntryBytes(s'.mem, s'.temp) == EntryBytes(s.mem, s.temp) + s.threads[t].data
    && var th, th' := s.threads[t], s'.threads[t];
       && th'.data == th.data && th'.acked == th.acked && th'.evicted == th.evicted
       && th'.ret == |th.data|
       && th'.pc == (if EndsInNewline(th.data) then WCommit else WUnlock)
       && s'.writes == if EndsInNewline(th.data) then s.writes else s.writes + [Write(t, th.data)]
  }

  lemma AppendAppends(s: Sys, t: nat, ok: bool, moved: bool)
    requires Inv(s) && At(s, t, WAppend) && (ok || s.temp == NULL_ENTRY)
    ensures Appended(s, AppendStep(s, t, ok, moved), t)
  {
    assert ThreadInv(s, t);
    if s.temp == NULL_ENTRY {
      AppendTakesKern(s, t, ok, moved);
    } else {
      AppendReallocates(s, t, moved);
    }
  }

  /** The history of the other threads does not see t's write. */
  lemma HistoryFrame(s: Sys, s': Sys, t: nat, u: nat)
    requires u < |s.threads| == |s'.threads| && u != t && s'.threads[u] == s.threads[u]
    requires t < |s.threads| && HistoryInv(s, u)
    requires s'.writes == s.writes || s'.writes == s.writes + [Write(t, s.threads[t].data)]
    ensures HistoryInv(s', u)
  {
    BySnoc(s.writes, Write(t, s.threads[t].data), u);
  }

  lemma AppendedThreads(s: Sys, s': Sys, t: nat)
    requires Inv(s) && t < |s.threads| && s.threads[t].pc == WAppend && Appended(s, s', t)
    ensures ThreadsInv(s')
  {
    forall u | 0 <= u < |s'.threads|
      ensures ThreadInv(s', u)
    {
      assert ThreadInv(s, u);
      if u != t {
        OthersFrame(s, s', t, u);
        HistoryFrame(s, s', t, u);
      } else {
        BySnoc(s.writes, Write(t, s.threads[t].data), t);
      }
    }
  }

  lemma AppendedView(s: Sys, s': Sys, t: nat)
    requires WellFormed(s.ring) && ViewInv(s) && s.lock.writer == Some(t) && At(s, t, WAppend)
    requires s'.ring == s.ring && s'.lock == s.lock && Contents(s') == Contents(s) && t < |s'.threads|
    requires var th, th' := s.threads[t], s'.threads[t];
             && EntryBytes(s'.mem, s'.temp) == EntryBytes(s.mem, s.temp) + th.data
             && th'.data == th.data
             && th'.pc == (if EndsInNewline(th.data) then WCommit else WUnlock)
             && s'.writes == if EndsInNewline(th.data) then s.writes else s.writes + [Write(t, th.data)]
    ensures ViewInv(s')
  {
    var data := s.threads[t].data;
    assert Uncommitted(s) == [];
    if EndsInNewline(data) {
      assert Uncommitted(s') == data;
    } else {
      assert Uncommitted(s') == [];
      ReplaySnoc(s.writes, Write(t, data));
    }
  }

  lemma AppendKeepsInv(s: Sys, t: nat, ok: bool, moved: bool)
    requires Inv(s) && At(s, t, WAppend)
    ensures Inv(AppendStep(s, t, ok, moved))
  {
    var s' := AppendStep(s, t, ok, moved);
    assert ThreadInv(s, t);
    if s.temp != NULL_ENTRY && !ok {
      LocalStep(s, t, s'.threads[t], s.lock);
      assert s' == Local(s, t, s'.threads[t], s.lock);
    } else {
      AppendAppends(s, t, ok, moved);
      AppendedKeepsInv(s, s', t);
    }
  }

  lemma AppendedKeepsInv(s: Sys, s': Sys, t: nat)
    requires Inv(s) && t < |s.threads| && s.threads[t].pc == WAppend && Appended(s, s', t)
    ensures Inv(s')
  {
    assert ThreadInv(s, t);
    AppendedThreads(s, s', t);
    RingFrame(s, s', t);
    AppendedView(s, s', t);
    LockMoveKeepsInv(s, s', t);
  }

  /** The slot that commit overwrites hands what it holds to evicted_entry. */
  lemma EvictOwns(s: Sys, s': Sys, t: nat, th: Thread, k: nat)
    requires OwnInv(s) && t < |s.threads| && k < |s.ring.slots|
    requires s.threads[t].evicted.buffptr.Null? && th.kern == s.threads[t].kern
    requires th.evicted.buffptr == s.ring.slots[k].buffptr
    requires s' == Put(s, t, th).(ring := s.ring.(slots := s.ring.slots[k := NULL_ENTRY]))
    ensures OwnInv(s')
  {
    forall o ensures Held(s', o) == if o == Slot(k) then Null
                                    else if o == Evicted(t) then Held(s, Slot(k)) else Held(s, o) {}
    MoveOwn(s, s', Slot(k), Evicted(t));
  }

  /** Lines 181-183: temp_entry moves into the ring, the evicted entry moves out of it. */
  lemma CommitOwns(s: Sys, t: nat)
    requires OwnInv(s) && StoreInv(s) && t < |s.threads|
    requires s.threads[t].pc == WCommit && CallInv(s, s.threads[t])
    ensures OwnInv(CommitStep(s, t))
  {
    var s' := CommitStep(s, t);
    var k := s.ring.inOffs;
    PushRefinesQueue(s.ring, s.temp);
    var mid := Put(s, t, s'.threads[t]).(ring := s.ring.(slots := s.ring.slots[k := NULL_ENTRY]));
    EvictOwns(s, mid, t, s'.threads[t], k);
    forall o ensures Held(s', o) == if o == Temp then Null
                                    else if o == Slot(k) then Held(mid, Temp) else Held(mid, o) {}
    MoveOwn(mid, s', Temp, Slot(k));
  }

  lemma CommitStore(s: Sys, t: nat)
    requires StoreInv(s) && t < |s.threads| && s.temp != NULL_ENTRY
    ensures StoreInv(CommitStep(s, t))
  {
    PushRefinesQueue(s.ring, s.temp);
  }

  lemma CommitView(s: Sys, t: nat)
    requires Inv(s) && At(s, t, WCommit)
    ensures WellFormed(CommitStep(s, t).ring) && ViewInv(CommitStep(s, t))
  {
    var s' := CommitStep(s, t);
    assert ThreadInv(s, t);
    assert s.lock.writer == Some(t);
    PushRefinesQueue(s.ring, s.temp);
    ReplaySnoc(s.writes, Write(t, s.threads[t].data));
    var d := Replay(s.writes);
    LastNSnoc(d.log, d.pending + s.threads[t].data, |s.ring.slots|);
    assert |Contents(s)| == Size(s.ring);
    var kept := if s.ring.full then Contents(s)[1..] else Contents(s);
    assert Contents(s') == kept + [EntryBytes(s.mem, s.temp)];
  }

  lemma CommitKeepsInv(s: Sys, t: nat)
    requires Inv(s) && At(s, t, WCommit)
    ensures Inv(CommitStep(s, t))
  {
    var s' := CommitStep(s, t);
    assert ThreadInv(s, t);
    CommitOwns(s, t);
    CommitStore(s, t);
    CommitView(s, t);
    CommitThreads(s, t);
    LockMoveKeepsInv(s, s', t);
  }

  lemma CommitThreads(s: Sys, t: nat)
    requires Inv(s) && At(s, t, WCommit)
    ensures WellFormed(CommitStep(s, t).ring) && ThreadsInv(CommitStep(s, t))
  {
    var s' := CommitStep(s, t);
    PushRefinesQueue(s.ring, s.temp);
    forall u | 0 <= u < |s'.threads|
      ensures ThreadInv(s', u)
    {
      assert ThreadInv(s, u);
      if u != t {
        WriterIsAlone(s, t, u);
        HistoryFrame(s, s', t, u);
      } else {
        BySnoc(s.writes, Write(t, s.threads[t].data), t);
      }
    }
  }

  // ---------------------------------------------------------------- every step, every run

  lemma WriteStepKeepsInv(s: Sys, l: Label)
    requires Inv(s) && Enabled(s, l)
    requires l.a.Kmalloc? || l.a.CopyFromUser? || l.a.DownWrite? || l.a.Append? || l.a.Commit?
             || l.a.UpWrite? || l.a.FreeEvicted? || l.a.FreeKern?
    ensures Inv(Apply(s, l))
  {
    var t := l.t;
    match l.a
    case Kmalloc(ok, junk) => KmallocKeepsInv(s, t, ok, junk);
    case CopyFromUser(ok, junk) => CopyFromUserKeepsInv(s, t, ok, junk);
    case DownWrite(ok) => DownWriteKeepsInv(s, t, ok);
    case Append(ok, moved) => AppendKeepsInv(s, t, ok, moved);
    case Commit => CommitKeepsInv(s, t);
    case UpWrite => UpWriteKeepsInv(s, t);
    case FreeEvicted => FreeEvictedKeepsInv(s, t);
    case FreeKern => FreeKernKeepsInv(s, t);
  }

  lemma ReadStepKeepsInv(s: Sys, l: Label)
    requires Inv(s) && Enabled(s, l)
    requires l.a.DownRead? || l.a.Find? || l.a.CopyByte? || l.a.CopyToUser? || l.a.UpRead?
             || l.a.DownSeek? || l.a.Seek? || l.a.UpSeek?
    ensures Inv(Apply(s, l))
  {
    var t := l.t;
    match l.a
    case DownRead(ok) => DownReadKeepsInv(s, t, ok);
    case Find => FindKeepsInv(s, t);
    case CopyByte => CopyByteKeepsInv(s, t);
    case CopyToUser(ok) => CopyToUserKeepsInv(s, t, ok);
    case UpRead => UpReadKeepsInv(s, t);
    case DownSeek(ok) => DownSeekKeepsInv(s, t, ok);
    case Seek => SeekKeepsInv(s, t);
    case UpSeek => UpSeekKeepsInv(s, t);
  }

  /** Every step of every thread keeps the invariant. */
  lemma StepKeepsInv(s: Sys, l: Label)
    requires Inv(s) && Enabled(s, l)
    ensures Inv(Apply(s, l))
  {
    var a := l.a;
    if a.StartWrite? || a.StartRead? || a.BadIoctl? || a.StartSeek? {
      assert ThreadInv(s, l.t);
      StartKeepsInv(s, l.t, Apply(s, l).threads[l.t]);
    } else if a.DownRead? || a.Find? || a.CopyByte? || a.CopyToUser? || a.UpRead?
              || a.DownSeek? || a.Seek? || a.UpSeek? {
      ReadStepKeepsInv(s, l);
    } else {
      WriteStepKeepsInv(s, l);
    }
  }

  lemma InitInv(n: nat, m: nat)
    requires 1 <= n <= 255
    ensures Inv(InitSys(n, m))
  {
  }

  lemma {:induction false} RunKeepsInv(s: Sys, ls: seq<Label>)
    requires Inv(s) && Exec(s, ls).Some?
    ensures Inv(Exec(s, ls).value)
  {
    if ls != [] {
      var ls0, l := ls[..|ls| - 1], ls[|ls| - 1];
      RunKeepsInv(s, ls0);
      StepKeepsInv(Exec(s, ls0).value, l);
    }
  }
}
