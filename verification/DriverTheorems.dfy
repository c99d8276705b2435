/**
 What the invariant means for every run of the driver from module init, with any number of threads,
 any interleaving, and any failures of kmalloc, krealloc, the user copies and the interruptible locks.
 */
module DriverTheorems {
  import opened Base
  import opened Rings
  import opened WriteLog
  import opened Driver
  import opened DriverInvariant

  /** s can be reached from a fresh device with n slots and m threads. */
  ghost predicate Reachable(s: Sys, n: nat, m: nat) {
    exists ls :: Exec(InitSys(n, m), ls) == Some(s)
  }

  lemma ReachableInv(s: Sys, n: nat, m: nat)
    requires 1 <= n <= 255 && Reachable(s, n, m)
    ensures Inv(s)
  {
    var ls :| Exec(InitSys(n, m), ls) == Some(s);
    InitInv(n, m);
    RunKeepsInv(InitSys(n, m), ls);
  }

  lemma {:induction false} SizesAreFixed(s: Sys, ls: seq<Label>)
    requires Inv(s) && Exec(s, ls).Some?
    ensures |Exec(s, ls).value.ring.slots| == |s.ring.slots|
    ensures |Exec(s, ls).value.threads| == |s.threads|
  {
    if ls != [] {
      var ls0 := ls[..|ls| - 1];
      SizesAreFixed(s, ls0);
      RunKeepsInv(s, ls0);
      StepKeepsSizes(Exec(s, ls0).value, ls[|ls| - 1]);
    }
  }

  lemma StepKeepsSizes(s: Sys, l: Label)
    requires Enabled(s, l)
    ensures |Apply(s, l).ring.slots| == |s.ring.slots| && |Apply(s, l).threads| == |s.threads|
  {
    match l.a
    case Append(ok, moved) => assert |AppendStep(s, l.t, ok, moved).threads| == |s.threads|;
    case Commit => assert |CommitStep(s, l.t).ring.slots| == |s.ring.slots|;
    case Find => assert |FindStep(s, l.t).threads| == |s.threads|;
    case _ =>
  }

  /** A step of one thread leaves the others where they are. */
  lemma StepFrame(s: Sys, l: Label)
    requires Enabled(s, l)
    ensures |Apply(s, l).threads| == |s.threads|
    ensures forall u :: 0 <= u < |s.threads| && u != l.t ==> Apply(s, l).threads[u] == s.threads[u]
  {
    StepKeepsSizes(s, l);
    match l.a
    case Append(ok, moved) => assert AppendStep(s, l.t, ok, moved) == Apply(s, l);
    case Commit => assert CommitStep(s, l.t) == Apply(s, l);
    case Find => assert FindStep(s, l.t) == Apply(s, l);
    case _ =>
  }

  /** Only append and commit record a write, and only of their own thread. */
  lemma StepRecordsOwnWrite(s: Sys, l: Label)
    requires Enabled(s, l)
    ensures Apply(s, l).writes == s.writes
            || (s.threads[l.t].pc in {WAppend, WCommit}
                && Apply(s, l).writes == s.writes + [Write(l.t, s.threads[l.t].data)])
  {
  }

  // ---------------------------------------------------------------- memory safety and ownership

  /**
   No run reads or writes freed memory, reads past an allocation, frees twice, or trips an assertion;
   in particular no reader copies from a buffer that a writer freed after dropping the lock.
   */
  lemma NoRunFaults(n: nat, m: nat, ls: seq<Label>)
    requires 1 <= n <= 255 && Exec(InitSys(n, m), ls).Some?
    ensures !Exec(InitSys(n, m), ls).value.fault
  {
    InitInv(n, m);
    RunKeepsInv(InitSys(n, m), ls);
  }

  /** No thread is inside a call. */
  predicate Quiet(s: Sys) {
    forall t :: 0 <= t < |s.threads| ==> s.threads[t].pc == Idle
  }

  /** Every live allocation has exactly one owner; between calls that is an occupied slot or temp_entry. */
  lemma ExactlyOneOwner(s: Sys, n: nat, m: nat, id: nat)
    requires 1 <= n <= 255 && Reachable(s, n, m) && id in s.mem
    ensures exists o :: Held(s, o) == Addr(id) && forall o' :: Held(s, o') == Addr(id) ==> o' == o
    ensures Quiet(s) ==>
              || (s.temp.buffptr == Addr(id))
              || (exists k :: 0 <= k < |s.ring.slots| && WellFormed(s.ring) && Occupied(s.ring, k)
                              && s.ring.slots[k].buffptr == Addr(id))
  {
    ReachableInv(s, n, m);
    var o :| Held(s, o) == Addr(id);
    assert forall o' :: Held(s, o') == Addr(id) ==> o' == o;
    match o
    case Slot(k) => assert Occupied(s.ring, k) && s.ring.slots[k].buffptr == Addr(id);
    case Temp =>
    case Kern(t) => assert ThreadInv(s, t);
    case Evicted(t) => assert ThreadInv(s, t);
  }

  // ---------------------------------------------------------------- content

  /**
   In every reachable state the retained entries are the last n entries committed by the accepted
   writes, in the order their critical sections ran; and outside a critical section temp_entry is the
   accepted text since the last newline-terminated write.
   */
  lemma DeviceReplaysAcceptedWrites(s: Sys, n: nat, m: nat)
    requires 1 <= n <= 255 && Reachable(s, n, m)
    ensures WellFormed(s.ring) && |s.ring.slots| == n
    ensures Contents(s) == LastN(Replay(s.writes).log, n)
    ensures s.lock.writer == None ==> EntryBytes(s.mem, s.temp) == Replay(s.writes).pending
  {
    ReachableInv(s, n, m);
    var ls :| Exec(InitSys(n, m), ls) == Some(s);
    InitInv(n, m);
    SizesAreFixed(InitSys(n, m), ls);
  }

  /** Exactly the writes that reported success were accepted, thread by thread and in order. */
  lemma AcceptedWritesAreTheAcknowledged(s: Sys, n: nat, m: nat, t: nat)
    requires 1 <= n <= 255 && Reachable(s, n, m) && t < |s.threads| && s.threads[t].pc == Idle
    ensures By(s.writes, t) == s.threads[t].acked
  {
    ReachableInv(s, n, m);
    assert ThreadInv(s, t);
  }

  /**
   Entry boundaries of every run: at each point j of the accepted writes, the entries closed so far are
   the accepted bytes so far exactly when write j - 1 ended in a newline; and no accepted byte is lost.
   */
  lemma EntriesEndAtNewlineWrites(s: Sys, n: nat, m: nat, j: nat)
    requires 1 <= n <= 255 && Reachable(s, n, m) && j <= |s.writes|
    ensures var log, closed := Replay(s.writes).log, Newlines(s.writes[..j]);
            && closed <= |log|
            && (Flat(log[..closed]) == Flat(Data(s.writes[..j])) <==> j == 0 || EndsInNewline(s.writes[j - 1].data))
            && Flat(log) + Replay(s.writes).pending == Flat(Data(s.writes))
  {
    ReachableInv(s, n, m);
    ReplayBoundaries(s.writes, j);
    ReplayConservesBytes(s.writes);
  }

  /** A position below the evicted base is gone; position p is byte base + p of all that was committed. */
  lemma PositionsNameLogBytes(s: Sys, n: nat, m: nat)
    requires 1 <= n <= 255 && Reachable(s, n, m)
    ensures WellFormed(s.ring)
    ensures var log := Replay(s.writes).log;
            && BaseOf(log, n) <= |Flat(log)|
            && Flat(Contents(s)) == Flat(log)[BaseOf(log, n)..]
  {
    DeviceReplaysAcceptedWrites(s, n, m);
    VisibleIsSuffix(Replay(s.writes).log, n);
  }

  /** While anybody holds the semaphore for reading, no step of anybody changes what is retained. */
  lemma ReadersPinContents(s: Sys, l: Label)
    requires Inv(s) && Enabled(s, l) && s.lock.readers != {}
    ensures WellFormed(Apply(s, l).ring) && Contents(Apply(s, l)) == Contents(s)
    ensures Apply(s, l).writes == s.writes
  {
    StepKeepsInv(s, l);
    StepKeepsSizes(s, l);
    StepRecordsOwnWrite(s, l);
    assert HoldsWrite(s.threads[l.t].pc) <==> s.lock.writer == Some(l.t);
  }

  // ---------------------------------------------------------------- reads

  /** Flat positions of entries are flat positions of their texts. */
  lemma {:induction false} FlatTexts(mem: map<nat, seq<byte>>, es: seq<Entry>)
    requires forall i :: 0 <= i < |es| ==> EntryOk(mem, es[i])
    ensures |Flat(Texts(mem, es))| == Total(es)
  {
    if es != [] {
      FlatTexts(mem, es[1..]);
      assert Texts(mem, es)[1..] == Texts(mem, es[1..]);
    }
  }

  lemma FlatTextsSlice(mem: map<nat, seq<byte>>, es: seq<Entry>, i: nat, off: nat, k: nat)
    requires forall j :: 0 <= j < |es| ==> EntryOk(mem, es[j])
    requires i < |es| && EntryOk(mem, es[i]) && off + k <= es[i].size
    ensures PosOf(es, i, off) + k <= |Flat(Texts(mem, es))|
    ensures mem[es[i].buffptr.id][off..off + k]
            == Flat(Texts(mem, es))[PosOf(es, i, off)..PosOf(es, i, off) + k]
  {
    var text := mem[es[i].buffptr.id];
    FlatTexts(mem, es[..i]);
    assert es == es[..i] + [es[i]] + es[i + 1..];
    assert Texts(mem, es) == Texts(mem, es[..i]) + [text] + Texts(mem, es[i + 1..]);
    FlatAppend(Texts(mem, es[..i]) + [text], Texts(mem, es[i + 1..]));
    FlatSnoc(Texts(mem, es[..i]), text);
    var a, b := Flat(Texts(mem, es[..i])), Flat(Texts(mem, es[i + 1..]));
    assert Flat(Texts(mem, es)) == a + text + b;
    assert text[off..off + k] == (a + text + b)[|a| + off..|a| + off + k];
  }

  lemma LogicalEntriesOk(s: Sys)
    requires StoreInv(s)
    ensures forall i :: 0 <= i < Size(s.ring) ==> EntryOk(s.mem, Logical(s.ring)[i])
  {
    forall i | 0 <= i < Size(s.ring) ensures EntryOk(s.mem, Logical(s.ring)[i]) {
      OccupiedIffLogical(s.ring, SlotOf(s.ring, i));
    }
  }

  /**
   A read that succeeds hands over exactly the text at its position, at least one byte of it, and
   moves the position past it, even though it took many steps and other threads ran in between.
   */
  lemma ReadReturnsTheText(s: Sys, t: nat)
    requires Inv(s) && At(s, t, RCopy) && |s.threads[t].got| >= s.threads[t].want
    ensures var th, th' := s.threads[t], CopyToUserStep(s, t, true).threads[t];
            && 0 < th'.ret == |th'.got| <= th.count
            && th'.fpos == th.fpos + |th'.got| <= |Flat(Contents(s))|
            && th'.got == Flat(Contents(s))[th.fpos..th'.fpos]
  {
    var th := s.threads[t];
    assert ThreadInv(s, t);
    LogicalEntriesOk(s);
    PosOfInvertsLocate(Logical(s.ring), th.fpos);
    var (i, off) := Locate(Logical(s.ring), th.fpos).value;
    FlatTextsSlice(s.mem, Logical(s.ring), i, off, th.want);
  }

  /** A read reports end of file exactly at and beyond the end of the text. */
  lemma EndOfFileIffNoText(s: Sys, t: nat)
    requires Inv(s) && At(s, t, RFind)
    ensures At(FindStep(s, t), t, RUnlock) <==> s.threads[t].fpos >= |Flat(Contents(s))|
  {
    FindKeepsInv(s, t);
    LogicalEntriesOk(s);
    FlatTexts(s.mem, Logical(s.ring));
    PosOfInvertsLocate(Logical(s.ring), s.threads[t].fpos);
  }

  // ---------------------------------------------------------------- progress

  /** The next step of a thread that is inside a call, when no wait is interrupted and nothing fails. */
  function NextAction(th: Thread): Action
    requires th.pc != Idle
  {
    match th.pc
    case WAlloc => Kmalloc(true, th.data)
    case WCopy => CopyFromUser(true, th.data)
    case WLock => DownWrite(true)
    case WAppend => Append(true, false)
    case WCommit => Commit
    case WUnlock => UpWrite
    case WFreeEvicted => FreeEvicted
    case WFreeKern => FreeKern
    case RLock => DownRead(true)
    case RFind => Find
    case RCopy => if |th.got| < th.want then CopyByte else CopyToUser(true)
    case RUnlock => UpRead
    case ILock => DownSeek(true)
    case ISeek => Seek
    case IUnlock => UpSeek
  }

  /** A thread outside the three waits can always go on. */
  lemma OnlyWaitsBlock(s: Sys, t: nat)
    requires t < |s.threads| && s.threads[t].pc !in {Idle, WLock, RLock, ILock}
    ensures Enabled(s, Label(t, NextAction(s.threads[t])))
  {
  }

  /** No deadlock: while some thread is inside a call, some thread can take its next step. */
  lemma NoDeadlock(s: Sys, n: nat, m: nat)
    requires 1 <= n <= 255 && Reachable(s, n, m) && !Quiet(s)
    ensures exists t :: 0 <= t < |s.threads| && s.threads[t].pc != Idle
                        && Enabled(s, Label(t, NextAction(s.threads[t])))
  {
    ReachableInv(s, n, m);
    var t :| 0 <= t < |s.threads| && s.threads[t].pc != Idle;
    if s.threads[t].pc !in {WLock, RLock, ILock} {
      OnlyWaitsBlock(s, t);
    } else if s.lock.writer.Some? {
      OnlyWaitsBlock(s, s.lock.writer.value);
    } else if s.lock.readers != {} {
      var r :| r in s.lock.readers;
      OnlyWaitsBlock(s, r);
    } else {
      assert Enabled(s, Label(t, NextAction(s.threads[t])));
    }
  }
}
