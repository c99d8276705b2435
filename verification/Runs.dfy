/**
 Runs of the transition system, as the calls of one thread use them: how a run is extended by each
 kind of step, what may be relied on between two steps, and the complete runs of a read and a seek.
 */
module Runs {
  import opened Base
  import opened Rings
  import opened WriteLog
  import opened Driver
  import opened DriverInvariant
  import opened DriverTheorems
  import opened Positions

  ghost predicate RunsTo(s: Sys, s': Sys) {
    exists ls :: Exec(s, ls) == Some(s')
  }

  /** Reachable from module init, with some number of threads. */
  ghost predicate Sound(s: Sys) {
    exists m :: RunsTo(InitSys(MAX_WRITE_OPERATIONS, m), s)
  }

  predicate OthersIdle(s: Sys, t: nat) {
    && t < |s.threads|
    && forall u :: 0 <= u < |s.threads| && u != t ==> s.threads[u].pc == Idle
  }

  /** s0 is reachable and s lies on a run from it. */
  ghost predicate Progress(s0: Sys, s: Sys) {
    Sound(s0) && Sound(s) && RunsTo(s0, s)
  }

  lemma Standstill(s: Sys)
    requires Sound(s)
    ensures Progress(s, s)
  {
    assert Exec(s, []) == Some(s);
  }

  /** One more step of a run. */
  lemma Take(s0: Sys, s: Sys, l: Label) returns (s': Sys)
    requires Progress(s0, s) && Enabled(s, l)
    ensures s' == Apply(s, l) && Progress(s0, s')
  {
    var m :| RunsTo(InitSys(MAX_WRITE_OPERATIONS, m), s);
    RunsToStep(InitSys(MAX_WRITE_OPERATIONS, m), s, l);
    RunsToStep(s0, s, l);
    s' := Apply(s, l);
  }

  lemma RunsToStep(s0: Sys, s: Sys, l: Label)
    requires RunsTo(s0, s) && Enabled(s, l)
    ensures RunsTo(s0, Apply(s, l))
  {
    var ls :| Exec(s0, ls) == Some(s);
    ExecSnoc(s0, ls, l);
  }

  // ---------------------------------------------------------------- what reachable states offer

  /** What a writer between two lines may rely on. */
  lemma WriterFacts(s: Sys, t: nat)
    requires Sound(s) && t < |s.threads|
    ensures !s.fault && WellFormed(s.ring) && CallInv(s, s.threads[t])
    ensures s.temp == NULL_ENTRY || EntryOk(s.mem, s.temp)
    ensures forall id :: id in s.mem ==> id < s.next
    ensures var th := s.threads[t];
            && (th.kern.Addr? ==> th.kern.id in s.mem && th.kern != s.temp.buffptr)
            && (th.evicted.buffptr.Addr? ==> th.evicted.buffptr.id in s.mem && th.evicted.buffptr != th.kern)
  {
    var m :| RunsTo(InitSys(MAX_WRITE_OPERATIONS, m), s);
    ReachableInv(s, MAX_WRITE_OPERATIONS, m);
    assert ThreadInv(s, t);
    assert Held(s, Kern(t)) == s.threads[t].kern && Held(s, Temp) == s.temp.buffptr;
    assert Held(s, Evicted(t)) == s.threads[t].evicted.buffptr;
  }

  lemma QuietLockFree(s: Sys)
    requires Sound(s) && Quiet(s)
    ensures LockFree(s.lock)
  {
    var m :| RunsTo(InitSys(MAX_WRITE_OPERATIONS, m), s);
    ReachableInv(s, MAX_WRITE_OPERATIONS, m);
    assert forall t :: 0 <= t < |s.threads| ==> t !in s.lock.readers;
    assert s.lock.readers == {};
  }

  lemma StoreFacts(s: Sys)
    requires Sound(s)
    ensures StoreInv(s) && !s.fault
  {
    var m :| RunsTo(InitSys(MAX_WRITE_OPERATIONS, m), s);
    ReachableInv(s, MAX_WRITE_OPERATIONS, m);
  }

  lemma QuietReplay(s: Sys)
    requires Sound(s) && Quiet(s)
    ensures WellFormed(s.ring)
    ensures Contents(s) == LastN(Replay(s.writes).log, MAX_WRITE_OPERATIONS)
    ensures EntryBytes(s.mem, s.temp) == Replay(s.writes).pending
  {
    var m :| RunsTo(InitSys(MAX_WRITE_OPERATIONS, m), s);
    DeviceReplaysAcceptedWrites(s, MAX_WRITE_OPERATIONS, m);
    QuietLockFree(s);
  }

  /** id belongs to temp_entry or to a slot from index on. */
  ghost predicate HeldFrom(s: Sys, index: nat, id: nat) {
    s.temp.buffptr == Addr(id)
    || exists k :: index <= k < |s.ring.slots| && s.ring.slots[k].buffptr == Addr(id)
  }

  /** A quiescent device owns every allocation, each once. */
  lemma CleanupFacts(s: Sys)
    requires Sound(s) && Quiet(s)
    ensures forall id :: id in s.mem <==> HeldFrom(s, 0, id)
    ensures SlotsDistinct(s)
    ensures forall k :: 0 <= k < |s.ring.slots| && s.ring.slots[k].buffptr.Null? ==> s.ring.slots[k] == NULL_ENTRY
    ensures s.temp.buffptr.Null? ==> s.temp == NULL_ENTRY
  {
    var m :| RunsTo(InitSys(MAX_WRITE_OPERATIONS, m), s);
    ReachableInv(s, MAX_WRITE_OPERATIONS, m);
    OwnersDistinct(s);
    forall id ensures id in s.mem <==> HeldFrom(s, 0, id) {
      assert Held(s, Temp) == s.temp.buffptr;
      if id in s.mem { ExactlyOneOwner(s, MAX_WRITE_OPERATIONS, m, id); }
      forall k | 0 <= k < |s.ring.slots| && s.ring.slots[k].buffptr == Addr(id) ensures id in s.mem {
        assert Held(s, Slot(k)) == Addr(id);
      }
    }
  }

  ghost predicate SlotsDistinct(s: Sys) {
    forall k :: 0 <= k < |s.ring.slots| && s.ring.slots[k].buffptr.Addr? ==>
      && s.ring.slots[k].buffptr != s.temp.buffptr
      && forall k' :: 0 <= k' < |s.ring.slots| && k' != k ==> s.ring.slots[k'].buffptr != s.ring.slots[k].buffptr
  }

  lemma OwnersDistinct(s: Sys)
    requires OwnInv(s)
    ensures SlotsDistinct(s)
  {
    forall k, k' | 0 <= k < |s.ring.slots| && s.ring.slots[k].buffptr.Addr? && 0 <= k' < |s.ring.slots|
      ensures s.ring.slots[k].buffptr != s.temp.buffptr
      ensures k' != k ==> s.ring.slots[k'].buffptr != s.ring.slots[k].buffptr
    {
      assert Held(s, Slot(k)) == s.ring.slots[k].buffptr && Held(s, Slot(k')) == s.ring.slots[k'].buffptr;
      assert Held(s, Temp) == s.temp.buffptr;
    }
  }

  lemma HeldFromNext(s: Sys, index: nat)
    requires SlotsDistinct(s) && index < |s.ring.slots|
    ensures forall id :: HeldFrom(s, index + 1, id) <==>
              HeldFrom(s, index, id) && s.ring.slots[index].buffptr != Addr(id)
  {
  }

  /** Accepting a write when only the last n entries are retained. */
  function AcceptWindow(d: WriteLog.Device, data: seq<byte>, n: nat): WriteLog.Device {
    var d' := Accept(d, data);
    WriteLog.Device(LastN(d'.log, n), d'.pending)
  }

  lemma AcceptedView(s: Sys, s': Sys, w: Write)
    requires Sound(s) && Quiet(s) && Sound(s') && Quiet(s') && s'.writes == s.writes + [w]
    ensures WellFormed(s.ring) && WellFormed(s'.ring)
    ensures WriteLog.Device(Contents(s'), EntryBytes(s'.mem, s'.temp))
            == AcceptWindow(WriteLog.Device(Contents(s), EntryBytes(s.mem, s.temp)), w.data, MAX_WRITE_OPERATIONS)
  {
    QuietReplay(s);
    QuietReplay(s');
    ReplaySnoc(s.writes, w);
    var d := Replay(s.writes);
    LastNSnoc(d.log, d.pending + w.data, MAX_WRITE_OPERATIONS);
    LastNSnoc(Contents(s), d.pending + w.data, MAX_WRITE_OPERATIONS);
  }

  // ---------------------------------------------------------------- positions and text

  /** How much one read of count bytes delivers at a position. */
  function ReadLength(es: seq<Entry>, fpos: nat, count: nat): nat {
    match Locate(es, fpos)
    case None => 0
    case Some((i, off)) => if ValidPair(es, i, off) then Min(count, es[i].size - off) else 0
  }

  /** A run that leaves the device alone and moves only the file position of thread t. */
  predicate OnlyMoves(s: Sys, s': Sys, t: nat, fpos: nat) {
    && s'.ring == s.ring && s'.temp == s.temp && s'.mem == s.mem && s'.next == s.next
    && s'.writes == s.writes
    && t < |s.threads| == |s'.threads|
    && s'.threads[t].fpos == fpos
    && Quiet(s')
  }

  /** What a read delivers is the text at its position. */
  lemma TextAt(s: Sys, fpos: nat, count: nat)
    requires StoreInv(s)
    ensures var n := ReadLength(Logical(s.ring), fpos, count);
            && (count > 0 ==> (n == 0 <==> fpos >= |Flat(Contents(s))|))
            && match Locate(Logical(s.ring), fpos)
               case None => true
               case Some((i, off)) =>
                 && i < |Contents(s)| && off + n <= |Contents(s)[i]|
                 && fpos + n <= |Flat(Contents(s))|
                 && Contents(s)[i][off..off + n] == Flat(Contents(s))[fpos..fpos + n]
  {
    var es := Logical(s.ring);
    LogicalEntriesOk(s);
    FlatTexts(s.mem, es);
    PosOfInvertsLocate(es, fpos);
    match Locate(es, fpos)
    case None =>
    case Some((i, off)) => FlatTextsSlice(s.mem, es, i, off, ReadLength(es, fpos, count));
  }

  lemma ReadExtends(text: seq<byte>, start: nat, all: seq<byte>, bytes: seq<byte>)
    requires all <= From(text, start)
    requires bytes == Slice(text, start + |all|, |bytes|)
    ensures all + bytes <= From(text, start)
    ensures start + |all| >= |text| ==> all == From(text, start)
  {
  }

  /** bytes is what a read of count at a located byte delivers: that entry from there on, clipped to the count. */
  predicate EntrySlice(log: seq<seq<byte>>, at: Option<(nat, nat)>, count: nat, bytes: seq<byte>) {
    match at
    case None => bytes == []
    case Some((i, off)) =>
      && i < |log| && off < |log[i]|
      && bytes == log[i][off..off + Min(count, |log[i]| - off)]
  }

  /** What a read can rely on, at any position of any reachable device. */
  lemma ReadFacts(s: Sys, fpos: nat, count: nat)
    requires Sound(s)
    ensures WellFormed(s.ring)
    ensures var n := ReadLength(Logical(s.ring), fpos, count);
            && (count > 0 ==> (n == 0 <==> fpos >= |Flat(Contents(s))|))
            && match Locate(Logical(s.ring), fpos)
               case None => n == 0
               case Some((i, off)) =>
                 && i < Size(s.ring) && EntryOk(s.mem, Logical(s.ring)[i]) && off < Logical(s.ring)[i].size
                 && var bytes := s.mem[Logical(s.ring)[i].buffptr.id][off..off + n];
                    && bytes == Slice(Flat(Contents(s)), fpos, n)
                    && EntrySlice(Contents(s), Some((i, off)), count, bytes)
  {
    StoreFacts(s);
    LogicalEntriesOk(s);
    PosOfInvertsLocate(Logical(s.ring), fpos);
    TextAt(s, fpos, count);
  }

  // ---------------------------------------------------------------- whole calls

  /** Lines 114-134 of a write. */
  lemma PrepareRun(s: Sys, t: nat, data: seq<byte>, kmallocOk: bool, copyOk: bool, junk: seq<byte>)
    returns (s': Sys)
    requires Sound(s) && At(s, t, Idle) && data != [] && |junk| == |data|
    ensures Progress(s, s') && |s'.threads| == |s.threads|
    ensures s' == Put(s, t, s'.threads[t]).(mem := s'.mem, next := s'.next)
    ensures s'.next == (if kmallocOk then s.next + 1 else s.next)
    ensures s'.mem == if kmallocOk then s.mem[s.next := if copyOk then data else junk] else s.mem
    ensures var th' := s'.threads[t];
            && th'.data == data && th'.evicted == NULL_ENTRY && th'.fpos == s.threads[t].fpos
            && th'.kern == (if kmallocOk then Addr(s.next) else Null)
            && if !kmallocOk then th'.pc == WFreeEvicted && th'.ret == -ENOMEM
               else if !copyOk then th'.pc == WFreeEvicted && th'.ret == -EFAULT
               else th'.pc == WLock
    ensures forall id :: id in s.mem ==> id < s.next
  {
    WriterFacts(s, t);
    Standstill(s);
    s' := Take(s, s, Label(t, StartWrite(data)));
    s' := Take(s, s', Label(t, Kmalloc(kmallocOk, junk)));
    if kmallocOk {
      s' := Take(s, s', Label(t, CopyFromUser(copyOk, junk)));
    }
  }

  /** The state after the two frees that end a write. */
  function Freed(s: Sys, t: nat): Sys
    requires t < |s.threads|
  {
    FreeKernStep(FreeEvictedStep(s, t), t)
  }

  lemma FreedIs(s: Sys, t: nat)
    requires OthersIdle(s, t)
    requires var kern, evicted := s.threads[t].kern, s.threads[t].evicted.buffptr;
             (kern.Addr? ==> kern.id in s.mem) && (evicted.Addr? ==> evicted.id in s.mem && evicted != kern)
    ensures Quiet(Freed(s, t)) && |Freed(s, t).threads| == |s.threads|
    ensures var s', th := Freed(s, t), s.threads[t];
            && s'.writes == s.writes && s'.ring == s.ring && s'.temp == s.temp && s'.next == s.next
            && s'.threads[t].ret == th.ret && s'.threads[t].fpos == th.fpos
            && s'.mem == s.mem - (if th.kern.Addr? then {th.kern.id} else {})
                               - (if th.evicted.buffptr.Addr? then {th.evicted.buffptr.id} else {})
  {
  }

  lemma FreeRun(s0: Sys, s: Sys, t: nat)
    requires Progress(s0, s) && At(s, t, WFreeEvicted)
    ensures Progress(s0, Freed(s, t))
  {
    var s1 := Take(s0, s, Label(t, FreeEvicted));
    var s2 := Take(s0, s1, Label(t, FreeKern));
  }

  /** Lines 188-203 of a write: release what it still holds. */
  lemma FinishRun(s0: Sys, s: Sys, t: nat) returns (s': Sys)
    requires Progress(s0, s) && OthersIdle(s, t) && s.threads[t].pc in {WUnlock, WFreeEvicted}
    ensures Progress(s0, s') && Quiet(s') && |s'.threads| == |s.threads|
    ensures s'.writes == s.writes && s'.ring == s.ring && s'.temp == s.temp && s'.next == s.next
    ensures var kern, evicted := s.threads[t].kern, s.threads[t].evicted.buffptr;
            && (kern.Addr? ==> kern.id in s.mem) && (evicted.Addr? ==> evicted.id in s.mem && evicted != kern)
            && s'.mem == s.mem - (if kern.Addr? then {kern.id} else {})
                               - (if evicted.Addr? then {evicted.id} else {})
    ensures s'.threads[t].ret == s.threads[t].ret && s'.threads[t].fpos == s.threads[t].fpos
  {
    WriterFacts(s, t);
    s' := s;
    if s.threads[t].pc == WUnlock {
      s' := Take(s0, s', Label(t, UpWrite));
    }
    FreeRun(s0, s', t);
    FreedIs(s', t);
    s' := Freed(s', t);
  }

  /** What a seek finds: the byte exists in the ring exactly when it exists in the text. */
  lemma SeekFinding(s: Sys, cmd: nat, off: nat)
    requires StoreInv(s)
    ensures var es, log := Logical(s.ring), Contents(s);
            && (ValidPair(es, cmd, off) <==> cmd < |log| && off < |log[cmd]|)
            && (ValidPair(es, cmd, off) ==>
                  && Locate(es, PosOf(es, cmd, off)) == Some((cmd, off))
                  && PosOf(es, cmd, off) == |Flat(log[..cmd])| + off)
  {
    ValidPairTexts(s, cmd, off);
    if ValidPair(Logical(s.ring), cmd, off) {
      LocateInvertsPosOf(Logical(s.ring), cmd, off);
      PosOfTexts(s, cmd, off);
    }
  }

  /** The steps of one seek. */
  lemma SeekRun(s: Sys, t: nat, cmd: nat, cmdOff: nat, lockOk: bool) returns (s': Sys)
    requires Sound(s) && Quiet(s) && t < |s.threads|
    ensures Progress(s, s') && WellFormed(s.ring)
    ensures OnlyMoves(s, s', t, if lockOk && ValidPair(Logical(s.ring), cmd, cmdOff)
                                then PosOf(Logical(s.ring), cmd, cmdOff) else s.threads[t].fpos)
    ensures s'.threads[t].ret == if !lockOk then -EINTR
                                 else if ValidPair(Logical(s.ring), cmd, cmdOff) then 0 else -EINVAL
  {
    StoreFacts(s);
    QuietLockFree(s);
    Standstill(s);
    s' := Take(s, s, Label(t, StartSeek(cmd, cmdOff)));
    s' := Take(s, s', Label(t, DownSeek(lockOk)));
    if lockOk {
      s' := Take(s, s', Label(t, Seek));
      s' := Take(s, s', Label(t, UpSeek));
    }
  }

  /** What a read that found n bytes to copy returns. */
  function ReadReturns(n: nat, copyOk: bool): int {
    if n == 0 then 0 else if copyOk then n else -EFAULT
  }

  /** The steps of one read call. */
  lemma ReadRun(s: Sys, t: nat, count: nat, lockOk: bool, copyOk: bool) returns (s': Sys)
    requires Sound(s) && Quiet(s) && t < |s.threads|
    ensures Progress(s, s') && WellFormed(s.ring)
    ensures var fpos := s.threads[t].fpos;
            OnlyMoves(s, s', t, if lockOk && copyOk then fpos + ReadLength(Logical(s.ring), fpos, count) else fpos)
    ensures s'.threads[t].ret == if count == 0 then 0 else if !lockOk then -ERESTARTSYS
                                 else ReadReturns(ReadLength(Logical(s.ring), s.threads[t].fpos, count), copyOk)
  {
    StoreFacts(s);
    PosOfInvertsLocate(Logical(s.ring), s.threads[t].fpos);
    Standstill(s);
    s' := Take(s, s, Label(t, StartRead(count)));
    if count > 0 {
      QuietLockFree(s);
      s' := Take(s, s', Label(t, DownRead(lockOk)));
      if lockOk {
        s' := LockedReadRun(s, s', t, copyOk);
      }
    }
  }

  lemma FindRun(s0: Sys, s: Sys, t: nat) returns (s': Sys)
    requires Progress(s0, s) && At(s, t, RFind) && WellFormed(s.ring) && s.threads[t].count > 0
    ensures Progress(s0, s') && |s'.threads| == |s.threads| && s' == Put(s, t, s'.threads[t])
    ensures var th, th' := s.threads[t], s'.threads[t];
            && th'.fpos == th.fpos
            && if Locate(Logical(s.ring), th.fpos) == None then th'.pc == RUnlock && th'.ret == 0
               else th'.pc == RCopy && th'.got == [] && th'.want == ReadLength(Logical(s.ring), th.fpos, th.count) > 0
  {
    FindSucceeds(s, t);
    s' := Take(s0, s, Label(t, Find));
  }

  lemma UpReadRun(s0: Sys, s: Sys, t: nat) returns (s': Sys)
    requires Progress(s0, s) && OthersIdle(s, t) && At(s, t, RUnlock)
    ensures Progress(s0, s') && OnlyMoves(s, s', t, s.threads[t].fpos) && s'.threads[t].ret == s.threads[t].ret
  {
    s' := Take(s0, s, Label(t, UpRead));
  }

  lemma LockedReadRun(s0: Sys, s: Sys, t: nat, copyOk: bool) returns (s': Sys)
    requires Progress(s0, s) && OthersIdle(s, t) && At(s, t, RFind) && WellFormed(s.ring) && s.threads[t].count > 0
    ensures Progress(s0, s')
    ensures var fpos := s.threads[t].fpos;
            OnlyMoves(s, s', t,
                      if copyOk then fpos + ReadLength(Logical(s.ring), fpos, s.threads[t].count) else fpos)
    ensures s'.threads[t].ret == ReadReturns(ReadLength(Logical(s.ring), s.threads[t].fpos, s.threads[t].count), copyOk)
  {
    s' := FindRun(s0, s, t);
    if s'.threads[t].pc == RCopy {
      s' := CopyRun(s0, s', t, copyOk);
    }
    s' := UpReadRun(s0, s', t);
  }

  lemma CopyRun(s0: Sys, s: Sys, t: nat, copyOk: bool) returns (s': Sys)
    requires Progress(s0, s) && At(s, t, RCopy) && |s.threads[t].got| <= s.threads[t].want
    ensures Progress(s0, s') && At(s', t, RUnlock) && |s'.threads| == |s.threads|
    ensures s' == Put(s, t, s'.threads[t])
    ensures s'.threads[t].fpos == s.threads[t].fpos + if copyOk then s.threads[t].want else 0
    ensures s'.threads[t].ret == if copyOk then s.threads[t].want else -EFAULT
  {
    s' := s;
    if copyOk {
      s' := CopyAll(s0, s', t);
    }
    s' := Take(s0, s', Label(t, CopyToUser(copyOk)));
  }

  lemma FindSucceeds(s: Sys, t: nat)
    requires Sound(s) && t < |s.threads|
    ensures WellFormed(s.ring)
    ensures var th := s.threads[t];
            var n := ReadLength(Logical(s.ring), th.fpos, th.count);
            && |FindStep(s, t).threads| == |s.threads|
            && var th' := FindStep(s, t).threads[t];
               && FindStep(s, t) == Put(s, t, th')
               && th'.fpos == th.fpos
               && if Locate(Logical(s.ring), th.fpos) == None then th'.pc == RUnlock && th'.ret == 0
                  else th'.pc == RCopy && th'.got == [] && th'.want == n && (th.count > 0 ==> n > 0)
  {
    StoreFacts(s);
    LogicalEntriesOk(s);
    PosOfInvertsLocate(Logical(s.ring), s.threads[t].fpos);
  }

  /** The byte steps of one copy_to_user. */
  lemma CopyAll(s0: Sys, s: Sys, t: nat) returns (s': Sys)
    requires Progress(s0, s) && t < |s.threads| && s.threads[t].pc == RCopy
    requires |s.threads[t].got| <= s.threads[t].want
    ensures Progress(s0, s') && |s'.threads| == |s.threads|
    ensures var th := s.threads[t];
            && s' == Put(s, t, th.(got := s'.threads[t].got))
            && |s'.threads[t].got| == th.want
    decreases s.threads[t].want - |s.threads[t].got|
  {
    s' := s;
    if |s.threads[t].got| < s.threads[t].want {
      ReaderFacts(s, t);
      s' := Take(s0, s, Label(t, CopyByte));
      s' := CopyAll(s0, s', t);
    }
  }

  lemma ReaderFacts(s: Sys, t: nat)
    requires Sound(s) && t < |s.threads| && s.threads[t].pc == RCopy && |s.threads[t].got| < s.threads[t].want
    ensures !CopyByteStep(s, t).fault
  {
    var m :| RunsTo(InitSys(MAX_WRITE_OPERATIONS, m), s);
    ReachableInv(s, MAX_WRITE_OPERATIONS, m);
    assert ThreadInv(s, t);
    CopyByteReads(s, t);
  }
}
