/**
 From socket bytes to device reads: what holds in every state of every schedule of any number of
 clients, however their streams were cut into chunks and their packets into writes.
 */
module EndToEnd {
  import opened Base
  import opened Rings
  import opened PacketStream
  import opened WriteLog
  import opened Driver
  import opened DriverInvariant
  import opened DriverTheorems
  import opened Runs
  import opened ServerKernel
  import opened Server
  import opened ServerInvariant
  import opened ServerProgress
  import opened Replies
  import opened SeekCommands
  import opened FullReplies

  /** The packets process_client cuts out of each client's chunks. */
  function PacketsOf(chunks: seq<seq<seq<byte>>>): (packets: seq<seq<seq<byte>>>)
    ensures |packets| == |chunks|
  {
    seq(|chunks|, c requires 0 <= c < |chunks| => Packets(Flat(chunks[c])))
  }

  /** s is a state of some schedule of clients that receive these chunks. */
  ghost predicate Occurs(s: State, chunks: seq<seq<seq<byte>>>, seek: SeekTest) {
    exists ts :: Play(InitState(PacketsOf(chunks)), ts, seek) == Some(s)
  }

  lemma OccursInv(s: State, chunks: seq<seq<seq<byte>>>, seek: SeekTest)
    requires Occurs(s, chunks, seek)
    ensures ServerInv(s, PacketsOf(chunks), seek)
  {
    var ts :| Play(InitState(PacketsOf(chunks)), ts, seek) == Some(s);
    forall c | 0 <= c < |chunks| ensures AllPackets(PacketsOf(chunks)[c]) {
      PacketsArePackets(Flat(chunks[c]));
    }
    ScheduleKeepsInv(PacketsOf(chunks), ts, seek);
  }

  /** Without a writing client the kernel's write lock can only be held by nobody. */
  lemma NoKernelWriter(s: State, chunks: seq<seq<seq<byte>>>, seek: SeekTest)
    requires Occurs(s, chunks, seek) && s.lock.writer == None
    ensures Sound(s.k) && s.k.lock.writer == None
  {
    OccursInv(s, chunks, seek);
    TextOfDevice(s.k);
    assert s.k.lock.writer.Some? ==> HoldsWrite(s.k.threads[s.k.lock.writer.value].pc);
    forall t | 0 <= t < |s.k.threads| ensures !HoldsWrite(s.k.threads[t].pc) {
      assert ConnInv(s, t, PacketsOf(chunks)[t], seek);
      assert HoldsWr(s.conns[t].phase) <==> s.lock.writer == Some(t);
    }
  }

  /**
   Whole and unmixed: whenever no client holds the write lock, the device retains exactly the last ten
   ordinary packets in the order their writers took the lock, and temp_entry is empty.
   */
  lemma DeviceHoldsWholePackets(s: State, chunks: seq<seq<seq<byte>>>, seek: SeekTest)
    requires Occurs(s, chunks, seek) && s.lock.writer == None
    ensures WellFormed(s.k.ring)
    ensures Contents(s.k) == LastN(Data(s.order), MAX_WRITE_OPERATIONS)
    ensures s.k.temp == NULL_ENTRY
  {
    OccursInv(s, chunks, seek);
    NoKernelWriter(s, chunks, seek);
    var m :| RunsTo(InitSys(MAX_WRITE_OPERATIONS, m), s.k);
    DeviceReplaysAcceptedWrites(s.k, MAX_WRITE_OPERATIONS, m);
    StoreFacts(s.k);
  }

  /** At any time, even in the middle of a write, only whole packets of the order are committed. */
  lemma OnlyWholePacketsCommitted(s: State, chunks: seq<seq<seq<byte>>>, seek: SeekTest)
    requires Occurs(s, chunks, seek)
    ensures !s.k.fault
    ensures var log := Replay(s.k.writes).log;
            log == Data(s.order) || (s.order != [] && log == Data(s.order[..|s.order| - 1]))
  {
    OccursInv(s, chunks, seek);
    StoreFacts(s.k);
  }

  /**
   Each client's part of the order is its own packets in stream order, seek commands left out, as far
   as it got; every entry of the order belongs to some client.
   */
  lemma OrderFollowsEveryStream(s: State, chunks: seq<seq<seq<byte>>>, seek: SeekTest, c: nat)
    requires Occurs(s, chunks, seek) && c < |chunks|
    ensures c < |s.conns|
    ensures var cn := s.conns[c];
            && Packets(Flat(chunks[c])) == cn.done + InHand(cn) + cn.todo
            && By(s.order, c) == Ordinary(cn.done + InHand(cn), seek)
    ensures forall i :: 0 <= i < |s.order| ==> s.order[i].author < |chunks| && seek(s.order[i].data) == None
  {
    OccursInv(s, chunks, seek);
    assert ConnInv(s, c, PacketsOf(chunks)[c], seek);
    forall i | 0 <= i < |s.order| ensures seek(s.order[i].data) == None {
      var a := s.order[i].author;
      assert ConnInv(s, a, PacketsOf(chunks)[a], seek);
      ByAuthor(s.order, i);
      OrdinaryExactly(s.conns[a].done + InHand(s.conns[a]), s.order[i].data, seek);
    }
  }

  lemma FinishedLockFree(s: State)
    requires LocksInv(s) && Finished(s)
    ensures LockFree(s.lock)
  {
    forall c | 0 <= c < |s.conns| ensures s.lock.writer != Some(c) && c !in s.lock.readers {
      assert s.conns[c].phase == Ready;
    }
    assert s.lock.readers == {};
  }

  /**
   End to end: when all clients are done, the device retains the last ten entries of an interleaving
   of the clients' packets, each client's in stream order, whatever the chunks, writes and schedule.
   */
  lemma StreamsReachTheDevice(s: State, chunks: seq<seq<seq<byte>>>, seek: SeekTest)
    requires Occurs(s, chunks, seek) && Finished(s)
    ensures WellFormed(s.k.ring) && Contents(s.k) == LastN(Data(s.order), MAX_WRITE_OPERATIONS)
    ensures forall c :: 0 <= c < |chunks| ==> By(s.order, c) == Ordinary(Packets(Flat(chunks[c])), seek)
    ensures forall i :: 0 <= i < |s.order| ==> s.order[i].author < |chunks|
  {
    OccursInv(s, chunks, seek);
    FinishedLockFree(s);
    DeviceHoldsWholePackets(s, chunks, seek);
    forall c | 0 <= c < |chunks| ensures By(s.order, c) == Ordinary(Packets(Flat(chunks[c])), seek) {
      OrderFollowsEveryStream(s, chunks, seek, c);
      var cn := s.conns[c];
      assert cn.done + InHand(cn) + cn.todo == cn.done == cn.done + InHand(cn);
    }
  }

  lemma OccursLater(s: State, ts: seq<Turn>, s': State, chunks: seq<seq<seq<byte>>>, seek: SeekTest)
    requires Occurs(s, chunks, seek) && Play(s, ts, seek) == Some(s')
    ensures Occurs(s', chunks, seek)
  {
    var ts0 :| Play(InitState(PacketsOf(chunks)), ts0, seek) == Some(s);
    PlayAppend(InitState(PacketsOf(chunks)), ts0, ts, seek);
  }

  // ---------------------------------------------------------------- replies

  /**
   While some client keeps its read lock, whatever all the others do for however long, the device and
   the order stay as they are: the reads of one reply come from one snapshot of whole packets.
   */
  lemma RepliesPinTheDevice(s: State, ts: seq<Turn>, s': State, chunks: seq<seq<seq<byte>>>, seek: SeekTest, r: nat)
    requires Occurs(s, chunks, seek) && Play(s, ts, seek) == Some(s')
    requires r in s.lock.readers && KeepsLock(ts, r)
    ensures WellFormed(s.k.ring) && WellFormed(s'.k.ring) && Contents(s'.k) == Contents(s.k)
    ensures s'.k.temp == s.k.temp == NULL_ENTRY
    ensures s'.order == s.order && r in s'.lock.readers
  {
    OccursInv(s, chunks, seek);
    PlayPins(s, ts, s', r, PacketsOf(chunks), seek);
    OccursLater(s, ts, s', chunks, seek);
    OccursInv(s', chunks, seek);
    DeviceHoldsWholePackets(s, chunks, seek);
    DeviceHoldsWholePackets(s', chunks, seek);
  }

  /**
   At every moment of a reply, in progress, ended by an error or complete, what has been sent is the
   text of the retained whole packets from the reply's start on, as far as it got; all of it when the
   reply ran to end of file.
   */
  lemma ReplyIsASnapshot(s: State, chunks: seq<seq<seq<byte>>>, seek: SeekTest, c: nat)
    requires Occurs(s, chunks, seek) && c < |s.conns| && HoldsRd(s.conns[c].phase)
    ensures RepliesFrom(s.conns[c], From(Flat(LastN(Data(s.order), MAX_WRITE_OPERATIONS)), s.conns[c].start))
  {
    OccursInv(s, chunks, seek);
    ReplySends(s, c, PacketsOf(chunks), seek);
  }

  /**
   A reply none of whose reads fails cannot be left before it has sent everything: from the moment the
   client takes the read lock, over every schedule, once it can drop it again it has sent exactly the
   text that the device held, from its position to the end.
   */
  lemma EveryReplyRunsToTheEnd(s: State, ts: seq<Turn>, s': State, chunks: seq<seq<seq<byte>>>, seek: SeekTest, c: nat)
    requires Occurs(s, chunks, seek) && CanMove(s, c, RdLock, seek)
    requires Play(s, [Turn(c, RdLock)] + ts, seek) == Some(s') && ReadsSucceed(ts, c)
    requires c < |s'.conns| && |s'.conns[c].done| == |s.conns[c].done| && CanMove(s', c, RdUnlock, seek)
    ensures s'.order == s.order && c < |s.k.threads|
    ensures s'.conns[c].reply == From(Flat(LastN(Data(s.order), MAX_WRITE_OPERATIONS)), s.k.threads[c].fpos)
  {
    OccursInv(s, chunks, seek);
    PlayFirst(s, Turn(c, RdLock), ts, seek);
    WholeReply(s, ts, s', c, PacketsOf(chunks), seek);
  }

  /**
   Over every schedule each client takes and drops the read lock once for every packet it has handled,
   and issues one seek for every command among them; so when it is done it has replied to each packet of
   its stream.
   */
  lemma OneReplyForEachPacket(ts: seq<Turn>, s: State, chunks: seq<seq<seq<byte>>>, seek: SeekTest, c: nat)
    requires Play(InitState(PacketsOf(chunks)), ts, seek) == Some(s) && c < |chunks|
    ensures c < |s.conns|
    ensures var cn := s.conns[c];
            && Count(ts, Turn(c, RdLock)) == |cn.done| - Of(cn.phase == ReplyWait)
            && Count(ts, Turn(c, RdUnlock)) == |cn.done| - Of(cn.phase == ReplyWait || HoldsRd(cn.phase))
            && Count(ts, Turn(c, IssueSeek)) == |cn.done| - |Ordinary(cn.done, seek)| + Of(cn.phase == Sought)
    ensures Finished(s) ==>
              var packets := Packets(Flat(chunks[c]));
              && Count(ts, Turn(c, RdLock)) == Count(ts, Turn(c, RdUnlock)) == |packets|
              && Count(ts, Turn(c, IssueSeek)) == |packets| - |Ordinary(packets, seek)|
  {
    forall c | 0 <= c < |chunks| ensures AllPackets(PacketsOf(chunks)[c]) {
      PacketsArePackets(Flat(chunks[c]));
    }
    ScheduleTurns(PacketsOf(chunks), ts, s, c, seek);
    assert Occurs(s, chunks, seek);
    OrderFollowsEveryStream(s, chunks, seek, c);
    if Finished(s) {
      var cn := s.conns[c];
      assert cn.done + InHand(cn) + cn.todo == cn.done;
    }
  }

  /** In s', client c is in the reply to the packet that follows those it had handled in s. */
  predicate InNextReply(s: State, s': State, c: nat) {
    && c < |s.conns| && c < |s'.conns| && HoldsRd(s'.conns[c].phase)
    && |s'.conns[c].done| == |s.conns[c].done| + 1
  }

  /** From a position carried to a reply, with this text ahead of it, to what that reply sends. */
  lemma CarriedReply(s: State, ts: seq<Turn>, s': State, c: nat, p: nat, ahead: seq<byte>,
                     packets: seq<seq<seq<byte>>>, seek: SeekTest)
    requires ServerInv(s, packets, seek) && c < |s.conns| && Play(s, ts, seek) == Some(s')
    requires p <= |OrderText(s.order)| && ahead == From(OrderText(s.order), p)
    requires Carries(s.conns[c], s.k.threads[c], |s.conns[c].done|, p, packets[c], seek)
    requires InNextReply(s, s', c)
    ensures s.order <= s'.order && s'.conns[c].start == p
    ensures SendsOn(s'.conns[c], ahead, s.order, s'.order)
  {
    PlayCarries(s, ts, s', c, |s.conns[c].done|, p, packets, seek);
    PlayKeepsInv(s, ts, s', packets, seek);
    PlayExtendsOrder(s, ts, s', seek);
    ReplySendsOn(s', c, s.order, ahead, packets, seek);
  }

  /**
   The reply to a seek command that names an existing byte of a retained packet, whatever happens between
   the moment its client takes the write lock with it and the reply.  The write lock is dropped before the
   read lock is taken, so others may commit in between; the reply sends the named packet from the named
   byte on, the later packets and what was committed since, exactly when nothing was evicted in between;
   otherwise it misses as many bytes of that as were evicted.
   */
  lemma SeekReplyStartsAtTheNamedByte(s: State, ts: seq<Turn>, s': State, chunks: seq<seq<seq<byte>>>, seek: SeekTest,
                                      c: nat, cmd: nat, off: nat)
    requires Occurs(s, chunks, seek) && CanMove(s, c, WrLock, seek)
    requires seek(s.conns[c].todo[0]) == Some((cmd, off)) && Names(Data(s.order), cmd, off)
    requires Play(s, [Turn(c, WrLock)] + ts, seek) == Some(s') && !Interrupted(ts, c) && InNextReply(s, s', c)
    ensures s.order <= s'.order && s'.conns[c].start == NamedPos(Data(s.order), cmd, off)
    ensures SendsOn(s'.conns[c], NamedText(Data(s.order), cmd, off), s.order, s'.order)
  {
    OccursInv(s, chunks, seek);
    PlayFirst(s, Turn(c, WrLock), ts, seek);
    CommandReplyStarts(s, ts, s', c, cmd, off, PacketsOf(chunks), seek);
    NamedIsAhead(Data(s.order), cmd, off);
    PlayKeepsInv(s, [Turn(c, WrLock)] + ts, s', PacketsOf(chunks), seek);
    PlayExtendsOrder(s, [Turn(c, WrLock)] + ts, s', seek);
    ReplySendsOn(s', c, s.order, NamedText(Data(s.order), cmd, off), PacketsOf(chunks), seek);
  }

  /** A seek command that names no byte, or whose seek is interrupted, leaves the position; its reply starts there. */
  lemma RejectedSeekKeepsThePosition(s: State, ts: seq<Turn>, s': State, chunks: seq<seq<seq<byte>>>, seek: SeekTest,
                                     c: nat, cmd: nat, off: nat)
    requires Occurs(s, chunks, seek) && CanMove(s, c, WrLock, seek)
    requires seek(s.conns[c].todo[0]) == Some((cmd, off))
    requires Play(s, [Turn(c, WrLock)] + ts, seek) == Some(s') && InNextReply(s, s', c)
    requires !Names(Data(s.order), cmd, off) || Interrupted(ts, c)
    ensures c < |s.k.threads| && s'.conns[c].start == s.k.threads[c].fpos
  {
    OccursInv(s, chunks, seek);
    PlayFirst(s, Turn(c, WrLock), ts, seek);
    CommandReplyStarts(s, ts, s', c, cmd, off, PacketsOf(chunks), seek);
  }

  /** The reply to a first packet that is ordinary starts at the beginning of the text. */
  lemma FirstReplyStartsAtZero(s: State, chunks: seq<seq<seq<byte>>>, seek: SeekTest, c: nat)
    requires Occurs(s, chunks, seek) && c < |s.conns| == |chunks| && HoldsRd(s.conns[c].phase) && |s.conns[c].done| == 1
    requires seek(s.conns[c].done[0]) == None
    ensures s.conns[c].start == 0
    ensures RepliesFrom(s.conns[c], Flat(LastN(Data(s.order), MAX_WRITE_OPERATIONS)))
  {
    OrderFollowsEveryStream(s, chunks, seek, c);
    ReplyIsASnapshot(s, chunks, seek, c);
    var ts :| Play(InitState(PacketsOf(chunks)), ts, seek) == Some(s);
    InitOccurs(chunks, seek);
    assert PacketsOf(chunks)[c][0] == s.conns[c].done[0];
    PlayCarries(InitState(PacketsOf(chunks)), ts, s, c, 0, 0, PacketsOf(chunks), seek);
  }

  lemma InitOccurs(chunks: seq<seq<seq<byte>>>, seek: SeekTest)
    ensures ServerInv(InitState(PacketsOf(chunks)), PacketsOf(chunks), seek)
  {
    assert Play(InitState(PacketsOf(chunks)), [], seek) == Some(InitState(PacketsOf(chunks)));
    OccursInv(InitState(PacketsOf(chunks)), chunks, seek);
  }

  /**
   Successive replies to ordinary packets: the next reply starts where this one ended, and sends what
   this one left unsent, nothing when it ran to end of file, followed by what was committed since,
   exactly when nothing was evicted in between; otherwise it misses as many bytes of that as were
   evicted.
   */
  lemma NextReplyGoesOn(s: State, ts: seq<Turn>, s': State, chunks: seq<seq<seq<byte>>>, seek: SeekTest, c: nat)
    requires Occurs(s, chunks, seek) && c < |s.conns| && s.conns[c].phase == Replied
    requires s.conns[c].todo != [] && seek(s.conns[c].todo[0]) == None
    requires Play(s, ts, seek) == Some(s')
    requires InNextReply(s, s', c)
    ensures s.order <= s'.order && s'.conns[c].start == s.conns[c].start + |s.conns[c].reply|
    ensures s.conns[c].start <= |OrderText(s.order)| ==>
              var left := From(OrderText(s.order), s'.conns[c].start);
              && (s.conns[c].complete ==> left == [])
              && SendsOn(s'.conns[c], left, s.order, s'.order)
  {
    OccursInv(s, chunks, seek);
    var cn := s.conns[c];
    var p := cn.start + |cn.reply|;
    ReplySends(s, c, PacketsOf(chunks), seek);
    ReplyCarries(s, c, PacketsOf(chunks), seek);
    PlayCarries(s, ts, s', c, |cn.done|, p, PacketsOf(chunks), seek);
    PlayExtendsOrder(s, ts, s', seek);
    if cn.start <= |OrderText(s.order)| {
      CarriedReply(s, ts, s', c, p, From(OrderText(s.order), p), PacketsOf(chunks), seek);
    }
  }

  // ---------------------------------------------------------------- every schedule ends, and ends well

  /** No schedule runs for ever: of any endless sequence of turns only finitely many can be taken. */
  lemma EveryScheduleEnds(s: State, turns: nat -> Turn, chunks: seq<seq<seq<byte>>>, seek: SeekTest) returns (n: nat)
    requires Occurs(s, chunks, seek)
    ensures Play(s, First(turns, n), seek) == None
  {
    OccursInv(s, chunks, seek);
    n := NoEndlessSchedule(s, turns, PacketsOf(chunks), seek);
  }

  /**
   Every schedule that cannot be continued, however unfair, has delivered everything: all clients have
   handled their whole streams, and the device retains the last ten entries of an interleaving of the
   packets of all streams.
   */
  lemma EveryMaximalScheduleDelivers(ts: seq<Turn>, s: State, chunks: seq<seq<seq<byte>>>, seek: SeekTest)
    requires Play(InitState(PacketsOf(chunks)), ts, seek) == Some(s) && Stuck(s, seek)
    ensures Finished(s) && !s.k.fault && LockFree(s.lock)
    ensures WellFormed(s.k.ring) && Contents(s.k) == LastN(Data(s.order), MAX_WRITE_OPERATIONS)
    ensures |s.conns| == |chunks|
    ensures forall c :: 0 <= c < |chunks| ==>
              && s.conns[c].done == Packets(Flat(chunks[c]))
              && By(s.order, c) == Ordinary(Packets(Flat(chunks[c])), seek)
    ensures forall i :: 0 <= i < |s.order| ==> s.order[i].author < |chunks|
  {
    assert Occurs(s, chunks, seek);
    OccursInv(s, chunks, seek);
    StuckIffFinished(s, PacketsOf(chunks), seek);
    StreamsReachTheDevice(s, chunks, seek);
    OnlyWholePacketsCommitted(s, chunks, seek);
    FinishedLockFree(s);
    forall c | 0 <= c < |chunks| ensures s.conns[c].done == Packets(Flat(chunks[c])) {
      OrderFollowsEveryStream(s, chunks, seek, c);
      var cn := s.conns[c];
      assert cn.done + InHand(cn) + cn.todo == cn.done;
    }
  }

  /** Every state of every schedule can be played on to such an end. */
  lemma EverySituationCanFinish(s: State, chunks: seq<seq<seq<byte>>>, seek: SeekTest)
    returns (ts: seq<Turn>, s': State)
    requires Occurs(s, chunks, seek)
    ensures Play(s, ts, seek) == Some(s') && Stuck(s', seek) && Finished(s') && Occurs(s', chunks, seek)
  {
    OccursInv(s, chunks, seek);
    ts, s' := CanFinish(s, PacketsOf(chunks), seek);
    OccursLater(s, ts, s', chunks, seek);
  }
}
