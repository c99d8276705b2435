/**
 Seek commands over schedules: from the moment a client takes the write lock with such a packet to the
 reply, whatever the others do, the position becomes the named byte when that exists, and is kept when it
 does not or when the wait for the driver's semaphore was interrupted.
 */
module SeekCommands {
  import opened Base
  import opened Rings
  import opened WriteLog
  import opened Driver
  import opened DriverInvariant
  import opened DriverTheorems
  import opened Positions
  import opened Runs
  import opened Server
  import opened ServerInvariant
  import opened Replies

  // ---------------------------------------------------------------- the named byte

  /** Byte off of retained entry cmd exists. */
  predicate Names(log: seq<seq<byte>>, cmd: nat, off: nat) {
    var es := LastN(log, MAX_WRITE_OPERATIONS);
    cmd < |es| && off < |es[cmd]|
  }

  /** The position of that byte. */
  function NamedPos(log: seq<seq<byte>>, cmd: nat, off: nat): nat
    requires Names(log, cmd, off)
  {
    |Flat(LastN(log, MAX_WRITE_OPERATIONS)[..cmd])| + off
  }

  /** The rest of that entry, and the later ones. */
  function NamedText(log: seq<seq<byte>>, cmd: nat, off: nat): seq<byte>
    requires Names(log, cmd, off)
  {
    var es := LastN(log, MAX_WRITE_OPERATIONS);
    es[cmd][off..] + Flat(es[cmd + 1..])
  }

  lemma NamedIsAhead(log: seq<seq<byte>>, cmd: nat, off: nat)
    requires Names(log, cmd, off)
    ensures NamedPos(log, cmd, off) <= |Visible(log, MAX_WRITE_OPERATIONS)|
    ensures From(Visible(log, MAX_WRITE_OPERATIONS), NamedPos(log, cmd, off)) == NamedText(log, cmd, off)
  {
    FlatFrom(LastN(log, MAX_WRITE_OPERATIONS), cmd, off);
  }

  /** Where a seek from position p leaves it. */
  function SeekTarget(log: seq<seq<byte>>, cmd: nat, off: nat, p: nat): nat {
    if Names(log, cmd, off) then NamedPos(log, cmd, off) else p
  }

  lemma KernelSeek(k: Sys, t: nat)
    requires Sound(k) && At(k, t, ISeek)
    ensures var th, ths := k.threads[t], SeekStep(k, t).threads;
            && |ths| == |k.threads| && ths[t].pc == IUnlock
            && ths[t].fpos == SeekTarget(Replay(k.writes).log, th.cmd, th.cmdOff, th.fpos)
  {
    StoreFacts(k);
    SeekMoves(k, t);
    RetainedLog(k);
  }

  lemma RetainedLog(k: Sys)
    requires Sound(k)
    ensures WellFormed(k.ring) && Contents(k) == LastN(Replay(k.writes).log, MAX_WRITE_OPERATIONS)
  {
    var m :| RunsTo(InitSys(MAX_WRITE_OPERATIONS, m), k);
    DeviceReplaysAcceptedWrites(k, MAX_WRITE_OPERATIONS, m);
  }

  /** A client whose thread is about to seek: it handles a seek command, and the device holds whole packets. */
  lemma SeekContext(s: State, c: nat, packets: seq<seq<seq<byte>>>, seek: SeekTest)
    requires ServerInv(s, packets, seek) && c < |s.conns| && At(s.k, c, ISeek)
    ensures Sound(s.k) && s.conns[c].phase == Sought && Replay(s.k.writes).log == Data(s.order)
    ensures seek(s.conns[c].packet) == Some((s.k.threads[c].cmd, s.k.threads[c].cmdOff))
    ensures CanMove(s, c, Kernel(Seek), seek)
  {
    assert ConnInv(s, c, packets[c], seek);
    assert HoldsWr(s.conns[c].phase) <==> s.lock.writer == Some(c);
  }

  /** After the seek of a command, successful or not, its client carries the new position to its reply. */
  lemma SeekCarries(s: State, c: nat, packets: seq<seq<seq<byte>>>, seek: SeekTest)
    requires ServerInv(s, packets, seek) && c < |s.conns| && At(s.k, c, ISeek)
    ensures CanMove(s, c, Kernel(Seek), seek)
    ensures var s' := Moved(s, c, Kernel(Seek), seek);
            && |s'.k.threads| == |s.k.threads| && s'.conns == s.conns && s'.order == s.order
            && Carries(s.conns[c], s'.k.threads[c], |s.conns[c].done|,
                       SeekTarget(Data(s.order), s.k.threads[c].cmd, s.k.threads[c].cmdOff, s.k.threads[c].fpos),
                       packets[c], seek)
  {
    SeekContext(s, c, packets, seek);
    KernelSeek(s.k, c);
  }

  // ---------------------------------------------------------------- from the lock to the reply

  /** The turn in which the seek of client c is interrupted. */
  const INTERRUPTED: Move := Kernel(DownSeek(false))

  predicate Interrupted(ts: seq<Turn>, c: nat) {
    exists i :: 0 <= i < |ts| && ts[i] == Turn(c, INTERRUPTED)
  }

  /** Client c handles packet number d, the seek command pk, and its seek has not taken effect. */
  predicate UnderWay(s: State, c: nat, d: nat, p: nat, pk: seq<byte>, order: seq<Write>)
    requires c < |s.conns| == |s.k.threads|
  {
    var cn, th := s.conns[c], s.k.threads[c];
    && |cn.done| == d && cn.packet == pk && th.fpos == p && s.order == order
    && ((cn.phase == Seeking && th.pc == Idle) || (cn.phase == Sought && th.pc in {ILock, ISeek}))
  }

  /** While the seek is under way nobody else can take the lock. */
  lemma OthersWait(s: State, u: nat, m: Move, c: nat, packets: seq<seq<seq<byte>>>, seek: SeekTest)
    requires ServerInv(s, packets, seek) && CanMove(s, u, m, seek) && c < |s.conns| && HoldsWr(s.conns[c].phase) && u != c
    ensures var s' := Moved(s, u, m, seek);
            && |s'.conns| == |s'.k.threads| == |s.conns|
            && s'.order == s.order && s'.conns[c] == s.conns[c] && s'.k.threads[c] == s.k.threads[c]
  {
    assert s.lock.writer == Some(c);
    MoveFrame(s, u, m, seek);
  }

  /** All that the client itself can do meanwhile. */
  lemma UnderWayMoves(s: State, m: Move, c: nat, d: nat, p: nat, pk: seq<byte>, order: seq<Write>, seek: SeekTest)
    requires CanMove(s, c, m, seek) && |s.conns| == |s.k.threads| && UnderWay(s, c, d, p, pk, order)
    ensures m == IssueSeek || m == Kernel(DownSeek(true)) || m == INTERRUPTED || m == Kernel(Seek)
  {
    if m.Kernel? { InsideNotIdle(s.k, Label(c, m.a)); }
  }

  lemma WaitMove(s: State, m: Move, c: nat, d: nat, p: nat, pk: seq<byte>, order: seq<Write>, packets: seq<seq<byte>>,
                 seek: SeekTest)
    requires CanMove(s, c, m, seek) && |s.conns| == |s.k.threads| && UnderWay(s, c, d, p, pk, order)
    requires m == IssueSeek || m == Kernel(DownSeek(true)) || m == INTERRUPTED
    ensures var s' := Moved(s, c, m, seek);
            && |s'.conns| == |s'.k.threads| == |s.conns|
            && if m == INTERRUPTED then Carries(s'.conns[c], s'.k.threads[c], d, p, packets, seek)
               else UnderWay(s', c, d, p, pk, order)
  {
  }

  /** A step of the client itself: closer to the seek, or past it. */
  lemma OwnSeekMove(s: State, m: Move, c: nat, cmd: nat, off: nat, packets: seq<seq<seq<byte>>>, seek: SeekTest)
    requires ServerInv(s, packets, seek) && CanMove(s, c, m, seek)
    requires UnderWay(s, c, |s.conns[c].done|, s.k.threads[c].fpos, s.conns[c].packet, s.order)
    requires seek(s.conns[c].packet) == Some((cmd, off))
    ensures var s', cn, p := Moved(s, c, m, seek), s.conns[c], s.k.threads[c].fpos;
            && |s'.conns| == |s'.k.threads| == |s.conns|
            && if m == INTERRUPTED then Carries(s'.conns[c], s'.k.threads[c], |cn.done|, p, packets[c], seek)
               else || UnderWay(s', c, |cn.done|, p, cn.packet, s.order)
                    || Carries(s'.conns[c], s'.k.threads[c], |cn.done|, SeekTarget(Data(s.order), cmd, off, p), packets[c], seek)
  {
    var cn, p := s.conns[c], s.k.threads[c].fpos;
    UnderWayMoves(s, m, c, |cn.done|, p, cn.packet, s.order, seek);
    if m == Kernel(Seek) {
      SeekContext(s, c, packets, seek);
      SeekCarries(s, c, packets, seek);
    } else {
      WaitMove(s, m, c, |cn.done|, p, cn.packet, s.order, packets[c], seek);
    }
  }

  /** Where the reply to the command will start, as far as the turns so far decide it. */
  function Outcome(ts: seq<Turn>, c: nat, log: seq<seq<byte>>, cmd: nat, off: nat, p: nat): nat {
    if Interrupted(ts, c) then p else SeekTarget(log, cmd, off, p)
  }

  lemma InterruptedSnoc(ts: seq<Turn>, c: nat)
    requires ts != []
    ensures Interrupted(ts, c) <==> Interrupted(ts[..|ts| - 1], c) || ts[|ts| - 1] == Turn(c, INTERRUPTED)
  {
    var ts0 := ts[..|ts| - 1];
    if Interrupted(ts0, c) {
      var i :| 0 <= i < |ts0| && ts0[i] == Turn(c, INTERRUPTED);
      assert ts[i] == Turn(c, INTERRUPTED);
    }
    if Interrupted(ts, c) && ts[|ts| - 1] != Turn(c, INTERRUPTED) {
      var i :| 0 <= i < |ts| && ts[i] == Turn(c, INTERRUPTED);
      assert ts0[i] == Turn(c, INTERRUPTED);
    }
  }

  /** Once past the seek, an interruption can only be that of a later command. */
  lemma LaterInterruption(cn: Conn, th: Thread, d: nat, p: nat, q: nat, packets: seq<seq<byte>>, seek: SeekTest)
    requires CallOk(cn, th) && th.pc == ILock && Carries(cn, th, d, p, packets, seek)
    ensures Carries(cn, th, d, q, packets, seek)
  {
  }

  /** The invariant of the way from the lock to the reply. */
  predicate OnCourse(s: State, c: nat, d: nat, p: nat, pk: seq<byte>, order: seq<Write>, q: nat, open: bool,
                     packets: seq<seq<byte>>, seek: SeekTest)
    requires c < |s.conns| == |s.k.threads|
  {
    || (open && UnderWay(s, c, d, p, pk, order))
    || Carries(s.conns[c], s.k.threads[c], d, q, packets, seek)
  }

  lemma MoveOnCourse(s: State, t: Turn, c: nat, d: nat, p: nat, pk: seq<byte>, order: seq<Write>, cmd: nat, off: nat,
                     open: bool, packets: seq<seq<seq<byte>>>, seek: SeekTest)
    requires ServerInv(s, packets, seek) && CanMove(s, t.c, t.m, seek) && c < |s.conns| && seek(pk) == Some((cmd, off))
    requires OnCourse(s, c, d, p, pk, order, if open then SeekTarget(Data(order), cmd, off, p) else p, open, packets[c], seek)
    ensures var s', open' := Moved(s, t.c, t.m, seek), open && t != Turn(c, INTERRUPTED);
            && c < |s'.conns| == |s'.k.threads|
            && OnCourse(s', c, d, p, pk, order, if open' then SeekTarget(Data(order), cmd, off, p) else p, open', packets[c], seek)
  {
    MoveFrame(s, t.c, t.m, seek);
    var q := if open then SeekTarget(Data(order), cmd, off, p) else p;
    if open && UnderWay(s, c, d, p, pk, order) {
      if t.c == c {
        OwnSeekMove(s, t.m, c, cmd, off, packets, seek);
      } else {
        OthersWait(s, t.c, t.m, c, packets, seek);
      }
    } else {
      if t == Turn(c, INTERRUPTED) {
        assert ConnInv(s, c, packets[c], seek);
        LaterInterruption(s.conns[c], s.k.threads[c], d, q, p, packets[c], seek);
        MoveCarries(s, t.c, t.m, c, d, p, packets, seek);
      } else {
        MoveCarries(s, t.c, t.m, c, d, q, packets, seek);
      }
    }
  }

  lemma {:induction false} PlayOnCourse(s: State, ts: seq<Turn>, s': State, c: nat, cmd: nat, off: nat,
                                        packets: seq<seq<seq<byte>>>, seek: SeekTest)
    requires ServerInv(s, packets, seek) && Play(s, ts, seek) == Some(s') && c < |s.conns|
    requires UnderWay(s, c, |s.conns[c].done|, s.k.threads[c].fpos, s.conns[c].packet, s.order)
    requires seek(s.conns[c].packet) == Some((cmd, off))
    ensures c < |s'.conns| == |s'.k.threads|
    ensures var p := s.k.threads[c].fpos;
            OnCourse(s', c, |s.conns[c].done|, p, s.conns[c].packet, s.order, Outcome(ts, c, Data(s.order), cmd, off, p),
                     !Interrupted(ts, c), packets[c], seek)
  {
    if ts != [] {
      var t, mid := ts[|ts| - 1], Play(s, ts[..|ts| - 1], seek).value;
      PlayOnCourse(s, ts[..|ts| - 1], mid, c, cmd, off, packets, seek);
      PlayKeepsInv(s, ts[..|ts| - 1], mid, packets, seek);
      InterruptedSnoc(ts, c);
      MoveOnCourse(mid, t, c, |s.conns[c].done|, s.k.threads[c].fpos, s.conns[c].packet, s.order, cmd, off,
                   !Interrupted(ts[..|ts| - 1], c), packets, seek);
    }
  }

  /** Taking the lock with a seek command puts its seek under way. */
  lemma LockedCommand(s: State, c: nat, cmd: nat, off: nat, packets: seq<seq<seq<byte>>>, seek: SeekTest)
    requires ServerInv(s, packets, seek) && CanMove(s, c, WrLock, seek) && seek(s.conns[c].todo[0]) == Some((cmd, off))
    ensures var s', cn := Moved(s, c, WrLock, seek), s.conns[c];
            && |s'.conns| == |s'.k.threads| == |s.conns| && s'.conns[c].packet == cn.todo[0]
            && |s'.conns[c].done| == |cn.done| && s'.order == s.order && s'.k == s.k
            && UnderWay(s', c, |cn.done|, s.k.threads[c].fpos, cn.todo[0], s.order)
  {
    assert ConnInv(s, c, packets[c], seek);
  }

  /** The reply to a seek command starts where the seek left the position. */
  lemma CommandReplyStarts(s: State, ts: seq<Turn>, s': State, c: nat, cmd: nat, off: nat,
                           packets: seq<seq<seq<byte>>>, seek: SeekTest)
    requires ServerInv(s, packets, seek) && CanMove(s, c, WrLock, seek) && seek(s.conns[c].todo[0]) == Some((cmd, off))
    requires Play(Moved(s, c, WrLock, seek), ts, seek) == Some(s') && c < |s'.conns|
    requires HoldsRd(s'.conns[c].phase) && |s'.conns[c].done| == |s.conns[c].done| + 1
    ensures s'.conns[c].start == Outcome(ts, c, Data(s.order), cmd, off, s.k.threads[c].fpos)
  {
    LockedCommand(s, c, cmd, off, packets, seek);
    EveryMoveKeepsInv(s, c, WrLock, packets, seek);
    PlayOnCourse(Moved(s, c, WrLock, seek), ts, s', c, cmd, off, packets, seek);
  }
}
