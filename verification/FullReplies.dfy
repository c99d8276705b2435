/**
 Replies are whole: a client cannot leave a reply before end of file unless one of its reads failed, and
 over every schedule it takes the read lock once for each packet it has handled.
 */
module FullReplies {
  import opened Base
  import opened Driver
  import opened DriverTheorems
  import opened WriteLog
  import opened ServerKernel
  import opened Server
  import opened ServerInvariant
  import opened Replies

  // ---------------------------------------------------------------- to end of file

  /** The two ways a read of client c can fail. */
  predicate ReadFails(t: Turn, c: nat) {
    t == Turn(c, Kernel(DownRead(false))) || t == Turn(c, Kernel(CopyToUser(false)))
  }

  predicate ReadsSucceed(ts: seq<Turn>, c: nat) {
    forall i :: 0 <= i < |ts| ==> !ReadFails(ts[i], c)
  }

  /** No read of the reply has failed, and it is over only at end of file. */
  predicate Unbroken(cn: Conn, th: Thread) {
    && (cn.phase == InRead && th.pc in {Idle, RUnlock} ==> th.ret >= 0)
    && (cn.phase == Replied ==> cn.complete)
  }

  /** The reply after d packets, from position p of the text of this order, if the client is still in it. */
  predicate InTheReply(s: State, c: nat, d: nat, p: nat, order: seq<Write>)
    requires c < |s.conns| == |s.k.threads|
  {
    var cn := s.conns[c];
    && |cn.done| >= d
    && (|cn.done| == d ==>
          if HoldsRd(cn.phase) then cn.start == p && s.order == order && Unbroken(cn, s.k.threads[c])
          else cn.phase != ReplyWait)
  }

  lemma ReadStepUnbroken(s: State, c: nat, a: Action, packets: seq<seq<seq<byte>>>, seek: SeekTest)
    requires ServerInv(s, packets, seek) && CanMove(s, c, Kernel(a), seek) && !ReadFails(Turn(c, Kernel(a)), c)
    requires HoldsRd(s.conns[c].phase) && Unbroken(s.conns[c], s.k.threads[c])
    ensures var k' := Apply(s.k, Label(c, a));
            |k'.threads| == |s.k.threads| && Unbroken(s.conns[c], k'.threads[c])
  {
    InsideNotIdle(s.k, Label(c, a));
    InsideCall(s, c, packets, seek);
    StepFrame(s.k, Label(c, a));
    if a.Find? { FoundText(s.k, c); }
  }

  lemma MoveInTheReply(s: State, t: Turn, c: nat, d: nat, p: nat, order: seq<Write>,
                       packets: seq<seq<seq<byte>>>, seek: SeekTest)
    requires ServerInv(s, packets, seek) && CanMove(s, t.c, t.m, seek) && c < |s.conns|
    requires InTheReply(s, c, d, p, order) && !ReadFails(t, c)
    ensures var s' := Moved(s, t.c, t.m, seek);
            c < |s'.conns| == |s'.k.threads| && InTheReply(s', c, d, p, order)
  {
    MoveFrame(s, t.c, t.m, seek);
    assert HoldsRd(s.conns[c].phase) <==> c in s.lock.readers;
    if HoldsRd(s.conns[c].phase) && t != Turn(c, RdUnlock) { MovePins(s, t.c, t.m, c, packets, seek); }
    if t.c == c && t.m.Kernel? && HoldsRd(s.conns[c].phase) && |s.conns[c].done| == d {
      ReadStepUnbroken(s, c, t.m.a, packets, seek);
    }
  }

  lemma {:induction false} PlayInTheReply(s: State, ts: seq<Turn>, s': State, c: nat, d: nat, p: nat, order: seq<Write>,
                                          packets: seq<seq<seq<byte>>>, seek: SeekTest)
    requires ServerInv(s, packets, seek) && Play(s, ts, seek) == Some(s') && c < |s.conns|
    requires InTheReply(s, c, d, p, order) && ReadsSucceed(ts, c)
    ensures c < |s'.conns| == |s'.k.threads| && InTheReply(s', c, d, p, order)
  {
    if ts != [] {
      var t, mid := ts[|ts| - 1], Play(s, ts[..|ts| - 1], seek).value;
      PlayInTheReply(s, ts[..|ts| - 1], mid, c, d, p, order, packets, seek);
      PlayKeepsInv(s, ts[..|ts| - 1], mid, packets, seek);
      MoveInTheReply(mid, t, c, d, p, order, packets, seek);
    }
  }

  /** A client that can drop the read lock, no read having failed, has sent everything from its start on. */
  lemma WholeReply(s: State, ts: seq<Turn>, s': State, c: nat, packets: seq<seq<seq<byte>>>, seek: SeekTest)
    requires ServerInv(s, packets, seek) && CanMove(s, c, RdLock, seek)
    requires Play(Moved(s, c, RdLock, seek), ts, seek) == Some(s') && ReadsSucceed(ts, c)
    requires c < |s'.conns| && |s'.conns[c].done| == |s.conns[c].done| && CanMove(s', c, RdUnlock, seek)
    ensures s'.order == s.order && s'.conns[c].start == s.k.threads[c].fpos
    ensures s'.conns[c].reply == From(OrderText(s.order), s.k.threads[c].fpos)
  {
    var s1 := Moved(s, c, RdLock, seek);
    EveryMoveKeepsInv(s, c, RdLock, packets, seek);
    PlayInTheReply(s1, ts, s', c, |s.conns[c].done|, s.k.threads[c].fpos, s.order, packets, seek);
    PlayKeepsInv(s1, ts, s', packets, seek);
    ReplySends(s', c, packets, seek);
  }

  // ---------------------------------------------------------------- one reply for each packet

  /** How often turn t was taken. */
  function Count(ts: seq<Turn>, t: Turn): nat {
    if ts == [] then 0 else Count(ts[..|ts| - 1], t) + if ts[|ts| - 1] == t then 1 else 0
  }

  /** One, if it holds. */
  function Of(b: bool): nat {
    if b then 1 else 0
  }

  /** The turns of a client, by the packets it has handled and where it stands. */
  predicate TurnsOk(ts: seq<Turn>, c: nat, cn: Conn, seek: SeekTest) {
    var commands := |cn.done| - |Ordinary(cn.done, seek)|;
    && Count(ts, Turn(c, WrLock)) == |cn.done| + Of(HoldsWr(cn.phase))
    && Count(ts, Turn(c, IssueSeek)) == commands + Of(cn.phase == Sought)
    && Count(ts, Turn(c, WrUnlock)) == |cn.done|
    && Count(ts, Turn(c, RdLock)) == |cn.done| - Of(cn.phase == ReplyWait)
    && Count(ts, Turn(c, RdUnlock)) == |cn.done| - Of(cn.phase == ReplyWait || HoldsRd(cn.phase))
  }

  /** How a client's own move changes its phase and what it has handled. */
  predicate Shape(cn: Conn, cn': Conn, m: Move, seek: SeekTest) {
    match m
    case WrLock => cn.phase == Ready && cn'.phase in {Writing, Seeking} && cn'.done == cn.done
    case IssueSeek => cn.phase == Seeking && cn'.phase == Sought && cn'.done == cn.done
    case WrUnlock =>
      && cn.phase in {Writing, Sought} && (cn.phase == Sought <==> seek(cn.packet) != None)
      && cn'.phase == ReplyWait && cn'.done == cn.done + [cn.packet]
    case RdLock => cn.phase == ReplyWait && cn'.phase == Replying && cn'.done == cn.done
    case RdUnlock => cn.phase == Replied && cn'.phase == Ready && cn'.done == cn.done
    case SendPiece(_) => cn.phase == cn'.phase == Writing && cn'.done == cn.done
    case IssueRead(_) => HoldsRd(cn.phase) && HoldsRd(cn'.phase) && cn'.done == cn.done
    case TakeRead => HoldsRd(cn.phase) && HoldsRd(cn'.phase) && cn'.done == cn.done
    case Kernel(_) => cn' == cn
  }

  lemma MoveShape(s: State, c: nat, m: Move, packets: seq<seq<seq<byte>>>, seek: SeekTest)
    requires ServerInv(s, packets, seek) && CanMove(s, c, m, seek)
    ensures var s' := Moved(s, c, m, seek);
            c < |s'.conns| && Shape(s.conns[c], s'.conns[c], m, seek)
  {
    assert ConnInv(s, c, packets[c], seek);
  }

  lemma ShapeTurns(ts: seq<Turn>, c: nat, m: Move, cn: Conn, cn': Conn, seek: SeekTest)
    requires ts != [] && ts[|ts| - 1] == Turn(c, m) && Shape(cn, cn', m, seek)
    requires TurnsOk(ts[..|ts| - 1], c, cn, seek)
    ensures TurnsOk(ts, c, cn', seek)
  {
    if m == WrUnlock { OrdinarySnoc(cn.done, cn.packet, seek); }
  }

  lemma MoveTurns(ts: seq<Turn>, s: State, c: nat, packets: seq<seq<seq<byte>>>, seek: SeekTest)
    requires ts != [] && ServerInv(s, packets, seek) && c < |s.conns|
    requires var t := ts[|ts| - 1]; CanMove(s, t.c, t.m, seek)
    requires TurnsOk(ts[..|ts| - 1], c, s.conns[c], seek)
    ensures var t := ts[|ts| - 1];
            var s' := Moved(s, t.c, t.m, seek);
            c < |s'.conns| && TurnsOk(ts, c, s'.conns[c], seek)
  {
    var t := ts[|ts| - 1];
    MoveFrame(s, t.c, t.m, seek);
    if t.c == c {
      MoveShape(s, c, t.m, packets, seek);
      ShapeTurns(ts, c, t.m, s.conns[c], Moved(s, c, t.m, seek).conns[c], seek);
    }
  }

  lemma {:induction false} ScheduleTurns(packets: seq<seq<seq<byte>>>, ts: seq<Turn>, s: State, c: nat, seek: SeekTest)
    requires forall c :: 0 <= c < |packets| ==> AllPackets(packets[c])
    requires Play(InitState(packets), ts, seek) == Some(s) && c < |packets|
    ensures c < |s.conns| && TurnsOk(ts, c, s.conns[c], seek)
  {
    if ts != [] {
      var ts0 := ts[..|ts| - 1];
      var mid := Play(InitState(packets), ts0, seek).value;
      ScheduleTurns(packets, ts0, mid, c, seek);
      ScheduleKeepsInv(packets, ts0, seek);
      MoveTurns(ts, mid, c, packets, seek);
    }
  }
}
