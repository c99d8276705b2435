/**
 Replies over schedules: what a reply pins while it runs, and where it starts.  A client's file position
 is moved only by its own replies and seeks, but the text under it changes between the write lock of its
 packet and the read lock of the reply, because other clients commit and evict in between.
 */
module Replies {
  import opened Base
  import opened Rings
  import opened WriteLog
  import opened Driver
  import opened DriverTheorems
  import opened Positions
  import opened Runs
  import opened Server
  import opened ServerInvariant

  // ---------------------------------------------------------------- schedules

  lemma {:induction false} PlayKeepsInv(s: State, ts: seq<Turn>, s': State, packets: seq<seq<seq<byte>>>, seek: SeekTest)
    requires ServerInv(s, packets, seek) && Play(s, ts, seek) == Some(s')
    ensures ServerInv(s', packets, seek)
  {
    if ts != [] {
      var t, mid := ts[|ts| - 1], Play(s, ts[..|ts| - 1], seek).value;
      PlayKeepsInv(s, ts[..|ts| - 1], mid, packets, seek);
      EveryMoveKeepsInv(mid, t.c, t.m, packets, seek);
    }
  }

  lemma {:induction false} PlayExtendsOrder(s: State, ts: seq<Turn>, s': State, seek: SeekTest)
    requires Play(s, ts, seek) == Some(s')
    ensures s.order <= s'.order
  {
    if ts != [] {
      PlayExtendsOrder(s, ts[..|ts| - 1], Play(s, ts[..|ts| - 1], seek).value, seek);
    }
  }

  // ---------------------------------------------------------------- what a reply pins

  /** r keeps its read lock during these turns. */
  predicate KeepsLock(ts: seq<Turn>, r: nat) {
    forall i :: 0 <= i < |ts| ==> ts[i] != Turn(r, RdUnlock)
  }

  lemma MovePins(s: State, c: nat, m: Move, r: nat, packets: seq<seq<seq<byte>>>, seek: SeekTest)
    requires ServerInv(s, packets, seek) && CanMove(s, c, m, seek)
    requires r in s.lock.readers && Turn(c, m) != Turn(r, RdUnlock)
    ensures var s' := Moved(s, c, m, seek);
            r in s'.lock.readers && s'.k.writes == s.k.writes && s'.order == s.order
  {
    assert HoldsWr(s.conns[c].phase) <==> s.lock.writer == Some(c);
    assert ConnInv(s, c, packets[c], seek);
    if m.Kernel? {
      InsideNotIdle(s.k, Label(c, m.a));
      StepRecordsOwnWrite(s.k, Label(c, m.a));
    }
  }

  lemma {:induction false} PlayPins(s: State, ts: seq<Turn>, s': State, r: nat, packets: seq<seq<seq<byte>>>, seek: SeekTest)
    requires ServerInv(s, packets, seek) && Play(s, ts, seek) == Some(s')
    requires r in s.lock.readers && KeepsLock(ts, r)
    ensures r in s'.lock.readers && s'.k.writes == s.k.writes && s'.order == s.order
  {
    if ts != [] {
      var t, mid := ts[|ts| - 1], Play(s, ts[..|ts| - 1], seek).value;
      PlayPins(s, ts[..|ts| - 1], mid, r, packets, seek);
      PlayKeepsInv(s, ts[..|ts| - 1], mid, packets, seek);
      MovePins(mid, t.c, t.m, r, packets, seek);
    }
  }

  // ---------------------------------------------------------------- where a reply starts

  /** A connection on its way to the reply for its packet number d, with nothing left that moves its position. */
  predicate OnTheWay(cn: Conn, th: Thread, d: nat, packets: seq<seq<byte>>, seek: SeekTest) {
    || (cn.phase == Sought && th.pc in {Idle, IUnlock})
    || (cn.phase in {Replied, Ready, Writing} && (d < |packets| ==> seek(packets[d]) == None))
  }

  /** The file position is p until the reply for packet number d starts, and that reply starts at p. */
  predicate Carries(cn: Conn, th: Thread, d: nat, p: nat, packets: seq<seq<byte>>, seek: SeekTest) {
    && |cn.done| >= d
    && (|cn.done| == d ==> th.fpos == p && OnTheWay(cn, th, d, packets, seek))
    && (|cn.done| == d + 1 ==> (cn.phase == ReplyWait ==> th.fpos == p) && (HoldsRd(cn.phase) ==> cn.start == p))
  }

  /** A step inside a write or at the end of a seek does not move the position. */
  lemma KernelCarries(s: State, c: nat, a: Action, d: nat, p: nat, packets: seq<seq<byte>>, seek: SeekTest)
    requires c < |s.conns| == |s.k.threads| && CallOk(s.conns[c], s.k.threads[c]) && CanMove(s, c, Kernel(a), seek)
    requires Carries(s.conns[c], s.k.threads[c], d, p, packets, seek)
    ensures var k' := Apply(s.k, Label(c, a));
            c < |k'.threads| && Carries(s.conns[c], k'.threads[c], d, p, packets, seek)
  {
    InsideNotIdle(s.k, Label(c, a));
    StepFrame(s.k, Label(c, a));
    if |s.conns[c].done| == d { StepKeepsPosition(s.k, Label(c, a), c); }
  }

  /** A connection keeps its place, or takes the next one on the way to the reply. */
  lemma OwnMoveCarries(s: State, c: nat, m: Move, d: nat, p: nat, packets: seq<seq<byte>>, seek: SeekTest)
    requires c < |s.conns| == |s.k.threads| && CanMove(s, c, m, seek) && !m.Kernel?
    requires packets == s.conns[c].done + InHand(s.conns[c]) + s.conns[c].todo
    requires Carries(s.conns[c], s.k.threads[c], d, p, packets, seek)
    ensures var s' := Moved(s, c, m, seek);
            c < |s'.k.threads| && Carries(s'.conns[c], s'.k.threads[c], d, p, packets, seek)
  {
    match m
    case WrLock => WrLockCarries(s, c, d, p, packets, seek);
    case SendPiece(n) => assert SendPieceMove(s, c, n).k.threads[c].fpos == s.k.threads[c].fpos;
    case IssueRead(count) => assert IssueReadMove(s, c, count).conns[c].start == s.conns[c].start;
    case TakeRead => assert TakeReadMove(s, c).conns[c].start == s.conns[c].start;
    case _ =>
  }

  lemma WrLockCarries(s: State, c: nat, d: nat, p: nat, packets: seq<seq<byte>>, seek: SeekTest)
    requires c < |s.conns| == |s.k.threads| && CanMove(s, c, WrLock, seek)
    requires packets == s.conns[c].done + InHand(s.conns[c]) + s.conns[c].todo
    requires Carries(s.conns[c], s.k.threads[c], d, p, packets, seek)
    ensures var s' := WrLockMove(s, c, seek);
            s'.k == s.k && Carries(s'.conns[c], s.k.threads[c], d, p, packets, seek)
  {
    var cn := s.conns[c];
    if |cn.done| == d { assert packets[d] == cn.todo[0]; }
  }

  /** A move of one client leaves the connections and threads of the others where they are. */
  lemma MoveFrame(s: State, u: nat, m: Move, seek: SeekTest)
    requires CanMove(s, u, m, seek) && |s.conns| == |s.k.threads|
    ensures var s' := Moved(s, u, m, seek);
            && |s'.conns| == |s'.k.threads| == |s.conns|
            && forall c :: 0 <= c < |s.conns| && c != u ==> s'.conns[c] == s.conns[c] && s'.k.threads[c] == s.k.threads[c]
  {
    if m.Kernel? { StepFrame(s.k, Label(u, m.a)); }
  }

  lemma MoveCarries(s: State, u: nat, m: Move, c: nat, d: nat, p: nat, packets: seq<seq<seq<byte>>>, seek: SeekTest)
    requires ServerInv(s, packets, seek) && CanMove(s, u, m, seek) && c < |s.conns|
    requires Carries(s.conns[c], s.k.threads[c], d, p, packets[c], seek)
    ensures var s' := Moved(s, u, m, seek);
            && c < |s'.conns| == |s'.k.threads|
            && Carries(s'.conns[c], s'.k.threads[c], d, p, packets[c], seek)
  {
    assert ConnInv(s, c, packets[c], seek);
    MoveFrame(s, u, m, seek);
    if u != c {
    } else if m.Kernel? {
      KernelCarries(s, c, m.a, d, p, packets[c], seek);
    } else {
      OwnMoveCarries(s, c, m, d, p, packets[c], seek);
    }
  }

  lemma {:induction false} PlayCarries(s: State, ts: seq<Turn>, s': State, c: nat, d: nat, p: nat,
                                       packets: seq<seq<seq<byte>>>, seek: SeekTest)
    requires ServerInv(s, packets, seek) && Play(s, ts, seek) == Some(s') && c < |s.conns|
    requires Carries(s.conns[c], s.k.threads[c], d, p, packets[c], seek)
    ensures c < |s'.conns| == |s'.k.threads| == |packets|
    ensures Carries(s'.conns[c], s'.k.threads[c], d, p, packets[c], seek)
  {
    if ts != [] {
      var t, mid := ts[|ts| - 1], Play(s, ts[..|ts| - 1], seek).value;
      PlayCarries(s, ts[..|ts| - 1], mid, c, d, p, packets, seek);
      PlayKeepsInv(s, ts[..|ts| - 1], mid, packets, seek);
      MoveCarries(mid, t.c, t.m, c, d, p, packets, seek);
    }
  }

  // ---------------------------------------------------------------- what a reply sends

  /** What the clients' packets leave visible. */
  function OrderText(order: seq<Write>): seq<byte> {
    Visible(Data(order), MAX_WRITE_OPERATIONS)
  }

  /** A reply in progress or ended, against the text its client can see. */
  predicate RepliesFrom(cn: Conn, ahead: seq<byte>) {
    cn.reply <= ahead && (cn.phase == Replied && cn.complete ==> cn.reply == ahead)
  }

  lemma ReplySends(s: State, c: nat, packets: seq<seq<seq<byte>>>, seek: SeekTest)
    requires ServerInv(s, packets, seek) && c < |s.conns| && HoldsRd(s.conns[c].phase)
    ensures s.lock.writer == None && Replay(s.k.writes).log == Data(s.order)
    ensures RepliesFrom(s.conns[c], From(OrderText(s.order), s.conns[c].start))
  {
    assert ConnInv(s, c, packets[c], seek);
    assert HoldsRd(s.conns[c].phase) <==> c in s.lock.readers;
  }

  /**
   The reply cn sends on from a position that had `ahead` before it when `order` was committed, now that
   `later` is: that text, followed by what was committed since, less the first bytes of it, as many as
   were evicted since; so without a gap exactly when nothing was evicted.
   */
  predicate SendsOn(cn: Conn, ahead: seq<byte>, order: seq<Write>, later: seq<Write>)
    requires order <= later
  {
    var more := Data(later[|order|..]);
    var sees := From(OrderText(later), cn.start);
    && RepliesFrom(cn, sees)
    && sees == From(ahead + Flat(more), Gone(Data(order), more, MAX_WRITE_OPERATIONS))
    && (sees == ahead + Flat(more) <==> NothingEvicted(Data(order), more, MAX_WRITE_OPERATIONS))
  }

  lemma ReplySendsOn(s: State, c: nat, order: seq<Write>, ahead: seq<byte>, packets: seq<seq<seq<byte>>>, seek: SeekTest)
    requires ServerInv(s, packets, seek) && c < |s.conns| && HoldsRd(s.conns[c].phase) && order <= s.order
    requires s.conns[c].start <= |OrderText(order)| && ahead == From(OrderText(order), s.conns[c].start)
    ensures SendsOn(s.conns[c], ahead, order, s.order)
  {
    var more := Data(s.order[|order|..]);
    ReplySends(s, c, packets, seek);
    OrderNonEmpty(s);
    assert Data(s.order) == Data(order) + more;
    NonEmptyParts(Data(order), more);
    ReadingOnAfterCommits(Data(order), more, MAX_WRITE_OPERATIONS, s.conns[c].start);
  }

  lemma OrderNonEmpty(s: State)
    requires Sound(s.k) && Replay(s.k.writes).log == Data(s.order)
    ensures NonEmpty(Data(s.order))
  {
    var m :| RunsTo(InitSys(MAX_WRITE_OPERATIONS, m), s.k);
    CommittedNonEmpty(s.k, MAX_WRITE_OPERATIONS, m);
  }

  /** After a reply, when the next packet is ordinary, its client carries the position to the next reply. */
  lemma ReplyCarries(s: State, c: nat, packets: seq<seq<seq<byte>>>, seek: SeekTest)
    requires ServerInv(s, packets, seek) && c < |s.conns| && s.conns[c].phase == Replied
    requires s.conns[c].todo != [] ==> seek(s.conns[c].todo[0]) == None
    ensures var cn := s.conns[c];
            Carries(cn, s.k.threads[c], |cn.done|, cn.start + |cn.reply|, packets[c], seek)
  {
    assert ConnInv(s, c, packets[c], seek);
    var cn := s.conns[c];
    if |cn.done| < |packets[c]| { assert packets[c][|cn.done|] == cn.todo[0]; }
  }
}
