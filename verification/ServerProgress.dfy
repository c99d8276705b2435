/**
 Every schedule ends, and it ends with all clients done.  Whatever move is made, by whom, with whatever
 sizes and failures of reads and seeks, a measure of the work left goes down; and only when everybody is
 done is there no move left.  No fairness of the two locks is needed.
 */
module ServerProgress {
  import opened Base
  import opened Driver
  import opened DriverInvariant
  import opened DriverTheorems
  import opened Runs
  import opened ServerKernel
  import opened Server
  import opened ServerInvariant

  // ---------------------------------------------------------------- calls get on

  /** How far a call is from returning. */
  function CallRank(pc: Pc): nat {
    match pc
    case Idle => 0
    case WAlloc => 8 case WCopy => 7 case WLock => 6 case WAppend => 5 case WCommit => 4
    case WUnlock => 3 case WFreeEvicted => 2 case WFreeKern => 1
    case RLock => 4 case RFind => 3 case RCopy => 2 case RUnlock => 1
    case ILock => 3 case ISeek => 2 case IUnlock => 1
  }

  /** What a copy_to_user still has to copy. */
  function CopyRank(th: Thread): nat {
    if th.pc == RCopy && |th.got| < th.want then th.want - |th.got| else 0
  }

  predicate CallAdvances(th: Thread, th': Thread) {
    || CallRank(th'.pc) < CallRank(th.pc)
    || (th'.pc == th.pc && CopyRank(th') < CopyRank(th))
  }

  lemma WriteCallAdvances(k: Sys, t: nat, a: Action)
    requires Sound(k) && t < |k.threads| && InWrite(k.threads[t].pc)
    requires Enabled(k, Label(t, a)) && Inside(a)
    ensures var k' := Apply(k, Label(t, a));
            t < |k'.threads| && CallAdvances(k.threads[t], k'.threads[t])
  {
    WriterFacts(k, t);
  }

  lemma SeekCallAdvances(k: Sys, t: nat, a: Action)
    requires Sound(k) && t < |k.threads| && InSeekCall(k.threads[t].pc)
    requires Enabled(k, Label(t, a)) && Inside(a)
    ensures var k' := Apply(k, Label(t, a));
            t < |k'.threads| && CallAdvances(k.threads[t], k'.threads[t])
  {
    StoreFacts(k);
  }

  lemma ReadCallAdvances(k: Sys, t: nat, a: Action)
    requires Sound(k) && t < |k.threads| && InReadCall(k.threads[t].pc)
    requires Enabled(k, Label(t, a)) && Inside(a)
    ensures var k' := Apply(k, Label(t, a));
            t < |k'.threads| && CallAdvances(k.threads[t], k'.threads[t])
  {
    match a
    case Find => FindSucceeds(k, t);
    case CopyByte => ReaderFacts(k, t);
    case CopyToUser(ok) =>
    case DownRead(ok) =>
    case UpRead =>
  }

  // ---------------------------------------------------------------- the measure

  function PhaseRank(p: Phase): nat {
    match p
    case Ready => 0
    case Writing => 5 case Seeking => 5
    case Sought => 4
    case ReplyWait => 3
    case Replying => 2 case InRead => 2
    case Replied => 1
  }

  /** Bytes of the packet to be sent, or of the text to be replied. */
  function ByteRank(cn: Conn, text: seq<byte>): nat {
    if cn.phase == Writing && cn.sent < |cn.packet| then |cn.packet| - cn.sent
    else if cn.phase in {Replying, InRead} && cn.start + |cn.reply| < |text| then |text| - cn.start - |cn.reply|
    else 0
  }

  function StageRank(cn: Conn, th: Thread): nat {
    (if cn.phase == Replying then 10 else 0) + CallRank(th.pc)
  }

  /** A lexicographic measure, summed over connections. */
  datatype Rank = Rank(todo: nat, phase: nat, bytes: nat, stage: nat, copy: nat)

  predicate Below(x: Rank, y: Rank) {
    if x.todo != y.todo then x.todo < y.todo
    else if x.phase != y.phase then x.phase < y.phase
    else if x.bytes != y.bytes then x.bytes < y.bytes
    else if x.stage != y.stage then x.stage < y.stage
    else x.copy < y.copy
  }

  function Plus(x: Rank, y: Rank): Rank {
    Rank(x.todo + y.todo, x.phase + y.phase, x.bytes + y.bytes, x.stage + y.stage, x.copy + y.copy)
  }

  function SumRanks(rs: seq<Rank>): Rank {
    if rs == [] then Rank(0, 0, 0, 0, 0) else Plus(rs[0], SumRanks(rs[1..]))
  }

  function ConnRank(cn: Conn, th: Thread, text: seq<byte>): Rank {
    Rank(|cn.todo|, PhaseRank(cn.phase), ByteRank(cn, text), StageRank(cn, th), CopyRank(th))
  }

  function Ranks(s: State): seq<Rank>
    requires |s.conns| == |s.k.threads|
  {
    seq(|s.conns|, c requires 0 <= c < |s.conns| => ConnRank(s.conns[c], s.k.threads[c], Text(s.k.writes)))
  }

  /** The sum goes down when one of its terms does. */
  lemma {:induction false} SumGoesDown(rs: seq<Rank>, c: nat, r: Rank)
    requires c < |rs| && Below(r, rs[c])
    ensures Below(SumRanks(rs[c := r]), SumRanks(rs))
  {
    var rs' := rs[c := r];
    if c == 0 {
      assert rs'[1..] == rs[1..];
    } else {
      assert rs'[1..] == rs[1..][c - 1 := r];
      SumGoesDown(rs[1..], c - 1, r);
    }
  }

  /** A move of c that advances c is an advance of the whole. */
  lemma MoveAdvances(s: State, s': State, c: nat)
    requires |s.conns| == |s.k.threads| == |s'.conns| == |s'.k.threads| && c < |s.conns|
    requires forall u :: 0 <= u < |s.conns| && u != c ==>
               && s'.conns[u] == s.conns[u] && s'.k.threads[u] == s.k.threads[u]
               && (s'.k.writes == s.k.writes || !HoldsRd(s.conns[u].phase))
    requires Below(Ranks(s')[c], Ranks(s)[c])
    ensures Below(SumRanks(Ranks(s')), SumRanks(Ranks(s)))
  {
    SumGoesDown(Ranks(s), c, Ranks(s')[c]);
    assert Ranks(s') == Ranks(s)[c := Ranks(s')[c]];
  }

  // ---------------------------------------------------------------- some move is always possible

  /** The move that connection c makes next. */
  function NextMove(s: State, c: nat): Move
    requires c < |s.conns| == |s.k.threads|
  {
    var cn, th := s.conns[c], s.k.threads[c];
    if th.pc != Idle then Kernel(NextAction(th))
    else match cn.phase
      case Ready => WrLock
      case Writing => if cn.sent < |cn.packet| then SendPiece(|cn.packet| - cn.sent) else WrUnlock
      case Seeking => IssueSeek
      case Sought => WrUnlock
      case ReplyWait => RdLock
      case Replying => IssueRead(1)
      case InRead => TakeRead
      case Replied => RdUnlock
  }

  /** A connection that is not done and does not have to wait for the server's lock. */
  ghost predicate CanGo(s: State, c: nat)
    requires c < |s.conns|
  {
    var p := s.conns[c].phase;
    HoldsWr(p) || HoldsRd(p) || (LockFree(s.lock) && (p == ReplyWait || (p == Ready && s.conns[c].todo != [])))
  }

  lemma SomebodyCanGo(s: State, packets: seq<seq<seq<byte>>>, seek: SeekTest) returns (c: nat)
    requires ServerInv(s, packets, seek) && !Finished(s)
    ensures c < |s.conns| && CanGo(s, c)
  {
    c :| 0 <= c < |s.conns| && !(s.conns[c].phase == Ready && s.conns[c].todo == []);
    if !CanGo(s, c) {
      if s.lock.writer.Some? {
        c := s.lock.writer.value;
      } else {
        c :| c in s.lock.readers;
      }
    }
  }

  /** A thread that holds the driver's semaphore belongs to a connection that holds the server's lock. */
  lemma KernelHolders(s: State, u: nat, packets: seq<seq<seq<byte>>>, seek: SeekTest)
    requires ServerInv(s, packets, seek) && u < |s.conns|
    ensures HoldsWrite(s.k.threads[u].pc) ==> s.lock.writer == Some(u)
    ensures HoldsRead(s.k.threads[u].pc) ==> u in s.lock.readers
  {
    assert ConnInv(s, u, packets[u], seek);
    assert HoldsWr(s.conns[u].phase) <==> s.lock.writer == Some(u);
    assert HoldsRd(s.conns[u].phase) <==> u in s.lock.readers;
  }

  /** What the driver's semaphore allows a waiting thread. */
  lemma KernelWaits(s: State, c: nat, packets: seq<seq<seq<byte>>>, seek: SeekTest)
    requires ServerInv(s, packets, seek) && c < |s.conns|
    ensures s.k.threads[c].pc in {WLock, ILock} ==> LockFree(s.k.lock)
    ensures s.k.threads[c].pc == RLock ==> s.k.lock.writer == None
  {
    TextOfDevice(s.k);
    assert ConnInv(s, c, packets[c], seek);
    assert HoldsWr(s.conns[c].phase) <==> s.lock.writer == Some(c);
    assert HoldsRd(s.conns[c].phase) <==> c in s.lock.readers;
    forall u | 0 <= u < |s.conns|
      ensures HoldsWrite(s.k.threads[u].pc) ==> s.lock.writer == Some(u)
      ensures HoldsRead(s.k.threads[u].pc) ==> u in s.lock.readers
    {
      KernelHolders(s, u, packets, seek);
    }
    KernelLockHolders(s.k);
  }

  lemma KernelLockHolders(k: Sys)
    requires LockInv(k)
    ensures k.lock.writer.Some? ==> k.lock.writer.value < |k.threads| && HoldsWrite(k.threads[k.lock.writer.value].pc)
    ensures forall r :: r in k.lock.readers ==> r < |k.threads| && HoldsRead(k.threads[r].pc)
  {
  }

  lemma NextMovePossible(s: State, c: nat, packets: seq<seq<seq<byte>>>, seek: SeekTest)
    requires ServerInv(s, packets, seek) && c < |s.conns| && CanGo(s, c)
    ensures CanMove(s, c, NextMove(s, c), seek)
  {
    assert ConnInv(s, c, packets[c], seek);
    var th := s.k.threads[c];
    if th.pc != Idle {
      KernelWaits(s, c, packets, seek);
      CallPossible(s.k, c);
    }
  }

  lemma CallPossible(k: Sys, t: nat)
    requires t < |k.threads| && k.threads[t].pc != Idle
    requires k.threads[t].pc in {WLock, ILock} ==> LockFree(k.lock)
    requires k.threads[t].pc == RLock ==> k.lock.writer == None
    ensures var a := NextAction(k.threads[t]);
            Enabled(k, Label(t, a)) && Inside(a) && NoFailure(a)
  {
  }

  // ---------------------------------------------------------------- every move lowers the measure

  /** A move of c that leaves the other connections and the accepted writes alone. */
  predicate OnlyMovesConn(s: State, s': State, c: nat) {
    && c < |s.conns| == |s.k.threads| == |s'.conns| == |s'.k.threads| && s'.k.writes == s.k.writes
    && (forall u :: 0 <= u < |s.conns| && u != c ==>
          s'.conns[u] == s.conns[u] && s'.k.threads[u] == s.k.threads[u])
  }

  predicate Steps(s: State, s': State, c: nat) {
    && OnlyMovesConn(s, s', c)
    && Below(ConnRank(s'.conns[c], s'.k.threads[c], Text(s.k.writes)),
             ConnRank(s.conns[c], s.k.threads[c], Text(s.k.writes)))
  }

  lemma TakeReadSteps(s: State, c: nat)
    requires c < |s.conns| == |s.k.threads| && KernelIdle(s, c) && s.conns[c].phase == InRead
    requires ReplyOk(s.conns[c], s.k.threads[c], Text(s.k.writes))
    ensures Steps(s, TakeReadMove(s, c), c)
  {
  }

  lemma SendPieceSteps(s: State, c: nat, n: nat, seek: SeekTest)
    requires |s.conns| == |s.k.threads| && CanMove(s, c, SendPiece(n), seek)
    ensures Steps(s, SendPieceMove(s, c, n), c)
  {
  }

  lemma IssueReadSteps(s: State, c: nat, count: nat, seek: SeekTest)
    requires |s.conns| == |s.k.threads| && CanMove(s, c, IssueRead(count), seek)
    ensures Steps(s, IssueReadMove(s, c, count), c)
  {
  }

  lemma LockMoveSteps(s: State, c: nat, m: Move, seek: SeekTest)
    requires |s.conns| == |s.k.threads| && CanMove(s, c, m, seek) && KernelIdle(s, c)
    requires m.WrLock? || m.IssueSeek? || m.WrUnlock? || m.RdLock? || m.RdUnlock?
    ensures Steps(s, Moved(s, c, m, seek), c)
  {
    match m
    case WrLock => assert OnlyMovesConn(s, WrLockMove(s, c, seek), c);
    case IssueSeek =>
    case WrUnlock =>
    case RdLock =>
    case RdUnlock =>
  }

  /** Every move outside the kernel, whatever the size of a piece or of a read. */
  lemma OwnMoveSteps(s: State, c: nat, m: Move, packets: seq<seq<byte>>, seek: SeekTest)
    requires c < |s.conns| == |s.k.threads| && ConnInv(s, c, packets, seek)
    requires CanMove(s, c, m, seek) && !m.Kernel?
    ensures Steps(s, Moved(s, c, m, seek), c)
  {
    match m
    case TakeRead => TakeReadSteps(s, c);
    case SendPiece(n) => SendPieceSteps(s, c, n, seek);
    case IssueRead(count) => IssueReadSteps(s, c, count, seek);
    case _ => LockMoveSteps(s, c, m, seek);
  }

  lemma CallStepRank(cn: Conn, th: Thread, th': Thread, text: seq<byte>, text': seq<byte>)
    requires CallAdvances(th, th') && (cn.phase == Writing || text' == text)
    ensures Below(ConnRank(cn, th', text'), ConnRank(cn, th, text))
  {
  }

  lemma KernelStepAdvances(s: State, k': Sys, c: nat)
    requires c < |s.conns| == |s.k.threads| == |k'.threads| && LocksInv(s)
    requires forall u :: 0 <= u < |s.conns| && u != c ==> k'.threads[u] == s.k.threads[u]
    requires CallAdvances(s.k.threads[c], k'.threads[c])
    requires s.conns[c].phase != Writing ==> k'.writes == s.k.writes
    ensures Below(SumRanks(Ranks(s.(k := k'))), SumRanks(Ranks(s)))
  {
    CallStepRank(s.conns[c], s.k.threads[c], k'.threads[c], Text(s.k.writes), Text(k'.writes));
    assert HoldsWr(s.conns[c].phase) <==> s.lock.writer == Some(c);
    forall u | 0 <= u < |s.conns| && u != c
      ensures k'.writes == s.k.writes || !HoldsRd(s.conns[u].phase)
    {
      assert HoldsRd(s.conns[u].phase) <==> u in s.lock.readers;
    }
    MoveAdvances(s, s.(k := k'), c);
  }

  /** Every step inside a call brings it closer to its return, also an interrupted wait or a failed copy. */
  lemma KernelCallAdvances(s: State, c: nat, a: Action, packets: seq<seq<seq<byte>>>, seek: SeekTest)
    requires ServerInv(s, packets, seek) && CanMove(s, c, Kernel(a), seek)
    ensures var k' := Apply(s.k, Label(c, a));
            && |k'.threads| == |s.k.threads|
            && CallAdvances(s.k.threads[c], k'.threads[c])
            && (s.conns[c].phase != Writing ==> k'.writes == s.k.writes)
  {
    InsideNotIdle(s.k, Label(c, a));
    InsideCall(s, c, packets, seek);
    StepKeepsSizes(s.k, Label(c, a));
    StepRecordsOwnWrite(s.k, Label(c, a));
    if InWrite(s.k.threads[c].pc) {
      WriteCallAdvances(s.k, c, a);
    } else if InSeekCall(s.k.threads[c].pc) {
      SeekCallAdvances(s.k, c, a);
    } else {
      ReadCallAdvances(s.k, c, a);
    }
  }

  lemma EveryMoveAdvances(s: State, c: nat, m: Move, packets: seq<seq<seq<byte>>>, seek: SeekTest)
    requires ServerInv(s, packets, seek) && CanMove(s, c, m, seek)
    ensures var s' := Moved(s, c, m, seek);
            && |s'.conns| == |s'.k.threads|
            && Below(SumRanks(Ranks(s')), SumRanks(Ranks(s)))
  {
    if m.Kernel? {
      StepFrame(s.k, Label(c, m.a));
      KernelCallAdvances(s, c, m.a, packets, seek);
      KernelStepAdvances(s, Apply(s.k, Label(c, m.a)), c);
    } else {
      assert ConnInv(s, c, packets[c], seek);
      OwnMoveSteps(s, c, m, packets[c], seek);
      MoveAdvances(s, Moved(s, c, m, seek), c);
    }
  }

  // ---------------------------------------------------------------- every schedule ends, and ends well

  /** Nobody can move. */
  ghost predicate Stuck(s: State, seek: SeekTest) {
    forall c: nat, m :: !CanMove(s, c, m, seek)
  }

  lemma DoneCannotMove(s: State, c: nat, m: Move, seek: SeekTest)
    requires c < |s.conns| == |s.k.threads| && CallOk(s.conns[c], s.k.threads[c])
    requires s.conns[c].phase == Ready && s.conns[c].todo == []
    ensures !CanMove(s, c, m, seek)
  {
    if m.Kernel? && CanMove(s, c, m, seek) { InsideNotIdle(s.k, Label(c, m.a)); }
  }

  /** The only states in which nobody can move are those in which every client is done. */
  lemma StuckIffFinished(s: State, packets: seq<seq<seq<byte>>>, seek: SeekTest)
    requires ServerInv(s, packets, seek)
    ensures Stuck(s, seek) <==> Finished(s)
  {
    if Finished(s) {
      forall c: nat, m | c < |s.conns| ensures !CanMove(s, c, m, seek) {
        assert ConnInv(s, c, packets[c], seek);
        DoneCannotMove(s, c, m, seek);
      }
    } else {
      var c := SomebodyCanGo(s, packets, seek);
      NextMovePossible(s, c, packets, seek);
    }
  }

  lemma {:induction false} PlayAppend(s: State, a: seq<Turn>, b: seq<Turn>, seek: SeekTest)
    requires Play(s, a, seek).Some?
    ensures Play(s, a + b, seek) == Play(Play(s, a, seek).value, b, seek)
  {
    if b == [] {
      assert a + b == a;
    } else {
      PlayAppend(s, a, b[..|b| - 1], seek);
      assert (a + b)[..|a + b| - 1] == a + b[..|b| - 1] && (a + b)[|a + b| - 1] == b[|b| - 1];
      assert Play(s, a + b, seek) == LastTurn(s, a + b, seek);
    }
  }

  lemma PlayOne(s: State, t: Turn, seek: SeekTest)
    ensures Play(s, [t], seek) == if CanMove(s, t.c, t.m, seek) then Some(Moved(s, t.c, t.m, seek)) else None
  {
    assert [t][..0] == [];
    assert Play(s, [], seek) == Some(s);
  }

  /** Playing one turn and then others. */
  lemma PlayFirst(s: State, t: Turn, ts: seq<Turn>, seek: SeekTest)
    requires CanMove(s, t.c, t.m, seek)
    ensures Play(s, [t] + ts, seek) == Play(Moved(s, t.c, t.m, seek), ts, seek)
  {
    PlayOne(s, t, seek);
    PlayAppend(s, [t], ts, seek);
  }

  function Later(turns: nat -> Turn): nat -> Turn {
    (i: nat) => turns(i + 1)
  }

  /** The first n of an endless sequence of turns. */
  function First(turns: nat -> Turn, n: nat): seq<Turn> {
    if n == 0 then [] else [turns(0)] + First(Later(turns), n - 1)
  }

  lemma {:induction false} FirstAt(turns: nat -> Turn, n: nat)
    ensures |First(turns, n)| == n
    ensures forall i :: 0 <= i < n ==> First(turns, n)[i] == turns(i)
  {
    if n != 0 { FirstAt(Later(turns), n - 1); }
  }

  /** No schedule goes on for ever: of any endless sequence of turns only finitely many can be taken. */
  lemma {:induction false} NoEndlessSchedule(s: State, turns: nat -> Turn, packets: seq<seq<seq<byte>>>, seek: SeekTest)
    returns (n: nat)
    requires ServerInv(s, packets, seek)
    ensures Play(s, First(turns, n), seek) == None
    decreases SumRanks(Ranks(s)).todo, SumRanks(Ranks(s)).phase, SumRanks(Ranks(s)).bytes,
              SumRanks(Ranks(s)).stage, SumRanks(Ranks(s)).copy
  {
    var t, later := turns(0), Later(turns);
    if CanMove(s, t.c, t.m, seek) {
      EveryMoveKeepsInv(s, t.c, t.m, packets, seek);
      EveryMoveAdvances(s, t.c, t.m, packets, seek);
      n := NoEndlessSchedule(Moved(s, t.c, t.m, seek), later, packets, seek);
      PlayFirst(s, t, First(later, n), seek);
      n := n + 1;
    } else {
      n := 1;
      PlayOne(s, t, seek);
      assert First(turns, 1) == [t];
    }
  }

  /** Every state can be played to its end, so maximal schedules exist. */
  lemma {:induction false} CanFinish(s: State, packets: seq<seq<seq<byte>>>, seek: SeekTest)
    returns (ts: seq<Turn>, s': State)
    requires ServerInv(s, packets, seek)
    ensures Play(s, ts, seek) == Some(s') && Stuck(s', seek) && Finished(s')
    decreases SumRanks(Ranks(s)).todo, SumRanks(Ranks(s)).phase, SumRanks(Ranks(s)).bytes,
              SumRanks(Ranks(s)).stage, SumRanks(Ranks(s)).copy
  {
    StuckIffFinished(s, packets, seek);
    if Stuck(s, seek) {
      ts, s' := [], s;
    } else {
      var c, m :| CanMove(s, c, m, seek);
      EveryMoveKeepsInv(s, c, m, packets, seek);
      EveryMoveAdvances(s, c, m, packets, seek);
      ts, s' := CanFinish(Moved(s, c, m, seek), packets, seek);
      PlayFirst(s, Turn(c, m), ts, seek);
      ts := [Turn(c, m)] + ts;
    }
  }
}
