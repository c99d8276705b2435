/** The inductive invariant of the server on top of the driver. */
module ServerInvariant {
  import opened Base
  import opened Rings
  import opened PacketStream
  import opened WriteLog
  import opened Driver
  import opened DriverInvariant
  import opened DriverTheorems
  import opened Runs
  import opened ServerKernel
  import opened Server

  ghost predicate LocksInv(s: State) {
    && (forall c :: 0 <= c < |s.conns| ==>
          && (HoldsWr(s.conns[c].phase) <==> s.lock.writer == Some(c))
          && (HoldsRd(s.conns[c].phase) <==> c in s.lock.readers))
    && (s.lock.writer.Some? ==> s.lock.readers == {} && s.lock.writer.value < |s.conns|)
    && (forall c :: c in s.lock.readers ==> c < |s.conns|)
  }

  /** How much of the packet in hand the driver has accepted. */
  function Accepted(cn: Conn, th: Thread): int {
    if Unapplied(th) then cn.sent - |th.data| else cn.sent
  }

  /** The kernel side of a connection: which call its thread can be in. */
  predicate CallOk(cn: Conn, th: Thread) {
    match cn.phase
    case Writing =>
      && cn.sent <= |cn.packet|
      && (th.pc == Idle || (GoodWrite(th) && th.data != []))
      && (Unapplied(th) ==> |th.data| <= cn.sent && th.data == cn.packet[cn.sent - |th.data|..cn.sent])
    case Sought => th.pc == Idle || InSeekCall(th.pc)
    case InRead => th.pc == Idle || InReadCall(th.pc)
    case _ => th.pc == Idle
  }

  /** A reply in progress, against the text of the device. */
  predicate ReplyOk(cn: Conn, th: Thread, text: seq<byte>) {
    match cn.phase
    case Replying => cn.reply <= From(text, cn.start) && th.fpos == cn.start + |cn.reply|
    case InRead => cn.reply <= From(text, cn.start) && ReadState(th, cn.start + |cn.reply|, text)
    case Replied =>
      && cn.reply <= From(text, cn.start) && th.fpos == cn.start + |cn.reply|
      && (cn.complete ==> cn.reply == From(text, cn.start))
    case _ => true
  }

  /** A seek call in flight carries the parameters of the packet. */
  predicate SeekOk(cn: Conn, th: Thread, seek: SeekTest) {
    cn.phase == Sought && th.pc in {ILock, ISeek} ==> seek(cn.packet) == Some((th.cmd, th.cmdOff))
  }

  predicate AllPackets(ps: seq<seq<byte>>) {
    forall i :: 0 <= i < |ps| ==> IsPacket(ps[i])
  }

  /** The ordinary packets among ps. */
  function Ordinary(ps: seq<seq<byte>>, seek: SeekTest): seq<seq<byte>> {
    if ps == [] then []
    else Ordinary(ps[..|ps| - 1], seek) + if seek(ps[|ps| - 1]) == None then [ps[|ps| - 1]] else []
  }

  /** The packet in hand, if the connection holds the write lock. */
  function InHand(cn: Conn): seq<seq<byte>> {
    if HoldsWr(cn.phase) then [cn.packet] else []
  }

  /** The packets of a connection: handled, in hand, to come; and what it put into the order. */
  ghost predicate PacketsOk(s: State, c: nat, packets: seq<seq<byte>>, seek: SeekTest)
    requires c < |s.conns|
  {
    var cn := s.conns[c];
    && packets == cn.done + InHand(cn) + cn.todo
    && AllPackets(packets)
    && (cn.phase == Writing ==> seek(cn.packet) == None)
    && (cn.phase in {Seeking, Sought} ==> seek(cn.packet) != None)
    && By(s.order, c) == Ordinary(cn.done + InHand(cn), seek)
  }

  ghost predicate ConnInv(s: State, c: nat, packets: seq<seq<byte>>, seek: SeekTest)
    requires c < |s.conns| == |s.k.threads|
  {
    && CallOk(s.conns[c], s.k.threads[c])
    && ReplyOk(s.conns[c], s.k.threads[c], Text(s.k.writes))
    && SeekOk(s.conns[c], s.k.threads[c], seek)
    && PacketsOk(s, c, packets, seek)
  }

  /** The device holds exactly the packets of the order, but for the one being written. */
  ghost predicate DeviceInv(s: State)
    requires |s.conns| == |s.k.threads|
  {
    var d := Replay(s.k.writes);
    if s.lock.writer.Some? && s.lock.writer.value < |s.conns|
       && s.conns[s.lock.writer.value].phase == Writing
    then
      var c := s.lock.writer.value;
      var cn := s.conns[c];
      var a := Accepted(cn, s.k.threads[c]);
      && s.order != [] && s.order[|s.order| - 1] == Write(c, cn.packet)
      && 0 <= a <= |cn.packet|
      && (a < |cn.packet| ==> d.log == Data(s.order[..|s.order| - 1]) && d.pending == cn.packet[..a])
      && (a == |cn.packet| ==> d.log == Data(s.order) && d.pending == [])
    else
      d.log == Data(s.order) && d.pending == []
  }

  ghost predicate ServerInv(s: State, packets: seq<seq<seq<byte>>>, seek: SeekTest) {
    && Sound(s.k)
    && |packets| == |s.conns| == |s.k.threads|
    && LocksInv(s)
    && DeviceInv(s)
    && (forall i :: 0 <= i < |s.order| ==> s.order[i].author < |s.conns|)
    && forall c :: 0 <= c < |s.conns| ==> ConnInv(s, c, packets[c], seek)
  }

  // ---------------------------------------------------------------- frames

  /** A move of c leaves another connection u as it was. */
  lemma OtherConn(s: State, s': State, c: nat, u: nat, packets: seq<seq<byte>>, seek: SeekTest)
    requires u < |s.conns| == |s'.conns| == |s.k.threads| == |s'.k.threads| && u != c
    requires s'.conns[u] == s.conns[u] && s'.k.threads[u] == s.k.threads[u]
    requires s'.order == s.order || exists p :: s'.order == s.order + [Write(c, p)]
    requires s'.k.writes == s.k.writes || !HoldsRd(s.conns[u].phase)
    requires ConnInv(s, u, packets, seek)
    ensures ConnInv(s', u, packets, seek)
  {
    if s'.order != s.order {
      var p :| s'.order == s.order + [Write(c, p)];
      BySnoc(s.order, Write(c, p), u);
    }
  }

  lemma LocksMove(s: State, s': State, c: nat)
    requires LocksInv(s) && c < |s.conns| == |s'.conns|
    requires forall u :: 0 <= u < |s.conns| && u != c ==> s'.conns[u] == s.conns[u]
    requires var p, p' := s.conns[c].phase, s'.conns[c].phase;
             || (s'.lock == s.lock && HoldsWr(p) == HoldsWr(p') && HoldsRd(p) == HoldsRd(p'))
             || (LockFree(s.lock) && s'.lock == RwLock(Some(c), {}) && HoldsWr(p') && !HoldsRd(p'))
             || (HoldsWr(p) && s'.lock == s.lock.(writer := None) && !HoldsWr(p') && !HoldsRd(p'))
             || (s.lock.writer == None && s'.lock == s.lock.(readers := s.lock.readers + {c}) && HoldsRd(p') && !HoldsWr(p'))
             || (HoldsRd(p) && s'.lock == s.lock.(readers := s.lock.readers - {c}) && !HoldsWr(p') && !HoldsRd(p'))
    ensures LocksInv(s')
  {
    assert HoldsWr(s.conns[c].phase) <==> s.lock.writer == Some(c);
    assert HoldsRd(s.conns[c].phase) <==> c in s.lock.readers;
  }

  /** A step of thread c that keeps the kernel sound and the other threads where they are. */
  ghost predicate KernelStep(k: Sys, k': Sys, c: nat) {
    && Sound(k') && c < |k.threads| == |k'.threads|
    && forall u :: 0 <= u < |k.threads| && u != c ==> k'.threads[u] == k.threads[u]
  }

  /** A move of c, once its own connection, the locks and the device are accounted for. */
  lemma MoveKeepsInv(s: State, s': State, c: nat, packets: seq<seq<seq<byte>>>, seek: SeekTest)
    requires ServerInv(s, packets, seek) && c < |s.conns|
    requires Sound(s'.k) && |s'.conns| == |s.conns| && |s'.k.threads| == |s.k.threads|
    requires forall u :: 0 <= u < |s.conns| && u != c ==>
               s'.conns[u] == s.conns[u] && s'.k.threads[u] == s.k.threads[u]
    requires s'.order == s.order || exists p :: s'.order == s.order + [Write(c, p)]
    requires s'.k.writes == s.k.writes || HoldsWr(s.conns[c].phase)
    requires LocksInv(s') && DeviceInv(s') && ConnInv(s', c, packets[c], seek)
    ensures ServerInv(s', packets, seek)
  {
    forall u | 0 <= u < |s'.conns| ensures ConnInv(s', u, packets[u], seek) {
      if u != c {
        assert ConnInv(s, u, packets[u], seek);
        assert HoldsWr(s.conns[c].phase) <==> s.lock.writer == Some(c);
        assert HoldsRd(s.conns[u].phase) <==> u in s.lock.readers;
        OtherConn(s, s', c, u, packets[u], seek);
      }
    }
  }

  // ---------------------------------------------------------------- server moves

  lemma OrdinarySnoc(ps: seq<seq<byte>>, p: seq<byte>, seek: SeekTest)
    ensures Ordinary(ps + [p], seek) == Ordinary(ps, seek) + if seek(p) == None then [p] else []
  {
    assert (ps + [p])[..|ps|] == ps;
  }

  /** Exactly the packets that are no seek commands are ordinary. */
  lemma {:induction false} OrdinaryExactly(ps: seq<seq<byte>>, p: seq<byte>, seek: SeekTest)
    ensures p in Ordinary(ps, seek) <==> p in ps && seek(p) == None
  {
    if ps != [] {
      OrdinaryExactly(ps[..|ps| - 1], p, seek);
      assert ps == ps[..|ps| - 1] + [ps[|ps| - 1]];
    }
  }

  lemma WrLockConn(s: State, c: nat, packets: seq<seq<byte>>, seek: SeekTest)
    requires c < |s.conns| == |s.k.threads| && ConnInv(s, c, packets, seek)
    requires s.conns[c].phase == Ready && s.conns[c].todo != []
    ensures ConnInv(WrLockMove(s, c, seek), c, packets, seek)
  {
    var s', cn := WrLockMove(s, c, seek), s.conns[c];
    var p := cn.todo[0];
    assert packets == cn.done + [p] + cn.todo[1..];
    OrdinarySnoc(cn.done, p, seek);
    assert cn.done + [] == cn.done;
    BySnoc(s.order, Write(c, p), c);
  }

  lemma WrLockKeepsInv(s: State, c: nat, packets: seq<seq<seq<byte>>>, seek: SeekTest)
    requires ServerInv(s, packets, seek) && CanMove(s, c, WrLock, seek)
    ensures ServerInv(WrLockMove(s, c, seek), packets, seek)
  {
    var s', p := WrLockMove(s, c, seek), s.conns[c].todo[0];
    assert ConnInv(s, c, packets[c], seek);
    WrLockConn(s, c, packets[c], seek);
    LocksMove(s, s', c);
    assert packets[c][|s.conns[c].done|] == p && IsPacket(p);
    assert seek(p) == None ==> s'.order[..|s'.order| - 1] == s.order;
    assert s'.order == s.order || s'.order == s.order + [Write(c, p)];
    MoveKeepsInv(s, s', c, packets, seek);
  }

  /** Moves that start a system call keep the kernel sound. */
  lemma StartWriteSound(k: Sys, t: nat, data: seq<byte>)
    requires Sound(k) && At(k, t, Idle)
    ensures Sound(StartWriteStep(k, t, data))
  {
    StepSound(k, Label(t, StartWrite(data)));
  }

  lemma StartReadSound(k: Sys, t: nat, count: nat)
    requires Sound(k) && At(k, t, Idle)
    ensures Sound(StartReadStep(k, t, count))
  {
    StepSound(k, Label(t, StartRead(count)));
  }

  lemma StartSeekSound(k: Sys, t: nat, cmd: nat, off: nat)
    requires Sound(k) && At(k, t, Idle)
    ensures Sound(Put(k, t, k.threads[t].(pc := ILock, cmd := cmd, cmdOff := off)))
  {
    StepSound(k, Label(t, StartSeek(cmd, off)));
  }

  lemma SendPieceConn(s: State, c: nat, n: nat, packets: seq<seq<byte>>, seek: SeekTest)
    requires c < |s.conns| == |s.k.threads| && ConnInv(s, c, packets, seek)
    requires s.conns[c].phase == Writing && At(s.k, c, Idle) && 0 < n && s.conns[c].sent + n <= |s.conns[c].packet|
    ensures var s' := SendPieceMove(s, c, n);
            && ConnInv(s', c, packets, seek)
            && Accepted(s'.conns[c], s'.k.threads[c]) == Accepted(s.conns[c], s.k.threads[c])
  {
  }

  lemma SendPieceDevice(s: State, c: nat, n: nat)
    requires c < |s.conns| == |s.k.threads| && DeviceInv(s) && s.lock.writer == Some(c)
    requires s.conns[c].phase == Writing && At(s.k, c, Idle) && 0 < n && s.conns[c].sent + n <= |s.conns[c].packet|
    ensures DeviceInv(SendPieceMove(s, c, n))
  {
  }

  lemma SendPieceKernel(s: State, c: nat, n: nat)
    requires c < |s.conns| == |s.k.threads| && Sound(s.k) && LocksInv(s)
    requires s.conns[c].phase == Writing && At(s.k, c, Idle) && s.conns[c].sent + n <= |s.conns[c].packet|
    ensures var s' := SendPieceMove(s, c, n);
            && KernelStep(s.k, s'.k, c) && s'.k.writes == s.k.writes && LocksInv(s')
  {
    var s', cn := SendPieceMove(s, c, n), s.conns[c];
    StartWriteSound(s.k, c, cn.packet[cn.sent..cn.sent + n]);
    LocksMove(s, s', c);
  }

  lemma SendPieceKeepsInv(s: State, c: nat, n: nat, packets: seq<seq<seq<byte>>>, seek: SeekTest)
    requires ServerInv(s, packets, seek) && c < |s.conns|
    requires s.conns[c].phase == Writing && At(s.k, c, Idle) && 0 < n && s.conns[c].sent + n <= |s.conns[c].packet|
    ensures ServerInv(SendPieceMove(s, c, n), packets, seek)
  {
    SendPieceKernel(s, c, n);
    assert s.lock.writer == Some(c);
    SendPieceDevice(s, c, n);
    assert ConnInv(s, c, packets[c], seek);
    SendPieceConn(s, c, n, packets[c], seek);
    MoveKeepsInv(s, SendPieceMove(s, c, n), c, packets, seek);
  }

  lemma IssueSeekKeepsInv(s: State, c: nat, packets: seq<seq<seq<byte>>>, seek: SeekTest)
    requires ServerInv(s, packets, seek) && CanMove(s, c, IssueSeek, seek)
    ensures ServerInv(Moved(s, c, IssueSeek, seek), packets, seek)
  {
    var s' := Moved(s, c, IssueSeek, seek);
    assert ConnInv(s, c, packets[c], seek);
    var (cmd, off) := seek(s.conns[c].packet).value;
    StartSeekSound(s.k, c, cmd, off);
    assert s.lock.writer == Some(c);
    LocksMove(s, s', c);
    MoveKeepsInv(s, s', c, packets, seek);
  }

  lemma WrUnlockKeepsInv(s: State, c: nat, packets: seq<seq<seq<byte>>>, seek: SeekTest)
    requires ServerInv(s, packets, seek) && CanMove(s, c, WrUnlock, seek)
    ensures ServerInv(Moved(s, c, WrUnlock, seek), packets, seek)
  {
    var s', cn := Moved(s, c, WrUnlock, seek), s.conns[c];
    assert ConnInv(s, c, packets[c], seek);
    assert s.lock.writer == Some(c);
    assert (cn.done + [cn.packet]) + [] == cn.done + [cn.packet];
    LocksMove(s, s', c);
    MoveKeepsInv(s, s', c, packets, seek);
  }

  lemma RdLockKeepsInv(s: State, c: nat, packets: seq<seq<seq<byte>>>, seek: SeekTest)
    requires ServerInv(s, packets, seek) && CanMove(s, c, RdLock, seek)
    ensures ServerInv(Moved(s, c, RdLock, seek), packets, seek)
  {
    var s' := Moved(s, c, RdLock, seek);
    assert ConnInv(s, c, packets[c], seek);
    LocksMove(s, s', c);
    MoveKeepsInv(s, s', c, packets, seek);
  }

  lemma IssueReadConn(s: State, c: nat, count: nat, packets: seq<seq<byte>>, seek: SeekTest)
    requires c < |s.conns| == |s.k.threads| && ConnInv(s, c, packets, seek)
    requires s.conns[c].phase == Replying && At(s.k, c, Idle) && 0 < count
    ensures ConnInv(IssueReadMove(s, c, count), c, packets, seek)
  {
  }

  lemma IssueReadKeepsInv(s: State, c: nat, count: nat, packets: seq<seq<seq<byte>>>, seek: SeekTest)
    requires ServerInv(s, packets, seek) && CanMove(s, c, IssueRead(count), seek)
    ensures ServerInv(IssueReadMove(s, c, count), packets, seek)
  {
    var s' := IssueReadMove(s, c, count);
    assert ConnInv(s, c, packets[c], seek);
    IssueReadConn(s, c, count, packets[c], seek);
    StartReadSound(s.k, c, count);
    LocksMove(s, s', c);
    assert DeviceInv(s');
    MoveKeepsInv(s, s', c, packets, seek);
  }

  lemma TakeReadReply(cn: Conn, th: Thread, text: seq<byte>)
    requires cn.phase == InRead && th.pc == Idle && ReplyOk(cn, th, text)
    ensures th.ret > 0 ==> cn.reply + th.got <= From(text, cn.start)
                           && th.fpos == cn.start + |cn.reply + th.got|
    ensures th.ret == 0 ==> cn.reply == From(text, cn.start)
  {
    if th.ret > 0 { ReadExtends(text, cn.start, cn.reply, th.got); }
  }

  lemma TakeReadKeepsInv(s: State, c: nat, packets: seq<seq<seq<byte>>>, seek: SeekTest)
    requires ServerInv(s, packets, seek) && CanMove(s, c, TakeRead, seek)
    ensures ServerInv(TakeReadMove(s, c), packets, seek)
  {
    var s' := TakeReadMove(s, c);
    assert ConnInv(s, c, packets[c], seek);
    TakeReadReply(s.conns[c], s.k.threads[c], Text(s.k.writes));
    LocksMove(s, s', c);
    MoveKeepsInv(s, s', c, packets, seek);
  }

  lemma RdUnlockKeepsInv(s: State, c: nat, packets: seq<seq<seq<byte>>>, seek: SeekTest)
    requires ServerInv(s, packets, seek) && CanMove(s, c, RdUnlock, seek)
    ensures ServerInv(Moved(s, c, RdUnlock, seek), packets, seek)
  {
    var s' := Moved(s, c, RdUnlock, seek);
    assert ConnInv(s, c, packets[c], seek);
    LocksMove(s, s', c);
    MoveKeepsInv(s, s', c, packets, seek);
  }

  // ---------------------------------------------------------------- kernel moves

  lemma InsideNotIdle(k: Sys, l: Label)
    requires Enabled(k, l) && Inside(l.a)
    ensures k.threads[l.t].pc != Idle
  {
  }

  /** The data in flight is the packet's text from the accepted part to the sent part. */
  lemma AcceptPiece(ws: seq<Write>, order: seq<Write>, c: nat, packet: seq<byte>, a: nat, sent: nat)
    requires IsPacket(packet) && a < sent <= |packet|
    requires order != [] && order[|order| - 1] == Write(c, packet)
    requires Replay(ws) == WriteLog.Device(Data(order[..|order| - 1]), packet[..a])
    ensures var d := Replay(ws + [Write(c, packet[a..sent])]);
            && (sent < |packet| ==> d.log == Data(order[..|order| - 1]) && d.pending == packet[..sent])
            && (sent == |packet| ==> d.log == Data(order) && d.pending == [])
  {
    var data := packet[a..sent];
    ReplaySnoc(ws, Write(c, data));
    assert packet[..a] + data == packet[..sent];
    assert data[|data| - 1] == packet[sent - 1];
    if sent < |packet| {
      assert packet[..|packet| - 1][sent - 1] == packet[sent - 1];
    } else {
      assert packet[..sent] == packet;
      assert order == order[..|order| - 1] + [Write(c, packet)];
      DataSnoc(order[..|order| - 1], Write(c, packet));
    }
  }

  /** A kernel step of the writing connection moves the device account along with the packet. */
  lemma WriterDevice(s: State, s': State, c: nat)
    requires c < |s.conns| == |s.k.threads| == |s'.k.threads| && s' == s.(k := s'.k)
    requires DeviceInv(s) && s.lock.writer == Some(c) && s.conns[c].phase == Writing
    requires IsPacket(s.conns[c].packet) && CallOk(s.conns[c], s.k.threads[c])
    requires var th, th' := s.k.threads[c], s'.k.threads[c];
             && (Unapplied(th) ==> th.data != [])
             && (Unapplied(th') ==> Unapplied(th) && th'.data == th.data)
             && s'.k.writes == if Unapplied(th) && !Unapplied(th') then s.k.writes + [Write(c, th.data)] else s.k.writes
    ensures DeviceInv(s')
  {
    var cn, th := s.conns[c], s.k.threads[c];
    if Unapplied(th) && !Unapplied(s'.k.threads[c]) {
      var a := Accepted(cn, th);
      assert Replay(s.k.writes) == WriteLog.Device(Data(s.order[..|s.order| - 1]), cn.packet[..a]);
      AcceptPiece(s.k.writes, s.order, c, cn.packet, a, cn.sent);
    }
  }

  lemma KernelWriteConn(s: State, k': Sys, c: nat, packets: seq<seq<byte>>, seek: SeekTest)
    requires c < |s.conns| == |s.k.threads| && ConnInv(s, c, packets, seek) && s.conns[c].phase == Writing
    requires s.k.threads[c].pc != Idle && WriteMoves(s.k, k', c)
    ensures ConnInv(s.(k := k'), c, packets, seek)
  {
  }

  lemma KernelWriteKeepsInv(s: State, k': Sys, c: nat, packets: seq<seq<seq<byte>>>, seek: SeekTest)
    requires ServerInv(s, packets, seek) && c < |s.conns| && s.conns[c].phase == Writing
    requires KernelStep(s.k, k', c) && WriteMoves(s.k, k', c) && s.k.threads[c].pc != Idle
    ensures ServerInv(s.(k := k'), packets, seek)
  {
    var s', cn := s.(k := k'), s.conns[c];
    assert ConnInv(s, c, packets[c], seek);
    assert HoldsWr(cn.phase) <==> s.lock.writer == Some(c);
    assert packets[c][|cn.done|] == cn.packet;
    KernelWriteConn(s, k', c, packets[c], seek);
    WriterDevice(s, s', c);
    LocksMove(s, s', c);
    MoveKeepsInv(s, s', c, packets, seek);
  }

  lemma KernelReadConn(s: State, k': Sys, c: nat, packets: seq<seq<byte>>, seek: SeekTest)
    requires c < |s.conns| == |s.k.threads| && ConnInv(s, c, packets, seek) && s.conns[c].phase == InRead
    requires ReadMoves(s.k, k', c, s.conns[c].start + |s.conns[c].reply|)
    ensures ConnInv(s.(k := k'), c, packets, seek)
  {
  }

  lemma KernelReadKeepsInv(s: State, k': Sys, c: nat, packets: seq<seq<seq<byte>>>, seek: SeekTest)
    requires ServerInv(s, packets, seek) && c < |s.conns| && s.conns[c].phase == InRead
    requires KernelStep(s.k, k', c) && ReadMoves(s.k, k', c, s.conns[c].start + |s.conns[c].reply|)
    ensures ServerInv(s.(k := k'), packets, seek)
  {
    var s' := s.(k := k');
    assert ConnInv(s, c, packets[c], seek);
    KernelReadConn(s, k', c, packets[c], seek);
    LocksMove(s, s', c);
    KernelDevice(s, s', c);
    MoveKeepsInv(s, s', c, packets, seek);
  }

  lemma KernelSeekKeepsInv(s: State, k': Sys, c: nat, packets: seq<seq<seq<byte>>>, seek: SeekTest)
    requires ServerInv(s, packets, seek) && c < |s.conns| && s.conns[c].phase == Sought
    requires KernelStep(s.k, k', c) && SeekStays(s.k, k', c)
    ensures ServerInv(s.(k := k'), packets, seek)
  {
    var s' := s.(k := k');
    assert ConnInv(s, c, packets[c], seek);
    LocksMove(s, s', c);
    KernelDevice(s, s', c);
    MoveKeepsInv(s, s', c, packets, seek);
  }

  /** A kernel step of a connection that is not writing leaves the device account alone. */
  lemma KernelDevice(s: State, s': State, c: nat)
    requires |s.conns| == |s.k.threads| == |s'.k.threads| && c < |s.conns| && DeviceInv(s) && LocksInv(s)
    requires s' == s.(k := s'.k) && s'.k.writes == s.k.writes && s.conns[c].phase != Writing
    requires forall u :: 0 <= u < |s.conns| && u != c ==> s'.k.threads[u] == s.k.threads[u]
    ensures DeviceInv(s')
  {
  }

  // ---------------------------------------------------------------- every move, every schedule

  lemma StepIsKernelStep(k: Sys, l: Label)
    requires Sound(k) && Enabled(k, l)
    ensures KernelStep(k, Apply(k, l), l.t)
  {
    StepSound(k, l);
    StepFrame(k, l);
  }

  /** What the invariant says about a connection whose thread is inside a call. */
  lemma InsideCall(s: State, c: nat, packets: seq<seq<seq<byte>>>, seek: SeekTest)
    requires ServerInv(s, packets, seek) && c < |s.conns| && s.k.threads[c].pc != Idle
    ensures Sound(s.k)
    ensures match s.conns[c].phase
            case Writing => GoodWrite(s.k.threads[c])
            case Sought => InSeekCall(s.k.threads[c].pc)
            case InRead =>
              && InReadCall(s.k.threads[c].pc)
              && ReadState(s.k.threads[c], s.conns[c].start + |s.conns[c].reply|, Text(s.k.writes))
            case _ => false
  {
    assert ConnInv(s, c, packets[c], seek);
  }

  /** A step inside a call of connection c. */
  ghost predicate CallStep(s: State, c: nat, a: Action, packets: seq<seq<seq<byte>>>, seek: SeekTest) {
    && ServerInv(s, packets, seek) && c < |s.conns|
    && Inside(a) && NoFailure(a) && Enabled(s.k, Label(c, a)) && s.k.threads[c].pc != Idle
  }

  lemma WriteStepKeepsInv(s: State, c: nat, a: Action, packets: seq<seq<seq<byte>>>, seek: SeekTest)
    requires CallStep(s, c, a, packets, seek) && s.conns[c].phase == Writing
    ensures ServerInv(s.(k := Apply(s.k, Label(c, a))), packets, seek)
  {
    InsideCall(s, c, packets, seek);
    StepIsKernelStep(s.k, Label(c, a));
    WriteProgress(s.k, c, a);
    KernelWriteKeepsInv(s, Apply(s.k, Label(c, a)), c, packets, seek);
  }

  lemma SeekStepKeepsInv(s: State, c: nat, a: Action, packets: seq<seq<seq<byte>>>, seek: SeekTest)
    requires CallStep(s, c, a, packets, seek) && s.conns[c].phase == Sought
    ensures ServerInv(s.(k := Apply(s.k, Label(c, a))), packets, seek)
  {
    InsideCall(s, c, packets, seek);
    StepIsKernelStep(s.k, Label(c, a));
    SeekProgress(s.k, c, a);
    KernelSeekKeepsInv(s, Apply(s.k, Label(c, a)), c, packets, seek);
  }

  lemma ReadStepKeepsInv(s: State, c: nat, a: Action, packets: seq<seq<seq<byte>>>, seek: SeekTest)
    requires CallStep(s, c, a, packets, seek) && s.conns[c].phase == InRead
    ensures ServerInv(s.(k := Apply(s.k, Label(c, a))), packets, seek)
  {
    InsideCall(s, c, packets, seek);
    StepIsKernelStep(s.k, Label(c, a));
    ReadProgress(s.k, c, a, s.conns[c].start + |s.conns[c].reply|);
    KernelReadKeepsInv(s, Apply(s.k, Label(c, a)), c, packets, seek);
  }

  lemma KernelKeepsInv(s: State, c: nat, a: Action, packets: seq<seq<seq<byte>>>, seek: SeekTest)
    requires ServerInv(s, packets, seek) && CanMove(s, c, Kernel(a), seek)
    ensures ServerInv(s.(k := Apply(s.k, Label(c, a))), packets, seek)
  {
    InsideNotIdle(s.k, Label(c, a));
    InsideCall(s, c, packets, seek);
    match s.conns[c].phase
    case Writing => WriteStepKeepsInv(s, c, a, packets, seek);
    case Sought => SeekStepKeepsInv(s, c, a, packets, seek);
    case InRead => ReadStepKeepsInv(s, c, a, packets, seek);
  }

  lemma EveryMoveKeepsInv(s: State, c: nat, m: Move, packets: seq<seq<seq<byte>>>, seek: SeekTest)
    requires ServerInv(s, packets, seek) && CanMove(s, c, m, seek)
    ensures ServerInv(Moved(s, c, m, seek), packets, seek)
  {
    match m
    case WrLock => WrLockKeepsInv(s, c, packets, seek);
    case SendPiece(n) => SendPieceKeepsInv(s, c, n, packets, seek);
    case IssueSeek => IssueSeekKeepsInv(s, c, packets, seek);
    case WrUnlock => WrUnlockKeepsInv(s, c, packets, seek);
    case RdLock => RdLockKeepsInv(s, c, packets, seek);
    case IssueRead(count) => IssueReadKeepsInv(s, c, count, packets, seek);
    case TakeRead => TakeReadKeepsInv(s, c, packets, seek);
    case RdUnlock => RdUnlockKeepsInv(s, c, packets, seek);
    case Kernel(a) => KernelKeepsInv(s, c, a, packets, seek);
  }

  lemma InitServerInv(packets: seq<seq<seq<byte>>>, seek: SeekTest)
    requires forall c :: 0 <= c < |packets| ==> AllPackets(packets[c])
    ensures ServerInv(InitState(packets), packets, seek)
  {
    var s := InitState(packets);
    assert Exec(s.k, []) == Some(s.k);
    assert RunsTo(InitSys(MAX_WRITE_OPERATIONS, |packets|), s.k);
    forall c | 0 <= c < |s.conns| ensures ConnInv(s, c, packets[c], seek) {
      assert [] + [] + packets[c] == packets[c];
    }
  }

  lemma {:induction false} ScheduleKeepsInv(packets: seq<seq<seq<byte>>>, ts: seq<Turn>, seek: SeekTest)
    requires forall c :: 0 <= c < |packets| ==> AllPackets(packets[c])
    requires Play(InitState(packets), ts, seek).Some?
    ensures ServerInv(Play(InitState(packets), ts, seek).value, packets, seek)
  {
    if ts == [] {
      InitServerInv(packets, seek);
    } else {
      var t := ts[|ts| - 1];
      ScheduleKeepsInv(packets, ts[..|ts| - 1], seek);
      EveryMoveKeepsInv(Play(InitState(packets), ts[..|ts| - 1], seek).value, t.c, t.m, packets, seek);
    }
  }
}
