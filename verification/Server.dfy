/**
 The server's client threads on top of the driver: write_new_packet and reply_to_client of
 server/client_flow.c, with the shared rwlock, running system calls against module Driver.  A state
 is the product of the kernel state and one connection per thread; every interleaving of server steps
 and kernel steps is a run.

 A packet reaches the driver as any sequence of nonempty writes.  Writes issued by the server do not
 fail; reads and seeks may.
 */
module Server {
  import opened Base
  import opened WriteLog
  import opened Driver
  import opened ServerKernel

  /** The sscanf test of line 91: the parameters of a seek command, or None for ordinary text. */
  type SeekTest = seq<byte> -> Option<(nat, nat)>

  datatype Phase =
    | Ready                    // between packets
    | Writing                  // holds the lock, lines 105-106
    | Seeking | Sought         // holds the lock, before and after issuing the ioctl of line 101
    | ReplyWait                // before line 25
    | Replying | InRead        // holds the lock for reading, between and inside the reads of line 29
    | Replied                  // before line 34

  datatype Conn = Conn(
    phase: Phase,
    todo: seq<seq<byte>>,      // packets reassembled and not yet handled
    packet: seq<byte>,         // flat_data
    sent: nat,                 // how much of it has been passed to write
    start: nat,                // file position when the reply began
    reply: seq<byte>,          // what the reply has sent
    complete: bool,            // the reply ended at end of file, not on an error
    done: seq<seq<byte>>       // history: packets handled
  )

  datatype State = State(
    k: Sys,
    lock: RwLock,              // rw_file_lock
    conns: seq<Conn>,          // connection c is kernel thread c
    order: seq<Write>          // history: non-seek packets in the order their writers took the lock
  )

  datatype Move =
    | WrLock | SendPiece(n: nat) | IssueSeek | WrUnlock
    | RdLock | IssueRead(count: nat) | TakeRead | RdUnlock
    | Kernel(a: Action)

  function InitConn(packets: seq<seq<byte>>): Conn {
    Conn(Ready, packets, [], 0, 0, [], false, [])
  }

  /** Fresh device, nobody connected has done anything; connection c will handle packets[c]. */
  function InitState(packets: seq<seq<seq<byte>>>): State {
    State(InitSys(Rings.MAX_WRITE_OPERATIONS, |packets|), RwLock(None, {}),
          seq(|packets|, c requires 0 <= c < |packets| => InitConn(packets[c])), [])
  }

  predicate HoldsWr(p: Phase) { p.Writing? || p.Seeking? || p.Sought? }

  predicate HoldsRd(p: Phase) { p.Replying? || p.InRead? || p.Replied? }

  predicate KernelIdle(s: State, c: nat) {
    c < |s.k.threads| && s.k.threads[c].pc == Idle
  }

  predicate CanMove(s: State, c: nat, m: Move, seek: SeekTest) {
    && c < |s.conns|
    && var cn := s.conns[c];
       match m
       case WrLock => cn.phase == Ready && cn.todo != [] && LockFree(s.lock)
       case SendPiece(n) => cn.phase == Writing && KernelIdle(s, c) && 0 < n && cn.sent + n <= |cn.packet|
       case IssueSeek => cn.phase == Seeking && KernelIdle(s, c) && seek(cn.packet).Some?
       case WrUnlock =>
         && KernelIdle(s, c)
         && ((cn.phase == Writing && cn.sent == |cn.packet|) || cn.phase == Sought)
       case RdLock => cn.phase == ReplyWait && KernelIdle(s, c) && s.lock.writer == None
       case IssueRead(count) => cn.phase == Replying && KernelIdle(s, c) && 0 < count
       case TakeRead => cn.phase == InRead && KernelIdle(s, c)
       case RdUnlock => cn.phase == Replied
       case Kernel(a) => Inside(a) && NoFailure(a) && Enabled(s.k, Label(c, a))
  }

  function PutConn(s: State, c: nat, cn: Conn): State
    requires c < |s.conns|
  {
    s.(conns := s.conns[c := cn])
  }

  /** Line 94: take the lock with the next packet. */
  function WrLockMove(s: State, c: nat, seek: SeekTest): State
    requires c < |s.conns| && s.conns[c].todo != []
  {
    var cn := s.conns[c];
    var p := cn.todo[0];
    PutConn(s, c, cn.(phase := if seek(p) == None then Writing else Seeking,
                      packet := p, todo := cn.todo[1..], sent := 0))
      .(lock := RwLock(Some(c), {}),
        order := if seek(p) == None then s.order + [Write(c, p)] else s.order)
  }

  /** One write(2) of fwrite and fflush begins. */
  function SendPieceMove(s: State, c: nat, n: nat): State
    requires c < |s.conns| && KernelIdle(s, c) && s.conns[c].sent + n <= |s.conns[c].packet|
  {
    var cn := s.conns[c];
    PutConn(s, c, cn.(sent := cn.sent + n))
      .(k := StartWriteStep(s.k, c, cn.packet[cn.sent..cn.sent + n]))
  }

  /** One read(2) of fread begins. */
  function IssueReadMove(s: State, c: nat, count: nat): State
    requires c < |s.conns| && KernelIdle(s, c)
  {
    PutConn(s, c, s.conns[c].(phase := InRead)).(k := StartReadStep(s.k, c, count))
  }

  /** The read that returned: data, end of file, or an error. */
  function TakeReadMove(s: State, c: nat): State
    requires c < |s.conns| && KernelIdle(s, c)
  {
    var cn, th := s.conns[c], s.k.threads[c];
    PutConn(s, c, if th.ret > 0 then cn.(phase := Replying, reply := cn.reply + th.got)
                  else cn.(phase := Replied, complete := th.ret == 0))
  }

  function Moved(s: State, c: nat, m: Move, seek: SeekTest): State
    requires CanMove(s, c, m, seek)
  {
    var cn := s.conns[c];
    match m
    case WrLock => WrLockMove(s, c, seek)
    case SendPiece(n) => SendPieceMove(s, c, n)
    case IssueSeek =>
      var (cmd, off) := seek(cn.packet).value;
      PutConn(s, c, cn.(phase := Sought))
        .(k := Put(s.k, c, s.k.threads[c].(pc := ILock, cmd := cmd, cmdOff := off)))
    case WrUnlock =>
      PutConn(s, c, cn.(phase := ReplyWait, done := cn.done + [cn.packet])).(lock := s.lock.(writer := None))
    case RdLock =>
      PutConn(s, c, cn.(phase := Replying, start := s.k.threads[c].fpos, reply := [], complete := false))
        .(lock := s.lock.(readers := s.lock.readers + {c}))
    case IssueRead(count) => IssueReadMove(s, c, count)
    case TakeRead => TakeReadMove(s, c)
    case RdUnlock => PutConn(s, c, cn.(phase := Ready)).(lock := s.lock.(readers := s.lock.readers - {c}))
    case Kernel(a) => s.(k := Apply(s.k, Label(c, a)))
  }

  /** Every client has handled its whole stream. */
  predicate Finished(s: State) {
    forall c :: 0 <= c < |s.conns| ==> s.conns[c].phase == Ready && s.conns[c].todo == []
  }

  /** A schedule: who moves, and how. */
  datatype Turn = Turn(c: nat, m: Move)

  /** The state after a schedule, or None when some turn could not be taken. */
  function Play(s: State, ts: seq<Turn>, seek: SeekTest): Option<State>
    decreases |ts|, 1
  {
    if ts == [] then Some(s) else LastTurn(s, ts, seek)
  }

  /** The schedule but for its last turn, and then that. */
  function LastTurn(s: State, ts: seq<Turn>, seek: SeekTest): Option<State>
    requires ts != []
    decreases |ts|, 0
  {
    match Play(s, ts[..|ts| - 1], seek)
    case None => None
    case Some(r) =>
      var t := ts[|ts| - 1];
      if CanMove(r, t.c, t.m, seek) then Some(Moved(r, t.c, t.m, seek)) else None
  }
}
