/**
 aesd-char-driver/main.c as a transition system: any number of threads run read, write and ioctl
 calls against one device, one source line (or one exclusively locked group of lines) at a time.

 Memory is a map from live allocation ids to contents.  Every dereference, free and source assertion
 that would go wrong sets `fault`; nothing in the step rules prevents that from happening.
 */
module Driver {
  import opened Base
  import opened Rings
  import opened WriteLog

  const EINTR := 4
  const ENOMEM := 12
  const EFAULT := 14
  const EINVAL := 22
  const ERESTARTSYS := 512

  /** Where a thread stands. */
  datatype Pc =
    | Idle
    // aesd_write
    | WAlloc | WCopy | WLock | WAppend | WCommit | WUnlock | WFreeEvicted | WFreeKern
    // aesd_read
    | RLock | RFind | RCopy | RUnlock
    // aesd_ioctl
    | ILock | ISeek | IUnlock

  /** One thread with its open file: the local variables of the call it is in, and the file position. */
  datatype Thread = Thread(
    pc: Pc,
    fpos: nat,                 // filp->f_pos
    data: seq<byte>,           // the user's buffer of a write
    kern: Ptr,                 // kern_buf
    evicted: Entry,            // evicted_entry
    count: nat,                // the count of a read
    src: Ptr,                  // entry->buffptr of a read
    off: nat,                  // offset of a read
    want: nat,                 // size of a read
    got: seq<byte>,            // what a read has copied to the user so far
    cmd: nat, cmdOff: nat,     // seekto
    ret: int,                  // retval
    acked: seq<seq<byte>>      // history: data of the writes that returned success
  )

  datatype RwLock = RwLock(writer: Option<nat>, readers: set<nat>)

  datatype Sys = Sys(
    ring: Ring,
    temp: Entry,
    mem: map<nat, seq<byte>>,  // live allocations
    next: nat,                 // ids from here on were never used
    lock: RwLock,
    threads: seq<Thread>,
    fault: bool,
    writes: seq<Write>         // history: accepted writes in the order they took effect
  )

  datatype Action =
    | StartWrite(data: seq<byte>)
    | Kmalloc(ok: bool, junk: seq<byte>)
    | CopyFromUser(ok: bool, junk: seq<byte>)
    | DownWrite(ok: bool)
    | Append(ok: bool, moved: bool)
    | Commit
    | UpWrite
    | FreeEvicted
    | FreeKern
    | StartRead(count: nat)
    | DownRead(ok: bool)
    | Find
    | CopyByte
    | CopyToUser(ok: bool)
    | UpRead
    | BadIoctl(err: int)
    | StartSeek(cmd: nat, cmdOff: nat)
    | DownSeek(ok: bool)
    | Seek
    | UpSeek

  datatype Label = Label(t: nat, a: Action)

  function InitThread(fpos: nat): Thread {
    Thread(Idle, fpos, [], Null, NULL_ENTRY, 0, Null, 0, 0, [], 0, 0, 0, [])
  }

  /** After aesd_init_module: m threads, none in a call. */
  function InitSys(n: nat, m: nat): Sys {
    Sys(Empty(n), NULL_ENTRY, map[], 0, RwLock(None, {}), seq(m, _ => InitThread(0)), false, [])
  }

  predicate HoldsWrite(pc: Pc) {
    pc in {WAppend, WCommit, WUnlock, ISeek, IUnlock}
  }

  predicate HoldsRead(pc: Pc) {
    pc in {RFind, RCopy, RUnlock}
  }

  predicate LockFree(l: RwLock) {
    l.writer == None && l.readers == {}
  }

  /** When a step can be taken.  Down* with ok wait for the semaphore; with !ok they were interrupted. */
  predicate Enabled(s: Sys, l: Label) {
    && l.t < |s.threads|
    && var th := s.threads[l.t];
       match l.a
       case StartWrite(_) => th.pc == Idle
       case Kmalloc(_, junk) => th.pc == WAlloc && |junk| == |th.data|
       case CopyFromUser(_, junk) => th.pc == WCopy && |junk| == |th.data|
       case DownWrite(ok) => th.pc == WLock && (ok ==> LockFree(s.lock))
       case Append(_, _) => th.pc == WAppend
       case Commit => th.pc == WCommit
       case UpWrite => th.pc == WUnlock
       case FreeEvicted => th.pc == WFreeEvicted
       case FreeKern => th.pc == WFreeKern
       case StartRead(_) => th.pc == Idle
       case DownRead(ok) => th.pc == RLock && (ok ==> s.lock.writer == None)
       case Find => th.pc == RFind
       case CopyByte => th.pc == RCopy && |th.got| < th.want
       case CopyToUser(ok) => th.pc == RCopy && (ok ==> |th.got| >= th.want)
       case UpRead => th.pc == RUnlock
       case BadIoctl(err) => th.pc == Idle && err in {EINVAL, EFAULT}
       case StartSeek(_, _) => th.pc == Idle
       case DownSeek(ok) => th.pc == ILock && (ok ==> LockFree(s.lock))
       case Seek => th.pc == ISeek
       case UpSeek => th.pc == IUnlock
  }

  function Put(s: Sys, t: nat, th: Thread): Sys
    requires t < |s.threads|
  {
    s.(threads := s.threads[t := th])
  }

  /** `if (p) kfree(p)` */
  function Kfree(s: Sys, p: Ptr): Sys {
    if p.Null? then s
    else if p.id in s.mem then s.(mem := s.mem - {p.id})
    else s.(fault := true)
  }

  function StartWriteStep(s: Sys, t: nat, data: seq<byte>): Sys
    requires t < |s.threads|
  {
    var th := s.threads[t];
    if data == [] then Put(s, t, th.(ret := 0))
    else Put(s, t, th.(pc := WAlloc, data := data, kern := Null, evicted := NULL_ENTRY, ret := -ENOMEM))
  }

  function KmallocStep(s: Sys, t: nat, ok: bool, junk: seq<byte>): Sys
    requires t < |s.threads|
  {
    var th := s.threads[t];
    if ok then Put(s, t, th.(pc := WCopy, kern := Addr(s.next)))
               .(mem := s.mem[s.next := junk], next := s.next + 1)
    else Put(s, t, th.(pc := WFreeEvicted, ret := -ENOMEM))
  }

  function CopyFromUserStep(s: Sys, t: nat, ok: bool, junk: seq<byte>): Sys
    requires t < |s.threads|
  {
    var th := s.threads[t];
    if th.kern.Null? || th.kern.id !in s.mem then s.(fault := true)
    else if ok then Put(s, t, th.(pc := WLock)).(mem := s.mem[th.kern.id := th.data])
    else Put(s, t, th.(pc := WFreeEvicted, ret := -EFAULT)).(mem := s.mem[th.kern.id := junk])
  }

  /** Taking the semaphore for writing, or being interrupted. */
  function DownWriteStep(s: Sys, t: nat, ok: bool, next: Pc, broken: Pc): Sys
    requires t < |s.threads|
  {
    var th := s.threads[t];
    if ok then Put(s, t, th.(pc := next)).(lock := RwLock(Some(t), {}))
    else Put(s, t, th.(pc := broken, ret := -EINTR))
  }

  /** Lines 134-174: append to temp_entry under the write lock. */
  function AppendStep(s: Sys, t: nat, ok: bool, moved: bool): Sys
    requires t < |s.threads|
  {
    var th := s.threads[t];
    var newline := EndsInNewline(th.data);
    var th' := th.(pc := if newline then WCommit else WUnlock, ret := |th.data|);
    var ws := if newline then s.writes else s.writes + [Write(t, th.data)];
    if th.kern.Null? || th.kern.id !in s.mem then
      s.(fault := true)
    else if s.temp.buffptr.Null? then
      Put(s, t, th'.(kern := Null)).(temp := Entry(th.kern, |th.data|), writes := ws)
    else if s.temp.buffptr.id !in s.mem then
      s.(fault := true)
    else if !ok then
      Put(s, t, th.(pc := WUnlock, ret := -ENOMEM))
    else
      var id := if moved then s.next else s.temp.buffptr.id;
      var bytes := s.mem[s.temp.buffptr.id] + s.mem[th.kern.id];
      Put(s, t, th').(mem := (s.mem - {s.temp.buffptr.id})[id := bytes],
                      next := if moved then s.next + 1 else s.next,
                      temp := Entry(Addr(id), s.temp.size + |th.data|),
                      writes := ws)
  }

  /** Lines 181-183; a ring that violates the assertions of add_entry is a fault. */
  function CommitStep(s: Sys, t: nat): Sys
    requires t < |s.threads|
  {
    var th := s.threads[t];
    if !WellFormed(s.ring) then s.(fault := true)
    else
      var (r, evicted) := Push(s.ring, s.temp);
      Put(s, t, th.(pc := WUnlock, evicted := evicted))
        .(ring := r, temp := NULL_ENTRY, writes := s.writes + [Write(t, th.data)])
  }

  /** Lines 68-77: locate the position and read the entry through the ring; the asserts can fault. */
  function FindStep(s: Sys, t: nat): Sys
    requires t < |s.threads|
  {
    var th := s.threads[t];
    if !WellFormed(s.ring) then s.(fault := true)
    else match Locate(Logical(s.ring), th.fpos)
      case None => Put(s, t, th.(pc := RUnlock, got := [], ret := 0))
      case Some((i, off)) =>
        if i >= Size(s.ring) then s.(fault := true)
        else
          var e := Logical(s.ring)[i];
          if e.buffptr.Null? || off >= e.size then s.(fault := true)
          else Put(s, t, th.(pc := RCopy, got := [], src := e.buffptr, off := off,
                             want := if th.count < e.size - off then th.count else e.size - off))
  }

  /** One byte of copy_to_user: reading freed memory or past its end is a fault. */
  function CopyByteStep(s: Sys, t: nat): Sys
    requires t < |s.threads|
  {
    var th := s.threads[t];
    if th.src.Addr? && th.src.id in s.mem && th.off + |th.got| < |s.mem[th.src.id]| then
      Put(s, t, th.(got := th.got + [s.mem[th.src.id][th.off + |th.got|]]))
    else s.(fault := true)
  }

  /** Lines 240-249 */
  function SeekStep(s: Sys, t: nat): Sys
    requires t < |s.threads|
  {
    var th := s.threads[t];
    if !WellFormed(s.ring) then s.(fault := true)
    else
      var es := Logical(s.ring);
      Put(s, t, if ValidPair(es, th.cmd, th.cmdOff)
                then th.(pc := IUnlock, fpos := PosOf(es, th.cmd, th.cmdOff), ret := 0)
                else th.(pc := IUnlock, ret := -EINVAL))
  }

  function UpWriteStep(s: Sys, t: nat, next: Pc): Sys
    requires t < |s.threads|
  {
    Put(s, t, s.threads[t].(pc := next)).(lock := s.lock.(writer := None))
  }

  function FreeEvictedStep(s: Sys, t: nat): Sys
    requires t < |s.threads|
  {
    var th := s.threads[t];
    Kfree(Put(s, t, th.(pc := WFreeKern, evicted := NULL_ENTRY)), th.evicted.buffptr)
  }

  function FreeKernStep(s: Sys, t: nat): Sys
    requires t < |s.threads|
  {
    var th := s.threads[t];
    Kfree(Put(s, t, th.(pc := Idle, kern := Null,
                        acked := if th.ret >= 0 then th.acked + [th.data] else th.acked)),
          th.kern)
  }

  function StartReadStep(s: Sys, t: nat, count: nat): Sys
    requires t < |s.threads|
  {
    var th := s.threads[t];
    if count == 0 then Put(s, t, th.(ret := 0, got := []))
    else Put(s, t, th.(pc := RLock, count := count, got := []))
  }

  function DownReadStep(s: Sys, t: nat, ok: bool): Sys
    requires t < |s.threads|
  {
    var th := s.threads[t];
    if ok then Put(s, t, th.(pc := RFind)).(lock := s.lock.(readers := s.lock.readers + {t}))
    else Put(s, t, th.(pc := Idle, ret := -ERESTARTSYS))
  }

  function CopyToUserStep(s: Sys, t: nat, ok: bool): Sys
    requires t < |s.threads|
  {
    var th := s.threads[t];
    if ok then Put(s, t, th.(pc := RUnlock, fpos := th.fpos + th.want, ret := th.want))
    else Put(s, t, th.(pc := RUnlock, ret := -EFAULT))
  }

  function UpReadStep(s: Sys, t: nat): Sys
    requires t < |s.threads|
  {
    Put(s, t, s.threads[t].(pc := Idle)).(lock := s.lock.(readers := s.lock.readers - {t}))
  }

  /** The effect of a step. */
  function Apply(s: Sys, l: Label): Sys
    requires l.t < |s.threads|
  {
    var t := l.t;
    match l.a
    case StartWrite(data) => StartWriteStep(s, t, data)
    case Kmalloc(ok, junk) => KmallocStep(s, t, ok, junk)
    case CopyFromUser(ok, junk) => CopyFromUserStep(s, t, ok, junk)
    case DownWrite(ok) => DownWriteStep(s, t, ok, WAppend, WFreeEvicted)
    case Append(ok, moved) => AppendStep(s, t, ok, moved)
    case Commit => CommitStep(s, t)
    case UpWrite => UpWriteStep(s, t, WFreeEvicted)
    case FreeEvicted => FreeEvictedStep(s, t)
    case FreeKern => FreeKernStep(s, t)
    case StartRead(count) => StartReadStep(s, t, count)
    case DownRead(ok) => DownReadStep(s, t, ok)
    case Find => FindStep(s, t)
    case CopyByte => CopyByteStep(s, t)
    case CopyToUser(ok) => CopyToUserStep(s, t, ok)
    case UpRead => UpReadStep(s, t)
    case BadIoctl(err) => Put(s, t, s.threads[t].(ret := -err))
    case StartSeek(cmd, cmdOff) => Put(s, t, s.threads[t].(pc := ILock, cmd := cmd, cmdOff := cmdOff))
    case DownSeek(ok) => DownWriteStep(s, t, ok, ISeek, Idle)
    case Seek => SeekStep(s, t)
    case UpSeek => UpWriteStep(s, t, Idle)
  }

  /** The state after a run of labels, or None when some label was not enabled in its turn. */
  function Exec(s: Sys, ls: seq<Label>): Option<Sys>
    decreases |ls|, 1
  {
    if ls == [] then Some(s) else LastStep(s, ls)
  }

  /** The run but for its last label, and then that. */
  function LastStep(s: Sys, ls: seq<Label>): Option<Sys>
    requires ls != []
    decreases |ls|, 0
  {
    match Exec(s, ls[..|ls| - 1])
    case None => None
    case Some(m) => if Enabled(m, ls[|ls| - 1]) then Some(Apply(m, ls[|ls| - 1])) else None
  }

  lemma ExecSnoc(s: Sys, ls: seq<Label>, l: Label)
    requires Exec(s, ls).Some? && Enabled(Exec(s, ls).value, l)
    ensures Exec(s, ls + [l]) == Some(Apply(Exec(s, ls).value, l))
  {
    assert (ls + [l])[..|ls|] == ls;
  }
}
