/**
 How a system call in flight looks from the server: what each kernel step of a write, a read or a
 seek can change, stated only in terms of the calling thread and the accepted writes.
 */
module ServerKernel {
  import opened Base
  import opened Rings
  import opened WriteLog
  import opened Driver
  import opened DriverInvariant
  import opened DriverTheorems
  import opened Runs

  /** The text a reader can see after these accepted writes. */
  function Text(ws: seq<Write>): seq<byte> {
    Visible(Replay(ws).log, MAX_WRITE_OPERATIONS)
  }

  lemma TextOfDevice(k: Sys)
    requires Sound(k)
    ensures Inv(k) && Flat(Contents(k)) == Text(k.writes)
  {
    var m :| RunsTo(InitSys(MAX_WRITE_OPERATIONS, m), k);
    ReachableInv(k, MAX_WRITE_OPERATIONS, m);
    DeviceReplaysAcceptedWrites(k, MAX_WRITE_OPERATIONS, m);
  }

  /** A step inside a call, as opposed to a step that starts one. */
  predicate Inside(a: Action) {
    !(a.StartWrite? || a.StartRead? || a.StartSeek? || a.BadIoctl?)
  }

  /** No step of a write fails. */
  predicate NoFailure(a: Action) {
    && (a.Kmalloc? || a.CopyFromUser? || a.DownWrite? || a.Append? ==> a.ok)
  }

  lemma StepSound(k: Sys, l: Label)
    requires Sound(k) && Enabled(k, l)
    ensures Sound(Apply(k, l))
  {
    var m :| RunsTo(InitSys(MAX_WRITE_OPERATIONS, m), k);
    RunsToStep(InitSys(MAX_WRITE_OPERATIONS, m), k, l);
  }

  // ---------------------------------------------------------------- writes

  /** A write call whose data has not taken effect yet. */
  predicate Unapplied(th: Thread) {
    th.pc in {WAlloc, WCopy, WLock, WAppend, WCommit}
  }

  /** A write call that has not failed. */
  predicate GoodWrite(th: Thread) {
    InWrite(th.pc) && (th.pc in {WUnlock, WFreeEvicted, WFreeKern} ==> th.ret >= 0)
  }

  /** What a step of a write that does not fail can do: its data is accepted once, nothing else. */
  predicate WriteMoves(k: Sys, k': Sys, t: nat) {
    && t < |k.threads| == |k'.threads|
    && var th, th' := k.threads[t], k'.threads[t];
       && (th'.pc == Idle || (GoodWrite(th') && th'.data == th.data))
       && (th'.pc == Idle ==> !Unapplied(th))
       && (Unapplied(th') ==> Unapplied(th))
       && k'.writes == if Unapplied(th) && !Unapplied(th') then k.writes + [Write(t, th.data)] else k.writes
  }

  lemma AppendProgress(k: Sys, t: nat, moved: bool)
    requires Sound(k) && At(k, t, WAppend)
    ensures WriteMoves(k, AppendStep(k, t, true, moved), t)
  {
    WriterFacts(k, t);
  }

  lemma CommitProgress(k: Sys, t: nat)
    requires Sound(k) && At(k, t, WCommit)
    ensures WriteMoves(k, CommitStep(k, t), t)
  {
    WriterFacts(k, t);
  }

  lemma BeforeLockProgress(k: Sys, t: nat, a: Action)
    requires Sound(k) && Enabled(k, Label(t, a)) && NoFailure(a)
    requires a.Kmalloc? || a.CopyFromUser? || a.DownWrite?
    ensures WriteMoves(k, Apply(k, Label(t, a)), t)
  {
    WriterFacts(k, t);
  }

  lemma AfterLockProgress(k: Sys, t: nat, a: Action)
    requires Sound(k) && Enabled(k, Label(t, a)) && GoodWrite(k.threads[t])
    requires a.UpWrite? || a.FreeEvicted? || a.FreeKern?
    ensures WriteMoves(k, Apply(k, Label(t, a)), t)
  {
    WriterFacts(k, t);
  }

  lemma WriteProgress(k: Sys, t: nat, a: Action)
    requires Sound(k) && Enabled(k, Label(t, a)) && Inside(a) && NoFailure(a)
    requires GoodWrite(k.threads[t])
    ensures WriteMoves(k, Apply(k, Label(t, a)), t)
  {
    match a
    case Append(_, moved) => AppendProgress(k, t, moved);
    case Commit => CommitProgress(k, t);
    case UpWrite => AfterLockProgress(k, t, a);
    case FreeEvicted => AfterLockProgress(k, t, a);
    case FreeKern => AfterLockProgress(k, t, a);
    case _ => BeforeLockProgress(k, t, a);
  }

  // ---------------------------------------------------------------- reads

  predicate InReadCall(pc: Pc) {
    pc in {RLock, RFind, RCopy, RUnlock}
  }

  /** A read call that began at position p of a text: in flight, or returned. */
  predicate ReadState(th: Thread, p: nat, text: seq<byte>) {
    if th.pc in {RLock, RFind, RCopy} then th.fpos == p
    else if th.ret > 0 then
      p + th.ret <= |text| && th.got == text[p..p + th.ret] && th.fpos == p + th.ret
    else th.fpos == p && (th.ret == 0 ==> |text| <= p)
  }

  /** What a step of a read can do. */
  predicate ReadMoves(k: Sys, k': Sys, t: nat, p: nat) {
    && t < |k.threads| == |k'.threads| && k'.writes == k.writes
    && (InReadCall(k'.threads[t].pc) || k'.threads[t].pc == Idle)
    && ReadState(k'.threads[t], p, Text(k.writes))
  }

  lemma ReadProgress(k: Sys, t: nat, a: Action, p: nat)
    requires Sound(k) && Enabled(k, Label(t, a)) && Inside(a)
    requires InReadCall(k.threads[t].pc) && ReadState(k.threads[t], p, Text(k.writes))
    ensures ReadMoves(k, Apply(k, Label(t, a)), t, p)
  {
    match a
    case Find => FindProgress(k, t, p);
    case CopyByte => CopyByteProgress(k, t, p);
    case CopyToUser(ok) => CopyToUserProgress(k, t, ok, p);
    case _ =>
  }

  lemma CopyByteProgress(k: Sys, t: nat, p: nat)
    requires Sound(k) && At(k, t, RCopy) && k.threads[t].fpos == p && |k.threads[t].got| < k.threads[t].want
    ensures ReadMoves(k, CopyByteStep(k, t), t, p)
  {
  }

  /** What has been copied when a copy_to_user is complete. */
  lemma CopiedText(k: Sys, t: nat)
    requires Sound(k) && At(k, t, RCopy) && |k.threads[t].got| >= k.threads[t].want
    ensures var th := k.threads[t];
            && 0 < th.want && th.fpos + th.want <= |Text(k.writes)|
            && th.got == Text(k.writes)[th.fpos..th.fpos + th.want]
  {
    TextOfDevice(k);
    ReadReturnsTheText(k, t);
  }

  lemma CopyToUserProgress(k: Sys, t: nat, ok: bool, p: nat)
    requires Sound(k) && At(k, t, RCopy) && k.threads[t].fpos == p
    requires ok ==> |k.threads[t].got| >= k.threads[t].want
    ensures ReadMoves(k, CopyToUserStep(k, t, ok), t, p)
  {
    if ok { CopiedText(k, t); }
  }

  /** Where the search stops. */
  lemma FoundText(k: Sys, t: nat)
    requires Sound(k) && At(k, t, RFind)
    ensures var k' := FindStep(k, t);
            && |k'.threads| == |k.threads| && k'.writes == k.writes
            && k'.threads[t].fpos == k.threads[t].fpos
            && k'.threads[t].pc in {RCopy, RUnlock}
            && (k'.threads[t].pc == RUnlock ==> k'.threads[t].ret == 0 && |Text(k.writes)| <= k.threads[t].fpos)
  {
    TextOfDevice(k);
    EndOfFileIffNoText(k, t);
    assert ThreadInv(k, t);
    FindReads(k, t);
  }

  lemma FindProgress(k: Sys, t: nat, p: nat)
    requires Sound(k) && At(k, t, RFind) && k.threads[t].fpos == p
    ensures ReadMoves(k, FindStep(k, t), t, p)
  {
    FoundText(k, t);
  }

  // ---------------------------------------------------------------- seeks

  predicate InSeekCall(pc: Pc) {
    pc in {ILock, ISeek, IUnlock}
  }

  /** What a step of a seek can do: move the position, and nothing else that others can see. */
  predicate SeekStays(k: Sys, k': Sys, t: nat) {
    && k'.writes == k.writes && t < |k.threads| == |k'.threads|
    && var th, th' := k.threads[t], k'.threads[t];
       && (InSeekCall(th'.pc) || th'.pc == Idle)
       && (th'.pc in {ILock, ISeek} ==> th.pc in {ILock, ISeek} && th'.cmd == th.cmd && th'.cmdOff == th.cmdOff)
  }

  lemma SeekProgress(k: Sys, t: nat, a: Action)
    requires Sound(k) && Enabled(k, Label(t, a)) && Inside(a) && InSeekCall(k.threads[t].pc)
    ensures SeekStays(k, Apply(k, Label(t, a)), t)
  {
    StoreFacts(k);
  }
}
