/**
 What a file position sees over time.  Between two calls of its thread a position does not change, but
 the text under it does: other threads commit and evict.  Stated for every run of the driver.
 */
module Positions {
  import opened Base
  import opened Rings
  import opened WriteLog
  import opened Driver
  import opened DriverInvariant
  import opened DriverTheorems

  /** The steps that move the position of thread t: a read that delivered, and a seek. */
  predicate MovesPosition(l: Label, t: nat) {
    l.t == t && (l.a == Seek || l.a == CopyToUser(true))
  }

  predicate Stays(ls: seq<Label>, t: nat) {
    forall i :: 0 <= i < |ls| ==> !MovesPosition(ls[i], t)
  }

  /** What thread t would read from here to end of file. */
  function Ahead(s: Sys, t: nat): seq<byte>
    requires t < |s.threads|
  {
    if WellFormed(s.ring) then From(Flat(Contents(s)), s.threads[t].fpos) else []
  }

  function LogOf(s: Sys): seq<seq<byte>> {
    Replay(s.writes).log
  }

  // ---------------------------------------------------------------- runs

  lemma StepKeepsPosition(s: Sys, l: Label, t: nat)
    requires Enabled(s, l) && t < |s.threads| && !MovesPosition(l, t)
    ensures |Apply(s, l).threads| == |s.threads| && Apply(s, l).threads[t].fpos == s.threads[t].fpos
  {
    StepFrame(s, l);
    if l.t == t {
      match l.a
      case Append(ok, moved) => assert AppendStep(s, t, ok, moved) == Apply(s, l);
      case Commit => assert CommitStep(s, t) == Apply(s, l);
      case Find => assert FindStep(s, t) == Apply(s, l);
      case _ =>
    }
  }

  lemma {:induction false} RunKeepsPosition(s: Sys, ls: seq<Label>, t: nat)
    requires Exec(s, ls).Some? && t < |s.threads| && Stays(ls, t)
    ensures var s' := Exec(s, ls).value;
            |s'.threads| == |s.threads| && s'.threads[t].fpos == s.threads[t].fpos
  {
    if ls != [] {
      RunKeepsPosition(s, ls[..|ls| - 1], t);
      StepKeepsPosition(Exec(s, ls[..|ls| - 1]).value, ls[|ls| - 1], t);
    }
  }

  lemma {:induction false} RunExtendsWrites(s: Sys, ls: seq<Label>)
    requires Exec(s, ls).Some?
    ensures s.writes <= Exec(s, ls).value.writes
  {
    if ls != [] {
      RunExtendsWrites(s, ls[..|ls| - 1]);
      StepRecordsOwnWrite(Exec(s, ls[..|ls| - 1]).value, ls[|ls| - 1]);
    }
  }

  lemma {:induction false} ExecAppend(s: Sys, a: seq<Label>, b: seq<Label>)
    requires Exec(s, a).Some?
    ensures Exec(s, a + b) == Exec(Exec(s, a).value, b)
  {
    if b == [] {
      assert a + b == a;
    } else {
      ExecAppend(s, a, b[..|b| - 1]);
      assert (a + b)[..|a + b| - 1] == a + b[..|b| - 1];
    }
  }

  lemma ReachableLater(s: Sys, ls: seq<Label>, s': Sys, n: nat, m: nat)
    requires Reachable(s, n, m) && Exec(s, ls) == Some(s')
    ensures Reachable(s', n, m)
  {
    var ls0 :| Exec(InitSys(n, m), ls0) == Some(s);
    ExecAppend(InitSys(n, m), ls0, ls);
  }

  lemma CommittedNonEmpty(s: Sys, n: nat, m: nat)
    requires 1 <= n <= 255 && Reachable(s, n, m)
    ensures NonEmpty(LogOf(s))
  {
    ReachableInv(s, n, m);
    ReplayNonEmpty(s.writes);
  }

  lemma NonEmptyParts(a: seq<seq<byte>>, b: seq<seq<byte>>)
    requires NonEmpty(a + b)
    ensures NonEmpty(a) && NonEmpty(b)
  {
    assert forall i :: 0 <= i < |a| ==> a[i] == (a + b)[i];
    assert forall i :: 0 <= i < |b| ==> b[i] == (a + b)[|a| + i];
  }

  /** What was committed between two states of a run. */
  lemma CommittedSince(s: Sys, ls: seq<Label>, s': Sys, n: nat, m: nat) returns (more: seq<seq<byte>>)
    requires 1 <= n <= 255 && Reachable(s, n, m) && Exec(s, ls) == Some(s')
    ensures LogOf(s') == LogOf(s) + more && NonEmpty(LogOf(s)) && NonEmpty(more)
  {
    RunExtendsWrites(s, ls);
    ReplayLogGrows(s'.writes, |s.writes|);
    assert s'.writes[..|s.writes|] == s.writes;
    more := LogOf(s')[|LogOf(s)|..];
    ReachableLater(s, ls, s', n, m);
    CommittedNonEmpty(s', n, m);
    NonEmptyParts(LogOf(s), more);
  }

  lemma AheadIsVisible(s: Sys, n: nat, m: nat, t: nat)
    requires 1 <= n <= 255 && Reachable(s, n, m) && t < |s.threads|
    ensures WellFormed(s.ring) && Flat(Contents(s)) == Visible(LogOf(s), n)
    ensures Ahead(s, t) == From(Visible(LogOf(s), n), s.threads[t].fpos)
  {
    DeviceReplaysAcceptedWrites(s, n, m);
  }

  // ---------------------------------------------------------------- reading on

  /**
   A thread that stands in the text or at its end, and whose position stays while others go on, has
   ahead of it what it had, followed by what was committed since, less the first bytes of that: as many
   as were evicted since.  It can read on without a gap exactly when nothing was evicted.
   */
  lemma PositionInAnyRun(s: Sys, ls: seq<Label>, s': Sys, n: nat, m: nat, t: nat) returns (more: seq<seq<byte>>)
    requires 1 <= n <= 255 && Reachable(s, n, m) && Exec(s, ls) == Some(s')
    requires t < |s.threads| && Stays(ls, t) && WellFormed(s.ring) && s.threads[t].fpos <= |Flat(Contents(s))|
    ensures |s'.threads| == |s.threads| && LogOf(s') == LogOf(s) + more
    ensures Ahead(s', t) == From(Ahead(s, t) + Flat(more), Gone(LogOf(s), more, n))
    ensures Ahead(s', t) == Ahead(s, t) + Flat(more) <==> NothingEvicted(LogOf(s), more, n)
  {
    more := CommittedSince(s, ls, s', n, m);
    RunKeepsPosition(s, ls, t);
    ReachableLater(s, ls, s', n, m);
    AheadIsVisible(s, n, m, t);
    AheadIsVisible(s', n, m, t);
    ReadingOnAfterCommits(LogOf(s), more, n, s.threads[t].fpos);
  }

  /** The next read delivers the text ahead, at least a byte of it, and reports end of file exactly when there is none. */
  lemma NextReadDelivers(s: Sys, n: nat, m: nat, t: nat)
    requires 1 <= n <= 255 && Reachable(s, n, m) && t < |s.threads|
    ensures At(s, t, RFind) ==> (At(FindStep(s, t), t, RUnlock) <==> Ahead(s, t) == [])
    ensures At(s, t, RCopy) && |s.threads[t].got| >= s.threads[t].want ==>
              s.threads[t].got != [] && s.threads[t].got <= Ahead(s, t)
  {
    ReachableInv(s, n, m);
    if At(s, t, RFind) { EndOfFileIffNoText(s, t); }
    if At(s, t, RCopy) && |s.threads[t].got| >= s.threads[t].want { ReadReturnsTheText(s, t); }
  }

  /**
   The next read of a thread that reads on: the bytes it delivers are the first of all that lies before
   it and was committed since, after those that are gone; it reports end of file exactly when at least
   as much was evicted as there was to read, however much of it is new.
   */
  lemma NextReadInAnyRun(s: Sys, ls: seq<Label>, s': Sys, n: nat, m: nat, t: nat) returns (more: seq<seq<byte>>)
    requires 1 <= n <= 255 && Reachable(s, n, m) && Exec(s, ls) == Some(s')
    requires t < |s.threads| && Stays(ls, t) && WellFormed(s.ring) && s.threads[t].fpos <= |Flat(Contents(s))|
    ensures |s'.threads| == |s.threads| && LogOf(s') == LogOf(s) + more
    ensures var all, gone := Ahead(s, t) + Flat(more), Gone(LogOf(s), more, n);
            && (At(s', t, RFind) ==> (At(FindStep(s', t), t, RUnlock) <==> |all| <= gone))
            && (At(s', t, RCopy) && |s'.threads[t].got| >= s'.threads[t].want ==>
                  s'.threads[t].got != [] && s'.threads[t].got <= From(all, gone))
  {
    more := PositionInAnyRun(s, ls, s', n, m, t);
    ReachableLater(s, ls, s', n, m);
    NextReadDelivers(s', n, m, t);
  }

  // ---------------------------------------------------------------- seeking

  /** Flat positions, in terms of the texts of the entries. */
  lemma PosOfTexts(s: Sys, i: nat, off: nat)
    requires StoreInv(s) && i <= Size(s.ring)
    ensures PosOf(Logical(s.ring), i, off) == |Flat(Contents(s)[..i])| + off
  {
    var es := Logical(s.ring);
    LogicalEntriesOk(s);
    FlatTexts(s.mem, es[..i]);
    assert Texts(s.mem, es)[..i] == Texts(s.mem, es[..i]);
  }

  /** A byte of a retained entry exists for the seek exactly when it exists in the entry's text. */
  lemma ValidPairTexts(s: Sys, i: nat, off: nat)
    requires StoreInv(s)
    ensures ValidPair(Logical(s.ring), i, off) <==> i < |Contents(s)| && off < |Contents(s)[i]|
  {
    LogicalEntriesOk(s);
  }

  lemma StoreOk(s: Sys, n: nat, m: nat)
    requires 1 <= n <= 255 && Reachable(s, n, m)
    ensures StoreInv(s)
  {
    ReachableInv(s, n, m);
  }

  /** Where a seek leaves the position. */
  lemma SeekMoves(s: Sys, t: nat)
    requires StoreInv(s) && At(s, t, ISeek)
    ensures var th, es := s.threads[t], Contents(s);
            SeekStep(s, t) == Put(s, t, if th.cmd < |es| && th.cmdOff < |es[th.cmd]|
                                        then th.(pc := IUnlock, fpos := |Flat(es[..th.cmd])| + th.cmdOff, ret := 0)
                                        else th.(pc := IUnlock, ret := -EINVAL))
  {
    var th := s.threads[t];
    ValidPairTexts(s, th.cmd, th.cmdOff);
    if ValidPair(Logical(s.ring), th.cmd, th.cmdOff) { PosOfTexts(s, th.cmd, th.cmdOff); }
  }

  /** Thread t is about to seek to a byte that exists. */
  predicate SeeksExisting(s: Sys, t: nat) {
    && WellFormed(s.ring) && At(s, t, ISeek)
    && s.threads[t].cmd < |Contents(s)| && s.threads[t].cmdOff < |Contents(s)[s.threads[t].cmd]|
  }

  lemma AheadOfPut(s: Sys, t: nat, th: Thread)
    requires WellFormed(s.ring) && t < |s.threads|
    ensures Contents(Put(s, t, th)) == Contents(s) && Ahead(Put(s, t, th), t) == From(Flat(Contents(s)), th.fpos)
  {
  }

  /** A seek to a byte that exists has the rest of that entry and the later ones ahead. */
  lemma SeekFinds(s: Sys, t: nat)
    requires StoreInv(s) && SeeksExisting(s, t)
    ensures var th, s', es := s.threads[t], SeekStep(s, t), Contents(s);
            && |s'.threads| == |s.threads| && WellFormed(s'.ring) && LogOf(s') == LogOf(s)
            && s'.threads[t].fpos == |Flat(es[..th.cmd])| + th.cmdOff <= |Flat(Contents(s'))|
            && Ahead(s', t) == es[th.cmd][th.cmdOff..] + Flat(es[th.cmd + 1..])
  {
    var th, es := s.threads[t], Contents(s);
    SeekMoves(s, t);
    FlatFrom(es, th.cmd, th.cmdOff);
    var th' := th.(pc := IUnlock, fpos := |Flat(es[..th.cmd])| + th.cmdOff, ret := 0);
    AheadOfPut(s, t, th');
  }

  /** The entry a complete copy was taken from, and how much of it. */
  lemma CopiedFromEntry(s: Sys, th: Thread, i: nat, off: nat)
    requires StoreInv(s) && ReadInv(s, th) && th.pc == RCopy && |th.got| >= th.want
    requires i < |Contents(s)| && off < |Contents(s)[i]| && th.fpos == |Flat(Contents(s)[..i])| + off
    ensures var e := Contents(s)[i];
            th.got == e[off..off + Min(th.count, |e| - off)]
  {
    ValidPairTexts(s, i, off);
    PosOfTexts(s, i, off);
    LocateInvertsPosOf(Logical(s.ring), i, off);
  }

  lemma ReaderOk(s: Sys, n: nat, m: nat, t: nat)
    requires 1 <= n <= 255 && Reachable(s, n, m) && t < |s.threads|
    ensures StoreInv(s) && ReadInv(s, s.threads[t])
  {
    ReachableInv(s, n, m);
    assert ThreadInv(s, t);
  }

  /** Without eviction the retained entries are a prefix of the later ones. */
  lemma WindowGrows(log: seq<seq<byte>>, more: seq<seq<byte>>, n: nat, i: nat)
    requires NothingEvicted(log, more, n) && i < |LastN(log, n)|
    ensures i < |LastN(log + more, n)| && LastN(log + more, n)[i] == LastN(log, n)[i]
    ensures LastN(log + more, n)[..i] == LastN(log, n)[..i]
  {
    assert more == [] ==> log + more == log;
  }

  lemma ReachableSeek(s: Sys, t: nat, n: nat, m: nat)
    requires Reachable(s, n, m) && At(s, t, ISeek)
    ensures Reachable(SeekStep(s, t), n, m)
  {
    assert Exec(s, []) == Some(s);
    ExecSnoc(s, [], Label(t, Seek));
    ReachableLater(s, [] + [Label(t, Seek)], SeekStep(s, t), n, m);
  }

  /** From a seek to a later state of t's position. */
  lemma AfterSeek(s: Sys, t: nat, ls: seq<Label>, s': Sys, n: nat, m: nat) returns (more: seq<seq<byte>>)
    requires 1 <= n <= 255 && Reachable(s, n, m) && SeeksExisting(s, t)
    requires Exec(SeekStep(s, t), ls) == Some(s') && Stays(ls, t)
    ensures Reachable(s', n, m) && LogOf(s') == LogOf(s) + more && |s'.threads| == |s.threads|
    ensures var th, es := s.threads[t], Contents(s);
            && s'.threads[t].fpos == |Flat(es[..th.cmd])| + th.cmdOff
            && Ahead(s', t) == From(es[th.cmd][th.cmdOff..] + Flat(es[th.cmd + 1..]) + Flat(more),
                                    Gone(LogOf(s), more, n))
  {
    var s1 := SeekStep(s, t);
    StoreOk(s, n, m);
    SeekFinds(s, t);
    ReachableSeek(s, t, n, m);
    ReachableLater(s1, ls, s', n, m);
    RunKeepsPosition(s1, ls, t);
    more := PositionInAnyRun(s1, ls, s', n, m, t);
  }

  lemma CopiedAfterSeek(s: Sys, t: nat, s': Sys, more: seq<seq<byte>>, n: nat, m: nat)
    requires 1 <= n <= 255 && Reachable(s, n, m) && Reachable(s', n, m) && SeeksExisting(s, t)
    requires LogOf(s') == LogOf(s) + more && NothingEvicted(LogOf(s), more, n)
    requires At(s', t, RCopy) && |s'.threads[t].got| >= s'.threads[t].want
    requires s'.threads[t].fpos == |Flat(Contents(s)[..s.threads[t].cmd])| + s.threads[t].cmdOff
    ensures var th, th' := s.threads[t], s'.threads[t];
            var e := Contents(s)[th.cmd];
            th'.got == e[th.cmdOff..th.cmdOff + Min(th'.count, |e| - th.cmdOff)]
  {
    DeviceReplaysAcceptedWrites(s, n, m);
    DeviceReplaysAcceptedWrites(s', n, m);
    WindowGrows(LogOf(s), more, n, s.threads[t].cmd);
    ReaderOk(s', n, m, t);
    CopiedFromEntry(s', s'.threads[t], s.threads[t].cmd, s.threads[t].cmdOff);
  }

  /**
   A read that follows a successful seek, other threads running in between: if nothing was evicted
   meanwhile it delivers exactly the named entry from the named byte on, clipped to the count; in general
   the first bytes ahead of the seek are gone, as many as were evicted.
   */
  lemma SeekThenReadInAnyRun(s: Sys, t: nat, ls: seq<Label>, s': Sys, n: nat, m: nat) returns (more: seq<seq<byte>>)
    requires 1 <= n <= 255 && Reachable(s, n, m) && SeeksExisting(s, t)
    requires Exec(SeekStep(s, t), ls) == Some(s') && Stays(ls, t)
    requires At(s', t, RCopy) && |s'.threads[t].got| >= s'.threads[t].want
    ensures LogOf(s') == LogOf(s) + more
    ensures var th, th', es := s.threads[t], s'.threads[t], Contents(s);
            var e, ahead := es[th.cmd], es[th.cmd][th.cmdOff..] + Flat(es[th.cmd + 1..]) + Flat(more);
            && th'.got != [] && th'.got <= From(ahead, Gone(LogOf(s), more, n))
            && (NothingEvicted(LogOf(s), more, n) ==>
                  th'.got == e[th.cmdOff..th.cmdOff + Min(th'.count, |e| - th.cmdOff)])
  {
    more := AfterSeek(s, t, ls, s', n, m);
    NextReadDelivers(s', n, m, t);
    if NothingEvicted(LogOf(s), more, n) {
      CopiedAfterSeek(s, t, s', more, n, m);
    }
  }
}
