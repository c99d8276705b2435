/**
 The abstract device: what a sequence of accepted writes means.  A write extends the pending text; a
 write that ends in a newline commits the pending text as one log entry.
 */
module WriteLog {
  import opened Base

  datatype Device = Device(log: seq<seq<byte>>, pending: seq<byte>)

  /** One accepted write, and the thread that issued it. */
  datatype Write = Write(author: nat, data: seq<byte>)

  function Accept(d: Device, data: seq<byte>): Device {
    if EndsInNewline(data) then Device(d.log + [d.pending + data], [])
    else Device(d.log, d.pending + data)
  }

  function Replay(ws: seq<Write>): Device {
    if ws == [] then Device([], [])
    else Accept(Replay(ws[..|ws| - 1]), ws[|ws| - 1].data)
  }

  lemma ReplaySnoc(ws: seq<Write>, w: Write)
    ensures Replay(ws + [w]) == Accept(Replay(ws), w.data)
  {
    assert (ws + [w])[..|ws|] == ws;
  }

  function Data(ws: seq<Write>): seq<seq<byte>> {
    seq(|ws|, i requires 0 <= i < |ws| => ws[i].data)
  }

  /** The writes of one thread, in order. */
  function By(ws: seq<Write>, t: nat): seq<seq<byte>> {
    if ws == [] then []
    else By(ws[..|ws| - 1], t) + if ws[|ws| - 1].author == t then [ws[|ws| - 1].data] else []
  }

  lemma BySnoc(ws: seq<Write>, w: Write, t: nat)
    ensures By(ws + [w], t) == By(ws, t) + if w.author == t then [w.data] else []
  {
    assert (ws + [w])[..|ws|] == ws;
  }

  /** Every write is among those of its author. */
  lemma {:induction false} ByAuthor(ws: seq<Write>, i: nat)
    requires i < |ws|
    ensures ws[i].data in By(ws, ws[i].author)
  {
    if i < |ws| - 1 { ByAuthor(ws[..|ws| - 1], i); }
  }

  lemma DataSnoc(ws: seq<Write>, w: Write)
    ensures Data(ws + [w]) == Data(ws) + [w.data]
  {
  }

  // ---------------------------------------------------------------- what a replay keeps

  /** No byte is lost, added or moved: the log followed by the pending text is all that was accepted. */
  lemma {:induction false} ReplayConservesBytes(ws: seq<Write>)
    ensures Flat(Replay(ws).log) + Replay(ws).pending == Flat(Data(ws))
  {
    if ws != [] {
      var ws0, w := ws[..|ws| - 1], ws[|ws| - 1];
      assert ws == ws0 + [w];
      ReplayConservesBytes(ws0);
      DataSnoc(ws0, w);
      FlatSnoc(Data(ws0), w.data);
      var d := Replay(ws0);
      FlatSnoc(d.log, d.pending + w.data);
    }
  }

  /** Later writes only extend the log. */
  lemma {:induction false} ReplayLogGrows(ws: seq<Write>, j: nat)
    requires j <= |ws|
    ensures Replay(ws[..j]).log <= Replay(ws).log
  {
    if j < |ws| {
      ReplayLogGrows(ws[..|ws| - 1], j);
      assert ws[..|ws| - 1][..j] == ws[..j];
    } else {
      assert ws[..j] == ws;
    }
  }

  /** How many of the writes end in a newline. */
  function Newlines(ws: seq<Write>): nat {
    if ws == [] then 0
    else Newlines(ws[..|ws| - 1]) + if EndsInNewline(ws[|ws| - 1].data) then 1 else 0
  }

  /**
   The boundaries: entry k ends exactly where the (k+1)-th newline-terminated write ends.  Stated at
   every point j of the history: the first Newlines(ws[..j]) entries hold the bytes accepted up to j,
   all of them exactly when write j - 1 closed an entry.
   */
  lemma ReplayBoundaries(ws: seq<Write>, j: nat)
    requires j <= |ws|
    requires forall i :: 0 <= i < |ws| ==> ws[i].data != []
    ensures Newlines(ws[..j]) <= |Replay(ws).log|
    ensures Flat(Replay(ws).log[..Newlines(ws[..j])]) <= Flat(Data(ws[..j]))
    ensures Flat(Replay(ws).log[..Newlines(ws[..j])]) == Flat(Data(ws[..j]))
            <==> j == 0 || EndsInNewline(ws[j - 1].data)
  {
    ReplayLogGrows(ws, j);
    NewlinesCountLog(ws[..j]);
    assert Replay(ws).log[..Newlines(ws[..j])] == Replay(ws[..j]).log;
    ReplayConservesBytes(ws[..j]);
    if j > 0 {
      assert ws[..j][..j - 1] == ws[..j - 1];
    }
  }

  lemma {:induction false} NewlinesCountLog(ws: seq<Write>)
    ensures |Replay(ws).log| == Newlines(ws)
  {
    if ws != [] { NewlinesCountLog(ws[..|ws| - 1]); }
  }

  // ---------------------------------------------------------------- the retained window

  /** The text a reader can see when n entries are retained. */
  function Visible(log: seq<seq<byte>>, n: nat): seq<byte> {
    Flat(LastN(log, n))
  }

  /** Bytes evicted so far. */
  function BaseOf(log: seq<seq<byte>>, n: nat): nat {
    |Flat(log[..|log| - |LastN(log, n)|])|
  }

  /** Position p of the device names byte BaseOf + p of everything ever committed. */
  lemma VisibleIsSuffix(log: seq<seq<byte>>, n: nat)
    ensures BaseOf(log, n) <= |Flat(log)|
    ensures Visible(log, n) == Flat(log)[BaseOf(log, n)..]
  {
    var k := |log| - |LastN(log, n)|;
    assert log == log[..k] + LastN(log, n);
    FlatAppend(log[..k], LastN(log, n));
  }

  /**
   A commit keeps the byte every existing position names when nothing is evicted, and otherwise
   moves every surviving byte down by exactly the size of the evicted entry.
   */
  lemma CommitShiftsPositions(log: seq<seq<byte>>, e: seq<byte>, n: nat)
    requires 0 < n
    ensures |log| < n ==> Visible(log + [e], n) == Visible(log, n) + e
                          && BaseOf(log + [e], n) == BaseOf(log, n)
    ensures |log| >= n ==>
              var out := |log[|log| - n]|;
              && out <= |Visible(log, n)|
              && BaseOf(log + [e], n) == BaseOf(log, n) + out
              && Visible(log + [e], n) == Visible(log, n)[out..] + e
  {
    LastNSnoc(log, e, n);
    var w := LastN(log, n);
    if |log| < n {
      FlatSnoc(w, e);
      assert (log + [e])[..0] == log[..0];
    } else {
      FlatSnoc(w[1..], e);
      assert Flat(w) == w[0] + Flat(w[1..]);
      var k := |log| - n;
      assert (log + [e])[..k + 1] == log[..k] + [log[k]];
      FlatSnoc(log[..k], log[k]);
    }
  }

  predicate NonEmpty(log: seq<seq<byte>>) {
    forall i :: 0 <= i < |log| ==> log[i] != []
  }

  lemma {:induction false} FlatOfNonEmpty(log: seq<seq<byte>>)
    requires NonEmpty(log)
    ensures |Flat(log)| >= |log|
  {
    if log != [] { FlatOfNonEmpty(log[1..]); }
  }

  /** How many entries have been evicted. */
  function EvictedCount(log: seq<seq<byte>>, n: nat): (k: nat)
    ensures k == |log| - |LastN(log, n)|
  {
    if |log| <= n then 0 else |log| - n
  }

  /** What is evicted first was evicted all the same: the base after more commits. */
  lemma BaseSplits(log: seq<seq<byte>>, more: seq<seq<byte>>, n: nat)
    ensures var a, b := EvictedCount(log, n), EvictedCount(log + more, n);
            a <= b && BaseOf(log + more, n) == BaseOf(log, n) + |Flat((log + more)[a..b])|
  {
    var all, a, b := log + more, EvictedCount(log, n), EvictedCount(log + more, n);
    assert all[..a] == log[..a];
    assert all[..b] == all[..a] + all[a..b];
    FlatAppend(all[..a], all[a..b]);
  }

  /** Bytes evicted while more was committed to log. */
  function Gone(log: seq<seq<byte>>, more: seq<seq<byte>>, n: nat): (k: nat)
    ensures k == BaseOf(log + more, n) - BaseOf(log, n)
  {
    BaseSplits(log, more, n);
    BaseOf(log + more, n) - BaseOf(log, n)
  }

  /** Nothing was evicted meanwhile. */
  predicate NothingEvicted(log: seq<seq<byte>>, more: seq<seq<byte>>, n: nat) {
    more == [] || |log + more| <= n
  }

  lemma GoneIffEvicted(log: seq<seq<byte>>, more: seq<seq<byte>>, n: nat)
    requires NonEmpty(log) && NonEmpty(more)
    ensures Gone(log, more, n) == 0 <==> NothingEvicted(log, more, n)
  {
    BaseSplits(log, more, n);
    FlatOfNonEmpty((log + more)[EvictedCount(log, n)..EvictedCount(log + more, n)]);
  }

  lemma DropShift(a: seq<byte>, b: seq<byte>, base: nat, gone: nat, p: nat)
    requires base + p <= |a| && base + gone <= |a + b|
    ensures From((a + b)[base + gone..], p) == From(From(a[base..], p) + b, gone)
  {
  }

  lemma FromAll(text: seq<byte>, gone: nat)
    requires text != []
    ensures From(text, gone) == text <==> gone == 0
  {
    if gone != 0 { assert |From(text, gone)| < |text|; }
  }

  lemma SeesAfterCommits(log: seq<seq<byte>>, more: seq<seq<byte>>, n: nat, p: nat)
    requires p <= |Visible(log, n)|
    ensures From(Visible(log + more, n), p) == From(From(Visible(log, n), p) + Flat(more), Gone(log, more, n))
  {
    FlatAppend(log, more);
    VisibleIsSuffix(log, n);
    VisibleIsSuffix(log + more, n);
    DropShift(Flat(log), Flat(more), BaseOf(log, n), Gone(log, more, n), p);
  }

  /**
   A position does not move down with the text.  After more commits it sees what it saw before,
   followed by the new text, without the first bytes of that: as many as were evicted meanwhile.  So it
   reads on without a gap exactly when nothing was evicted.
   */
  lemma ReadingOnAfterCommits(log: seq<seq<byte>>, more: seq<seq<byte>>, n: nat, p: nat)
    requires NonEmpty(log) && NonEmpty(more) && p <= |Visible(log, n)|
    ensures var all, sees := From(Visible(log, n), p) + Flat(more), From(Visible(log + more, n), p);
            && sees == From(all, Gone(log, more, n))
            && (sees == all <==> NothingEvicted(log, more, n))
  {
    SeesAfterCommits(log, more, n, p);
    GoneIffEvicted(log, more, n);
    if more == [] {
      assert log + more == log;
    } else {
      FlatOfNonEmpty(more);
      FromAll(From(Visible(log, n), p) + Flat(more), Gone(log, more, n));
    }
  }

  lemma {:induction false} ReplayNonEmpty(ws: seq<Write>)
    requires forall i :: 0 <= i < |ws| ==> ws[i].data != []
    ensures NonEmpty(Replay(ws).log)
  {
    if ws != [] { ReplayNonEmpty(ws[..|ws| - 1]); }
  }
}
