/**
 What the server's reassembly has to compute: a byte stream cut after every newline, and the rest.
 */
module PacketStream {
  import opened Base

  /** The length of the text before the first newline; all of it when there is none. */
  function BeforeNewline(s: seq<byte>): (k: nat)
    ensures k <= |s|
    ensures forall i :: 0 <= i < k ==> s[i] != NEWLINE
    ensures k < |s| ==> s[k] == NEWLINE
  {
    if s == [] || s[0] == NEWLINE then 0 else 1 + BeforeNewline(s[1..])
  }

  predicate HasNewline(s: seq<byte>) {
    NEWLINE in s
  }

  lemma NewlineFound(s: seq<byte>)
    ensures HasNewline(s) <==> BeforeNewline(s) < |s|
  {
  }

  /** The newline-terminated pieces of a stream, in order. */
  function Packets(s: seq<byte>): seq<seq<byte>>
    decreases |s|
  {
    var k := BeforeNewline(s);
    if k == |s| then [] else [s[..k + 1]] + Packets(s[k + 1..])
  }

  /** What follows the last newline. */
  function Rest(s: seq<byte>): seq<byte>
    decreases |s|
  {
    var k := BeforeNewline(s);
    if k == |s| then s else Rest(s[k + 1..])
  }

  /** A piece that ends in its only newline. */
  predicate IsPacket(p: seq<byte>) {
    EndsInNewline(p) && !HasNewline(p[..|p| - 1])
  }

  // ---------------------------------------------------------------- the cut is right, and the only one

  /** Nothing is lost or moved. */
  lemma {:induction false} PacketsConserveBytes(s: seq<byte>)
    ensures Flat(Packets(s)) + Rest(s) == s
    decreases |s|
  {
    var k := BeforeNewline(s);
    if k < |s| {
      var p, s' := s[..k + 1], s[k + 1..];
      PacketsConserveBytes(s');
      assert Packets(s)[1..] == Packets(s');
      assert s == p + s';
    }
  }

  /** The pieces are packets and the rest has no newline. */
  lemma {:induction false} PacketsArePackets(s: seq<byte>)
    ensures forall i :: 0 <= i < |Packets(s)| ==> IsPacket(Packets(s)[i])
    ensures !HasNewline(Rest(s))
    decreases |s|
  {
    var k := BeforeNewline(s);
    if k < |s| {
      var p := s[..k + 1];
      assert p[..k] == s[..k];
      PacketsArePackets(s[k + 1..]);
    }
  }

  /** The first newline of p + s, where p is a packet, is the one that ends p. */
  lemma BeforeNewlineOfPacket(p: seq<byte>, s: seq<byte>)
    requires IsPacket(p)
    ensures BeforeNewline(p + s) == |p| - 1
  {
    assert (p + s)[|p| - 1] == NEWLINE;
    assert forall i :: 0 <= i < |p| - 1 ==> (p + s)[i] == p[..|p| - 1][i];
  }

  lemma PacketsOfPacket(p: seq<byte>, s: seq<byte>)
    requires IsPacket(p)
    ensures Packets(p + s) == [p] + Packets(s)
    ensures Rest(p + s) == Rest(s)
  {
    BeforeNewlineOfPacket(p, s);
    assert (p + s)[..|p|] == p && (p + s)[|p|..] == s;
  }

  /** A stream as packets followed by newline-free text. */
  predicate IsCut(s: seq<byte>, ps: seq<seq<byte>>, r: seq<byte>) {
    && Flat(ps) + r == s && !HasNewline(r)
    && forall i :: 0 <= i < |ps| ==> IsPacket(ps[i])
  }

  lemma PacketsCut(s: seq<byte>)
    ensures IsCut(s, Packets(s), Rest(s))
  {
    PacketsConserveBytes(s);
    PacketsArePackets(s);
  }

  /** There is only one way to write a stream as packets followed by newline-free text. */
  lemma {:induction false} PacketsUnique(s: seq<byte>, ps: seq<seq<byte>>, r: seq<byte>)
    requires IsCut(s, ps, r)
    ensures ps == Packets(s) && r == Rest(s)
    decreases |ps|
  {
    if ps == [] {
      assert s == r;
      NewlineFound(s);
    } else {
      var s' := Flat(ps[1..]) + r;
      assert s == ps[0] + s';
      PacketsUnique(s', ps[1..], r);
      PacketsOfPacket(ps[0], s');
    }
  }

  // ---------------------------------------------------------------- streams arrive in pieces

  /** Cutting can be resumed from the rest. */
  lemma PacketsResume(a: seq<byte>, b: seq<byte>)
    ensures Packets(a + b) == Packets(a) + Packets(Rest(a) + b)
    ensures Rest(a + b) == Rest(Rest(a) + b)
  {
    var c := Rest(a) + b;
    PacketsCut(a);
    PacketsCut(c);
    CutsJoin(a, Packets(a), Rest(a), b, Packets(c), Rest(c));
    PacketsUnique(a + b, Packets(a) + Packets(c), Rest(c));
  }

  /** A cut of a, and a cut of its rest with b, make a cut of a + b. */
  lemma CutsJoin(a: seq<byte>, ps: seq<seq<byte>>, r: seq<byte>, b: seq<byte>, qs: seq<seq<byte>>, t: seq<byte>)
    requires IsCut(a, ps, r) && IsCut(r + b, qs, t)
    ensures IsCut(a + b, ps + qs, t)
  {
    FlatAppend(ps, qs);
    assert Flat(ps) + (Flat(qs) + t) == Flat(ps) + (r + b) == a + b;
  }

  /** A held text without newline, and new text up to its first newline, make one packet. */
  lemma PacketCompletes(held: seq<byte>, s: seq<byte>, k: nat)
    requires !HasNewline(held) && BeforeNewline(s) == k < |s|
    ensures IsPacket(held + s[..k + 1])
    ensures Packets(held + s) == [held + s[..k + 1]] + Packets(s[k + 1..])
    ensures Rest(held + s) == Rest(s[k + 1..])
  {
    var p := held + s[..k + 1];
    assert p[..|p| - 1] == held + s[..k];
    assert held + s == p + s[k + 1..];
    PacketsOfPacket(p, s[k + 1..]);
  }

  lemma NoPacketYet(s: seq<byte>)
    requires !HasNewline(s)
    ensures Packets(s) == [] && Rest(s) == s
  {
    NewlineFound(s);
  }
}
