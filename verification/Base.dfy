/** Bytes, byte strings and the few sequence operations every layer of the model shares. */
module Base {

  newtype byte = x: int | 0 <= x < 256

  const NEWLINE: byte := 10

  datatype Option<+T> = None | Some(value: T)

  /** End-to-end concatenation of byte strings. */
  function Flat(ss: seq<seq<byte>>): seq<byte> {
    if ss == [] then [] else ss[0] + Flat(ss[1..])
  }

  /** The last n elements, or all of them when there are fewer. */
  function LastN<T>(s: seq<T>, n: nat): (r: seq<T>)
    ensures |r| == if |s| <= n then |s| else n
  {
    if |s| <= n then s else s[|s| - n..]
  }

  predicate EndsInNewline(s: seq<byte>) {
    s != [] && s[|s| - 1] == NEWLINE
  }

  lemma {:induction false} FlatAppend(a: seq<seq<byte>>, b: seq<seq<byte>>)
    ensures Flat(a + b) == Flat(a) + Flat(b)
  {
    if a == [] {
      assert a + b == b;
    } else {
      assert (a + b)[1..] == a[1..] + b;
      FlatAppend(a[1..], b);
    }
  }

  lemma FlatSnoc(a: seq<seq<byte>>, x: seq<byte>)
    ensures Flat(a + [x]) == Flat(a) + x
  {
    FlatAppend(a, [x]);
    assert Flat([x]) == x + Flat([]);
  }

  /** One element enters the window: the oldest leaves it exactly when the window was full. */
  lemma LastNSnoc<T>(s: seq<T>, x: T, n: nat)
    requires 0 < n
    ensures LastN(s + [x], n) == (if |s| < n then LastN(s, n) else LastN(s, n)[1..]) + [x]
  {
  }

  function Min(a: nat, b: nat): (m: nat)
    ensures m <= a && m <= b && (m == a || m == b)
  {
    if a < b then a else b
  }

  /** n bytes of text at p; empty when there are not that many. */
  function Slice(text: seq<byte>, p: nat, n: nat): seq<byte> {
    if p + n <= |text| then text[p..p + n] else []
  }

  /** The text from a position on; empty beyond the end. */
  function From(text: seq<byte>, p: nat): seq<byte> {
    if p <= |text| then text[p..] else []
  }

  /** From byte off of entry i on there is the rest of that entry, and then the later entries. */
  lemma FlatFrom(ss: seq<seq<byte>>, i: nat, off: nat)
    requires i < |ss| && off <= |ss[i]|
    ensures |Flat(ss[..i])| + off <= |Flat(ss)|
    ensures From(Flat(ss), |Flat(ss[..i])| + off) == ss[i][off..] + Flat(ss[i + 1..])
  {
    assert ss == ss[..i] + ss[i..];
    FlatAppend(ss[..i], ss[i..]);
    assert Flat(ss[i..]) == ss[i] + Flat(ss[i..][1..]) && ss[i..][1..] == ss[i + 1..];
  }
}
