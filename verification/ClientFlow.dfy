/**
 server/client_flow.c and server/packet_fragment.c: received chunks are kept in a linked list of
 fragments whose tail is refilled in place, and whole packets are cut out of it at newlines.
 */
module ClientFlow {
  import opened Base
  import opened PacketStream

  const BUFFER_SIZE: nat := 4096

  class Fragment {
    var next: Fragment?
    var size: nat
    var data: nat              // the offset of `data` in `buffer`
    const buffer: array<byte>

    /** packet_fragment_alloc, when malloc succeeds. */
    constructor ()
      ensures next == null && size == 0 && data == 0
      ensures buffer.Length == BUFFER_SIZE && fresh(buffer)
    {
      next, size, data := null, 0, 0;
      buffer := new byte[BUFFER_SIZE];
    }

    ghost predicate InBounds()
      reads `data, `size
    {
      data + size <= buffer.Length == BUFFER_SIZE
    }

    ghost function Text(): seq<byte>
      requires InBounds()
      reads `data, `size, buffer
    {
      buffer[data..data + size]
    }

    ghost predicate Holds(text: seq<byte>)
      reads `data, `size, buffer
    {
      InBounds() && Text() == text
    }
  }

  /** The node at a place of a chain; null at its end. */
  ghost function FragmentAt(fs: seq<Fragment>, i: nat): Fragment? {
    if i < |fs| then fs[i] else null
  }

  ghost function Nodes(fs: seq<Fragment>): set<Fragment> {
    set f | f in fs
  }

  ghost predicate Apart(fs: seq<Fragment>, a: array<byte>) {
    forall i :: 0 <= i < |fs| ==> fs[i].buffer != a
  }

  ghost predicate Distinct(fs: seq<Fragment>) {
    forall i, j :: 0 <= i < j < |fs| ==> fs[i] != fs[j] && fs[i].buffer != fs[j].buffer
  }

  lemma NodesOfTail(fs: seq<Fragment>)
    requires fs != [] && Distinct(fs)
    ensures Nodes(fs[1..]) == Nodes(fs) - {fs[0]} && Distinct(fs[1..])
  {
    assert fs == [fs[0]] + fs[1..];
  }

  lemma NodesSnoc(fs: seq<Fragment>, f: Fragment)
    requires Distinct(fs) && f !in fs && Apart(fs, f.buffer)
    ensures Nodes(fs + [f]) == Nodes(fs) + {f} && Distinct(fs + [f])
  {
  }

  lemma FlatPrefix(texts: seq<seq<byte>>, i: nat)
    requires i < |texts|
    ensures Flat(texts[..i + 1]) == Flat(texts[..i]) + texts[i]
    ensures |Flat(texts[..i + 1])| <= |Flat(texts)|
  {
    assert texts[..i + 1] == texts[..i] + [texts[i]];
    FlatSnoc(texts[..i], texts[i]);
    assert texts == texts[..i + 1] + texts[i + 1..];
    FlatAppend(texts[..i + 1], texts[i + 1..]);
  }

  class Client {
    var fragments: Fragment?           // client->fragments
    ghost var list: seq<Fragment>      // the nodes reachable from it
    ghost var texts: seq<seq<byte>>    // what each of them holds
    ghost var live: set<Fragment>      // allocated and not yet freed

    /** A nonempty, null-terminated chain of distinct live nodes, and no other live node. */
    ghost predicate Chained()
      reads `fragments, `list, `live, list`next
    {
      && list != [] && fragments == list[0]
      && live == Nodes(list)
      && Distinct(list)
      && (forall i :: 0 <= i < |list| ==> list[i].next == FragmentAt(list, i + 1))
    }

    /** The first nodes hold `texts`, one each. */
    ghost predicate Filled()
      reads `list, `texts, list`data, list`size, set f | f in list :: f.buffer
    {
      && |texts| <= |list|
      && forall i :: 0 <= i < |texts| ==> list[i].Holds(texts[i])
    }

    /** Between chunks and packets: every node but the tail holds received text. */
    ghost predicate Valid()
      reads this, list, set f | f in list :: f.buffer
    {
      Chained() && Filled() && |texts| == |list| - 1
    }

    /** The tail holds the end of a packet as well. */
    ghost predicate Full()
      reads this, list, set f | f in list :: f.buffer
    {
      Chained() && Filled() && |texts| == |list|
    }

    ghost function Tail(): Fragment
      requires list != []
      reads `list
    {
      list[|list| - 1]
    }

    /** The bytes held. */
    ghost function Held(): seq<byte>
      reads `texts
    {
      Flat(texts)
    }

    method Free(f: Fragment)
      requires f in live
      modifies this`live
      ensures live == old(live) - {f}
    {
      live := live - {f};
    }

    /** The first loop of flatten_fragments. */
    method TotalSize() returns (total: nat)
      requires Full()
      ensures total == |Flat(texts)|
    {
      total := 0;
      var curr := fragments;
      ghost var i := 0;
      while curr != null
        invariant 0 <= i <= |list|
        invariant curr == FragmentAt(list, i)
        invariant total == |Flat(texts[..i])|
        decreases |list| - i
      {
        assert curr in live;
        FlatPrefix(texts, i);
        total := total + curr.size;
        curr := curr.next;
        i := i + 1;
      }
      assert texts[..i] == texts;
    }

    /** `free(curr_fragment); client->fragments = next_fragment;` on the first node. */
    method FreeFirst()
      requires Full() && |list| > 1
      modifies this
      ensures Full() && list == old(list)[1..] && texts == old(texts)[1..]
    {
      NodesOfTail(list);
      var next := fragments.next;
      Free(fragments);
      fragments := next;
      list, texts := list[1..], texts[1..];
    }

    /** `memcpy(curr_buffer, curr_fragment->data, curr_fragment->size)` for the first node. */
    method CopyFirst(flat: array<byte>, off: nat, ghost whole: seq<byte>) returns (off': nat)
      requires Full() && Apart(list, flat)
      requires off <= flat.Length == |whole| && flat[..off] + Flat(texts) == whole
      modifies flat
      ensures Full()
      ensures off' <= flat.Length && flat[..off'] + Flat(texts[1..]) == whole
    {
      ghost var done := flat[..off];
      JoinFirst(done, texts, whole);
      assert list[0].Holds(texts[0]);
      Memcpy(flat, off, fragments.buffer, fragments.data, fragments.size);
      assert Filled() by {
        forall i | 0 <= i < |texts| ensures list[i].Holds(texts[i]) {
          assert old(list[i].Holds(texts[i]));
        }
      }
      off' := off + fragments.size;
      assert flat[..off'] == done + texts[0];
    }

    /** One round of the second loop: copy the first node, and free it unless it is the tail. */
    method FlattenFirst(flat: array<byte>, off: nat, ghost whole: seq<byte>) returns (next: Fragment?, off': nat)
      requires Full() && Apart(list, flat)
      requires off <= flat.Length == |whole| && flat[..off] + Flat(texts) == whole
      modifies this, flat
      ensures Full() && Tail() == old(Tail()) && Apart(list, flat)
      ensures next != null ==> next == list[0] && |list| < |old(list)|
      ensures next == null ==> |list| == 1
      ensures off' <= flat.Length && flat[..off'] + (if next == null then [] else Flat(texts)) == whole
    {
      assert fragments in live;
      off' := CopyFirst(flat, off, whole);
      next := fragments.next;
      if next != null {
        FreeFirst();
      } else {
        assert texts[1..] == [];
      }
    }

    /**
     flatten_fragments: one buffer filled exactly with all the fragments hold; every fragment but the
     tail is freed and the list starts at the tail.
     */
    method Flatten() returns (flat: array<byte>)
      requires Full()
      modifies this
      ensures fresh(flat) && flat[..] == old(Flat(texts))
      ensures Full() && list == [old(Tail())]
    {
      ghost var whole := Flat(texts);
      var total := TotalSize();
      flat := new byte[total];
      var curr, off := fragments, 0;
      while curr != null
        invariant Full() && Tail() == old(Tail()) && Apart(list, flat)
        invariant curr != null ==> curr == list[0]
        invariant curr == null ==> |list| == 1
        invariant 0 <= off <= flat.Length && flat[..off] + (if curr == null then [] else Flat(texts)) == whole
        decreases |list|, curr != null
      {
        curr, off := FlattenFirst(flat, off, whole);
      }
    }

    /** write_new_packet up to the point where the packet is handed to the device. */
    method WriteNewPacket() returns (packet: seq<byte>)
      requires Full() && EndsInNewline(Held())
      modifies this
      ensures packet == old(Held())
      ensures Valid() && list == [old(Tail())] && texts == []
    {
      var flat := Flatten();
      packet := flat[..];
      assert EndsInNewline(packet);
      assert flat.Length > 0 && flat[flat.Length - 1] == NEWLINE;
      texts := [];
    }

    /** recv into the tail, and `curr_fragment->data = curr_fragment->buffer`. */
    method Recv(curr: Fragment, chunk: seq<byte>)
      requires Valid() && curr == Tail() && |chunk| <= curr.buffer.Length
      modifies curr, curr.buffer
      ensures Valid() && curr.data == 0 && forall j :: 0 <= j < |chunk| ==> curr.buffer[j] == chunk[j]
    {
      assert forall i :: 0 <= i < |texts| ==> list[i] != curr && list[i].buffer != curr.buffer;
      forall k | 0 <= k < |chunk| {
        curr.buffer[k] := chunk[k];
      }
      curr.data := 0;
      forall i | 0 <= i < |texts| ensures list[i].Holds(texts[i]) {
        assert old(list[i].Holds(texts[i]));
      }
    }

    method SetSize(curr: Fragment, size: nat)
      requires Valid() && curr == Tail()
      modifies curr`size
      ensures Valid() && curr.size == size
    {
      assert forall i :: 0 <= i < |texts| ==> list[i] != curr;
      curr.size := size;
      forall i | 0 <= i < |texts| ensures list[i].Holds(texts[i]) {
        assert old(list[i].Holds(texts[i]));
      }
    }

    /** `curr_fragment->size = size` on the tail: the text it then holds joins the chain. */
    method SetTailSize(curr: Fragment, size: nat, ghost text: seq<byte>)
      requires Valid() && curr == Tail() && curr.data + size <= curr.buffer.Length == BUFFER_SIZE
      requires curr.buffer[curr.data..curr.data + size] == text
      modifies this`texts, curr`size
      ensures Full() && texts == old(texts) + [text] && curr.size == size
    {
      SetSize(curr, size);
      assert curr.Holds(text);
      texts := texts + [text];
    }

    /** `curr_fragment->next = tail` */
    method LinkTail(curr: Fragment, tail: Fragment)
      requires Full() && curr == Tail() && tail.next == null && tail !in list && Apart(list, tail.buffer)
      modifies this`list, this`live, curr`next
      ensures Valid() && list == old(list) + [tail]
    {
      NodesSnoc(list, tail);
      ghost var nodes := list;
      curr.next := tail;
      assert Filled();
      assert forall i :: 0 <= i < |nodes| - 1 ==> nodes[i] != curr;
      list := nodes + [tail];
      live := live + {tail};
      assert forall i :: 0 <= i < |nodes| ==> list[i] == nodes[i];
      assert Filled();
      forall i | 0 <= i < |list| ensures list[i].next == FragmentAt(list, i + 1) {
        assert i < |nodes| ==> old(list[i].next) == FragmentAt(nodes, i + 1);
      }
    }

    /** Lines 153-154: append a fresh fragment behind a filled tail. */
    method Extend(curr: Fragment) returns (tail: Fragment)
      requires Full() && curr == Tail()
      modifies this`list, this`live, curr`next
      ensures Valid() && tail == Tail() && list == old(list) + [tail]
      ensures fresh(tail) && fresh(tail.buffer) && tail.buffer.Length == BUFFER_SIZE
    {
      tail := new Fragment();
      LinkTail(curr, tail);
    }

    /** The rest of a chunk, from `curr_fragment->data` on. */
    ghost predicate Receiving(curr: Fragment, chunk: seq<byte>, left: nat)
      reads this, list, set f | f in list :: f.buffer
      reads curr, curr.buffer
    {
      && Valid() && curr == Tail() && !HasNewline(Held())
      && curr.data + left == |chunk| <= curr.buffer.Length == BUFFER_SIZE
      && (forall j :: 0 <= j < |chunk| ==> curr.buffer[j] == chunk[j])
    }

    /** Line 141: the tail takes the text up to and including the newline. */
    method TakeToNewline(curr: Fragment, ghost chunk: seq<byte>, ghost left: nat, k: nat)
      requires Receiving(curr, chunk, left)
      requires k == BeforeNewline(chunk[curr.data..]) < left
      modifies this`texts, curr`size
      ensures Full() && curr.size == k + 1
      ensures Held() == old(Held()) + chunk[curr.data..curr.data + k + 1] && EndsInNewline(Held())
    {
      ghost var held, piece := texts, chunk[curr.data..curr.data + k + 1];
      assert curr.buffer[curr.data..curr.data + k + 1] == piece;
      assert piece[k] == chunk[curr.data..][k];
      SetTailSize(curr, k + 1, piece);
      FlatSnoc(held, piece);
      StillEnds(Flat(held), piece);
    }

    /** Lines 143-147: the packet leaves, and `data` moves behind it. */
    method EmitPacket(curr: Fragment) returns (packet: seq<byte>)
      requires Full() && curr == Tail() && EndsInNewline(Held())
      modifies this, curr`data
      ensures Valid() && list == [curr] && texts == []
      ensures packet == old(Held()) && curr.data == old(curr.data) + curr.size
    {
      packet := WriteNewPacket();
      curr.data := curr.data + curr.size;
    }

    /** Lines 139-147: one packet is cut out of the tail. */
    method CutPacket(curr: Fragment, ghost chunk: seq<byte>, left: nat, k: nat) returns (packet: seq<byte>, left': nat)
      requires Receiving(curr, chunk, left)
      requires k == BeforeNewline(chunk[curr.data..]) < left
      modifies this, curr
      ensures Receiving(curr, chunk, left') && list == [curr] && texts == []
      ensures curr.data == old(curr.data) + k + 1
      ensures packet == old(Held()) + chunk[old(curr.data)..curr.data]
    {
      TakeToNewline(curr, chunk, left, k);
      left' := left - curr.size;
      packet := EmitPacket(curr);
    }

    /** Lines 139-147: look for a newline in what is left, and cut a packet if there is one. */
    method CutNext(curr: Fragment, ghost chunk: seq<byte>, left: nat)
      returns (packets: seq<seq<byte>>, left': nat)
      requires Receiving(curr, chunk, left)
      modifies this, curr
      ensures Receiving(curr, chunk, left')
      ensures if packets == [] then left' == left && list == old(list) else left' < left && list == [curr]
      ensures packets + Packets(Unread(curr, chunk)) == old(Packets(Unread(curr, chunk)))
      ensures Rest(Unread(curr, chunk)) == old(Rest(Unread(curr, chunk)))
      ensures packets == [] ==> !HasNewline(Unread(curr, chunk))
    {
      ghost var held, todo := Held(), chunk[curr.data..];
      assert curr.buffer[curr.data..curr.data + left] == todo;
      var k := BeforeNewline(curr.buffer[curr.data..curr.data + left]);
      NewlineFound(todo);
      if k == left {
        return [], left;
      }
      CutStep(held, todo, k);
      var packet;
      packet, left' := CutPacket(curr, chunk, left, k);
      assert todo[..k + 1] == chunk[curr.data - k - 1..curr.data] && todo[k + 1..] == chunk[curr.data..];
      packets := [packet];
    }

    /** What the list holds, followed by what is left of the chunk. */
    ghost function Unread(curr: Fragment, chunk: seq<byte>): seq<byte>
      reads `texts, curr`data
    {
      if curr.data <= |chunk| then Held() + chunk[curr.data..] else Held()
    }

    /** Lines 139-148: all packets that the received chunk completes. */
    method CutPackets(curr: Fragment, ghost chunk: seq<byte>, bytesRead: nat) returns (packets: seq<seq<byte>>, left: nat)
      requires Receiving(curr, chunk, bytesRead)
      modifies this, curr
      ensures Receiving(curr, chunk, left)
      ensures list == old(list) || list == [curr]
      ensures packets == old(Packets(Unread(curr, chunk)))
      ensures Unread(curr, chunk) == old(Rest(Unread(curr, chunk)))
    {
      ghost var all, rest := Packets(Unread(curr, chunk)), Rest(Unread(curr, chunk));
      left := bytesRead;
      packets := [];
      var more := true;
      while more
        invariant 0 <= left && Receiving(curr, chunk, left)
        invariant list == old(list) || list == [curr]
        invariant packets + Packets(Unread(curr, chunk)) == all && Rest(Unread(curr, chunk)) == rest
        invariant !more ==> !HasNewline(Unread(curr, chunk))
        decreases left, more
      {
        ghost var before := Packets(Unread(curr, chunk));
        var next;
        next, left := CutNext(curr, chunk, left);
        ghost var after := Packets(Unread(curr, chunk));
        assert (packets + next) + after == packets + (next + after) == packets + before;
        packets := packets + next;
        more := next != [];
      }
      NoPacketYet(Unread(curr, chunk));
    }

    /** Lines 150-155: what no newline has ended stays in the list. */
    method KeepRest(curr: Fragment, ghost chunk: seq<byte>, left: nat) returns (curr': Fragment)
      requires Receiving(curr, chunk, left)
      modifies this, curr
      ensures Valid() && curr' == Tail() && curr'.buffer.Length == BUFFER_SIZE
      ensures Held() == old(Held() + chunk[curr.data..])
      ensures left == 0 ==> curr' == curr && list == old(list)
      ensures left > 0 ==> list == old(list) + [curr'] && fresh(curr') && fresh(curr'.buffer)
    {
      curr' := curr;
      if left > 0 {
        ghost var held, piece := texts, chunk[curr.data..];
        assert curr.buffer[curr.data..curr.data + left] == piece;
        SetTailSize(curr, left, piece);
        FlatSnoc(held, piece);
        curr' := Extend(curr);
      }
    }

    /** The body of the recv loop, lines 135-155. */
    method ReceiveChunk(curr: Fragment, chunk: seq<byte>) returns (packets: seq<seq<byte>>, curr': Fragment)
      requires Valid() && curr == Tail() && curr.buffer.Length == BUFFER_SIZE
      requires !HasNewline(Held()) && |chunk| <= BUFFER_SIZE
      modifies this, curr, curr.buffer
      ensures Valid() && curr' == Tail() && curr'.buffer.Length == BUFFER_SIZE
      ensures packets == Packets(old(Held()) + chunk)
      ensures Held() == Rest(old(Held()) + chunk)
      ensures !HasNewline(Held())
      ensures forall f :: f in list ==> f in old(list) || (fresh(f) && fresh(f.buffer))
    {
      PacketsArePackets(Held() + chunk);
      Recv(curr, chunk);
      assert chunk[0..] == chunk;
      var left;
      packets, left := CutPackets(curr, chunk, |chunk|);
      curr' := KeepRest(curr, chunk, left);
    }

    /** packet_fragments_free on client->fragments, and line 160. */
    method FreeFragments()
      requires Chained()
      modifies this
      ensures live == {} && fragments == null
    {
      var fragment := fragments;
      ghost var rest := list;
      while fragment != null
        invariant fragment == FragmentAt(rest, 0) && Distinct(rest) && live == Nodes(rest)
        invariant forall i :: 0 <= i < |rest| ==> rest[i].next == FragmentAt(rest, i + 1)
        decreases |rest|
      {
        var next := fragment.next;
        NodesOfTail(rest);
        Free(fragment);
        fragment := next;
        rest := rest[1..];
      }
      fragments := null;
    }

    /**
     process_client on the chunks recv delivers: the packets handed to the device depend only on the
     stream, and every fragment that was allocated has been freed, once.
     */
    method ProcessClient(chunks: seq<seq<byte>>) returns (packets: seq<seq<byte>>)
      requires fragments == null && live == {}
      requires forall i :: 0 <= i < |chunks| ==> 0 < |chunks[i]| <= BUFFER_SIZE
      modifies this
      ensures packets == Packets(Flat(chunks))
      ensures fragments == null && live == {}
    {
      var curr := new Fragment();
      fragments, list, live, texts := curr, [curr], {curr}, [];
      packets := [];
      var i := 0;
      while i < |chunks|
        invariant 0 <= i <= |chunks|
        invariant Valid() && curr == Tail() && curr.buffer.Length == BUFFER_SIZE
        invariant forall f :: f in list ==> fresh(f) && fresh(f.buffer)
        invariant packets == Packets(Flat(chunks[..i])) && Held() == Rest(Flat(chunks[..i]))
        invariant !HasNewline(Held())
      {
        FlatPrefix(chunks, i);
        PacketsResume(Flat(chunks[..i]), chunks[i]);
        var more;
        more, curr := ReceiveChunk(curr, chunks[i]);
        packets := packets + more;
        i := i + 1;
      }
      assert chunks[..i] == chunks;
      FreeFragments();
    }
  }

  lemma StillEnds(a: seq<byte>, b: seq<byte>)
    requires EndsInNewline(b)
    ensures EndsInNewline(a + b)
  {
  }

  lemma CutStep(held: seq<byte>, todo: seq<byte>, k: nat)
    requires !HasNewline(held) && BeforeNewline(todo) == k < |todo|
    ensures [held + todo[..k + 1]] + Packets([] + todo[k + 1..]) == Packets(held + todo)
    ensures Rest([] + todo[k + 1..]) == Rest(held + todo)
  {
    PacketCompletes(held, todo, k);
    assert [] + todo[k + 1..] == todo[k + 1..];
  }

  lemma JoinFirst(done: seq<byte>, texts: seq<seq<byte>>, whole: seq<byte>)
    requires texts != [] && done + Flat(texts) == whole
    ensures |done| + |texts[0]| <= |whole|
    ensures (done + texts[0]) + Flat(texts[1..]) == whole
  {
  }

  method Memcpy(dst: array<byte>, at: nat, src: array<byte>, from: nat, n: nat)
    requires dst != src && at + n <= dst.Length && from + n <= src.Length
    modifies dst
    ensures dst[..at + n] == old(dst[..at]) + src[from..from + n]
  {
    forall k | 0 <= k < n {
      dst[at + k] := src[from + k];
    }
  }
}
