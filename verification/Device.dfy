/**
 main.c as imperative code: the character device object, its read, write, seek and size calls and the
 module cleanup, each run from start to end by one thread.

 The ghost field `sys` is the transition-system state that the fields mirror.  Each call advances it
 by a run of the steps of module Driver, so the calls inherit what is proved about every run.
 */
module Devices {
  import opened Base
  import opened Rings
  import opened CircularBuffers
  import WriteLog
  import opened Driver
  import opened DriverInvariant
  import opened DriverTheorems
  import opened Runs

  /** What the kernel answers during one write call. */
  datatype WriteEnv = WriteEnv(
    kmallocOk: bool, copyOk: bool, lockOk: bool,
    kreallocOk: bool, kreallocMoves: bool,
    junk: nat -> byte)         // contents of fresh memory, and what a failed copy leaves behind

  function Junk(env: WriteEnv, n: nat): seq<byte> {
    seq(n, env.junk)
  }

  /** Nothing fails during a write. */
  predicate NoTrouble(env: WriteEnv) {
    env.kmallocOk && env.copyOk && env.lockOk && env.kreallocOk
  }

  /** An ioctl call, and what the checks before the lock find. */
  datatype IoctlRequest =
    | OtherRequest
    | SeekRequest(sizeOk: bool, accessOk: bool, copyOk: bool, writeCmd: nat, writeCmdOffset: nat)

  class Device {
    const buffer: CircularBuffer
    var temp: Entry
    var mem: map<nat, seq<byte>>
    var next: nat
    ghost var sys: Sys

    ghost predicate Mirrors(s: Sys)
      reads this`temp, this`mem, this`next, buffer, buffer.entry
    {
      s.ring == buffer.Abs() && s.temp == temp && s.mem == mem && s.next == next
    }

    ghost predicate Valid()
      reads this, buffer, buffer.entry
    {
      buffer.Valid() && Mirrors(sys) && Sound(sys) && Quiet(sys)
    }

    /** The retained entries and the pending text, read off the fields. */
    ghost function View(): WriteLog.Device
      requires buffer.Valid()
      reads this`mem, this`temp, buffer, buffer.entry
    {
      WriteLog.Device(Texts(mem, Logical(buffer.Abs())), EntryBytes(mem, temp))
    }

    /** aesd_init_module for m threads that will open the device. */
    constructor (ghost m: nat)
      ensures Valid() && fresh(buffer) && fresh(buffer.entry)
      ensures sys == InitSys(MAX_WRITE_OPERATIONS, m)
    {
      buffer := new CircularBuffer(MAX_WRITE_OPERATIONS);
      temp := NULL_ENTRY;
      mem := map[];
      next := 0;
      sys := InitSys(MAX_WRITE_OPERATIONS, m);
      new;
      assert Exec(sys, []) == Some(sys);
    }

    method Kmalloc(n: nat, env: WriteEnv) returns (p: Ptr)
      modifies this`mem, this`next
      ensures !env.kmallocOk ==> p == Null && mem == old(mem) && next == old(next)
      ensures env.kmallocOk ==> p == Addr(old(next)) && mem == old(mem)[old(next) := Junk(env, n)]
                                && next == old(next) + 1
    {
      if env.kmallocOk {
        p := Addr(next);
        mem := mem[next := Junk(env, n)];
        next := next + 1;
      } else {
        p := Null;
      }
    }

    method Kfree(p: Ptr)
      requires p.Addr? && p.id in mem
      modifies this`mem
      ensures mem == old(mem) - {p.id}
    {
      mem := mem - {p.id};
    }

    /** The old block is gone when this succeeds, whether or not the address changed. */
    method Krealloc(p: Ptr, n: nat, env: WriteEnv) returns (q: Ptr)
      requires p.Addr? && p.id in mem && |mem[p.id]| <= n
      modifies this`mem, this`next
      ensures !env.kreallocOk ==> q == Null && mem == old(mem) && next == old(next)
      ensures env.kreallocOk ==>
                && q == Addr(if env.kreallocMoves then old(next) else p.id)
                && next == (if env.kreallocMoves then old(next) + 1 else old(next))
                && mem == (old(mem) - {p.id})[q.id := old(mem)[p.id] + Junk(env, n - |old(mem)[p.id]|)]
    {
      if env.kreallocOk {
        var bytes := mem[p.id] + Junk(env, n - |mem[p.id]|);
        q := Addr(if env.kreallocMoves then next else p.id);
        next := if env.kreallocMoves then next + 1 else next;
        mem := (mem - {p.id})[q.id := bytes];
      } else {
        q := Null;
      }
    }

    /** Lines 114-134: allocate a kernel buffer and fill it from the user's. */
    method PrepareWrite(ghost t: nat, data: seq<byte>, env: WriteEnv) returns (err: int, kern: Ptr, ghost s: Sys)
      requires Valid() && t < |sys.threads| && data != []
      modifies this`mem, this`next
      ensures Mirrors(s) && Progress(sys, s) && OthersIdle(s, t) && |s.threads| == |sys.threads|
      ensures s.ring == sys.ring && s.temp == sys.temp && s.writes == sys.writes && s.lock == sys.lock
      ensures err == if !env.kmallocOk then -ENOMEM else if !env.copyOk then -EFAULT else 0
      ensures var th := s.threads[t];
              && th.pc == (if err == 0 then WLock else WFreeEvicted)
              && th.data == data && th.kern == kern && th.evicted == NULL_ENTRY
              && th.fpos == sys.threads[t].fpos
              && (err != 0 ==> th.ret == err)
      ensures old(mem) == mem - (if kern.Addr? then {kern.id} else {})
    {
      s := PrepareRun(sys, t, data, env.kmallocOk, env.copyOk, Junk(env, |data|));
      kern := Kmalloc(|data|, env);
      if kern.Null? {
        return -ENOMEM, kern, s;
      }
      mem := mem[kern.id := if env.copyOk then data else Junk(env, |data|)];
      err := if env.copyOk then 0 else -EFAULT;
    }

    /** Lines 147-173: append the buffer to temp_entry, or make it temp_entry. */
    method AppendToTemp(kernIn: Ptr, count: nat, env: WriteEnv) returns (ok: bool, kern: Ptr)
      requires kernIn.Addr? && kernIn.id in mem && |mem[kernIn.id]| == count > 0 && kernIn != temp.buffptr
      requires temp == NULL_ENTRY || EntryOk(mem, temp)
      requires forall id :: id in mem ==> id < next
      modifies this`temp, this`mem, this`next
      ensures ok == (old(temp) == NULL_ENTRY || env.kreallocOk)
      ensures !ok ==> temp == old(temp) && mem == old(mem) && next == old(next) && kern == kernIn
      ensures old(temp) == NULL_ENTRY ==>
                temp == Entry(kernIn, count) && mem == old(mem) && next == old(next) && kern == Null
      ensures old(temp) != NULL_ENTRY && ok ==>
                var id := if env.kreallocMoves then old(next) else old(temp).buffptr.id;
                && temp == Entry(Addr(id), old(temp).size + count)
                && mem == (old(mem) - {old(temp).buffptr.id})
                          [id := old(mem)[old(temp).buffptr.id] + old(mem)[kernIn.id]]
                && next == (if env.kreallocMoves then old(next) + 1 else old(next))
                && kern == kernIn
    {
      kern := kernIn;
      if temp.buffptr.Addr? {
        var newSize := temp.size + count;
        var newBuffptr := Krealloc(temp.buffptr, newSize, env);
        if newBuffptr.Null? {
          return false, kern;
        }
        mem := mem[newBuffptr.id := mem[newBuffptr.id][..temp.size] + mem[kern.id]];
        temp := Entry(newBuffptr, newSize);
      } else {
        temp := Entry(kern, count);
        kern := Null;
      }
      ok := true;
    }

    /** Lines 138-174: lock and append. */
    method LockAndAppend(ghost t: nat, count: nat, kernIn: Ptr, env: WriteEnv, ghost s1: Sys)
      returns (ret: int, kern: Ptr, locked: bool, ghost s: Sys)
      requires Mirrors(s1) && Progress(sys, s1) && LockFree(s1.lock) && t < |s1.threads|
      requires var th := s1.threads[t]; th.pc == WLock && |th.data| == count && th.kern == kernIn
      modifies this`temp, this`mem, this`next
      ensures Mirrors(s) && Progress(sys, s)
      ensures ret == if !env.lockOk then -EINTR
                     else if old(temp).buffptr.Addr? && !env.kreallocOk then -ENOMEM else count
      ensures locked == env.lockOk && s.ring == s1.ring
      ensures var th := s1.threads[t];
              if ret < 0 then
                && s.threads == s1.threads[t := th.(pc := if locked then WUnlock else WFreeEvicted, ret := ret)]
                && s.temp == s1.temp && s.mem == s1.mem && s.writes == s1.writes && kern == kernIn
              else
                var newline := EndsInNewline(th.data);
                && s.threads == s1.threads[t := th.(pc := if newline then WCommit else WUnlock,
                                                    ret := ret, kern := kern)]
                && s.writes == if newline then s1.writes else s1.writes + [WriteLog.Write(t, th.data)]
    {
      WriterFacts(s1, t);
      kern, locked := kernIn, false;
      s := Take(sys, s1, Label(t, DownWrite(env.lockOk)));
      if !env.lockOk {
        return -EINTR, kern, locked, s;
      }
      locked := true;
      var ok;
      ok, kern := AppendToTemp(kern, count, env);
      s := Take(sys, s, Label(t, Append(env.kreallocOk, env.kreallocMoves)));
      ret := if ok then count else -ENOMEM;
    }

    /** Lines 179-184: push a finished entry. */
    method CommitTemp(ghost t: nat, ghost s1: Sys) returns (evicted: Entry, ghost s: Sys)
      requires Mirrors(s1) && Progress(sys, s1) && t < |s1.threads| && s1.threads[t].pc == WCommit
      modifies this`temp, buffer, buffer.entry
      ensures Mirrors(s) && Progress(sys, s)
      ensures s.threads == s1.threads[t := s1.threads[t].(pc := WUnlock, evicted := evicted)]
      ensures s.writes == s1.writes + [WriteLog.Write(t, s1.threads[t].data)]
    {
      WriterFacts(s1, t);
      evicted := AddEntry(buffer, temp);
      temp := NULL_ENTRY;
      s := Take(sys, s1, Label(t, Commit));
    }

    /** Lines 188-203: unlock, then free what the call still owns. */
    method FinishWrite(ghost t: nat, kern: Ptr, evicted: Entry, locked: bool, ghost s1: Sys)
      returns (ghost s: Sys)
      requires Mirrors(s1) && Progress(sys, s1) && OthersIdle(s1, t)
      requires var th := s1.threads[t];
               th.pc == (if locked then WUnlock else WFreeEvicted) && th.kern == kern && th.evicted == evicted
      modifies this`mem
      ensures Mirrors(s) && Progress(sys, s) && Quiet(s) && |s.threads| == |s1.threads|
      ensures s.writes == s1.writes && s.ring == s1.ring && s.temp == s1.temp && s.next == s1.next
      ensures s.mem == s1.mem - (if kern.Addr? then {kern.id} else {})
                              - (if evicted.buffptr.Addr? then {evicted.buffptr.id} else {})
      ensures s.threads[t].ret == s1.threads[t].ret && s.threads[t].fpos == s1.threads[t].fpos
    {
      s := FinishRun(sys, s1, t);
      if evicted.buffptr.Addr? {
        Kfree(evicted.buffptr);
      }
      if kern.Addr? {
        Kfree(kern);
      }
    }

    /** Lines 118-186: everything the `do { } while (0)` encloses. */
    method WriteBody(ghost t: nat, data: seq<byte>, env: WriteEnv)
      returns (ret: int, kern: Ptr, evicted: Entry, locked: bool, ghost s: Sys)
      requires Valid() && t < |sys.threads| && data != []
      modifies this`temp, this`mem, this`next, buffer, buffer.entry
      ensures Mirrors(s) && Progress(sys, s) && OthersIdle(s, t) && |s.threads| == |sys.threads|
      ensures var th := s.threads[t];
              && th.pc == (if locked then WUnlock else WFreeEvicted)
              && th.kern == kern && th.evicted == evicted && th.fpos == sys.threads[t].fpos && th.ret == ret
      ensures ret == if !env.kmallocOk then -ENOMEM
                     else if !env.copyOk then -EFAULT
                     else if !env.lockOk then -EINTR
                     else if old(temp).buffptr.Addr? && !env.kreallocOk then -ENOMEM
                     else |data|
      ensures if ret < 0 then
                && buffer.Abs() == old(buffer.Abs()) && temp == old(temp) && s.writes == sys.writes
                && mem - (if kern.Addr? then {kern.id} else {}) == old(mem) && evicted == NULL_ENTRY
              else s.writes == sys.writes + [WriteLog.Write(t, data)]
    {
      QuietLockFree(sys);
      evicted, locked := NULL_ENTRY, false;
      ret, kern, s := PrepareWrite(t, data, env);
      if ret == 0 {
        ret, kern, locked, s := LockAndAppend(t, |data|, kern, env, s);
        if ret > 0 && EndsInNewline(data) {
          evicted, s := CommitTemp(t, s);
        }
      }
    }

    /** aesd_write */
    method Write(ghost t: nat, data: seq<byte>, env: WriteEnv) returns (ret: int)
      requires Valid() && t < |sys.threads|
      modifies this, buffer, buffer.entry
      ensures Valid() && RunsTo(old(sys), sys)
      ensures data == [] ==> ret == 0
      ensures data != [] && !env.kmallocOk ==> ret == -ENOMEM
      ensures data != [] && env.kmallocOk && !env.copyOk ==> ret == -EFAULT
      ensures data != [] && env.kmallocOk && env.copyOk && !env.lockOk ==> ret == -EINTR
      ensures data != [] && env.kmallocOk && env.copyOk && env.lockOk ==>
                ret == if old(temp).buffptr.Addr? && !env.kreallocOk then -ENOMEM else |data|
      ensures |sys.threads| == |old(sys.threads)| && sys.threads[t].fpos == old(sys.threads[t].fpos)
      ensures ret == sys.threads[t].ret
      ensures ret <= 0 ==> buffer.Abs() == old(buffer.Abs()) && temp == old(temp) && mem == old(mem)
                           && sys.writes == old(sys.writes)
      ensures ret > 0 ==> sys.writes == old(sys.writes) + [WriteLog.Write(t, data)]
                          && View() == AcceptWindow(old(View()), data, MAX_WRITE_OPERATIONS)
    {
      if data == [] {
        Standstill(sys);
        sys := Take(sys, sys, Label(t, StartWrite(data)));
        return 0;
      }
      var kern, evicted, locked;
      ghost var s;
      ret, kern, evicted, locked, s := WriteBody(t, data, env);
      s := FinishWrite(t, kern, evicted, locked, s);
      WriterFacts(s, t);
      if ret > 0 {
        AcceptedView(sys, s, WriteLog.Write(t, data));
      }
      sys := s;
    }

    /** Lines 66-91 of aesd_read: find the entry and copy from it. */
    method LockedRead(fpos: nat, count: nat, copyOk: bool) returns (ret: int, bytes: seq<byte>)
      requires Valid() && count > 0
      ensures var n := ReadLength(Logical(buffer.Abs()), fpos, count);
              && |bytes| == (if copyOk then n else 0)
              && bytes == Slice(Flat(View().log), fpos, |bytes|)
              && ret == (if n == 0 then 0 else if copyOk then n else -EFAULT)
      ensures ret == 0 <==> fpos >= |Flat(View().log)|
      ensures copyOk ==> EntrySlice(View().log, Locate(Logical(buffer.Abs()), fpos), count, bytes)
    {
      ret, bytes := 0, [];
      ReadFacts(sys, fpos, count);
      var found := FindEntryOffsetForFpos(buffer, fpos);
      if found.Some? {
        var (slot, offset) := found.value;
        var entry := buffer.entry[slot];
        var size := Min(count, entry.size - offset);
        if copyOk {
          bytes := mem[entry.buffptr.id][offset..offset + size];
          ret := size;
        } else {
          ret := -EFAULT;
        }
      }
    }

    /** aesd_read by the thread whose file stands at fpos. */
    method Read(ghost t: nat, count: nat, fpos: nat, lockOk: bool, copyOk: bool)
      returns (ret: int, bytes: seq<byte>, fpos': nat)
      requires Valid() && t < |sys.threads| && sys.threads[t].fpos == fpos
      modifies this`sys
      ensures Valid() && RunsTo(old(sys), sys) && sys.writes == old(sys.writes)
      ensures |sys.threads| == |old(sys.threads)| && sys.threads[t].fpos == fpos'
      ensures ret == sys.threads[t].ret
      ensures fpos' == fpos + |bytes| && |bytes| == (if ret > 0 then ret else 0)
      ensures count == 0 ==> ret == 0 && bytes == []
      ensures count > 0 && !lockOk ==> ret == -ERESTARTSYS && bytes == []
      ensures count > 0 && lockOk ==>
                var n := ReadLength(Logical(buffer.Abs()), fpos, count);
                && |bytes| == (if copyOk then n else 0)
                && ret == (if n == 0 then 0 else if copyOk then n else -EFAULT)
      ensures count > 0 && lockOk ==> (ret == 0 <==> fpos >= |Flat(View().log)|)
      ensures bytes == Slice(Flat(View().log), fpos, |bytes|)
      ensures count > 0 && lockOk && copyOk ==>
                EntrySlice(View().log, Locate(Logical(buffer.Abs()), fpos), count, bytes)
    {
      ret, bytes := 0, [];
      ghost var s := ReadRun(sys, t, count, lockOk, copyOk);
      if count > 0 {
        if lockOk {
          ret, bytes := LockedRead(fpos, count, copyOk);
        } else {
          ret := -ERESTARTSYS;
        }
      }
      fpos' := fpos + |bytes|;
      sys := s;
    }

    /** One round of a read loop that started at `start` and has received `all`. */
    method ReadMore(ghost t: nat, start: nat, all: seq<byte>, count: nat) returns (ret: int, bytes: seq<byte>)
      requires Valid() && t < |sys.threads| && sys.threads[t].fpos == start + |all| && count > 0
      requires all <= From(Flat(View().log), start)
      modifies this`sys
      ensures Valid() && sys.writes == old(sys.writes)
      ensures |sys.threads| == |old(sys.threads)| && sys.threads[t].fpos == start + |all + bytes|
      ensures all + bytes <= From(Flat(View().log), start)
      ensures 0 <= ret == |bytes|
      ensures ret == 0 ==> all == From(Flat(View().log), start)
    {
      ghost var text := Flat(View().log);
      var pos;
      ret, bytes, pos := Read(t, count, start + |all|, true, true);
      ReadExtends(text, start, all, bytes);
    }

    /** Reading in a loop until a read returns 0, with any positive counts and no failures. */
    method ReadToEnd(ghost t: nat, fpos: nat, counts: nat -> nat) returns (all: seq<byte>)
      requires Valid() && t < |sys.threads| && sys.threads[t].fpos == fpos
      requires forall i :: counts(i) > 0
      modifies this`sys
      ensures Valid() && sys.writes == old(sys.writes)
      ensures all == From(Flat(View().log), fpos)
      ensures |sys.threads| == |old(sys.threads)| && sys.threads[t].fpos == fpos + |all|
    {
      ghost var rest := From(Flat(View().log), fpos);
      all := [];
      var i, ret := 0, 1;
      while ret > 0
        invariant Valid() && sys.writes == old(sys.writes)
        invariant |sys.threads| == |old(sys.threads)| && sys.threads[t].fpos == fpos + |all|
        invariant 0 <= ret && all <= rest
        invariant ret == 0 ==> all == rest
        decreases |rest| - |all|, ret
      {
        var bytes;
        ret, bytes := ReadMore(t, fpos, all, counts(i));
        all := all + bytes;
        i := i + 1;
      }
    }

    /** The locked part of aesd_ioctl: lines 234-251. */
    method SeekTo(ghost t: nat, writeCmd: nat, writeCmdOffset: nat, fpos: nat, lockOk: bool)
      returns (ret: int, fpos': nat)
      requires Valid() && t < |sys.threads| && sys.threads[t].fpos == fpos
      modifies this`sys
      ensures Valid() && RunsTo(old(sys), sys) && sys.writes == old(sys.writes)
      ensures |sys.threads| == |old(sys.threads)| && sys.threads[t].fpos == fpos' && sys.threads[t].ret == ret
      ensures var log := View().log;
              var exists' := writeCmd < |log| && writeCmdOffset < |log[writeCmd]|;
              && (ret == 0 <==> lockOk && exists')
              && (ret != 0 ==> ret == (if lockOk then -EINVAL else -EINTR) && fpos' == fpos)
              && (ret == 0 ==>
                    && Locate(Logical(buffer.Abs()), fpos') == Some((writeCmd, writeCmdOffset))
                    && fpos' == |Flat(log[..writeCmd])| + writeCmdOffset)
    {
      StoreFacts(sys);
      SeekFinding(sys, writeCmd, writeCmdOffset);
      fpos' := fpos;
      sys := SeekRun(sys, t, writeCmd, writeCmdOffset, lockOk);
      if !lockOk {
        return -EINTR, fpos';
      }
      var pos := buffer.OffsetAt(writeCmd, writeCmdOffset);
      if pos.Some? {
        return 0, pos.value;
      }
      return -EINVAL, fpos';
    }

    /** aesd_ioctl */
    method Ioctl(ghost t: nat, req: IoctlRequest, fpos: nat, lockOk: bool) returns (ret: int, fpos': nat)
      requires Valid() && t < |sys.threads| && sys.threads[t].fpos == fpos
      modifies this`sys
      ensures Valid() && RunsTo(old(sys), sys) && sys.writes == old(sys.writes)
      ensures |sys.threads| == |old(sys.threads)| && sys.threads[t].fpos == fpos' && sys.threads[t].ret == ret
      ensures ret != 0 ==> fpos' == fpos
      ensures ret == if req.OtherRequest? || !req.sizeOk then -EINVAL
                     else if !req.accessOk || !req.copyOk then -EFAULT
                     else if !lockOk then -EINTR
                     else if req.writeCmd < |View().log| && req.writeCmdOffset < |View().log[req.writeCmd]| then 0
                     else -EINVAL
      ensures ret == 0 ==>
                && Locate(Logical(buffer.Abs()), fpos') == Some((req.writeCmd, req.writeCmdOffset))
                && fpos' == |Flat(View().log[..req.writeCmd])| + req.writeCmdOffset
    {
      if req.OtherRequest? || !req.sizeOk {
        ret, fpos' := -EINVAL, fpos;
      } else if !req.accessOk || !req.copyOk {
        ret, fpos' := -EFAULT, fpos;
      } else {
        ret, fpos' := SeekTo(t, req.writeCmd, req.writeCmdOffset, fpos, lockOk);
        return;
      }
      Standstill(sys);
      sys := Take(sys, sys, Label(t, BadIoctl(-ret)));
    }

    /** A seek and the next read of the same file: the read delivers exactly the named entry from the named byte on. */
    method SeekThenRead(ghost t: nat, cmd: nat, off: nat, count: nat, fpos: nat)
      returns (ret: int, bytes: seq<byte>, fpos': nat)
      requires Valid() && t < |sys.threads| && sys.threads[t].fpos == fpos && count > 0
      modifies this`sys
      ensures Valid() && sys.writes == old(sys.writes)
      ensures |sys.threads| == |old(sys.threads)| && sys.threads[t].fpos == fpos'
      ensures var log := View().log;
              if cmd < |log| && off < |log[cmd]|
              then 0 < ret == |bytes| && bytes == log[cmd][off..off + Min(count, |log[cmd]| - off)]
              else ret == -EINVAL && bytes == [] && fpos' == fpos
    {
      bytes := [];
      ret, fpos' := Ioctl(t, SeekRequest(true, true, true, cmd, off), fpos, true);
      if ret == 0 {
        ret, bytes, fpos' := Read(t, count, fpos', true, true);
        assert EntrySlice(View().log, Some((cmd, off)), count, bytes);
      }
    }

    /** The size aesd_llseek hands to fixed_size_llseek; None when the lock was interrupted. */
    method LlseekSize(lockOk: bool) returns (size: Option<nat>)
      requires Valid()
      ensures size == if lockOk then Some(|Flat(View().log)|) else None
    {
      if !lockOk {
        return None;
      }
      StoreFacts(sys);
      LogicalEntriesOk(sys);
      FlatTexts(mem, Logical(buffer.Abs()));
      var bytes := buffer.BytesSize();
      return Some(bytes);
    }

    /** AESD_CIRCULAR_BUFFER_FOREACH with the body of aesd_cleanup_module: lines 340-348. */
    method FreeSlots()
      requires Valid()
      modifies this`mem, buffer.entry
      ensures forall id :: id in mem <==> temp.buffptr == Addr(id)
      ensures forall k :: 0 <= k < buffer.entry.Length ==> buffer.entry[k] == NULL_ENTRY
    {
      CleanupFacts(sys);
      var index := 0;
      while index < buffer.entry.Length
        invariant 0 <= index <= buffer.entry.Length
        invariant forall k :: 0 <= k < buffer.entry.Length ==>
                    buffer.entry[k] == if k < index then NULL_ENTRY else sys.ring.slots[k]
        invariant forall id :: id in mem <==> HeldFrom(sys, index, id)
      {
        HeldFromNext(sys, index);
        if buffer.entry[index].buffptr.Addr? {
          Kfree(buffer.entry[index].buffptr);
          buffer.entry[index] := NULL_ENTRY;
        }
        index := index + 1;
      }
    }

    /** aesd_cleanup_module, which walks every physical slot: each free is of a live block, none is left. */
    method Cleanup()
      requires Valid()
      modifies this`temp, this`mem, buffer.entry
      ensures mem == map[] && temp == NULL_ENTRY
      ensures forall k :: 0 <= k < buffer.entry.Length ==> buffer.entry[k] == NULL_ENTRY
    {
      CleanupFacts(sys);
      FreeSlots();
      if temp.buffptr.Addr? {
        Kfree(temp.buffptr);
        temp := NULL_ENTRY;
      }
    }
  }

  /** n times the same line. */
  function Lines(line: seq<byte>, n: nat): (ls: seq<seq<byte>>)
    ensures |ls| == n && forall i :: 0 <= i < n ==> ls[i] == line
  {
    seq(n, _ => line)
  }

  lemma {:induction false} FlatLines(line: seq<byte>, n: nat)
    ensures |Flat(Lines(line, n))| == n * |line|
  {
    if n > 0 {
      FlatLines(line, n - 1);
      assert Lines(line, n) == Lines(line, n - 1) + [line];
      FlatSnoc(Lines(line, n - 1), line);
    }
  }

  /** A device of n lines accepts another: it joins them, or replaces the oldest of ten. */
  lemma AcceptLine(line: seq<byte>, n: nat, last: seq<byte>)
    requires EndsInNewline(last) && n <= MAX_WRITE_OPERATIONS
    ensures AcceptWindow(WriteLog.Device(Lines(line, n), []), last, MAX_WRITE_OPERATIONS)
            == WriteLog.Device(Lines(line, if n < MAX_WRITE_OPERATIONS then n else n - 1) + [last], [])
  {
    assert [] + last == last;
    var all := Lines(line, n) + [last];
    if n == MAX_WRITE_OPERATIONS { assert LastN(all, n) == Lines(line, n - 1) + [last]; }
  }

  /** d holds the entries, nothing is pending, and its only thread stands at fpos. */
  ghost predicate Holds(d: Device, log: seq<seq<byte>>, fpos: nat)
    reads d, d.buffer, d.buffer.entry
  {
    && d.Valid() && d.View() == WriteLog.Device(log, [])
    && |d.sys.threads| == 1 && d.sys.threads[0].fpos == fpos
  }

  method WriteLine(d: Device, line: seq<byte>, n: nat, last: seq<byte>, env: WriteEnv, ghost fpos: nat)
    requires Holds(d, Lines(line, n), fpos) && n <= MAX_WRITE_OPERATIONS && EndsInNewline(last) && NoTrouble(env)
    modifies d, d.buffer, d.buffer.entry
    ensures Holds(d, Lines(line, if n < MAX_WRITE_OPERATIONS then n else n - 1) + [last], fpos)
  {
    var ret := d.Write(0, last, env);
    AcceptLine(line, n, last);
  }

  /** Ten writes of one line to a fresh device. */
  method FillDevice(d: Device, line: seq<byte>, env: WriteEnv)
    requires Holds(d, [], 0) && EndsInNewline(line) && NoTrouble(env)
    modifies d, d.buffer, d.buffer.entry
    ensures Holds(d, Lines(line, MAX_WRITE_OPERATIONS), 0)
  {
    assert Lines(line, 0) == [];
    var i := 0;
    while i < MAX_WRITE_OPERATIONS
      invariant 0 <= i <= MAX_WRITE_OPERATIONS && Holds(d, Lines(line, i), 0)
    {
      WriteLine(d, line, i, line, env, 0);
      assert Lines(line, i) + [line] == Lines(line, i + 1);
      i := i + 1;
    }
  }

  /** One more commit to a full device, and a read at its old end. */
  method CommitAndReadOn(d: Device, line: seq<byte>, last: seq<byte>, env: WriteEnv, end: nat) returns (ret: int)
    requires Holds(d, Lines(line, MAX_WRITE_OPERATIONS), end) && end == |Flat(Lines(line, MAX_WRITE_OPERATIONS))|
    requires EndsInNewline(last) && |last| <= |line| && NoTrouble(env)
    modifies d, d.buffer, d.buffer.entry
    ensures Holds(d, Lines(line, MAX_WRITE_OPERATIONS - 1) + [last], end) && ret == 0
  {
    WriteLine(d, line, MAX_WRITE_OPERATIONS, last, env, end);
    LastLineFits(line, last);
    var bytes, pos;
    ret, bytes, pos := d.Read(0, 1, end, true, true);
  }

  lemma LastLineFits(line: seq<byte>, last: seq<byte>)
    requires |last| <= |line|
    ensures |Flat(Lines(line, MAX_WRITE_OPERATIONS - 1) + [last])| <= |Flat(Lines(line, MAX_WRITE_OPERATIONS))|
  {
    FlatLines(line, MAX_WRITE_OPERATIONS);
    FlatLines(line, MAX_WRITE_OPERATIONS - 1);
    FlatSnoc(Lines(line, MAX_WRITE_OPERATIONS - 1), last);
  }

  /**
   Reading on can miss a commit.  A reader has read a full device to its end; one more line, no longer
   than the line that leaves, is committed; the reader's next read reports end of file.  Yet the line is
   there: a seek to the last entry finds it.
   */
  method ReadingOnCanMissACommit(line: seq<byte>, last: seq<byte>, env: WriteEnv)
    returns (all: seq<byte>, ret: int, found: seq<byte>)
    requires EndsInNewline(line) && EndsInNewline(last) && |last| <= |line| && NoTrouble(env)
    ensures all == Flat(Lines(line, MAX_WRITE_OPERATIONS))
    ensures ret == 0 && found == last
  {
    var d := new Device(1);
    FillDevice(d, line, env);
    all := d.ReadToEnd(0, 0, _ => 1);
    ret := CommitAndReadOn(d, line, last, env, |all|);
    var r, pos;
    r, found, pos := d.SeekThenRead(0, MAX_WRITE_OPERATIONS - 1, 0, |last|, |all|);
  }
}
