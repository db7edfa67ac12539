/**
 `struct kbuf` as an object whose bytes and length `kbuf_read` and `kbuf_write` change in place.

 A method runs one call with no other thread about.  Each of its statements is followed by the
 machine step of LockedKbuf it corresponds to, so the two descriptions cannot drift apart.
 */
module KbufObject {
  import opened Fifo
  import opened LockedKbuf
  import opened ByteArrays

  ghost predicate SoloOk(dev: Device, t: Tid, pc: Pc) {
    && DevOk(dev) && PcOk(dev, pc)
    && (if Critical(pc) then dev.holder == Held(t) else dev.holder.Nobody?)
  }

  /** The rest of a call when only thread `t` runs. */
  ghost function Solo(dev: Device, t: Tid, pc: Pc, fault: bool, scribble: seq<Byte>): (r: (Device, Outcome))
    requires SoloOk(dev, t, pc)
    decreases Rank(pc)
  {
    PcStepOk(dev, t, pc, fault, scribble);
    if pc.Ret? then (dev, pc.outcome)
    else
      var (dev', next) := PcStep(dev, t, pc, fault, scribble);
      Solo(dev', t, next.pc, fault, scribble)
  }

  /** A call that is not refused comes to its copy. */
  lemma TestToCopy(dev: Device, t: Tid, call: Call, fault: bool, scribble: seq<Byte>)
    requires SoloOk(dev, t, Test(call))
    requires dev.validlen != if call.Read? then 0 else SZ_512
    ensures SoloOk(dev, t, Copy(call, Amount(call, dev.validlen)))
    ensures Solo(dev, t, Test(call), fault, scribble)
         == Solo(dev, t, Copy(call, Amount(call, dev.validlen)), fault, scribble)
  {
    assert Solo(dev, t, Test(call), fault, scribble) == Solo(dev, t, Clamp(call), fault, scribble);
  }

  /** The copy to the reader's buffer leaves the device alone. */
  lemma CopyToMove(dev: Device, t: Tid, call: Call, n: nat, fault: bool)
    requires call.Read? && SoloOk(dev, t, Copy(call, n))
    ensures Solo(dev, t, Copy(call, n), fault, []) ==
            if fault then Solo(dev, t, Unlock(call, Outcome(-EIO, [])), fault, [])
            else Solo(dev, t, Move(call, n, dev.buf[..n]), fault, [])
  {
  }

  /** Once the copy has succeeded, its fault can no longer happen. */
  predicate StillFaulty(pc: Pc, fault: bool) {
    fault && !pc.Move? && !pc.Update?
  }

  lemma {:induction false} SoloEffect(dev: Device, t: Tid, pc: Pc, fault: bool, scribble: seq<Byte>)
    requires SoloOk(dev, t, pc)
    ensures var (dev', o) := Solo(dev, t, pc, fault, scribble);
            && DevOk(dev') && dev'.holder.Nobody?
            && match AbsPcOf(pc)
               case Pending(call) =>
                 Effect(dev'.buf[..dev'.validlen], o) == Apply(QueueAt(dev, pc), call, StillFaulty(pc, fault))
               case Done(_, outcome) =>
                 dev'.buf[..dev'.validlen] == QueueAt(dev, pc) && o == outcome
    decreases Rank(pc)
  {
    if !pc.Ret? {
      PcStepOk(dev, t, pc, fault, scribble);
      var (dev', next) := PcStep(dev, t, pc, fault, scribble);
      SoloEffect(dev', t, next.pc, fault, scribble);
      if Critical(pc) {
        CriticalStep(dev, t, pc, fault, scribble);
      }
    }
  }

  /** A call that runs alone does to the queue what the atomic operation does, and leaves the lock free. */
  lemma SoloMatchesAtomic(dev: Device, t: Tid, call: Call, fault: bool, scribble: seq<Byte>)
    requires DevOk(dev) && dev.holder.Nobody?
    ensures var (dev', o) := Solo(dev, t, Entry(call), fault, scribble);
            && DevOk(dev') && dev'.holder.Nobody?
            && Effect(dev'.buf[..dev'.validlen], o) == Apply(dev.buf[..dev.validlen], call, fault)
            && Means(dev.buf[..dev.validlen], call, fault, o, dev'.buf[..dev'.validlen])
  {
    SoloEffect(dev, t, Entry(call), fault, scribble);
    var (dev', o) := Solo(dev, t, Entry(call), fault, scribble);
    ApplyMeans(dev.buf[..dev.validlen], call, fault, o, dev'.buf[..dev'.validlen]);
  }

  /** What a critical section leaves for the unlock, if the rest of the machine's steps leads there too. */
  lemma LockedMeans(dev: Device, dev': Device, t: Tid, call: Call, o: Outcome, fault: bool, scribble: seq<Byte>)
    requires SoloOk(dev, t, Test(call)) && SoloOk(dev', t, Unlock(call, o))
    requires Solo(dev', t, Unlock(call, o), fault, scribble) == Solo(dev, t, Test(call), fault, scribble)
    ensures Means(dev.buf[..dev.validlen], call, fault, o, dev'.buf[..dev'.validlen])
  {
    SoloEffect(dev, t, Test(call), fault, scribble);
    SoloEffect(dev', t, Unlock(call, o), fault, scribble);
    ApplyMeans(dev.buf[..dev.validlen], call, fault, o, dev'.buf[..dev'.validlen]);
  }

  /** The call is one of the machine's runs, and its outcome is what returns to the caller. */
  lemma {:induction false} SoloIsRun(lock: Lock, run: seq<Action>, t: Tid, fault: bool, scribble: seq<Byte>)
    returns (run': seq<Action>)
    requires Fresh(lock)
    requires var s := Exec(lock, run); t in s.calls && SoloOk(s.dev, t, s.calls[t])
    ensures var s, s' := Exec(lock, run), Exec(lock, run');
            var (dev, o) := Solo(s.dev, t, s.calls[t], fault, scribble);
            && run <= run' && s'.dev == dev && s'.calls == s.calls - {t}
            && s'.returned == s.returned + [Event(t, s.calls[t].call, o)]
    decreases Rank(Exec(lock, run).calls[t])
  {
    var s, a := Exec(lock, run), Go(t, fault, scribble);
    ExecOne(lock, run, a);
    run' := run + [a];
    if !s.calls[t].Ret? {
      SoloStep(s, t, fault, scribble);
      run' := SoloIsRun(lock, run', t, fault, scribble);
    }
  }

  lemma SoloStep(s: State, t: Tid, fault: bool, scribble: seq<Byte>)
    requires Inv(s) && t in s.calls && SoloOk(s.dev, t, s.calls[t]) && !s.calls[t].Ret?
    ensures var s' := Step(s, Go(t, fault, scribble));
            && t in s'.calls && SoloOk(s'.dev, t, s'.calls[t]) && Rank(s'.calls[t]) < Rank(s.calls[t])
            && s'.calls - {t} == s.calls - {t} && s'.returned == s.returned
            && s'.calls[t].call == s.calls[t].call
            && Solo(s'.dev, t, s'.calls[t], fault, scribble) == Solo(s.dev, t, s.calls[t], fault, scribble)
  {
    PcStepOk(s.dev, t, s.calls[t], fault, scribble);
  }

  /**
   From every reachable state in which the lock is free, a new call can run to its end, and what
   it then returns and leaves in the queue is what the call means.
   */
  lemma CallServed(lock: Lock, run: seq<Action>, t: Tid, call: Call, fault: bool, scribble: seq<Byte>)
    returns (run': seq<Action>, o: Outcome)
    requires Fresh(lock) && t !in Exec(lock, run).calls && Exec(lock, run).dev.holder.Nobody?
    ensures var s, s' := Exec(lock, run), Exec(lock, run');
            && run + [Invoke(t, call)] <= run'
            && s'.calls == s.calls && s'.returned == s.returned + [Event(t, call, o)]
            && s'.dev.holder.Nobody?
            && Means(s.dev.buf[..s.dev.validlen], call, fault, o, s'.dev.buf[..s'.dev.validlen])
  {
    var s := Exec(lock, run);
    ExecOne(lock, run, Invoke(t, call));
    run' := run + [Invoke(t, call)];
    o := Solo(s.dev, t, Entry(call), fault, scribble).1;
    SoloMatchesAtomic(s.dev, t, call, fault, scribble);
    run' := SoloIsRun(lock, run', t, fault, scribble);
    assert s.calls[t := Entry(call)] - {t} == s.calls;
  }

  class Kbuf {
    const kbuf: array<Byte>
    var validlen: nat
    var lock: Lock
    ghost var holder: Holder
    ghost var log: seq<Event>

    ghost predicate Valid()
      reads this, kbuf
    {
      DevOk(Snapshot())
    }

    /** The object as a value of the machine. */
    ghost function Snapshot(): Device
      reads this, kbuf
    {
      Device(kbuf[..], validlen, lock, holder, log)
    }

    ghost function Contents(): seq<Byte>
      requires Valid()
      reads this, kbuf
    {
      kbuf[..validlen]
    }

    constructor (lock: Lock)
      requires Fresh(lock)
      ensures Valid() && fresh(kbuf) && kbuf.Length == 512
      ensures Snapshot() == NewDevice(lock)
    {
      kbuf := new Byte[SZ_512](_ => 0);
      validlen := 0;
      this.lock := lock;
      holder, log := Nobody, [];
    }

    method MutexLock(ghost t: Tid)
      requires Available(lock)
      modifies this`lock, this`holder
      ensures lock == Down(old(lock)) && holder == Held(t)
    {
      lock := Down(lock);
      holder := Held(t);
    }

    method MutexUnlock(ghost event: Event)
      modifies this`lock, this`holder, this`log
      ensures lock == Up(old(lock)) && holder == Nobody && log == old(log) + [event]
    {
      lock := Up(lock);
      holder := Nobody;
      log := log + [event];
    }

    /** The critical section of `kbuf_read`. */
    method ReadSection(ghost t: Tid, cnt: nat, fault: bool) returns (o: Outcome)
      requires Valid() && holder == Held(t) && cnt != 0
      modifies this`validlen, kbuf
      ensures Valid()
      ensures Solo(Snapshot(), t, Unlock(Call.Read(cnt), o), fault, [])
           == Solo(old(Snapshot()), t, Test(Call.Read(cnt)), fault, [])
    {
      ghost var call := Call.Read(cnt);
      ghost var whole := Solo(Snapshot(), t, Test(call), fault, []);
      if validlen == 0 {
        return Outcome(-EAGAIN, []);
      }
      var n := Min(cnt, validlen);
      TestToCopy(Snapshot(), t, call, fault, []);
      CopyToMove(Snapshot(), t, call, n, fault);
      if fault {
        return Outcome(-EIO, []);
      }
      var data := kbuf[..n];
      assert kbuf[..][..n] == data;
      MoveDown(kbuf, n, validlen);
      assert whole == Solo(Snapshot(), t, Update(call, n, data), fault, []);
      validlen := validlen - n;
      o := Outcome(n, data);
    }

    /** The same, by its meaning. */
    method ReadLocked(ghost t: Tid, cnt: nat, fault: bool) returns (o: Outcome)
      requires Valid() && holder == Held(t) && cnt != 0
      modifies this`validlen, kbuf
      ensures Valid()
      ensures Solo(Snapshot(), t, Unlock(Call.Read(cnt), o), fault, [])
           == Solo(old(Snapshot()), t, Test(Call.Read(cnt)), fault, [])
      ensures ReadMeans(old(Contents()), cnt, fault, o, Contents())
    {
      ghost var dev := Snapshot();
      o := ReadSection(t, cnt, fault);
      LockedMeans(dev, Snapshot(), t, Call.Read(cnt), o, fault, []);
    }

    /** `kbuf_read`; `fault` says whether `copy_to_user` fails. */
    method Read(ghost t: Tid, cnt: nat, fault: bool) returns (o: Outcome)
      requires Valid() && holder.Nobody?
      modifies this, kbuf
      ensures Valid() && holder.Nobody?
      ensures (Snapshot(), o) == Solo(old(Snapshot()), t, Entry(Call.Read(cnt)), fault, [])
      ensures ReadMeans(old(Contents()), cnt, fault, o, Contents())
    {
      ghost var call := Call.Read(cnt);
      SoloMatchesAtomic(Snapshot(), t, call, fault, []);
      if cnt == 0 {
        return Outcome(0, []);
      }
      assert Solo(Snapshot(), t, Entry(call), fault, []) == Solo(Snapshot(), t, Acquire(call), fault, []);
      MutexLock(t);
      o := ReadLocked(t, cnt, fault);
      MutexUnlock(Event(t, call, o));
    }

    /** The critical section of `kbuf_write`. */
    method WriteSection(ghost t: Tid, payload: seq<Byte>, fault: bool, scribble: seq<Byte>) returns (o: Outcome)
      requires Valid() && holder == Held(t) && payload != []
      modifies this`validlen, kbuf
      ensures Valid()
      ensures Solo(Snapshot(), t, Unlock(Call.Write(payload), o), fault, scribble)
           == Solo(old(Snapshot()), t, Test(Call.Write(payload)), fault, scribble)
    {
      ghost var call := Call.Write(payload);
      ghost var whole := Solo(Snapshot(), t, Test(call), fault, scribble);
      if validlen == SZ_512 {
        return Outcome(-ENOSPC, []);
      }
      var n := Min(|payload|, SZ_512 - validlen);
      TestToCopy(Snapshot(), t, call, fault, scribble);
      if fault {
        Store(kbuf, validlen, Scribble(scribble, n));
        return Outcome(-EIO, []);
      }
      Store(kbuf, validlen, payload[..n]);
      assert whole == Solo(Snapshot(), t, Update(call, n, []), fault, scribble);
      validlen := validlen + n;
      o := Outcome(n, []);
    }

    /** The same, by its meaning. */
    method WriteLocked(ghost t: Tid, payload: seq<Byte>, fault: bool, scribble: seq<Byte>) returns (o: Outcome)
      requires Valid() && holder == Held(t) && payload != []
      modifies this`validlen, kbuf
      ensures Valid()
      ensures Solo(Snapshot(), t, Unlock(Call.Write(payload), o), fault, scribble)
           == Solo(old(Snapshot()), t, Test(Call.Write(payload)), fault, scribble)
      ensures WriteMeans(old(Contents()), payload, fault, o, Contents())
    {
      ghost var dev := Snapshot();
      o := WriteSection(t, payload, fault, scribble);
      LockedMeans(dev, Snapshot(), t, Call.Write(payload), o, fault, scribble);
    }

    /** `kbuf_write`; when `copy_from_user` fails, `scribble` is what it managed to store. */
    method Write(ghost t: Tid, payload: seq<Byte>, fault: bool, scribble: seq<Byte>) returns (o: Outcome)
      requires Valid() && holder.Nobody?
      modifies this, kbuf
      ensures Valid() && holder.Nobody?
      ensures (Snapshot(), o) == Solo(old(Snapshot()), t, Entry(Call.Write(payload)), fault, scribble)
      ensures WriteMeans(old(Contents()), payload, fault, o, Contents())
    {
      ghost var call := Call.Write(payload);
      SoloMatchesAtomic(Snapshot(), t, call, fault, scribble);
      if |payload| == 0 {
        return Outcome(0, []);
      }
      assert Solo(Snapshot(), t, Entry(call), fault, scribble) == Solo(Snapshot(), t, Acquire(call), fault, scribble);
      MutexLock(t);
      o := WriteLocked(t, payload, fault, scribble);
      MutexUnlock(Event(t, call, o));
    }
  }
}
