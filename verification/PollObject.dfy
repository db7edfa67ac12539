/**
 `struct kbuf` of the blocking driver: the parts of `kbuf_read` and `kbuf_write` that change the
 device, each as the step of PollKbuf that it is, and the two calls composed of them for a
 thread that runs alone.  Where a thread is in its call is ghost.
 */
module PollObject {
  import opened Fifo
  import opened PollKbuf
  import opened ByteArrays

  class Kbuf {
    const kbuf: array<Byte>
    var validlen: nat
    var waitr: set<Tid>
    var waitw: set<Tid>
    ghost var calls: map<Tid, Pc>
    ghost var history: seq<Event>
    ghost var returned: seq<Event>

    ghost predicate Valid()
      reads this, kbuf
    {
      BytesOk(View())
    }

    ghost function View(): State
      reads this, kbuf
    {
      State(kbuf[..], validlen, waitr, waitw, calls, history, returned)
    }

    ghost function Contents(): seq<Byte>
      requires Valid()
      reads this, kbuf
    {
      kbuf[..validlen]
    }

    constructor ()
      ensures Valid() && fresh(kbuf)
      ensures View() == Init()
    {
      kbuf := new Byte[SZ_512](_ => 0);
      validlen, waitr, waitw := 0, {}, {};
      calls, history, returned := map[], [], [];
    }

    /** `prepare_to_wait` */
    method PrepareToWait(t: Tid, call: Call)
      requires Valid() && t in calls && calls[t] == Enqueue(call)
      modifies this`waitr, this`waitw, this`calls
      ensures Valid() && View() == Shift(Join(old(View()), t, call), t, Recheck(call))
      ensures forall f, g, b :: View() == Step(old(View()), Go(t, f, g, b))
    {
      if call.Read? {
        waitr := waitr + {t};
      } else {
        waitw := waitw + {t};
      }
      calls := calls[t := Recheck(call)];
    }

    /** `finish_wait`; `ok` says whether the condition held, otherwise a signal ended the wait. */
    method FinishWait(t: Tid, call: Call, ok: bool)
      requires Valid() && t in calls && calls[t] == Finish(call, ok)
      modifies this`waitr, this`waitw, this`calls
      ensures Valid()
      ensures calls == old(calls)[t := if ok then Data(call) else Ret(call, Outcome(-ERESTARTSYS, []))]
      ensures View() == Shift(Leave(old(View()), t, call), t, calls[t])
      ensures forall f, g, b :: View() == Step(old(View()), Go(t, f, g, b))
    {
      if call.Read? {
        waitr := waitr - {t};
      } else {
        waitw := waitw - {t};
      }
      calls := calls[t := if ok then Data(call) else Ret(call, Outcome(-ERESTARTSYS, []))];
    }

    /** `kbuf_read` from `min` to `validlen -= cnt` */
    method ReadData(ghost t: Tid, cnt: nat, fault: bool) returns (o: Outcome)
      requires Valid() && t in calls && calls[t] == Data(Call.Read(cnt))
      modifies this`validlen, this`calls, this`history, kbuf
      ensures Valid() && View() == Transfer(old(View()), t, Call.Read(cnt), fault, [])
      ensures calls[t].outcome == o
      ensures if fault && cnt != 0 && old(validlen) != 0 then o == Outcome(-EIO, []) && Contents() == old(Contents())
              else Takes(old(Contents()), cnt, o, Contents())
    {
      ghost var call := Call.Read(cnt);
      TransferMoves(View(), t, call, fault, []);
      var n := Min(cnt, validlen);
      if fault && n != 0 {
        o := Outcome(-EIO, []);
        calls := calls[t := Ret(call, o)];
        return;
      }
      o := Outcome(n, kbuf[..n]);
      assert kbuf[..][..n] == kbuf[..n];
      MoveDown(kbuf, n, validlen);
      validlen := validlen - n;
      calls := calls[t := Wake(call, o)];
      history := history + [Event(t, call, o)];
    }

    /** `kbuf_write` from `min` to `validlen += cnt` */
    method WriteData(ghost t: Tid, payload: seq<Byte>, fault: bool, scribble: seq<Byte>) returns (o: Outcome)
      requires Valid() && t in calls && calls[t] == Data(Call.Write(payload))
      modifies this`validlen, this`calls, this`history, kbuf
      ensures Valid() && View() == Transfer(old(View()), t, Call.Write(payload), fault, scribble)
      ensures calls[t].outcome == o
      ensures if fault && payload != [] && old(validlen) != SZ_512 then
                o == Outcome(-EIO, []) && Contents() == old(Contents())
              else Adds(old(Contents()), payload, o, Contents())
    {
      ghost var call := Call.Write(payload);
      TransferMoves(View(), t, call, fault, scribble);
      var n := Min(|payload|, SZ_512 - validlen);
      if fault && n != 0 {
        Store(kbuf, validlen, Scribble(scribble, n));
        o := Outcome(-EIO, []);
        calls := calls[t := Ret(call, o)];
        return;
      }
      Store(kbuf, validlen, payload[..n]);
      validlen := validlen + n;
      o := Outcome(n, []);
      calls := calls[t := Wake(call, o)];
      history := history + [Event(t, call, o)];
    }

    /** `wake_up_interruptible` on the queue of the other side */
    method WakeUpOthers(ghost t: Tid, call: Call, ghost o: Outcome)
      requires Valid() && t in calls && calls[t] == Wake(call, o)
      modifies this`waitr, this`waitw, this`calls
      ensures Valid() && View() == Shift(WakeOthers(old(View()), call), t, Ret(call, o))
      ensures forall f, g, b :: View() == Step(old(View()), Go(t, f, g, b))
    {
      if call.Read? {
        waitw := {};
      } else {
        waitr := {};
      }
      calls := calls[t := Ret(call, o)];
    }

    /** `wait_event_interruptible`, up to the point where the thread sleeps. */
    method WaitEvent(t: Tid, call: Call, signal: bool) returns (ret: int, asleep: bool)
      requires Valid() && t in calls && calls[t] == FastCheck(call)
      modifies this`waitr, this`waitw, this`calls
      ensures Valid() && View() == Waited(old(View()), t, call, signal)
      ensures ret == (if Ready(call, validlen) || !signal then 0 else -ERESTARTSYS)
      ensures asleep <==> !Ready(call, validlen) && !signal
    {
      ret, asleep := 0, false;
      if (call.Read? && validlen != 0) || (call.Write? && validlen != SZ_512) {
        calls := calls[t := Data(call)];
        return;
      }
      calls := calls[t := Enqueue(call)];
      PrepareToWait(t, call);
      if !signal {
        calls := calls[t := Sleep(call)];
        asleep := true;
        return;
      }
      calls := calls[t := Finish(call, false)];
      FinishWait(t, call, false);
      ret := -ERESTARTSYS;
    }

    /** The read from `min` on */
    method ServeRead(t: Tid, cnt: nat, fault: bool) returns (o: Outcome)
      requires Valid() && t in calls && calls[t] == Data(Call.Read(cnt))
      modifies this, kbuf
      ensures Valid() && View() == Served(old(View()), t, Call.Read(cnt), fault, [])
      ensures t in calls && calls[t] == Ret(Call.Read(cnt), o)
    {
      o := ReadData(t, cnt, fault);
      if o.ret >= 0 {
        WakeUpOthers(t, Call.Read(cnt), o);
      }
    }

    /** The write from `min` on */
    method ServeWrite(t: Tid, payload: seq<Byte>, fault: bool, scribble: seq<Byte>) returns (o: Outcome)
      requires Valid() && t in calls && calls[t] == Data(Call.Write(payload))
      modifies this, kbuf
      ensures Valid() && View() == Served(old(View()), t, Call.Write(payload), fault, scribble)
      ensures t in calls && calls[t] == Ret(Call.Write(payload), o)
    {
      o := WriteData(t, payload, fault, scribble);
      if o.ret >= 0 {
        WakeUpOthers(t, Call.Write(payload), o);
      }
    }

    /**
     `kbuf_read` of a thread that nobody disturbs: it sleeps in its queue exactly if the buffer
     is empty and no signal is pending, and otherwise has returned.
     */
    method Read(t: Tid, cnt: nat, fault: bool, signal: bool) returns (o: Outcome, asleep: bool)
      requires Valid() && t !in calls
      modifies this, kbuf
      ensures Valid() && View() == CallAlone(old(View()), t, Call.Read(cnt), fault, signal, [])
      ensures asleep <==> cnt != 0 && old(validlen) == 0 && !signal
      ensures if asleep then Asleep(View(), t) && Contents() == old(Contents())
              else if cnt != 0 && old(validlen) == 0 then o == Outcome(-ERESTARTSYS, []) && Contents() == []
              else ReadMeans(old(Contents()), cnt, fault, o, Contents())
    {
      ghost var call := Call.Read(cnt);
      AloneMeans(Contents(), call, fault);
      AloneOutcome(View(), t, call, fault, signal, []);
      o, asleep := Outcome(0, []), false;
      if cnt == 0 {
        calls := calls[t := Ret(call, o)];
      } else {
        calls := calls[t := FastCheck(call)];
        var ret;
        ret, asleep := WaitEvent(t, Call.Read(cnt), signal);
        if asleep {
          return;
        }
        o := Outcome(ret, []);
        if ret == 0 {
          o := ServeRead(t, cnt, fault);
        }
      }
      Return(t, call, o);
    }

    /** `kbuf_write` of a thread that nobody disturbs: it waits for space instead. */
    method Write(t: Tid, payload: seq<Byte>, fault: bool, signal: bool, scribble: seq<Byte>)
      returns (o: Outcome, asleep: bool)
      requires Valid() && t !in calls
      modifies this, kbuf
      ensures Valid() && View() == CallAlone(old(View()), t, Call.Write(payload), fault, signal, scribble)
      ensures asleep <==> payload != [] && old(validlen) == SZ_512 && !signal
      ensures if asleep then Asleep(View(), t) && Contents() == old(Contents())
              else if payload != [] && old(validlen) == SZ_512 then
                o == Outcome(-ERESTARTSYS, []) && Contents() == old(Contents())
              else WriteMeans(old(Contents()), payload, fault, o, Contents())
    {
      ghost var call := Call.Write(payload);
      AloneMeans(Contents(), call, fault);
      AloneOutcome(View(), t, call, fault, signal, scribble);
      o, asleep := Outcome(0, []), false;
      if |payload| == 0 {
        calls := calls[t := Ret(call, o)];
      } else {
        calls := calls[t := FastCheck(call)];
        var ret;
        ret, asleep := WaitEvent(t, Call.Write(payload), signal);
        if asleep {
          return;
        }
        o := Outcome(ret, []);
        if ret == 0 {
          o := ServeWrite(t, payload, fault, scribble);
        }
      }
      Return(t, call, o);
    }

    ghost method Return(t: Tid, call: Call, o: Outcome)
      requires Valid() && t in calls && calls[t] == Ret(call, o)
      modifies this`calls, this`returned
      ensures Valid() && View() == Gone(old(View()), t)
      ensures |returned| > 0 && returned[|returned| - 1] == Event(t, call, o)
    {
      returned := returned + [Event(t, call, o)];
      calls := calls - {t};
    }
  }
}
