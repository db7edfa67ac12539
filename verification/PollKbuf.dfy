/**
 The blocking kbuf device with its two wait queues and its `poll` operation.

 `wait_event_interruptible` is a check without queueing, then a loop of queueing, checking
 again and sleeping; `wake_up_interruptible` is a step of its own after the `validlen` update.
 This driver has no lock: the stretch from `min` to the `validlen` update is taken as one step.
 */
module PollKbuf {
  import opened Fifo

  const ERESTARTSYS := 512

  datatype Pc =
    | Entry(call: Call)
    | FastCheck(call: Call)
    | Enqueue(call: Call)
    | Recheck(call: Call)
    | Sleep(call: Call)
    | Finish(call: Call, ok: bool)
    | Data(call: Call)
    | Wake(call: Call, outcome: Outcome)
    | Ret(call: Call, outcome: Outcome)

  /** A thread is in a wait queue from its `prepare_to_wait` until it is woken or finishes its wait. */
  datatype State = State(
    buf: seq<Byte>,
    validlen: nat,
    waitr: set<Tid>,
    waitw: set<Tid>,
    calls: map<Tid, Pc>,
    history: seq<Event>,
    returned: seq<Event>)

  datatype Action =
    | Invoke(t: Tid, call: Call)
    | Go(t: Tid, fault: bool, signal: bool, scribble: seq<Byte>)

  function Init(): State {
    State(seq(SZ_512, _ => 0), 0, {}, {}, map[], [], [])
  }

  /** The condition a call waits for. */
  predicate Ready(call: Call, validlen: nat) {
    if call.Read? then validlen != 0 else validlen != SZ_512
  }

  predicate Queued(s: State, t: Tid, call: Call) {
    t in if call.Read? then s.waitr else s.waitw
  }

  function Join(s: State, t: Tid, call: Call): State {
    if call.Read? then s.(waitr := s.waitr + {t}) else s.(waitw := s.waitw + {t})
  }

  function Leave(s: State, t: Tid, call: Call): State {
    if call.Read? then s.(waitr := s.waitr - {t}) else s.(waitw := s.waitw - {t})
  }

  /** A reader wakes the queue of the writers and the other way round. */
  function WakeOthers(s: State, call: Call): State {
    if call.Read? then s.(waitw := {}) else s.(waitr := {})
  }

  function Shift(s: State, t: Tid, pc: Pc): State {
    s.(calls := s.calls[t := pc])
  }

  predicate BytesOk(s: State) {
    |s.buf| == SZ_512 && s.validlen <= SZ_512
  }

  /**
   From `min` to the `validlen` update.  Copying nothing cannot fault, so a call that finds its
   condition false again moves 0 bytes and returns 0.
   */
  function Transfer(s: State, t: Tid, call: Call, fault: bool, scribble: seq<Byte>): State
    requires BytesOk(s)
  {
    var n := Amount(call, s.validlen);
    if fault && n != 0 then
      var s' := if call.Read? then s else s.(buf := Stored(s.buf, s.validlen, Scribble(scribble, n)));
      Shift(s', t, Ret(call, Outcome(-EIO, [])))
    else
      var o := Outcome(n, if call.Read? then s.buf[..n] else []);
      var s' :=
        match call
        case Read(_) => s.(buf := MovedDown(s.buf, n, s.validlen), validlen := s.validlen - n)
        case Write(payload) => s.(buf := Stored(s.buf, s.validlen, payload[..n]), validlen := s.validlen + n);
      Shift(s', t, Wake(call, o)).(history := s.history + [Event(t, call, o)])
  }

  function Step(s: State, a: Action): State
    requires BytesOk(s)
  {
    match a
    case Invoke(t, call) =>
      if t in s.calls then s else Shift(s, t, Entry(call))
    case Go(t, fault, signal, scribble) =>
      if t !in s.calls then s
      else
        match s.calls[t]
        case Entry(call) =>
          Shift(s, t, if Touches(call) then FastCheck(call) else Ret(call, Outcome(0, [])))
        case FastCheck(call) =>
          Shift(s, t, if Ready(call, s.validlen) then Data(call) else Enqueue(call))
        case Enqueue(call) =>
          Shift(Join(s, t, call), t, Recheck(call))
        case Recheck(call) =>
          Shift(s, t,
                if Ready(call, s.validlen) then Finish(call, true)
                else if signal then Finish(call, false)
                else Sleep(call))
        case Sleep(call) =>
          if Queued(s, t, call) && !signal then s else Shift(s, t, Enqueue(call))
        case Finish(call, ok) =>
          Shift(Leave(s, t, call), t, if ok then Data(call) else Ret(call, Outcome(-ERESTARTSYS, [])))
        case Data(call) =>
          Transfer(s, t, call, fault, scribble)
        case Wake(call, outcome) =>
          Shift(WakeOthers(s, call), t, Ret(call, outcome))
        case Ret(call, outcome) =>
          s.(calls := s.calls - {t}, returned := s.returned + [Event(t, call, outcome)])
  }

  /** The state that a run leads to from `s`. */
  function Exec(s: State, run: seq<Action>): (s': State)
    requires BytesOk(s)
    ensures BytesOk(s')
  {
    if run == [] then s
    else Step(Exec(s, run[..|run| - 1]), run[|run| - 1])
  }

  // ---------- No wake-up is lost

  /** The thread has given up the processor and nothing has woken it since it last looked. */
  predicate Asleep(s: State, t: Tid) {
    t in s.calls && s.calls[t].Sleep? && Queued(s, t, s.calls[t].call)
  }

  /** Some thread is between its `validlen` update and its wake-up of the queue that `call` waits in. */
  ghost predicate WakeUnderWay(s: State, call: Call) {
    exists w :: w in s.calls && s.calls[w].Wake? && s.calls[w].call.Read? != call.Read?
  }

  ghost predicate SleepersJustified(s: State) {
    forall t | Asleep(s, t) :: !Ready(s.calls[t].call, s.validlen) || WakeUnderWay(s, s.calls[t].call)
  }

  lemma WakeUnderWayKept(s: State, s': State, u: Tid, call: Call)
    requires WakeUnderWay(s, call)
    requires forall t | t in s.calls && t != u :: t in s'.calls && s'.calls[t] == s.calls[t]
    requires u in s.calls ==> !(s.calls[u].Wake? && s.calls[u].call.Read? != call.Read?)
    ensures WakeUnderWay(s', call)
  {
    var w :| w in s.calls && s.calls[w].Wake? && s.calls[w].call.Read? != call.Read?;
    assert w in s'.calls && s'.calls[w] == s.calls[w];
  }

  lemma StepJustified(s: State, a: Action)
    requires BytesOk(s) && SleepersJustified(s)
    ensures SleepersJustified(Step(s, a))
  {
    var s' := Step(s, a);
    var u := a.t;
    forall t | Asleep(s', t)
      ensures !Ready(s'.calls[t].call, s'.validlen) || WakeUnderWay(s', s'.calls[t].call)
    {
      var call := s'.calls[t].call;
      if s' == s {
        assert Asleep(s, t);
      } else if a.Invoke? {
        if WakeUnderWay(s, call) {
          WakeUnderWayKept(s, s', u, call);
        }
      } else if t == u {
        assert s.calls[u].Recheck?;
      } else {
        assert Asleep(s, t) && s.calls[t] == s'.calls[t];
        var pc := s.calls[u];
        if pc.Wake? && pc.call.Read? != call.Read? {
          assert false;
        } else if WakeUnderWay(s, call) {
          WakeUnderWayKept(s, s', u, call);
        } else if pc.Data? && s'.calls[u].Wake? && pc.call.Read? != call.Read? {
          assert WakeUnderWay(s', call);
        }
      }
    }
  }

  /**
   No lost wake-up: in every run, a reader that sleeps on the queue sleeps because the buffer
   is empty, or a writer that made it non-empty has its wake-up still ahead; and the same for
   writers and the full buffer.
   */
  lemma {:induction false} NoLostWakeup(run: seq<Action>)
    ensures SleepersJustified(Exec(Init(), run))
  {
    if run != [] {
      NoLostWakeup(run[..|run| - 1]);
      StepJustified(Exec(Init(), run[..|run| - 1]), run[|run| - 1]);
    }
  }

  /** Unless a wake-up is under way, readers and writers never sleep at the same time. */
  lemma NoMutualSleep(run: seq<Action>, r: Tid, w: Tid)
    requires var s := Exec(Init(), run);
             && Asleep(s, r) && s.calls[r].call.Read?
             && Asleep(s, w) && s.calls[w].call.Write?
    ensures var s := Exec(Init(), run);
            exists u :: u in s.calls && s.calls[u].Wake?
  {
    NoLostWakeup(run);
  }

  // ---------- The queue of bytes

  /** In every run, the bytes handed to readers followed by the buffer are the bytes taken from writers. */
  lemma {:induction false} BytesConserved(run: seq<Action>)
    ensures var s := Exec(Init(), run);
            Accepted(s.history) == Delivered(s.history) + s.buf[..s.validlen]
  {
    if run != [] {
      var s, a := Exec(Init(), run[..|run| - 1]), run[|run| - 1];
      BytesConserved(run[..|run| - 1]);
      if a.Go? && a.t in s.calls && s.calls[a.t].Data? {
        TransferConserves(s, a.t, s.calls[a.t].call, a.fault, a.scribble);
      }
    }
  }

  /** What a transfer does to the bytes that count. */
  lemma TransferBytes(s: State, t: Tid, call: Call, fault: bool, scribble: seq<Byte>)
    requires BytesOk(s)
    ensures var s' := Transfer(s, t, call, fault, scribble);
            var n := Amount(call, s.validlen);
            var q := s.buf[..s.validlen];
            s'.buf[..s'.validlen] ==
            if fault && n != 0 then q else if call.Read? then q[n..] else q + call.payload[..n]
  {
  }

  lemma EventCounts(h: seq<Event>, e: Event)
    ensures Delivered(h + [e]) == Delivered(h) + e.outcome.data
    ensures Accepted(h + [e]) ==
            Accepted(h) +
            if e.call.Write? && 0 < e.outcome.ret <= |e.call.payload| then e.call.payload[..e.outcome.ret] else []
  {
    assert (h + [e])[..|h|] == h;
  }

  /** One transfer of `n` bytes on the books: what goes in or out goes to or comes from the queue. */
  lemma Balance(h: seq<Event>, q: seq<Byte>, t: Tid, call: Call, n: nat)
    requires Accepted(h) == Delivered(h) + q
    requires |q| <= SZ_512 && n == Amount(call, |q|)
    ensures var h' := h + [Event(t, call, Outcome(n, if call.Read? then q[..n] else []))];
            Accepted(h') == Delivered(h') + if call.Read? then q[n..] else q + call.payload[..n]
  {
    EventCounts(h, Event(t, call, Outcome(n, if call.Read? then q[..n] else [])));
    if call.Read? {
      assert q == q[..n] + q[n..];
    }
  }

  lemma TransferEvent(s: State, t: Tid, call: Call, fault: bool, scribble: seq<Byte>)
    requires BytesOk(s)
    ensures var n := Amount(call, s.validlen);
            var q := s.buf[..s.validlen];
            Transfer(s, t, call, fault, scribble).history ==
            if fault && n != 0 then s.history
            else s.history + [Event(t, call, Outcome(n, if call.Read? then q[..n] else []))]
  {
    if call.Read? {
      var n := Amount(call, s.validlen);
      assert s.buf[..s.validlen][..n] == s.buf[..n];
    }
  }

  /** A transfer moves all that its call asked for, or all there is, or all there is room for. */
  predicate Moves(q: seq<Byte>, call: Call, o: Outcome, q': seq<Byte>) {
    match call
    case Read(cnt) => Takes(q, cnt, o, q')
    case Write(payload) => Adds(q, payload, o, q')
  }

  lemma AmountMoves(q: seq<Byte>, call: Call)
    requires |q| <= SZ_512
    ensures var n := Amount(call, |q|);
            Moves(q, call, Outcome(n, if call.Read? then q[..n] else []),
                  if call.Read? then q[n..] else q + call.payload[..n])
  {
  }

  lemma TransferPc(s: State, t: Tid, call: Call, fault: bool, scribble: seq<Byte>)
    requires BytesOk(s)
    ensures var n := Amount(call, s.validlen);
            Transfer(s, t, call, fault, scribble).calls ==
            s.calls[t := if fault && n != 0 then Ret(call, Outcome(-EIO, []))
                         else Wake(call, Outcome(n, if call.Read? then s.buf[..s.validlen][..n] else []))]
  {
    if call.Read? {
      var n := Amount(call, s.validlen);
      assert s.buf[..s.validlen][..n] == s.buf[..n];
    }
  }

  /** What a transfer tells its caller and leaves in the buffer. */
  lemma TransferMoves(s: State, t: Tid, call: Call, fault: bool, scribble: seq<Byte>)
    requires BytesOk(s)
    ensures var s' := Transfer(s, t, call, fault, scribble);
            var q, q' := s.buf[..s.validlen], s'.buf[..s'.validlen];
            && t in s'.calls && (s'.calls[t].Wake? || s'.calls[t].Ret?)
            && (if fault && Touches(call) && Ready(call, s.validlen) then
                  s'.calls[t].outcome == Outcome(-EIO, []) && q' == q
                else Moves(q, call, s'.calls[t].outcome, q'))
  {
    TransferPc(s, t, call, fault, scribble);
    TransferBytes(s, t, call, fault, scribble);
    AmountMoves(s.buf[..s.validlen], call);
  }

  lemma TransferConserves(s: State, t: Tid, call: Call, fault: bool, scribble: seq<Byte>)
    requires BytesOk(s)
    requires Accepted(s.history) == Delivered(s.history) + s.buf[..s.validlen]
    ensures var s' := Transfer(s, t, call, fault, scribble);
            Accepted(s'.history) == Delivered(s'.history) + s'.buf[..s'.validlen]
  {
    TransferBytes(s, t, call, fault, scribble);
    TransferEvent(s, t, call, fault, scribble);
    Balance(s.history, s.buf[..s.validlen], t, call, Amount(call, s.validlen));
  }

  /**
   A woken call may find its condition false again when it comes to its data: it then moves
   nothing and returns 0.  That is the only way to get 0 for a non-empty call that did not fault.
   */
  lemma ZeroTransferExactly(s: State, t: Tid, call: Call, fault: bool, scribble: seq<Byte>)
    requires BytesOk(s) && Touches(call)
    ensures var s' := Transfer(s, t, call, fault, scribble);
            && ((s'.calls[t].Wake? && s'.calls[t].outcome.ret == 0) <==> !Ready(call, s.validlen))
            && (!Ready(call, s.validlen) ==> s'.buf == s.buf && s'.validlen == s.validlen)
  {
    var s' := Transfer(s, t, call, fault, scribble);
    if !Ready(call, s.validlen) {
      assert s'.buf == s.buf;
    }
  }

  lemma ExecOne(s: State, run: seq<Action>, a: Action)
    requires BytesOk(s)
    ensures Exec(s, run + [a]) == Step(Exec(s, run), a)
  {
    assert (run + [a])[..|run + [a]| - 1] == run;
  }

  /** `k` undisturbed steps of thread `t` */
  function Alone(t: Tid, k: nat): seq<Action> {
    if k == 0 then [] else Alone(t, k - 1) + [Go(t, false, false, [])]
  }

  lemma {:induction false} ExecAppend(s: State, run: seq<Action>, more: seq<Action>)
    requires BytesOk(s)
    ensures Exec(s, run + more) == Exec(Exec(s, run), more)
  {
    if more == [] {
      assert run + more == run;
    } else {
      ExecAppend(s, run, more[..|more| - 1]);
      assert run + more == (run + more[..|more| - 1]) + [more[|more| - 1]];
      ExecOne(s, run + more[..|more| - 1], more[|more| - 1]);
    }
  }

  lemma AloneOne(s: State, t: Tid, k: nat)
    requires BytesOk(s)
    ensures Exec(s, Alone(t, k + 1)) == Step(Exec(s, Alone(t, k)), Go(t, false, false, []))
  {
    ExecOne(s, Alone(t, k), Go(t, false, false, []));
  }

  lemma AloneFirst(s: State, t: Tid)
    requires BytesOk(s)
    ensures Exec(s, Alone(t, 1)) == Step(s, Go(t, false, false, []))
  {
    var run := Alone(t, 1);
    assert Alone(t, 0) == [];
    assert run[..|run| - 1] == [];
  }

  lemma AloneTwo(s: State, t: Tid)
    requires BytesOk(s)
    ensures var a := Go(t, false, false, []); Exec(s, Alone(t, 2)) == Step(Step(s, a), a)
  {
    AloneFirst(s, t);
    AloneOne(s, t, 1);
  }

  /** A new call that runs alone passes or fails the check without queueing. */
  lemma CallStarts(s: State, t: Tid, call: Call) returns (run: seq<Action>)
    requires BytesOk(s) && t !in s.calls && Touches(call)
    ensures Exec(s, run) == Shift(s, t, if Ready(call, s.validlen) then Data(call) else Enqueue(call))
  {
    var s1 := Shift(s, t, Entry(call));
    run := [Invoke(t, call)] + Alone(t, 2);
    ExecAppend(s, [Invoke(t, call)], Alone(t, 2));
    assert [Invoke(t, call)][..0] == [];
    assert Exec(s, [Invoke(t, call)]) == s1;
    AloneTwo(s1, t);
  }

  lemma CallFallsAsleep(s: State, t: Tid, call: Call)
    requires BytesOk(s) && t in s.calls && s.calls[t] == Enqueue(call) && !Ready(call, s.validlen)
    ensures Exec(s, Alone(t, 2)) == Shift(Join(s, t, call), t, Sleep(call))
  {
    AloneTwo(s, t);
  }

  /** A transfer that does not fault goes on to the wake-up. */
  lemma TransferOne(s: State, t: Tid, call: Call)
    requires BytesOk(s) && t in s.calls && s.calls[t] == Data(call)
    ensures var s1 := Transfer(s, t, call, false, []);
            var n := Amount(call, s.validlen);
            && Exec(s, Alone(t, 1)) == s1
            && s1.calls == s.calls[t := Wake(call, Outcome(n, if call.Read? then s.buf[..n] else []))]
            && s1.validlen == (if call.Read? then s.validlen - n else s.validlen + n)
            && s1.waitr == s.waitr && s1.returned == s.returned
  {
    AloneFirst(s, t);
  }

  lemma WakeOne(s: State, t: Tid, call: Call, o: Outcome)
    requires BytesOk(s) && t in s.calls && s.calls[t] == Wake(call, o)
    ensures Exec(s, Alone(t, 1)) == Shift(WakeOthers(s, call), t, Ret(call, o))
  {
    AloneFirst(s, t);
  }

  lemma ReturnOne(s: State, t: Tid, call: Call, o: Outcome)
    requires BytesOk(s) && t in s.calls && s.calls[t] == Ret(call, o)
    ensures Exec(s, Alone(t, 1)).returned == s.returned + [Event(t, call, o)]
  {
    AloneFirst(s, t);
  }

  /** A woken sleeper queues again, and finds its condition true. */
  lemma SleeperQueuesAgain(s: State, t: Tid, call: Call)
    requires BytesOk(s) && t in s.calls && s.calls[t] == Sleep(call) && !Queued(s, t, call)
    ensures Exec(s, Alone(t, 2)) == Shift(Join(s, t, call), t, Recheck(call))
  {
    AloneTwo(s, t);
    assert Step(s, Go(t, false, false, [])) == Shift(s, t, Enqueue(call));
  }

  lemma QueuedReachesData(s: State, t: Tid, call: Call)
    requires BytesOk(s) && t in s.calls && s.calls[t] == Recheck(call) && Ready(call, s.validlen)
    ensures Exec(s, Alone(t, 2)) == Shift(Leave(s, t, call), t, Data(call))
  {
    AloneTwo(s, t);
    assert Step(s, Go(t, false, false, [])) == Shift(s, t, Finish(call, true));
  }

  lemma LeaveJoin(s: State, t: Tid, call: Call, pc: Pc, pc': Pc)
    requires !Queued(s, t, call)
    ensures Shift(Leave(Shift(Join(s, t, call), t, pc), t, call), t, pc') == Shift(s, t, pc')
  {
    assert (if call.Read? then s.waitr else s.waitw) + {t} - {t} == if call.Read? then s.waitr else s.waitw;
  }

  /** A woken sleeper whose condition holds goes through the queue once more to its data. */
  lemma SleeperReachesData(s: State, t: Tid, call: Call)
    requires BytesOk(s) && t in s.calls && s.calls[t] == Sleep(call)
    requires !Queued(s, t, call) && Ready(call, s.validlen)
    ensures Exec(s, Alone(t, 2) + Alone(t, 2)) == Shift(s, t, Data(call))
  {
    ExecAppend(s, Alone(t, 2), Alone(t, 2));
    SleeperQueuesAgain(s, t, call);
    QueuedReachesData(Shift(Join(s, t, call), t, Recheck(call)), t, call);
    LeaveJoin(s, t, call, Recheck(call), Data(call));
  }

  /** Of two readers about to transfer a single byte, the second gets none. */
  lemma SecondReadReturnsZero(s: State, t: Tid, late: Tid) returns (run: seq<Action>)
    requires BytesOk(s) && t != late && s.validlen == 1
    requires t in s.calls && s.calls[t] == Data(Read(1)) && late in s.calls && s.calls[late] == Data(Read(1))
    ensures Event(late, Read(1), Outcome(0, [])) in Exec(s, run).returned
  {
    TransferOne(s, t, Read(1));
    var s1 := Exec(s, Alone(t, 1));
    run := NextOne(s, Alone(t, 1), late);
    TransferOne(s1, late, Read(1));
    var s2 := Exec(s1, Alone(late, 1));
    assert s1.buf[..0] == [];
    run := NextOne(s, run, late);
    WakeOne(s2, late, Read(1), Outcome(0, []));
    var s3 := Exec(s2, Alone(late, 1));
    run := NextOne(s, run, late);
    ReturnOne(s3, late, Read(1), Outcome(0, []));
  }

  lemma NextOne(s: State, run: seq<Action>, t: Tid) returns (all: seq<Action>)
    requires BytesOk(s)
    ensures Exec(s, all) == Exec(Exec(s, run), Alone(t, 1))
  {
    ExecAppend(s, run, Alone(t, 1));
    all := run + Alone(t, 1);
  }

  /** Runs one after the other. */
  lemma Then(run: seq<Action>, more: seq<Action>) returns (all: seq<Action>)
    ensures Exec(Init(), all) == Exec(Exec(Init(), run), more)
  {
    ExecAppend(Init(), run, more);
    all := run + more;
  }

  /** A reader comes to rest on an empty buffer. */
  lemma ReaderSleeps(s: State, t: Tid) returns (run: seq<Action>)
    requires BytesOk(s) && t !in s.calls && s.validlen == 0
    ensures Exec(s, run) == Shift(Join(s, t, Read(1)), t, Sleep(Read(1)))
  {
    run := CallStarts(s, t, Read(1));
    CallFallsAsleep(Exec(s, run), t, Read(1));
    ExecAppend(s, run, Alone(t, 2));
    run := run + Alone(t, 2);
  }

  /** A writer stores one byte and wakes every reader. */
  lemma WriterWakes(s: State, t: Tid) returns (run: seq<Action>)
    requires BytesOk(s) && t !in s.calls && s.validlen == 0
    ensures var s' := Exec(s, run);
            s'.validlen == 1 && s'.waitr == {} && s'.calls == s.calls[t := Ret(Write([7]), Outcome(1, []))]
  {
    run := CallStarts(s, t, Write([7]));
    var s1 := Exec(s, run);
    TransferOne(s1, t, Write([7]));
    run := NextOne(s, run, t);
    WakeOne(Exec(s1, Alone(t, 1)), t, Write([7]), Outcome(1, []));
    run := NextOne(s, run, t);
  }

  /**
   The zero-byte return does happen: a reader sleeps on the empty buffer, a write wakes it, it
   checks the condition, and another reader takes the byte before it gets to its own transfer.
   */
  lemma WokenReadMayReturnZero() returns (run: seq<Action>)
    ensures Event(1, Read(1), Outcome(0, [])) in Exec(Init(), run).returned
  {
    run := ReaderSleeps(Init(), 1);
    var more := WriterWakes(Exec(Init(), run), 2);
    run := Then(run, more);
    more := CallStarts(Exec(Init(), run), 3, Read(1));
    run := Then(run, more);
    SleeperReachesData(Exec(Init(), run), 1, Read(1));
    run := Then(run, Alone(1, 2) + Alone(1, 2));
    more := SecondReadReturnsZero(Exec(Init(), run), 3, 1);
    run := Then(run, more);
  }

  // ---------- A call that nobody disturbs

  /** A call that starts its wait has stopped waiting or sleeps. */
  function Waited(s: State, t: Tid, call: Call, signal: bool): State {
    if Ready(call, s.validlen) then Shift(s, t, Data(call))
    else if signal then
      Shift(Leave(Shift(Join(Shift(s, t, Enqueue(call)), t, call), t, Finish(call, false)), t, call), t,
            Ret(call, Outcome(-ERESTARTSYS, [])))
    else Shift(Shift(Join(Shift(s, t, Enqueue(call)), t, call), t, Recheck(call)), t, Sleep(call))
  }

  /** From its data on, a call transfers and, unless it faulted, wakes the others. */
  function Served(s: State, t: Tid, call: Call, fault: bool, scribble: seq<Byte>): State
    requires BytesOk(s)
  {
    var s1 := Transfer(s, t, call, fault, scribble);
    if s1.calls[t].Wake? then Shift(WakeOthers(s1, call), t, Ret(call, s1.calls[t].outcome)) else s1
  }

  function Gone(s: State, t: Tid): State
    requires t in s.calls && s.calls[t].Ret?
  {
    s.(calls := s.calls - {t}, returned := s.returned + [Event(t, s.calls[t].call, s.calls[t].outcome)])
  }

  /** A whole call of a thread that runs alone, up to its return or its sleep. */
  function CallAlone(s: State, t: Tid, call: Call, fault: bool, signal: bool, scribble: seq<Byte>): State
    requires BytesOk(s)
  {
    if !Touches(call) then Gone(Shift(s, t, Ret(call, Outcome(0, []))), t)
    else
      var s1 := Waited(Shift(s, t, FastCheck(call)), t, call, signal);
      match s1.calls[t]
      case Data(_) => Gone(Served(s1, t, call, fault, scribble), t)
      case Ret(_, _) => Gone(s1, t)
      case _ => s1
  }

  lemma AndThen(s: State, run: seq<Action>, a: Action) returns (run': seq<Action>)
    requires BytesOk(s)
    ensures run' == run + [a] && Exec(s, run') == Step(Exec(s, run), a)
  {
    run' := run + [a];
    ExecOne(s, run, a);
  }

  /** A condition that is false takes a thread through the queue. */
  lemma Queues(s: State, t: Tid, call: Call, a: Action)
    requires BytesOk(s) && t in s.calls && s.calls[t] == FastCheck(call) && a.Go? && a.t == t
    requires !Ready(call, s.validlen)
    ensures Step(Step(s, a), a) == Shift(Join(Shift(s, t, Enqueue(call)), t, call), t, Recheck(call))
  {
    assert Step(s, a) == Shift(s, t, Enqueue(call));
  }

  lemma GivesUp(s: State, t: Tid, call: Call, a: Action)
    requires BytesOk(s) && t in s.calls && s.calls[t] == Recheck(call) && a.Go? && a.t == t
    requires !Ready(call, s.validlen)
    ensures !a.signal ==> Step(s, a) == Shift(s, t, Sleep(call))
    ensures a.signal ==>
              Step(Step(s, a), a) ==
              Shift(Leave(Shift(s, t, Finish(call, false)), t, call), t, Ret(call, Outcome(-ERESTARTSYS, [])))
  {
    if a.signal {
      assert Step(s, a) == Shift(s, t, Finish(call, false));
    }
  }

  lemma TwoSteps(s: State, a: Action, b: Action)
    requires BytesOk(s)
    ensures Exec(s, [a, b]) == Step(Step(s, a), b)
  {
    var run := AndThen(s, [], a);
    run := AndThen(s, run, b);
  }

  lemma WaitedIsRun(s: State, t: Tid, call: Call, a: Action) returns (run: seq<Action>)
    requires BytesOk(s) && t in s.calls && s.calls[t] == FastCheck(call) && a.Go? && a.t == t
    ensures Exec(s, run) == Waited(s, t, call, a.signal)
  {
    if Ready(call, s.validlen) {
      run := AndThen(s, [], a);
    } else {
      TwoSteps(s, a, a);
      Queues(s, t, call, a);
      var s1 := Exec(s, [a, a]);
      GivesUp(s1, t, call, a);
      var more := AndThen(s1, [], a);
      if a.signal {
        TwoSteps(s1, a, a);
        more := [a, a];
      }
      ExecAppend(s, [a, a], more);
      run := [a, a] + more;
    }
  }

  lemma ServedIsRun(s: State, t: Tid, call: Call, a: Action) returns (run: seq<Action>)
    requires BytesOk(s) && t in s.calls && s.calls[t] == Data(call) && a.Go? && a.t == t
    ensures Exec(s, run) == Served(s, t, call, a.fault, a.scribble)
    ensures |run| <= 2 && forall b <- run :: b == a
  {
    TransferPlausible(s, t, call, a.fault, a.scribble);
    run := AndThen(s, [], a);
    if Exec(s, run).calls[t].Wake? {
      run := AndThen(s, run, a);
    }
  }

  lemma BegunIsRun(s: State, t: Tid, call: Call, a: Action)
    requires BytesOk(s) && t !in s.calls && a.Go? && a.t == t
    ensures Exec(s, [Invoke(t, call), a]) ==
            Shift(s, t, if Touches(call) then FastCheck(call) else Ret(call, Outcome(0, [])))
  {
    TwoSteps(s, Invoke(t, call), a);
    assert Step(s, Invoke(t, call)) == Shift(s, t, Entry(call));
  }

  lemma GoneIsRun(s: State, t: Tid, run: seq<Action>, a: Action)
    requires BytesOk(s) && a.Go? && a.t == t
    requires t in Exec(s, run).calls && Exec(s, run).calls[t].Ret?
    ensures Exec(s, run + [a]) == Gone(Exec(s, run), t)
  {
    ExecOne(s, run, a);
  }

  lemma WaitsIsRun(s: State, t: Tid, call: Call, a: Action) returns (run: seq<Action>)
    requires BytesOk(s) && t !in s.calls && a.Go? && a.t == t && Touches(call)
    ensures Exec(s, run) == Waited(Shift(s, t, FastCheck(call)), t, call, a.signal)
  {
    run := [Invoke(t, call), a];
    BegunIsRun(s, t, call, a);
    var more := WaitedIsRun(Exec(s, run), t, call, a);
    ExecAppend(s, run, more);
    run := run + more;
  }

  lemma ServesIsRun(s: State, t: Tid, call: Call, a: Action) returns (run: seq<Action>)
    requires BytesOk(s) && t in s.calls && s.calls[t] == Data(call) && a.Go? && a.t == t
    ensures Served(s, t, call, a.fault, a.scribble).calls[t].Ret?
    ensures Exec(s, run) == Gone(Served(s, t, call, a.fault, a.scribble), t)
    ensures |run| <= 3 && forall b <- run :: b == a
  {
    TransferPlausible(s, t, call, a.fault, a.scribble);
    run := ServedIsRun(s, t, call, a);
    GoneIsRun(s, t, run, a);
    run := run + [a];
  }

  /** It is one of the machine's runs. */
  lemma AloneIsRun(s: State, t: Tid, call: Call, fault: bool, signal: bool, scribble: seq<Byte>)
    returns (run: seq<Action>)
    requires BytesOk(s) && t !in s.calls
    ensures Exec(s, run) == CallAlone(s, t, call, fault, signal, scribble)
  {
    var a := Go(t, fault, signal, scribble);
    if !Touches(call) {
      run := [Invoke(t, call), a];
      BegunIsRun(s, t, call, a);
      GoneIsRun(s, t, run, a);
      run := run + [a];
    } else {
      run := WaitsIsRun(s, t, call, a);
      var s1 := Exec(s, run);
      if s1.calls[t].Data? {
        var more := ServesIsRun(s1, t, call, a);
        ExecAppend(s, run, more);
        run := run + more;
      } else if s1.calls[t].Ret? {
        GoneIsRun(s, t, run, a);
        run := run + [a];
      }
    }
  }

  /** A transfer whose condition holds gives the outcome of the atomic queue. */
  lemma TransferGives(s: State, t: Tid, call: Call, fault: bool, scribble: seq<Byte>)
    requires BytesOk(s) && Touches(call) && Ready(call, s.validlen)
    ensures var s1 := Transfer(s, t, call, fault, scribble);
            var o := Apply(s.buf[..s.validlen], call, fault).outcome;
            && s1.returned == s.returned
            && s1.calls == s.calls[t := if fault then Ret(call, o) else Wake(call, o)]
  {
    var n := Amount(call, s.validlen);
    assert call.Read? ==> s.buf[..s.validlen][..n] == s.buf[..n];
  }

  /** From its data on, a call whose condition holds does what the atomic queue does. */
  lemma ServedOutcome(s: State, t: Tid, call: Call, fault: bool, scribble: seq<Byte>)
    requires BytesOk(s) && Touches(call) && Ready(call, s.validlen)
    ensures var s' := Served(s, t, call, fault, scribble);
            var e := Apply(s.buf[..s.validlen], call, fault);
            && s'.calls == s.calls[t := Ret(call, e.outcome)] && s'.returned == s.returned
            && s'.buf[..s'.validlen] == e.queue
  {
    TransferBytes(s, t, call, fault, scribble);
    TransferGives(s, t, call, fault, scribble);
    var s1, s' := Transfer(s, t, call, fault, scribble), Served(s, t, call, fault, scribble);
    assert s'.buf == s1.buf && s'.validlen == s1.validlen;
  }

  lemma GoneOutcome(s: State, s1: State, t: Tid, call: Call, o: Outcome)
    requires t !in s.calls && s1.calls == s.calls[t := Ret(call, o)] && s1.returned == s.returned
    ensures var s' := Gone(s1, t);
            && s'.calls == s.calls && s'.returned == s.returned + [Event(t, call, o)]
            && s'.buf == s1.buf && s'.validlen == s1.validlen
  {
  }

  lemma AloneServed(s: State, s1: State, t: Tid, call: Call, fault: bool, scribble: seq<Byte>)
    requires BytesOk(s) && t !in s.calls && Touches(call) && Ready(call, s.validlen)
    requires s1.buf == s.buf && s1.validlen == s.validlen && s1.returned == s.returned
    requires s1.calls == s.calls[t := Data(call)]
    ensures var s2 := Served(s1, t, call, fault, scribble);
            var e := Apply(s.buf[..s.validlen], call, fault);
            && s2.calls[t].Ret?
            && var s' := Gone(s2, t);
               && s'.calls == s.calls && s'.returned == s.returned + [Event(t, call, e.outcome)]
               && s'.buf[..s'.validlen] == e.queue
  {
    ServedOutcome(s1, t, call, fault, scribble);
    GoneOutcome(s, Served(s1, t, call, fault, scribble), t, call, Apply(s.buf[..s.validlen], call, fault).outcome);
  }

  lemma WaitedOutcome(s: State, t: Tid, call: Call, signal: bool)
    ensures var s' := Waited(Shift(s, t, FastCheck(call)), t, call, signal);
            && s'.buf == s.buf && s'.validlen == s.validlen && s'.returned == s.returned
            && (if Ready(call, s.validlen) then s'.calls == s.calls[t := Data(call)]
                else if signal then s'.calls == s.calls[t := Ret(call, Outcome(-ERESTARTSYS, []))]
                else s'.calls == s.calls[t := Sleep(call)] && Asleep(s', t))
  {
  }

  /** What a call gives that nobody disturbs and that does not sleep. */
  function AloneEffect(q: seq<Byte>, call: Call, fault: bool): Effect
    requires |q| <= SZ_512
  {
    if Touches(call) && !Ready(call, |q|) then Effect(q, Outcome(-ERESTARTSYS, []))
    else Apply(q, call, fault)
  }

  lemma AloneMeans(q: seq<Byte>, call: Call, fault: bool)
    requires |q| <= SZ_512
    ensures var e := AloneEffect(q, call, fault);
            if Touches(call) && !Ready(call, |q|) then e == Effect(q, Outcome(-ERESTARTSYS, []))
            else Means(q, call, fault, e.outcome, e.queue)
  {
    var e := Apply(q, call, fault);
    ApplyMeans(q, call, fault, e.outcome, e.queue);
  }

  /**
   It sleeps exactly if it moves bytes, its condition is false and no signal is pending.
   Otherwise it returns, interrupted by the signal or with what the atomic queue does.
   */
  lemma AloneOutcome(s: State, t: Tid, call: Call, fault: bool, signal: bool, scribble: seq<Byte>)
    requires BytesOk(s) && t !in s.calls
    ensures var s' := CallAlone(s, t, call, fault, signal, scribble);
            var q, q' := s.buf[..s.validlen], s'.buf[..s'.validlen];
            var e := AloneEffect(q, call, fault);
            if Touches(call) && !Ready(call, s.validlen) && !signal then
              Asleep(s', t) && q' == q && s'.returned == s.returned
            else
              s'.calls == s.calls && q' == e.queue && s'.returned == s.returned + [Event(t, call, e.outcome)]
  {
    if !Touches(call) {
      var o := Outcome(0, []);
      GoneOutcome(s, Shift(s, t, Ret(call, o)), t, call, o);
    } else {
      var s1 := Waited(Shift(s, t, FastCheck(call)), t, call, signal);
      WaitedOutcome(s, t, call, signal);
      if Ready(call, s.validlen) {
        AloneServed(s, s1, t, call, fault, scribble);
      } else if signal {
        GoneOutcome(s, s1, t, call, Outcome(-ERESTARTSYS, []));
      }
    }
  }

  // ---------- Poll

  datatype PollFlag = POLLIN | POLLRDNORM | POLLOUT | POLLWRNORM

  /** The mask that `kbuf_poll` returns. */
  function Poll(s: State): set<PollFlag> {
    (if s.validlen != 0 then {POLLIN, POLLRDNORM} else {}) +
    (if s.validlen != SZ_512 then {POLLOUT, POLLWRNORM} else {})
  }

  /** Poll says exactly which of the two calls would get past its wait without sleeping, with both its flags. */
  lemma PollTellsReadiness(s: State, call: Call)
    ensures Ready(call, s.validlen) <==> (if call.Read? then POLLIN else POLLOUT) in Poll(s)
    ensures Ready(call, s.validlen) <==> (if call.Read? then POLLRDNORM else POLLWRNORM) in Poll(s)
  {
    assert POLLIN in Poll(s) <==> s.validlen != 0;
    assert POLLOUT in Poll(s) <==> s.validlen != SZ_512;
  }

  /** No thread but `r` is in a read. */
  predicate OnlyReader(s: State, r: Tid) {
    forall t <- s.calls :: t != r ==> s.calls[t].call.Write?
  }

  /** A step that leaves `r` the only reader, starts no new call of `r` and lets `r`'s copy succeed. */
  predicate Undisturbing(a: Action, r: Tid) {
    match a
    case Invoke(t, call) => t != r && call.Write?
    case Go(t, fault, _, _) => t == r ==> !fault
  }

  predicate Delivers(o: Outcome, cnt: nat) {
    1 <= o.ret <= cnt && |o.data| == o.ret
  }

  /** `r`'s read of `cnt` bytes is on the straight path: it has not queued and will return bytes. */
  ghost predicate OnPath(s: State, r: Tid, cnt: nat) {
    r in s.calls ==>
      && s.calls[r].call == Read(cnt)
      && match s.calls[r]
         case Wake(_, o) => Delivers(o, cnt)
         case Ret(_, o) => Delivers(o, cnt)
         case Entry(_) => s.validlen != 0
         case FastCheck(_) => s.validlen != 0
         case Data(_) => s.validlen != 0
         case _ => false
  }

  /** How many of its own steps `r` is from the end of its call on the straight path. */
  function Ahead(s: State, r: Tid): nat {
    if r !in s.calls then 0
    else
      match s.calls[r]
      case Entry(_) => 5
      case FastCheck(_) => 4
      case Data(_) => 3
      case Wake(_, _) => 2
      case _ => 1
  }

  function OwnSteps(run: seq<Action>, r: Tid): nat {
    if run == [] then 0
    else
      OwnSteps(run[..|run| - 1], r) + if run[|run| - 1].Go? && run[|run| - 1].t == r then 1 else 0
  }

  /** What `r` has got back so far. */
  function Mine(log: seq<Event>, r: Tid): seq<Event> {
    if log == [] then []
    else
      Mine(log[..|log| - 1], r) + if log[|log| - 1].t == r then [log[|log| - 1]] else []
  }

  /** One more result, that of a read of `cnt` bytes which delivered some. */
  predicate OneMore(was: seq<Event>, log: seq<Event>, cnt: nat) {
    && |log| == |was| + 1 && log[..|was|] == was
    && log[|was|].call == Read(cnt) && Delivers(log[|was|].outcome, cnt)
  }

  lemma StepOnPath(s: State, r: Tid, cnt: nat, a: Action)
    requires BytesOk(s) && cnt != 0 && OnlyReader(s, r) && OnPath(s, r, cnt) && Undisturbing(a, r)
    ensures var s' := Step(s, a);
            && OnlyReader(s', r) && OnPath(s', r, cnt)
            && (s'.validlen != 0 || s.validlen == 0 || a.t == r)
  {
  }

  lemma MineGrows(log: seq<Event>, e: Event, r: Tid)
    ensures Mine(log + [e], r) == Mine(log, r) + if e.t == r then [e] else []
  {
    assert (log + [e])[..|log|] == log;
  }

  /** A step of another thread neither moves `r` nor returns anything to it. */
  lemma OthersStep(s: State, r: Tid, a: Action)
    requires BytesOk(s) && a.t != r
    ensures var s' := Step(s, a);
            Ahead(s', r) == Ahead(s, r) && Mine(s'.returned, r) == Mine(s.returned, r)
  {
    if a.Go? && a.t in s.calls && s.calls[a.t].Ret? {
      MineGrows(s.returned, Event(a.t, s.calls[a.t].call, s.calls[a.t].outcome), r);
    }
  }

  /** Each of `r`'s own steps brings it one nearer to its return, which delivers. */
  lemma OwnStep(s: State, r: Tid, cnt: nat, a: Action)
    requires BytesOk(s) && cnt != 0 && r in s.calls && OnPath(s, r, cnt)
    requires a.Go? && a.t == r && !a.fault
    ensures var s' := Step(s, a);
            && Ahead(s', r) == Ahead(s, r) - 1
            && (if s.calls[r].Ret? then OneMore(Mine(s.returned, r), Mine(s'.returned, r), cnt)
                else Mine(s'.returned, r) == Mine(s.returned, r))
  {
    if s.calls[r].Ret? {
      MineGrows(s.returned, Event(r, s.calls[r].call, s.calls[r].outcome), r);
    } else {
      assert Step(s, a).returned == s.returned;
    }
  }

  /** A file that polls readable stays readable while everyone but its reader runs. */
  lemma {:induction false} StaysReadable(s: State, r: Tid, run: seq<Action>)
    requires BytesOk(s) && r !in s.calls && OnlyReader(s, r) && POLLIN in Poll(s)
    requires forall a <- run :: a.t != r && Undisturbing(a, r)
    ensures var s' := Exec(s, run); r !in s'.calls && OnlyReader(s', r) && POLLIN in Poll(s')
  {
    if run != [] {
      StaysReadable(s, r, run[..|run| - 1]);
      var s1 := Exec(s, run[..|run| - 1]);
      PollTellsReadiness(s1, Read(1));
      StepOnPath(s1, r, 1, run[|run| - 1]);
      PollTellsReadiness(Exec(s, run), Read(1));
    }
  }

  lemma {:induction false} RunOnPath(s: State, r: Tid, cnt: nat, run: seq<Action>)
    requires BytesOk(s) && cnt != 0 && r in s.calls && OnlyReader(s, r) && OnPath(s, r, cnt)
    requires forall a <- run :: Undisturbing(a, r)
    ensures var s' := Exec(s, run);
            && OnlyReader(s', r) && OnPath(s', r, cnt)
            && Ahead(s', r) == (if OwnSteps(run, r) < Ahead(s, r) then Ahead(s, r) - OwnSteps(run, r) else 0)
            && (if r in s'.calls then Mine(s'.returned, r) == Mine(s.returned, r)
                else OneMore(Mine(s.returned, r), Mine(s'.returned, r), cnt))
  {
    if run != [] {
      RunOnPath(s, r, cnt, run[..|run| - 1]);
      StepOnPath(Exec(s, run[..|run| - 1]), r, cnt, run[|run| - 1]);
      var s1, a := Exec(s, run[..|run| - 1]), run[|run| - 1];
      if a.t != r {
        OthersStep(s1, r, a);
      } else if r in s1.calls {
        OwnStep(s1, r, cnt, a);
      }
    }
  }

  /**
   With a single reader, a read that follows a readable poll never queues or sleeps, however
   the writers run before it and during it.  It is over exactly when it has had five steps of
   its own, and then has returned once, with between 1 and `cnt` bytes.
   */
  lemma PolledReadDelivers(s: State, r: Tid, cnt: nat, before: seq<Action>, during: seq<Action>)
    requires BytesOk(s) && r !in s.calls && OnlyReader(s, r) && POLLIN in Poll(s) && cnt != 0
    requires forall a <- before :: a.t != r && Undisturbing(a, r)
    requires forall a <- during :: Undisturbing(a, r)
    ensures var s1 := Step(Exec(s, before), Invoke(r, Read(cnt)));
            var s2 := Exec(s1, during);
            && OnPath(s2, r, cnt)
            && (r in s2.calls ==> !s2.calls[r].Enqueue? && !s2.calls[r].Recheck? && !s2.calls[r].Sleep?)
            && (r !in s2.calls <==> OwnSteps(during, r) >= 5)
            && (if r in s2.calls then Mine(s2.returned, r) == Mine(s1.returned, r)
                else OneMore(Mine(s1.returned, r), Mine(s2.returned, r), cnt))
  {
    StaysReadable(s, r, before);
    var s0 := Exec(s, before);
    PollTellsReadiness(s0, Read(cnt));
    RunOnPath(Step(s0, Invoke(r, Read(cnt))), r, cnt, during);
  }

  // ---------- The epoll server

  /** A result that `read(fd, buf, cnt)` may give: an error, or at most `cnt` bytes. */
  predicate Plausible(call: Call, o: Outcome) {
    o.ret <= (if call.Read? then call.cnt else |call.payload|)
    && |o.data| == if call.Read? && o.ret > 0 then o.ret else 0
  }

  ghost predicate AllPlausible(s: State) {
    && (forall t <- s.calls :: s.calls[t].Wake? || s.calls[t].Ret? ==> Plausible(s.calls[t].call, s.calls[t].outcome))
    && (forall e <- s.returned :: Plausible(e.call, e.outcome))
  }

  lemma TransferPlausible(s: State, t: Tid, call: Call, fault: bool, scribble: seq<Byte>)
    requires BytesOk(s)
    ensures var s' := Transfer(s, t, call, fault, scribble);
            && (s'.calls[t].Wake? || s'.calls[t].Ret?)
            && Plausible(call, s'.calls[t].outcome) && s'.calls[t].call == call
            && s'.returned == s.returned && s'.calls == s.calls[t := s'.calls[t]]
  {
  }

  lemma StepPlausible(s: State, a: Action)
    requires BytesOk(s) && AllPlausible(s)
    ensures AllPlausible(Step(s, a))
  {
    var s' := Step(s, a);
    if a.Go? && a.t in s.calls && s.calls[a.t].Data? {
      TransferPlausible(s, a.t, s.calls[a.t].call, a.fault, a.scribble);
    }
    forall t | t in s'.calls && (s'.calls[t].Wake? || s'.calls[t].Ret?)
      ensures Plausible(s'.calls[t].call, s'.calls[t].outcome)
    {
      if t != a.t {
        assert t in s.calls && s'.calls[t] == s.calls[t];
      }
    }
    forall e | e in s'.returned
      ensures Plausible(e.call, e.outcome)
    {
      if e !in s.returned {
        assert s.calls[a.t].Ret?;
      }
    }
  }

  /** No call of any run returns more than it was asked for. */
  lemma {:induction false} ReturnsPlausible(run: seq<Action>)
    ensures AllPlausible(Exec(Init(), run))
  {
    if run != [] {
      ReturnsPlausible(run[..|run| - 1]);
      StepPlausible(Exec(Init(), run[..|run| - 1]), run[|run| - 1]);
    }
  }

  const CNT := 512

  /**
   What the epoll server does with the result of `read(fd, buf, CNT - 1)`: it gives up on an
   error, and otherwise has the bytes in `buf` and ends them with a 0.
   */
  method ServeRead(buf: array<Byte>, o: Outcome) returns (served: bool)
    requires buf.Length == CNT && Plausible(Read(CNT - 1), o)
    modifies buf
    ensures served <==> o.ret >= 0
    ensures served ==> buf[..o.ret + 1] == o.data + [0] && buf[o.ret + 1..] == old(buf[o.ret + 1..])
    ensures !served ==> buf[..] == old(buf[..])
  {
    if o.ret < 0 {
      return false;
    }
    forall i | 0 <= i < o.ret {
      buf[i] := o.data[i];
    }
    buf[o.ret] := 0;
    return true;
  }
}
