/**
 How calls of the blocking driver come to an end: by a signal, by the wake-up, and that every
 call can.
 */
module PollProgress {
  import opened Fifo
  import opened PollKbuf

  /** A step of `t` when a signal is pending. */
  function Signalled(t: Tid, fault: bool, scribble: seq<Byte>): Action {
    Go(t, fault, true, scribble)
  }

  /** A sleeper that wakes up queues again. */
  function QueuedAgain(s: State, t: Tid, call: Call): State {
    Shift(Join(Shift(s, t, Enqueue(call)), t, call), t, Recheck(call))
  }

  function GivenUp(s: State, t: Tid, call: Call): State {
    Shift(Leave(Shift(s, t, Finish(call, false)), t, call), t, Ret(call, Outcome(-ERESTARTSYS, [])))
  }

  lemma WakesUp(s: State, t: Tid, call: Call, a: Action)
    requires BytesOk(s) && t in s.calls && s.calls[t] == Sleep(call) && a.Go? && a.t == t
    requires a.signal || !Queued(s, t, call)
    ensures Exec(s, [a, a]) == QueuedAgain(s, t, call)
  {
    TwoSteps(s, a, a);
    SleepEnds(s, t, call, a);
    EnqueueJoins(Shift(s, t, Enqueue(call)), t, call, a);
  }

  lemma SleepEnds(s: State, t: Tid, call: Call, a: Action)
    requires BytesOk(s) && t in s.calls && s.calls[t] == Sleep(call) && a.Go? && a.t == t
    requires a.signal || !Queued(s, t, call)
    ensures Step(s, a) == Shift(s, t, Enqueue(call))
  {
  }

  lemma EnqueueJoins(s: State, t: Tid, call: Call, a: Action)
    requires BytesOk(s) && t in s.calls && s.calls[t] == Enqueue(call) && a.Go? && a.t == t
    ensures Step(s, a) == Shift(Join(s, t, call), t, Recheck(call))
  {
  }

  lemma SignalEnds(s: State, t: Tid, call: Call, a: Action)
    requires BytesOk(s) && t in s.calls && s.calls[t] == Recheck(call) && a.Go? && a.t == t && a.signal
    requires !Ready(call, s.validlen)
    ensures Exec(s, [a, a]) == GivenUp(s, t, call)
  {
    TwoSteps(s, a, a);
    GivesUp(s, t, call, a);
  }

  /** Queueing again and leaving is leaving. */
  lemma QueuedAndLeft(s: State, t: Tid, call: Call)
    requires Queued(s, t, call)
    ensures GivenUp(QueuedAgain(s, t, call), t, call) ==
            Shift(Leave(s, t, call), t, Ret(call, Outcome(-ERESTARTSYS, [])))
  {
    assert (if call.Read? then s.waitr else s.waitw) + {t} == if call.Read? then s.waitr else s.waitw;
  }

  /** Four statements take a signalled sleeper to its return. */
  lemma SleeperGivesUp(s: State, t: Tid, a: Action)
    requires BytesOk(s) && Asleep(s, t) && !Ready(s.calls[t].call, s.validlen)
    requires a.Go? && a.t == t && a.signal
    ensures var call := s.calls[t].call;
            Exec(s, [a, a] + [a, a]) == Shift(Leave(s, t, call), t, Ret(call, Outcome(-ERESTARTSYS, [])))
  {
    var call := s.calls[t].call;
    WakesUp(s, t, call, a);
    SignalEnds(QueuedAgain(s, t, call), t, call, a);
    ExecAppend(s, [a, a], [a, a]);
    QueuedAndLeft(s, t, call);
  }

  /**
   A signal ends a sleep whose condition is false: after five statements of its own, the call
   has returned -ERESTARTSYS, its thread is in no queue, and nothing else is changed.
   */
  lemma SignalEndsSleep(s: State, t: Tid, a: Action)
    requires BytesOk(s) && Asleep(s, t) && !Ready(s.calls[t].call, s.validlen)
    requires a.Go? && a.t == t && a.signal
    ensures var call := s.calls[t].call;
            Exec(s, [a, a] + [a, a] + [a]) ==
            Leave(s, t, call).(
              calls := s.calls - {t},
              returned := s.returned + [Event(t, call, Outcome(-ERESTARTSYS, []))])
  {
    SleeperGivesUp(s, t, a);
    GoneIsRun(s, t, [a, a] + [a, a], a);
  }

  // ---------- Every call can return

  /** How many statements a signalled thread has left at most. */
  function Rank(pc: Pc): nat {
    match pc
    case Entry(_) => 9
    case FastCheck(_) => 8
    case Sleep(_) => 7
    case Enqueue(_) => 6
    case Recheck(_) => 5
    case Finish(_, _) => 4
    case Data(_) => 3
    case Wake(_, _) => 2
    case Ret(_, _) => 1
  }

  lemma SignalProgress(s: State, t: Tid, fault: bool, scribble: seq<Byte>)
    requires BytesOk(s) && t in s.calls
    ensures var s' := Step(s, Signalled(t, fault, scribble));
            && s'.calls - {t} == s.calls - {t}
            && (t in s'.calls ==> Rank(s'.calls[t]) < Rank(s.calls[t]) && s'.calls[t].call == s.calls[t].call)
            && (if t in s'.calls then s'.returned == s.returned
                else |s'.returned| == |s.returned| + 1 && s'.returned[..|s.returned|] == s.returned
                     && s'.returned[|s.returned|].t == t && s'.returned[|s.returned|].call == s.calls[t].call)
  {
    if s.calls[t].Data? {
      TransferPlausible(s, t, s.calls[t].call, fault, scribble);
    }
  }

  /** A thread that runs alone and signalled gets to the end of its call, wherever it is. */
  lemma {:induction false} FinishOne(run: seq<Action>, t: Tid) returns (run': seq<Action>)
    requires t in Exec(Init(), run).calls
    ensures var s, s' := Exec(Init(), run), Exec(Init(), run');
            && run <= run' && s'.calls == s.calls - {t}
            && |s'.returned| == |s.returned| + 1 && s'.returned[..|s.returned|] == s.returned
            && s'.returned[|s.returned|].t == t && s'.returned[|s.returned|].call == s.calls[t].call
    decreases Rank(Exec(Init(), run).calls[t])
  {
    var a := Signalled(t, false, []);
    SignalProgress(Exec(Init(), run), t, false, []);
    ExecOne(Init(), run, a);
    run' := run + [a];
    if t in Exec(Init(), run').calls {
      run' := FinishOne(run', t);
    }
  }

  /** Every run can be continued, with signals, to one in which all calls have returned. */
  lemma {:induction false} EveryCallCanReturn(run: seq<Action>) returns (run': seq<Action>)
    ensures run <= run' && Exec(Init(), run').calls == map[]
    decreases |Exec(Init(), run).calls|
  {
    var calls := Exec(Init(), run).calls;
    if calls == map[] {
      run' := run;
    } else {
      var t :| t in calls;
      run' := FinishOne(run, t);
      assert calls == (calls - {t})[t := calls[t]];
      run' := EveryCallCanReturn(run');
    }
  }

  // ---------- Waking up with the condition true

  function Passed(s: State, t: Tid, call: Call): State {
    Shift(Leave(Shift(s, t, Finish(call, true)), t, call), t, Data(call))
  }

  lemma QueuedAndPassed(s: State, t: Tid, call: Call)
    ensures var s' := Passed(QueuedAgain(s, t, call), t, call);
            && s'.calls == s.calls[t := Data(call)] && !Queued(s', t, call)
            && s'.buf == s.buf && s'.validlen == s.validlen && s'.returned == s.returned
  {
  }

  lemma ReadyEnds(s: State, t: Tid, call: Call, a: Action)
    requires BytesOk(s) && t in s.calls && s.calls[t] == Recheck(call) && a.Go? && a.t == t
    requires Ready(call, s.validlen)
    ensures Exec(s, [a, a]) == Passed(s, t, call)
  {
    TwoSteps(s, a, a);
    RecheckPasses(s, t, call, a);
    FinishPasses(Shift(s, t, Finish(call, true)), t, call, a);
  }

  lemma RecheckPasses(s: State, t: Tid, call: Call, a: Action)
    requires BytesOk(s) && t in s.calls && s.calls[t] == Recheck(call) && a.Go? && a.t == t
    requires Ready(call, s.validlen)
    ensures Step(s, a) == Shift(s, t, Finish(call, true))
  {
  }

  lemma FinishPasses(s: State, t: Tid, call: Call, a: Action)
    requires BytesOk(s) && t in s.calls && s.calls[t] == Finish(call, true) && a.Go? && a.t == t
    ensures Step(s, a) == Shift(Leave(s, t, call), t, Data(call))
  {
  }

  lemma SleeperReachesItsData(s: State, t: Tid, call: Call, a: Action)
    requires BytesOk(s) && t in s.calls && s.calls[t] == Sleep(call) && a.Go? && a.t == t
    requires (a.signal || !Queued(s, t, call)) && Ready(call, s.validlen)
    ensures var s' := Exec(s, [a, a] + [a, a]);
            && s'.calls == s.calls[t := Data(call)] && !Queued(s', t, call)
            && s'.buf == s.buf && s'.validlen == s.validlen && s'.returned == s.returned
  {
    WakesUp(s, t, call, a);
    ReadyEnds(QueuedAgain(s, t, call), t, call, a);
    ExecAppend(s, [a, a], [a, a]);
    QueuedAndPassed(s, t, call);
  }

  /**
   A sleeper that is woken or gets a signal, and finds its condition true, is served: the
   condition counts before the signal, and seven statements of its own bring it back with what
   the call means.
   */
  lemma WokenServes(s: State, t: Tid, a: Action) returns (run: seq<Action>, o: Outcome)
    requires BytesOk(s) && t in s.calls && s.calls[t].Sleep? && a.Go? && a.t == t
    requires var call := s.calls[t].call;
             Touches(call) && (a.signal || !Queued(s, t, call)) && Ready(call, s.validlen)
    ensures var call := s.calls[t].call;
            var s' := Exec(s, run);
            && |run| <= 7 && (forall b <- run :: b == a)
            && s'.calls == s.calls - {t} && s'.returned == s.returned + [Event(t, call, o)]
            && Means(s.buf[..s.validlen], call, a.fault, o, s'.buf[..s'.validlen])
  {
    var call := s.calls[t].call;
    SleeperReachesItsData(s, t, call, a);
    run := [a, a] + [a, a];
    var more;
    more, o := DataServes(Exec(s, run), t, a);
    ExecAppend(s, run, more);
    run := run + more;
    assert s.calls[t := Data(call)] - {t} == s.calls - {t};
  }

  lemma DataServes(s: State, t: Tid, a: Action) returns (run: seq<Action>, o: Outcome)
    requires BytesOk(s) && t in s.calls && s.calls[t].Data? && a.Go? && a.t == t
    requires Touches(s.calls[t].call) && Ready(s.calls[t].call, s.validlen)
    ensures var call := s.calls[t].call;
            var s' := Exec(s, run);
            && |run| <= 3 && (forall b <- run :: b == a)
            && s'.calls == s.calls - {t} && s'.returned == s.returned + [Event(t, call, o)]
            && Means(s.buf[..s.validlen], call, a.fault, o, s'.buf[..s'.validlen])
  {
    var call := s.calls[t].call;
    run := ServesIsRun(s, t, call, a);
    ServedOutcome(s, t, call, a.fault, a.scribble);
    var e := Apply(s.buf[..s.validlen], call, a.fault);
    o := e.outcome;
    ApplyMeans(s.buf[..s.validlen], call, a.fault, o, e.queue);
    assert s.calls[t := Ret(call, o)] - {t} == s.calls - {t};
  }
}
