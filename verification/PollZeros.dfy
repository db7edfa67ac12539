/**
 Which calls of the blocking driver return 0 without having been empty: those that are woken, or
 pass their check, and find at their transfer that another thread was faster.
 */
module PollZeros {
  import opened Fifo
  import opened PollKbuf

  predicate ZeroEvent(e: Event) {
    Touches(e.call) && e.outcome.ret == 0
  }

  /** A call that is not empty and is about to return 0. */
  predicate ZeroPc(pc: Pc) {
    (pc.Wake? || pc.Ret?) && Touches(pc.call) && pc.outcome.ret == 0
  }

  function Pending(s: State): set<Tid> {
    set t | t in s.calls && ZeroPc(s.calls[t])
  }

  function Zeros(log: seq<Event>): nat {
    if log == [] then 0
    else Zeros(log[..|log| - 1]) + if ZeroEvent(log[|log| - 1]) then 1 else 0
  }

  /** The step is the transfer of a call whose condition is false again. */
  predicate Stale(s: State, a: Action) {
    && a.Go? && a.t in s.calls && s.calls[a.t].Data?
    && Touches(s.calls[a.t].call) && !Ready(s.calls[a.t].call, s.validlen)
  }

  function StaleSteps(run: seq<Action>): nat {
    if run == [] then 0
    else
      StaleSteps(run[..|run| - 1]) + if Stale(Exec(Init(), run[..|run| - 1]), run[|run| - 1]) then 1 else 0
  }

  /** No call of the run came to its transfer with its condition false again. */
  predicate NeverStale(run: seq<Action>) {
    run == [] ||
    (NeverStale(run[..|run| - 1]) && !Stale(Exec(Init(), run[..|run| - 1]), run[|run| - 1]))
  }

  lemma PendingSplit(s: State, t: Tid)
    ensures var others := Pending(s) - {t};
            |Pending(s)| == |others| + if t in s.calls && ZeroPc(s.calls[t]) then 1 else 0
  {
    if t in Pending(s) {
      assert Pending(s) == (Pending(s) - {t}) + {t};
    } else {
      assert Pending(s) == Pending(s) - {t};
    }
  }

  lemma PendingAfter(s: State, s': State, t: Tid)
    requires forall u | u != t :: u in s'.calls <==> u in s.calls
    requires forall u | u != t && u in s.calls :: s'.calls[u] == s.calls[u]
    ensures Pending(s') - {t} == Pending(s) - {t}
  {
  }

  lemma TransferZero(s: State, t: Tid, call: Call, fault: bool, scribble: seq<Byte>)
    requires BytesOk(s) && t in s.calls && s.calls[t] == Data(call)
    ensures var s' := Transfer(s, t, call, fault, scribble);
            && s'.calls == s.calls[t := s'.calls[t]] && s'.returned == s.returned && s'.calls[t].call == call
            && (ZeroPc(s'.calls[t]) <==> Touches(call) && !Ready(call, s.validlen))
  {
    TransferPlausible(s, t, call, fault, scribble);
    if Touches(call) {
      ZeroTransferExactly(s, t, call, fault, scribble);
    }
  }

  /** A step of `t` keeps what the others are doing, and only its return is recorded. */
  lemma StepMoves(s: State, a: Action)
    requires BytesOk(s)
    ensures var s' := Step(s, a);
            var t := a.t;
            var ends := a.Go? && t in s.calls && s.calls[t].Ret?;
            && (forall u | u != t :: u in s'.calls <==> u in s.calls)
            && (forall u | u != t && u in s.calls :: s'.calls[u] == s.calls[u])
            && (t in s'.calls && ZeroPc(s'.calls[t]) ==> t in s.calls && s'.calls[t].call == s.calls[t].call)
            && (if ends then
                  t !in s'.calls && s'.returned == s.returned + [Event(t, s.calls[t].call, s.calls[t].outcome)]
                else
                  && s'.returned == s.returned
                  && (t in s'.calls && ZeroPc(s'.calls[t]) <==>
                      Stale(s, a) || (t in s.calls && ZeroPc(s.calls[t]))))
  {
    if a.Go? && a.t in s.calls && s.calls[a.t].Data? {
      TransferZero(s, a.t, s.calls[a.t].call, a.fault, a.scribble);
    }
  }

  lemma StepZeros(s: State, a: Action)
    requires BytesOk(s)
    ensures var s' := Step(s, a);
            Zeros(s'.returned) + |Pending(s')| == Zeros(s.returned) + |Pending(s)| + if Stale(s, a) then 1 else 0
  {
    var s' := Step(s, a);
    StepMoves(s, a);
    PendingAfter(s, s', a.t);
    PendingSplit(s, a.t);
    PendingSplit(s', a.t);
    if s'.returned != s.returned {
      assert s'.returned[..|s'.returned| - 1] == s.returned;
    }
  }

  /**
   In every run, the non-empty calls that returned 0 and those that are about to are as many as
   the transfers that came too late.
   */
  lemma {:induction false} ZerosCounted(run: seq<Action>)
    ensures var s := Exec(Init(), run);
            Zeros(s.returned) + |Pending(s)| == StaleSteps(run)
  {
    if run != [] {
      ZerosCounted(run[..|run| - 1]);
      StepZeros(Exec(Init(), run[..|run| - 1]), run[|run| - 1]);
    }
  }

  lemma {:induction false} NeverStaleCounts(run: seq<Action>)
    ensures NeverStale(run) <==> StaleSteps(run) == 0
  {
    if run != [] {
      NeverStaleCounts(run[..|run| - 1]);
    }
  }

  lemma {:induction false} NoZeros(log: seq<Event>)
    ensures Zeros(log) == 0 <==> forall e <- log :: !ZeroEvent(e)
  {
    if log != [] {
      NoZeros(log[..|log| - 1]);
      assert log == log[..|log| - 1] + [log[|log| - 1]];
    }
  }

  /** When all calls of a run are over, none that was not empty returned 0 exactly if no transfer came too late. */
  lemma NoZeroExactly(run: seq<Action>)
    requires Exec(Init(), run).calls == map[]
    ensures (forall e <- Exec(Init(), run).returned :: Touches(e.call) ==> e.outcome.ret != 0) <==> NeverStale(run)
  {
    ZerosCounted(run);
    NeverStaleCounts(run);
    NoZeros(Exec(Init(), run).returned);
    assert Pending(Exec(Init(), run)) == {};
  }

  // ---------- A side with a single thread

  /** Only thread `r` ever reads, or only `r` ever writes. */
  predicate Sole(run: seq<Action>, r: Tid, reader: bool) {
    forall a <- run :: a.Invoke? && a.call.Read? == reader ==> a.t == r
  }

  /** A call that has found its condition true finds it true still. */
  ghost predicate SoleOk(s: State, r: Tid, reader: bool) {
    forall t <- s.calls | s.calls[t].call.Read? == reader ::
      && t == r
      && (s.calls[t].Data? || (s.calls[t].Finish? && s.calls[t].ok) ==> Ready(s.calls[t].call, s.validlen))
  }

  /** Nothing but a transfer on its own side makes a condition false. */
  lemma ReadyKept(s: State, a: Action, call: Call)
    requires BytesOk(s) && Ready(call, s.validlen)
    requires a.Go? && a.t in s.calls && s.calls[a.t].Data? ==> s.calls[a.t].call.Read? != call.Read?
    ensures Ready(call, Step(s, a).validlen)
  {
  }

  /** A thread that goes to its data, or to the end of its wait, has found its condition true. */
  lemma StepReady(s: State, a: Action)
    requires BytesOk(s) && a.Go? && a.t in s.calls
    ensures var s' := Step(s, a);
            var t := a.t;
            t in s'.calls ==>
              && s'.calls[t].call == s.calls[t].call
              && !(s.calls[t].Data? && (s'.calls[t].Data? || s'.calls[t].Finish?))
              && (s'.calls[t].Data? || (s'.calls[t].Finish? && s'.calls[t].ok) ==>
                    Ready(s.calls[t].call, s.validlen) || (s.calls[t].Finish? && s.calls[t].ok))
  {
    if s.calls[a.t].Data? {
      TransferZero(s, a.t, s.calls[a.t].call, a.fault, a.scribble);
      TransferPlausible(s, a.t, s.calls[a.t].call, a.fault, a.scribble);
    }
  }

  lemma StepSole(s: State, a: Action, r: Tid, reader: bool)
    requires BytesOk(s) && SoleOk(s, r, reader)
    requires a.Invoke? && a.call.Read? == reader ==> a.t == r
    ensures SoleOk(Step(s, a), r, reader)
  {
    var s' := Step(s, a);
    StepMoves(s, a);
    if a.Go? && a.t in s.calls {
      StepReady(s, a);
    }
    forall t | t in s'.calls && s'.calls[t].call.Read? == reader
      ensures t == r
      ensures s'.calls[t].Data? || (s'.calls[t].Finish? && s'.calls[t].ok) ==> Ready(s'.calls[t].call, s'.validlen)
    {
      if t in s.calls && Ready(s.calls[t].call, s.validlen) && !(t == a.t && s.calls[t].Data?) {
        ReadyKept(s, a, s.calls[t].call);
      }
    }
  }

  lemma {:induction false} SoleKeeps(run: seq<Action>, r: Tid, reader: bool)
    requires Sole(run, r, reader)
    ensures SoleOk(Exec(Init(), run), r, reader)
  {
    if run != [] {
      SoleKeeps(run[..|run| - 1], r, reader);
      StepSole(Exec(Init(), run[..|run| - 1]), run[|run| - 1], r, reader);
    }
  }

  /** No call on the side is about to return 0, and none has. */
  ghost predicate NoneZero(s: State, reader: bool) {
    && (forall e <- s.returned :: e.call.Read? == reader ==> !ZeroEvent(e))
    && (forall t <- s.calls :: s.calls[t].call.Read? == reader ==> !ZeroPc(s.calls[t]))
  }

  lemma StepNoneZero(s: State, a: Action, r: Tid, reader: bool)
    requires BytesOk(s) && SoleOk(s, r, reader) && NoneZero(s, reader)
    ensures NoneZero(Step(s, a), reader)
  {
    var s' := Step(s, a);
    StepMoves(s, a);
    forall t | t in s'.calls && s'.calls[t].call.Read? == reader
      ensures !ZeroPc(s'.calls[t])
    {
      if t != a.t {
        assert t in s.calls && s'.calls[t] == s.calls[t];
      }
    }
    forall e | e in s'.returned && e.call.Read? == reader
      ensures !ZeroEvent(e)
    {
      if e !in s.returned {
        assert e.call == s.calls[a.t].call && e.outcome == s.calls[a.t].outcome;
      }
    }
  }

  /** With a single reader, no read of at least one byte returns 0, or is about to; the same for a single writer. */
  lemma {:induction false} SoleNeverZero(run: seq<Action>, r: Tid, reader: bool)
    requires Sole(run, r, reader)
    ensures NoneZero(Exec(Init(), run), reader)
  {
    if run != [] {
      var p, a := run[..|run| - 1], run[|run| - 1];
      SoleNeverZero(p, r, reader);
      SoleKeeps(p, r, reader);
      StepNoneZero(Exec(Init(), p), a, r, reader);
    }
  }
}
