/**
 What the transfers of the blocking driver move, in every run, and that callers are told it.
 */
module PollHistory {
  import opened Fifo
  import opened PollKbuf

  predicate EachMoves(h: seq<Event>) {
    forall i: nat :: i < |h| ==> Moves(Stock(h[..i]), h[i].call, h[i].outcome, Stock(h[..i + 1]))
  }

  lemma EachMovesGrows(h: seq<Event>, e: Event)
    requires EachMoves(h) && Moves(Stock(h), e.call, e.outcome, Stock(h + [e]))
    ensures EachMoves(h + [e])
  {
    var h' := h + [e];
    forall i: nat | i < |h'|
      ensures Moves(Stock(h'[..i]), h'[i].call, h'[i].outcome, Stock(h'[..i + 1]))
    {
      if i < |h| {
        assert h'[..i] == h[..i] && h'[..i + 1] == h[..i + 1];
      } else {
        assert h'[..i] == h && h'[..i + 1] == h';
      }
    }
  }

  lemma Balanced(h: seq<Event>, q: seq<Byte>)
    requires Accepted(h) == Delivered(h) + q
    ensures Stock(h) == q
  {
    assert (Delivered(h) + q)[|Delivered(h)|..] == q;
  }

  /** In every run, each transfer moved as much as it could of what was then valid. */
  lemma {:induction false} EachTransferMoves(run: seq<Action>)
    ensures var s := Exec(Init(), run);
            EachMoves(s.history) && Stock(s.history) == s.buf[..s.validlen]
  {
    BytesConserved(run);
    Balanced(Exec(Init(), run).history, Exec(Init(), run).buf[..Exec(Init(), run).validlen]);
    if run != [] {
      var s, a := Exec(Init(), run[..|run| - 1]), run[|run| - 1];
      EachTransferMoves(run[..|run| - 1]);
      if a.Go? && a.t in s.calls && s.calls[a.t].Data? {
        var call := s.calls[a.t].call;
        TransferEvent(s, a.t, call, a.fault, a.scribble);
        TransferBytes(s, a.t, call, a.fault, a.scribble);
        var n, q := Amount(call, s.validlen), s.buf[..s.validlen];
        if !(a.fault && n != 0) {
          AmountMoves(q, call);
          EachMovesGrows(s.history, Event(a.t, call, Outcome(n, if call.Read? then q[..n] else [])));
        }
      }
    }
  }

  /** The caller learns of its transfer, or of the fault or signal that prevented it. */
  predicate Told(history: seq<Event>, e: Event) {
    if !Touches(e.call) then e.outcome == Outcome(0, [])
    else e in history || e.outcome == Outcome(-EIO, []) || e.outcome == Outcome(-ERESTARTSYS, [])
  }

  /** So are those who are about to return; `Touches` is known of all who are past the first test. */
  ghost predicate AllTold(s: State) {
    && (forall e <- s.returned :: Told(s.history, e))
    && (forall t <- s.calls :: ToldAt(s.history, t, s.calls[t]))
  }

  predicate ToldAt(history: seq<Event>, t: Tid, pc: Pc) {
    match pc
    case Entry(_) => true
    case Wake(call, o) => Touches(call) && Event(t, call, o) in history
    case Ret(call, o) => Told(history, Event(t, call, o))
    case _ => Touches(pc.call)
  }

  lemma StepTold(s: State, a: Action)
    requires BytesOk(s) && AllTold(s)
    ensures AllTold(Step(s, a))
  {
    var s' := Step(s, a);
    HistoryGrows(s, a);
    forall t | t in s'.calls
      ensures ToldAt(s'.history, t, s'.calls[t])
    {
      if t != a.t {
        assert t in s.calls && s'.calls[t] == s.calls[t];
        assert ToldAt(s.history, t, s.calls[t]);
      } else if a.Go? && s.calls[t].Data? {
        TransferTold(s, t, s.calls[t].call, a.fault, a.scribble);
      }
    }
    forall e | e in s'.returned
      ensures Told(s'.history, e)
    {
      if e !in s.returned {
        assert ToldAt(s.history, a.t, s.calls[a.t]);
      }
    }
  }

  lemma HistoryGrows(s: State, a: Action)
    requires BytesOk(s)
    ensures forall e <- s.history :: e in Step(s, a).history
  {
  }

  lemma TransferTold(s: State, t: Tid, call: Call, fault: bool, scribble: seq<Byte>)
    requires BytesOk(s) && Touches(call)
    ensures var s' := Transfer(s, t, call, fault, scribble);
            t in s'.calls && ToldAt(s'.history, t, s'.calls[t])
  {
  }

  /** In every run, what a call returned is what it did. */
  lemma {:induction false} EveryCallerTold(run: seq<Action>)
    ensures AllTold(Exec(Init(), run))
  {
    if run != [] {
      EveryCallerTold(run[..|run| - 1]);
      StepTold(Exec(Init(), run[..|run| - 1]), run[|run| - 1]);
    }
  }
}
