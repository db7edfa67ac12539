/**
 The bounded byte queue behind every kbuf device, as operations that happen at one instant.

 `Apply` is what one read or write does to the queue when nothing interferes with it.  The
 machine below it lets any number of threads call at any time: a call is invoked, takes
 effect once, and returns.  The locked driver is proved to refine this machine.
 */
module Fifo {
  newtype Byte = x: int | 0 <= x < 0x100
  type Tid = nat

  const SZ_512: nat := 512

  const EIO := 5
  const EAGAIN := 11
  const ENOSPC := 28

  /** A call and its arguments; a write's `cnt` is the length of its payload. */
  datatype Call = Read(cnt: nat) | Write(payload: seq<Byte>)

  /** What a call gives back: the return value, and the bytes that reached a reader's buffer. */
  datatype Outcome = Outcome(ret: int, data: seq<Byte>)

  datatype Effect = Effect(queue: seq<Byte>, outcome: Outcome)

  datatype Event = Event(t: Tid, call: Call, outcome: Outcome)

  function Min(a: nat, b: nat): nat {
    if a <= b then a else b
  }

  /** A call with `cnt == 0` returns before it touches the device. */
  predicate Touches(call: Call) {
    match call
    case Read(cnt) => cnt != 0
    case Write(payload) => payload != []
  }

  /** The number of bytes a call moves when the queue holds `len` bytes. */
  function Amount(call: Call, len: nat): nat
    requires len <= SZ_512
  {
    match call
    case Read(cnt) => Min(cnt, len)
    case Write(payload) => Min(|payload|, SZ_512 - len)
  }

  /** `memmove(buf, buf + n, len - n)`; it does nothing if it moves no bytes, or moves them nowhere. */
  function MovedDown(buf: seq<Byte>, n: nat, len: nat): seq<Byte>
    requires n <= len <= |buf|
  {
    if n == 0 || n == len then buf else buf[n..len] + buf[len - n..]
  }

  /** `buf` after `bytes` were stored from index `at` on */
  function Stored(buf: seq<Byte>, at: nat, bytes: seq<Byte>): seq<Byte>
    requires at + |bytes| <= |buf|
  {
    buf[..at] + bytes + buf[at + |bytes|..]
  }

  /** What a failed copy from user space may leave: any bytes, but no more than it was asked to copy. */
  function Scribble(scribble: seq<Byte>, n: nat): (bytes: seq<Byte>)
    ensures |bytes| <= n
  {
    scribble[..Min(n, |scribble|)]
  }

  /** One call on an undisturbed queue; `fault` says whether the copy to or from user space fails. */
  function Apply(q: seq<Byte>, call: Call, fault: bool): (e: Effect)
    requires |q| <= SZ_512
    ensures |e.queue| <= SZ_512
  {
    if !Touches(call) then
      Effect(q, Outcome(0, []))
    else if call.Read? && |q| == 0 then
      Effect(q, Outcome(-EAGAIN, []))
    else if call.Write? && |q| == SZ_512 then
      Effect(q, Outcome(-ENOSPC, []))
    else if fault then
      Effect(q, Outcome(-EIO, []))
    else
      var n := Amount(call, |q|);
      match call
      case Read(_) => Effect(q[n..], Outcome(n, q[..n]))
      case Write(payload) => Effect(q + payload[..n], Outcome(n, []))
  }

  // ---------- What a call means, by its arguments and results alone

  /**
   Bytes leave the queue `q` at its front, and either all that were asked for or all there are:
   it becomes `q'`.
   */
  predicate Takes(q: seq<Byte>, cnt: nat, o: Outcome, q': seq<Byte>) {
    && o.data + q' == q
    && o.ret == |o.data| <= cnt
    && (|o.data| == cnt || q' == [])
  }

  /** A prefix of `payload` joins the queue at its end, and either all of it or as much as fills the buffer. */
  predicate Adds(q: seq<Byte>, payload: seq<Byte>, o: Outcome, q': seq<Byte>) {
    && 0 <= o.ret <= |payload| && o.data == []
    && q' == q + payload[..o.ret]
    && |q'| <= SZ_512
    && (o.ret == |payload| || |q'| == SZ_512)
  }

  /** The outcome of a read and the queue after it. */
  predicate ReadMeans(q: seq<Byte>, cnt: nat, fault: bool, o: Outcome, q': seq<Byte>) {
    if cnt == 0 then o == Outcome(0, []) && q' == q
    else if q == [] then o == Outcome(-EAGAIN, []) && q' == q
    else if fault then o == Outcome(-EIO, []) && q' == q
    else Takes(q, cnt, o, q')
  }

  predicate WriteMeans(q: seq<Byte>, payload: seq<Byte>, fault: bool, o: Outcome, q': seq<Byte>) {
    if payload == [] then o == Outcome(0, []) && q' == q
    else if |q| == SZ_512 then o == Outcome(-ENOSPC, []) && q' == q
    else if fault then o == Outcome(-EIO, []) && q' == q
    else Adds(q, payload, o, q')
  }

  predicate Means(q: seq<Byte>, call: Call, fault: bool, o: Outcome, q': seq<Byte>) {
    match call
    case Read(cnt) => ReadMeans(q, cnt, fault, o, q')
    case Write(payload) => WriteMeans(q, payload, fault, o, q')
  }

  /** `Apply` is the one function that does what the calls mean. */
  lemma ApplyMeans(q: seq<Byte>, call: Call, fault: bool, o: Outcome, q': seq<Byte>)
    requires |q| <= SZ_512
    ensures Means(q, call, fault, o, q') <==> Effect(q', o) == Apply(q, call, fault)
  {
    var n := Amount(call, |q|);
    if Touches(call) && !fault {
      match call
      case Read(cnt) =>
        assert q[..n] + q[n..] == q;
        if Takes(q, cnt, o, q') {
          assert |o.data| == n;
          assert o.data == q[..n] && q' == q[n..];
        }
      case Write(payload) =>
        if Adds(q, payload, o, q') {
          assert o.ret == n;
        }
    }
  }

  // ---------- Histories of calls that took effect one after the other

  predicate Failed(o: Outcome) {
    o.ret == -EIO
  }

  /** The queue left by a history that starts on the empty queue. */
  function Final(h: seq<Event>): (q: seq<Byte>)
    ensures |q| <= SZ_512
  {
    if h == [] then []
    else
      var last := h[|h| - 1];
      Apply(Final(h[..|h| - 1]), last.call, Failed(last.outcome)).queue
  }

  /** Every call of the history returned what `Apply` returns at that point. */
  predicate Legal(h: seq<Event>) {
    h == [] ||
    (var last := h[|h| - 1];
     && Legal(h[..|h| - 1])
     && last.outcome == Apply(Final(h[..|h| - 1]), last.call, Failed(last.outcome)).outcome)
  }

  /** The bytes the writers of a history got in, in order. */
  function Accepted(h: seq<Event>): seq<Byte> {
    if h == [] then []
    else
      var last := h[|h| - 1];
      Accepted(h[..|h| - 1]) +
      if last.call.Write? && 0 < last.outcome.ret <= |last.call.payload| then
        last.call.payload[..last.outcome.ret]
      else []
  }

  /** The bytes the readers of a history got out, in order. */
  function Delivered(h: seq<Event>): seq<Byte> {
    if h == [] then []
    else Delivered(h[..|h| - 1]) + h[|h| - 1].outcome.data
  }

  /** One call conserves bytes: what was out plus what was queued plus what goes in is kept. */
  lemma ApplyConserves(before: seq<Byte>, q: seq<Byte>, call: Call, fault: bool)
    requires |q| <= SZ_512
    ensures var e := Apply(q, call, fault);
            (before + q)
            + (if call.Write? && 0 < e.outcome.ret <= |call.payload| then call.payload[..e.outcome.ret] else [])
            == (before + e.outcome.data) + e.queue
  {
    var e := Apply(q, call, fault);
    ApplyMeans(q, call, fault, e.outcome, e.queue);
    assert (before + e.outcome.data) + e.queue == before + (e.outcome.data + e.queue);
    if call.Write? && 0 < e.outcome.ret <= |call.payload| {
      assert (before + q) + call.payload[..e.outcome.ret] == before + (q + call.payload[..e.outcome.ret]);
    }
  }

  /** Nothing is lost, duplicated or reordered by a legal history. */
  lemma {:induction false} LegalConserves(h: seq<Event>)
    requires Legal(h)
    ensures Accepted(h) == Delivered(h) + Final(h)
  {
    if h != [] {
      var p, last := h[..|h| - 1], h[|h| - 1];
      LegalConserves(p);
      ApplyConserves(Delivered(p), Final(p), last.call, Failed(last.outcome));
    }
  }

  /** What is in the queue, told from what went in and came out. */
  function Stock(h: seq<Event>): seq<Byte> {
    if |Delivered(h)| <= |Accepted(h)| then Accepted(h)[|Delivered(h)|..] else []
  }

  /** Every call of the history did to the bytes then in the queue what a call means. */
  predicate EachMeans(h: seq<Event>) {
    forall i: nat :: i < |h| ==>
      Means(Stock(h[..i]), h[i].call, Failed(h[i].outcome), h[i].outcome, Stock(h[..i + 1]))
  }

  lemma {:induction false} LegalMeans(h: seq<Event>)
    requires Legal(h)
    ensures EachMeans(h) && Stock(h) == Final(h)
  {
    LegalConserves(h);
    assert (Delivered(h) + Final(h))[|Delivered(h)|..] == Final(h);
    if h != [] {
      var p, last := h[..|h| - 1], h[|h| - 1];
      LegalMeans(p);
      ApplyMeans(Final(p), last.call, Failed(last.outcome), last.outcome, Final(h));
      forall i: nat | i < |h|
        ensures Means(Stock(h[..i]), h[i].call, Failed(h[i].outcome), h[i].outcome, Stock(h[..i + 1]))
      {
        if i < |p| {
          assert h[..i] == p[..i] && h[..i + 1] == p[..i + 1] && h[i] == p[i];
        } else {
          assert h[..i] == p && h[..i + 1] == h;
        }
      }
    }
  }

  // ---------- Concurrent callers of the atomic queue

  datatype AbsPc = Pending(call: Call) | Done(call: Call, outcome: Outcome)

  /**
   `history` lists the effects in the order they happened, `returned` the calls in the order
   they came back to their callers.
   */
  datatype AbsState = AbsState(queue: seq<Byte>, calls: map<Tid, AbsPc>, history: seq<Event>, returned: seq<Event>)

  datatype AbsAction = AbsInvoke(t: Tid, call: Call) | AbsAct(t: Tid, fault: bool) | AbsReturn(t: Tid)

  const AbsInit := AbsState([], map[], [], [])

  function AbsStep(s: AbsState, a: AbsAction): (r: AbsState)
    requires |s.queue| <= SZ_512
    ensures |r.queue| <= SZ_512
  {
    match a
    case AbsInvoke(t, call) =>
      if t in s.calls then s else s.(calls := s.calls[t := Pending(call)])
    case AbsAct(t, fault) =>
      if t !in s.calls || !s.calls[t].Pending? then s
      else
        var call := s.calls[t].call;
        var e := Apply(s.queue, call, fault);
        s.(queue := e.queue,
           calls := s.calls[t := Done(call, e.outcome)],
           history := if Touches(call) then s.history + [Event(t, call, e.outcome)] else s.history)
    case AbsReturn(t) =>
      if t !in s.calls || !s.calls[t].Done? then s
      else s.(calls := s.calls - {t},
              returned := s.returned + [Event(t, s.calls[t].call, s.calls[t].outcome)])
  }

  function AbsExec(run: seq<AbsAction>): (s: AbsState)
    ensures |s.queue| <= SZ_512
  {
    if run == [] then AbsInit
    else AbsStep(AbsExec(run[..|run| - 1]), run[|run| - 1])
  }

  /** Whether a call faulted can be told from its result. */
  lemma FaultTold(q: seq<Byte>, call: Call, fault: bool)
    requires |q| <= SZ_512
    ensures Apply(q, call, Failed(Apply(q, call, fault).outcome)) == Apply(q, call, fault)
  {
  }

  lemma LegalGrows(h: seq<Event>, t: Tid, call: Call, fault: bool)
    requires Legal(h)
    ensures var e := Apply(Final(h), call, fault);
            var h' := h + [Event(t, call, e.outcome)];
            Legal(h') && Final(h') == e.queue
  {
    var q := Final(h);
    var e := Apply(q, call, fault);
    var h' := h + [Event(t, call, e.outcome)];
    assert h'[..|h'| - 1] == h;
    FaultTold(q, call, fault);
  }

  lemma EmptyCallKeeps(q: seq<Byte>, call: Call, fault: bool)
    requires |q| <= SZ_512 && !Touches(call)
    ensures Apply(q, call, fault).queue == q
  {
  }

  predicate HistoryOk(s: AbsState) {
    Legal(s.history) && Final(s.history) == s.queue
  }

  lemma AbsStepHistory(s: AbsState, a: AbsAction)
    requires |s.queue| <= SZ_512 && HistoryOk(s)
    ensures HistoryOk(AbsStep(s, a))
  {
    if a.AbsAct? && a.t in s.calls && s.calls[a.t].Pending? {
      var call := s.calls[a.t].call;
      if Touches(call) {
        LegalGrows(s.history, a.t, call, a.fault);
      } else {
        EmptyCallKeeps(s.queue, call, a.fault);
      }
    }
  }

  /** In every run of the atomic machine, the effects form a legal history that explains the queue. */
  lemma {:induction false} AbsHistoryLegal(run: seq<AbsAction>)
    ensures HistoryOk(AbsExec(run))
  {
    if run != [] {
      AbsHistoryLegal(run[..|run| - 1]);
      AbsStepHistory(AbsExec(run[..|run| - 1]), run[|run| - 1]);
    }
  }

  predicate Explained(history: seq<Event>, e: Event) {
    if Touches(e.call) then e in history else e.outcome == Outcome(0, [])
  }

  predicate AllExplained(s: AbsState) {
    && (forall e <- s.returned :: Explained(s.history, e))
    && (forall t <- s.calls :: s.calls[t].Done? ==>
          Explained(s.history, Event(t, s.calls[t].call, s.calls[t].outcome)))
  }

  lemma AbsStepExplained(s: AbsState, a: AbsAction)
    requires |s.queue| <= SZ_512 && AllExplained(s)
    ensures AllExplained(AbsStep(s, a))
  {
    var s' := AbsStep(s, a);
    assert forall e <- s.history :: e in s'.history;
    forall e | e in s'.returned
      ensures Explained(s'.history, e)
    {
      if e !in s.returned {
        assert a.AbsReturn? && e == Event(a.t, s.calls[a.t].call, s.calls[a.t].outcome);
      }
    }
  }

  /** Whatever a call of the atomic machine is about to return, or has returned, is its effect in the history. */
  lemma {:induction false} AbsReturnsExplained(run: seq<AbsAction>)
    ensures AllExplained(AbsExec(run))
  {
    if run != [] {
      AbsReturnsExplained(run[..|run| - 1]);
      AbsStepExplained(AbsExec(run[..|run| - 1]), run[|run| - 1]);
    }
  }
}
