/**
 One kbuf device under its lock, as small steps of any number of threads.

 Every statement between lock and unlock is a step of its own, so the states in which the
 bytes have moved but `validlen` has not (the `mdelay` sits there) are ordinary states of the
 machine.  The lock is a mutex or a semaphore that starts at 1; both drivers run the same code.
 */
module LockedKbuf {
  import opened Fifo

  datatype Lock = Mutex(locked: bool) | Semaphore(count: nat)

  /** The thread between lock and unlock.  No step looks at it to decide whether it may proceed. */
  datatype Holder = Nobody | Held(t: Tid)

  /** `log` lists the calls that reached the lock, in the order in which they gave it up. */
  datatype Device = Device(buf: seq<Byte>, validlen: nat, lock: Lock, holder: Holder, log: seq<Event>)

  /** Where a thread is in `kbuf_read` or `kbuf_write`, with its live local variables. */
  datatype Pc =
    | Entry(call: Call)
    | Acquire(call: Call)
    | Test(call: Call)
    | Clamp(call: Call)
    | Copy(call: Call, n: nat)
    | Move(call: Call, n: nat, data: seq<Byte>)
    | Update(call: Call, n: nat, data: seq<Byte>)
    | Unlock(call: Call, outcome: Outcome)
    | Ret(call: Call, outcome: Outcome)

  datatype Next = At(pc: Pc) | Back(event: Event)

  predicate Available(lock: Lock) {
    match lock
    case Mutex(locked) => !locked
    case Semaphore(count) => count > 0
  }

  function Down(lock: Lock): Lock
    requires Available(lock)
  {
    match lock
    case Mutex(_) => Mutex(true)
    case Semaphore(count) => Semaphore(count - 1)
  }

  function Up(lock: Lock): Lock {
    match lock
    case Mutex(_) => Mutex(false)
    case Semaphore(count) => Semaphore(count + 1)
  }

  predicate Critical(pc: Pc) {
    !pc.Entry? && !pc.Acquire? && !pc.Ret?
  }

  predicate DevOk(dev: Device) {
    && |dev.buf| == SZ_512
    && dev.validlen <= SZ_512
    && (Available(dev.lock) <==> dev.holder.Nobody?)
    && (dev.lock.Semaphore? ==> dev.lock.count <= 1)
  }

  /** What a thread at `pc` knows about the device and its own locals. */
  predicate PcOk(dev: Device, pc: Pc)
    requires DevOk(dev)
  {
    && (!pc.Entry? && !pc.Ret? ==> Touches(pc.call))
    && (pc.Clamp? || pc.Copy? || pc.Move? || pc.Update? ==>
          if pc.call.Read? then dev.validlen != 0 else dev.validlen != SZ_512)
    && (pc.Copy? || pc.Move? || pc.Update? ==> pc.n == Amount(pc.call, dev.validlen))
    && (pc.Move? ==> pc.call.Read? && pc.data == dev.buf[..pc.n])
    && (pc.Update? ==>
          if pc.call.Read? then |pc.data| == pc.n
          else pc.data == [] && dev.buf[dev.validlen..dev.validlen + pc.n] == pc.call.payload[..pc.n])
  }

  /** One statement of a call.  `fault` and `scribble` say how the copy to or from user space goes. */
  function PcStep(dev: Device, t: Tid, pc: Pc, fault: bool, scribble: seq<Byte>): (r: (Device, Next))
    requires DevOk(dev) && PcOk(dev, pc)
  {
    match pc
    case Entry(call) =>
      (dev, At(if Touches(call) then Acquire(call) else Ret(call, Outcome(0, []))))
    case Acquire(call) =>
      if Available(dev.lock) then (dev.(lock := Down(dev.lock), holder := Held(t)), At(Test(call)))
      else (dev, At(pc))
    case Test(call) =>
      if call.Read? && dev.validlen == 0 then (dev, At(Unlock(call, Outcome(-EAGAIN, []))))
      else if call.Write? && dev.validlen == SZ_512 then (dev, At(Unlock(call, Outcome(-ENOSPC, []))))
      else (dev, At(Clamp(call)))
    case Clamp(call) =>
      (dev, At(Copy(call, Amount(call, dev.validlen))))
    case Copy(Read(_), n) =>
      if fault then (dev, At(Unlock(pc.call, Outcome(-EIO, []))))
      else (dev, At(Move(pc.call, n, dev.buf[..n])))
    case Copy(Write(payload), n) =>
      if fault then
        (dev.(buf := Stored(dev.buf, dev.validlen, Scribble(scribble, n))), At(Unlock(pc.call, Outcome(-EIO, []))))
      else
        (dev.(buf := Stored(dev.buf, dev.validlen, payload[..n])), At(Update(pc.call, n, [])))
    case Move(call, n, data) =>
      (dev.(buf := MovedDown(dev.buf, n, dev.validlen)), At(Update(call, n, data)))
    case Update(call, n, data) =>
      (dev.(validlen := if call.Read? then dev.validlen - n else dev.validlen + n),
       At(Unlock(call, Outcome(n, data))))
    case Unlock(call, outcome) =>
      (dev.(lock := Up(dev.lock), holder := Nobody, log := dev.log + [Event(t, call, outcome)]),
       At(Ret(call, outcome)))
    case Ret(call, outcome) =>
      (dev, Back(Event(t, call, outcome)))
  }

  // ---------- Any number of threads

  datatype State = State(dev: Device, calls: map<Tid, Pc>, returned: seq<Event>)

  datatype Action =
    | Invoke(t: Tid, call: Call)
    | Go(t: Tid, fault: bool, scribble: seq<Byte>)

  function NewDevice(lock: Lock): Device {
    Device(seq(SZ_512, _ => 0), 0, lock, Nobody, [])
  }

  /** `mutex_init` or `sema_init(…, 1)` */
  predicate Fresh(lock: Lock) {
    lock == Mutex(false) || lock == Semaphore(1)
  }

  function Init(lock: Lock): State {
    State(NewDevice(lock), map[], [])
  }

  ghost predicate Inv(s: State) {
    && DevOk(s.dev)
    && (forall t <- s.calls :: PcOk(s.dev, s.calls[t]))
    && (forall t <- s.calls :: Critical(s.calls[t]) <==> s.dev.holder == Held(t))
    && (s.dev.holder.Held? ==> s.dev.holder.t in s.calls)
  }

  ghost function Step(s: State, a: Action): (r: State)
    requires Inv(s)
  {
    match a
    case Invoke(t, call) =>
      if t in s.calls then s else s.(calls := s.calls[t := Entry(call)])
    case Go(t, fault, scribble) =>
      if t !in s.calls then s
      else
        var (dev, next) := PcStep(s.dev, t, s.calls[t], fault, scribble);
        match next
        case At(pc) => s.(dev := dev, calls := s.calls[t := pc])
        case Back(event) => s.(dev := dev, calls := s.calls - {t}, returned := s.returned + [event])
  }

  /** A step keeps the device in order and leaves the stepping thread with true knowledge. */
  lemma PcStepOk(dev: Device, t: Tid, pc: Pc, fault: bool, scribble: seq<Byte>)
    requires DevOk(dev) && PcOk(dev, pc) && (Critical(pc) <==> dev.holder == Held(t))
    ensures var (dev', next) := PcStep(dev, t, pc, fault, scribble);
            && DevOk(dev')
            && (next.At? ==> PcOk(dev', next.pc) && (Critical(next.pc) <==> dev'.holder == Held(t)))
            && (next.Back? ==> dev' == dev)
  {
    if pc.Copy? && pc.call.Write? {
      var n := pc.n;
      StoredThere(dev.buf, dev.validlen, pc.call.payload[..n]);
      StoredThere(dev.buf, dev.validlen, Scribble(scribble, n));
    }
  }

  lemma StoredThere(buf: seq<Byte>, at: nat, bytes: seq<Byte>)
    requires at + |bytes| <= |buf|
    ensures |Stored(buf, at, bytes)| == |buf|
    ensures Stored(buf, at, bytes)[at..at + |bytes|] == bytes
  {
  }

  /** A step by a thread outside the critical section changes nothing but, perhaps, who holds the lock. */
  lemma OutsideStepHarmless(dev: Device, t: Tid, pc: Pc, fault: bool, scribble: seq<Byte>)
    requires DevOk(dev) && PcOk(dev, pc) && !Critical(pc)
    ensures var (dev', _) := PcStep(dev, t, pc, fault, scribble);
            dev' == dev || (dev.holder.Nobody? && dev' == dev.(lock := dev'.lock, holder := Held(t)))
  {
  }

  lemma StepInv(s: State, a: Action)
    requires Inv(s)
    ensures Inv(Step(s, a))
  {
    if a.Go? && a.t in s.calls {
      var pc := s.calls[a.t];
      PcStepOk(s.dev, a.t, pc, a.fault, a.scribble);
      var s' := Step(s, a);
      forall u | u in s'.calls && u != a.t
        ensures PcOk(s'.dev, s'.calls[u]) && (Critical(s'.calls[u]) <==> s'.dev.holder == Held(u))
      {
        assert u in s.calls && s'.calls[u] == s.calls[u];
        if !Critical(pc) {
          OutsideStepHarmless(s.dev, a.t, pc, a.fault, a.scribble);
        }
      }
    }
  }

  /** The state after a run: every interleaving of every set of calls is the run of some action list. */
  ghost function Exec(lock: Lock, run: seq<Action>): (s: State)
    requires Fresh(lock)
    ensures Inv(s)
  {
    if run == [] then Init(lock)
    else
      var s := Exec(lock, run[..|run| - 1]);
      StepInv(s, run[|run| - 1]);
      Step(s, run[|run| - 1])
  }

  // ---------- Refinement to the atomic queue

  /**
   The queue the device stands for when the thread in the critical section is at `pc`.
   Between `memmove` and `validlen -= cnt` the last `n` bytes below `validlen` are leftovers.
   */
  function QueueAt(dev: Device, pc: Pc): (q: seq<Byte>)
    requires DevOk(dev) && PcOk(dev, pc)
    ensures |q| <= SZ_512
  {
    if pc.Update? && pc.call.Read? then dev.buf[..dev.validlen - pc.n] else dev.buf[..dev.validlen]
  }

  /** The call that has taken effect but still holds the lock. */
  function InFlightAt(t: Tid, pc: Pc): seq<Event> {
    match pc
    case Update(Read(cnt), n, data) => [Event(t, Read(cnt), Outcome(n, data))]
    case Unlock(call, outcome) => [Event(t, call, outcome)]
    case _ => []
  }

  ghost function Queue(s: State): (q: seq<Byte>)
    requires Inv(s)
    ensures |q| <= SZ_512
  {
    if s.dev.holder.Held? then QueueAt(s.dev, s.calls[s.dev.holder.t]) else s.dev.buf[..s.dev.validlen]
  }

  ghost function History(s: State): seq<Event>
    requires Inv(s)
  {
    s.dev.log + if s.dev.holder.Held? then InFlightAt(s.dev.holder.t, s.calls[s.dev.holder.t]) else []
  }

  function AbsPcOf(pc: Pc): AbsPc {
    match pc
    case Update(Read(cnt), n, data) => Done(Read(cnt), Outcome(n, data))
    case Unlock(call, outcome) => Done(call, outcome)
    case Ret(call, outcome) => Done(call, outcome)
    case _ => Pending(pc.call)
  }

  ghost function AbsCalls(calls: map<Tid, Pc>): map<Tid, AbsPc> {
    map t <- calls :: AbsPcOf(calls[t])
  }

  ghost function Abstract(s: State): (abs: AbsState)
    requires Inv(s)
    ensures |abs.queue| <= SZ_512
  {
    AbsState(Queue(s), AbsCalls(s.calls), History(s), s.returned)
  }

  /** Whether this statement is the one at which its call takes effect. */
  predicate TakesEffect(dev: Device, pc: Pc, fault: bool) {
    match pc
    case Entry(call) => !Touches(call)
    case Test(call) => dev.validlen == if call.Read? then 0 else SZ_512
    case Copy(_, _) => fault
    case Move(_, _, _) => true
    case Update(call, _, _) => call.Write?
    case _ => false
  }

  /** The atomic action, if any, that a step stands for. */
  ghost function Linearize(s: State, a: Action): (acts: seq<AbsAction>)
    requires Inv(s)
    ensures |acts| <= 1
  {
    match a
    case Invoke(t, call) => [AbsInvoke(t, call)]
    case Go(t, fault, _) =>
      if t !in s.calls then []
      else if s.calls[t].Ret? then [AbsReturn(t)]
      else if TakesEffect(s.dev, s.calls[t], fault) then [AbsAct(t, fault && s.calls[t].Copy?)]
      else []
  }

  /** The statement at which a call takes effect applies the call to the queue. */
  ghost predicate AppliesCall(dev: Device, t: Tid, pc: Pc, fault: bool, dev': Device, pc': Pc)
    requires DevOk(dev) && PcOk(dev, pc) && DevOk(dev') && PcOk(dev', pc')
  {
    var e := Apply(QueueAt(dev, pc), pc.call, fault && pc.Copy?);
    && AbsPcOf(pc) == Pending(pc.call)
    && AbsPcOf(pc') == Done(pc.call, e.outcome)
    && QueueAt(dev', pc') == e.queue
    && dev'.log + InFlightAt(t, pc') == dev.log + InFlightAt(t, pc) + [Event(t, pc.call, e.outcome)]
  }

  /** Every other statement leaves the queue and the history alone. */
  ghost predicate LeavesQueue(dev: Device, t: Tid, pc: Pc, dev': Device, pc': Pc)
    requires DevOk(dev) && PcOk(dev, pc) && DevOk(dev') && PcOk(dev', pc')
  {
    && AbsPcOf(pc') == AbsPcOf(pc)
    && QueueAt(dev', pc') == QueueAt(dev, pc)
    && (if Critical(pc') then dev'.log + InFlightAt(t, pc') else dev'.log) == dev.log + InFlightAt(t, pc)
  }

  lemma StoreBytes(buf: seq<Byte>, at: nat, bytes: seq<Byte>)
    requires at + |bytes| <= |buf|
    ensures Stored(buf, at, bytes)[..at] == buf[..at]
    ensures Stored(buf, at, bytes)[..at + |bytes|] == buf[..at] + bytes
  {
  }

  lemma MoveBytes(buf: seq<Byte>, n: nat, len: nat)
    requires n <= len <= |buf|
    ensures MovedDown(buf, n, len)[..len - n] == buf[..len][n..]
    ensures buf[..len][..n] == buf[..n]
  {
  }

  lemma RefusalStep(dev: Device, t: Tid, pc: Pc, fault: bool, scribble: seq<Byte>)
    requires DevOk(dev) && PcOk(dev, pc) && (pc.Test? || pc.Copy?) && dev.holder == Held(t)
    requires TakesEffect(dev, pc, fault)
    ensures var (dev', next) := PcStep(dev, t, pc, fault, scribble);
            next.At? && DevOk(dev') && PcOk(dev', next.pc) && AppliesCall(dev, t, pc, fault, dev', next.pc)
  {
    PcStepOk(dev, t, pc, fault, scribble);
    if pc.Copy? && pc.call.Write? {
      StoreBytes(dev.buf, dev.validlen, Scribble(scribble, pc.n));
    }
  }

  lemma MoveApplies(dev: Device, t: Tid, pc: Pc, fault: bool, dev': Device, pc': Pc)
    requires DevOk(dev) && PcOk(dev, pc) && pc.Move?
    requires dev' == dev.(buf := MovedDown(dev.buf, pc.n, dev.validlen)) && pc' == Update(pc.call, pc.n, pc.data)
    requires DevOk(dev') && PcOk(dev', pc')
    ensures AppliesCall(dev, t, pc, fault, dev', pc')
  {
    MoveBytes(dev.buf, pc.n, dev.validlen);
  }

  lemma MoveStep(dev: Device, t: Tid, pc: Pc, fault: bool, scribble: seq<Byte>)
    requires DevOk(dev) && PcOk(dev, pc) && pc.Move? && dev.holder == Held(t)
    ensures var (dev', next) := PcStep(dev, t, pc, fault, scribble);
            next.At? && DevOk(dev') && PcOk(dev', next.pc) && AppliesCall(dev, t, pc, fault, dev', next.pc)
  {
    var (dev', next) := PcStep(dev, t, pc, fault, scribble);
    PcStepOk(dev, t, pc, fault, scribble);
    MoveApplies(dev, t, pc, fault, dev', next.pc);
  }

  lemma WriteUpdateStep(dev: Device, t: Tid, pc: Pc, fault: bool, scribble: seq<Byte>)
    requires DevOk(dev) && PcOk(dev, pc) && pc.Update? && pc.call.Write? && dev.holder == Held(t)
    ensures var (dev', next) := PcStep(dev, t, pc, fault, scribble);
            next.At? && DevOk(dev') && PcOk(dev', next.pc) && AppliesCall(dev, t, pc, fault, dev', next.pc)
  {
    PcStepOk(dev, t, pc, fault, scribble);
    assert dev.buf[..dev.validlen + pc.n] == dev.buf[..dev.validlen] + dev.buf[dev.validlen..dev.validlen + pc.n];
  }

  lemma QuietStep(dev: Device, t: Tid, pc: Pc, fault: bool, scribble: seq<Byte>)
    requires DevOk(dev) && PcOk(dev, pc) && Critical(pc) && dev.holder == Held(t)
    requires !TakesEffect(dev, pc, fault)
    ensures var (dev', next) := PcStep(dev, t, pc, fault, scribble);
            next.At? && DevOk(dev') && PcOk(dev', next.pc) && LeavesQueue(dev, t, pc, dev', next.pc)
  {
    PcStepOk(dev, t, pc, fault, scribble);
    match pc {
      case Test(_) =>
      case Clamp(_) =>
      case Copy(Read(_), _) =>
      case Copy(Write(payload), n) =>
        StoreBytes(dev.buf, dev.validlen, payload[..n]);
      case Update(_, _, _) =>
      case Unlock(_, _) =>
    }
  }

  /** Inside the critical section, a statement applies the call to the queue or leaves the queue alone. */
  lemma CriticalStep(dev: Device, t: Tid, pc: Pc, fault: bool, scribble: seq<Byte>)
    requires DevOk(dev) && PcOk(dev, pc) && Critical(pc) && dev.holder == Held(t)
    ensures var (dev', next) := PcStep(dev, t, pc, fault, scribble);
            && next.At? && DevOk(dev') && PcOk(dev', next.pc)
            && if TakesEffect(dev, pc, fault) then AppliesCall(dev, t, pc, fault, dev', next.pc)
               else LeavesQueue(dev, t, pc, dev', next.pc)
  {
    if TakesEffect(dev, pc, fault) {
      match pc {
        case Test(_) => RefusalStep(dev, t, pc, fault, scribble);
        case Copy(_, _) => RefusalStep(dev, t, pc, fault, scribble);
        case Move(_, _, _) => MoveStep(dev, t, pc, fault, scribble);
        case Update(_, _, _) => WriteUpdateStep(dev, t, pc, fault, scribble);
      }
    } else {
      QuietStep(dev, t, pc, fault, scribble);
    }
  }

  ghost function AbsSteps(s: AbsState, acts: seq<AbsAction>): AbsState
    requires |s.queue| <= SZ_512
    requires |acts| <= 1
  {
    if acts == [] then s else AbsStep(s, acts[0])
  }

  lemma AbsCallsAfter(calls: map<Tid, Pc>, t: Tid, pc: Pc)
    ensures AbsCalls(calls[t := pc]) == AbsCalls(calls)[t := AbsPcOf(pc)]
    ensures AbsCalls(calls - {t}) == AbsCalls(calls) - {t}
    ensures t in calls ==> AbsCalls(calls)[t := AbsPcOf(calls[t])] == AbsCalls(calls)
  {
  }

  /** What the atomic queue sees when thread `t`, inside the lock, goes from its statement to `pc'`. */
  lemma InsideAbstract(s: State, s': State, t: Tid, pc': Pc, fault: bool)
    requires Inv(s) && Inv(s') && t in s.calls && Critical(s.calls[t])
    requires s' == s.(dev := s'.dev, calls := s.calls[t := pc'])
    ensures AppliesCall(s.dev, t, s.calls[t], fault, s'.dev, pc') ==>
              Abstract(s') == AbsStep(Abstract(s), AbsAct(t, fault && s.calls[t].Copy?))
    ensures LeavesQueue(s.dev, t, s.calls[t], s'.dev, pc') ==> Abstract(s') == Abstract(s)
  {
    AbsCallsAfter(s.calls, t, pc');
    assert s.dev.holder == Held(t);
    assert s'.calls[t] == pc';
    assert s'.dev.holder == if Critical(pc') then Held(t) else Nobody;
  }

  lemma CriticalRefines(s: State, a: Action)
    requires Inv(s) && Inv(Step(s, a))
    requires a.Go? && a.t in s.calls && Critical(s.calls[a.t])
    ensures Abstract(Step(s, a)) == AbsSteps(Abstract(s), Linearize(s, a))
  {
    var pc := s.calls[a.t];
    assert s.dev.holder == Held(a.t);
    var (dev', next) := PcStep(s.dev, a.t, pc, a.fault, a.scribble);
    CriticalStep(s.dev, a.t, pc, a.fault, a.scribble);
    InsideAbstract(s, Step(s, a), a.t, next.pc, a.fault);
  }

  lemma ReturnRefines(s: State, a: Action)
    requires Inv(s) && Inv(Step(s, a))
    requires a.Go? && a.t in s.calls && s.calls[a.t].Ret?
    ensures Abstract(Step(s, a)) == AbsSteps(Abstract(s), Linearize(s, a))
  {
    AbsCallsAfter(s.calls, a.t, s.calls[a.t]);
  }

  lemma OutsideRefines(s: State, a: Action)
    requires Inv(s) && Inv(Step(s, a))
    requires a.Go? && a.t in s.calls && (s.calls[a.t].Entry? || s.calls[a.t].Acquire?)
    ensures Abstract(Step(s, a)) == AbsSteps(Abstract(s), Linearize(s, a))
  {
    var pc := s.calls[a.t];
    var (_, next) := PcStep(s.dev, a.t, pc, a.fault, a.scribble);
    OutsideStepHarmless(s.dev, a.t, pc, a.fault, a.scribble);
    AbsCallsAfter(s.calls, a.t, next.pc);
  }

  /** Every step of the driver is one atomic action or none at all. */
  lemma StepRefines(s: State, a: Action)
    requires Inv(s)
    ensures Inv(Step(s, a))
    ensures Abstract(Step(s, a)) == AbsSteps(Abstract(s), Linearize(s, a))
  {
    StepInv(s, a);
    if a.Go? && a.t in s.calls {
      if Critical(s.calls[a.t]) {
        CriticalRefines(s, a);
      } else if s.calls[a.t].Ret? {
        ReturnRefines(s, a);
      } else {
        OutsideRefines(s, a);
      }
    } else if a.Invoke? {
      AbsCallsAfter(s.calls, a.t, Entry(a.call));
    }
  }

  /** The atomic run that a run of the driver stands for. */
  ghost function LinearRun(lock: Lock, run: seq<Action>): seq<AbsAction>
    requires Fresh(lock)
  {
    if run == [] then []
    else LinearRun(lock, run[..|run| - 1]) + Linearize(Exec(lock, run[..|run| - 1]), run[|run| - 1])
  }

  lemma AbsExecExtend(run: seq<AbsAction>, acts: seq<AbsAction>)
    requires |acts| <= 1
    ensures AbsExec(run + acts) == AbsSteps(AbsExec(run), acts)
  {
    if acts == [] {
      assert run + acts == run;
    } else {
      assert (run + acts)[..|run + acts| - 1] == run;
    }
  }

  /**
   The driver refines the atomic queue: after any run of any number of threads it stands for
   the state that the atomic machine reaches by the corresponding run, with the same calls
   returned, in the same order, with the same results.
   */
  lemma {:induction false} RefinesAtomicQueue(lock: Lock, run: seq<Action>)
    requires Fresh(lock)
    ensures Abstract(Exec(lock, run)) == AbsExec(LinearRun(lock, run))
    ensures Exec(lock, run).returned == AbsExec(LinearRun(lock, run)).returned
  {
    if run == [] {
      assert Init(lock).dev.buf[..0] == [];
    } else {
      var p, a := run[..|run| - 1], run[|run| - 1];
      RefinesAtomicQueue(lock, p);
      StepRefines(Exec(lock, p), a);
      AbsExecExtend(LinearRun(lock, p), Linearize(Exec(lock, p), a));
    }
  }

  /**
   In every reachable state, also between the data move and the `validlen` update, the calls
   that took effect form a legal history in lock order, and the bytes handed to readers
   followed by the queue are exactly the bytes taken from writers.
   */
  lemma BytesConserved(lock: Lock, run: seq<Action>)
    requires Fresh(lock)
    ensures var s := Exec(lock, run);
            && Legal(History(s))
            && Final(History(s)) == Queue(s)
            && Accepted(History(s)) == Delivered(History(s)) + Queue(s)
            && (s.dev.holder.Nobody? ==> Accepted(s.dev.log) == Delivered(s.dev.log) + s.dev.buf[..s.dev.validlen])
  {
    var s := Exec(lock, run);
    RefinesAtomicQueue(lock, run);
    AbsHistoryLegal(LinearRun(lock, run));
    LegalConserves(History(s));
    assert s.dev.log + [] == s.dev.log;
  }

  /**
   In every reachable state, each call that took effect moved all the bytes it was asked to or
   all that there were, or room for, or has the error that fits the queue it found.
   */
  lemma EachCallMeans(lock: Lock, run: seq<Action>)
    requires Fresh(lock)
    ensures EachMeans(History(Exec(lock, run))) && Stock(History(Exec(lock, run))) == Queue(Exec(lock, run))
  {
    BytesConserved(lock, run);
    LegalMeans(History(Exec(lock, run)));
  }

  /** A call that came back either was empty and returned 0, or is a call of the legal history with its result. */
  lemma ReturnsAreAtomic(lock: Lock, run: seq<Action>)
    requires Fresh(lock)
    ensures var s := Exec(lock, run);
            forall e <- s.returned ::
              if Touches(e.call) then e in History(s) else e.outcome == Outcome(0, [])
  {
    RefinesAtomicQueue(lock, run);
    AbsReturnsExplained(LinearRun(lock, run));
  }

  ghost function Inside(s: State): set<Tid> {
    set t | t in s.calls && Critical(s.calls[t])
  }

  /** At most one thread is between lock and unlock, and a semaphore's count makes up the rest to 1. */
  lemma MutualExclusion(lock: Lock, run: seq<Action>)
    requires Fresh(lock)
    ensures var s := Exec(lock, run);
            && |Inside(s)| <= 1
            && (s.dev.lock.Semaphore? ==> s.dev.lock.count + |Inside(s)| == 1)
            && (s.dev.lock.Mutex? ==> (s.dev.lock.locked <==> |Inside(s)| == 1))
            && (s.dev.lock.Semaphore? <==> lock.Semaphore?)
  {
    var s := Exec(lock, run);
    LockKindKept(lock, run);
    if s.dev.holder.Held? {
      assert Inside(s) == {s.dev.holder.t};
    } else {
      assert Inside(s) == {};
    }
  }

  lemma StepKeepsLockKind(s: State, a: Action)
    requires Inv(s)
    ensures Step(s, a).dev.lock.Semaphore? <==> s.dev.lock.Semaphore?
  {
  }

  lemma {:induction false} LockKindKept(lock: Lock, run: seq<Action>)
    requires Fresh(lock)
    ensures Exec(lock, run).dev.lock.Semaphore? <==> lock.Semaphore?
  {
    if run != [] {
      LockKindKept(lock, run[..|run| - 1]);
      StepKeepsLockKind(Exec(lock, run[..|run| - 1]), run[|run| - 1]);
    }
  }

  // ---------- No deadlock

  /** How far a call is from its return. */
  function Rank(pc: Pc): nat {
    match pc
    case Entry(_) => 8
    case Acquire(_) => 7
    case Test(_) => 6
    case Clamp(_) => 5
    case Copy(_, _) => 4
    case Move(_, _, _) => 3
    case Update(_, _, _) => 2
    case Unlock(_, _) => 1
    case Ret(_, _) => 0
  }

  /** A thread that holds the lock, or for which it is free, gets one statement further. */
  lemma StatementsProgress(dev: Device, t: Tid, pc: Pc)
    requires DevOk(dev) && PcOk(dev, pc) && (Critical(pc) <==> dev.holder == Held(t))
    requires dev.holder == Held(t) || dev.holder.Nobody?
    ensures var (dev', next) := PcStep(dev, t, pc, false, []);
            && (dev'.holder == Held(t) || dev'.holder.Nobody?)
            && (pc.Ret? <==> next.Back?)
            && (next.At? ==> Rank(next.pc) < Rank(pc))
            && (next.Back? ==> dev'.holder.Nobody?)
  {
  }

  lemma ExecOne(lock: Lock, run: seq<Action>, a: Action)
    requires Fresh(lock)
    ensures Exec(lock, run + [a]) == Step(Exec(lock, run), a)
  {
    assert (run + [a])[..|run + [a]| - 1] == run;
  }

  lemma OneFurther(lock: Lock, run: seq<Action>, t: Tid)
    requires Fresh(lock)
    requires var s := Exec(lock, run); t in s.calls && (s.dev.holder == Held(t) || s.dev.holder.Nobody?)
    ensures var s, s' := Exec(lock, run), Exec(lock, run + [Go(t, false, [])]);
            && s'.calls - {t} == s.calls - {t}
            && (s'.dev.holder == Held(t) || s'.dev.holder.Nobody?)
            && (t in s'.calls ==> Rank(s'.calls[t]) < Rank(s.calls[t]))
            && (t !in s'.calls ==> s'.dev.holder.Nobody?)
  {
    var s := Exec(lock, run);
    StatementsProgress(s.dev, t, s.calls[t]);
    ExecOne(lock, run, Go(t, false, []));
  }

  /** A thread that need not wait for the lock can finish its call on its own. */
  lemma {:induction false} FinishOne(lock: Lock, run: seq<Action>, t: Tid) returns (run': seq<Action>)
    requires Fresh(lock)
    requires var s := Exec(lock, run); t in s.calls && (s.dev.holder == Held(t) || s.dev.holder.Nobody?)
    ensures run <= run'
    ensures Exec(lock, run').calls == Exec(lock, run).calls - {t}
    ensures Exec(lock, run').dev.holder.Nobody?
    decreases Rank(Exec(lock, run).calls[t])
  {
    OneFurther(lock, run, t);
    run' := run + [Go(t, false, [])];
    if t in Exec(lock, run').calls {
      run' := FinishOne(lock, run', t);
    }
  }

  lemma Fewer(calls: map<Tid, Pc>, t: Tid)
    requires t in calls
    ensures |calls - {t}| < |calls|
  {
    assert calls == (calls - {t})[t := calls[t]];
  }

  /** The thread that can move: the holder, or anyone if the lock is free. */
  ghost function SomeCaller(s: State): (t: Tid)
    requires Inv(s) && s.calls != map[]
    ensures t in s.calls && (s.dev.holder == Held(t) || s.dev.holder.Nobody?)
  {
    if s.dev.holder.Held? then s.dev.holder.t else var u :| u in s.calls; u
  }

  /**
   Deadlock freedom: from every reachable state, whoever holds the lock and whoever waits for
   it, the run can be continued to one in which every call has returned and the lock is free.
   */
  lemma {:induction false} EveryCallCanReturn(lock: Lock, run: seq<Action>) returns (run': seq<Action>)
    requires Fresh(lock)
    ensures run <= run'
    ensures Exec(lock, run').calls == map[] && Exec(lock, run').dev.holder.Nobody?
    decreases |Exec(lock, run).calls|
  {
    var s := Exec(lock, run);
    if s.calls == map[] {
      run' := run;
    } else {
      var t := SomeCaller(s);
      run' := FinishOne(lock, run, t);
      Fewer(s.calls, t);
      run' := EveryCallCanReturn(lock, run');
    }
  }
}
