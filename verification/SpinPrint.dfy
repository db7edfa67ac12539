/**
 `print_string` under a spinlock, on any number of processors whose processes, soft interrupts
 and hard interrupts interrupt one another.

 The drivers differ in how they take the lock (plain, with bottom halves off, with interrupts
 off and their state saved) and in which interrupt contexts print; both are parameters here.
 A process between the two ends of `print_string` is not preempted, so a processor is one
 process slot with at most one soft and one hard interrupt stacked on it.
 */
module SpinPrint {

  const OUT_STRING_CNT: nat := 3

  datatype Discipline = Plain | Bh | IrqSave

  /** How the lock is taken, and whether tasklets and interrupt handlers print too. */
  datatype Setup = Setup(how: Discipline, soft: bool, hard: bool)

  datatype Level = Proc | Soft | Hard

  datatype At = Mask | Spin | Print(i: nat) | Inc(i: nat) | Unlock | Unmask

  /** `entry` records whether interrupts were on when the call began; only `flags` is the program's own. */
  datatype Pc = Out | In(call: nat, entry: bool, flags: bool, at: At)

  datatype Slot = Absent | Present(pc: Pc, called: bool)

  /** `bh` is the depth of bottom-half disabling; a running soft interrupt counts as one. */
  datatype Cpu = Cpu(irqOn: bool, bh: nat, pending: bool, proc: Pc, soft: Slot, hard: Slot)

  datatype Owner = Free | Own(c: nat, level: Level)

  datatype Line = Line(count: nat, call: nat)

  datatype State = State(cpus: seq<Cpu>, lock: Owner, gCount: nat, log: seq<Line>, calls: nat)

  datatype Action = Go(c: nat) | Hardirq(c: nat) | Softirq(c: nat) | Toggle(c: nat)

  /** The context that runs: the topmost one. */
  function Top(cpu: Cpu): Level {
    if cpu.hard.Present? then Hard else if cpu.soft.Present? then Soft else Proc
  }

  function PcAt(cpu: Cpu, l: Level): Pc {
    match l
    case Proc => cpu.proc
    case Soft => if cpu.soft.Present? then cpu.soft.pc else Out
    case Hard => if cpu.hard.Present? then cpu.hard.pc else Out
  }

  function WithPc(cpu: Cpu, l: Level, pc: Pc): Cpu {
    match l
    case Proc => cpu.(proc := pc)
    case Soft => if cpu.soft.Present? then cpu.(soft := cpu.soft.(pc := pc)) else cpu
    case Hard => if cpu.hard.Present? then cpu.(hard := cpu.hard.(pc := pc)) else cpu
  }

  predicate Prints(su: Setup, l: Level) {
    match l
    case Proc => true
    case Soft => su.soft
    case Hard => su.hard
  }

  function Init(n: nat): State {
    State(seq(n, _ => Cpu(true, 0, false, Out, Absent, Absent)), Free, 0, [], 0)
  }

  /** Outside `print_string`, a process calls it, an interrupt calls it once if it prints and then ends. */
  function GoOut(su: Setup, s: State, c: nat): State
    requires c < |s.cpus|
  {
    var cpu := s.cpus[c];
    var l := Top(cpu);
    var start := In(s.calls, cpu.irqOn, false, Mask);
    match l
    case Proc =>
      s.(cpus := s.cpus[c := cpu.(proc := start)], calls := s.calls + 1)
    case Soft =>
      if su.soft && !cpu.soft.called then
        s.(cpus := s.cpus[c := cpu.(soft := Present(start, true))], calls := s.calls + 1)
      else
        s.(cpus := s.cpus[c := cpu.(soft := Absent, bh := if cpu.bh > 0 then cpu.bh - 1 else 0)])
    case Hard =>
      if su.hard && !cpu.hard.called then
        s.(cpus := s.cpus[c := cpu.(hard := Present(start, true))], calls := s.calls + 1)
      else
        s.(cpus := s.cpus[c := cpu.(hard := Absent, irqOn := true)])
  }

  /** The statement of `print_string` after this one. */
  function NextAt(at: At, free: bool): At {
    match at
    case Mask => Spin
    case Spin => if free then Print(0) else Spin
    case Print(i) => Inc(i)
    case Inc(i) => if i + 1 < OUT_STRING_CNT then Print(i + 1) else Unlock
    case Unlock => Unmask
    case Unmask => Unmask
  }

  /** What one statement does to the processor it runs on; `free` says whether the lock is. */
  function Advance(su: Setup, cpu: Cpu, l: Level, pc: Pc, free: bool): Cpu
    requires pc.In?
  {
    var pc' := pc.(at := NextAt(pc.at, free));
    match (su.how, pc.at)
    case (Bh, Mask) => WithPc(cpu.(bh := cpu.bh + 1), l, pc')
    case (IrqSave, Mask) => WithPc(cpu.(irqOn := false), l, pc'.(flags := cpu.irqOn))
    case (Plain, Unmask) => WithPc(cpu, l, Out)
    case (Bh, Unmask) => WithPc(cpu.(bh := if cpu.bh > 0 then cpu.bh - 1 else 0), l, Out)
    case (IrqSave, Unmask) => WithPc(cpu.(irqOn := pc.flags), l, Out)
    case _ => WithPc(cpu, l, pc')
  }

  /** One statement of `print_string` in the context `l`. */
  function GoIn(su: Setup, s: State, c: nat, l: Level, pc: Pc): State
    requires c < |s.cpus| && pc.In?
  {
    var s' := s.(cpus := s.cpus[c := Advance(su, s.cpus[c], l, pc, s.lock.Free?)]);
    match pc.at
    case Spin => if s.lock.Free? then s'.(lock := Own(c, l)) else s'
    case Print(_) => s'.(log := s.log + [Line(s.gCount, pc.call)])
    case Inc(_) => s'.(gCount := s.gCount + 1)
    case Unlock => s'.(lock := Free)
    case _ => s'
  }

  function Step(su: Setup, s: State, a: Action): State {
    if a.c >= |s.cpus| then s
    else
      var cpu := s.cpus[a.c];
      match a
      case Go(c) =>
        var pc := PcAt(cpu, Top(cpu));
        if pc.Out? then GoOut(su, s, c) else GoIn(su, s, c, Top(cpu), pc)
      case Hardirq(c) =>
        // taken between any two statements while interrupts are on; its handler may schedule the tasklet
        if cpu.irqOn && cpu.hard.Absent? then
          s.(cpus := s.cpus[c := cpu.(hard := Present(Out, false), irqOn := false, pending := true)])
        else s
      case Softirq(c) =>
        // the tasklet runs on top of the process only, and only while bottom halves are on
        if cpu.pending && cpu.irqOn && cpu.bh == 0 && Top(cpu).Proc? then
          s.(cpus := s.cpus[c := cpu.(soft := Present(Out, false), bh := 1, pending := false)])
        else s
      case Toggle(c) =>
        // other code of the process turns interrupts on or off
        if Top(cpu).Proc? && cpu.proc.Out? then s.(cpus := s.cpus[c := cpu.(irqOn := !cpu.irqOn)]) else s
  }

  function Exec(su: Setup, n: nat, run: seq<Action>): State {
    if run == [] then Init(n) else Step(su, Exec(su, n, run[..|run| - 1]), run[|run| - 1])
  }

  // ---------- What holds on each processor

  predicate Holds(pc: Pc) {
    pc.In? && (pc.at.Print? || pc.at.Inc? || pc.at.Unlock?)
  }

  /** Between masking and unmasking. */
  predicate Masked(pc: Pc) {
    pc.In? && !pc.at.Mask?
  }

  /** The interrupt state as context `l` sees it: whatever came on top found interrupts on and restores that. */
  function Seen(cpu: Cpu, l: Level): bool {
    match l
    case Proc => cpu.soft.Present? || cpu.hard.Present? || cpu.irqOn
    case Soft => cpu.hard.Present? || cpu.irqOn
    case Hard => cpu.irqOn
  }

  function BhOf(su: Setup, pc: Pc): nat {
    if su.how.Bh? && Masked(pc) then 1 else 0
  }

  predicate PcOk(su: Setup, cpu: Cpu, l: Level) {
    var pc := PcAt(cpu, l);
    && (pc.In? ==>
          && Prints(su, l)
          && ((pc.at.Print? || pc.at.Inc?) ==> pc.at.i < OUT_STRING_CNT)
          && (if su.how.IrqSave? && Masked(pc) then pc.flags == pc.entry && !Seen(cpu, l)
              else pc.entry == Seen(cpu, l)))
  }

  predicate CpuOk(su: Setup, cpu: Cpu) {
    && PcOk(su, cpu, Proc) && PcOk(su, cpu, Soft) && PcOk(su, cpu, Hard)
    && (cpu.hard.Present? ==> !cpu.irqOn)
    && (PcAt(cpu, Hard).In? ==> !PcAt(cpu, Hard).entry)
    && (PcAt(cpu, Soft).In? ==> PcAt(cpu, Soft).entry)
    && (cpu.soft.Present? && !(su.how.IrqSave? && Masked(cpu.soft.pc)) ==> Seen(cpu, Soft))
    && cpu.bh == BhOf(su, cpu.proc) + BhOf(su, PcAt(cpu, Soft)) + BhOf(su, PcAt(cpu, Hard)) +
                 (if cpu.soft.Present? then 1 else 0)
    && (su.how.Bh? && cpu.soft.Present? ==> !Masked(cpu.proc))
  }

  lemma AdvanceOk(su: Setup, cpu: Cpu, l: Level, free: bool)
    requires CpuOk(su, cpu) && Top(cpu) == l && PcAt(cpu, l).In?
    ensures var cpu' := Advance(su, cpu, l, PcAt(cpu, l), free);
            CpuOk(su, cpu') && Top(cpu') == l
  {
    if PcAt(cpu, l).at.Mask? {
      MaskOk(su, cpu, l, free);
    } else if PcAt(cpu, l).at.Unmask? {
      UnmaskOk(su, cpu, l, free);
    } else {
      BetweenOk(su, cpu, l, free);
    }
  }

  lemma MaskOk(su: Setup, cpu: Cpu, l: Level, free: bool)
    requires CpuOk(su, cpu) && Top(cpu) == l && PcAt(cpu, l).In? && PcAt(cpu, l).at.Mask?
    ensures var cpu' := Advance(su, cpu, l, PcAt(cpu, l), free);
            CpuOk(su, cpu') && Top(cpu') == l
  {
    match l {
      case Proc =>
      case Soft =>
      case Hard =>
    }
  }

  lemma UnmaskOk(su: Setup, cpu: Cpu, l: Level, free: bool)
    requires CpuOk(su, cpu) && Top(cpu) == l && PcAt(cpu, l).In? && PcAt(cpu, l).at.Unmask?
    ensures var cpu' := Advance(su, cpu, l, PcAt(cpu, l), free);
            CpuOk(su, cpu') && Top(cpu') == l
  {
    match l {
      case Proc =>
      case Soft =>
      case Hard =>
    }
  }

  lemma WithPcAt(cpu: Cpu, l: Level, pc: Pc, m: Level)
    requires Top(cpu) == l
    ensures PcAt(WithPc(cpu, l, pc), m) == if m == l then pc else PcAt(cpu, m)
    ensures Top(WithPc(cpu, l, pc)) == l
  {
  }

  lemma BetweenOk(su: Setup, cpu: Cpu, l: Level, free: bool)
    requires CpuOk(su, cpu) && Top(cpu) == l && PcAt(cpu, l).In?
    requires !PcAt(cpu, l).at.Mask? && !PcAt(cpu, l).at.Unmask?
    ensures var cpu' := Advance(su, cpu, l, PcAt(cpu, l), free);
            CpuOk(su, cpu') && Top(cpu') == l
  {
    var pc := PcAt(cpu, l);
    var pc' := pc.(at := NextAt(pc.at, free));
    var cpu' := WithPc(cpu, l, pc');
    assert cpu' == Advance(su, cpu, l, pc, free);
    forall m
      ensures PcOk(su, cpu', m) && BhOf(su, PcAt(cpu', m)) == BhOf(su, PcAt(cpu, m))
    {
      WithPcAt(cpu, l, pc', m);
      assert PcOk(su, cpu, m) && Seen(cpu', m) == Seen(cpu, m);
    }
  }

  /** A statement moves its own context on and no other. */
  lemma AdvanceMoves(su: Setup, cpu: Cpu, l: Level, free: bool, m: Level)
    requires Top(cpu) == l && PcAt(cpu, l).In?
    ensures var pc := PcAt(cpu, l);
            var pc' := PcAt(Advance(su, cpu, l, pc, free), m);
            if m != l then pc' == PcAt(cpu, m)
            else if pc.at.Unmask? then pc'.Out?
            else pc'.In? && pc'.call == pc.call && pc'.at == NextAt(pc.at, free)
  {
    var pc := PcAt(cpu, l);
    var pc' := pc.(at := NextAt(pc.at, free));
    WithPcAt(cpu, l, pc', m);
    WithPcAt(cpu, l, Out, m);
    if su.how.Bh? && pc.at.Mask? {
      WithPcAt(cpu.(bh := cpu.bh + 1), l, pc', m);
    } else if su.how.IrqSave? && pc.at.Mask? {
      WithPcAt(cpu.(irqOn := false), l, pc'.(flags := cpu.irqOn), m);
    }
  }

  lemma GoOutOk(su: Setup, s: State, c: nat)
    requires c < |s.cpus| && CpuOk(su, s.cpus[c])
    requires PcAt(s.cpus[c], Top(s.cpus[c])).Out?
    ensures var s' := GoOut(su, s, c);
            && CpuOk(su, s'.cpus[c])
            && !Holds(PcAt(s'.cpus[c], Top(s.cpus[c])))
            && (forall m | m != Top(s.cpus[c]) :: PcAt(s'.cpus[c], m) == PcAt(s.cpus[c], m))
  {
  }

  /**
   A process begins a call whenever it runs; an interrupt that prints begins one unless it has
   had it, and then, like one that does not print, ends.
   */
  lemma EveryPrinterPrints(su: Setup, s: State, c: nat)
    requires c < |s.cpus| && PcAt(s.cpus[c], Top(s.cpus[c])).Out?
    ensures var cpu := s.cpus[c];
            var l := Top(cpu);
            var cpu' := Step(su, s, Go(c)).cpus[c];
            var calls := match l
                         case Proc => true
                         case Soft => su.soft && !cpu.soft.called
                         case Hard => su.hard && !cpu.hard.called;
            if calls then
              && Top(cpu') == l && PcAt(cpu', l) == In(s.calls, cpu.irqOn, false, Mask)
              && (l.Soft? ==> cpu'.soft.called) && (l.Hard? ==> cpu'.hard.called)
              && Step(su, s, Go(c)).calls == s.calls + 1
            else
              && (if l.Soft? then cpu'.soft.Absent? else cpu'.hard.Absent? && cpu'.irqOn)
              && Step(su, s, Go(c)).calls == s.calls
  {
  }

  /** Interrupts come while they are on, and the tasklet while it is pending and nothing keeps it off. */
  lemma InterruptsCome(su: Setup, s: State, c: nat)
    requires c < |s.cpus| && s.cpus[c].irqOn
    ensures s.cpus[c].hard.Absent? ==>
              var cpu' := Step(su, s, Hardirq(c)).cpus[c];
              Top(cpu') == Hard && cpu'.hard == Present(Out, false) && cpu'.pending
    ensures s.cpus[c].pending && s.cpus[c].bh == 0 && Top(s.cpus[c]).Proc? ==>
              var cpu' := Step(su, s, Softirq(c)).cpus[c];
              Top(cpu') == Soft && cpu'.soft == Present(Out, false) && !cpu'.pending
    ensures Top(s.cpus[c]).Proc? && s.cpus[c].proc.Out? ==> !Step(su, s, Toggle(c)).cpus[c].irqOn
  {
  }

  lemma InterruptOk(su: Setup, s: State, a: Action)
    requires a.c < |s.cpus| && CpuOk(su, s.cpus[a.c]) && !a.Go?
    ensures var s' := Step(su, s, a);
            && CpuOk(su, s'.cpus[a.c])
            && (forall m :: PcAt(s'.cpus[a.c], m) == PcAt(s.cpus[a.c], m))
            && s' == s.(cpus := s'.cpus)
  {
  }

  // ---------- What holds of the lock and of the log

  ghost predicate LockOk(s: State) {
    && (s.lock.Own? ==> s.lock.c < |s.cpus| && Holds(PcAt(s.cpus[s.lock.c], s.lock.level)))
    && (forall c: nat, l | c < |s.cpus| && Holds(PcAt(s.cpus[c], l)) :: s.lock == Own(c, l))
  }

  /** Line `k` carries count `k`, and lines 3j, 3j + 1 and 3j + 2 come from one call. */
  ghost predicate LogGood(log: seq<Line>) {
    && (forall k :: 0 <= k < |log| ==> log[k].count == k)
    && (forall j, k :: 0 <= j < k < |log| && j / OUT_STRING_CNT == k / OUT_STRING_CNT ==> log[j].call == log[k].call)
  }

  /** The last `done` lines are the beginning of a group of three that `call` is printing. */
  ghost predicate LogUpTo(log: seq<Line>, done: nat, call: nat) {
    && LogGood(log)
    && done <= |log| && (|log| - done) % OUT_STRING_CNT == 0
    && (forall k :: |log| - done <= k < |log| ==> log[k].call == call)
  }

  lemma LogGrows(log: seq<Line>, done: nat, call: nat)
    requires LogUpTo(log, done, call) && done < OUT_STRING_CNT
    ensures LogUpTo(log + [Line(|log|, call)], done + 1, call)
  {
    var log' := log + [Line(|log|, call)];
    forall j, k | 0 <= j < k < |log'| && j / OUT_STRING_CNT == k / OUT_STRING_CNT
      ensures log'[j].call == log'[k].call
    {
      if k == |log| {
        assert j >= |log| - done;
      }
    }
  }

  /** The lines of an unfinished group that the holder of the lock has printed. */
  function PrintedAt(at: At): nat {
    match at
    case Print(i) => i
    case Inc(i) => i + 1
    case _ => 0
  }

  /** `g_count` is the length of the log, but for the holder between its print and its increment. */
  ghost predicate LogOk(s: State)
    requires LockOk(s)
  {
    match s.lock
    case Free => LogUpTo(s.log, 0, 0) && s.gCount == |s.log|
    case Own(c, l) =>
      var pc := PcAt(s.cpus[c], l);
      && pc.In? && LogUpTo(s.log, PrintedAt(pc.at), pc.call)
      && |s.log| == s.gCount + if pc.at.Inc? then 1 else 0
  }

  ghost predicate Inv(su: Setup, s: State) {
    && (forall c: nat | c < |s.cpus| :: CpuOk(su, s.cpus[c]))
    && LockOk(s) && LogOk(s)
  }

  /** A step on processor `c` that is not the holder's leaves lock and log as they were. */
  lemma KeepsLockAndLog(s: State, s': State, c: nat)
    requires LockOk(s) && LogOk(s) && c < |s.cpus|
    requires |s'.cpus| == |s.cpus| && s'.cpus == s.cpus[c := s'.cpus[c]]
    requires s'.lock == s.lock && s'.log == s.log && s'.gCount == s.gCount
    requires forall l :: PcAt(s'.cpus[c], l) == PcAt(s.cpus[c], l)
                      || (!Holds(PcAt(s'.cpus[c], l)) && !Holds(PcAt(s.cpus[c], l)))
    ensures LockOk(s') && LogOk(s')
  {
    forall d: nat, l | d < |s'.cpus|
      ensures Holds(PcAt(s'.cpus[d], l)) ==> s'.lock == Own(d, l)
      ensures Holds(PcAt(s.cpus[d], l)) ==> PcAt(s'.cpus[d], l) == PcAt(s.cpus[d], l)
    {
    }
  }

  lemma GoInKeeps(su: Setup, s: State, c: nat)
    requires Inv(su, s) && c < |s.cpus|
    requires PcAt(s.cpus[c], Top(s.cpus[c])).In?
    ensures var l := Top(s.cpus[c]);
            var s' := GoIn(su, s, c, l, PcAt(s.cpus[c], l));
            LockOk(s') && LogOk(s')
  {
    var cpu := s.cpus[c];
    var l := Top(cpu);
    var pc := PcAt(cpu, l);
    var s' := GoIn(su, s, c, l, pc);
    assert CpuOk(su, cpu) && PcOk(su, cpu, l);
    forall m
      ensures if m != l then PcAt(s'.cpus[c], m) == PcAt(cpu, m)
              else if pc.at.Unmask? then PcAt(s'.cpus[c], m).Out?
              else PcAt(s'.cpus[c], m).In? && PcAt(s'.cpus[c], m).call == pc.call
                   && PcAt(s'.cpus[c], m).at == NextAt(pc.at, s.lock.Free?)
    {
      AdvanceMoves(su, cpu, l, s.lock.Free?, m);
    }
    if Holds(pc) {
      HolderKeepsLog(s, s', c, l);
    } else if pc.at.Spin? && s.lock.Free? {
      TakerKeeps(s, s', c, l);
    } else {
      KeepsLockAndLog(s, s', c);
    }
  }

  /** `s'` is `s` after the holder's own statement. */
  ghost predicate HolderMoved(s: State, s': State, c: nat, l: Level) {
    && c < |s.cpus| && s.lock == Own(c, l)
    && |s'.cpus| == |s.cpus| && s'.cpus == s.cpus[c := s'.cpus[c]]
    && (forall m | m != l :: PcAt(s'.cpus[c], m) == PcAt(s.cpus[c], m))
    && var pc, pc' := PcAt(s.cpus[c], l), PcAt(s'.cpus[c], l);
       && Holds(pc) && (pc.at.Print? || pc.at.Inc? ==> pc.at.i < OUT_STRING_CNT)
       && pc'.In? && pc'.call == pc.call && pc'.at == NextAt(pc.at, false)
       && s'.lock == (if pc.at.Unlock? then Free else s.lock)
       && s'.log == (if pc.at.Print? then s.log + [Line(s.gCount, pc.call)] else s.log)
       && s'.gCount == s.gCount + if pc.at.Inc? then 1 else 0
  }

  lemma HolderKeepsLock(s: State, s': State, c: nat, l: Level)
    requires LockOk(s) && HolderMoved(s, s', c, l)
    ensures LockOk(s')
  {
    forall d: nat, m | d < |s'.cpus| && (d != c || m != l)
      ensures PcAt(s'.cpus[d], m) == PcAt(s.cpus[d], m)
    {
    }
  }

  /** A whole group of three is nobody's beginning. */
  lemma GroupDone(log: seq<Line>, done: nat, call: nat, call': nat)
    requires LogUpTo(log, done, call) && (done == 0 || done == OUT_STRING_CNT)
    ensures LogUpTo(log, 0, call')
  {
  }

  /** What a statement of the holder's call does to the log and to its knowledge of it. */
  lemma StatementKeepsLog(log: seq<Line>, at: At, call: nat)
    requires at.Print? || at.Inc? ==> at.i < OUT_STRING_CNT
    requires LogUpTo(log, PrintedAt(at), call)
    ensures var log' := if at.Print? then log + [Line(|log|, call)] else log;
            LogUpTo(log', PrintedAt(NextAt(at, false)), call)
  {
    if at.Print? {
      LogGrows(log, at.i, call);
    } else if NextAt(at, false).Unlock? {
      GroupDone(log, PrintedAt(at), call, call);
    }
  }

  lemma HolderKeepsLog(s: State, s': State, c: nat, l: Level)
    requires LockOk(s) && LogOk(s) && HolderMoved(s, s', c, l)
    ensures LockOk(s') && LogOk(s')
  {
    HolderKeepsLock(s, s', c, l);
    var pc := PcAt(s.cpus[c], l);
    StatementKeepsLog(s.log, pc.at, pc.call);
    if pc.at.Unlock? {
      GroupDone(s.log, 0, pc.call, 0);
    }
  }

  /** Taking the free lock. */
  lemma TakerKeeps(s: State, s': State, c: nat, l: Level)
    requires LockOk(s) && LogOk(s) && c < |s.cpus| && s.lock.Free?
    requires |s'.cpus| == |s.cpus| && s'.cpus == s.cpus[c := s'.cpus[c]]
    requires forall m | m != l :: PcAt(s'.cpus[c], m) == PcAt(s.cpus[c], m)
    requires PcAt(s'.cpus[c], l).In? && PcAt(s'.cpus[c], l).at == Print(0)
    requires s'.lock == Own(c, l) && s'.log == s.log && s'.gCount == s.gCount
    ensures LockOk(s') && LogOk(s')
  {
    forall d: nat, m | d < |s'.cpus| && Holds(PcAt(s'.cpus[d], m))
      ensures s'.lock == Own(d, m)
    {
      if d != c || m != l {
        assert false;
      }
    }
  }

  lemma StepKeepsLockAndLog(su: Setup, s: State, a: Action)
    requires Inv(su, s) && a.c < |s.cpus|
    ensures LockOk(Step(su, s, a)) && LogOk(Step(su, s, a))
  {
    var cpu := s.cpus[a.c];
    assert CpuOk(su, cpu);
    if !a.Go? {
      InterruptOk(su, s, a);
      KeepsLockAndLog(s, Step(su, s, a), a.c);
    } else if PcAt(cpu, Top(cpu)).Out? {
      GoOutOk(su, s, a.c);
      KeepsLockAndLog(s, GoOut(su, s, a.c), a.c);
    } else {
      GoInKeeps(su, s, a.c);
    }
  }

  lemma StepKeepsCpu(su: Setup, s: State, a: Action)
    requires a.c < |s.cpus| && CpuOk(su, s.cpus[a.c])
    ensures var s' := Step(su, s, a);
            |s'.cpus| == |s.cpus| && s'.cpus == s.cpus[a.c := s'.cpus[a.c]] && CpuOk(su, s'.cpus[a.c])
  {
    var cpu := s.cpus[a.c];
    if !a.Go? {
      InterruptOk(su, s, a);
    } else if PcAt(cpu, Top(cpu)).Out? {
      GoOutOk(su, s, a.c);
    } else {
      AdvanceOk(su, cpu, Top(cpu), s.lock.Free?);
    }
  }

  lemma StepInv(su: Setup, s: State, a: Action)
    requires Inv(su, s)
    ensures Inv(su, Step(su, s, a))
    ensures |Step(su, s, a).cpus| == |s.cpus|
  {
    if a.c < |s.cpus| {
      StepKeepsCpu(su, s, a);
      StepKeepsLockAndLog(su, s, a);
    }
  }

  lemma {:induction false} ExecInv(su: Setup, n: nat, run: seq<Action>)
    ensures Inv(su, Exec(su, n, run))
    ensures |Exec(su, n, run).cpus| == n
  {
    if run != [] {
      ExecInv(su, n, run[..|run| - 1]);
      StepInv(su, Exec(su, n, run[..|run| - 1]), run[|run| - 1]);
    }
  }

  // ---------- Spinning on one's own processor's lock

  function Rank(l: Level): nat {
    match l
    case Proc => 0
    case Soft => 1
    case Hard => 2
  }

  /** The running context of `c` waits for a lock that a context it interrupted holds. */
  predicate SelfDeadlock(s: State, c: nat)
    requires c < |s.cpus|
  {
    var pc := PcAt(s.cpus[c], Top(s.cpus[c]));
    && pc.In? && pc.at.Spin?
    && s.lock.Own? && s.lock.c == c && Rank(s.lock.level) < Rank(Top(s.cpus[c]))
  }

  /** The lock is taken with everything masked that might print on top of its holder. */
  predicate MasksItsUsers(su: Setup) {
    match su.how
    case Plain => !su.soft && !su.hard
    case Bh => !su.hard
    case IrqSave => true
  }

  /** If the masking fits the users of the lock, no run leads into a self-deadlock. */
  lemma NoSelfDeadlock(su: Setup, n: nat, run: seq<Action>, c: nat)
    requires MasksItsUsers(su) && c < n
    ensures |Exec(su, n, run).cpus| == n && !SelfDeadlock(Exec(su, n, run), c)
  {
    ExecInv(su, n, run);
    var s := Exec(su, n, run);
    assert CpuOk(su, s.cpus[c]);
    if s.lock.Own? && s.lock.c == c {
      assert Holds(PcAt(s.cpus[c], s.lock.level));
    }
  }

  const SPINLOCK := Setup(Plain, false, false)
  const SPINLOCK_BH := Setup(Bh, true, false)
  const SPINLOCK_IRQSAVE := Setup(IrqSave, false, true)

  /** None of the three drivers, as they are, ever spins on a lock that its own processor holds. */
  lemma DriversNeverSpinOnThemselves(n: nat, run: seq<Action>, c: nat)
    requires c < n
    ensures forall su <- {SPINLOCK, SPINLOCK_BH, SPINLOCK_IRQSAVE} ::
              |Exec(su, n, run).cpus| == n && !SelfDeadlock(Exec(su, n, run), c)
  {
    NoSelfDeadlock(SPINLOCK, n, run, c);
    NoSelfDeadlock(SPINLOCK_BH, n, run, c);
    NoSelfDeadlock(SPINLOCK_IRQSAVE, n, run, c);
  }

  /**
   `spin_unlock_irqrestore` gives back the interrupt state of the call's entry, in a process as
   in the handler, and outside `print_string` a process has bottom halves on again.
   */
  lemma MaskingUndone(su: Setup, n: nat, run: seq<Action>, c: nat)
    requires c < n
    ensures var s := Exec(su, n, run);
            && |s.cpus| == n
            && var cpu := s.cpus[c];
               var l := Top(cpu);
               && (PcAt(cpu, l).In? && PcAt(cpu, l).at.Unmask? ==>
                     var cpu' := Step(su, s, Go(c)).cpus[c];
                     PcAt(cpu', l).Out? && cpu'.irqOn == PcAt(cpu, l).entry)
               && (l.Proc? && cpu.proc.Out? ==> cpu.bh == 0)
  {
    ExecInv(su, n, run);
    var s := Exec(su, n, run);
    var cpu := s.cpus[c];
    assert CpuOk(su, cpu);
    if PcAt(cpu, Top(cpu)).In? {
      AdvanceMoves(su, cpu, Top(cpu), s.lock.Free?, Top(cpu));
      assert PcOk(su, cpu, Top(cpu));
    }
  }

  lemma ExecOne(su: Setup, n: nat, run: seq<Action>, a: Action)
    ensures Exec(su, n, run + [a]) == Step(su, Exec(su, n, run), a)
  {
    assert (run + [a])[..|run + [a]| - 1] == run;
  }

  /** `n` processors, the first of them as given and the others as they began. */
  function First(n: nat, cpu: Cpu, lock: Owner, calls: nat): State
    requires n > 0
  {
    State(Init(n).cpus[0 := cpu], lock, 0, [], calls)
  }

  lemma AndThen(su: Setup, n: nat, run: seq<Action>, a: Action) returns (run': seq<Action>)
    requires n > 0
    ensures run' == run + [a] && Exec(su, n, run') == Step(su, Exec(su, n, run), a)
  {
    run' := run + [a];
    ExecOne(su, n, run, a);
  }

  /** A processor whose process is in call 0. */
  function Calling(bh: nat, at: At): Cpu {
    Cpu(true, bh, false, In(0, true, false, at), Absent, Absent)
  }

  lemma ProcessTakes(su: Setup, n: nat, bh: nat)
    requires n > 0 && !su.how.IrqSave? && bh == if su.how.Bh? then 1 else 0
    ensures Step(su, First(n, Calling(0, Mask), Free, 1), Go(0)) == First(n, Calling(bh, Spin), Free, 1)
    ensures Step(su, First(n, Calling(bh, Spin), Free, 1), Go(0)) == First(n, Calling(bh, Print(0)), Own(0, Proc), 1)
  {
  }

  /** The process holds the lock, and an interrupt has just arrived on its processor. */
  lemma HolderInterrupted(su: Setup, n: nat) returns (run: seq<Action>, cpu: Cpu)
    requires n > 0 && !su.how.IrqSave?
    ensures Exec(su, n, run) == First(n, cpu, Own(0, Proc), 1)
    ensures cpu.hard == Present(Out, false) && cpu.soft == Absent && !cpu.irqOn && cpu.pending
    ensures cpu.bh == if su.how.Bh? then 1 else 0
    ensures cpu.proc == In(0, true, false, Print(0))
  {
    var bh := if su.how.Bh? then 1 else 0;
    run := AndThen(su, n, [], Go(0));
    assert Exec(su, n, run) == First(n, Calling(0, Mask), Free, 1);
    ProcessTakes(su, n, bh);
    run := AndThen(su, n, run, Go(0));
    run := AndThen(su, n, run, Go(0));
    run := AndThen(su, n, run, Hardirq(0));
    cpu := Calling(bh, Print(0)).(hard := Present(Out, false), irqOn := false, pending := true);
  }

  lemma HandlerSpins(su: Setup, n: nat, run: seq<Action>, cpu: Cpu) returns (run': seq<Action>)
    requires n > 0 && su.hard && !su.how.IrqSave?
    requires Exec(su, n, run) == First(n, cpu, Own(0, Proc), 1)
    requires cpu.hard == Present(Out, false)
    ensures |Exec(su, n, run').cpus| == n && SelfDeadlock(Exec(su, n, run'), 0)
  {
    run' := AndThen(su, n, run, Go(0));
    var cpu1 := cpu.(hard := Present(In(1, cpu.irqOn, false, Mask), true));
    assert Exec(su, n, run') == First(n, cpu1, Own(0, Proc), 2);
    run' := AndThen(su, n, run', Go(0));
  }

  lemma TaskletSpins(su: Setup, n: nat, run: seq<Action>, cpu: Cpu) returns (run': seq<Action>)
    requires n > 0 && su.soft && !su.hard && su.how.Plain?
    requires Exec(su, n, run) == First(n, cpu, Own(0, Proc), 1)
    requires cpu.hard == Present(Out, false) && cpu.soft == Absent && cpu.pending && cpu.bh == 0
    ensures |Exec(su, n, run').cpus| == n && SelfDeadlock(Exec(su, n, run'), 0)
  {
    run' := AndThen(su, n, run, Go(0));
    var cpu1 := cpu.(hard := Absent, irqOn := true);
    assert Exec(su, n, run') == First(n, cpu1, Own(0, Proc), 1);
    run' := AndThen(su, n, run', Softirq(0));
    var cpu2 := cpu1.(soft := Present(Out, false), bh := 1, pending := false);
    assert Exec(su, n, run') == First(n, cpu2, Own(0, Proc), 1);
    run' := AndThen(su, n, run', Go(0));
    var cpu3 := cpu2.(soft := Present(In(1, true, false, Mask), true));
    assert Exec(su, n, run') == First(n, cpu3, Own(0, Proc), 2);
    run' := AndThen(su, n, run', Go(0));
  }

  /** With a setup that does not mask its users, processor 0 can be hung, however many others there are. */
  lemma UnmaskedHangs(su: Setup, n: nat) returns (run: seq<Action>)
    requires n > 0 && !MasksItsUsers(su)
    ensures |Exec(su, n, run).cpus| == n && SelfDeadlock(Exec(su, n, run), 0)
  {
    var cpu;
    run, cpu := HolderInterrupted(su, n);
    if su.hard {
      run := HandlerSpins(su, n, run, cpu);
    } else {
      run := TaskletSpins(su, n, run, cpu);
    }
  }

  ghost predicate CanSelfDeadlock(su: Setup, n: nat) {
    exists run, c: nat :: c < |Exec(su, n, run).cpus| && SelfDeadlock(Exec(su, n, run), c)
  }

  /**
   The masking a driver needs, exactly: plain locking is safe if no interrupt prints, `_bh` if
   only tasklets do, `_irqsave` always; in every other setup some run hangs a processor, on
   machines of any size.
   */
  lemma SelfDeadlockExactly(su: Setup, n: nat)
    requires n > 0
    ensures CanSelfDeadlock(su, n) <==> !MasksItsUsers(su)
  {
    if MasksItsUsers(su) {
      forall run, c: nat | c < |Exec(su, n, run).cpus|
        ensures !SelfDeadlock(Exec(su, n, run), c)
      {
        ExecInv(su, n, run);
        NoSelfDeadlock(su, n, run, c);
      }
    } else {
      var run := UnmaskedHangs(su, n);
      assert SelfDeadlock(Exec(su, n, run), 0);
    }
  }

  /** A context `hi` of processor `c` spins on the lock that `lo` below it holds. */
  ghost predicate Hung(s: State, c: nat, lo: Level, hi: Level) {
    && c < |s.cpus| && s.lock == Own(c, lo) && Rank(lo) < Rank(hi)
    && PcAt(s.cpus[c], hi).In? && PcAt(s.cpus[c], hi).at.Spin?
  }

  lemma GoHangs(su: Setup, s: State, c: nat, lo: Level, hi: Level)
    requires Inv(su, s) && Hung(s, c, lo, hi)
    ensures Hung(Step(su, s, Go(c)), c, lo, hi)
  {
    var cpu := s.cpus[c];
    var l := Top(cpu);
    if PcAt(cpu, l).Out? {
      GoOutOk(su, s, c);
      assert hi != l;
    } else {
      assert Holds(PcAt(cpu, l)) ==> s.lock == Own(c, l);
      AdvanceMoves(su, cpu, l, false, hi);
    }
  }

  lemma StepHangs(su: Setup, s: State, a: Action, c: nat, lo: Level, hi: Level)
    requires Inv(su, s) && Hung(s, c, lo, hi)
    ensures Hung(Step(su, s, a), c, lo, hi)
  {
    if a.c < |s.cpus| {
      var l := Top(s.cpus[a.c]);
      if !a.Go? {
        InterruptOk(su, s, a);
        assert PcAt(Step(su, s, a).cpus[a.c], hi) == PcAt(s.cpus[a.c], hi);
      } else if a.c == c {
        GoHangs(su, s, c, lo, hi);
      } else {
        assert Holds(PcAt(s.cpus[a.c], l)) ==> s.lock == Own(a.c, l);
      }
    }
  }

  /** Nothing that happens later resolves a self-deadlock. */
  lemma {:induction false} HangsForever(su: Setup, n: nat, run: seq<Action>, more: seq<Action>, c: nat)
    requires c < |Exec(su, n, run).cpus| && SelfDeadlock(Exec(su, n, run), c)
    ensures Hung(Exec(su, n, run + more), c,
                 Exec(su, n, run).lock.level, Top(Exec(su, n, run).cpus[c]))
  {
    if more == [] {
      assert run + more == run;
    } else {
      var fewer := more[..|more| - 1];
      HangsForever(su, n, run, fewer, c);
      assert run + more == (run + fewer) + [more[|more| - 1]];
      ExecOne(su, n, run + fewer, more[|more| - 1]);
      ExecInv(su, n, run + fewer);
      StepHangs(su, Exec(su, n, run + fewer), more[|more| - 1], c,
                Exec(su, n, run).lock.level, Top(Exec(su, n, run).cpus[c]));
    }
  }
}
