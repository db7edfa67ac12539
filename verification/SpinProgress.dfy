/**
 Progress under the spinlock: when what prints on top of a holder is masked, whatever calls and
 interrupts are under way can be finished; when it is not, some run can never be.
 */
module SpinProgress {
  import opened SpinPrint

  predicate Idle(cpu: Cpu) {
    cpu.proc.Out? && cpu.soft.Absent? && cpu.hard.Absent?
  }

  /** Nobody is in a call or in an interrupt. */
  predicate AtRest(s: State) {
    s.lock.Free? && forall c: nat :: c < |s.cpus| ==> Idle(s.cpus[c])
  }

  /** How many statements a context has at most before it is out. */
  function Left(pc: Pc): nat {
    match pc
    case Out => 0
    case In(_, _, _, at) =>
      match at
      case Mask => 11
      case Spin => 10
      case Print(i) => if i < OUT_STRING_CNT then 9 - 2 * i else 0
      case Inc(i) => if i < OUT_STRING_CNT then 8 - 2 * i else 0
      case Unlock => 2
      case Unmask => 1
  }

  /** An interrupt ends after its call, which may not have begun. */
  function LeftIn(slot: Slot): nat {
    match slot
    case Absent => 0
    case Present(pc, called) => 1 + Left(pc) + if called then 0 else 12
  }

  function Work(cpu: Cpu): nat {
    Left(cpu.proc) + LeftIn(cpu.soft) + LeftIn(cpu.hard)
  }

  /** The lock is free or held on processor `c`. */
  predicate FreeOrOn(lock: Owner, c: nat) {
    lock.Own? ==> lock.c == c
  }

  /** With the users masked, nothing below a context that waits for the lock holds it. */
  lemma NoHolderBelow(su: Setup, cpu: Cpu, l: Level)
    requires MasksItsUsers(su) && CpuOk(su, cpu)
    requires var pc := PcAt(cpu, Top(cpu)); pc.In? && pc.at.Spin?
    ensures !Holds(PcAt(cpu, l))
  {
  }

  lemma TopGetsLock(su: Setup, s: State, c: nat)
    requires MasksItsUsers(su) && Inv(su, s) && c < |s.cpus| && FreeOrOn(s.lock, c)
    requires var pc := PcAt(s.cpus[c], Top(s.cpus[c])); pc.In? && pc.at.Spin?
    ensures s.lock.Free?
  {
    assert CpuOk(su, s.cpus[c]);
    forall l {
      NoHolderBelow(su, s.cpus[c], l);
    }
  }

  /** Only the contexts count for the work of a processor. */
  lemma WithPcWorks(cpu: Cpu, cpu': Cpu, l: Level, pc: Pc)
    requires Top(cpu) == l && cpu' == cpu.(irqOn := cpu'.irqOn, bh := cpu'.bh)
    ensures Work(WithPc(cpu', l, pc)) == Work(cpu) - Left(PcAt(cpu, l)) + Left(pc)
  {
  }

  /** A statement changes the flags of its processor and its own context. */
  lemma AdvanceShape(su: Setup, cpu: Cpu, l: Level, free: bool) returns (cpu': Cpu, pc': Pc)
    requires Top(cpu) == l && PcAt(cpu, l).In?
    ensures cpu' == cpu.(irqOn := cpu'.irqOn, bh := cpu'.bh)
    ensures Advance(su, cpu, l, PcAt(cpu, l), free) == WithPc(cpu', l, pc')
    ensures if PcAt(cpu, l).at.Unmask? then pc'.Out? else pc'.In? && pc'.at == NextAt(PcAt(cpu, l).at, free)
  {
    var pc := PcAt(cpu, l);
    cpu', pc' := cpu, if pc.at.Unmask? then Out else pc.(at := NextAt(pc.at, free));
    match (su.how, pc.at) {
      case (Bh, Mask) =>
        cpu' := cpu.(bh := cpu.bh + 1);
      case (IrqSave, Mask) =>
        cpu', pc' := cpu.(irqOn := false), pc'.(flags := cpu.irqOn);
      case (Bh, Unmask) =>
        cpu' := cpu.(bh := if cpu.bh > 0 then cpu.bh - 1 else 0);
      case (IrqSave, Unmask) =>
        cpu' := cpu.(irqOn := pc.flags);
      case _ =>
    }
  }

  lemma AdvanceWorks(su: Setup, cpu: Cpu, l: Level, free: bool)
    requires Top(cpu) == l && PcAt(cpu, l).In? && (PcAt(cpu, l).at.Spin? ==> free)
    requires PcAt(cpu, l).at.Print? || PcAt(cpu, l).at.Inc? ==> PcAt(cpu, l).at.i < OUT_STRING_CNT
    ensures Work(Advance(su, cpu, l, PcAt(cpu, l), free)) < Work(cpu)
  {
    var cpu', pc' := AdvanceShape(su, cpu, l, free);
    WithPcWorks(cpu, cpu', l, pc');
  }

  lemma GoOutWorks(su: Setup, s: State, c: nat)
    requires c < |s.cpus| && PcAt(s.cpus[c], Top(s.cpus[c])).Out? && !Idle(s.cpus[c])
    ensures var s' := GoOut(su, s, c);
            Work(s'.cpus[c]) < Work(s.cpus[c]) && s'.lock == s.lock
  {
  }

  /** A processor that is not idle comes nearer to it, if nobody else holds the lock. */
  lemma GoWorks(su: Setup, s: State, c: nat)
    requires MasksItsUsers(su) && Inv(su, s) && c < |s.cpus| && FreeOrOn(s.lock, c) && !Idle(s.cpus[c])
    ensures var s' := Step(su, s, Go(c));
            && |s'.cpus| == |s.cpus| && s'.cpus == s.cpus[c := s'.cpus[c]]
            && Work(s'.cpus[c]) < Work(s.cpus[c]) && FreeOrOn(s'.lock, c)
  {
    var cpu := s.cpus[c];
    var l := Top(cpu);
    StepKeepsCpu(su, s, Go(c));
    if PcAt(cpu, l).Out? {
      GoOutWorks(su, s, c);
    } else {
      if PcAt(cpu, l).at.Spin? {
        TopGetsLock(su, s, c);
      }
      assert CpuOk(su, cpu) && PcOk(su, cpu, l);
      AdvanceWorks(su, cpu, l, s.lock.Free?);
    }
  }

  /** A processor can be run until it is idle; the others stay as they are. */
  lemma {:induction false} FinishCpu(su: Setup, n: nat, run: seq<Action>, c: nat) returns (run': seq<Action>)
    requires MasksItsUsers(su) && c < |Exec(su, n, run).cpus| && FreeOrOn(Exec(su, n, run).lock, c)
    ensures run <= run'
    ensures var s, s' := Exec(su, n, run), Exec(su, n, run');
            && |s'.cpus| == |s.cpus| && s'.cpus == s.cpus[c := s'.cpus[c]]
            && Idle(s'.cpus[c]) && s'.lock.Free?
    decreases Work(Exec(su, n, run).cpus[c])
  {
    var s := Exec(su, n, run);
    ExecInv(su, n, run);
    if Idle(s.cpus[c]) {
      run' := run;
    } else {
      GoWorks(su, s, c);
      ExecOne(su, n, run, Go(c));
      run' := FinishCpu(su, n, run + [Go(c)], c);
    }
  }

  lemma {:induction false} FinishFrom(su: Setup, n: nat, run: seq<Action>, k: nat) returns (run': seq<Action>)
    requires MasksItsUsers(su) && k <= n == |Exec(su, n, run).cpus| && Exec(su, n, run).lock.Free?
    requires forall c: nat | c < k :: Idle(Exec(su, n, run).cpus[c])
    ensures run <= run' && AtRest(Exec(su, n, run'))
    decreases n - k
  {
    if k == n {
      run' := run;
    } else {
      run' := FinishCpu(su, n, run, k);
      run' := FinishFrom(su, n, run', k + 1);
    }
  }

  /**
   If the masking fits the users of the lock, every run can be continued until no call and no
   interrupt is under way on any processor and the lock is free.
   */
  lemma EveryCallCanReturn(su: Setup, n: nat, run: seq<Action>) returns (run': seq<Action>)
    requires MasksItsUsers(su)
    ensures run <= run' && AtRest(Exec(su, n, run'))
  {
    ExecInv(su, n, run);
    run' := run;
    var s := Exec(su, n, run);
    if s.lock.Own? {
      run' := FinishCpu(su, n, run, s.lock.c);
    }
    run' := FinishFrom(su, n, run', 0);
  }

  ghost predicate CanFinish(su: Setup, n: nat, run: seq<Action>) {
    exists run' :: run <= run' && AtRest(Exec(su, n, run'))
  }

  /** That is so for every run exactly if the masking fits. */
  lemma CanFinishExactly(su: Setup, n: nat)
    requires n > 0
    ensures (forall run :: CanFinish(su, n, run)) <==> MasksItsUsers(su)
  {
    if MasksItsUsers(su) {
      forall run
        ensures CanFinish(su, n, run)
      {
        var run' := EveryCallCanReturn(su, n, run);
      }
    } else {
      var run := UnmaskedHangs(su, n);
      forall run' | run <= run'
        ensures !AtRest(Exec(su, n, run'))
      {
        assert run' == run + run'[|run|..];
        HangsForever(su, n, run, run'[|run|..], 0);
      }
      assert !CanFinish(su, n, run);
    }
  }
}
