/**
 The variables of the spinlock driver and `print_string` on them, one processor running nothing
 but its process.  Each statement is a step of SpinPrint.
 */
module SpinObject {
  import opened SpinPrint

  /** The driver's variables, and where its process is. */
  datatype Vars = Vars(pc: Pc, locked: bool, gCount: nat, log: seq<Line>, calls: nat)

  predicate VarsOk(v: Vars) {
    v.locked <==> Holds(v.pc)
  }

  function Processor(pc: Pc): Cpu {
    Cpu(true, 0, false, pc, Absent, Absent)
  }

  /** The machine that looks like this. */
  function Machine(v: Vars): State {
    State([Processor(v.pc)], if v.locked then Own(0, Proc) else Free, v.gCount, v.log, v.calls)
  }

  function Begun(v: Vars): Vars {
    v.(pc := In(v.calls, true, false, Mask), calls := v.calls + 1)
  }

  /** The process's next statement; a call begins with one of its own. */
  function Statement(v: Vars): Vars {
    if v.pc.Out? then Begun(v)
    else
      var v' := v.(pc := if v.pc.at.Unmask? then Out else v.pc.(at := NextAt(v.pc.at, true)));
      match v.pc.at
      case Spin => v'.(locked := true)
      case Print(_) => v'.(log := v.log + [Line(v.gCount, v.pc.call)])
      case Inc(_) => v'.(gCount := v.gCount + 1)
      case Unlock => v'.(locked := false)
      case _ => v'
  }

  lemma StatementIsStep(v: Vars)
    requires VarsOk(v)
    ensures VarsOk(Statement(v))
    ensures Step(SPINLOCK, Machine(v), Go(0)) == Machine(Statement(v))
  {
    var cpu := Processor(v.pc);
    assert [cpu][0 := Processor(Statement(v).pc)] == [Processor(Statement(v).pc)];
    if v.pc.In? {
      assert Advance(SPINLOCK, cpu, Proc, v.pc, !v.locked) == Processor(Statement(v).pc);
    }
  }

  function After(v: Vars, k: nat): Vars {
    if k == 0 then v else Statement(After(v, k - 1))
  }

  /** Those of one call: its beginning, two to lock, two for each line, two to unlock. */
  const STATEMENTS: nat := 1 + 2 + 2 * OUT_STRING_CNT + 2

  lemma AfterThree(v: Vars)
    ensures After(v, 3) == Statement(Statement(Statement(v)))
  {
    assert After(v, 0) == v;
    assert After(v, 1) == Statement(v);
  }

  /** `k` statements of processor 0 */
  function Gos(k: nat): seq<Action> {
    seq(k, _ => Go(0))
  }

  /** The statements are a run of the machine. */
  lemma {:induction false} AfterIsRun(run: seq<Action>, v: Vars, k: nat)
    requires VarsOk(v) && Exec(SPINLOCK, 1, run) == Machine(v)
    ensures VarsOk(After(v, k)) && Exec(SPINLOCK, 1, run + Gos(k)) == Machine(After(v, k))
  {
    if k == 0 {
      assert run + Gos(k) == run;
    } else {
      AfterIsRun(run, v, k - 1);
      StatementIsStep(After(v, k - 1));
      assert run + Gos(k) == (run + Gos(k - 1)) + [Go(0)];
      ExecOne(SPINLOCK, 1, run + Gos(k - 1), Go(0));
    }
  }

  /** `k` lines of one call, counted from `g`. */
  function Lines(g: nat, call: nat, k: nat): seq<Line> {
    seq(k, i requires 0 <= i => Line(g + i, call))
  }

  lemma LinesMore(was: seq<Line>, g: nat, call: nat, k: nat)
    ensures was + Lines(g, call, k) + [Line(g + k, call)] == was + Lines(g, call, k + 1)
  {
  }

  /** Three lines of one call keep a log of whole groups one. */
  lemma LinesGood(log: seq<Line>, call: nat)
    requires LogUpTo(log, 0, 0)
    ensures LogUpTo(log + Lines(|log|, call, OUT_STRING_CNT), 0, 0)
  {
    var g := |log|;
    GroupDone(log, 0, 0, call);
    LogGrows(log, 0, call);
    LogGrows(log + [Line(g, call)], 1, call);
    LogGrows(log + [Line(g, call)] + [Line(g + 1, call)], 2, call);
    assert log + Lines(g, call, 3) == log + [Line(g, call)] + [Line(g + 1, call)] + [Line(g + 2, call)];
    GroupDone(log + Lines(g, call, 3), OUT_STRING_CNT, call, 0);
  }

  lemma {:induction false} AfterMore(v: Vars, j: nat, k: nat)
    ensures After(After(v, j), k) == After(v, j + k)
  {
    if k > 0 {
      AfterMore(v, j, k - 1);
    }
  }

  lemma AfterTwo(v: Vars, k: nat)
    ensures After(v, k + 2) == Statement(Statement(After(v, k)))
  {
    assert After(v, k + 1) == Statement(After(v, k));
  }

  /** After `i` rounds of the loop that begins at `v`. */
  function Rounds(v: Vars, i: nat): Vars
    requires v.pc.In?
  {
    v.(pc := v.pc.(at := if i < OUT_STRING_CNT then Print(i) else Unlock),
       gCount := v.gCount + i,
       log := v.log + Lines(v.gCount, v.pc.call, i))
  }

  lemma {:induction false} RoundsAfter(v: Vars, i: nat)
    requires v.pc.In? && v.pc.at == Print(0) && i <= OUT_STRING_CNT
    ensures After(v, 2 * i) == Rounds(v, i)
  {
    if i == 0 {
      assert v.log + Lines(v.gCount, v.pc.call, 0) == v.log;
    } else {
      RoundsAfter(v, i - 1);
      AfterTwo(v, 2 * (i - 1));
      NextRound(v, i - 1);
    }
  }

  lemma NextRound(v: Vars, i: nat)
    requires v.pc.In? && v.pc.at == Print(0) && i < OUT_STRING_CNT
    ensures Statement(Statement(Rounds(v, i))) == Rounds(v, i + 1)
  {
    LinesMore(v.log, v.gCount, v.pc.call, i);
  }

  /** A whole call that nobody disturbs. */
  function Called(v: Vars): Vars {
    v.(gCount := v.gCount + OUT_STRING_CNT,
       log := v.log + Lines(v.gCount, v.calls, OUT_STRING_CNT),
       calls := v.calls + 1)
  }

  lemma CalledAfter(v: Vars)
    requires v.pc.Out? && !v.locked
    ensures After(v, STATEMENTS) == Called(v)
  {
    AfterThree(v);
    var w := After(v, 3);
    RoundsAfter(w, OUT_STRING_CNT);
    AfterMore(v, 3, 2 * OUT_STRING_CNT);
    AfterTwo(v, 3 + 2 * OUT_STRING_CNT);
  }

  class Demo {
    var gCount: nat
    var locked: bool
    var log: seq<Line>
    var calls: nat

    /** The driver's variables while its process is outside `print_string`. */
    ghost function View(): Vars
      reads this
    {
      Vars(Out, locked, gCount, log, calls)
    }

    /** The driver between two calls. */
    ghost predicate Valid()
      reads this
    {
      !locked && LogUpTo(log, 0, 0) && gCount == |log|
    }

    constructor ()
      ensures Valid() && Machine(View()) == Init(1)
    {
      gCount, locked, log, calls := 0, false, [], 0;
    }

    method SpinLock()
      requires !locked
      modifies this`locked
      ensures locked
    {
      locked := true;
    }

    method SpinUnlock()
      requires locked
      modifies this`locked
      ensures !locked
    {
      locked := false;
    }

    /**
     `print_string`, called when nobody else runs: three lines with consecutive counts, as after
     the eleven statements of the machine.
     */
    method PrintString()
      requires Valid()
      modifies this
      ensures Valid()
      ensures View() == Called(old(View())) == After(old(View()), STATEMENTS)
    {
      CalledAfter(View());
      var g, call := gCount, calls;
      ghost var was := log;
      calls := calls + 1;
      SpinLock();
      var i := 0;
      while i < OUT_STRING_CNT
        invariant 0 <= i <= OUT_STRING_CNT
        invariant locked && calls == call + 1
        invariant gCount == g + i && log == was + Lines(g, call, i)
      {
        log := log + [Line(gCount, call)];
        gCount := gCount + 1;
        LinesMore(was, g, call, i);
        i := i + 1;
      }
      SpinUnlock();
      LinesGood(was, call);
    }
  }
}
