/**
 Which call printed what, in every run of SpinPrint: each call that is over printed its three
 lines, and they stand together in the log.
 */
module SpinCalls {
  import opened SpinPrint

  function CountOf(log: seq<Line>, k: nat): nat {
    if log == [] then 0
    else CountOf(log[..|log| - 1], k) + if log[|log| - 1].call == k then 1 else 0
  }

  /** How many of its lines a call has printed before the statement `at`. */
  function Done(at: At): nat {
    match at
    case Mask => 0
    case Spin => 0
    case Print(i) => i
    case Inc(i) => i + 1
    case Unlock => OUT_STRING_CNT
    case Unmask => OUT_STRING_CNT
  }

  function PcOf(s: State, c: nat, l: Level): Pc {
    if c < |s.cpus| then PcAt(s.cpus[c], l) else Out
  }

  /** Context `l` of processor `c` is in call `k`. */
  ghost predicate Runs(s: State, c: nat, l: Level, k: nat) {
    PcOf(s, c, l).In? && PcOf(s, c, l).call == k
  }

  ghost predicate InProgress(s: State, k: nat) {
    exists c: nat, l :: Runs(s, c, l, k)
  }

  /** One context at most is in a call and has printed what it should have; calls that are over printed three. */
  ghost predicate CallsOk(s: State) {
    && (forall c: nat, l, k: nat | Runs(s, c, l, k) :: k < s.calls && CountOf(s.log, k) == Done(PcOf(s, c, l).at))
    && (forall c: nat, l, d: nat, m, k: nat | Runs(s, c, l, k) && Runs(s, d, m, k) :: c == d && l == m)
    && (forall k: nat | k >= s.calls :: CountOf(s.log, k) == 0)
    && (forall k: nat | k < s.calls && !InProgress(s, k) :: CountOf(s.log, k) == OUT_STRING_CNT)
  }

  lemma CallsSame(s: State, s': State)
    requires CallsOk(s) && s'.log == s.log && s'.calls == s.calls
    requires forall c: nat, l :: PcOf(s', c, l) == PcOf(s, c, l)
    ensures CallsOk(s')
  {
    assert forall c: nat, l, k: nat | Runs(s', c, l, k) :: Runs(s, c, l, k);
    forall k: nat
      ensures InProgress(s, k) ==> InProgress(s', k)
    {
      SameProgress(s, s', k);
    }
  }

  lemma SameProgress(s: State, s': State, k: nat)
    requires forall c: nat, l :: Runs(s, c, l, k) ==> Runs(s', c, l, k)
    ensures InProgress(s, k) ==> InProgress(s', k)
  {
  }

  /** A new call: its number is fresh, and it has printed nothing. */
  lemma CallStarts(s: State, s': State, c: nat, l: Level)
    requires CallsOk(s) && s'.log == s.log && s'.calls == s.calls + 1
    requires PcOf(s, c, l).Out?
    requires var pc' := PcOf(s', c, l); pc'.In? && pc'.call == s.calls && pc'.at.Mask?
    requires forall d: nat, m | d != c || m != l :: PcOf(s', d, m) == PcOf(s, d, m)
    ensures CallsOk(s')
  {
    assert Runs(s', c, l, s.calls);
    forall d: nat, m, k: nat | Runs(s', d, m, k)
      ensures if d == c && m == l then k == s.calls else k < s.calls && Runs(s, d, m, k)
    {
      if d != c || m != l {
        assert Runs(s, d, m, k);
      }
    }
    forall k: nat
      ensures InProgress(s, k) ==> InProgress(s', k)
    {
      SameProgress(s, s', k);
    }
  }

  /** A statement of call `k`; after the last one its context is out. */
  lemma CallMoves(s: State, s': State, c: nat, l: Level, k: nat)
    requires CallsOk(s) && s'.calls == s.calls && Runs(s, c, l, k)
    requires forall d: nat, m | d != c || m != l :: PcOf(s', d, m) == PcOf(s, d, m)
    requires PcOf(s', c, l).In? ==> PcOf(s', c, l).call == k
    requires CountOf(s'.log, k) == if PcOf(s', c, l).In? then Done(PcOf(s', c, l).at) else OUT_STRING_CNT
    requires forall j: nat | j != k :: CountOf(s'.log, j) == CountOf(s.log, j)
    ensures CallsOk(s')
  {
    assert forall d: nat, m, j: nat | Runs(s', d, m, j) :: Runs(s, d, m, j);
    forall j: nat | j != k
      ensures InProgress(s, j) ==> InProgress(s', j)
    {
      SameProgress(s, s', j);
    }
    assert PcOf(s', c, l).In? ==> Runs(s', c, l, k);
  }

  lemma GoOutStarts(su: Setup, s: State, c: nat)
    requires c < |s.cpus| && PcOf(s, c, Top(s.cpus[c])).Out?
    ensures var s' := GoOut(su, s, c);
            var pc' := PcOf(s', c, Top(s.cpus[c]));
            && s'.log == s.log
            && s'.cpus == s.cpus[c := s'.cpus[c]]
            && (pc'.Out? ==> s'.calls == s.calls)
            && (pc'.In? ==> s'.calls == s.calls + 1 && pc'.call == s.calls && pc'.at.Mask?)
            && (forall m | m != Top(s.cpus[c]) :: PcOf(s', c, m) == PcOf(s, c, m))
  {
  }

  lemma CountGrows(log: seq<Line>, e: Line, k: nat)
    ensures CountOf(log + [e], k) == CountOf(log, k) + if e.call == k then 1 else 0
  {
    assert (log + [e])[..|log|] == log;
  }

  /** A statement moves the context that runs it, and no other. */
  lemma GoInMoves(su: Setup, s: State, c: nat)
    requires c < |s.cpus| && PcOf(s, c, Top(s.cpus[c])).In?
    ensures var l := Top(s.cpus[c]);
            var pc := PcOf(s, c, l);
            var s' := GoIn(su, s, c, l, pc);
            var pc' := PcOf(s', c, l);
            && s'.calls == s.calls
            && s'.log == (if pc.at.Print? then s.log + [Line(s.gCount, pc.call)] else s.log)
            && (forall d: nat, m | d != c || m != l :: PcOf(s', d, m) == PcOf(s, d, m))
            && (pc.at.Unmask? <==> pc'.Out?)
            && (pc'.In? ==> pc'.call == pc.call && pc'.at == NextAt(pc.at, s.lock.Free?))
  {
    var l := Top(s.cpus[c]);
    forall m {
      AdvanceMoves(su, s.cpus[c], l, s.lock.Free?, m);
    }
  }

  lemma GoInCalls(su: Setup, s: State, c: nat)
    requires CallsOk(s) && c < |s.cpus| && CpuOk(su, s.cpus[c])
    requires PcOf(s, c, Top(s.cpus[c])).In?
    ensures var l := Top(s.cpus[c]); CallsOk(GoIn(su, s, c, l, PcOf(s, c, l)))
  {
    var l := Top(s.cpus[c]);
    var pc := PcOf(s, c, l);
    GoInMoves(su, s, c);
    assert Runs(s, c, l, pc.call);
    assert PcOk(su, s.cpus[c], l);
    StatementCounts(s, GoIn(su, s, c, l, pc), c, l);
  }

  /** A statement adds a line for its call if it prints, and none otherwise. */
  lemma StatementCounts(s: State, s': State, c: nat, l: Level)
    requires CallsOk(s) && PcOf(s, c, l).In? && s'.calls == s.calls
    requires var pc, pc' := PcOf(s, c, l), PcOf(s', c, l);
             && (pc.at.Print? || pc.at.Inc? ==> pc.at.i < OUT_STRING_CNT)
             && s'.log == (if pc.at.Print? then s.log + [Line(s.gCount, pc.call)] else s.log)
             && (pc.at.Unmask? <==> pc'.Out?)
             && (pc'.In? ==> pc'.call == pc.call && pc'.at == NextAt(pc.at, s.lock.Free?))
    requires forall d: nat, m | d != c || m != l :: PcOf(s', d, m) == PcOf(s, d, m)
    ensures CallsOk(s')
  {
    var pc := PcOf(s, c, l);
    assert Runs(s, c, l, pc.call);
    forall j: nat {
      CountGrows(s.log, Line(s.gCount, pc.call), j);
    }
    CallMoves(s, s', c, l, pc.call);
  }

  lemma StepCalls(su: Setup, s: State, a: Action)
    requires CallsOk(s) && forall c: nat | c < |s.cpus| :: CpuOk(su, s.cpus[c])
    ensures CallsOk(Step(su, s, a))
  {
    if a.c < |s.cpus| {
      var s' := Step(su, s, a);
      var l := Top(s.cpus[a.c]);
      if !a.Go? {
        InterruptOk(su, s, a);
        CallsSame(s, s');
      } else if PcOf(s, a.c, l).In? {
        GoInCalls(su, s, a.c);
      } else {
        GoOutStarts(su, s, a.c);
        if PcOf(s', a.c, l).In? {
          CallStarts(s, s', a.c, l);
        } else {
          CallsSame(s, s');
        }
      }
    }
  }

  lemma {:induction false} ExecCalls(su: Setup, n: nat, run: seq<Action>)
    ensures CallsOk(Exec(su, n, run))
  {
    if run != [] {
      ExecCalls(su, n, run[..|run| - 1]);
      ExecInv(su, n, run[..|run| - 1]);
      StepCalls(su, Exec(su, n, run[..|run| - 1]), run[|run| - 1]);
    }
  }

  lemma {:induction false} CountMonotone(log: seq<Line>, m: nat, k: nat)
    requires m <= |log|
    ensures CountOf(log[..m], k) <= CountOf(log, k)
  {
    if m == |log| {
      assert log[..m] == log;
    } else {
      CountMonotone(log[..|log| - 1], m, k);
      assert log[..|log| - 1][..m] == log[..m];
    }
  }

  lemma CountTake(log: seq<Line>, i: nat, k: nat)
    requires i < |log|
    ensures CountOf(log[..i + 1], k) == CountOf(log[..i], k) + if log[i].call == k then 1 else 0
  {
    assert log[..i + 1] == log[..i] + [log[i]];
    CountGrows(log[..i], log[i], k);
  }

  /** A call that has a whole group and a line outside it has more than three. */
  lemma FourLines(log: seq<Line>, i: nat, j: nat, k: nat)
    requires i + OUT_STRING_CNT <= j < |log| && log[j].call == k
    requires forall h | i <= h < i + OUT_STRING_CNT :: log[h].call == k
    ensures CountOf(log, k) > OUT_STRING_CNT
  {
    CountTake(log, i, k);
    CountTake(log, i + 1, k);
    CountTake(log, i + 2, k);
    CountMonotone(log[..j], i + 3, k);
    assert log[..j][..i + 3] == log[..i + 3];
    CountTake(log, j, k);
    CountMonotone(log, j + 1, k);
  }

  lemma GroupsDiffer(s: State, i: nat, j: nat)
    requires CallsOk(s) && LogGood(s.log)
    requires forall c: nat, l, k: nat | Runs(s, c, l, k) :: Done(PcOf(s, c, l).at) <= OUT_STRING_CNT
    requires i < j < |s.log| && i / OUT_STRING_CNT != j / OUT_STRING_CNT
    ensures s.log[i].call != s.log[j].call
  {
    var k := s.log[i].call;
    if s.log[j].call == k {
      FourLines(s.log, i / OUT_STRING_CNT * OUT_STRING_CNT, j, k);
    }
  }

  /**
   However many callers there are and however interrupts fall, line `k` of the log carries count
   `k`, each group of three consecutive counts belongs to one call and different groups to
   different calls; `g_count` runs behind the log only by one and only inside the critical section.
   */
  lemma PrintsInThrees(su: Setup, n: nat, run: seq<Action>)
    ensures var s := Exec(su, n, run);
            && |s.cpus| == n
            && LogGood(s.log)
            && (forall i, j | 0 <= i < j < |s.log| && i / OUT_STRING_CNT != j / OUT_STRING_CNT ::
                  s.log[i].call != s.log[j].call)
            && (s.gCount == |s.log| ||
                (s.gCount + 1 == |s.log| && s.lock.Own? && s.lock.c < n
                 && var pc := PcAt(s.cpus[s.lock.c], s.lock.level); pc.In? && pc.at.Inc?))
            && (s.lock.Free? ==> |s.log| % OUT_STRING_CNT == 0)
  {
    ExecInv(su, n, run);
    ExecCalls(su, n, run);
    var s := Exec(su, n, run);
    forall c: nat, l, k: nat | Runs(s, c, l, k)
      ensures Done(PcOf(s, c, l).at) <= OUT_STRING_CNT
    {
      assert CpuOk(su, s.cpus[c]) && PcOk(su, s.cpus[c], l);
    }
    forall i, j | 0 <= i < j < |s.log| && i / OUT_STRING_CNT != j / OUT_STRING_CNT
      ensures s.log[i].call != s.log[j].call
    {
      GroupsDiffer(s, i, j);
    }
  }

  /**
   A call that is over has printed exactly three lines, one that has not begun none, and no two
   contexts are in the same call.
   */
  lemma EveryCallPrintsThree(su: Setup, n: nat, run: seq<Action>, k: nat)
    ensures var s := Exec(su, n, run);
            && (k < s.calls && !InProgress(s, k) ==> CountOf(s.log, k) == 3)
            && (k >= s.calls ==> !InProgress(s, k) && CountOf(s.log, k) == 0)
            && (forall c: nat, l, d: nat, m | Runs(s, c, l, k) && Runs(s, d, m, k) :: c == d && l == m)
  {
    ExecCalls(su, n, run);
  }
}
