/**
 Exclusive open by an atomic counter that starts at 1: `open` decrements and keeps the device if
 the result is 0, otherwise increments again and reports -EBUSY.

 The two drivers differ in `release`: one always increments, the other reads the counter first
 and increments only if it read 0.  Reading and incrementing are two separate atomic steps.
 */
module OpenCounter {
  type Tid = nat

  const EBUSY := 16

  datatype Release = Always | OnlyAtZero

  /** A thread in the map has decremented and has not yet accounted for it. */
  datatype Pc = Failing | Holding | Releasing

  datatype Result = Result(t: Tid, ret: int)

  /** `skipped` counts the releases that did not increment; `results` lists what the opens returned. */
  datatype State = State(counter: int, procs: map<Tid, Pc>, skipped: nat, results: seq<Result>)

  datatype Action = Open(t: Tid) | Undo(t: Tid) | Close(t: Tid) | Finish(t: Tid)

  function Init(): State {
    State(1, map[], 0, [])
  }

  function Step(v: Release, s: State, a: Action): State {
    match a
    case Open(t) =>
      // atomic_dec_and_test
      if t in s.procs then s
      else if s.counter - 1 == 0 then
        s.(counter := 0, procs := s.procs[t := Holding], results := s.results + [Result(t, 0)])
      else
        s.(counter := s.counter - 1, procs := s.procs[t := Failing])
    case Undo(t) =>
      // the atomic_inc of a failed open
      if t !in s.procs || !s.procs[t].Failing? then s
      else s.(counter := s.counter + 1, procs := s.procs - {t}, results := s.results + [Result(t, -EBUSY)])
    case Close(t) =>
      if t !in s.procs || !s.procs[t].Holding? then s
      else
        (match v
         case Always => s.(counter := s.counter + 1, procs := s.procs - {t})
         case OnlyAtZero =>
           if s.counter == 0 then s.(procs := s.procs[t := Releasing])
           else s.(procs := s.procs - {t}, skipped := s.skipped + 1))
    case Finish(t) =>
      // the atomic_inc of a release that read 0
      if t !in s.procs || !s.procs[t].Releasing? then s
      else s.(counter := s.counter + 1, procs := s.procs - {t})
  }

  function Exec(v: Release, run: seq<Action>): State {
    if run == [] then Init() else Step(v, Exec(v, run[..|run| - 1]), run[|run| - 1])
  }

  /** The threads that have the device, also while their release is under way. */
  function Holders(s: State): set<Tid> {
    set t | t in s.procs && !s.procs[t].Failing?
  }

  /** The threads whose open has decremented and failed but not yet undone it. */
  function Failers(s: State): set<Tid> {
    set t | t in s.procs && s.procs[t].Failing?
  }

  ghost predicate Inv(v: Release, s: State) {
    && s.counter == 1 - |Holders(s)| - |Failers(s)| - s.skipped
    && |Holders(s)| + s.skipped <= 1
    && (v.Always? ==> s.skipped == 0)
  }

  /** How a step changes who holds and who fails. */
  lemma StepSets(v: Release, s: State, a: Action)
    ensures var s' := Step(v, s, a);
            var t := a.t;
            var pc := if t in s.procs then {s.procs[t]} else {};
            match a
            case Open(_) =>
              && Holders(s') == Holders(s) + (if pc == {} && s.counter == 1 then {t} else {})
              && Failers(s') == Failers(s) + (if pc == {} && s.counter != 1 then {t} else {})
            case Undo(_) =>
              && Holders(s') == Holders(s)
              && Failers(s') == Failers(s) - (if pc == {Failing} then {t} else {})
            case Close(_) =>
              && Holders(s') == Holders(s) - (if pc == {Holding} && (v.Always? || s.counter != 0) then {t} else {})
              && Failers(s') == Failers(s)
            case Finish(_) =>
              && Holders(s') == Holders(s) - (if pc == {Releasing} then {t} else {})
              && Failers(s') == Failers(s)
  {
    match a {
      case Open(_) =>
      case Undo(_) =>
      case Close(_) =>
      case Finish(_) =>
    }
  }

  lemma Resize(s: set<Tid>, t: Tid)
    ensures |s + {t}| == |s| + if t in s then 0 else 1
    ensures |s - {t}| == |s| - if t in s then 1 else 0
    ensures s + {} == s && s - {} == s
  {
    if t in s {
      assert s + {t} == s;
    } else {
      assert s - {t} == s;
    }
  }

  lemma StepInv(v: Release, s: State, a: Action)
    requires Inv(v, s)
    ensures Inv(v, Step(v, s, a))
  {
    StepSets(v, s, a);
    Resize(Holders(s), a.t);
    Resize(Failers(s), a.t);
    assert a.t in Holders(s) <==> a.t in s.procs && !s.procs[a.t].Failing?;
    assert a.t in Failers(s) <==> a.t in s.procs && s.procs[a.t].Failing?;
  }

  /**
   In every interleaving the counter is 1 minus the holders, minus the opens that have yet to
   undo their decrement, minus the releases that skipped their increment; at most one thread
   has the device.
   */
  lemma {:induction false} CounterAccounts(v: Release, run: seq<Action>)
    ensures var s := Exec(v, run);
            && s.counter == 1 - |Holders(s)| - |Failers(s)| - s.skipped
            && |Holders(s)| + s.skipped <= 1
            && (v.Always? ==> s.skipped == 0)
  {
    if run != [] {
      CounterAccounts(v, run[..|run| - 1]);
      StepInv(v, Exec(v, run[..|run| - 1]), run[|run| - 1]);
    }
  }

  /** No two threads have the device. */
  lemma AtMostOneHolder(v: Release, run: seq<Action>, t: Tid, u: Tid)
    requires t in Holders(Exec(v, run)) && u in Holders(Exec(v, run))
    ensures t == u
  {
    CounterAccounts(v, run);
    assert |Holders(Exec(v, run)) - {t}| == 0;
  }

  /** The testing release skips its increment exactly if some open is between its decrement and its undoing. */
  lemma SkipsExactly(run: seq<Action>, t: Tid)
    requires t in Exec(OnlyAtZero, run).procs && Exec(OnlyAtZero, run).procs[t].Holding?
    ensures var s := Exec(OnlyAtZero, run);
            Step(OnlyAtZero, s, Close(t)).skipped == s.skipped + (if Failers(s) == {} then 0 else 1)
  {
    CounterAccounts(OnlyAtZero, run);
    var s := Exec(OnlyAtZero, run);
    assert t in Holders(s);
    assert |Holders(s)| >= 1 by {
      assert Holders(s) == {t} + (Holders(s) - {t});
    }
    if |Failers(s)| == 0 {
      assert Failers(s) == {};
    }
  }

  /** In the run, no holder began its release while some open was between its decrement and its undoing. */
  predicate ReleasesUndisturbed(v: Release, run: seq<Action>) {
    run == [] ||
    (var s, a := Exec(v, run[..|run| - 1]), run[|run| - 1];
     && ReleasesUndisturbed(v, run[..|run| - 1])
     && (a.Close? && a.t in s.procs && s.procs[a.t].Holding? ==> Failers(s) == {}))
  }

  /** The increments are all made exactly if every release was undisturbed. */
  lemma {:induction false} NothingSkippedExactly(run: seq<Action>)
    ensures Exec(OnlyAtZero, run).skipped == 0 <==> ReleasesUndisturbed(OnlyAtZero, run)
  {
    if run != [] {
      var s, a := Exec(OnlyAtZero, run[..|run| - 1]), run[|run| - 1];
      NothingSkippedExactly(run[..|run| - 1]);
      if a.Close? && a.t in s.procs && s.procs[a.t].Holding? {
        SkipsExactly(run[..|run| - 1], a.t);
      }
    }
  }

  /**
   When every call is over, the counter is back at 1 and the device can be opened again: with the
   unconditional release always, with the testing one exactly if every release was undisturbed.
   */
  lemma ReusableExactly(v: Release, run: seq<Action>, t: Tid)
    requires Exec(v, run).procs == map[]
    ensures var s := Exec(v, run);
            && (s.counter == 1 <==> v.Always? || ReleasesUndisturbed(v, run))
            && (t in Holders(Step(v, s, Open(t))) <==> s.counter == 1)
  {
    CounterAccounts(v, run);
    if v.OnlyAtZero? {
      NothingSkippedExactly(run);
    }
    var s := Exec(v, run);
    assert Holders(s) == {} && Failers(s) == {};
    assert t in Step(v, s, Open(t)).procs;
  }

  lemma ExecOne(v: Release, run: seq<Action>, a: Action)
    ensures Exec(v, run + [a]) == Step(v, Exec(v, run), a)
  {
    assert (run + [a])[..|run|] == run;
  }

  /** While nobody holds the device and the counter is not 1, an open fails. */
  lemma StepLockedOut(v: Release, s: State, a: Action)
    requires Holders(s) == {} && s.counter <= 0
    ensures var s' := Step(v, s, a);
            && s'.skipped == s.skipped && Holders(s') == {}
            && (s'.results == s.results || s'.results == s.results + [Result(a.t, -EBUSY)])
  {
    assert forall t :: t in s.procs ==> t in Holders(s) || s.procs[t].Failing?;
    assert forall t :: t in Step(v, s, a).procs ==> Step(v, s, a).procs[t].Failing?;
  }

  /** One skipped increment closes the device for good: no open ever succeeds again. */
  lemma {:induction false} SkipLocksOut(v: Release, run: seq<Action>, more: seq<Action>)
    requires Exec(v, run).skipped > 0
    ensures var s, s' := Exec(v, run), Exec(v, run + more);
            && s'.skipped == s.skipped && Holders(s') == {}
            && |s.results| <= |s'.results|
            && forall i | |s.results| <= i < |s'.results| :: s'.results[i].ret == -EBUSY
  {
    if more == [] {
      CounterAccounts(v, run);
      assert run + more == run;
      assert |Holders(Exec(v, run))| == 0;
    } else {
      var fewer := more[..|more| - 1];
      SkipLocksOut(v, run, fewer);
      CounterAccounts(v, run + fewer);
      assert run + more == (run + fewer) + [more[|more| - 1]];
      ExecOne(v, run + fewer, more[|more| - 1]);
      StepLockedOut(v, Exec(v, run + fewer), more[|more| - 1]);
    }
  }

  /** So after one disturbed release, every open of any continuation fails. */
  lemma DisturbedReleaseLocksOut(run: seq<Action>, more: seq<Action>)
    requires !ReleasesUndisturbed(OnlyAtZero, run)
    ensures var s, s' := Exec(OnlyAtZero, run), Exec(OnlyAtZero, run + more);
            && Holders(s') == {}
            && |s.results| <= |s'.results|
            && forall i | |s.results| <= i < |s'.results| :: s'.results[i].ret == -EBUSY
  {
    NothingSkippedExactly(run);
    SkipLocksOut(OnlyAtZero, run, more);
  }

  /** The lock-out happens: an open fails while the holder releases, and the counter stays at 0. */
  lemma SkipHappens() returns (run: seq<Action>)
    ensures var s := Exec(OnlyAtZero, run);
            s.procs == map[] && s.counter == 0 && s.skipped == 1
  {
    var r1 := [Open(1)];
    assert r1[..0] == [];
    assert Exec(OnlyAtZero, r1) == State(0, map[1 := Holding], 0, [Result(1, 0)]);
    var r2 := r1 + [Open(2)];
    assert r2[..1] == r1;
    assert Exec(OnlyAtZero, r2) == State(-1, map[1 := Holding, 2 := Failing], 0, [Result(1, 0)]);
    var r3 := r2 + [Close(1)];
    assert r3[..2] == r2;
    assert Exec(OnlyAtZero, r3) == State(-1, map[2 := Failing], 1, [Result(1, 0)]);
    run := r3 + [Undo(2)];
    assert run[..3] == r3;
  }

  /** What thread `t` does next: it undoes its decrement, or releases the device. */
  function NextOf(s: State, t: Tid): Action
    requires t in s.procs
  {
    match s.procs[t]
    case Failing => Undo(t)
    case Holding => Close(t)
    case Releasing => Finish(t)
  }

  /** A thread can always finish its open or its release, in two steps at most. */
  lemma OneLeaves(v: Release, run: seq<Action>, t: Tid) returns (run': seq<Action>)
    requires t in Exec(v, run).procs
    ensures run <= run' && Exec(v, run').procs == Exec(v, run).procs - {t}
  {
    var s := Exec(v, run);
    ExecOne(v, run, NextOf(s, t));
    run' := run + [NextOf(s, t)];
    if t in Exec(v, run').procs {
      assert Exec(v, run').procs == s.procs[t := Releasing];
      ExecOne(v, run', Finish(t));
      run' := run' + [Finish(t)];
      assert s.procs[t := Releasing] - {t} == s.procs - {t};
    }
  }

  /** Every run can be continued until all opens and releases are over. */
  lemma {:induction false} EveryoneLeaves(v: Release, run: seq<Action>) returns (run': seq<Action>)
    ensures run <= run' && Exec(v, run').procs == map[]
    decreases |Exec(v, run).procs|
  {
    var procs := Exec(v, run).procs;
    if procs == map[] {
      run' := run;
    } else {
      var t :| t in procs;
      run' := OneLeaves(v, run, t);
      assert procs == (procs - {t})[t := procs[t]];
      run' := EveryoneLeaves(v, run');
    }
  }

  // ---------- The driver's variable, one atomic operation at a time

  class OpenFlags {
    const release: Release
    var flags: int
    ghost var procs: map<Tid, Pc>
    ghost var skipped: nat
    ghost var results: seq<Result>

    ghost function View(): State
      reads this
    {
      State(flags, procs, skipped, results)
    }

    constructor (release: Release)
      ensures View() == Init() && this.release == release
    {
      this.release := release;
      flags := 1;
      procs, skipped, results := map[], 0, [];
    }

    /** The decrement and test that begins an open. */
    method DecAndTest(ghost t: Tid) returns (zero: bool)
      requires t !in procs
      modifies this`flags, this`procs, this`results
      ensures View() == Step(release, old(View()), Open(t))
      ensures zero <==> procs[t].Holding?
    {
      flags := flags - 1;
      zero := flags == 0;
      procs := procs[t := if zero then Holding else Failing];
      results := if zero then results + [Result(t, 0)] else results;
    }

    /** The increment that ends a failed open. */
    method IncAfterFailure(ghost t: Tid) returns (ret: int)
      requires t in procs && procs[t].Failing?
      modifies this`flags, this`procs, this`results
      ensures ret == -EBUSY && View() == Step(release, old(View()), Undo(t))
    {
      flags := flags + 1;
      procs := procs - {t};
      results := results + [Result(t, -EBUSY)];
      ret := -EBUSY;
    }

    /** The first atomic operation of a release; `more` says whether the increment is still to come. */
    method ReleaseFirst(ghost t: Tid) returns (more: bool)
      requires t in procs && procs[t].Holding?
      modifies this`flags, this`procs, this`skipped
      ensures View() == Step(release, old(View()), Close(t))
      ensures more <==> t in procs
    {
      match release {
        case Always =>
          flags := flags + 1;
          procs := procs - {t};
          more := false;
        case OnlyAtZero =>
          more := flags == 0;
          procs := if more then procs[t := Releasing] else procs - {t};
          skipped := if more then skipped else skipped + 1;
      }
    }

    /** The increment of a release that read 0. */
    method IncAfterTest(ghost t: Tid)
      requires t in procs && procs[t].Releasing?
      modifies this`flags, this`procs
      ensures View() == Step(release, old(View()), Finish(t))
    {
      flags := flags + 1;
      procs := procs - {t};
    }

    /** `atomic_open` (and `demo_open`) with no other thread in between. */
    method AtomicOpen(ghost t: Tid) returns (ret: int)
      requires t !in procs
      modifies this`flags, this`procs, this`results
      ensures ret == if old(flags) == 1 then 0 else -EBUSY
      ensures flags == if ret == 0 then 0 else old(flags)
      ensures procs == if ret == 0 then old(procs)[t := Holding] else old(procs)
      ensures results == old(results) + [Result(t, ret)]
    {
      var zero := DecAndTest(t);
      if !zero {
        ret := IncAfterFailure(t);
        assert old(procs)[t := Failing] - {t} == old(procs);
        return;
      }
      ret := 0;
    }

    /** `atomic_release` (and `demo_release`) with no other thread in between. */
    method AtomicRelease(ghost t: Tid)
      requires t in procs && procs[t].Holding?
      modifies this`flags, this`procs, this`skipped
      ensures flags == if release.Always? || old(flags) == 0 then old(flags) + 1 else old(flags)
      ensures skipped == old(skipped) + if release.Always? || old(flags) == 0 then 0 else 1
      ensures procs == old(procs) - {t}
    {
      var more := ReleaseFirst(t);
      if more {
        assert old(procs)[t := Releasing] - {t} == old(procs) - {t};
        IncAfterTest(t);
      }
    }
  }

  /** Two users, one after the other: the device is free again, with either release. */
  method OpenReleaseOpen(release: Release, t: Tid, u: Tid) returns (first: int, second: int, third: int)
    requires t != u
    ensures first == 0 && second == -EBUSY && third == 0
  {
    var device := new OpenFlags(release);
    first := device.AtomicOpen(t);
    second := device.AtomicOpen(u);
    device.AtomicRelease(t);
    third := device.AtomicOpen(u);
  }
}
