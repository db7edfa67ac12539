/**
 All sixteen devices at once.  `kbuf_open` stores in the file the entry that the inode's cdev
 is part of; every call then works on that entry alone.
 */
module KbufDevices {
  import opened Fifo
  import opened LockedKbuf

  type Fid = nat

  const KBUFNUM: nat := 16

  datatype Thread = Thread(d: nat, pc: Pc)

  datatype Tagged = Tagged(d: nat, event: Event)

  datatype Sys = Sys(devs: seq<Device>, files: map<Fid, nat>, threads: map<Tid, Thread>, returned: seq<Tagged>)

  datatype SysAction =
    | Open(f: Fid, minor: nat)
    | Release(f: Fid)
    | Call(t: Tid, f: Fid, call: Fifo.Call)
    | Run(t: Tid, fault: bool, scribble: seq<Byte>)

  function SysInit(lock: Lock): Sys {
    Sys(seq(KBUFNUM, _ => NewDevice(lock)), map[], map[], [])
  }

  /** The calls under way on device `d`. */
  ghost function CallsOn(threads: map<Tid, Thread>, d: nat): map<Tid, Pc> {
    map t <- threads | threads[t].d == d :: threads[t].pc
  }

  ghost function ReturnedFrom(log: seq<Tagged>, d: nat): seq<Event> {
    if log == [] then []
    else
      var last := log[|log| - 1];
      ReturnedFrom(log[..|log| - 1], d) + if last.d == d then [last.event] else []
  }

  /** What device `d` and its own callers look like. */
  ghost function Project(s: Sys, d: nat): State
    requires d < |s.devs|
  {
    State(s.devs[d], CallsOn(s.threads, d), ReturnedFrom(s.returned, d))
  }

  ghost predicate SysInv(s: Sys) {
    && |s.devs| == KBUFNUM
    && (forall f <- s.files :: s.files[f] < KBUFNUM)
    && (forall t <- s.threads :: s.threads[t].d < KBUFNUM)
    && (forall d: nat | d < KBUFNUM :: Inv(Project(s, d)))
  }

  /** The system after thread `t`'s statement on device `d`. */
  function Moved(s: Sys, t: Tid, d: nat, dev: Device, next: Next): Sys
    requires d < |s.devs|
  {
    match next
    case At(pc) => s.(devs := s.devs[d := dev], threads := s.threads[t := Thread(d, pc)])
    case Back(event) =>
      s.(devs := s.devs[d := dev], threads := s.threads - {t}, returned := s.returned + [Tagged(d, event)])
  }

  ghost function SysStep(s: Sys, a: SysAction): Sys
    requires SysInv(s)
  {
    match a
    case Open(f, minor) =>
      if f in s.files || minor >= KBUFNUM then s else s.(files := s.files[f := minor])
    case Release(f) =>
      s.(files := s.files - {f})
    case Call(t, f, call) =>
      if t in s.threads || f !in s.files then s
      else s.(threads := s.threads[t := Thread(s.files[f], Entry(call))])
    case Run(t, fault, scribble) =>
      if t !in s.threads then s
      else
        var d := s.threads[t].d;
        assert t in Project(s, d).calls;
        var (dev, next) := PcStep(s.devs[d], t, s.threads[t].pc, fault, scribble);
        Moved(s, t, d, dev, next)
  }

  /** The part a step plays for device `d`: a step of `d`'s own machine, or nothing. */
  ghost function ProjectAction(s: Sys, a: SysAction, d: nat): (acts: seq<Action>)
    requires SysInv(s)
    ensures |acts| <= 1
  {
    match a
    case Call(t, f, call) =>
      if t !in s.threads && f in s.files && s.files[f] == d then [Invoke(t, call)] else []
    case Run(t, fault, scribble) =>
      if t in s.threads && s.threads[t].d == d then [Go(t, fault, scribble)] else []
    case _ => []
  }

  ghost function Steps(s: State, acts: seq<Action>): State
    requires Inv(s) && |acts| <= 1
  {
    if acts == [] then s else Step(s, acts[0])
  }

  lemma CallsOnAfter(threads: map<Tid, Thread>, t: Tid, th: Thread, d: nat)
    ensures CallsOn(threads[t := th], d) ==
            if th.d == d then CallsOn(threads, d)[t := th.pc] else CallsOn(threads, d) - {t}
    ensures CallsOn(threads - {t}, d) == CallsOn(threads, d) - {t}
    ensures t !in CallsOn(threads, d) ==> CallsOn(threads, d) - {t} == CallsOn(threads, d)
  {
  }

  lemma CallProjects(s: Sys, t: Tid, f: Fid, call: Fifo.Call, d: nat)
    requires SysInv(s) && d < KBUFNUM
    ensures var a := Call(t, f, call);
            && |SysStep(s, a).devs| == KBUFNUM
            && Project(SysStep(s, a), d) == Steps(Project(s, d), ProjectAction(s, a, d))
  {
    if t !in s.threads && f in s.files {
      CallsOnAfter(s.threads, t, Thread(s.files[f], Entry(call)), d);
    }
  }

  lemma ReturnedAfter(log: seq<Tagged>, e: Tagged, d: nat)
    ensures ReturnedFrom(log + [e], d) == ReturnedFrom(log, d) + if e.d == d then [e.event] else []
  {
    assert (log + [e])[..|log|] == log;
  }

  /** Such a statement changes its own device, the calls on it and the results from it, and no other's. */
  ghost function ProjectMoved(p: State, t: Tid, mine: bool, dev: Device, next: Next): State {
    if !mine then p
    else
      match next
      case At(pc) => p.(dev := dev, calls := p.calls[t := pc])
      case Back(event) => p.(dev := dev, calls := p.calls - {t}, returned := p.returned + [event])
  }

  lemma AtProjects(s: Sys, t: Tid, e: nat, dev: Device, pc: Pc, d: nat)
    requires e < |s.devs| && d < |s.devs| && t in s.threads && s.threads[t].d == e
    ensures Project(Moved(s, t, e, dev, At(pc)), d) == ProjectMoved(Project(s, d), t, e == d, dev, At(pc))
  {
    CallsOnAfter(s.threads, t, Thread(e, pc), d);
    assert e != d ==> t !in CallsOn(s.threads, d);
  }

  lemma BackProjects(s: Sys, t: Tid, e: nat, dev: Device, event: Event, d: nat)
    requires e < |s.devs| && d < |s.devs| && t in s.threads && s.threads[t].d == e
    ensures Project(Moved(s, t, e, dev, Back(event)), d) == ProjectMoved(Project(s, d), t, e == d, dev, Back(event))
  {
    CallsOnAfter(s.threads, t, s.threads[t], d);
    ReturnedAfter(s.returned, Tagged(e, event), d);
    assert e != d ==> t !in CallsOn(s.threads, d);
  }

  lemma RunProjects(s: Sys, t: Tid, fault: bool, scribble: seq<Byte>, d: nat)
    requires SysInv(s) && d < KBUFNUM
    ensures var a := Run(t, fault, scribble);
            && |SysStep(s, a).devs| == KBUFNUM
            && Project(SysStep(s, a), d) == Steps(Project(s, d), ProjectAction(s, a, d))
  {
    if t in s.threads {
      var e := s.threads[t].d;
      assert t in Project(s, e).calls;
      var (dev, next) := PcStep(s.devs[e], t, s.threads[t].pc, fault, scribble);
      match next {
        case At(pc) =>
          AtProjects(s, t, e, dev, pc, d);
        case Back(event) =>
          BackProjects(s, t, e, dev, event, d);
      }
    }
  }

  /** A step of the whole system moves device `d` by a step of its own machine, or not at all. */
  lemma StepProjects(s: Sys, a: SysAction, d: nat)
    requires SysInv(s) && d < KBUFNUM
    ensures |SysStep(s, a).devs| == KBUFNUM
    ensures Project(SysStep(s, a), d) == Steps(Project(s, d), ProjectAction(s, a, d))
  {
    match a {
      case Call(t, f, call) =>
        CallProjects(s, t, f, call, d);
      case Run(t, fault, scribble) =>
        RunProjects(s, t, fault, scribble, d);
      case _ =>
    }
  }

  lemma SysStepInv(s: Sys, a: SysAction)
    requires SysInv(s)
    ensures SysInv(SysStep(s, a))
  {
    forall d: nat | d < KBUFNUM
      ensures Inv(Project(SysStep(s, a), d))
    {
      StepProjects(s, a, d);
      if ProjectAction(s, a, d) != [] {
        StepInv(Project(s, d), ProjectAction(s, a, d)[0]);
      }
    }
  }

  ghost function SysExec(lock: Lock, run: seq<SysAction>): (s: Sys)
    requires Fresh(lock)
    ensures SysInv(s)
  {
    if run == [] then
      assert forall d: nat | d < KBUFNUM :: Project(SysInit(lock), d) == Init(lock);
      SysInit(lock)
    else
      var s := SysExec(lock, run[..|run| - 1]);
      SysStepInv(s, run[|run| - 1]);
      SysStep(s, run[|run| - 1])
  }

  // ---------- Which device a call goes to, from the list of actions alone

  datatype Binding = Closed | On(d: nat)

  /** The minor that file `f` was last opened with, unless it has been released since. */
  function MinorOf(run: seq<SysAction>, f: Fid): (b: Binding)
    ensures b.On? ==> b.d < KBUFNUM
  {
    if run == [] then Closed
    else
      var p, last := run[..|run| - 1], run[|run| - 1];
      var b := MinorOf(p, f);
      match last
      case Open(g, minor) => if g == f && b.Closed? && minor < KBUFNUM then On(minor) else b
      case Release(g) => if g == f then Closed else b
      case _ => b
  }

  /** The minor of the file through which thread `t` made its last call. */
  ghost function CalledOn(lock: Lock, run: seq<SysAction>, t: Tid): (b: Binding)
    requires Fresh(lock)
    ensures b.On? ==> b.d < KBUFNUM
    decreases |run|, 0
  {
    if run == [] then Closed
    else
      var p, last := run[..|run| - 1], run[|run| - 1];
      if last.Call? && last.t == t && MinorOf(p, last.f).On? && !Busy(lock, p, t) then MinorOf(p, last.f)
      else CalledOn(lock, p, t)
  }

  /** Thread `t`'s last call has not returned yet from the device it was made on. */
  ghost predicate Busy(lock: Lock, run: seq<SysAction>, t: Tid)
    requires Fresh(lock)
    decreases |run|, 1
  {
    var b := CalledOn(lock, run, t);
    b.On? && t in Exec(lock, ProjectRun(lock, run, b.d)).calls
  }

  /** The calls made through files of minor `d`, and the steps of the threads that made them. */
  ghost function ProjectRun(lock: Lock, run: seq<SysAction>, d: nat): seq<Action>
    requires Fresh(lock)
    decreases |run|, 0
  {
    if run == [] then []
    else ProjectRun(lock, run[..|run| - 1], d) + Part(lock, run[..|run| - 1], run[|run| - 1], d)
  }

  /** The part that `a` plays for device `d` after the run `p`. */
  ghost function Part(lock: Lock, p: seq<SysAction>, a: SysAction, d: nat): (acts: seq<Action>)
    requires Fresh(lock)
    ensures |acts| <= 1
    decreases |p|, 2
  {
    match a
    case Call(t, f, call) => if MinorOf(p, f) == On(d) && !Busy(lock, p, t) then [Invoke(t, call)] else []
    case Run(t, fault, scribble) => if CalledOn(lock, p, t) == On(d) then [Go(t, fault, scribble)] else []
    case _ => []
  }

  /** An open file is bound to the minor it was opened with, until it is released. */
  lemma {:induction false} FilesExactly(lock: Lock, run: seq<SysAction>, f: Fid)
    requires Fresh(lock)
    ensures var files := SysExec(lock, run).files;
            MinorOf(run, f) == if f in files then On(files[f]) else Closed
  {
    if run != [] {
      FilesExactly(lock, run[..|run| - 1], f);
    }
  }

  /** A thread that is in a call has been before, on the same device, or makes the call now. */
  lemma StepThreads(s: Sys, a: SysAction, t: Tid)
    requires SysInv(s)
    ensures var s' := SysStep(s, a);
            t in s'.threads ==>
              if t in s.threads then s'.threads[t].d == s.threads[t].d
              else a.Call? && a.t == t && a.f in s.files && s'.threads[t].d == s.files[a.f]
  {
  }

  lemma ThreadsKnown(lock: Lock, run: seq<SysAction>, t: Tid)
    requires Fresh(lock) && run != []
    requires var p := run[..|run| - 1];
             && (t in SysExec(lock, p).threads <==> Busy(lock, p, t))
             && (t in SysExec(lock, p).threads ==> CalledOn(lock, p, t) == On(SysExec(lock, p).threads[t].d))
    ensures var threads := SysExec(lock, run).threads;
            t in threads ==> CalledOn(lock, run, t) == On(threads[t].d)
  {
    var p, a := run[..|run| - 1], run[|run| - 1];
    StepThreads(SysExec(lock, p), a, t);
    if a.Call? {
      FilesExactly(lock, p, a.f);
    }
  }

  /** A thread in a call is on the device it called, and `Busy` tells whether it is in a call. */
  lemma {:induction false} ThreadsExactly(lock: Lock, run: seq<SysAction>, t: Tid)
    requires Fresh(lock)
    ensures var threads := SysExec(lock, run).threads;
            && (t in threads <==> Busy(lock, run, t))
            && (t in threads ==> CalledOn(lock, run, t) == On(threads[t].d))
    decreases |run|, 1
  {
    var s := SysExec(lock, run);
    if run != [] {
      ThreadsExactly(lock, run[..|run| - 1], t);
      ThreadsKnown(lock, run, t);
    }
    var b := CalledOn(lock, run, t);
    if b.On? {
      DevicesIsolated(lock, run, b.d);
      assert Project(s, b.d).calls == CallsOn(s.threads, b.d);
    }
  }

  /**
   Isolation: whatever the other devices and their callers do in between, device `d` goes
   through a run of its own, that of the calls made through its minor, and those calls return
   what they return in that run.
   */
  lemma {:induction false} DevicesIsolated(lock: Lock, run: seq<SysAction>, d: nat)
    requires Fresh(lock) && d < KBUFNUM
    ensures Project(SysExec(lock, run), d) == Exec(lock, ProjectRun(lock, run, d))
    decreases |run|, 0
  {
    if run == [] {
      assert Project(SysInit(lock), d) == Init(lock);
    } else {
      var p, a := run[..|run| - 1], run[|run| - 1];
      var s := SysExec(lock, p);
      DevicesIsolated(lock, p, d);
      StepProjects(s, a, d);
      PartFits(lock, p, a, d);
      var r, acts := ProjectRun(lock, p, d), Part(lock, p, a, d);
      if acts == [] {
        assert r + acts == r;
      } else {
        assert (r + acts)[..|r + acts| - 1] == r;
      }
    }
  }

  /** Files and threads as the run tells them lead to the step that device `d` makes. */
  lemma PartFits(lock: Lock, p: seq<SysAction>, a: SysAction, d: nat)
    requires Fresh(lock) && d < KBUFNUM
    ensures var s := SysExec(lock, p);
            Steps(Project(s, d), Part(lock, p, a, d)) == Steps(Project(s, d), ProjectAction(s, a, d))
    decreases |p|, 2
  {
    var s := SysExec(lock, p);
    if a.Call? {
      FilesExactly(lock, p, a.f);
      ThreadsExactly(lock, p, a.t);
    } else if a.Run? {
      ThreadsExactly(lock, p, a.t);
      assert a.t !in s.threads ==> a.t !in Project(s, d).calls;
    }
  }

  /** Each of the devices of the whole driver therefore is an atomic queue for its own callers. */
  lemma EveryDeviceRefinesAtomicQueue(lock: Lock, run: seq<SysAction>, d: nat)
    requires Fresh(lock) && d < 16
    ensures Abstract(Project(SysExec(lock, run), d)) == AbsExec(LinearRun(lock, ProjectRun(lock, run, d)))
  {
    DevicesIsolated(lock, run, d);
    RefinesAtomicQueue(lock, ProjectRun(lock, run, d));
  }
}
