/**
 Two threads add 1 to and subtract 1 from the same integer, `cnt` times each, with the load, the
 addition and the store of every update as separate steps under one spinlock.
 */
module FoolThreads {

  datatype At = Test | Acquire | Load | Add | Store | Release | Finished

  /** A thread with its loop counter and the register it updates the variable through. */
  datatype Thread = Thread(at: At, i: nat, reg: int)

  function Delta(t: nat): int {
    if t == 0 then 1 else -1
  }

  predicate Critical(th: Thread) {
    th.at.Load? || th.at.Add? || th.at.Store? || th.at.Release?
  }

  /** The number of updates a thread has stored. */
  function Stored(th: Thread): nat {
    if th.at.Release? then th.i + 1 else th.i
  }

  /** The number of steps a thread has left. */
  function Left(th: Thread, cnt: nat): nat
    requires th.i <= cnt && (Critical(th) || th.at.Acquire? ==> th.i < cnt)
  {
    6 * (cnt - th.i) +
    match th.at
    case Test => 1
    case Acquire => 0
    case Load => -1
    case Add => -2
    case Store => -3
    case Release => -4
    case Finished => 0
  }

  /** What is known of thread `t` when the shared variable is `v`. */
  predicate ThreadOk(th: Thread, cnt: nat, v: int, t: nat) {
    && th.i <= cnt
    && (Critical(th) || th.at.Acquire? ==> th.i < cnt)
    && (th.at.Finished? ==> th.i == cnt)
    && (th.at.Add? ==> th.reg == v)
    && (th.at.Store? ==> th.reg == v + Delta(t))
  }

  /** One step of thread `t`; `busy` says whether the other thread is in its critical section. */
  method Advance(th: Thread, cnt: nat, v: int, locked: bool, t: nat, ghost busy: bool)
    returns (th': Thread, v': int, locked': bool)
    requires ThreadOk(th, cnt, v, t) && !th.at.Finished?
    requires locked <==> Critical(th) || busy
    requires !(Critical(th) && busy) && (th.at.Acquire? ==> !locked)
    ensures ThreadOk(th', cnt, v', t) && Left(th', cnt) < Left(th, cnt)
    ensures locked' <==> Critical(th') || busy
    ensures !(Critical(th') && busy)
    ensures if th.at.Store? then v' == (if t == 0 then v + 1 else v - 1) && Stored(th') == Stored(th) + 1
            else v' == v && Stored(th') == Stored(th)
  {
    th', v', locked' := th, v, locked;
    match th.at {
      case Test =>
        th' := th.(at := if th.i < cnt then Acquire else Finished);
      case Acquire =>
        locked' := true;
        th' := th.(at := Load);
      case Load =>
        th' := th.(at := Add, reg := v);
      case Add =>
        th' := th.(at := Store, reg := th.reg + Delta(t));
      case Store =>
        v' := th.reg;
        th' := th.(at := Release);
      case Release =>
        locked' := false;
        th' := th.(at := Test, i := th.i + 1);
    }
  }

  /**
   `main` from the creation of the threads to the second join.  The scheduler runs whichever
   thread it likes that has not finished and does not wait for the lock; there always is one.
   `trace` is every value the variable takes.
   */
  method RunThreads(cnt: nat, init: int) returns (v: int, trace: seq<int>)
    ensures v == init
    ensures forall x <- trace :: init - cnt <= x <= init + cnt
    ensures |trace| == 2 * cnt + 1
  {
    v, trace := init, [init];
    var locked := false;
    var up, down := Thread(Test, 0, 0), Thread(Test, 0, 0);
    while !up.at.Finished? || !down.at.Finished?
      invariant ThreadOk(up, cnt, v, 0) && ThreadOk(down, cnt, v, 1)
      invariant locked <==> Critical(up) || Critical(down)
      invariant !(Critical(up) && Critical(down))
      invariant v == init + Stored(up) - Stored(down)
      invariant forall x <- trace :: init - cnt <= x <= init + cnt
      invariant |trace| == 1 + Stored(up) + Stored(down)
      decreases Left(up, cnt) + Left(down, cnt)
    {
      var was := v;
      if {
        case !up.at.Finished? && (up.at.Acquire? ==> !locked) =>
          up, v, locked := Advance(up, cnt, v, locked, 0, Critical(down));
        case !down.at.Finished? && (down.at.Acquire? ==> !locked) =>
          down, v, locked := Advance(down, cnt, v, locked, 1, Critical(up));
      }
      if v != was {
        trace := trace + [v];
      }
    }
  }
}
