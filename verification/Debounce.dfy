/**
 Four keys share one debouncing timer: each edge notes its key and pushes the timer back, the
 expired timer hands the key to the tasklet, and the tasklet toggles the key.

 Time is counted in jiffies.  A timer that is due runs at any later time, and so does the
 tasklet: ticks and edges may come first.
 */
module Debounce {
  type Key = k: nat | k < 4

  datatype Timer = Off | Armed(expires: nat, data: Key)

  datatype Task = Idle | Scheduled(data: Key)

  datatype Edge = Edge(time: nat, key: Key)

  /**
   `edges` are all edges so far; `lost[k]` counts the bursts of key `k` that were never counted:
   an edge pushed the timer back when it was due, or an expiry replaced the data of a tasklet
   that had not run.
   */
  datatype State = State(
    now: nat,
    timer: Timer,
    task: Task,
    cnt: seq<nat>,
    kbuf: seq<nat>,
    lost: seq<nat>,
    edges: seq<Edge>)

  datatype Action = KeyEdge(key: Key) | Tick | Expire | RunTask

  predicate Sized(s: State) {
    |s.cnt| == 4 && |s.kbuf| == 4 && |s.lost| == 4
  }

  predicate Due(s: State) {
    s.timer.Armed? && s.timer.expires <= s.now
  }

  function Init(): State {
    State(0, Off, Idle, [0, 0, 0, 0], [0, 0, 0, 0], [0, 0, 0, 0], [])
  }

  function Bump(a: seq<nat>, i: nat): seq<nat>
    requires i < |a|
  {
    a[i := a[i] + 1]
  }

  function Step(delay: nat, s: State, a: Action): State
    requires Sized(s)
  {
    match a
    case KeyEdge(key) =>
      s.(timer := Armed(s.now + delay, key),
         lost := if Due(s) then Bump(s.lost, s.timer.data) else s.lost,
         edges := s.edges + [Edge(s.now, key)])
    case Tick =>
      s.(now := s.now + 1)
    case Expire =>
      if !Due(s) then s
      else
        s.(timer := Off,
           task := Scheduled(s.timer.data),
           lost := if s.task.Idle? then s.lost else Bump(s.lost, s.task.data))
    case RunTask =>
      if s.task.Idle? then s
      else
        var k := s.task.data;
        s.(task := Idle,
           cnt := Bump(s.cnt, k),
           kbuf := s.kbuf[k := (s.cnt[k] + 1) % 2])
  }

  function Exec(delay: nat, run: seq<Action>): (s: State)
    ensures Sized(s)
  {
    if run == [] then Init() else Step(delay, Exec(delay, run[..|run| - 1]), run[|run| - 1])
  }

  // ---------- Bursts, from the edges alone

  /** No edge follows the `i`-th within the delay. */
  predicate EndsBurst(delay: nat, edges: seq<Edge>, i: nat)
    requires i < |edges|
  {
    i == |edges| - 1 || edges[i].time + delay <= edges[i + 1].time
  }

  /** The last edges of the maximal bursts that end with key `k`. */
  ghost function BurstEnds(delay: nat, edges: seq<Edge>, k: Key): set<nat> {
    set i: nat | i < |edges| && EndsBurst(delay, edges, i) && edges[i].key == k
  }

  /** A new edge begins a burst of its own, or replaces the last edge as the end of the current one. */
  lemma BurstEndsGrow(delay: nat, edges: seq<Edge>, e: Edge, k: Key)
    ensures var merges := edges != [] && e.time < edges[|edges| - 1].time + delay;
            BurstEnds(delay, edges + [e], k) ==
            BurstEnds(delay, edges, k) - (if merges then {|edges| - 1} else {}) + (if e.key == k then {|edges|} else {})
  {
    var edges' := edges + [e];
    forall i: nat | i < |edges|
      ensures EndsBurst(delay, edges', i) <==>
              EndsBurst(delay, edges, i) && (i == |edges| - 1 ==> edges[i].time + delay <= e.time)
    {
    }
  }

  function One(b: bool): nat {
    if b then 1 else 0
  }

  ghost predicate TimerOk(delay: nat, s: State) {
    if s.edges == [] then s.timer.Off?
    else
      var last := s.edges[|s.edges| - 1];
      && last.time <= s.now
      && match s.timer
         case Off => last.time + delay <= s.now
         case Armed(expires, data) => expires == last.time + delay && data == last.key
  }

  ghost predicate CountOk(delay: nat, s: State, k: Key)
    requires Sized(s)
  {
    && s.cnt[k] + s.lost[k] + One(s.task == Scheduled(k)) + One(s.timer.Armed? && s.timer.data == k)
       == |BurstEnds(delay, s.edges, k)|
    && s.kbuf[k] == s.cnt[k] % 2
  }

  lemma BurstsGrow(delay: nat, edges: seq<Edge>, e: Edge, k: Key)
    ensures var n := |edges|;
            |BurstEnds(delay, edges + [e], k)| ==
            |BurstEnds(delay, edges, k)|
            - One(n > 0 && edges[n - 1].key == k && e.time < edges[n - 1].time + delay) + One(e.key == k)
  {
    var n := |edges|;
    var ends := BurstEnds(delay, edges, k);
    BurstEndsGrow(delay, edges, e, k);
    assert n !in ends;
    if n > 0 {
      assert n - 1 in ends <==> edges[n - 1].key == k;
    }
  }

  lemma StepCount(delay: nat, s: State, a: Action, k: Key)
    requires Sized(s) && TimerOk(delay, s) && CountOk(delay, s, k)
    ensures TimerOk(delay, Step(delay, s, a)) && CountOk(delay, Step(delay, s, a), k)
  {
    match a {
      case KeyEdge(key) =>
        BurstsGrow(delay, s.edges, Edge(s.now, key), k);
      case Tick =>
      case Expire =>
      case RunTask =>
    }
  }

  /**
   Debouncing, in every run: a key's count, plus what is still in the tasklet and the timer,
   plus what was lost, is the number of bursts whose last edge is that key's; and the byte
   that `key_read` delivers is the parity of the count.
   */
  lemma {:induction false} CountsBursts(delay: nat, run: seq<Action>, k: Key)
    ensures TimerOk(delay, Exec(delay, run)) && CountOk(delay, Exec(delay, run), k)
  {
    if run == [] {
      assert BurstEnds(delay, [], k) == {};
    } else {
      CountsBursts(delay, run[..|run| - 1], k);
      StepCount(delay, Exec(delay, run[..|run| - 1]), run[|run| - 1], k);
    }
  }

  /** The timer is not late for an edge, nor the tasklet for an expiry. */
  predicate InTime(s: State, a: Action) {
    && (a.KeyEdge? ==> !Due(s))
    && (a.Expire? && Due(s) ==> s.task.Idle?)
  }

  /** No edge in the run came while the timer was due, and the tasklet had run before each further expiry. */
  predicate HandlersKeepUp(delay: nat, run: seq<Action>) {
    run == [] ||
    (&& HandlersKeepUp(delay, run[..|run| - 1])
     && InTime(Exec(delay, run[..|run| - 1]), run[|run| - 1]))
  }

  predicate NothingLost(s: State)
    requires Sized(s)
  {
    forall k: Key :: s.lost[k] == 0
  }

  lemma LostStep(delay: nat, s: State, a: Action)
    requires Sized(s)
    ensures NothingLost(Step(delay, s, a)) <==> NothingLost(s) && InTime(s, a)
  {
    var s' := Step(delay, s, a);
    if !InTime(s, a) {
      assert s'.lost[if a.Expire? then s.task.data else s.timer.data] > 0;
    }
    assert forall k: Key :: s'.lost[k] >= s.lost[k];
  }

  lemma {:induction false} LostExactly(delay: nat, run: seq<Action>)
    ensures HandlersKeepUp(delay, run) <==> NothingLost(Exec(delay, run))
  {
    if run != [] {
      LostExactly(delay, run[..|run| - 1]);
      LostStep(delay, Exec(delay, run[..|run| - 1]), run[|run| - 1]);
    }
  }

  /** Each key's count is its number of bursts. */
  ghost predicate Debounced(delay: nat, s: State)
    requires Sized(s)
  {
    forall k: Key :: s.cnt[k] == |BurstEnds(delay, s.edges, k)|
  }

  lemma AtRest(delay: nat, run: seq<Action>, k: Key)
    requires Exec(delay, run).timer.Off? && Exec(delay, run).task.Idle?
    ensures var s := Exec(delay, run);
            s.cnt[k] + s.lost[k] == |BurstEnds(delay, s.edges, k)| && s.kbuf[k] == s.cnt[k] % 2
  {
    CountsBursts(delay, run, k);
  }

  /**
   Once timer and tasklet are at rest, every key's count is its number of bursts exactly if
   timer and tasklet kept up; the delivered bytes are the parities either way.
   */
  lemma DebouncesExactly(delay: nat, run: seq<Action>)
    requires Exec(delay, run).timer.Off? && Exec(delay, run).task.Idle?
    ensures HandlersKeepUp(delay, run) <==> Debounced(delay, Exec(delay, run))
    ensures forall k: Key :: Exec(delay, run).kbuf[k] == Exec(delay, run).cnt[k] % 2
  {
    LostExactly(delay, run);
    forall k: Key
      ensures var s := Exec(delay, run);
              (s.lost[k] == 0 <==> s.cnt[k] == |BurstEnds(delay, s.edges, k)|) && s.kbuf[k] == s.cnt[k] % 2
    {
      AtRest(delay, run, k);
    }
  }

  lemma Then(delay: nat, run: seq<Action>, a: Action) returns (run': seq<Action>)
    ensures run' == run + [a]
    ensures Exec(delay, run') == Step(delay, Exec(delay, run), a)
  {
    run' := run + [a];
    assert run'[..|run|] == run;
  }

  // ---------- What came in, and that it is worked off

  function Ticks(run: seq<Action>): nat {
    if run == [] then 0 else Ticks(run[..|run| - 1]) + if run[|run| - 1].Tick? then 1 else 0
  }

  /** The edges of a run, each at the time of the ticks before it. */
  function EdgesOf(run: seq<Action>): seq<Edge> {
    if run == [] then []
    else
      var p, last := run[..|run| - 1], run[|run| - 1];
      EdgesOf(p) + if last.KeyEdge? then [Edge(Ticks(p), last.key)] else []
  }

  /** No edge is overlooked, and none is put at another time. */
  lemma {:induction false} EdgesExactly(delay: nat, run: seq<Action>)
    ensures Exec(delay, run).now == Ticks(run) && Exec(delay, run).edges == EdgesOf(run)
  {
    if run != [] {
      EdgesExactly(delay, run[..|run| - 1]);
    }
  }

  /** An edge starts the timer for its key, whatever it was doing. */
  lemma EdgeArms(delay: nat, s: State, key: Key)
    requires Sized(s)
    ensures var s' := Step(delay, s, KeyEdge(key));
            s'.timer == Armed(s.now + delay, key) && s'.task == s.task && s'.cnt == s.cnt && s'.kbuf == s.kbuf
  {
  }

  /** A timer that is due runs out and schedules its key. */
  lemma ExpirySchedules(delay: nat, s: State)
    requires Sized(s) && Due(s)
    ensures var s' := Step(delay, s, Expire);
            && s'.timer.Off? && s'.task == Scheduled(s.timer.data)
            && s'.cnt == s.cnt && s'.kbuf == s.kbuf && s'.edges == s.edges
  {
  }

  /** A scheduled tasklet is done after it has run, and has counted its key once and no other. */
  lemma TaskletCounts(delay: nat, s: State, k: Key)
    requires Sized(s) && s.task.Scheduled?
    ensures var s' := Step(delay, s, RunTask);
            && s'.task.Idle? && s'.timer == s.timer && s'.edges == s.edges
            && s'.cnt[k] == s.cnt[k] + (if k == s.task.data then 1 else 0)
            && s'.kbuf[k] == if k == s.task.data then (s.cnt[k] + 1) % 2 else s.kbuf[k]
  {
  }

  /** More actions after `run`, none of them an edge and none of them too late. */
  predicate WorksOff(delay: nat, run: seq<Action>, run': seq<Action>) {
    && run <= run'
    && Exec(delay, run').edges == Exec(delay, run).edges
    && (HandlersKeepUp(delay, run) ==> HandlersKeepUp(delay, run'))
  }

  lemma OneMore(delay: nat, run: seq<Action>, run': seq<Action>, a: Action) returns (run'': seq<Action>)
    requires WorksOff(delay, run, run') && !a.KeyEdge? && InTime(Exec(delay, run'), a)
    ensures WorksOff(delay, run, run'') && run'' == run' + [a]
    ensures Exec(delay, run'') == Step(delay, Exec(delay, run'), a)
  {
    run'' := Then(delay, run', a);
    assert run''[..|run''| - 1] == run';
  }

  /** Time passes until the timer is due. */
  lemma {:induction false} WaitUntilDue(delay: nat, run: seq<Action>, run': seq<Action>) returns (run'': seq<Action>)
    requires WorksOff(delay, run, run') && Exec(delay, run').timer.Armed?
    ensures WorksOff(delay, run, run'') && Due(Exec(delay, run''))
    ensures Exec(delay, run'').task == Exec(delay, run').task
    decreases Exec(delay, run').timer.expires - Exec(delay, run').now
  {
    run'' := run';
    if !Due(Exec(delay, run')) {
      run'' := OneMore(delay, run, run', Tick);
      run'' := WaitUntilDue(delay, run, run'');
    }
  }

  /** Without further edges timer and tasklet come to rest, in time. */
  lemma ComesToRest(delay: nat, run: seq<Action>) returns (run': seq<Action>)
    ensures WorksOff(delay, run, run')
    ensures Exec(delay, run').timer.Off? && Exec(delay, run').task.Idle?
  {
    run' := run;
    if Exec(delay, run').task.Scheduled? {
      run' := OneMore(delay, run, run', RunTask);
    }
    if Exec(delay, run').timer.Armed? {
      run' := WaitUntilDue(delay, run, run');
      run' := OneMore(delay, run, run', Expire);
      run' := OneMore(delay, run, run', RunTask);
    }
  }

  /**
   Whenever the handlers have kept up so far, they can, and every key's count is then the number
   of bursts that the edges of the run make.
   */
  lemma EveryBurstCounts(delay: nat, run: seq<Action>) returns (run': seq<Action>)
    requires HandlersKeepUp(delay, run)
    ensures run <= run' && HandlersKeepUp(delay, run')
    ensures Exec(delay, run').timer.Off? && Exec(delay, run').task.Idle?
    ensures forall k: Key :: Exec(delay, run').cnt[k] == |BurstEnds(delay, EdgesOf(run), k)|
  {
    run' := ComesToRest(delay, run);
    EdgesExactly(delay, run);
    DebouncesExactly(delay, run');
  }

  /** It fails if the tasklet is late: a key with two bursts is counted once. */
  lemma LateTaskletLoses(key: Key) returns (run: seq<Action>)
    ensures Exec(1, run).timer.Off? && Exec(1, run).task.Idle?
    ensures Exec(1, run).cnt[key] == 1 && |BurstEnds(1, Exec(1, run).edges, key)| == 2
  {
    run := Then(1, [], KeyEdge(key));
    run := Then(1, run, Tick);
    run := Then(1, run, Expire);
    run := Then(1, run, KeyEdge(key));
    run := Then(1, run, Tick);
    run := Then(1, run, Expire);
    run := Then(1, run, RunTask);
    CountsBursts(1, run, key);
  }

  /** It fails if the timer is late: another key's edge takes the timer over, and the burst is not counted. */
  lemma LateTimerLoses(key: Key, other: Key) returns (run: seq<Action>)
    requires key != other
    ensures Exec(1, run).timer.Off? && Exec(1, run).task.Idle?
    ensures Exec(1, run).cnt[key] == 0 && |BurstEnds(1, Exec(1, run).edges, key)| == 1
  {
    run := Then(1, [], KeyEdge(key));
    run := Then(1, run, Tick);
    run := Then(1, run, KeyEdge(other));
    run := Then(1, run, Tick);
    run := Then(1, run, Expire);
    run := Then(1, run, RunTask);
    CountsBursts(1, run, key);
  }

  // ---------- The handlers on the driver's own variables

  class Keys {
    const delay: nat
    var jiffies: nat
    var pending: bool
    var expires: nat
    var timerData: Key
    var scheduled: bool
    var taskData: Key
    const cnt: array<nat>
    const kbuf: array<nat>
    ghost var lost: seq<nat>
    ghost var edges: seq<Edge>

    ghost predicate Valid()
      reads this
    {
      cnt.Length == 4 && kbuf.Length == 4 && |lost| == 4 && cnt != kbuf
    }

    ghost function View(): State
      requires Valid()
      reads this, cnt, kbuf
    {
      State(jiffies,
            if pending then Armed(expires, timerData) else Off,
            if scheduled then Scheduled(taskData) else Idle,
            cnt[..], kbuf[..], lost, edges)
    }

    constructor (delay: nat)
      ensures Valid() && fresh(cnt) && fresh(kbuf)
      ensures View() == Init() && this.delay == delay
    {
      this.delay := delay;
      jiffies, pending, expires, timerData, scheduled, taskData := 0, false, 0, 0, false, 0;
      cnt := new nat[4](_ => 0);
      kbuf := new nat[4](_ => 0);
      lost, edges := [0, 0, 0, 0], [];
    }

    /** `do_key_irq_tp` with `mod_timer` */
    method KeyIrq(key: Key)
      requires Valid()
      modifies this`pending, this`expires, this`timerData, this`lost, this`edges
      ensures Valid() && View() == Step(delay, old(View()), KeyEdge(key))
      ensures pending && expires == jiffies + delay && timerData == key
    {
      if pending && expires <= jiffies {
        lost := Bump(lost, timerData);
      }
      timerData := key;
      expires := jiffies + delay;
      pending := true;
      edges := edges + [Edge(jiffies, key)];
    }

    method TickIrq()
      requires Valid()
      modifies this`jiffies
      ensures Valid() && View() == Step(delay, old(View()), Tick)
    {
      jiffies := jiffies + 1;
    }

    /** `do_timer_key` with `tasklet_schedule` */
    method TimerExpires()
      requires Valid() && Due(View())
      modifies this`pending, this`scheduled, this`taskData, this`lost
      ensures Valid() && View() == Step(delay, old(View()), Expire)
      ensures !pending && scheduled && taskData == timerData
    {
      if scheduled {
        lost := Bump(lost, taskData);
      }
      pending := false;
      taskData := timerData;
      scheduled := true;
    }

    /** `do_bh_key` */
    method Tasklet()
      requires Valid() && scheduled
      modifies this`scheduled, cnt, kbuf
      ensures Valid() && View() == Step(delay, old(View()), RunTask)
      ensures !scheduled && cnt[..] == old(cnt[..])[taskData := old(cnt[taskData]) + 1]
      ensures kbuf[..] == old(kbuf[..])[taskData := cnt[taskData] % 2]
    {
      scheduled := false;
      var idx := taskData;
      cnt[idx] := cnt[idx] + 1;
      kbuf[idx] := cnt[idx] % 2;
    }

    /** Whatever comes next: the kernel runs a timer that is due and a tasklet that is scheduled. */
    method Handle(a: Action)
      requires Valid()
      modifies this, cnt, kbuf
      ensures Valid() && View() == Step(delay, old(View()), a)
    {
      match a {
        case KeyEdge(key) =>
          KeyIrq(key);
        case Tick =>
          TickIrq();
        case Expire =>
          if pending && expires <= jiffies {
            TimerExpires();
          }
        case RunTask =>
          if scheduled {
            Tasklet();
          }
      }
    }
  }

  /**
   The driver from loading on, through any run: its counts are those of the bursts exactly if
   the handlers kept up, once they are at rest.
   */
  method Session(delay: nat, run: seq<Action>) returns (keys: Keys)
    ensures keys.Valid() && keys.View() == Exec(delay, run)
    ensures !keys.pending && !keys.scheduled ==>
              (HandlersKeepUp(delay, run) <==> forall k: Key :: keys.cnt[k] == |BurstEnds(delay, keys.edges, k)|)
  {
    keys := new Keys(delay);
    for i := 0 to |run|
      invariant fresh(keys) && fresh(keys.cnt) && fresh(keys.kbuf)
      invariant keys.Valid() && keys.delay == delay && keys.View() == Exec(delay, run[..i])
    {
      assert run[..i + 1][..i] == run[..i];
      keys.Handle(run[i]);
    }
    assert run[..|run|] == run;
    if !keys.pending && !keys.scheduled {
      DebouncesExactly(delay, run);
    }
  }
}
