/**
 Module initialisation that acquires many resources one after the other and, when one of them
 fails, gives back what it has and nothing else.
 */
module InitLedger {

  const ENOMEM := 12

  /** What the kernel has handed to the module; a resource is never acquired twice nor released unheld. */
  class Ledger<R(==)> {
    var held: set<R>

    constructor ()
      ensures held == {}
    {
      held := {};
    }

    /** `fails` gives the error code of each acquisition that fails. */
    method Acquire(r: R, fails: map<R, int>) returns (ret: int)
      requires r !in held
      modifies this
      ensures ret == (if r in fails then fails[r] else 0)
      ensures held == old(held) + if r in fails then {} else {r}
    {
      if r in fails {
        return fails[r];
      }
      held := held + {r};
      return 0;
    }

    method Release(r: R)
      requires r in held
      modifies this
      ensures held == old(held) - {r}
    {
      held := held - {r};
    }
  }

  predicate Codes<R>(fails: map<R, int>) {
    forall r <- fails :: fails[r] < 0
  }

  // ---------- kbuf: a device number region, a class, and four resources per device

  datatype Resource = Region | Class | Buffer(i: nat) | Cdev(i: nat) | Device(i: nat) | ProcEntry(i: nat)

  datatype Found<R> = Nothing | Bad(r: R)

  /** The first acquisition for the devices from `i` on that fails. */
  function FirstBadFrom(n: nat, fails: map<Resource, int>, i: nat): (b: Found<Resource>)
    requires i <= n
    ensures b.Bad? ==> b.r in fails
    decreases n - i
  {
    if i == n then Nothing
    else if Buffer(i) in fails then Bad(Buffer(i))
    else if Cdev(i) in fails then Bad(Cdev(i))
    else if Device(i) in fails then Bad(Device(i))
    else if ProcEntry(i) in fails then Bad(ProcEntry(i))
    else FirstBadFrom(n, fails, i + 1)
  }

  /** The first acquisition of all that fails: the region, the class, then device by device. */
  function FirstBad(n: nat, fails: map<Resource, int>): (b: Found<Resource>)
    ensures b.Bad? ==> b.r in fails
  {
    if Region in fails then Bad(Region)
    else if Class in fails then Bad(Class)
    else FirstBadFrom(n, fails, 0)
  }

  /** Everything that `n` working devices need. */
  function Complete(n: nat): set<Resource> {
    if n == 0 then {Region, Class}
    else Complete(n - 1) + {Buffer(n - 1), Cdev(n - 1), Device(n - 1), ProcEntry(n - 1)}
  }

  lemma {:induction false} CompleteMembers(n: nat, r: Resource)
    ensures r in Complete(n) <==> r.Region? || r.Class? || r.i < n
  {
    if n > 0 {
      CompleteMembers(n - 1, r);
    }
  }

  /** What `kbuf_init` returns when resource `r` is the first that fails: for two kinds, the 0 of `cdev_add`. */
  function CodeFor(r: Resource, fails: map<Resource, int>): int
    requires r in fails
  {
    match r
    case Buffer(_) => -ENOMEM
    case Device(_) => 0
    case ProcEntry(_) => 0
    case _ => fails[r]
  }

  /** The body of the loop of `kbuf_init` for device `i`. */
  method SetUp(ledger: Ledger<Resource>, i: nat, fails: map<Resource, int>) returns (ok: bool, ret: int)
    requires Codes(fails) && ledger.held == Complete(i)
    modifies ledger
    ensures var b := FirstBadFrom(i + 1, fails, i);
            && (ok <==> b.Nothing?)
            && (ok ==> ledger.held == Complete(i + 1) && ret == 0)
            && (!ok ==> ledger.held == Complete(i) && ret == CodeFor(b.r, fails))
  {
    CompleteMembers(i, Buffer(i));
    CompleteMembers(i, Cdev(i));
    CompleteMembers(i, Device(i));
    CompleteMembers(i, ProcEntry(i));
    ok := false;
    var memory := ledger.Acquire(Buffer(i), fails);
    if memory < 0 {
      ret := -ENOMEM;
      return;
    }
    ret := ledger.Acquire(Cdev(i), fails);
    if ret < 0 {
      ledger.Release(Buffer(i));
      return;
    }
    var device := ledger.Acquire(Device(i), fails);
    if device < 0 {
      ledger.Release(Cdev(i));
      ledger.Release(Buffer(i));
      return;
    }
    var entry := ledger.Acquire(ProcEntry(i), fails);
    if entry < 0 {
      ledger.Release(Cdev(i));
      ledger.Release(Buffer(i));
      ledger.Release(Device(i));
      return;
    }
    ok := true;
  }

  /** `while (i--)` of the error path of `kbuf_init` and of `kbuf_exit`, then the class and the region. */
  method TearDown(ledger: Ledger<Resource>, n: nat)
    requires ledger.held == Complete(n)
    modifies ledger
    ensures ledger.held == {}
  {
    var i := n;
    while i > 0
      invariant 0 <= i <= n
      invariant ledger.held == Complete(i)
    {
      i := i - 1;
      CompleteMembers(i, Device(i));
      CompleteMembers(i, Buffer(i));
      CompleteMembers(i, Cdev(i));
      CompleteMembers(i, ProcEntry(i));
      ledger.Release(Device(i));
      ledger.Release(Buffer(i));
      ledger.Release(Cdev(i));
      ledger.Release(ProcEntry(i));
    }
    ledger.Release(Class);
    ledger.Release(Region);
  }

  /** Device `i`'s node or proc entry cannot be made, while all that is acquired before it can. */
  predicate NodeFails(fails: map<Resource, int>, i: nat) {
    && (Device(i) in fails || ProcEntry(i) in fails)
    && (forall j | 0 <= j <= i :: Buffer(j) !in fails && Cdev(j) !in fails)
    && (forall j | 0 <= j < i :: Device(j) !in fails && ProcEntry(j) !in fails)
  }

  /** Region and class can be had, and the first thing that cannot is some device's node or proc entry. */
  predicate FailsSilently(n: nat, fails: map<Resource, int>) {
    && Region !in fails && Class !in fails
    && exists i | 0 <= i < n :: NodeFails(fails, i)
  }

  predicate Silent(b: Found<Resource>) {
    b.Bad? && (b.r.Device? || b.r.ProcEntry?)
  }

  /** The search finds nothing among all resources needed exactly if none of them fails. */
  lemma {:induction false} NoneFailExactly(n: nat, fails: map<Resource, int>, i: nat)
    requires i <= n
    ensures FirstBadFrom(n, fails, i).Nothing? <==>
            forall j | i <= j < n ::
              Buffer(j) !in fails && Cdev(j) !in fails && Device(j) !in fails && ProcEntry(j) !in fails
    decreases n - i
  {
    if i < n {
      NoneFailExactly(n, fails, i + 1);
    }
  }

  /** With nothing failing before device `i`, the search finds a node or proc entry exactly if one fails silently. */
  lemma {:induction false} SilentFrom(n: nat, fails: map<Resource, int>, i: nat)
    requires i <= n
    requires forall j | 0 <= j < i ::
               Buffer(j) !in fails && Cdev(j) !in fails && Device(j) !in fails && ProcEntry(j) !in fails
    ensures Silent(FirstBadFrom(n, fails, i)) <==> exists j | i <= j < n :: NodeFails(fails, j)
    decreases n - i
  {
    if i < n {
      if Buffer(i) !in fails && Cdev(i) !in fails {
        if Device(i) in fails || ProcEntry(i) in fails {
          assert NodeFails(fails, i);
        } else {
          SilentFrom(n, fails, i + 1);
        }
      }
    }
  }

  /** The acquisitions of `kbuf_init` for `n` devices, and the error paths. */
  method AcquireAll(ledger: Ledger<Resource>, n: nat, fails: map<Resource, int>) returns (ret: int)
    requires Codes(fails) && ledger.held == {}
    modifies ledger
    ensures match FirstBad(n, fails)
            case Nothing => ledger.held == Complete(n) && ret == 0
            case Bad(r) => ledger.held == {} && ret == CodeFor(r, fails)
  {
    ret := ledger.Acquire(Region, fails);
    if ret != 0 {
      return;
    }
    ret := ledger.Acquire(Class, fails);
    if ret < 0 {
      ledger.Release(Region);
      return;
    }
    var i := 0;
    while i < n
      invariant 0 <= i <= n && ret == 0
      invariant ledger.held == Complete(i)
      invariant FirstBad(n, fails) == FirstBadFrom(n, fails, i)
    {
      var ok;
      ok, ret := SetUp(ledger, i, fails);
      if !ok {
        TearDown(ledger, i);
        return;
      }
      i := i + 1;
    }
  }

  /**
   `kbuf_init` for `n` devices: afterwards the module has everything or nothing, whichever
   acquisition failed; everything exactly if nothing it needs fails.  It returns 0 with nothing
   held exactly if it fails silently; then the module stays loaded, and its exit would release
   what it does not hold.
   */
  method KbufInit(ledger: Ledger<Resource>, n: nat, fails: map<Resource, int>) returns (ret: int)
    requires Codes(fails) && ledger.held == {}
    modifies ledger
    ensures match FirstBad(n, fails)
            case Nothing => ledger.held == Complete(n) && ret == 0
            case Bad(r) => ledger.held == {} && ret == CodeFor(r, fails)
    ensures forall r | FirstBad(n, fails) == Bad(r) ::
              ret == match r
                     case Region => fails[Region]
                     case Class => fails[Class]
                     case Cdev(i) => fails[Cdev(i)]
                     case Buffer(_) => -12
                     case _ => 0
    ensures ledger.held == Complete(n) <==> Complete(n) !! fails.Keys
    ensures ret == 0 && ledger.held == {} <==> FailsSilently(n, fails)
    ensures ret == 0 ==> (ledger.held == Complete(n) <==> !FailsSilently(n, fails))
  {
    SuccessExactly(n, fails);
    SilentFrom(n, fails, 0);
    CompleteMembers(n, Region);
    ret := AcquireAll(ledger, n, fails);
  }

  /** The search finds nothing exactly if no resource the module needs can fail. */
  lemma SuccessExactly(n: nat, fails: map<Resource, int>)
    ensures FirstBad(n, fails).Nothing? <==> Complete(n) !! fails.Keys
  {
    match FirstBad(n, fails)
    case Bad(r) =>
      BadIsNeeded(n, fails, 0);
      CompleteMembers(n, r);
      assert r in Complete(n) && r in fails.Keys;
    case Nothing =>
      forall r | r in Complete(n)
        ensures r !in fails.Keys
      {
        NoneFailExactly(n, fails, 0);
        CompleteMembers(n, r);
      }
  }

  lemma {:induction false} BadIsNeeded(n: nat, fails: map<Resource, int>, i: nat)
    requires i <= n
    ensures var b := FirstBadFrom(n, fails, i); b.Bad? ==> !b.r.Region? && !b.r.Class? && b.r.i < n
    decreases n - i
  {
    if i < n {
      BadIsNeeded(n, fails, i + 1);
    }
  }

  /** It happens: the first device node cannot be made, and the caller is told 0. */
  method SilentFailure(n: nat) returns (ret: int, held: set<Resource>)
    requires n > 0
    ensures ret == 0 && held == {}
  {
    var ledger := new Ledger<Resource>();
    var fails := map[Device(0) := -ENOMEM];
    assert NodeFails(fails, 0);
    ret := KbufInit(ledger, n, fails);
    held := ledger.held;
  }

  /** The place of an acquisition in the order in which `kbuf_init` makes them. */
  function Place(r: Resource): nat {
    match r
    case Region => 0
    case Class => 1
    case Buffer(i) => 4 * i + 2
    case Cdev(i) => 4 * i + 3
    case Device(i) => 4 * i + 4
    case ProcEntry(i) => 4 * i + 5
  }

  lemma {:induction false} FirstFrom(n: nat, fails: map<Resource, int>, i: nat)
    requires i <= n
    ensures match FirstBadFrom(n, fails, i)
            case Nothing => forall r | r in fails :: Place(r) < 4 * i + 2 || Place(r) >= 4 * n + 2
            case Bad(r) => 4 * i + 2 <= Place(r) < 4 * n + 2
                           && forall q | q in fails && q != r :: Place(q) < 4 * i + 2 || Place(q) > Place(r)
    decreases n - i
  {
    if i < n {
      FirstFrom(n, fails, i + 1);
      forall r: Resource
        ensures 4 * i + 2 <= Place(r) < 4 * i + 6 <==> r in {Buffer(i), Cdev(i), Device(i), ProcEntry(i)}
      {
      }
    }
  }

  /** The failure that counts is the first in that order among those that are needed. */
  lemma FirstBadIsFirst(n: nat, fails: map<Resource, int>)
    ensures match FirstBad(n, fails)
            case Nothing => forall r | r in fails :: Place(r) >= 4 * n + 2
            case Bad(r) => r in fails && Place(r) < 4 * n + 2
                           && forall q | q in fails && q != r :: Place(r) < Place(q)
  {
    FirstFrom(n, fails, 0);
    forall r: Resource
      ensures Place(r) < 2 <==> r == Region || r == Class
    {
    }
  }

  /** `kbuf_exit` after an initialisation that completed. */
  method KbufExit(ledger: Ledger<Resource>, n: nat)
    requires ledger.held == Complete(n)
    modifies ledger
    ensures ledger.held == {}
  {
    TearDown(ledger, n);
  }

  /** Loading and, if that returned 0, unloading: nothing is left held, unless the loading failed silently. */
  method Session(n: nat, fails: map<Resource, int>) returns (ret: int, held: set<Resource>)
    requires Codes(fails) && !FailsSilently(n, fails)
    ensures held == {}
    ensures ret == 0 <==> Complete(n) !! fails.Keys
  {
    var ledger := new Ledger<Resource>();
    CompleteMembers(n, Region);
    ret := KbufInit(ledger, n, fails);
    if ret == 0 {
      KbufExit(ledger, n);
    }
    held := ledger.held;
  }

  // ---------- irq_shared: two handlers on each key's line

  const KEYS: nat := 4

  datatype Handler = First(key: nat) | Second(key: nat)

  function Registered(n: nat): set<Handler> {
    (set i | 0 <= i < n :: First(i)) + (set i | 0 <= i < n :: Second(i))
  }

  /** The first request for the keys from `i` on that is refused. */
  function FirstRefused(fails: map<Handler, int>, i: nat): (b: Found<Handler>)
    requires i <= KEYS
    ensures b.Bad? ==> b.r in fails
    decreases KEYS - i
  {
    if i == KEYS then Nothing
    else if First(i) in fails then Bad(First(i))
    else if Second(i) in fails then Bad(Second(i))
    else FirstRefused(fails, i + 1)
  }

  lemma {:induction false} RefusedExactly(fails: map<Handler, int>, i: nat)
    requires i <= KEYS
    ensures FirstRefused(fails, i).Nothing? <==> (Registered(KEYS) - Registered(i)) !! fails.Keys
    ensures Registered(0) == {}
    decreases KEYS - i
  {
    if i < KEYS {
      RefusedExactly(fails, i + 1);
      var rest := Registered(KEYS) - Registered(i + 1);
      assert Registered(KEYS) - Registered(i) == rest + {First(i), Second(i)};
    }
  }

  /** The place of a request in the order in which `request_irq_key` makes them. */
  function Turn(h: Handler): nat {
    match h
    case First(key) => 2 * key
    case Second(key) => 2 * key + 1
  }

  /** The refusal that counts is the first in that order. */
  lemma {:induction false} FirstRefusedIsFirst(fails: map<Handler, int>, i: nat)
    requires i <= KEYS
    ensures match FirstRefused(fails, i)
            case Nothing => forall h | h in fails :: Turn(h) < 2 * i || Turn(h) >= 2 * KEYS
            case Bad(h) => 2 * i <= Turn(h) < 2 * KEYS
                           && forall g | g in fails && g != h :: Turn(g) < 2 * i || Turn(g) > Turn(h)
    decreases KEYS - i
  {
    if i < KEYS {
      FirstRefusedIsFirst(fails, i + 1);
      forall h: Handler
        ensures 2 * i <= Turn(h) < 2 * i + 2 <==> h in {First(i), Second(i)}
      {
      }
    }
  }

  /** `request_irq_key`: all eight handlers are registered, or none and the first error is returned. */
  method RequestIrqKeys(ledger: Ledger<Handler>, fails: map<Handler, int>) returns (ret: int)
    requires Codes(fails) && ledger.held == {}
    modifies ledger
    ensures match FirstRefused(fails, 0)
            case Nothing => ret == 0 && ledger.held == Registered(4)
            case Bad(h) => ret == fails[h] < 0 && ledger.held == {}
    ensures ledger.held == Registered(KEYS) <==> Registered(KEYS) !! fails.Keys
  {
    RefusedExactly(fails, 0);
    assert First(0) in Registered(KEYS);
    var i := 0;
    ret := 0;
    while i < KEYS
      invariant 0 <= i <= KEYS && ret == 0
      invariant ledger.held == Registered(i)
      invariant FirstRefused(fails, 0) == FirstRefused(fails, i)
    {
      ret := ledger.Acquire(First(i), fails);
      if ret >= 0 {
        ret := ledger.Acquire(Second(i), fails);
        if ret < 0 {
          ledger.Release(First(i));
        }
      }
      if ret < 0 {
        FreeKeys(ledger, i);
        return;
      }
      i := i + 1;
    }
  }

  /** `free_irq` of both handlers of the first `n` keys, as the error path does it, downwards. */
  method FreeKeys(ledger: Ledger<Handler>, n: nat)
    requires ledger.held == Registered(n)
    modifies ledger
    ensures ledger.held == {}
  {
    var i := n;
    while i > 0
      invariant 0 <= i <= n
      invariant ledger.held == Registered(i)
    {
      i := i - 1;
      ledger.Release(First(i));
      ledger.Release(Second(i));
      assert ledger.held == Registered(i);
    }
  }

  /** `free_irq_key` on unloading, upwards. */
  method FreeIrqKeys(ledger: Ledger<Handler>)
    requires ledger.held == Registered(KEYS)
    modifies ledger
    ensures ledger.held == {}
  {
    for i := 0 to KEYS
      invariant ledger.held == Registered(KEYS) - Registered(i)
    {
      ledger.Release(First(i));
      ledger.Release(Second(i));
      assert ledger.held == Registered(KEYS) - Registered(i + 1);
    }
  }
}
