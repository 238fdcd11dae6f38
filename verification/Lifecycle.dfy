/**
 Process resources and their owners (bootstrap/container.py, entrypoints/worker/lifecycle.py). The ledger
 records, in order, every resource that a factory created and every close call. Close calls may raise
 (`Exception`s only); factories and probes may raise anything.
 */
module Lifecycle {
  import opened Common

  type Resource = nat

  datatype Event = Opened(r: Resource) | Closed(r: Resource)

  datatype World = World(log: seq<Event>, next: Resource)

  datatype State = New | Started | Stopped

  datatype Container = Container(state: State, resources: seq<Resource>)

  const RESOURCES: nat := 4      // database, redis, minio, http
  const PROBED: nat := 3         // all but http

  /** The first thing that raises during a start. */
  datatype Fault = NoFault | FactoryRaises(i: nat) | ProbeRaises(i: nat)

  predicate StartFails(fault: Fault) {
    (fault.FactoryRaises? && fault.i < RESOURCES) || (fault.ProbeRaises? && fault.i < PROBED)
  }

  /** How many resources a start creates. */
  function Created(fault: Fault): nat {
    if !StartFails(fault) then RESOURCES else if fault.FactoryRaises? then fault.i else fault.i + 1
  }

  function Range(first: Resource, n: nat): (r: seq<Resource>)
    ensures |r| == n && forall i :: 0 <= i < n ==> r[i] == first + i
  {
    seq(n, i => first + i)
  }

  function Opens(rs: seq<Resource>): (r: seq<Event>)
    ensures |r| == |rs|
  {
    seq(|rs|, i requires 0 <= i < |rs| => Opened(rs[i]))
  }

  /** Close calls in reverse order of creation. */
  function Closes(rs: seq<Resource>): (r: seq<Event>)
    ensures |r| == |rs|
  {
    seq(|rs|, i requires 0 <= i < |rs| => Closed(rs[|rs| - 1 - i]))
  }

  // ----- the operations -----

  function StartContainer(w: World, c: Container, fault: Fault): (World, Container, bool) {
    if c.state != New then (w, c, true)
    else
      var rs := Range(w.next, Created(fault));
      var grown := World(w.log + Opens(rs), w.next + |rs|);
      if StartFails(fault)
      then (grown.(log := grown.log + Closes(c.resources + rs)), Container(Stopped, []), true)
      else (grown, Container(Started, c.resources + rs), false)
  }

  /** When a close call raises, the error is reported and the state is not advanced. */
  function CloseContainer(w: World, c: Container, raising: set<Resource>): (World, Container, bool) {
    if c.state == Stopped then (w, c, false)
    else
      var failed := exists r :: r in c.resources && r in raising;
      (w.(log := w.log + Closes(c.resources)), Container(if failed then c.state else Stopped, []), failed)
  }

  datatype Runtime = Runtime(state: State, container: Option<Container>, runner: Option<nat>)

  datatype Call =
    | RunOperation(factoryRaises: bool, fault: Fault, operationRaises: bool)
    | CloseRuntime(raising: set<Resource>)

  // A call raises by itself, or hands over to the operation, or just ends.
  datatype Outcome = Raised | Operated(raised: bool) | Done

  // `loops` counts the close calls of every event-loop runner ever made.
  datatype After = After(w: World, loops: seq<nat>, rt: Runtime, outcome: Outcome)

  /** One call of `run` or `close` on the worker runtime. */
  function Perform(w: World, loops: seq<nat>, rt: Runtime, call: Call): After
    requires rt.runner.Some? ==> rt.runner.value < |loops|
  {
    match call
    case RunOperation(factoryRaises, fault, operationRaises) =>
      if rt.state == Stopped then After(w, loops, rt, Raised)
      else if rt.state == Started then
        After(w, loops, rt, if rt.container.None? || rt.runner.None? then Raised else Operated(operationRaises))
      else if factoryRaises then After(w, loops + [0], rt, Raised)
      else
        var (grown, c, raised) := StartContainer(w, Container(New, []), fault);
        if raised then After(grown, loops + [1], rt, Raised)
        else After(grown, loops + [0], Runtime(Started, Some(c), Some(|loops|)), Operated(operationRaises))
    case CloseRuntime(raising) =>
      if rt.state == Stopped then After(w, loops, rt, Done)
      else
        var (shrunk, c, raised) :=
          if rt.runner.Some? && rt.container.Some? then CloseContainer(w, rt.container.value, raising)
          else (w, Container(Stopped, []), false);
        var closed := if rt.runner.Some? then loops[rt.runner.value := loops[rt.runner.value] + 1] else loops;
        After(shrunk, closed, Runtime(Stopped, None, None), if raised then Raised else Done)
  }

  /** n resources have been created since the world was `w` and `held` were held. */
  ghost predicate Grown(w: World, held: seq<Resource>, n: nat, after: World, resources: seq<Resource>) {
    var rs := Range(w.next, n);
    after == World(w.log + Opens(rs), w.next + n) && resources == held + rs
  }

  lemma OneMore(w: World, held: seq<Resource>, n: nat)
    ensures Range(w.next, n + 1) == Range(w.next, n) + [w.next + n]
    ensures w.log + Opens(Range(w.next, n + 1)) == (w.log + Opens(Range(w.next, n))) + [Opened(w.next + n)]
    ensures held + Range(w.next, n + 1) == (held + Range(w.next, n)) + [w.next + n]
    ensures Grown(w, held, 0, w, held)
  {
    assert Opens(Range(w.next, n + 1)) == Opens(Range(w.next, n)) + [Opened(w.next + n)];
    assert w.log + Opens(Range(w.next, 0)) == w.log && held + Range(w.next, 0) == held;
  }

  lemma GrowsByOne(w: World, held: seq<Resource>, n: nat, now: World, resources: seq<Resource>)
    requires Grown(w, held, n, now, resources)
    ensures Grown(w, held, n + 1, World(now.log + [Opened(now.next)], now.next + 1), resources + [now.next])
  {
    OneMore(w, held, n);
  }

  // ----- the objects -----

  class Ledger {
    var log: seq<Event>
    var next: Resource

    constructor ()
      ensures View() == World([], 0)
    {
      log, next := [], 0;
    }

    function View(): World
      reads this
    {
      World(log, next)
    }
  }

  class ApplicationContainer {
    const ledger: Ledger
    var state: State
    var resources: seq<Resource>

    constructor (ledger: Ledger)
      ensures this.ledger == ledger && View() == Container(New, [])
    {
      this.ledger, state, resources := ledger, New, [];
    }

    function View(): Container
      reads this
    {
      Container(state, resources)
    }

    method Create(raises: bool) returns (ok: bool)
      modifies this, ledger
      ensures ok == !raises && state == old(state)
      ensures raises ==> resources == old(resources) && ledger.View() == old(ledger.View())
      ensures !raises ==>
        && resources == old(resources) + [old(ledger.next)]
        && ledger.View() == World(old(ledger.log) + [Opened(old(ledger.next))], old(ledger.next) + 1)
    {
      if raises { return false; }
      ledger.log := ledger.log + [Opened(ledger.next)];
      resources := resources + [ledger.next];
      ledger.next := ledger.next + 1;
      ok := true;
    }

    method CreateAndProbe(createRaises: bool, probeRaises: bool) returns (ok: bool)
      modifies this, ledger
      ensures ok == (!createRaises && !probeRaises) && state == old(state)
      ensures createRaises ==> resources == old(resources) && ledger.View() == old(ledger.View())
      ensures !createRaises ==>
        && resources == old(resources) + [old(ledger.next)]
        && ledger.View() == World(old(ledger.log) + [Opened(old(ledger.next))], old(ledger.next) + 1)
    {
      var created := Create(createRaises);
      ok := created && !probeRaises;
    }

    /** Pops and closes until nothing is left, whatever the close calls raise. */
    method CloseResources(raising: set<Resource>) returns (failed: bool)
      modifies this, ledger
      ensures resources == [] && state == old(state)
      ensures ledger.View() == World(old(ledger.log) + Closes(old(resources)), old(ledger.next))
      ensures failed <==> exists r :: r in old(resources) && r in raising
    {
      failed := false;
      ghost var all := resources;
      while resources != []
        invariant resources <= all && state == old(state) && ledger.next == old(ledger.next)
        invariant ledger.log == old(ledger.log) + Closes(all)[..|all| - |resources|]
        invariant failed <==> exists i :: |resources| <= i < |all| && all[i] in raising
        decreases |resources|
      {
        var resource := resources[|resources| - 1];
        resources := resources[..|resources| - 1];
        ledger.log := ledger.log + [Closed(resource)];
        if resource in raising { failed := true; }
        assert all[|resources|] == resource;
      }
      assert Closes(all)[..|all|] == Closes(all);
    }

    /** The body of the `try` in `start`. */
    method CreateResources(fault: Fault) returns (ok: bool)
      modifies this, ledger
      ensures ok == !StartFails(fault) && state == old(state)
      ensures Grown(old(ledger.View()), old(resources), Created(fault), ledger.View(), resources)
    {
      ghost var w, held := ledger.View(), resources;
      OneMore(w, held, 0);
      GrowsByOne(w, held, 0, ledger.View(), resources);
      ok := CreateAndProbe(fault == FactoryRaises(0), fault == ProbeRaises(0));
      if !ok { return; }
      GrowsByOne(w, held, 1, ledger.View(), resources);
      ok := CreateAndProbe(fault == FactoryRaises(1), fault == ProbeRaises(1));
      if !ok { return; }
      GrowsByOne(w, held, 2, ledger.View(), resources);
      ok := CreateAndProbe(fault == FactoryRaises(2), fault == ProbeRaises(2));
      if !ok { return; }
      GrowsByOne(w, held, 3, ledger.View(), resources);
      ok := Create(fault == FactoryRaises(3));
    }

    /** When it fails, what the close calls raise is suppressed: the outcome does not depend on it. */
    method Start(fault: Fault, raising: set<Resource>) returns (raised: bool)
      modifies this, ledger
      ensures (ledger.View(), View(), raised) == StartContainer(old(ledger.View()), old(View()), fault)
    {
      if state != New { return true; }
      var ok := CreateResources(fault);
      if !ok {
        var failed := CloseResources(raising);
        state := Stopped;
        return true;
      }
      state := Started;
      raised := false;
    }

    method Close(raising: set<Resource>) returns (raised: bool)
      modifies this, ledger
      ensures (ledger.View(), View(), raised) == CloseContainer(old(ledger.View()), old(View()), raising)
    {
      if state == Stopped { return false; }
      raised := CloseResources(raising);
      if !raised { state := Stopped; }
    }
  }

  class Loops {
    var closes: seq<nat>

    constructor ()
      ensures closes == []
    {
      closes := [];
    }

    method Open() returns (runner: nat)
      modifies this
      ensures runner == |old(closes)| && closes == old(closes) + [0]
    {
      runner := |closes|;
      closes := closes + [0];
    }

    method Close(runner: nat)
      requires runner < |closes|
      modifies this
      ensures closes == old(closes)[runner := old(closes)[runner] + 1]
    {
      closes := closes[runner := closes[runner] + 1];
    }
  }

  class WorkerRuntime {
    const ledger: Ledger
    const loops: Loops
    var state: State
    var container: ApplicationContainer?
    var runner: Option<nat>

    constructor (ledger: Ledger, loops: Loops)
      ensures this.ledger == ledger && this.loops == loops && Valid() && View() == Runtime(New, None, None)
    {
      this.ledger, this.loops, state, container, runner := ledger, loops, New, null, None;
    }

    ghost predicate Valid()
      reads this, loops
    {
      && (container != null ==> container.ledger == ledger)
      && (runner.Some? ==> runner.value < |loops.closes|)
    }

    function View(): Runtime
      reads this, container
    {
      Runtime(state, if container == null then None else Some(container.View()), runner)
    }

    ghost function Now(outcome: Outcome): After
      reads this, container, ledger, loops
    {
      After(ledger.View(), loops.closes, View(), outcome)
    }

    /** `run`: starts the runtime if need be and hands the started container to the operation. */
    method Run(factoryRaises: bool, fault: Fault, raising: set<Resource>, operationRaises: bool)
      returns (outcome: Outcome)
      requires Valid()
      modifies this, ledger, loops
      ensures Valid()
      ensures Now(outcome)
           == Perform(old(ledger.View()), old(loops.closes), old(View()),
                      RunOperation(factoryRaises, fault, operationRaises))
      ensures outcome.Operated? ==> container != null
    {
      if state == Stopped { return Raised; }
      if state == Started {
        if container == null || runner.None? { return Raised; }
        return Operated(operationRaises);
      }
      var own := loops.Open();
      if factoryRaises { return Raised; }
      var created := new ApplicationContainer(ledger);
      var raised := created.Start(fault, raising);
      if raised {
        loops.Close(own);
        return Raised;
      }
      runner := Some(own);
      container := created;
      state := Started;
      outcome := Operated(operationRaises);
    }

    method Close(raising: set<Resource>) returns (outcome: Outcome)
      requires Valid()
      modifies this, container, ledger, loops
      ensures Valid()
      ensures Now(outcome) == Perform(old(ledger.View()), old(loops.closes), old(View()), CloseRuntime(raising))
    {
      if state == Stopped { return Done; }
      var raised := false;
      if runner.Some? && container != null {
        raised := container.Close(raising);
      }
      if runner.Some? { loops.Close(runner.value); }
      runner := None;
      container := null;
      state := Stopped;
      outcome := if raised then Raised else Done;
    }
  }

  // ----- the discipline -----

  /**
   The resources open after a log, oldest first; None if the log breaks the discipline: a resource created
   twice, or a close call for anything but the newest open resource.
   */
  function Replay(log: seq<Event>): Option<seq<Resource>> {
    if log == [] then Some([])
    else
      var before := Replay(log[..|log| - 1]);
      if before.None? then None
      else match log[|log| - 1]
        case Opened(r) => if Opened(r) in log[..|log| - 1] then None else Some(before.value + [r])
        case Closed(r) =>
          var n := |before.value|;
          if n == 0 || before.value[n - 1] != r then None else Some(before.value[..n - 1])
  }

  function Times(log: seq<Event>, e: Event): nat {
    if log == [] then 0
    else Times(log[..|log| - 1], e) + if log[|log| - 1] == e then 1 else 0
  }

  ghost predicate Distinct(rs: seq<Resource>) {
    forall i, j :: 0 <= i < j < |rs| ==> rs[i] != rs[j]
  }

  lemma {:induction false} TimesIsMembership(log: seq<Event>, e: Event)
    ensures Times(log, e) > 0 <==> e in log
  {
    if log != [] {
      TimesIsMembership(log[..|log| - 1], e);
      assert log == log[..|log| - 1] + [log[|log| - 1]];
    }
  }

  /** Under the discipline a resource is created at most once, and closed once unless it is still open. */
  lemma {:induction false} ClosedExactlyOnce(log: seq<Event>, r: Resource)
    requires Replay(log).Some?
    ensures Distinct(Replay(log).value)
    ensures Times(log, Opened(r)) <= 1
    ensures Times(log, Closed(r)) == Times(log, Opened(r)) - if r in Replay(log).value then 1 else 0
  {
    if log != [] {
      var n := |log| - 1;
      var before := log[..n];
      ClosedExactlyOnce(before, r);
      TimesIsMembership(before, Opened(r));
      match log[n]
      case Opened(s) =>
        ClosedExactlyOnce(before, s);
        TimesIsMembership(before, Opened(s));
      case Closed(s) =>
        var open := Replay(before).value;
        assert open == open[..|open| - 1] + [s];
    }
  }

  /** r lies below s in the stack of open resources. */
  ghost predicate Below(open: seq<Resource>, r: Resource, s: Resource) {
    exists a, b :: 0 <= a < b < |open| && open[a] == r && open[b] == s
  }

  /** While both are open, the resource created first lies below the one created second. */
  lemma {:induction false} OlderIsBelow(log: seq<Event>, i: nat, j: nat, r: Resource, s: Resource)
    requires Replay(log).Some? && i < j < |log| && log[i] == Opened(r) && log[j] == Opened(s)
    requires r in Replay(log).value && s in Replay(log).value
    ensures Below(Replay(log).value, r, s)
  {
    var n := |log| - 1;
    var before := log[..n];
    var was, open := Replay(before).value, Replay(log).value;
    assert before[i] == Opened(r);
    ClosedExactlyOnce(before, r);
    if j == n {
      assert r != s && open == was + [s];
      assert r in was;
      var a :| 0 <= a < |was| && was[a] == r;
      assert open[a] == r && open[|was|] == s;
    } else {
      assert before[j] == Opened(s);
      assert r in was && s in was;
      OlderIsBelow(before, i, j, r, s);
      var a, b :| 0 <= a < b < |was| && was[a] == r && was[b] == s;
      if log[n].Closed? {
        var c :| 0 <= c < |open| && open[c] == s;
        assert was[c] == s;
      }
      assert open[a] == r && open[b] == s;
    }
  }

  lemma {:induction false} PrefixReplays(log: seq<Event>, k: nat)
    requires Replay(log).Some? && k <= |log|
    ensures Replay(log[..k]).Some?
  {
    if k == |log| {
      assert log[..k] == log;
    } else {
      PrefixReplays(log[..|log| - 1], k);
      assert log[..|log| - 1][..k] == log[..k];
    }
  }

  lemma {:induction false} TimesGrows(log: seq<Event>, k: nat, e: Event)
    requires k <= |log|
    ensures Times(log[..k], e) <= Times(log, e)
  {
    if k == |log| {
      assert log[..k] == log;
    } else {
      TimesGrows(log[..|log| - 1], k, e);
      assert log[..|log| - 1][..k] == log[..k];
    }
  }

  /** When a resource is about to be closed, nothing created after it is open any more. */
  lemma NewestIsClosedFirst(log: seq<Event>, i: nat, j: nat)
    requires Replay(log).Some? && i < j < |log| && log[i].Opened? && log[j].Opened?
    requires var open := Replay(log).value; open != [] && open[|open| - 1] == log[i].r
    ensures log[j].r !in Replay(log).value
  {
    var open := Replay(log).value;
    ClosedExactlyOnce(log, log[i].r);
    if log[j].r in open {
      OlderIsBelow(log, i, j, log[i].r, log[j].r);
    }
  }

  lemma ClosedSomewhere(log: seq<Event>, j: nat)
    requires Replay(log).Some? && j < |log| && log[j].Opened? && log[j].r !in Replay(log).value
    ensures exists l :: j < l < |log| && log[l] == Closed(log[j].r)
  {
    var s := log[j].r;
    ClosedExactlyOnce(log, s);
    TimesIsMembership(log, Opened(s));
    TimesIsMembership(log, Closed(s));
    var l :| 0 <= l < |log| && log[l] == Closed(s);
    if l <= j { NotClosedBeforeOpened(log, l, j); }
  }

  lemma ClosesTheNewest(log: seq<Event>, k: nat)
    requires Replay(log).Some? && k < |log| && log[k].Closed?
    ensures Replay(log[..k]).Some?
    ensures var open := Replay(log[..k]).value; open != [] && open[|open| - 1] == log[k].r
  {
    PrefixReplays(log, k + 1);
    assert log[..k + 1][..k] == log[..k];
  }

  /** Reverse order: before a resource is closed, everything created after it has been closed. */
  lemma ClosedInReverse(log: seq<Event>, i: nat, j: nat, k: nat)
    requires Replay(log).Some? && i < j < k < |log|
    requires log[i].Opened? && log[j].Opened? && log[k] == Closed(log[i].r)
    ensures exists l :: j < l < k && log[l] == Closed(log[j].r)
  {
    ClosesTheNewest(log, k);
    NewestIsClosedFirst(log[..k], i, j);
    ClosedSomewhere(log[..k], j);
  }

  lemma NotClosedBeforeOpened(log: seq<Event>, l: nat, j: nat)
    requires Replay(log).Some? && l <= j < |log| && log[j].Opened?
    ensures log[l] != Closed(log[j].r)
  {
    PrefixReplays(log, j + 1);
    assert log[..j + 1][..j] == log[..j];
    ClosedExactlyOnce(log[..j], log[j].r);
    TimesIsMembership(log[..j], Opened(log[j].r));
    TimesIsMembership(log[..j], Closed(log[j].r));
    if l < j { assert log[..j][l] == log[l]; }
  }

  // ----- whole runs -----

  /** The ledger obeys the discipline, and what is open is exactly `open`. */
  ghost predicate Accounts(w: World, open: seq<Resource>) {
    && Replay(w.log) == Some(open)
    && (forall r: Resource :: Opened(r) in w.log ==> r < w.next)
  }

  lemma {:induction false} OpeningReplays(w: World, open: seq<Resource>, n: nat)
    requires Accounts(w, open)
    ensures Accounts(World(w.log + Opens(Range(w.next, n)), w.next + n), open + Range(w.next, n))
  {
    if n == 0 {
      OneMore(w, open, 0);
    } else {
      OpeningReplays(w, open, n - 1);
      OneMore(w, open, n - 1);
      OpenOneReplays(World(w.log + Opens(Range(w.next, n - 1)), w.next + n - 1), open + Range(w.next, n - 1));
    }
  }

  lemma OpenOneReplays(w: World, open: seq<Resource>)
    requires Accounts(w, open)
    ensures Accounts(World(w.log + [Opened(w.next)], w.next + 1), open + [w.next])
  {
    var log := w.log + [Opened(w.next)];
    assert log[..|w.log|] == w.log && log[|w.log|] == Opened(w.next);
  }

  lemma {:induction false} ClosingReplays(w: World, below: seq<Resource>, rs: seq<Resource>)
    requires Accounts(w, below + rs)
    ensures Accounts(w.(log := w.log + Closes(rs)), below)
    decreases |rs|
  {
    if rs == [] {
      assert w.log + Closes(rs) == w.log && below + rs == below;
    } else {
      var n := |rs| - 1;
      var w1 := w.(log := w.log + [Closed(rs[n])]);
      assert w1.log[..|w1.log| - 1] == w.log;
      assert (below + rs)[..|below + rs| - 1] == below + rs[..n];
      ClosingReplays(w1, below, rs[..n]);
      assert w.log + Closes(rs) == w1.log + Closes(rs[..n]);
    }
  }

  /** A start that fails leaves nothing open; one that succeeds leaves exactly the container's resources open. */
  lemma StartKeepsAccounts(w: World, c: Container, fault: Fault)
    requires Accounts(w, c.resources) && (c.state == New ==> c.resources == [])
    ensures var (after, c', raised) := StartContainer(w, c, fault);
      && Accounts(after, c'.resources)
      && (c.state == New && raised ==> c' == Container(Stopped, []))
      && (!raised ==> c'.state == Started && |c'.resources| == RESOURCES)
  {
    if c.state == New {
      var rs := Range(w.next, Created(fault));
      OpeningReplays(w, [], Created(fault));
      assert [] + rs == rs;
      if StartFails(fault) {
        ClosingReplays(World(w.log + Opens(rs), w.next + |rs|), [], rs);
      }
    }
  }

  /** Closing leaves nothing open, whatever the close calls raise. */
  lemma CloseKeepsAccounts(w: World, c: Container, raising: set<Resource>)
    requires Accounts(w, c.resources) && (c.state == Stopped ==> c.resources == [])
    ensures var (after, c', raised) := CloseContainer(w, c, raising);
      Accounts(after, []) && c'.resources == [] && (!raised ==> c'.state == Stopped)
  {
    assert [] + c.resources == c.resources;
    ClosingReplays(w, [], c.resources);
  }

  /** What a start makes of each point of failure: three resources are probed, the fourth is not. */
  lemma StartOutcomes(w: World, c: Container, fault: Fault)
    ensures var (after, c', raised) := StartContainer(w, c, fault);
      && (c.state != New ==> raised && after == w && c' == c)
      && (c.state == New ==>
            (raised <==> fault in {FactoryRaises(0), FactoryRaises(1), FactoryRaises(2), FactoryRaises(3),
                                   ProbeRaises(0), ProbeRaises(1), ProbeRaises(2)}))
      && (c.state == New && !raised ==> after.next == w.next + 4 && |after.log| == |w.log| + 4 && c'.state == Started)
      && (c.state == New && raised && c.resources == [] ==>
            var created := if fault.FactoryRaises? then fault.i else fault.i + 1;
            after.next == w.next + created && |after.log| == |w.log| + 2 * created && c' == Container(Stopped, []))
  {
  }

  /** What a close reports: it raises exactly if some resource does, and only then the state is not advanced. */
  lemma CloseOutcomes(w: World, c: Container, raising: set<Resource>)
    ensures var (after, c', raised) := CloseContainer(w, c, raising);
      && (c.state == Stopped ==> !raised && after == w && c' == c)
      && (c.state != Stopped ==>
            && (raised <==> exists k :: 0 <= k < |c.resources| && c.resources[k] in raising)
            && (c'.state == Stopped <==> !raised)
            && c'.resources == [] && |after.log| == |w.log| + |c.resources| && after.next == w.next)
  {
    if k :| 0 <= k < |c.resources| && c.resources[k] in raising { assert c.resources[k] in c.resources; }
  }

  datatype ContainerCall = Start(fault: Fault) | Close(raising: set<Resource>)

  function CallContainer(w: World, c: Container, calls: seq<ContainerCall>): (World, Container)
    decreases |calls|
  {
    if calls == [] then (w, c)
    else
      var (w', c', _) := match calls[0]
        case Start(fault) => StartContainer(w, c, fault)
        case Close(raising) => CloseContainer(w, c, raising);
      CallContainer(w', c', calls[1..])
  }

  /**
   A container, started and closed in any order and failing anywhere: its resources are the only ones open,
   and once it is stopped, none is.
   */
  lemma {:induction false} ContainersAccountForResources(w: World, c: Container, calls: seq<ContainerCall>)
    requires Accounts(w, c.resources) && (c.state != Started ==> c.resources == [])
    ensures var (after, c') := CallContainer(w, c, calls);
      Accounts(after, c'.resources) && (c'.state != Started ==> c'.resources == [])
    decreases |calls|
  {
    if calls != [] {
      match calls[0]
      case Start(fault) =>
        StartKeepsAccounts(w, c, fault);
        var (w', c', raised) := StartContainer(w, c, fault);
        ContainersAccountForResources(w', c', calls[1..]);
      case Close(raising) =>
        CloseKeepsAccounts(w, c, raising);
        var (w', c', raised) := CloseContainer(w, c, raising);
        ContainersAccountForResources(w', c', calls[1..]);
    }
  }

  // A runtime with what it has made so far, and how often its container factory raised.
  datatype System = System(w: World, loops: seq<nat>, rt: Runtime, factoryFailures: nat)

  const BOOT := System(World([], 0), [], Runtime(New, None, None), 0)

  /** What is open belongs to the one live container of the runtime; a runtime has one exactly when started. */
  ghost predicate RuntimeAccounts(y: System) {
    && (y.rt.state == Started <==> y.rt.container.Some?)
    && (y.rt.state == Started <==> y.rt.runner.Some?)
    && (y.rt.container.Some? ==>
          y.rt.container.value.state == Started && |y.rt.container.value.resources| == RESOURCES)
    && Accounts(y.w, if y.rt.container.Some? then y.rt.container.value.resources else [])
  }

  /** How many runners have never been closed. */
  function Unclosed(loops: seq<nat>): nat {
    if loops == [] then 0 else Unclosed(loops[..|loops| - 1]) + if loops[|loops| - 1] == 0 then 1 else 0
  }

  /** No runner is closed twice; those not closed are the runtime's own and one for each factory failure. */
  ghost predicate RunnerAccounts(y: System) {
    && (forall i :: 0 <= i < |y.loops| ==> y.loops[i] <= 1)
    && (y.rt.runner.Some? ==> y.rt.runner.value < |y.loops| && y.loops[y.rt.runner.value] == 0)
    && Unclosed(y.loops) == y.factoryFailures + if y.rt.runner.Some? then 1 else 0
  }

  ghost predicate SystemInv(y: System) {
    RuntimeAccounts(y) && RunnerAccounts(y)
  }

  /** The factory of the container is asked, and raises. */
  predicate FactoryFails(rt: Runtime, call: Call) {
    call.RunOperation? && rt.state == New && call.factoryRaises
  }

  function Next(y: System, call: Call): System
    requires y.rt.runner.Some? ==> y.rt.runner.value < |y.loops|
  {
    var after := Perform(y.w, y.loops, y.rt, call);
    System(after.w, after.loops, after.rt, y.factoryFailures + if FactoryFails(y.rt, call) then 1 else 0)
  }

  lemma UnclosedSnoc(loops: seq<nat>, n: nat)
    ensures Unclosed(loops + [n]) == Unclosed(loops) + if n == 0 then 1 else 0
  {
    assert (loops + [n])[..|loops|] == loops;
  }

  lemma {:induction false} UnclosedUpdate(loops: seq<nat>, i: nat)
    requires i < |loops| && loops[i] == 0
    ensures Unclosed(loops[i := 1]) == Unclosed(loops) - 1
  {
    var n := |loops| - 1;
    if i == n {
      assert loops[i := 1][..n] == loops[..n];
    } else {
      assert loops[i := 1][..n] == loops[..n][i := 1];
      UnclosedUpdate(loops[..n], i);
    }
  }

  lemma CallKeepsAccounts(y: System, call: Call)
    requires SystemInv(y)
    ensures RuntimeAccounts(Next(y, call))
  {
    match call {
      case RunOperation(factoryRaises, fault, operationRaises) =>
        if y.rt.state == New { StartKeepsAccounts(y.w, Container(New, []), fault); }
      case CloseRuntime(raising) =>
        if y.rt.container.Some? { CloseKeepsAccounts(y.w, y.rt.container.value, raising); }
    }
  }

  lemma CallKeepsRunners(y: System, call: Call)
    requires SystemInv(y)
    ensures RunnerAccounts(Next(y, call))
  {
    if call.RunOperation? {
      UnclosedSnoc(y.loops, 0);
      UnclosedSnoc(y.loops, 1);
    } else if y.rt.runner.Some? {
      UnclosedUpdate(y.loops, y.rt.runner.value);
    }
  }

  /**
   What each call on a worker runtime comes to. The first run that nothing spoils starts it and performs its
   operation, and so does every later one until it is closed; a close raises exactly if a resource does.
   */
  lemma CallOutcomes(y: System, call: Call)
    requires SystemInv(y)
    ensures var after := Perform(y.w, y.loops, y.rt, call);
      match call
      case RunOperation(factoryRaises, fault, operationRaises) =>
        var spoilt := factoryRaises || (fault.FactoryRaises? && fault.i <= 3) || (fault.ProbeRaises? && fault.i <= 2);
        && (y.rt.state == Stopped ==> after == After(y.w, y.loops, y.rt, Raised))
        && (y.rt.state == Started ==> after == After(y.w, y.loops, y.rt, Operated(operationRaises)))
        && (y.rt.state == New && spoilt ==> after.outcome == Raised && after.rt == y.rt)
        && (y.rt.state == New && !spoilt ==> after.outcome == Operated(operationRaises) && after.rt.state == Started)
      case CloseRuntime(raising) =>
        && after.rt.state == Stopped
        && (y.rt.state != Started ==> after.outcome == Done && after.w == y.w && after.loops == y.loops)
        && (y.rt.state == Started ==>
              after.outcome ==
                if exists r :: r in y.rt.container.value.resources && r in raising then Raised else Done)
  {
  }

  /** An operation always gets a started container whose four resources are open. */
  lemma OperationsGetOpenResources(y: System, call: Call)
    requires SystemInv(y)
    ensures var after := Perform(y.w, y.loops, y.rt, call);
      after.outcome.Operated? ==>
        && after.rt.container.Some? && after.rt.container.value.state == Started
        && |after.rt.container.value.resources| == RESOURCES
        && Replay(after.w.log) == Some(after.rt.container.value.resources)
  {
    CallKeepsAccounts(y, call);
  }

  function PerformAll(y: System, calls: seq<Call>): System
    requires y.rt.runner.Some? ==> y.rt.runner.value < |y.loops|
    decreases |calls|
  {
    if calls == [] then y else PerformAll(Next(y, calls[0]), calls[1..])
  }

  /**
   No sequence of calls ever leaves two containers live, or a resource open without its container, or closes
   a runner twice.
   */
  lemma {:induction false} RuntimesAccountForResources(y: System, calls: seq<Call>)
    requires SystemInv(y)
    ensures SystemInv(PerformAll(y, calls))
    decreases |calls|
  {
    if calls != [] {
      CallKeepsAccounts(y, calls[0]);
      CallKeepsRunners(y, calls[0]);
      RuntimesAccountForResources(Next(y, calls[0]), calls[1..]);
    }
  }

  /**
   By the time a worker runtime is closed, whatever was run on it and whatever raised, every resource ever
   created has received exactly one close call.
   */
  lemma ClosedRuntimesHoldNothing(calls: seq<Call>, r: Resource)
    requires PerformAll(BOOT, calls).rt.state == Stopped
    ensures var log := PerformAll(BOOT, calls).w.log;
      && Replay(log) == Some([])
      && Times(log, Closed(r)) == Times(log, Opened(r)) <= 1
  {
    RuntimesAccountForResources(BOOT, calls);
    ClosedExactlyOnce(PerformAll(BOOT, calls).w.log, r);
  }

  lemma {:induction false} AllClosedExactlyWithoutZeros(loops: seq<nat>)
    ensures Unclosed(loops) == 0 <==> forall i :: 0 <= i < |loops| ==> loops[i] != 0
  {
    if loops != [] { AllClosedExactlyWithoutZeros(loops[..|loops| - 1]); }
  }

  /**
   By then every event-loop runner has been closed exactly once if and only if the container factory never
   raised: the runner made just before is then given up without being closed.
   */
  lemma RunnersAreClosedUnlessTheFactoryRaised(calls: seq<Call>)
    requires PerformAll(BOOT, calls).rt.state == Stopped
    ensures var y := PerformAll(BOOT, calls);
      && Unclosed(y.loops) == y.factoryFailures
      && ((forall i :: 0 <= i < |y.loops| ==> y.loops[i] == 1) <==> y.factoryFailures == 0)
  {
    RuntimesAccountForResources(BOOT, calls);
    AllClosedExactlyWithoutZeros(PerformAll(BOOT, calls).loops);
  }

  /** It happens: the factory raises once, and the runtime is closed. */
  lemma FailedFactoryAbandonsARunner()
    ensures var y := PerformAll(BOOT, [RunOperation(true, NoFault, false), CloseRuntime({})]);
      y.rt.state == Stopped && y.factoryFailures == 1 && y.loops == [0]
  {
    var calls := [RunOperation(true, NoFault, false), CloseRuntime({})];
    assert calls[1..] == [CloseRuntime({})] && calls[1..][1..] == [];
    assert Next(BOOT, calls[0]) == System(World([], 0), [0], Runtime(New, None, None), 1);
  }
}
