/**
 * The run of the test workers: reserving ports for their sandboxes, and working off their queues.
 */
module SandboxRun {

  // ---------------------------------------------------------------------------
  // Ports
  // ---------------------------------------------------------------------------

  const FIRST_BASE_PORT: nat := 1100
  const LAST_BASE_PORT: nat := 4900
  const X_PORT_FACTOR: nat := 10
  const NUM_SANDBOX_PORTS: nat := 7

  function XPort(port: nat): nat {
    port * X_PORT_FACTOR
  }

  /** The ports bound by others, and those bound by this process. */
  class Network {
    const taken: set<nat>
    var bound: set<nat>

    constructor (taken: set<nat>)
      ensures this.taken == taken && bound == {}
    {
      this.taken := taken;
      bound := {};
    }

    /** Binding fails on a port that anyone has bound. */
    method Bind(port: nat) returns (ok: bool)
      modifies this
      ensures ok == (port !in taken && port !in old(bound))
      ensures bound == if ok then old(bound) + {port} else old(bound)
    {
      ok := port !in taken && port !in bound;
      if ok {
        bound := bound + {port};
      }
    }

    method Close(port: nat)
      modifies this
      ensures bound == old(bound) - {port}
    {
      bound := bound - {port};
    }
  }

  /** The port and its X port can both be bound. */
  predicate IsFree(port: nat, busy: set<nat>) {
    port !in busy && XPort(port) !in busy
  }

  /** Neither the port nor ten times the port is busy. */
  ghost predicate IsUsable(port: nat, busy: set<nat>) {
    port !in busy && port * 10 !in busy
  }

  /** These are all the usable ports from 1100 up to a limit, in order. */
  ghost predicate AreFreePorts(ports: seq<nat>, busy: set<nat>, limit: nat) {
    && (forall i :: 0 <= i < |ports| ==> 1100 <= ports[i] < limit && IsUsable(ports[i], busy))
    && (forall i, j :: 0 <= i < j < |ports| ==> ports[i] < ports[j])
    && forall port :: 1100 <= port < limit && IsUsable(port, busy) ==> port in ports
  }

  /** The chosen ports, with one more candidate decided on. */
  ghost function WithCandidate(ports: seq<nat>, busy: set<nat>, limit: nat): seq<nat> {
    if IsFree(limit, busy) then ports + [limit] else ports
  }

  lemma OneMoreCandidate(ports: seq<nat>, busy: set<nat>, limit: nat)
    requires AreFreePorts(ports, busy, limit) && FIRST_BASE_PORT <= limit
    ensures AreFreePorts(WithCandidate(ports, busy, limit), busy, limit + 1)
  {
    if IsFree(limit, busy) {
      assert (ports + [limit])[|ports|] == limit;
      forall port | 1100 <= port < limit + 1 && IsUsable(port, busy) ensures port in ports + [limit] {
        assert port < limit ==> port in ports;
      }
    }
  }

  /** The base ports and X ports of the chosen ports. */
  ghost function Sockets(ports: seq<nat>): set<nat> {
    if ports == [] then {}
    else Sockets(ports[..|ports| - 1]) + {ports[|ports| - 1], XPort(ports[|ports| - 1])}
  }

  /** The sockets held for earlier ports never stand in the way of a later one. */
  lemma {:induction false} HeldSocketsDoNotBlock(ports: seq<nat>, port: nat)
    requires FIRST_BASE_PORT <= port <= LAST_BASE_PORT
    requires forall i :: 0 <= i < |ports| ==> FIRST_BASE_PORT <= ports[i] < port
    ensures port !in Sockets(ports) && XPort(port) !in Sockets(ports)
  {
    if ports != [] {
      HeldSocketsDoNotBlock(ports[..|ports| - 1], port);
    }
  }

  method TryPort(network: Network, port: nat) returns (ok: bool)
    requires FIRST_BASE_PORT <= port
    modifies network
    ensures ok == IsFree(port, network.taken + old(network.bound))
    ensures network.bound == if ok then old(network.bound) + {port, XPort(port)} else old(network.bound)
  {
    ok := network.Bind(port);
    if ok {
      ok := network.Bind(XPort(port));
      if !ok {
        network.Close(port);
      }
    }
  }

  method CloseAll(network: Network, ports: seq<nat>)
    modifies network
    ensures network.bound == old(network.bound) - Sockets(ports)
  {
    for i := 0 to |ports|
      invariant network.bound == old(network.bound) - Sockets(ports[..i])
    {
      assert ports[..i + 1][..i] == ports[..i];
      network.Close(ports[i]);
      network.Close(XPort(ports[i]));
    }
    assert ports[..|ports|] == ports;
  }

  lemma SocketsOfOneMore(ports: seq<nat>, port: nat)
    ensures Sockets(ports + [port]) == Sockets(ports) + {port, XPort(port)}
  {
    assert (ports + [port])[..|ports|] == ports;
  }

  /** Being free of two sets is being free of their union. */
  lemma IsFreeOfBoth(port: nat, a: set<nat>, b: set<nat>)
    ensures IsFree(port, a + b) == (IsFree(port, a) && IsFree(port, b))
  {
  }

  /** A candidate is free next to the sockets already held exactly when it was free before. */
  lemma NextCandidate(ports: seq<nat>, taken: set<nat>, bound: set<nat>, limit: nat)
    requires FIRST_BASE_PORT <= limit <= LAST_BASE_PORT
    requires forall i :: 0 <= i < |ports| ==> FIRST_BASE_PORT <= ports[i] < limit
    ensures IsFree(limit, taken + (bound + Sockets(ports))) == IsFree(limit, taken + bound)
  {
    HeldSocketsDoNotBlock(ports, limit);
    IsFreeOfBoth(limit, taken, bound);
    IsFreeOfBoth(limit, bound, Sockets(ports));
    IsFreeOfBoth(limit, taken, bound + Sockets(ports));
  }

  /** The sockets held after deciding on a candidate. */
  lemma SocketsWithCandidate(ports: seq<nat>, taken: set<nat>, bound: set<nat>, limit: nat)
    requires Sockets(ports) !! bound
    ensures var next := Sockets(WithCandidate(ports, taken + bound, limit));
            && next !! bound
            && bound + next == if IsFree(limit, taken + bound) then bound + Sockets(ports) + {limit, XPort(limit)}
                               else bound + Sockets(ports)
  {
    SocketsOfOneMore(ports, limit);
    IsFreeOfBoth(limit, taken, bound);
  }

  /** All the free ports below a limit are held, next to what was bound before. */
  ghost predicate IsHolding(network: Network, ports: seq<nat>, bound: set<nat>, limit: nat)
    reads network
  {
    AreFreePorts(ports, network.taken + bound, limit) && network.bound == bound + Sockets(ports) && Sockets(ports) !! bound
  }

  /** The next candidate is tried, and held if it is free. */
  method ReserveNext(network: Network, ports: seq<nat>, limit: nat, ghost bound: set<nat>) returns (next: seq<nat>)
    requires FIRST_BASE_PORT <= limit <= LAST_BASE_PORT && IsHolding(network, ports, bound, limit)
    modifies network
    ensures IsHolding(network, next, bound, limit + 1) && |next| <= |ports| + 1
  {
    NextCandidate(ports, network.taken, bound, limit);
    SocketsWithCandidate(ports, network.taken, bound, limit);
    OneMoreCandidate(ports, network.taken + bound, limit);
    var ok := TryPort(network, limit);
    next := if ok then ports + [limit] else ports;
  }

  /** Holds the free ports below a limit, which is the end of the range unless there are enough. */
  method ReservePorts(network: Network, count: nat) returns (limit: nat, ports: seq<nat>)
    modifies network
    ensures limit <= LAST_BASE_PORT + 1 && |ports| <= count && (|ports| == count || limit == LAST_BASE_PORT + 1)
    ensures IsHolding(network, ports, old(network.bound), limit)
  {
    ports, limit := [], FIRST_BASE_PORT;
    while limit <= LAST_BASE_PORT && |ports| < count
      invariant FIRST_BASE_PORT <= limit <= LAST_BASE_PORT + 1 && |ports| <= count
      invariant IsHolding(network, ports, old(network.bound), limit)
    {
      ports := ReserveNext(network, ports, limit, old(network.bound));
      limit := limit + 1;
    }
  }

  /**
   * Takes the first free ports of the range.  It fails only if all the free ports are too few,
   * and either way it closes all its sockets again.
   */
  method FindFreePorts(network: Network, count: nat) returns (found: bool, ports: seq<nat>)
    modifies network
    ensures network.bound == old(network.bound)
    ensures var busy := network.taken + old(network.bound);
            if found then |ports| == count && exists limit: nat :: limit <= 4901 && AreFreePorts(ports, busy, limit)
            else |ports| < count && AreFreePorts(ports, busy, 4901)
  {
    var limit;
    limit, ports := ReservePorts(network, count);
    CloseAll(network, ports);
    found := |ports| == count;
  }

  /** The ports of one worker. */
  function WorkerPorts(ports: seq<nat>, worker: nat): (slice: seq<nat>)
    requires (worker + 1) * NUM_SANDBOX_PORTS <= |ports|
    ensures |slice| == NUM_SANDBOX_PORTS
  {
    ports[worker * NUM_SANDBOX_PORTS..(worker + 1) * NUM_SANDBOX_PORTS]
  }

  /** No two sockets of two workers' sandboxes, base or X, share a port, and none is privileged or ephemeral. */
  lemma WorkersShareNoPort(ports: seq<nat>, busy: set<nat>, limit: nat, v: nat, w: nat, i: nat, j: nat)
    requires AreFreePorts(ports, busy, limit) && limit <= 4901
    requires v < w && (w + 1) * 7 <= |ports| && i < 7 && j < 7
    ensures |WorkerPorts(ports, v)| == |WorkerPorts(ports, w)| == 7
    ensures var a, b := WorkerPorts(ports, v)[i], WorkerPorts(ports, w)[j];
            && a == ports[7 * v + i] && b == ports[7 * w + j]
            && a != b && a * 10 != b * 10 && a != b * 10 && a * 10 != b
            && 1024 <= a && a * 10 < 49152
  {
    assert WorkerPorts(ports, v)[i] == ports[v * NUM_SANDBOX_PORTS + i];
    assert WorkerPorts(ports, w)[j] == ports[w * NUM_SANDBOX_PORTS + j];
  }

  // ---------------------------------------------------------------------------
  // Working off a queue
  // ---------------------------------------------------------------------------

  /** A call of the shell works out, fails with an exit code, which is caught, or raises another exception, which is not. */
  datatype Call = Succeeds | Fails | Raises

  /** What the outside world does, by task position for the calls and tests between deployment and teardown. */
  datatype World = World(deploy: Call, reachable: nat -> bool, restart: nat -> Call, passes: nat -> bool, raises: nat -> bool,
                         stop: Call, delete: Call)

  /** Where an exception that leaves the worker comes from. */
  datatype Origin = Deployment | Task(position: nat) | Teardown

  datatype Outcome = Finished(failures: seq<Failure>) | Raised(origin: Origin)

  /** A failed task: its position, and whether it ever ran. */
  datatype Failure = Failure(worker: nat, sequence: nat, spec: string, ran: bool)

  /** The sandbox of a worker, and how often each step was tried on it. */
  class Sandbox {
    var deployments: nat
    var teardowns: nat
    var deletions: nat
    var executed: seq<nat>

    constructor ()
      ensures deployments == 0 && teardowns == 0 && deletions == 0 && executed == []
    {
      deployments, teardowns, deletions, executed := 0, 0, 0, [];
    }

    method Deploy(world: World) returns (call: Call)
      modifies this`deployments
      ensures deployments == old(deployments) + 1 && call == world.deploy
    {
      deployments := deployments + 1;
      call := world.deploy;
    }

    /** Stops the server and deletes its files.  A server that cannot be stopped does not keep the files. */
    method TearDown(world: World) returns (raised: bool)
      modifies this`teardowns, this`deletions
      ensures teardowns == old(teardowns) + 1
      ensures deletions == old(deletions) + if world.stop.Raises? then 0 else 1
      ensures raised == (world.stop.Raises? || world.delete.Raises?)
    {
      teardowns := teardowns + 1;
      if world.stop.Raises? {
        return true;
      }
      deletions := deletions + 1;
      raised := world.delete.Raises?;
    }

    method Execute(task: nat, world: World) returns (ok: bool)
      modifies this`executed
      ensures executed == old(executed) + [task] && ok == world.passes(task)
    {
      executed := executed + [task];
      ok := world.passes(task);
    }
  }

  /** Before task i the sandbox answers, or comes up again. */
  ghost predicate IsUp(world: World, i: nat) {
    world.reachable(i) || world.restart(i).Succeeds?
  }

  /** Task i, or the restart before it, raises. */
  ghost predicate RaisesAt(world: World, i: nat) {
    if IsUp(world, i) then world.raises(i) else world.restart(i).Raises?
  }

  /** Task i runs to its end. */
  ghost predicate RunsThrough(world: World, i: nat) {
    IsUp(world, i) && !world.raises(i)
  }

  /** The number of tasks that run to their end: those before the first one whose sandbox is gone for good or that raises. */
  ghost function RunLength(world: World, from: nat, n: nat): (length: nat)
    requires from <= n
    ensures from <= length <= n && (length < n ==> !RunsThrough(world, length))
    ensures forall i :: from <= i < length ==> RunsThrough(world, i)
    decreases n - from
  {
    if from == n || !RunsThrough(world, from) then from else RunLength(world, from + 1, n)
  }

  /** The positions from 0 up. */
  ghost function UpTo(n: nat): seq<nat> {
    if n == 0 then [] else UpTo(n - 1) + [n - 1]
  }

  /** The failures among the first n tasks, when `length` tasks run. */
  ghost function Failures(worker: nat, queue: seq<string>, world: World, length: nat, n: nat): seq<Failure>
    requires n <= |queue|
  {
    if n == 0 then []
    else
      var before := Failures(worker, queue, world, length, n - 1);
      if n - 1 < length && world.passes(n - 1) then before
      else before + [Failure(worker, n - 1, queue[n - 1], n - 1 < length)]
  }

  ghost function Passed(world: World, length: nat): nat {
    if length == 0 then 0 else Passed(world, length - 1) + if world.passes(length - 1) then 1 else 0
  }

  /** Reports the tasks from a position on as never run. */
  method ReportNotRun(worker: nat, queue: seq<string>, from: nat, ghost world: World,
                      failures: seq<Failure>) returns (all: seq<Failure>)
    requires from <= |queue| && failures == Failures(worker, queue, world, from, from)
    ensures all == Failures(worker, queue, world, from, |queue|)
  {
    all := failures;
    for j := from to |queue|
      invariant all == Failures(worker, queue, world, from, j)
    {
      all := all + [Failure(worker, j, queue[j], false)];
    }
  }

  /** What the tasks of a queue come to on a deployed sandbox: `executed` were started, in order. */
  ghost predicate IsRun(worker: nat, queue: seq<string>, world: World, outcome: Outcome, executed: seq<nat>) {
    var length := RunLength(world, 0, |queue|);
    if length < |queue| && RaisesAt(world, length)
    then outcome == Raised(Task(length)) && executed == UpTo(if IsUp(world, length) then length + 1 else length)
    else outcome == Finished(Failures(worker, queue, world, length, |queue|)) && executed == UpTo(length)
  }

  /**
   * Runs the tasks of a queue in order until the sandbox is lost or a task raises.  Otherwise every task either runs once or
   * is reported once as never run.  The sandbox is torn down as often as it is deployed exactly if deploying does not raise.
   */
  method WorkerLoop(worker: nat, queue: seq<string>, world: World, sandbox: Sandbox) returns (outcome: Outcome)
    requires sandbox.deployments == 0 && sandbox.teardowns == 0 && sandbox.deletions == 0 && sandbox.executed == []
    modifies sandbox
    ensures sandbox.deployments == if queue == [] then 0 else 1
    ensures sandbox.teardowns <= sandbox.deployments
    ensures sandbox.teardowns == sandbox.deployments <==> queue == [] || !world.deploy.Raises?
    ensures sandbox.deletions == if world.stop.Raises? then 0 else sandbox.teardowns
    ensures queue == [] ==> outcome == Finished([]) && sandbox.executed == []
    ensures queue != [] && world.deploy.Raises? ==> outcome == Raised(Deployment) && sandbox.executed == []
    ensures queue != [] && !world.deploy.Raises? && (world.stop.Raises? || world.delete.Raises?) ==> outcome == Raised(Teardown)
    ensures queue != [] && world.deploy.Fails? && !world.stop.Raises? && !world.delete.Raises? ==>
              outcome == Finished(Failures(worker, queue, world, 0, |queue|))
    ensures world.deploy.Fails? ==> sandbox.executed == []
    ensures queue != [] && world.deploy.Succeeds? ==> exists run ::
              && IsRun(worker, queue, world, run, sandbox.executed)
              && (!world.stop.Raises? && !world.delete.Raises? ==> outcome == run)
  {
    if queue == [] {
      return Finished([]);
    }
    var call := sandbox.Deploy(world);
    if call.Raises? {
      return Raised(Deployment);
    }
    if call.Fails? {
      var raised := sandbox.TearDown(world);
      if raised {
        return Raised(Teardown);
      }
      var all := ReportNotRun(worker, queue, 0, world, []);
      return Finished(all);
    }
    outcome := RunTasks(worker, queue, world, sandbox);
    ghost var run := outcome;
    var raised := sandbox.TearDown(world);
    if raised {
      outcome := Raised(Teardown);
    }
    assert IsRun(worker, queue, world, run, sandbox.executed);
  }

  /** A deployment that raises, such as one with a missing shell binary, is not torn down. */
  method RaisingDeploymentIsNotTornDown(worker: nat, queue: seq<string>, world: World) returns (outcome: Outcome, sandbox: Sandbox)
    requires queue != [] && world.deploy.Raises?
    ensures fresh(sandbox) && sandbox.deployments == 1 && sandbox.teardowns == 0 && outcome == Raised(Deployment)
  {
    sandbox := new Sandbox();
    outcome := WorkerLoop(worker, queue, world, sandbox);
  }

  /** The tasks of a queue on a deployed sandbox. */
  method RunTasks(worker: nat, queue: seq<string>, world: World, sandbox: Sandbox) returns (outcome: Outcome)
    requires sandbox.executed == []
    modifies sandbox`executed
    ensures IsRun(worker, queue, world, outcome, sandbox.executed)
  {
    var failures: seq<Failure> := [];
    for i := 0 to |queue|
      invariant RunLength(world, i, |queue|) == RunLength(world, 0, |queue|)
      invariant sandbox.executed == UpTo(i) && failures == Failures(worker, queue, world, i, i)
    {
      if !world.reachable(i) {
        if world.restart(i).Raises? {
          return Raised(Task(i));
        }
        if world.restart(i).Fails? {
          failures := ReportNotRun(worker, queue, i, world, failures);
          return Finished(failures);
        }
      }
      LongerRun(worker, queue, world, i, i);
      var passed := sandbox.Execute(i, world);
      if world.raises(i) {
        return Raised(Task(i));
      }
      if !passed {
        failures := failures + [Failure(worker, i, queue[i], true)];
      }
    }
    return Finished(failures);
  }

  /** Failures before a position do not depend on how far the run goes beyond it. */
  lemma {:induction false} LongerRun(worker: nat, queue: seq<string>, world: World, length: nat, n: nat)
    requires n <= length && n <= |queue|
    ensures Failures(worker, queue, world, length + 1, n) == Failures(worker, queue, world, length, n)
  {
    if n > 0 {
      LongerRun(worker, queue, world, length, n - 1);
    }
  }

  /** Passed tasks and failures add up to the queue. */
  lemma {:induction false} EveryTaskIsAccountedFor(worker: nat, queue: seq<string>, world: World, length: nat, n: nat)
    requires n <= |queue|
    ensures |Failures(worker, queue, world, length, n)| + Passed(world, if n < length then n else length) == n
  {
    if n > 0 {
      EveryTaskIsAccountedFor(worker, queue, world, length, n - 1);
    }
  }

  /** The failures are exactly the tasks that ran and did not pass, or never ran, each once and in queue order. */
  lemma {:induction false} FailuresAreExact(worker: nat, queue: seq<string>, world: World, length: nat, n: nat)
    requires n <= |queue|
    ensures var failures := Failures(worker, queue, world, length, n);
            && (forall f, g :: 0 <= f < g < |failures| ==> failures[f].sequence < failures[g].sequence)
            && (forall f :: 0 <= f < |failures| ==>
                  && failures[f].sequence < n && failures[f].spec == queue[failures[f].sequence]
                  && failures[f].ran == (failures[f].sequence < length))
            && forall i :: 0 <= i < n ==>
                 ((i < length && world.passes(i)) <==> Failure(worker, i, queue[i], i < length) !in failures)
  {
    if n > 0 {
      FailuresAreExact(worker, queue, world, length, n - 1);
    }
  }
}
