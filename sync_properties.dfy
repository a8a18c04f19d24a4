/** What the stream-sync saga guarantees, stated over its specification
    `Saga` (which `SyncStreamsWithIngesters` is proved to follow). */
module StreamSyncProperties {
  import opened Wrappers
  import opened Seqs
  import opened ObjectStore
  import opened ClusterTypes
  import opened Registry
  import opened StreamSync

  /** The calls of one phase up to position `k`: every position below `k`
      is probed, a request goes exactly to the live ones, and nothing else
      happens. */
  lemma {:induction false} PhaseTraceMembership(phase: Phase, attempts: seq<Attempt>, k: nat, e: Event)
    requires k <= |attempts|
    ensures e in PhaseTrace(phase, attempts, k) <==>
            e.phase == phase && e.node < k && (e.Probe? || attempts[e.node].live)
  {
    if k > 0 {
      PhaseTraceMembership(phase, attempts, k - 1, e);
    }
  }

  /** Events that name registry positions in non-decreasing order. */
  predicate InRegistryOrder(t: seq<Event>)
  {
    forall a, b :: 0 <= a < b < |t| ==> t[a].node <= t[b].node
  }

  /** The calls of one phase follow registry order. */
  lemma {:induction false} PhaseTraceOrdered(phase: Phase, attempts: seq<Attempt>, k: nat)
    requires k <= |attempts|
    ensures InRegistryOrder(PhaseTrace(phase, attempts, k))
  {
    if k > 0 {
      PhaseTraceOrdered(phase, attempts, k - 1);
      var prev := PhaseTrace(phase, attempts, k - 1);
      var last := AttemptEvents(phase, k - 1, attempts[k - 1]);
      var t := PhaseTrace(phase, attempts, k);
      forall a, b | 0 <= a < b < |t| ensures t[a].node <= t[b].node {
        if b >= |prev| {
          assert t[b] == last[b - |prev|];
          if a < |prev| {
            assert t[a] == prev[a] && prev[a] in prev;
            PhaseTraceMembership(phase, attempts, k - 1, prev[a]);
          } else {
            assert t[a] == last[a - |prev|];
            assert last[a - |prev|].node == k - 1 == last[b - |prev|].node;
          }
        } else {
          assert t[a] == prev[a] && t[b] == prev[b];
          assert InRegistryOrder(prev);
        }
      }
    }
  }

  /** Clean sync: the saga succeeds exactly when every forward call passes
      (is answered 2xx or skipped as unreachable), and then no rollback is
      probed or sent. */
  lemma {:induction false} CleanSync(nodes: seq<NodeDescriptor>, forward: seq<Attempt>, rollback: seq<Attempt>)
    requires |forward| == |nodes| && |rollback| == |nodes|
    ensures Saga(nodes, forward, rollback).0.Success? <==> forall i :: 0 <= i < |nodes| ==> Passes(forward[i])
    ensures Saga(nodes, forward, rollback).0.Success? ==>
            forall e :: e in Saga(nodes, forward, rollback).1 ==> e.phase == Forward
  {
    var f := FirstViolation(forward, Passes);
    var g := FirstViolation(rollback, Passes);
    if f == |nodes| {
      forall e | e in Saga(nodes, forward, rollback).1 ensures e.phase == Forward {
        PhaseTraceMembership(Forward, forward, |nodes|, e);
      }
    } else if g < |nodes| {
      assert !Passes(rollback[g]);
    }
  }

  /** How many positions of a phase are contacted: up to and including
      the first failing one, or all of them. */
  function Reached(attempts: seq<Attempt>): (k: nat)
    ensures k <= |attempts|
  {
    var f := FirstViolation(attempts, Passes);
    if f == |attempts| then f else f + 1
  }

  /** The saga's trace is the forward phase up to its first failure,
      followed, after a failure, by the rollback phase up to its own. */
  lemma SagaTrace(nodes: seq<NodeDescriptor>, forward: seq<Attempt>, rollback: seq<Attempt>)
    requires |forward| == |nodes| && |rollback| == |nodes|
    ensures Saga(nodes, forward, rollback).1 ==
            PhaseTrace(Forward, forward, Reached(forward)) +
            (if FirstViolation(forward, Passes) == |nodes| then [] else PhaseTrace(Rollback, rollback, Reached(rollback)))
  {
    var f := FirstViolation(forward, Passes);
    if f == |nodes| {
      assert Saga(nodes, forward, rollback).1 == PhaseTrace(Forward, forward, |nodes|) + [];
    } else {
      assert !Passes(forward[f]);
    }
  }

  /** Forward order and halt: the forward phase probes positions
      `0 .. f` where `f` is the first failing call (all positions when none
      fails), sends a request only to the live ones among them, and never
      contacts a node after `f`. */
  lemma {:induction false} ForwardHaltsAtFirstFailure(nodes: seq<NodeDescriptor>, forward: seq<Attempt>, rollback: seq<Attempt>, i: nat)
    requires |forward| == |nodes| && |rollback| == |nodes|
    ensures var f := FirstViolation(forward, Passes);
            var trace := Saga(nodes, forward, rollback).1;
            (Probe(Forward, i) in trace <==> i < |nodes| && i <= f) &&
            (Request(Forward, i) in trace <==> i < |nodes| && i <= f && forward[i].live)
  {
    SagaTrace(nodes, forward, rollback);
    var kf := Reached(forward);
    PhaseTraceMembership(Forward, forward, kf, Probe(Forward, i));
    PhaseTraceMembership(Forward, forward, kf, Request(Forward, i));
    if FirstViolation(forward, Passes) < |nodes| {
      var kr := Reached(rollback);
      PhaseTraceMembership(Rollback, rollback, kr, Probe(Forward, i));
      PhaseTraceMembership(Rollback, rollback, kr, Request(Forward, i));
    }
  }

  /** Failed sync: after a forward failure the result is never `Ok`. If
      every rollback call passes, the result is the generic 500 error and
      every node of the registry was probed for rollback, including those
      the forward phase never reached; otherwise the result is the first
      failing rollback's own error and no node after it is contacted. In
      both cases a rollback request goes only to nodes found live. */
  lemma {:induction false} FailedSyncRollsBack(nodes: seq<NodeDescriptor>, forward: seq<Attempt>, rollback: seq<Attempt>, i: nat)
    requires |forward| == |nodes| && |rollback| == |nodes|
    requires FirstViolation(forward, Passes) < |nodes|
    ensures var (r, trace) := Saga(nodes, forward, rollback);
            var g := FirstViolation(rollback, Passes);
            r.Failure? &&
            (g == |nodes| ==> r.error == Custom(SyncFailedMessage, StatusInternalServerError)) &&
            (g < |nodes| ==> r == SendStreamRollbackRequest(nodes[g], rollback[g])) &&
            (Probe(Rollback, i) in trace <==> i < |nodes| && i <= g) &&
            (Request(Rollback, i) in trace <==> i < |nodes| && i <= g && rollback[i].live)
  {
    var f := FirstViolation(forward, Passes);
    var g := FirstViolation(rollback, Passes);
    var k := if g == |nodes| then g else g + 1;
    var fwd := PhaseTrace(Forward, forward, f + 1);
    var rb := PhaseTrace(Rollback, rollback, k);
    assert Saga(nodes, forward, rollback).1 == fwd + rb;
    PhaseTraceMembership(Forward, forward, f + 1, Probe(Rollback, i));
    PhaseTraceMembership(Forward, forward, f + 1, Request(Rollback, i));
    PhaseTraceMembership(Rollback, rollback, k, Probe(Rollback, i));
    PhaseTraceMembership(Rollback, rollback, k, Request(Rollback, i));
    if g < |nodes| {
      assert !Passes(rollback[g]);
    }
  }

  /** Every event of `t` belongs to `phase`. */
  predicate AllInPhase(t: seq<Event>, phase: Phase)
  {
    forall e :: e in t ==> e.phase == phase
  }

  /** A phase trace holds only events of its own phase. */
  lemma PhaseTraceInPhase(phase: Phase, attempts: seq<Attempt>, k: nat)
    requires k <= |attempts|
    ensures AllInPhase(PhaseTrace(phase, attempts, k), phase)
  {
    forall e | e in PhaseTrace(phase, attempts, k) ensures e.phase == phase {
      PhaseTraceMembership(phase, attempts, k, e);
    }
  }

  /** The shape of the saga's trace: each phase in registry order, the
      forward events before the rollback events. */
  predicate SagaOrdered(trace: seq<Event>)
  {
    forall a, b :: 0 <= a < b < |trace| ==>
      (trace[b].phase == Forward ==> trace[a].phase == Forward) &&
      (trace[a].phase == trace[b].phase ==> trace[a].node <= trace[b].node)
  }

  /** A forward trace followed by a rollback trace, each in registry
      order, has that shape. */
  lemma ConcatenationOrdered(fwd: seq<Event>, rb: seq<Event>)
    requires AllInPhase(fwd, Forward) && InRegistryOrder(fwd)
    requires AllInPhase(rb, Rollback) && InRegistryOrder(rb)
    ensures SagaOrdered(fwd + rb)
  {
    var trace := fwd + rb;
    forall a, b | 0 <= a < b < |trace|
      ensures trace[b].phase == Forward ==> trace[a].phase == Forward
      ensures trace[a].phase == trace[b].phase ==> trace[a].node <= trace[b].node
    {
      if b < |fwd| {
        assert trace[a] == fwd[a] && trace[b] == fwd[b];
      } else if a >= |fwd| {
        assert trace[a] == rb[a - |fwd|] && trace[b] == rb[b - |fwd|];
      } else {
        assert trace[a] == fwd[a] && fwd[a] in fwd;
        assert trace[b] == rb[b - |fwd|] && rb[b - |fwd|] in rb;
      }
    }
  }

  /** Registry order: within each phase the nodes are contacted in registry
      order, and every forward event precedes every rollback event. */
  lemma {:induction false} TraceInRegistryOrder(nodes: seq<NodeDescriptor>, forward: seq<Attempt>, rollback: seq<Attempt>)
    requires |forward| == |nodes| && |rollback| == |nodes|
    ensures SagaOrdered(Saga(nodes, forward, rollback).1)
  {
    var f := FirstViolation(forward, Passes);
    var g := FirstViolation(rollback, Passes);
    var kf := if f == |nodes| then f else f + 1;
    var kr := if g == |nodes| then g else g + 1;
    var fwd := PhaseTrace(Forward, forward, kf);
    PhaseTraceOrdered(Forward, forward, kf);
    PhaseTraceInPhase(Forward, forward, kf);
    if f == |nodes| {
      assert Saga(nodes, forward, rollback).1 == fwd + [];
      ConcatenationOrdered(fwd, []);
    } else {
      var rb := PhaseTrace(Rollback, rollback, kr);
      PhaseTraceOrdered(Rollback, rollback, kr);
      PhaseTraceInPhase(Rollback, rollback, kr);
      assert Saga(nodes, forward, rollback).1 == fwd + rb;
      ConcatenationOrdered(fwd, rb);
    }
  }

  /** Three nodes, the second of which rejects the stream: the first two are
      sent the stream, the third is never contacted in the forward phase,
      all three are sent a rollback, and the result is the generic error. */
  lemma {:induction false} SecondOfThreeFails(nodes: seq<NodeDescriptor>, forward: seq<Attempt>, rollback: seq<Attempt>)
    requires |nodes| == 3 && |forward| == 3 && |rollback| == 3
    requires forward[0].live && Passes(forward[0])
    requires forward[1].live && !Passes(forward[1])
    requires forall i :: 0 <= i < 3 ==> rollback[i].live && Passes(rollback[i])
    ensures var (r, trace) := Saga(nodes, forward, rollback);
            r == Failure(Custom(SyncFailedMessage, StatusInternalServerError)) &&
            Request(Forward, 0) in trace && Request(Forward, 1) in trace &&
            Probe(Forward, 2) !in trace &&
            Request(Rollback, 0) in trace && Request(Rollback, 1) in trace && Request(Rollback, 2) in trace
  {
    FirstViolationUnique(forward, Passes, 1);
    FirstViolationUnique(rollback, Passes, 3);
    ForwardHaltsAtFirstFailure(nodes, forward, rollback, 0);
    ForwardHaltsAtFirstFailure(nodes, forward, rollback, 1);
    ForwardHaltsAtFirstFailure(nodes, forward, rollback, 2);
    FailedSyncRollsBack(nodes, forward, rollback, 0);
    FailedSyncRollsBack(nodes, forward, rollback, 1);
    FailedSyncRollsBack(nodes, forward, rollback, 2);
  }

  /** A registry failure aborts the saga before any node is contacted. */
  lemma RegistryFailureAbortsSync(e: ObjectStorageError, forward: seq<Attempt>, rollback: seq<Attempt>)
    ensures SyncSpec(Failure(e), forward, rollback) == (Failure(Anyhow(FromStorage(e))), [])
  {
  }
}
