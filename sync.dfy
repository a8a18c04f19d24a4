/** The stream-sync saga (`sync_streams_with_ingesters`): a stream created
    on the coordinator is forwarded to every ingestion node in registry
    order; on the first failure every node is sent a compensating delete.

    Every network call is an input. For each registry position the caller
    supplies what the liveness probe made right before the call says and
    what the call itself would get back, once for the forward phase and
    once for the rollback phase (liveness is probed afresh in each phase).
    The saga returns its result and the trace of probes and requests it
    made, in the order it made them. */
module StreamSync {
  import opened Wrappers
  import opened Seqs
  import opened ObjectStore
  import opened ClusterTypes
  import opened Registry

  /** What one HTTP request to a peer yields: a response with its status and
      body text, or a transport failure (refused, reset, timed out). */
  datatype Reply = Answered(status: nat, body: string) | SendFailed(message: string)

  /** One per-node call: the liveness verdict obtained just before it, and
      the reply the request gets if it is sent. */
  datatype Attempt = Attempt(live: bool, reply: Reply)

  /** A call passes when the node is skipped as unreachable, or when the
      request is answered with a 2xx status. A transport failure and a
      non-2xx answer both fail it. */
  predicate Passes(a: Attempt)
  {
    !a.live || (a.reply.Answered? && IsSuccess(a.reply.status))
  }

  /** `send_stream_sync_request`: the forward PUT to one node. */
  function SendStreamSyncRequest(node: NodeDescriptor, a: Attempt): (r: Result<(), StreamError>)
    ensures r.Success? <==> Passes(a)
    ensures r.Failure? ==> r.error.Network?
    ensures r.Failure? && a.reply.SendFailed? ==> r.error.net == Transport(a.reply.message)
    ensures r.Failure? && a.reply.Answered? ==> r.error.net == StatusError(a.reply.status)
  {
    if !a.live then Success(())
    else match a.reply
      case SendFailed(m) => Failure(Network(Transport(m)))
      case Answered(s, _) => if IsSuccess(s) then Success(()) else Failure(Network(StatusError(s)))
  }

  const RollbackFailedPrefix := "failed to rollback stream creation: "

  /** The message of a rejected rollback: the node's address and the
      response text, `{:?}`-formatted (quoted). */
  function RollbackMessage(domainName: string, body: string): string
  {
    RollbackFailedPrefix + domainName + "\nResponse Returned: " + "\"" + body + "\""
  }

  /** `send_stream_rollback_request`: the compensating DELETE to one node.
      A transport failure keeps the network error; a non-2xx answer becomes
      a 500 error that names the node. */
  function SendStreamRollbackRequest(node: NodeDescriptor, a: Attempt): (r: Result<(), StreamError>)
    ensures r.Success? <==> Passes(a)
    ensures r.Failure? && a.reply.SendFailed? ==> r.error == Network(Transport(a.reply.message))
    ensures r.Failure? && a.reply.Answered? ==>
      r.error == Custom(RollbackMessage(node.domainName, a.reply.body), StatusInternalServerError) &&
      HasPrefix(r.error.message, RollbackFailedPrefix + node.domainName)
  {
    if !a.live then Success(())
    else match a.reply
      case SendFailed(m) => Failure(Network(Transport(m)))
      case Answered(s, body) =>
        if IsSuccess(s) then Success(())
        else
          var msg := RollbackMessage(node.domainName, body);
          assert msg == (RollbackFailedPrefix + node.domainName) + ("\nResponse Returned: " + "\"" + body + "\"");
          Failure(Custom(msg, StatusInternalServerError))
  }

  datatype Phase = Forward | Rollback

  /** A liveness probe of, or a request sent to, the node at a registry
      position. */
  datatype Event = Probe(phase: Phase, node: nat) | Request(phase: Phase, node: nat)

  /** One call: the probe always, the request only to a live node. */
  function AttemptEvents(phase: Phase, i: nat, a: Attempt): seq<Event>
  {
    [Probe(phase, i)] + (if a.live then [Request(phase, i)] else [])
  }

  /** The events of the calls to registry positions `0 .. k-1`, in order. */
  function PhaseTrace(phase: Phase, attempts: seq<Attempt>, k: nat): seq<Event>
    requires k <= |attempts|
  {
    if k == 0 then [] else PhaseTrace(phase, attempts, k - 1) + AttemptEvents(phase, k - 1, attempts[k - 1])
  }

  const SyncFailedMessage := "Failed to sync stream with ingesters"

  /** The saga over a registry snapshot: forward calls up to and including
      the first failing one; if there was one, rollback calls from the first
      node on, up to and including the first failing rollback. */
  function Saga(nodes: seq<NodeDescriptor>, forward: seq<Attempt>, rollback: seq<Attempt>): (Result<(), StreamError>, seq<Event>)
    requires |forward| == |nodes| && |rollback| == |nodes|
  {
    var f := FirstViolation(forward, Passes);
    if f == |nodes| then (Success(()), PhaseTrace(Forward, forward, |nodes|))
    else
      var attempted := PhaseTrace(Forward, forward, f + 1);
      var g := FirstViolation(rollback, Passes);
      if g == |nodes| then
        (Failure(Custom(SyncFailedMessage, StatusInternalServerError)), attempted + PhaseTrace(Rollback, rollback, |nodes|))
      else
        (SendStreamRollbackRequest(nodes[g], rollback[g]), attempted + PhaseTrace(Rollback, rollback, g + 1))
  }

  /** Each reply sequence has one entry per node of the registry snapshot. */
  predicate RepliesCoverRegistry(listing: Listing<NodeDescriptor>, forwardCount: nat, rollbackCount: nat)
  {
    var infos := GetIngesterInfo(listing);
    infos.Success? ==> forwardCount == |infos.value| && rollbackCount == |infos.value|
  }

  /** The whole operation: a registry failure aborts before any node is
      contacted. */
  function SyncSpec(listing: Listing<NodeDescriptor>, forward: seq<Attempt>, rollback: seq<Attempt>): (Result<(), StreamError>, seq<Event>)
    requires RepliesCoverRegistry(listing, |forward|, |rollback|)
  {
    match GetIngesterInfo(listing)
    case Failure(e) => (Failure(Anyhow(FromStorage(e))), [])
    case Success(nodes) => Saga(nodes, forward, rollback)
  }

  /** `sync_streams_with_ingesters`. */
  method SyncStreamsWithIngesters(listing: Listing<NodeDescriptor>, forward: seq<Attempt>, rollback: seq<Attempt>)
    returns (r: Result<(), StreamError>, trace: seq<Event>)
    requires RepliesCoverRegistry(listing, |forward|, |rollback|)
    ensures (r, trace) == SyncSpec(listing, forward, rollback)
  {
    var infos := GetIngesterInfo(listing);
    if infos.Failure? {
      return Failure(Anyhow(FromStorage(infos.error))), [];
    }
    r, trace := RunSaga(infos.value, forward, rollback);
  }

  /** The saga over one registry snapshot: the forward loop, then, after a
      failure, the rollback loop. */
  method RunSaga(nodes: seq<NodeDescriptor>, forward: seq<Attempt>, rollback: seq<Attempt>)
    returns (r: Result<(), StreamError>, trace: seq<Event>)
    requires |forward| == |nodes| && |rollback| == |nodes|
    ensures (r, trace) == Saga(nodes, forward, rollback)
  {
    trace := [];
    var errored := false;
    var i := 0;
    while i < |nodes|
      invariant i <= |nodes|
      invariant !errored
      invariant trace == PhaseTrace(Forward, forward, i)
      invariant forall j :: 0 <= j < i ==> Passes(forward[j])
    {
      trace := trace + AttemptEvents(Forward, i, forward[i]);
      var sent := SendStreamSyncRequest(nodes[i], forward[i]);
      if sent.Failure? {
        errored := true;
        break;
      }
      i := i + 1;
    }

    if errored {
      FirstViolationUnique(forward, Passes, i);
      assert trace == PhaseTrace(Forward, forward, i + 1);
      var undone, undoTrace := RollBackAll(nodes, rollback);
      return undone, trace + undoTrace;
    }
    FirstViolationUnique(forward, Passes, i);
    r := Success(());
  }

  /** The rollback loop: every node in registry order until the first
      rollback that fails, whose error is the result; when none fails, the
      generic sync error. */
  method RollBackAll(nodes: seq<NodeDescriptor>, rollback: seq<Attempt>)
    returns (r: Result<(), StreamError>, trace: seq<Event>)
    requires |rollback| == |nodes|
    ensures var g := FirstViolation(rollback, Passes);
      trace == PhaseTrace(Rollback, rollback, if g == |nodes| then g else g + 1) &&
      r == if g == |nodes| then Failure(Custom(SyncFailedMessage, StatusInternalServerError))
           else SendStreamRollbackRequest(nodes[g], rollback[g])
  {
    trace := [];
    var j := 0;
    while j < |nodes|
      invariant j <= |nodes|
      invariant trace == PhaseTrace(Rollback, rollback, j)
      invariant forall k :: 0 <= k < j ==> Passes(rollback[k])
    {
      trace := trace + AttemptEvents(Rollback, j, rollback[j]);
      var undone := SendStreamRollbackRequest(nodes[j], rollback[j]);
      if undone.Failure? {
        FirstViolationUnique(rollback, Passes, j);
        return undone, trace;
      }
      j := j + 1;
    }
    FirstViolationUnique(rollback, Passes, j);
    r := Failure(Custom(SyncFailedMessage, StatusInternalServerError));
  }
}
