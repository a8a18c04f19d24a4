/** Cluster metrics (`get_cluster_metrics`): every registered node's
    `/metrics` page is fetched and parsed; the answer has one sample set per
    node that answered, tagged with that node's address. */
module ClusterMetrics {
  import opened Wrappers
  import opened Seqs
  import opened ObjectStore
  import opened ClusterTypes
  import opened Registry

  /** One parsed sample of the exposition text. */
  datatype Sample = Sample(metric: string, value: int)

  /** What reading and parsing a `/metrics` body gives. */
  datatype MetricsBody = TextUnreadable(message: string) | Unparsable(message: string) | Samples(samples: seq<Sample>)

  /** The outcome of the `/metrics` request to one node. A response with
      any status counts as an answer; only a failed send does not. */
  datatype MetricsReply = Responded(body: MetricsBody) | SendFailed(message: string)

  /** `Metrics`: a node's samples, tagged with its address. */
  datatype Metrics = Metrics(address: string, samples: seq<Sample>)

  /** A reply the loop can get past: a failed send, or parsed samples. */
  predicate Completes(a: MetricsReply)
  {
    !a.Responded? || a.body.Samples?
  }

  /** The error that aborts the whole call when a body cannot be read or
      parsed. */
  function MetricsError(a: MetricsReply): PostError
  {
    match a
    case Responded(TextUnreadable(m)) => NetworkError(m)
    case Responded(Unparsable(m)) => CustomError(m)
    case _ => CustomError("")
  }

  /** The sample sets gathered from the nodes at positions `0 .. k-1`: one
      per node that answered, in registry order; nodes that could not be
      reached are left out. */
  function Collected(nodes: seq<NodeDescriptor>, replies: seq<MetricsReply>, k: nat): seq<Metrics>
    requires k <= |nodes| && |replies| == |nodes|
  {
    if k == 0 then []
    else
      var gathered := match replies[k - 1]
        case Responded(Samples(s)) => [Metrics(nodes[k - 1].domainName, s)]
        case _ => [];
      Collected(nodes, replies, k - 1) + gathered
  }

  /** How many of the nodes at positions `0 .. k-1` answered. */
  function Answered(replies: seq<MetricsReply>, k: nat): nat
    requires k <= |replies|
  {
    if k == 0 then 0 else Answered(replies, k - 1) + (if replies[k - 1].Responded? then 1 else 0)
  }

  /** `get_cluster_metrics`. A registry failure aborts before any request; a
      body that cannot be read or parsed aborts the whole call with that
      node's error; otherwise the answer is the sample sets of the nodes that
      answered. */
  method GetClusterMetrics(listing: Listing<NodeDescriptor>, replies: seq<MetricsReply>)
    returns (r: Result<seq<Metrics>, PostError>)
    requires GetIngesterInfo(listing).Success? ==> |replies| == |GetIngesterInfo(listing).value|
    ensures listing.Failure? ==> r == Failure(Invalid(FromStorage(listing.error)))
    ensures listing.Success? ==>
      var nodes := GetIngesterInfo(listing).value;
      var k := FirstViolation(replies, Completes);
      (r.Success? <==> k == |nodes|) &&
      (r.Failure? ==> r.error == MetricsError(replies[k])) &&
      (r.Success? ==> r.value == Collected(nodes, replies, |nodes|))
  {
    var registry := GetIngesterInfo(listing);
    if registry.Failure? {
      return Failure(Invalid(FromStorage(registry.error)));
    }
    r := GatherMetrics(registry.value, replies);
  }

  /** The loop of `get_cluster_metrics` over the registered nodes, in
      registry order. */
  method GatherMetrics(nodes: seq<NodeDescriptor>, replies: seq<MetricsReply>)
    returns (r: Result<seq<Metrics>, PostError>)
    requires |replies| == |nodes|
    ensures var k := FirstViolation(replies, Completes);
      (r.Success? <==> k == |nodes|) &&
      (r.Failure? ==> r.error == MetricsError(replies[k])) &&
      (r.Success? ==> r.value == Collected(nodes, replies, |nodes|))
  {
    var gathered: seq<Metrics> := [];
    for i := 0 to |nodes|
      invariant forall j :: 0 <= j < i ==> Completes(replies[j])
      invariant gathered == Collected(nodes, replies, i)
    {
      match replies[i] {
        case Responded(body) =>
          match body {
            case TextUnreadable(m) =>
              FirstViolationUnique(replies, Completes, i);
              return Failure(NetworkError(m));
            case Unparsable(m) =>
              FirstViolationUnique(replies, Completes, i);
              return Failure(CustomError(m));
            case Samples(s) =>
              gathered := gathered + [Metrics(nodes[i].domainName, s)];
          }
        case SendFailed(_) =>
      }
    }
    FirstViolationUnique(replies, Completes, |nodes|);
    r := Success(gathered);
  }

  /** Once every reply reached completes, there is exactly one sample set per
      node that answered, so never more than there are nodes. */
  lemma {:induction false} CollectedCount(nodes: seq<NodeDescriptor>, replies: seq<MetricsReply>, k: nat)
    requires k <= |nodes| && |replies| == |nodes|
    requires forall j :: 0 <= j < k ==> Completes(replies[j])
    ensures |Collected(nodes, replies, k)| == Answered(replies, k) <= k
  {
    if k > 0 {
      CollectedCount(nodes, replies, k - 1);
    }
  }

  /** Each sample set is tagged with the address of the node it came from:
      a set is collected exactly when some node below `k` answered with
      those samples and has that address. */
  lemma {:induction false} CollectedMembership(nodes: seq<NodeDescriptor>, replies: seq<MetricsReply>, k: nat, m: Metrics)
    requires k <= |nodes| && |replies| == |nodes|
    ensures m in Collected(nodes, replies, k) <==>
            exists i :: 0 <= i < k && replies[i] == Responded(Samples(m.samples)) && nodes[i].domainName == m.address
  {
    if k > 0 {
      CollectedMembership(nodes, replies, k - 1, m);
      var i := k - 1;
      if replies[i] == Responded(Samples(m.samples)) && nodes[i].domainName == m.address {
        assert m in Collected(nodes, replies, k);
      }
    }
  }
}
