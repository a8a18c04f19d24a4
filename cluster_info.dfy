/** Cluster information (`get_cluster_info`): every registered node is
    asked for its `/about` document; the answer becomes one entry per node
    saying whether it was reachable, where it stages data, and the status or
    error seen. */
module NodeInfo {
  import opened Wrappers
  import opened Seqs
  import opened ObjectStore
  import opened ClusterTypes
  import opened Registry

  /** What reading and parsing an `/about` response body gives: the bytes
      could not be read, they are not JSON, or a JSON document whose
      `staging` field is a string (`Some`) or is missing or not a string
      (`None`). */
  datatype AboutBody = BodyUnreadable(message: string) | NotJson(message: string) | Json(staging: Option<string>)

  /** The outcome of the `/about` request to one node: a response with its
      rendered status line and body, or a failed send with the error text
      and the status it carries, if any. */
  datatype AboutReply = Responded(status: string, body: AboutBody) | SendFailed(message: string, errorStatus: Option<string>)

  /** `utils::ClusterInfo`, one entry of the answer. */
  datatype ClusterInfo = ClusterInfo(
    domainName: string,
    reachable: bool,
    stagingPath: string,
    storageEndpoint: string,
    error: Option<string>,
    status: Option<string>)

  /** A reply the loop can get past: a failed send, or a body that is JSON. */
  predicate Completes(a: AboutReply)
  {
    !a.Responded? || a.body.Json?
  }

  /** A JSON `/about` document carries a string `staging` field; the source
      unwraps it and panics otherwise. */
  predicate WellShaped(a: AboutReply)
  {
    !(a.Responded? && a.body.Json? && a.body.staging.None?)
  }

  /** The error that aborts the whole call when a body cannot be read or is
      not JSON. */
  function AboutError(a: AboutReply): StreamError
  {
    match a
    case Responded(_, BodyUnreadable(m)) => Network(Transport(m))
    case Responded(_, NotJson(m)) => SerdeError(m)
    case _ => SerdeError("")
  }

  /** The entry `e` reports node `node` as seen through reply `a`: a node that
      answered is reachable, with no error, its status and its staging path;
      a node that could not be reached has an empty staging path and carries
      the error text and whatever status the error had. */
  predicate EntryDescribes(e: ClusterInfo, node: NodeDescriptor, a: AboutReply, endpoint: string)
  {
    e.domainName == node.domainName && e.storageEndpoint == endpoint &&
    (e.reachable <==> a.Responded?) &&
    match a
    case Responded(status, body) =>
      e.error.None? && e.status == Some(status) && body == Json(Some(e.stagingPath))
    case SendFailed(message, status) =>
      e.stagingPath == "" && e.error == Some(message) && e.status == status
  }

  /** `get_cluster_info`. A registry failure aborts before any request; a
      body that cannot be read or parsed aborts the whole call with that
      node's error; otherwise the answer has exactly one entry per
      registered node, in registry order. */
  method GetClusterInfo(listing: Listing<NodeDescriptor>, about: seq<AboutReply>, endpoint: string)
    returns (r: Result<seq<ClusterInfo>, StreamError>)
    requires GetIngesterInfo(listing).Success? ==> |about| == |GetIngesterInfo(listing).value|
    requires forall i :: 0 <= i < FirstViolation(about, Completes) ==> WellShaped(about[i])
    ensures listing.Failure? ==> r == Failure(Anyhow(FromStorage(listing.error)))
    ensures listing.Success? ==>
      var nodes := GetIngesterInfo(listing).value;
      var k := FirstViolation(about, Completes);
      (r.Success? <==> k == |nodes|) &&
      (r.Failure? ==> r.error == AboutError(about[k])) &&
      (r.Success? ==>
         |r.value| == |nodes| &&
         forall i :: 0 <= i < |nodes| ==> EntryDescribes(r.value[i], nodes[i], about[i], endpoint))
  {
    var registry := GetIngesterInfo(listing);
    if registry.Failure? {
      return Failure(Anyhow(FromStorage(registry.error)));
    }
    r := GatherClusterInfo(registry.value, about, endpoint);
  }

  /** The loop of `get_cluster_info` over the registered nodes, in registry
      order. */
  method GatherClusterInfo(nodes: seq<NodeDescriptor>, about: seq<AboutReply>, endpoint: string)
    returns (r: Result<seq<ClusterInfo>, StreamError>)
    requires |about| == |nodes|
    requires forall i :: 0 <= i < FirstViolation(about, Completes) ==> WellShaped(about[i])
    ensures var k := FirstViolation(about, Completes);
      (r.Success? <==> k == |nodes|) &&
      (r.Failure? ==> r.error == AboutError(about[k])) &&
      (r.Success? ==>
         |r.value| == |nodes| &&
         forall i :: 0 <= i < |nodes| ==> EntryDescribes(r.value[i], nodes[i], about[i], endpoint))
  {
    var infos: seq<ClusterInfo> := [];
    for i := 0 to |nodes|
      invariant forall j :: 0 <= j < i ==> Completes(about[j])
      invariant |infos| == i
      invariant forall j :: 0 <= j < i ==> EntryDescribes(infos[j], nodes[j], about[j], endpoint)
    {
      var reachable, stagingPath, error, status;
      match about[i] {
        case Responded(st, body) =>
          match body {
            case BodyUnreadable(m) =>
              FirstViolationUnique(about, Completes, i);
              return Failure(Network(Transport(m)));
            case NotJson(m) =>
              FirstViolationUnique(about, Completes, i);
              return Failure(SerdeError(m));
            case Json(staging) =>
              assert i < FirstViolation(about, Completes);
              reachable, stagingPath, error, status := true, staging.value, None, Some(st);
          }
        case SendFailed(m, st) =>
          reachable, stagingPath, error, status := false, "", Some(m), st;
      }
      infos := infos + [ClusterInfo(nodes[i].domainName, reachable, stagingPath, endpoint, error, status)];
    }
    FirstViolationUnique(about, Completes, |nodes|);
    r := Success(infos);
  }

  /** An entry is determined by the node, the reply and the endpoint: the
      answer leaves nothing to chance. */
  lemma EntryDescribesUnique(e1: ClusterInfo, e2: ClusterInfo, node: NodeDescriptor, a: AboutReply, endpoint: string)
    requires EntryDescribes(e1, node, a, endpoint) && EntryDescribes(e2, node, a, endpoint)
    ensures e1 == e2
  {
    match a
    case Responded(_, body) =>
      assert Json(Some(e1.stagingPath)) == Json(Some(e2.stagingPath));
    case SendFailed(_, _) =>
  }
}
