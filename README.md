# Parseable cluster layer — a Dafny model

This project models the coordination layer that a Parseable query node
runs over its ingestion nodes (`server/src/handlers/http/cluster/mod.rs`).
The model covers:

- **Node registry** (`get_ingester_info`). The set of ingestion nodes is
  whatever `ingester…` metadata files the object store lists at call time,
  one descriptor per file. A file that does not parse gives the default
  descriptor. A listing error is passed on.
- **Stream sync saga** (`sync_streams_with_ingesters` with
  `send_stream_sync_request` and `send_stream_rollback_request`). The
  stream is sent to each node in registry order. Unreachable nodes are
  skipped. The forward phase stops at the first node that fails. After a
  failure, every node of the registry is sent a rollback. The result is the
  first failing rollback's own error, or the generic 500 error when every
  rollback passes.
- **Cluster statistics** (`fetch_stats_from_ingesters`). The counters of the
  `.ingester…` stats files that parse are summed. Files that do not parse
  are skipped. One record is returned, with `"<n> Bytes"` size texts.
- **Cluster info** (`get_cluster_info`). The answer has one entry per
  registered node. A reachable node reports its status and staging path; an
  unreachable one reports the error text. A body that cannot be read or is
  not JSON aborts the whole call.
- **Cluster metrics** (`get_cluster_metrics`). The answer has one sample set
  per node that answered, tagged with its address. Unreachable nodes are
  left out. A body that cannot be read or parsed aborts the call.
- **Node removal** (`remove_ingester`). A live node is refused. Otherwise
  the node's metadata file is deleted, and the outcome is reported as one
  of three messages with status 200.

Everything the source does over the network or the object store is an
input to the model:

- A store listing is a `Result` holding the listed files, each with its
  name and what deserialising it gives.
- Each node's reply is an element of a sequence indexed by registry
  position. This covers the liveness probe, the HTTP response or transport
  error, and the body as read and parsed.
- The sync operation also returns a trace of `Probe` and `Request` events.
  This makes "which nodes were contacted, in which order" something the
  contracts can state.

Every loop of the source is a `method` with a `while` or `for` loop. Each
is proved against a specification function (`Saga`, `TotalsUpTo`,
`Collected`, `FirstViolation`). The properties of those functions are
proved as lemmas.

Modules:

| module | file | contents |
|---|---|---|
| `Wrappers` | `wrappers.dfy` | `Option`, `Result` |
| `Seqs` | `seqs.dfy` | name prefixes; the first element that breaks a rule |
| `ObjectStore` | `storage.dfy` | listings and the name filter of `get_objects` |
| `ClusterTypes` | `types.dfy` | descriptors, error enums, HTTP status classes |
| `Registry` | `registry.dfy` | `get_ingester_info` |
| `StreamSync` | `sync.dfy` | sync, rollback and the saga |
| `StreamSyncProperties` | `sync_properties.dfy` | what the saga guarantees |
| `Decimal` | `decimal.dfy` | `format!("{} Bytes", n)` and its parser |
| `ClusterStats` | `stats.dfy` | `fetch_stats_from_ingesters` |
| `NodeInfo` | `cluster_info.dfy` | `get_cluster_info` |
| `ClusterMetrics` | `metrics.dfy` | `get_cluster_metrics` |
| `NodeRemoval` | `removal.dfy` | `remove_ingester` |

Three behaviours of the source are worth stating outright:

- **Malformed registry entries are kept.** A malformed `ingester…` file is
  not skipped: `unwrap_or_default` (mod.rs:362) gives the default
  descriptor, so N well-formed plus M malformed files give N + M entries.
  `GetIngesterInfo` states this.
- **Metrics failures abort.** Only a failed send omits a node from the
  metrics. A body that cannot be read, or exposition text that does not
  parse, aborts the whole call with `?` (mod.rs:326-331). `GatherMetrics`
  states this.
- **A rollback failure is the rollback's own error.** The caller gets the
  failing rollback's error: a network error, or a custom 500 error with
  the rollback message (mod.rs:100, 207-232). `RollBackAll` states this.

## Model

| member | source | states |
|---|---|---|
| ObjectStore.WithPrefix | server/src/handlers/http/cluster/mod.rs:354-358 | the listing's name filter keeps exactly the files whose name starts with the prefix, and never adds files |
| ObjectStore.WithPrefixAppend | server/src/handlers/http/cluster/mod.rs:354-360 | the filter keeps listing order: it distributes over concatenated listings |
| ObjectStore.WithPrefixMultiset | server/src/handlers/http/cluster/mod.rs:118-124 | the filter keeps every copy of a matching file and drops every copy of a non-matching one |
| ObjectStore.WithPrefixPermutation | server/src/handlers/http/cluster/mod.rs:118-124 | two listings with the same files in any order give filtered listings with the same files |
| Registry.GetIngesterInfo | server/src/handlers/http/cluster/mod.rs:350-366 | a listing error is returned unchanged; otherwise one descriptor per `ingester…` file, in listing order: the parsed descriptor, or the default one for a file that does not parse |
| Registry.RegistryMembership | server/src/handlers/http/cluster/mod.rs:354-363 | a descriptor is in the registry if and only if some listed `ingester…` file yields it |
| Registry.PublishedDescriptorIsListed | server/src/handlers/http/cluster/mod.rs:362 | every well-formed `ingester…` file's descriptor is in the registry |
| Registry.RegistryAppend | server/src/handlers/http/cluster/mod.rs:354-363 | the registry of listing `a` then `b` is the registry of `a` followed by that of `b` |
| StreamSync.SendStreamSyncRequest | server/src/handlers/http/cluster/mod.rs:148-188 | succeeds if and only if the node is unreachable or answers 2xx; a transport error and a non-2xx answer both give a network error, carrying the message or the status (a 1xx or 3xx answer panics in the source; see "## Left out") |
| StreamSync.SendStreamRollbackRequest | server/src/handlers/http/cluster/mod.rs:192-236 | succeeds if and only if the node is unreachable or answers 2xx; a transport error gives a network error; a non-2xx answer gives a custom 500 error whose message is the rollback message, starting with the rollback prefix and the node's address and quoting the response body |
| StreamSync.SyncStreamsWithIngesters | server/src/handlers/http/cluster/mod.rs:53-111 | result and trace are those of `SyncSpec`: a registry error aborts before any node is contacted, otherwise the saga runs over the registry snapshot |
| StreamSync.RunSaga | server/src/handlers/http/cluster/mod.rs:64-110 | the forward loop stops at the first failing node, and after a failure the rollback loop runs; result and trace are those of `Saga` |
| StreamSync.RollBackAll | server/src/handlers/http/cluster/mod.rs:90-107 | rollbacks go to every node in registry order until the first one that fails, whose error is the result; when none fails, the result is the generic 500 error |
| StreamSyncProperties.PhaseTraceMembership | server/src/handlers/http/cluster/mod.rs:65-88 | in a phase stopped at `k`, each position below `k` is probed, a request goes exactly to the live ones, and nothing else happens |
| StreamSyncProperties.PhaseTraceOrdered | server/src/handlers/http/cluster/mod.rs:65-88 | the calls of one phase are in registry order |
| StreamSyncProperties.CleanSync | server/src/handlers/http/cluster/mod.rs:64-110 | the sync succeeds if and only if every forward call passes (2xx or skipped as unreachable), and then no rollback event occurs |
| StreamSyncProperties.SagaTrace | server/src/handlers/http/cluster/mod.rs:64-108 | the trace is the forward phase up to its first failure, followed by the rollback phase after a failure |
| StreamSyncProperties.ForwardHaltsAtFirstFailure | server/src/handlers/http/cluster/mod.rs:65-88 | position `i` is probed forward if and only if it is at or before the first failure, and sent the stream if and only if it is also live; no node after the failure is contacted |
| StreamSyncProperties.FailedSyncRollsBack | server/src/handlers/http/cluster/mod.rs:90-108 | after a forward failure the result is never success: it is the generic 500 error when all rollbacks pass (every node probed), otherwise the first failing rollback's own error, with no node after it contacted |
| StreamSyncProperties.TraceInRegistryOrder | server/src/handlers/http/cluster/mod.rs:65-101 | within each phase nodes are contacted in registry order, and every forward event precedes every rollback event |
| StreamSyncProperties.SecondOfThreeFails | server/src/handlers/http/cluster/mod.rs:64-110 | with three nodes where the second rejects the stream: nodes one and two get the stream, node three is not contacted forward, all three get a rollback, and the result is the generic error |
| StreamSyncProperties.RegistryFailureAbortsSync | server/src/handlers/http/cluster/mod.rs:59-62 | a registry error aborts the sync with an `Anyhow` error and an empty trace |
| Decimal.NatToString | server/src/handlers/http/cluster/mod.rs:140-141 | the numeral is all digits, at least one, with no leading zero |
| Decimal.ParseNatToString | server/src/handlers/http/cluster/mod.rs:140-141 | reading a rendered numeral gives back the number |
| Decimal.ParseBytesText | server/src/handlers/http/cluster/mod.rs:140-141 | a `"<n> Bytes"` text reads back as `n` |
| ClusterStats.StatsRecord | server/src/handlers/http/cluster/mod.rs:137-142 | the record has an empty stream name, the given time, the event total as the count, the byte totals rendered as `"<n> Bytes"` (canonical numeral, which reads back as the total), and the formats `json` and `parquet` |
| ClusterStats.FetchStatsFromIngesters | server/src/handlers/http/cluster/mod.rs:114-145 | a listing error becomes a storage error; otherwise exactly one record holding the totals over the `.ingester…` files that parse |
| ClusterStats.TotalsAppend | server/src/handlers/http/cluster/mod.rs:129-135 | totals are additive over concatenated listings |
| ClusterStats.TotalsPermutation | server/src/handlers/http/cluster/mod.rs:129-135 | totals do not depend on the order of the files |
| ClusterStats.StatsIndependentOfListingOrder | server/src/handlers/http/cluster/mod.rs:118-135 | the cluster totals depend only on which files are listed, not on listing order |
| ClusterStats.CorruptTailIgnored | server/src/handlers/http/cluster/mod.rs:130-134 | a trailing file that does not parse leaves the totals unchanged |
| ClusterStats.CorruptFileIgnored | server/src/handlers/http/cluster/mod.rs:129-135 | a corrupt file anywhere among valid ones leaves the totals those of the valid ones |
| ClusterStats.ForeignFileIgnored | server/src/handlers/http/cluster/mod.rs:121-124 | a file not named `.ingester…` never reaches the totals, wherever it is listed |
| NodeInfo.GetClusterInfo | server/src/handlers/http/cluster/mod.rs:238-301 | a registry error aborts; a body that cannot be read or is not JSON aborts with that node's error; otherwise exactly one entry per node, in registry order, each describing the node as its reply shows it |
| NodeInfo.GatherClusterInfo | server/src/handlers/http/cluster/mod.rs:244-300 | succeeds if and only if every reply reads as JSON or is a failed send; the error is that of the first reply that does not; on success entry `i` describes node `i` |
| NodeInfo.EntryDescribesUnique | server/src/handlers/http/cluster/mod.rs:261-297 | an entry is fully determined by the node, its reply and the storage endpoint |
| ClusterMetrics.GetClusterMetrics | server/src/handlers/http/cluster/mod.rs:303-347 | a registry error aborts as `Invalid`; an unreadable or unparsable body aborts with that node's error; otherwise the answer is the sample sets of the nodes that answered |
| ClusterMetrics.GatherMetrics | server/src/handlers/http/cluster/mod.rs:309-346 | succeeds if and only if every reply parses or is a failed send; the error is that of the first that does not; on success the answer is `Collected` over all nodes |
| ClusterMetrics.CollectedCount | server/src/handlers/http/cluster/mod.rs:325-343 | there is one sample set per node that answered, so never more than there are nodes |
| ClusterMetrics.CollectedMembership | server/src/handlers/http/cluster/mod.rs:334-337 | a sample set is collected if and only if some node answered with those samples and has that address |
| NodeRemoval.MessagesDistinct | server/src/handlers/http/cluster/mod.rs:387-395 | the removed, not-found and failure messages are pairwise different |
| NodeRemoval.RemoveIngester | server/src/handlers/http/cluster/mod.rs:368-401 | a live node is refused with "Node Online" and nothing is deleted; otherwise the delete is issued and the answer is status 200 with the removed message exactly when it succeeds, the not-found message exactly on an I/O error, and the failure message with the reason otherwise |

## Left out

- HTTP transport: URL building, headers, the auth token, timeouts and the
  `reqwest` client. Each node's reply, including the liveness probe's
  verdict, is an input sequence indexed by registry position.
- Object store I/O and paths (`RelativePathBuf`, `get_objects`,
  `try_delete_ingester_meta`). A listing and a delete outcome are inputs;
  deserialisation with `serde_json` is part of each listed file.
- `check_liveness`, `to_url_string`, `ingester_metadata_path` and
  `base_path_without_preceding_slash` are not part of this model. Their
  results are inputs: the liveness verdict, and the already normalised
  address.
- `Utc::now()` is a parameter of `FetchStatsFromIngesters`.
- Logging (`log::error!`, `log::warn!`, `log::info!`) has no effect on
  results and is not modelled.
- `IngesterMetadata` fields other than the address and the token, and the
  JSON serialisation of the responses, are not modelled.
- Concurrency: the source awaits each call in turn, so the model is
  sequential. Concurrent changes to the registry between calls are not
  modelled, since each call works on one snapshot.
- FetchStatsFromIngesters: the counters are unbounded naturals, so the
  overflow of the source's `u64` accumulators is not modelled.
- SendStreamRollbackRequest: the body is quoted as `{:?}` prints it, but
  Rust's escaping of quotes, backslashes and control characters inside it
  is not modelled. A body that cannot be read is given to the model as the
  empty string, as `unwrap_or_default` gives.
- SendStreamSyncRequest: the error is the transport message or the status
  code, not `reqwest`'s full error value. A live node that answers the PUT
  with a 1xx or 3xx status makes the source panic, because
  `error_for_status` returns `Ok` for those and `unwrap_err` fails
  (mod.rs:184). The model reports `Network(StatusError(s))` for such an
  answer instead, and the saga goes on to roll back.
- GetClusterInfo: a JSON `/about` body without a string `staging` field
  makes the source panic (`unwrap`). The model excludes this with a
  precondition on the replies the loop reaches. The `Url::parse(...).expect`
  panic is not modelled. The status text and error text of each reply are
  inputs, as `to_string` renders them.
- GetClusterMetrics: `Url::parse(...).unwrap()` is not modelled. Prometheus
  parsing is an input (samples, or a parse error), and
  `Metrics::from_prometheus_samples` is modelled as tagging the samples
  with the node's address.
- RemoveIngester: the `unwrap`s on the request path and on the address's
  host and port are not modelled. The failure reason is the storage
  error's message, not the full `Display` of `ObjectStorageError`.
