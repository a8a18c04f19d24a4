/** Cluster-wide stream statistics (`fetch_stats_from_ingesters`): each
    ingestion node publishes, per stream, a `.ingester…` file with its
    counters; the coordinator sums the ones that parse. */
module ClusterStats {
  import opened Wrappers
  import opened Seqs
  import opened ObjectStore
  import opened ClusterTypes
  import opened Decimal

  /** The counters of one node's stream snapshot (`ObjectStoreFormat.stats`). */
  datatype Stats = Stats(events: nat, ingestion: nat, storage: nat)

  const NoStats := Stats(0, 0, 0)

  /** Per-node stats files of a stream are the ones named `.ingester…`. */
  const StatsPrefix := ".ingester"

  function Add(a: Stats, b: Stats): Stats
  {
    Stats(a.events + b.events, a.ingestion + b.ingestion, a.storage + b.storage)
  }

  /** A file that does not parse is skipped: it adds nothing. */
  function Contribution(o: StoredObject<Stats>): Stats
  {
    match o.parsed
    case Some(s) => s
    case None => NoStats
  }

  /** The running totals over the first `k` files, accumulated front to
      back. */
  function TotalsUpTo(files: seq<StoredObject<Stats>>, k: nat): Stats
    requires k <= |files|
  {
    if k == 0 then NoStats
    else Add(TotalsUpTo(files, k - 1), Contribution(files[k - 1]))
  }

  /** The totals over all of `files`. */
  function Totals(files: seq<StoredObject<Stats>>): Stats
  {
    TotalsUpTo(files, |files|)
  }

  datatype IngestionStats = IngestionStats(count: nat, size: string, format: string)
  datatype StorageStats = StorageStats(size: string, format: string)

  /** `QueriedStats`: the record returned to the client, with the time it
      was produced. */
  datatype QueriedStats = QueriedStats(stream: string, time: int, ingestion: IngestionStats, storage: StorageStats)

  /** The cluster record: the event total as a number, the byte totals as
      `"<n> Bytes"` texts that read back as the totals, and the fixed
      formats `json` (ingestion) and `parquet` (storage). */
  function StatsRecord(totals: Stats, now: int): (q: QueriedStats)
    ensures q.stream == "" && q.time == now
    ensures q.ingestion.count == totals.events
    ensures ParseBytes(q.ingestion.size) == Some(totals.ingestion)
    ensures ParseBytes(q.storage.size) == Some(totals.storage)
    ensures q.ingestion.size == BytesText(totals.ingestion) && q.storage.size == BytesText(totals.storage)
    ensures q.ingestion.format == "json" && q.storage.format == "parquet"
  {
    ParseBytesText(totals.ingestion);
    ParseBytesText(totals.storage);
    QueriedStats("", now, IngestionStats(totals.events, BytesText(totals.ingestion), "json"),
                 StorageStats(BytesText(totals.storage), "parquet"))
  }

  /** `fetch_stats_from_ingesters`: a listing error is passed on; otherwise
      exactly one record, holding the totals over the `.ingester…` files
      that parse. The clock reading is an input. */
  method FetchStatsFromIngesters(listing: Listing<Stats>, now: int) returns (r: Result<seq<QueriedStats>, StreamError>)
    ensures listing.Failure? ==> r == Failure(Storage(listing.error))
    ensures listing.Success? ==>
      r == Success([StatsRecord(Totals(WithPrefix(listing.value, StatsPrefix)), now)])
  {
    if listing.Failure? {
      return Failure(Storage(listing.error));
    }
    var obs := WithPrefix(listing.value, StatsPrefix);
    var ingestionSize: nat := 0;
    var storageSize: nat := 0;
    var count: nat := 0;
    for i := 0 to |obs|
      invariant Stats(count, ingestionSize, storageSize) == TotalsUpTo(obs, i)
    {
      match obs[i].parsed {
        case Some(stat) =>
          count := count + stat.events;
          ingestionSize := ingestionSize + stat.ingestion;
          storageSize := storageSize + stat.storage;
        case None =>
      }
    }
    r := Success([StatsRecord(Stats(count, ingestionSize, storageSize), now)]);
  }

  lemma AddZero(x: Stats)
    ensures Add(x, NoStats) == x && Add(NoStats, x) == x
  {
  }

  lemma AddAssociative(x: Stats, y: Stats, z: Stats)
    ensures Add(Add(x, y), z) == Add(x, Add(y, z))
  {
  }

  lemma AddSwap(x: Stats, y: Stats, z: Stats)
    ensures Add(Add(x, y), z) == Add(Add(x, z), y)
  {
  }

  /** The totals of a prefix do not look past it. */
  lemma {:induction false} TotalsUpToPrefix(a: seq<StoredObject<Stats>>, b: seq<StoredObject<Stats>>, k: nat)
    requires k <= |a|
    ensures TotalsUpTo(a + b, k) == TotalsUpTo(a, k)
  {
    if k > 0 {
      TotalsUpToPrefix(a, b, k - 1);
      assert (a + b)[k - 1] == a[k - 1];
    }
  }

  lemma {:induction false} TotalsUpToAppend(a: seq<StoredObject<Stats>>, b: seq<StoredObject<Stats>>, j: nat)
    requires j <= |b|
    ensures TotalsUpTo(a + b, |a| + j) == Add(Totals(a), TotalsUpTo(b, j))
  {
    if j == 0 {
      TotalsUpToPrefix(a, b, |a|);
      AddZero(Totals(a));
    } else {
      TotalsUpToAppend(a, b, j - 1);
      assert (a + b)[|a| + j - 1] == b[j - 1];
      AddAssociative(Totals(a), TotalsUpTo(b, j - 1), Contribution(b[j - 1]));
    }
  }

  /** Totals are additive over concatenated listings. */
  lemma TotalsAppend(a: seq<StoredObject<Stats>>, b: seq<StoredObject<Stats>>)
    ensures Totals(a + b) == Add(Totals(a), Totals(b))
  {
    TotalsUpToAppend(a, b, |b|);
  }

  /** The totals of a single file are its contribution. */
  lemma TotalsSingleton(x: StoredObject<Stats>)
    ensures Totals([x]) == Contribution(x)
  {
    assert TotalsUpTo([x], 0) == NoStats;
    AddZero(Contribution(x));
  }

  /** Totals do not depend on listing order: any rearrangement of the same
      files gives the same totals. */
  lemma {:induction false} TotalsPermutation(a: seq<StoredObject<Stats>>, b: seq<StoredObject<Stats>>)
    requires multiset(a) == multiset(b)
    ensures Totals(a) == Totals(b)
    decreases |a|
  {
    if |a| == 0 {
      assert |b| == |multiset(b)| == 0;
    } else {
      var x := a[|a| - 1];
      var a' := a[..|a| - 1];
      assert a == a' + [x];
      assert x in multiset(b);
      var j :| 0 <= j < |b| && b[j] == x;
      var left, right := b[..j], b[j + 1..];
      assert b == left + [x] + right;
      assert multiset(left + right) == multiset(b) - multiset{x};
      assert multiset(a') == multiset(a) - multiset{x};
      TotalsPermutation(a', left + right);
      var tl, tr, tx := Totals(left), Totals(right), Contribution(x);
      // Totals(a) == Totals(a') + x
      TotalsAppend(a', [x]);
      TotalsSingleton(x);
      // Totals(b) == (Totals(left) + x) + Totals(right)
      TotalsAppend(left + [x], right);
      TotalsAppend(left, [x]);
      // Totals(a') == Totals(left) + Totals(right)
      TotalsAppend(left, right);
      AddSwap(tl, tx, tr);
    }
  }

  /** The cluster totals depend only on which files are listed, not on the
      order the store lists them in. */
  lemma StatsIndependentOfListingOrder(a: seq<StoredObject<Stats>>, b: seq<StoredObject<Stats>>)
    requires multiset(a) == multiset(b)
    ensures Totals(WithPrefix(a, StatsPrefix)) == Totals(WithPrefix(b, StatsPrefix))
  {
    WithPrefixPermutation(a, b, StatsPrefix);
    TotalsPermutation(WithPrefix(a, StatsPrefix), WithPrefix(b, StatsPrefix));
  }

  /** Appending a file that does not parse leaves the totals unchanged. */
  lemma CorruptTailIgnored(a: seq<StoredObject<Stats>>, corrupt: StoredObject<Stats>)
    requires corrupt.parsed.None?
    ensures Totals(a + [corrupt]) == Totals(a)
  {
    TotalsAppend(a, [corrupt]);
    TotalsSingleton(corrupt);
    AddZero(Totals(a));
  }

  /** A corrupted stats file among valid ones leaves the totals those of
      the valid ones. */
  lemma {:induction false} CorruptFileIgnored(a: seq<StoredObject<Stats>>, corrupt: StoredObject<Stats>, b: seq<StoredObject<Stats>>)
    requires corrupt.parsed.None?
    ensures Totals(a + [corrupt] + b) == Totals(a + b)
  {
    TotalsAppend(a + [corrupt], b);
    CorruptTailIgnored(a, corrupt);
    TotalsAppend(a, b);
  }

  /** Files from other writers (not named `.ingester…`) never reach the
      totals, wherever they are listed. */
  lemma {:induction false} ForeignFileIgnored(a: seq<StoredObject<Stats>>, foreign: StoredObject<Stats>, b: seq<StoredObject<Stats>>)
    requires !HasPrefix(foreign.name, StatsPrefix)
    ensures Totals(WithPrefix(a + [foreign] + b, StatsPrefix)) == Totals(WithPrefix(a + b, StatsPrefix))
  {
    WithPrefixAppend(a + [foreign], b, StatsPrefix);
    WithPrefixAppend(a, [foreign], StatsPrefix);
    WithPrefixAppend(a, b, StatsPrefix);
    assert [foreign][1..] == [];
    assert WithPrefix([foreign], StatsPrefix) == [];
    assert WithPrefix(a, StatsPrefix) + [] == WithPrefix(a, StatsPrefix);
  }
}
