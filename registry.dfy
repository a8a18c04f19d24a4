/** The node registry (`get_ingester_info`): the current set of ingestion
    nodes is whatever metadata files the object store lists under the root
    directory at call time. */
module Registry {
  import opened Wrappers
  import opened Seqs
  import opened ObjectStore
  import opened ClusterTypes

  /** Metadata files of ingestion nodes are the ones named `ingester…`. */
  const IngesterPrefix := "ingester"

  /** A metadata file that does not deserialise is not skipped: it stands
      for a node with the default (empty) descriptor. */
  function DescriptorOf(o: StoredObject<NodeDescriptor>): NodeDescriptor
  {
    match o.parsed
    case Some(d) => d
    case None => DefaultDescriptor
  }

  /** The registry snapshot: one descriptor per listed `ingester…` file, in
      listing order; a listing error is passed on unchanged. */
  function GetIngesterInfo(listing: Listing<NodeDescriptor>): (r: Result<seq<NodeDescriptor>, ObjectStorageError>)
    ensures listing.Failure? ==> r == Failure(listing.error)
    ensures listing.Success? ==> r.Success?
    ensures listing.Success? ==>
      var selected := WithPrefix(listing.value, IngesterPrefix);
      |r.value| == |selected| &&
      forall i :: 0 <= i < |selected| ==>
        (selected[i].parsed.Some? ==> r.value[i] == selected[i].parsed.value) &&
        (selected[i].parsed.None? ==> r.value[i] == DefaultDescriptor)
  {
    match listing
    case Failure(e) => Failure(e)
    case Success(objects) =>
      var selected := WithPrefix(objects, IngesterPrefix);
      Success(seq(|selected|, i requires 0 <= i < |selected| => DescriptorOf(selected[i])))
  }

  /** A descriptor is in the registry exactly when some listed `ingester…`
      file yields it (parsed, or the default for a file that does not parse). */
  lemma RegistryMembership(objects: seq<StoredObject<NodeDescriptor>>, d: NodeDescriptor)
    ensures d in GetIngesterInfo(Success(objects)).value <==>
            exists o :: o in objects && HasPrefix(o.name, IngesterPrefix) && DescriptorOf(o) == d
  {
    var selected := WithPrefix(objects, IngesterPrefix);
    var r := GetIngesterInfo(Success(objects)).value;
    if d in r {
      var i :| 0 <= i < |r| && r[i] == d;
      assert selected[i] in selected;
    }
    if exists o :: o in objects && HasPrefix(o.name, IngesterPrefix) && DescriptorOf(o) == d {
      var o :| o in objects && HasPrefix(o.name, IngesterPrefix) && DescriptorOf(o) == d;
      assert o in selected;
      var i :| 0 <= i < |selected| && selected[i] == o;
      assert r[i] == d;
    }
  }

  /** Every well-formed `ingester…` file is represented by the very
      descriptor it holds: what a node publishes is what the registry reads. */
  lemma PublishedDescriptorIsListed(objects: seq<StoredObject<NodeDescriptor>>, name: string, d: NodeDescriptor)
    requires StoredObject(name, Some(d)) in objects
    requires HasPrefix(name, IngesterPrefix)
    ensures d in GetIngesterInfo(Success(objects)).value
  {
    RegistryMembership(objects, d);
    assert DescriptorOf(StoredObject(name, Some(d))) == d;
  }

  /** The registry follows listing order: listing `a` then `b` gives the
      descriptors of `a` followed by those of `b`. */
  lemma RegistryAppend(a: seq<StoredObject<NodeDescriptor>>, b: seq<StoredObject<NodeDescriptor>>)
    ensures GetIngesterInfo(Success(a + b)).value ==
            GetIngesterInfo(Success(a)).value + GetIngesterInfo(Success(b)).value
  {
    WithPrefixAppend(a, b, IngesterPrefix);
    var sa := WithPrefix(a, IngesterPrefix);
    var sb := WithPrefix(b, IngesterPrefix);
    var ra := GetIngesterInfo(Success(a)).value;
    var rb := GetIngesterInfo(Success(b)).value;
    var r := GetIngesterInfo(Success(a + b)).value;
    assert |r| == |ra + rb|;
    forall i | 0 <= i < |r| ensures r[i] == (ra + rb)[i] {
      if i < |sa| {
        assert (sa + sb)[i] == sa[i];
      } else {
        assert (sa + sb)[i] == sb[i - |sa|];
      }
    }
  }
}
