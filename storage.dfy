/** The object store as the cluster layer sees it: a listing of the files
    under one directory, filtered by a file-name prefix. The store itself
    (its backends, paths and I/O) is an input: a listing is either the
    files found or the error the store reported. */
module ObjectStore {
  import opened Wrappers
  import opened Seqs

  datatype ObjectStorageError = IoError(message: string) | OtherError(message: string)

  /** One listed file: its name and what deserialising its bytes into the
      expected record gives (`None` when the bytes do not parse). */
  datatype StoredObject<T> = StoredObject(name: string, parsed: Option<T>)

  /** The result of listing a directory of the store. */
  type Listing<T> = Result<seq<StoredObject<T>>, ObjectStorageError>

  /** The name filter that `get_objects` applies: keep, in listing order,
      exactly the files whose name starts with `prefix`. */
  function WithPrefix<T(!new)>(objects: seq<StoredObject<T>>, prefix: string): (r: seq<StoredObject<T>>)
    ensures |r| <= |objects|
    ensures forall o :: o in r <==> o in objects && HasPrefix(o.name, prefix)
  {
    if objects == [] then []
    else (if HasPrefix(objects[0].name, prefix) then [objects[0]] else []) + WithPrefix(objects[1..], prefix)
  }

  /** Filtering keeps listing order: it distributes over concatenation. */
  lemma {:induction false} WithPrefixAppend<T(!new)>(a: seq<StoredObject<T>>, b: seq<StoredObject<T>>, prefix: string)
    ensures WithPrefix(a + b, prefix) == WithPrefix(a, prefix) + WithPrefix(b, prefix)
  {
    if a == [] {
      assert a + b == b;
    } else {
      assert (a + b)[0] == a[0];
      assert (a + b)[1..] == a[1..] + b;
      WithPrefixAppend(a[1..], b, prefix);
    }
  }

  /** Filtering keeps every copy of a matching file and drops every copy of
      the others, so two listings with the same files in any order give
      filtered listings with the same files. */
  lemma {:induction false} WithPrefixMultiset<T(!new)>(objects: seq<StoredObject<T>>, prefix: string, o: StoredObject<T>)
    ensures multiset(WithPrefix(objects, prefix))[o] ==
            if HasPrefix(o.name, prefix) then multiset(objects)[o] else 0
  {
    if objects != [] {
      WithPrefixMultiset(objects[1..], prefix, o);
      assert objects == [objects[0]] + objects[1..];
      assert multiset(objects) == multiset([objects[0]]) + multiset(objects[1..]);
    }
  }

  lemma WithPrefixPermutation<T(!new)>(a: seq<StoredObject<T>>, b: seq<StoredObject<T>>, prefix: string)
    requires multiset(a) == multiset(b)
    ensures multiset(WithPrefix(a, prefix)) == multiset(WithPrefix(b, prefix))
  {
    forall o ensures multiset(WithPrefix(a, prefix))[o] == multiset(WithPrefix(b, prefix))[o] {
      WithPrefixMultiset(a, prefix, o);
      WithPrefixMultiset(b, prefix, o);
    }
  }
}
