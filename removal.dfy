/** Node removal (`remove_ingester`): a node may be deregistered only while
    it is offline; deregistering deletes its metadata file, and the outcome
    of the delete is reported as a message with status 200. */
module NodeRemoval {
  import opened Wrappers
  import opened ObjectStore
  import opened ClusterTypes

  /** The answer, and whether the metadata file's deletion was requested. */
  datatype Removal = Removal(result: Result<(string, nat), PostError>, deleteIssued: bool)

  function RemovedMessage(domainName: string): string
  {
    "Node " + domainName + " Removed Successfully"
  }

  function NotFoundMessage(domainName: string): string
  {
    "Node " + domainName + " Not Found"
  }

  function FailedMessage(domainName: string, reason: string): string
  {
    "Error Removing Node " + domainName + "\n Reason: " + reason
  }

  /** The three messages can never be confused, whatever the address and
      the reason: the reply tells the operator which outcome occurred. */
  lemma MessagesDistinct(domainName: string, reason: string)
    ensures RemovedMessage(domainName) != NotFoundMessage(domainName)
    ensures FailedMessage(domainName, reason) != RemovedMessage(domainName)
    ensures FailedMessage(domainName, reason) != NotFoundMessage(domainName)
  {
    var k := |"Node " + domainName + " "|;
    assert RemovedMessage(domainName)[k] == 'R';
    assert NotFoundMessage(domainName)[k] == 'N';
    assert FailedMessage(domainName, reason)[0] == 'E';
    assert RemovedMessage(domainName)[0] == 'N';
    assert NotFoundMessage(domainName)[0] == 'N';
  }

  /** `remove_ingester` for the (already normalised) address `domainName`,
      given the liveness probe's verdict and the outcome of deleting the
      node's metadata file. A live node is refused and nothing is deleted.
      Otherwise the delete is issued and the answer is always 200: success,
      an I/O error (the file is gone) and any other storage error each give
      their own message. */
  function RemoveIngester(domainName: string, live: bool, delete: Result<(), ObjectStorageError>): (o: Removal)
    ensures o.result.Failure? <==> live
    ensures live ==> o.result.error == Invalid(Reason("Node Online")) && !o.deleteIssued
    ensures !live ==> o.deleteIssued && o.result.value.1 == StatusOk
    ensures !live ==> (o.result.value.0 == RemovedMessage(domainName) <==> delete.Success?)
    ensures !live ==> (o.result.value.0 == NotFoundMessage(domainName) <==> delete.Failure? && delete.error.IoError?)
    ensures !live && delete.Failure? && !delete.error.IoError? ==>
              o.result.value.0 == FailedMessage(domainName, delete.error.message)
  {
    if live then Removal(Failure(Invalid(Reason("Node Online"))), false)
    else
      var msg := match delete
        case Success(_) => RemovedMessage(domainName)
        case Failure(IoError(_)) => NotFoundMessage(domainName)
        case Failure(err) => FailedMessage(domainName, err.message);
      MessagesDistinct(domainName, if delete.Failure? then delete.error.message else "");
      Removal(Success((msg, StatusOk)), true)
  }
}
