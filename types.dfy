/** The records and error kinds the cluster layer passes between its
    operations. */
module ClusterTypes {
  import opened ObjectStore

  /** An ingestion node's published metadata (`IngesterMetadata`), reduced
      to the fields the cluster layer reads: its advertised address and the
      credential it expects on authenticated calls. */
  datatype NodeDescriptor = NodeDescriptor(domainName: string, token: string)

  /** `IngesterMetadata::default()`: every string field empty. */
  const DefaultDescriptor := NodeDescriptor("", "")

  /** The payload of an `anyhow::Error`: a storage failure that was
      converted into one, or a plain message. */
  datatype AnyError = FromStorage(cause: ObjectStorageError) | Reason(text: string)

  /** A `reqwest::Error`: the request did not complete, or it completed with
      a non-success status (`error_for_status`). */
  datatype NetError = Transport(message: string) | StatusError(code: nat)

  /** `StreamError`, restricted to the variants this layer produces. */
  datatype StreamError =
    | Anyhow(anyhow: AnyError)
    | Network(net: NetError)
    | SerdeError(message: string)
    | Custom(message: string, status: nat)
    | Storage(storage: ObjectStorageError)

  /** `PostError`, restricted to the variants this layer produces. */
  datatype PostError =
    | Invalid(cause: AnyError)
    | NetworkError(message: string)
    | CustomError(message: string)

  const StatusOk: nat := 200
  const StatusInternalServerError: nat := 500

  /** `StatusCode::is_success`: the 2xx range. */
  predicate IsSuccess(status: nat)
  {
    200 <= status <= 299
  }
}
