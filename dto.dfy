/** The value objects exchanged with the data-access layer, and the outcome
    type of its reading operations. */
module Dto {

  /** Row key of a stored blob. The store hands out fresh keys from a counter. */
  type BlobKey = nat

  /** One observation: a value of a named metric of a source at a timestamp
      (whole seconds). Field order as in TimestampedDataDTO. */
  datatype TimestampedData = TimestampedData(
    sourceId: string,
    timestamp: int,
    dataName: string,
    dataValue: string)

  /** One inverted-index entry: the phrase `term` occurs in the blob stored
      under `blobRowKey`, observed at `timestamp`. Field order as in BlobIndexDTO. */
  datatype BlobIndex = BlobIndex(
    sourceId: string,
    dataName: string,
    term: string,
    timestamp: int,
    blobRowKey: BlobKey)

  /** A point of a time series or a search hit: (timestamp, value). */
  type Point = (int, string)

  datatype Option<+T> = None | Some(value: T)

  datatype Result<+T, +E> = Success(value: T) | Failure(error: E)
}
