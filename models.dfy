/** The record shapes: app/models/counter.go and app/models/data.go on the server,
    web/src/lib/models.ts in the web client. */
module Models {
  import opened Common

  /** A MongoDB object id, in its hexadecimal form. */
  type ObjectId = string

  /** `primitive.DateTime`: milliseconds since the Unix epoch. */
  type DateTime = int

  /** models.Counter. A nil `SoftReset` pointer is `None`. */
  datatype Counter = Counter(
    id: ObjectId,
    name: string,
    softReset: Option<DateTime>,
    createdAt: DateTime,
    updatedAt: DateTime)

  /** models.Data: one signed event of a counter. */
  datatype Data = Data(
    id: ObjectId,
    number: int,
    counter: ObjectId,
    createdAt: DateTime,
    updatedAt: DateTime)

  /** ICounter as the web client receives it (timestamps as strings). */
  datatype CounterView = CounterView(id: string, name: string, createdAt: string, updatedAt: string)

  /** IData as the web client receives it. */
  datatype DataView = DataView(id: string, number: int, counterRef: string, createdAt: string, updatedAt: string)
}
