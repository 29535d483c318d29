/** The Firestore documents the functions create and read, as plain values. */
module Store {
  import opened Wrappers

  /** An abstract clock reading, standing in for `new Date()`. */
  type Time = int

  /** A document of the `requests` collection as the webhook creates it. */
  datatype NewRecord = NewRecord(url: string, email: string, received: Time)

  /**
   * A `requests` document as the processor reads it: the fields it uses,
   * any of which may be missing, plus `completed`, which it never consults.
   */
  datatype RequestDoc = RequestDoc(url: Option<string>, email: Option<string>, completed: Option<Time>)

  /** The document the processor is triggered with for a freshly created record. */
  function Created(r: NewRecord): RequestDoc {
    RequestDoc(Some(r.url), Some(r.email), None)
  }
}
