/** Records and the two job variants.  A job binds one input record to a
    reduction function; executing it builds a new record.  The reduction
    functions and the bit-vector marshaller belong to libraries outside this
    model, so they are parameters: `BV` is the opaque bit-vector type. */
module Reduce {
  import opened Wrappers

  newtype uint8 = x: int | 0 <= x < 256

  type Bytes = seq<uint8>

  /** The error returned when a bit vector cannot be marshalled. */
  datatype MarshalError = MarshalError(message: string)

  /** A named sequence; `offsets` is the marshalled bit vector, absent (a nil
      slice) unless the record comes out of an offset-tracking job. */
  datatype Record = Record(name: string, offsets: Option<Bytes>, sequence: string)

  datatype Job<!BV> =
    | NoOffset(rec: Record, reducer: string -> string)
    | WithOffset(rec: Record, reducerWithOffsets: string -> (string, BV),
                 marshal: BV -> Result<Bytes, MarshalError>)

  /** Runs one job.  The no-offset variant cannot fail and leaves `offsets`
      absent.  The offset variant reduces the sequence to a pair (reduced
      sequence, bit vector) and marshals the bit vector: a marshalling error
      is returned instead of a record, otherwise the bytes become `offsets`.
      Either way only the input's name survives; the record is new. */
  function Execute<BV>(job: Job<BV>): (r: Result<Record, MarshalError>)
    ensures r.Success? ==> r.value.name == job.rec.name
    ensures job.NoOffset? ==>
              && r.Success?
              && r.value.offsets.None?
              && r.value.sequence == job.reducer(job.rec.sequence)
    ensures job.WithOffset? ==>
              var reduced := job.reducerWithOffsets(job.rec.sequence);
              var bytes := job.marshal(reduced.1);
              && (r.Failure? <==> bytes.Failure?)
              && (r.Failure? ==> r.error == bytes.error)
              && (r.Success? ==> r.value.sequence == reduced.0 && r.value.offsets == Some(bytes.value))
  {
    match job
    case NoOffset(rec, reducer) =>
      Success(Record(rec.name, None, reducer(rec.sequence)))
    case WithOffset(rec, reducerWithOffsets, marshal) =>
      var (sequence, offsets) := reducerWithOffsets(rec.sequence);
      match marshal(offsets)
      case Failure(e) => Failure(e)
      case Success(bytes) => Success(Record(rec.name, Some(bytes), sequence))
  }

  /** What a worker forwards to the result channel: the executed record, or
      nil when execution failed, because the worker discards the error. */
  function Worker<BV>(job: Job<BV>): (r: Option<Record>)
    ensures r.Some? <==> Execute(job).Success?
    ensures r.Some? ==> r.value == Execute(job).value
  {
    Execute(job).ToOption()
  }

  /** The result depends on the input record only through its name and its
      sequence: offsets the input may carry are never copied, since each
      variant builds a new record. */
  lemma ExecuteBuildsNewRecord<BV>(job: Job<BV>, offsets: Option<Bytes>)
    ensures Execute(job.(rec := job.rec.(offsets := offsets))) == Execute(job)
  {
  }

  /** The two variants agree on everything but `offsets` when the offset
      reducer's sequence component is the plain reducer and marshalling
      succeeds. */
  lemma VariantsAgree<BV>(rec: Record, reducer: string -> string,
                          reducerWithOffsets: string -> (string, BV),
                          marshal: BV -> Result<Bytes, MarshalError>)
    requires reducerWithOffsets(rec.sequence).0 == reducer(rec.sequence)
    requires marshal(reducerWithOffsets(rec.sequence).1).Success?
    ensures var plain := Execute<BV>(NoOffset(rec, reducer));
            var tracked := Execute(WithOffset(rec, reducerWithOffsets, marshal));
            && plain.Success? && tracked.Success?
            && tracked.value.(offsets := None) == plain.value
            && tracked.value.offsets.Some?
  {
  }
}
