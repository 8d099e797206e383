/** Values exchanged between the messaging function, its edge source and its sink. */
module SpargelTypes {

  datatype Option<+T> = None | Some(value: T)

  /** One raw edge tuple as the host supplies it: a Tuple2 (f0, f1) for graphs
      without edge values, a Tuple3 (f0, f1, f2) for graphs with them. */
  datatype RawTuple<K, EV> =
    | Tuple2(f0: K, f1: K)
    | Tuple3(f0: K, f1: K, f2: EV)

  /** The Edge a cursor hands out: the three arguments it passes to Edge.set,
      in that order. The value is None for the cursor without edge values. */
  datatype Edge<K, EV> = Edge(f0: K, f1: K, value: Option<EV>)

  /** One record written to the output sink: the Tuple2 (key, message). */
  datatype OutValue<K, M> = OutValue(f0: K, f1: M)

  /** The exceptions the core raises. */
  datatype Failure =
    | IllegalState          // edge access and bulk send used together or twice
    | UnsupportedOperation  // remove() on a cursor
    | ClassCast             // a raw tuple whose arity does not fit the cursor

  datatype Result<+T> = Ok(value: T) | Err(error: Failure)

  datatype Outcome = Pass | Fail(error: Failure)
}
