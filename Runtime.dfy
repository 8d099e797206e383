/** The two host objects the messaging function is bound to for one vertex:
    the raw edge iterator and the output collector. Only their visible use is
    modelled. */
module Runtime {
  import opened SpargelTypes

  /** A single-pass iterator over the raw edge tuples of one vertex. Both the
      edge cursor and the bulk send read this one object, so they share its
      read position. */
  class EdgeSource<K, EV> {
    var tuples: seq<RawTuple<K, EV>>
    var pos: nat

    ghost predicate Valid()
      reads this
    {
      pos <= |tuples|
    }

    /** The tuples not yet read. */
    ghost function Remaining(): (rest: seq<RawTuple<K, EV>>)
      reads this
      requires Valid()
    {
      tuples[pos..]
    }

    constructor (tuples: seq<RawTuple<K, EV>>)
      ensures Valid() && this.tuples == tuples && pos == 0
    {
      this.tuples := tuples;
      pos := 0;
    }

    method HasNext() returns (b: bool)
      requires Valid()
      ensures b <==> Remaining() != []
    {
      b := pos < |tuples|;
    }

    method Next() returns (t: RawTuple<K, EV>)
      requires Valid() && Remaining() != []
      modifies this
      ensures Valid() && tuples == old(tuples) && pos == old(pos) + 1
      ensures t == old(tuples[pos]) && [t] + Remaining() == old(Remaining())
    {
      t := tuples[pos];
      pos := pos + 1;
    }
  }

  /** The output sink: an append-only record of everything collected. */
  class Collector<K, M> {
    var records: seq<OutValue<K, M>>

    constructor ()
      ensures records == []
    {
      records := [];
    }

    method Collect(r: OutValue<K, M>)
      modifies this
      ensures records == old(records) + [r]
    {
      records := records + [r];
    }
  }
}
