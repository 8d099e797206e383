/** What a host runtime and a vertex program can rely on when they drive a
    messaging function through one or more vertex invocations. Each method
    builds its own function, edge source and sink, so it changes nothing that
    exists before the call. */
module Scenarios {
  import opened SpargelTypes
  import opened Runtime
  import opened Protocol
  import opened Spargel

  /** After getOutgoingEdges, a second getOutgoingEdges and a bulk send both
      fail with an illegal-state error; the failed bulk send emits nothing and
      reads no edge. The cursor handed out is the one of the mode chosen at
      init. */
  method CursorExcludesBulkSend<K, M, EV>(hasEdgeValue: bool, tuples: seq<RawTuple<K, EV>>, m: M)
    returns (first: Result<Cursor<K, EV>>, second: Result<Cursor<K, EV>>, bulk: Outcome,
             emitted: seq<OutValue<K, M>>, read: nat)
    ensures first.Ok? && (first.value.WithValue? <==> hasEdgeValue)
    ensures second == Err(IllegalState) && bulk == Fail(IllegalState)
    ensures emitted == [] && read == 0
  {
    var f := new MessagingFunction<K, M, EV>.Init(hasEdgeValue);
    var src := new EdgeSource(tuples);
    var sink := new Collector<K, M>();
    f.Set(src, sink);
    first := f.GetOutgoingEdges();
    second := f.GetOutgoingEdges();
    bulk := f.SendMessageToAllNeighbors(m);
    emitted, read := sink.records, src.pos;
  }

  /** A bulk send drains the source and emits one (field 0, m) record per
      tuple; after it, neither a second bulk send nor getOutgoingEdges is
      allowed, and the failed second bulk send emits nothing more. */
  method BulkSendExcludesCursor<K, M, EV>(hasEdgeValue: bool, tuples: seq<RawTuple<K, EV>>, m: M)
    returns (bulk: Outcome, again: Outcome, cursor: Result<Cursor<K, EV>>, emitted: seq<OutValue<K, M>>)
    ensures bulk == Pass && again == Fail(IllegalState) && cursor == Err(IllegalState)
    ensures |emitted| == |tuples|
    ensures forall i | 0 <= i < |tuples| :: emitted[i] == OutValue(tuples[i].f0, m)
  {
    var f := new MessagingFunction<K, M, EV>.Init(hasEdgeValue);
    var src := new EdgeSource(tuples);
    var sink := new Collector<K, M>();
    f.Set(src, sink);
    bulk := f.SendMessageToAllNeighbors(m);
    again := f.SendMessageToAllNeighbors(m);
    cursor := f.GetOutgoingEdges();
    emitted := sink.records;
    assert tuples[0..] == tuples;
    AllNeighborsAt(tuples, m);
  }

  /** Rebinding for the next vertex resets the flag: a bulk send that was
      illegal before the rebind succeeds after it, and writes to the new sink
      the records of the new source only. */
  method RebindMakesExclusiveLegal<K, M, EV>(hasEdgeValue: bool, ts1: seq<RawTuple<K, EV>>,
                                              ts2: seq<RawTuple<K, EV>>, m: M)
    returns (r1: Outcome, r2: Outcome, r3: Outcome,
             emitted1: seq<OutValue<K, M>>, emitted2: seq<OutValue<K, M>>)
    ensures r1 == Pass && r2 == Fail(IllegalState) && r3 == Pass
    ensures emitted1 == AllNeighbors(ts1, m) && emitted2 == AllNeighbors(ts2, m)
  {
    var f := new MessagingFunction<K, M, EV>.Init(hasEdgeValue);
    var src1 := new EdgeSource(ts1);
    var sink1 := new Collector<K, M>();
    f.Set(src1, sink1);
    r1 := f.SendMessageToAllNeighbors(m);
    r2 := f.SendMessageToAllNeighbors(m);
    var src2 := new EdgeSource(ts2);
    var sink2 := new Collector<K, M>();
    f.Set(src2, sink2);
    r3 := f.SendMessageToAllNeighbors(m);
    emitted1, emitted2 := sink1.records, sink2.records;
    assert ts1[0..] == ts1 && ts2[0..] == ts2;
  }

  /** sendMessageTo is legal while the flag is set: after a bulk send it still
      appends exactly its one record behind the bulk send's records. */
  method SendToAfterBulkSend<K, M, EV>(hasEdgeValue: bool, tuples: seq<RawTuple<K, EV>>,
                                       m: M, target: K, m2: M)
    returns (bulk: Outcome, emitted: seq<OutValue<K, M>>)
    ensures bulk == Pass
    ensures emitted == AllNeighbors(tuples, m) + [OutValue(target, m2)]
  {
    var f := new MessagingFunction<K, M, EV>.Init(hasEdgeValue);
    var src := new EdgeSource(tuples);
    var sink := new Collector<K, M>();
    f.Set(src, sink);
    bulk := f.SendMessageToAllNeighbors(m);
    f.SendMessageTo(target, m2);
    emitted := sink.records;
    assert tuples[0..] == tuples;
  }

  /** A vertex program that walks the cursor to its end and sends m to each
      edge's field 0 sees exactly the bound edges, in source order, and emits
      exactly what a bulk send of m would have emitted. */
  method WalkCursorAndSend<K, M, EV>(hasEdgeValue: bool, tuples: seq<RawTuple<K, EV>>, m: M)
    returns (es: seq<Edge<K, EV>>, emitted: seq<OutValue<K, M>>)
    requires AllFit(hasEdgeValue, tuples)
    ensures es == Edges(hasEdgeValue, tuples)
    ensures emitted == AllNeighbors(tuples, m)
  {
    var f := new MessagingFunction<K, M, EV>.Init(hasEdgeValue);
    var src := new EdgeSource(tuples);
    var sink := new Collector<K, M>();
    f.Set(src, sink);
    var r := f.GetOutgoingEdges();
    var c := r.value;
    es := [];
    var more := c.HasNext();
    while more
      invariant c.Input() == src && f.out == sink
      invariant c.WithValue? == hasEdgeValue
      invariant src.Valid() && src.tuples == tuples
      invariant more <==> src.pos < |tuples|
      invariant AllFit(hasEdgeValue, tuples[..src.pos])
      invariant es == Edges(hasEdgeValue, tuples[..src.pos])
      invariant sink.records == SendToEach(es, m)
      decreases |tuples| - src.pos
    {
      ghost var done := tuples[..src.pos];
      ghost var t := tuples[src.pos];
      assert tuples[..src.pos + 1] == done + [t];
      var e := c.Next();
      EdgesAppend(hasEdgeValue, done, t);
      SendToEachAppend(es, e.value, m);
      es := es + [e.value];
      f.SendMessageTo(e.value.f0, m);
      more := c.HasNext();
    }
    assert tuples[..src.pos] == tuples;
    emitted := sink.records;
    BulkSendIsSendToEach(hasEdgeValue, tuples, m);
  }

  /** A vertex with value-carrying raw edges ("A", "B", 10) and ("A", "C", 20):
      a bulk send of "z" keys both records by field 0 of the raw tuples. */
  method BulkSendKeysByFieldZero() returns (emitted: seq<OutValue<string, string>>)
    ensures emitted == [OutValue("A", "z"), OutValue("A", "z")]
  {
    var f := new MessagingFunction<string, string, int>.Init(true);
    var src := new EdgeSource([Tuple3("A", "B", 10), Tuple3("A", "C", 20)]);
    var sink := new Collector<string, string>();
    f.Set(src, sink);
    var r := f.SendMessageToAllNeighbors("z");
    emitted := sink.records;
  }
}
