# Spargel messaging function, modelled in Dafny

This project models the per-vertex messaging protocol of Stratosphere's Spargel
vertex-centric graph API (`MessagingFunction`). In each superstep the runtime
binds one vertex's raw edge iterator and an output collector to the function
with `set`. The vertex program then uses at most one of two exclusive ways to
reach the neighbours:

- `getOutgoingEdges()`: an edge cursor that adapts the raw tuples into `Edge`
  values;
- `sendMessageToAllNeighbors(m)`: drains the raw tuples and emits one
  `(key, m)` record per tuple.

`sendMessageTo(target, m)` emits a single record and is always allowed.

Files:

- `Types.dfy` (module `SpargelTypes`): raw tuples (`Tuple2`/`Tuple3`), `Edge`,
  the output record `OutValue`, and the failures the code raises.
- `Runtime.dfy` (module `Runtime`): the two host objects the function is bound
  to. `EdgeSource` is the raw edge iterator, a tuple sequence plus a read
  position. `Collector` is the output sink, an append-only record sequence.
- `Protocol.dfy` (module `Protocol`): reference definitions over raw tuples.
  `Edges` is what a full cursor walk yields. `AllNeighbors` is what a bulk
  send emits. `SendToEach` is what a walk that sends to every edge emits. Beside
  them are the inductive lemmas that characterise these definitions.
- `MessagingFunction.dfy` (module `Spargel`): the class `MessagingFunction`
  with its flag, bound source and sink, and its two cursor fields. It also holds
  the two cursor classes and the `Cursor` datatype, which is the iterator
  interface they share.
- `Scenarios.dfy` (module `Scenarios`): call sequences of a host and a vertex
  program on fresh objects. They state the protocol properties that span
  several calls.

The edge-value mode is fixed once, in the `Init` constructor. Like the Java
`init`, it creates only the matching cursor. `HasEdgeValue()` reads the mode
back from which cursor field is non-null. Both cursors, once handed out, read
the function's own `EdgeSource` object, so a cursor and a bulk send share one
read position.

**Bulk-send key.** `sendMessageToAllNeighbors` keys each record by field 0 of
the raw tuple (`MessagingFunction.java:72`). The cursors pass field 0 as the
first argument of `Edge.set` and field 1 as the second. For raw tuples
`("A", "B", 10)` and `("A", "C", 20)`, a bulk send of `"z"` emits `("A", "z")`
twice; `Scenarios.BulkSendKeysByFieldZero` states it. `Edge.java` is not part
of this model, so the `Edge` fields are named positionally (`f0`, `f1`,
`value`), not "source" and "target".

**Cast failures.** The Java cursors cast an untyped iterator to
`Iterator<Tuple2>` or `Iterator<Tuple3>` without checking. A tuple of the other
arity fails the cast inside `next()`, after the underlying iterator has already
advanced. The model's `Next` returns `Err(ClassCast)` in that case and still
advances the position. The bulk send reads only field 0, through the untyped
`Tuple`, so it accepts both arities.

## Model

| member | source | states |
|---|---|---|
| `Spargel.MessagingFunction.Init` | stratosphere-addons/spargel/src/main/java/eu/stratosphere/spargel/java/MessagingFunction.java:117-126 | exactly one cursor variant exists, the with-value one iff `hasEdgeValue`; nothing is bound yet and the flag is clear |
| `Spargel.MessagingFunction.Set` | stratosphere-addons/spargel/src/main/java/eu/stratosphere/spargel/java/MessagingFunction.java:128-132 | the given source and sink become the bound ones, the flag is cleared, and the mode (cursor fields) is untouched |
| `Spargel.MessagingFunction.GetOutgoingEdges` | stratosphere-addons/spargel/src/main/java/eu/stratosphere/spargel/java/MessagingFunction.java:46-59 | with the flag set it fails with `IllegalState` and leaves the cursors, the source and the sink unchanged; otherwise it sets the flag and returns the mode's cursor, now bound to the current edge source, without reading any edge |
| `Spargel.MessagingFunction.SendMessageToAllNeighbors` | stratosphere-addons/spargel/src/main/java/eu/stratosphere/spargel/java/MessagingFunction.java:61-76 | with the flag set it fails with `IllegalState`, emits nothing and reads no edge; otherwise it sets the flag, leaves the source exhausted, and leaves the sink as its old contents followed by `AllNeighbors` of the tuples that were unread, so earlier records are kept |
| `Spargel.MessagingFunction.SendMessageTo` | stratosphere-addons/spargel/src/main/java/eu/stratosphere/spargel/java/MessagingFunction.java:78-82 | whatever the flag, it appends exactly the record `(target, m)` and changes neither the flag nor the edge position |
| `Spargel.EdgesIteratorNoEdgeValue.constructor` | stratosphere-addons/spargel/src/main/java/eu/stratosphere/spargel/java/MessagingFunction.java:136-140 | a new cursor is bound to no source |
| `Spargel.EdgesIteratorNoEdgeValue.Set` | stratosphere-addons/spargel/src/main/java/eu/stratosphere/spargel/java/MessagingFunction.java:143-145 | rebinds the cursor to the given source |
| `Spargel.EdgesIteratorNoEdgeValue.HasNext` | stratosphere-addons/spargel/src/main/java/eu/stratosphere/spargel/java/MessagingFunction.java:147-150 | true iff the shared source has an unread tuple; it modifies nothing |
| `Spargel.EdgesIteratorNoEdgeValue.Next` | stratosphere-addons/spargel/src/main/java/eu/stratosphere/spargel/java/MessagingFunction.java:152-157 | advances the shared source by exactly one; a `Tuple2 (f0, f1)` yields `Edge(f0, f1, None)`, and a `Tuple3` fails with `ClassCast` |
| `Spargel.EdgesIteratorNoEdgeValue.Remove` | stratosphere-addons/spargel/src/main/java/eu/stratosphere/spargel/java/MessagingFunction.java:159-162 | always fails with `UnsupportedOperation` and modifies nothing |
| `Spargel.EdgesIteratorWithEdgeValue.constructor` | stratosphere-addons/spargel/src/main/java/eu/stratosphere/spargel/java/MessagingFunction.java:166-170 | a new cursor is bound to no source |
| `Spargel.EdgesIteratorWithEdgeValue.Set` | stratosphere-addons/spargel/src/main/java/eu/stratosphere/spargel/java/MessagingFunction.java:172-174 | rebinds the cursor to the given source |
| `Spargel.EdgesIteratorWithEdgeValue.HasNext` | stratosphere-addons/spargel/src/main/java/eu/stratosphere/spargel/java/MessagingFunction.java:176-179 | true iff the shared source has an unread tuple; it modifies nothing |
| `Spargel.EdgesIteratorWithEdgeValue.Next` | stratosphere-addons/spargel/src/main/java/eu/stratosphere/spargel/java/MessagingFunction.java:181-186 | advances the shared source by exactly one; a `Tuple3 (f0, f1, f2)` yields `Edge(f0, f1, Some(f2))`, and a `Tuple2` fails with `ClassCast` |
| `Spargel.EdgesIteratorWithEdgeValue.Remove` | stratosphere-addons/spargel/src/main/java/eu/stratosphere/spargel/java/MessagingFunction.java:188-191 | always fails with `UnsupportedOperation` and modifies nothing |
| `Spargel.Cursor.HasNext` | stratosphere-addons/spargel/src/main/java/eu/stratosphere/spargel/java/MessagingFunction.java:46 | through the shared iterator interface, either variant reports whether its source has an unread tuple |
| `Spargel.Cursor.Next` | stratosphere-addons/spargel/src/main/java/eu/stratosphere/spargel/java/MessagingFunction.java:46 | through the shared iterator interface, either variant advances its source by one and yields `EdgeOf` in its own mode |
| `Protocol.AllNeighborsAt` | stratosphere-addons/spargel/src/main/java/eu/stratosphere/spargel/java/MessagingFunction.java:68-75 | a bulk send emits exactly one record per raw tuple, in tuple order, each carrying `m` and that tuple's field 0 |
| `Protocol.AllNeighborsAppend` | stratosphere-addons/spargel/src/main/java/eu/stratosphere/spargel/java/MessagingFunction.java:70-75 | each loop step of the bulk send appends exactly the record of the tuple just read |
| `Protocol.EdgesAt` | stratosphere-addons/spargel/src/main/java/eu/stratosphere/spargel/java/MessagingFunction.java:152-186 | a full cursor walk yields one edge per tuple, in tuple order, with fields 0 and 1 in place; the value is present, as field 2, exactly in the with-value mode |
| `Protocol.EdgesAppend` | stratosphere-addons/spargel/src/main/java/eu/stratosphere/spargel/java/MessagingFunction.java:152-157 | one more tuple of the right arity extends the walked edges by exactly that tuple's edge |
| `Protocol.SendToEachAppend` | stratosphere-addons/spargel/src/main/java/eu/stratosphere/spargel/java/MessagingFunction.java:78-82 | sending to one more edge appends exactly one record, keyed by that edge's field 0 |
| `Protocol.BulkSendIsSendToEach` | stratosphere-addons/spargel/src/main/java/eu/stratosphere/spargel/java/MessagingFunction.java:61-82 | in either mode, a bulk send emits the same records, in the same order, as walking the cursor and calling `sendMessageTo(e.f0, m)` for every edge |
| `Scenarios.CursorExcludesBulkSend` | stratosphere-addons/spargel/src/main/java/eu/stratosphere/spargel/java/MessagingFunction.java:46-66 | after `getOutgoingEdges` succeeds with the mode's cursor, a second `getOutgoingEdges` and a bulk send both fail with `IllegalState`; nothing is emitted and no edge is read |
| `Scenarios.BulkSendExcludesCursor` | stratosphere-addons/spargel/src/main/java/eu/stratosphere/spargel/java/MessagingFunction.java:46-75 | after a bulk send emits one `(field 0, m)` record per tuple, a second bulk send and `getOutgoingEdges` both fail with `IllegalState` |
| `Scenarios.RebindMakesExclusiveLegal` | stratosphere-addons/spargel/src/main/java/eu/stratosphere/spargel/java/MessagingFunction.java:128-132 | a bulk send refused after an earlier one succeeds once `set` rebinds, and it emits into the new sink exactly the records of the new source |
| `Scenarios.SendToAfterBulkSend` | stratosphere-addons/spargel/src/main/java/eu/stratosphere/spargel/java/MessagingFunction.java:78-82 | `sendMessageTo` still works after the flag was set, and its record follows the bulk send's records in order |
| `Scenarios.WalkCursorAndSend` | stratosphere-addons/spargel/src/main/java/eu/stratosphere/spargel/java/MessagingFunction.java:52-58 | driving the handed-out cursor to its end yields exactly `Edges` of the bound tuples, and sending to each edge's field 0 emits exactly what a bulk send would |
| `Scenarios.BulkSendKeysByFieldZero` | stratosphere-addons/spargel/src/main/java/eu/stratosphere/spargel/java/MessagingFunction.java:72 | for raw edges `("A","B",10)` and `("A","C",20)`, a bulk send of `"z"` emits `("A","z")` twice: the key is field 0 |

## Left out

- `sendMessages`, `setup`, `preSuperstep` and `postSuperstep` are left out: the first is abstract and the other three are empty hooks.
- `getSuperstep`, `getIterationAggregator` and `getPreviousIterationAggregate` are left out. They only delegate to the runtime context. `IterationRuntimeContext` is not part of this model, and neither is the context that `init` stores.
- The recycled `outValue` record and the recycled `Edge` object inside each cursor are not modelled. Records and edges are values, so the aliasing hazard of a caller that keeps a reference across `next()` or `collect` is not captured. `Edge.java`, `Tuple2`, `Tuple3` and `Collector` are not part of this model beyond their visible use.
- `Iterator.next()` on an exhausted source is excluded by the precondition of `Next`. The Java cursors add no check of their own, and the underlying iterator, which is not part of this model, raises the error.
- Spargel.MessagingFunction.SendMessageToAllNeighbors: requires a bound source and sink when the flag is clear. The Java code would instead throw a `NullPointerException` on an unbound source, and with an empty source it would not touch an unbound sink.
- `Spargel.MessagingFunction.Set` accepts null for the source and the sink, as the Java `set` does; the operations that then dereference them are covered by the null-pointer lines here.
- Spargel.MessagingFunction.SendMessageTo: requires a bound sink, where the Java code would throw a `NullPointerException`.
- `HasNext` and `Next` on a cursor that was never bound require a bound source, where the Java code would throw a `NullPointerException`.
- `init` is modelled as the constructor `Init`, so the model assumes a single `init`. A repeated Java `init` never clears the other cursor field (lines 121-125), so after `init(true)` and then `init(false)` both cursors exist and `getOutgoingEdges` (line 52) keeps handing out the with-value cursor. `Valid()` rules out that state.
- `Serializable`, distribution across workers and concurrent use of one instance belong to the host runtime and are not modelled.
