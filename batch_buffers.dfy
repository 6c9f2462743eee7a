/**
 * BatchBuffers: the value-level meaning of WriterRouter's per-topic buffers.
 * A buffer holds the current schema, the pending records and the time of
 * the last append; the router's view is a map from topic to buffer. The
 * imperative router in module WriterRouter is proved against these
 * functions, and the properties of batching are proved about them here.
 */
module BatchBuffers {
  import opened Wrappers
  import opened AvroDecoding
  import opened Seqs

  /** One BatchBuffer's fields; times are epoch milliseconds. */
  datatype Buffer<S, R> = Buffer(schema: Option<S>, records: seq<R>, lastAppend: Option<int>)

  /** A freshly created BatchBuffer. */
  function EmptyBuffer<S, R>(): Buffer<S, R> {
    Buffer(None, [], None)
  }

  /** What every reachable buffer satisfies: records only under a schema,
      and a last-append time exactly while records are pending. */
  predicate BufferInv<S, R>(b: Buffer<S, R>) {
    && (b.schema.None? ==> b.records == [])
    && (b.lastAppend.Some? <==> b.records != [])
  }

  /** The records of a sequence of batches, in order. */
  function Flatten<S, R>(batches: seq<DecodedAvro<S, R>>): (rs: seq<R>)
    ensures batches == [] ==> rs == []
  {
    if batches == [] then [] else Flatten(batches[..|batches| - 1]) + batches[|batches| - 1].records
  }

  function OptionToSeq<T>(o: Option<T>): seq<T> {
    if o.Some? then [o.value] else []
  }

  /** BatchBuffer.drain: nothing for an empty or schema-less buffer;
      otherwise a snapshot under the buffer's schema, leaving the buffer
      empty, without a last-append time and with its schema kept. */
  function Drain<S, R>(b: Buffer<S, R>): (r: (Buffer<S, R>, Option<DecodedAvro<S, R>>))
    ensures r.1.None? <==> b.records == [] || b.schema.None?
    ensures r.1.None? ==> r.0 == b
    ensures r.1.Some? ==> r.1.value == DecodedAvro(b.schema.value, b.records) && r.1.value.records != []
    ensures r.1.Some? ==> r.0 == Buffer(b.schema, [], None)
    ensures r.0.schema == b.schema
    ensures Flatten(OptionToSeq(r.1)) + r.0.records == b.records
  {
    if b.records == [] || b.schema.None? then (b, None)
    else (Buffer(b.schema, [], None), Some(DecodedAvro(b.schema.value, b.records)))
  }

  /** A second drain right after the first returns nothing. */
  lemma DrainTwice<S, R>(b: Buffer<S, R>)
    ensures Drain(Drain(b).0).1 == None
    ensures Drain(Drain(b).0).0 == Drain(b).0
  {
  }

  /** Under the invariant a drain returns something exactly when records
      are pending, and the drained buffer still satisfies the invariant. */
  lemma DrainInv<S, R>(b: Buffer<S, R>)
    requires BufferInv(b)
    ensures Drain(b).1.Some? <==> b.records != []
    ensures BufferInv(Drain(b).0)
  {
  }

  /** The buffer after write's schema check: a different schema drains the
      old contents first; a missing one is adopted. */
  function AdoptSchema<S(==), R>(b: Buffer<S, R>, schema: S): (r: (Buffer<S, R>, seq<DecodedAvro<S, R>>))
    ensures r.0.schema == Some(schema)
    ensures r.1 != [] <==> b.schema.Some? && b.schema.value != schema && b.records != []
    ensures r.1 != [] ==> r.1 == [DecodedAvro(b.schema.value, b.records)] && r.0.records == []
    ensures r.1 == [] ==> r.0.records == b.records
  {
    if b.schema.Some? && b.schema.value != schema then
      var (drained, out) := Drain(b);
      (drained.(schema := Some(schema)), OptionToSeq(out))
    else if b.schema.None? then (b.(schema := Some(schema)), [])
    else (b, [])
  }

  /** write(topic, decoded) on one buffer, for a non-empty batch: adopt the
      schema, append the records, stamp the time, and drain once the count
      reaches maxRecords. Returns the new buffer and the batches to write,
      in order. */
  function WriteStep<S(==), R>(b: Buffer<S, R>, d: DecodedAvro<S, R>, now: int, maxRecords: int)
    : (r: (Buffer<S, R>, seq<DecodedAvro<S, R>>))
    ensures r.0.schema == Some(d.schema)
    ensures r.0.lastAppend == Some(now) || r.0 == Buffer(Some(d.schema), [], None)
  {
    var (adopted, first) := AdoptSchema(b, d.schema);
    var appended := Buffer(adopted.schema, adopted.records + d.records, Some(now));
    if |appended.records| >= maxRecords then
      var (drained, out) := Drain(appended);
      (drained, first + OptionToSeq(out))
    else (appended, first)
  }

  /** write on the router's map. A null or empty batch changes nothing and
      creates no buffer; otherwise the topic's buffer (created empty on
      first use) takes the step. */
  function Write<K(==), S(==), R>(view: map<K, Buffer<S, R>>, topic: K, decoded: Option<DecodedAvro<S, R>>,
                           now: int, maxRecords: int)
    : (r: (map<K, Buffer<S, R>>, seq<DecodedAvro<S, R>>))
    ensures r.0.Keys == if decoded.None? || decoded.value.records == [] then view.Keys else view.Keys + {topic}
    ensures forall t | t in view && t != topic :: r.0[t] == view[t]
  {
    if decoded.None? || decoded.value.records == [] then (view, [])
    else
      var b := if topic in view then view[topic] else EmptyBuffer();
      var (b', out) := WriteStep(b, decoded.value, now, maxRecords);
      (view[topic := b'], out)
  }

  lemma FlattenAppend<S, R>(xs: seq<DecodedAvro<S, R>>, ys: seq<DecodedAvro<S, R>>)
    ensures Flatten(xs + ys) == Flatten(xs) + Flatten(ys)
    decreases |ys|
  {
    if ys == [] {
      assert xs + ys == xs;
    } else {
      var zs := xs + ys;
      assert zs[..|zs| - 1] == xs + ys[..|ys| - 1];
      FlattenAppend(xs, ys[..|ys| - 1]);
    }
  }

  lemma FlattenOption<S, R>(o: Option<DecodedAvro<S, R>>)
    ensures Flatten(OptionToSeq(o)) == if o.Some? then o.value.records else []
  {
    if o.Some? {
      assert OptionToSeq(o)[..0] == [];
    }
  }

  /** Conservation and order: the emitted batches, concatenated in order
      and followed by what stays buffered, are the old buffered records
      followed by the incoming ones. */
  lemma {:induction false} WriteStepConserves<S, R>(b: Buffer<S, R>, d: DecodedAvro<S, R>, now: int, maxRecords: int)
    ensures var (b', out) := WriteStep(b, d, now, maxRecords);
      Flatten(out) + b'.records == b.records + d.records
  {
    var (adopted, first) := AdoptSchema(b, d.schema);
    AdoptSchemaConserves(b, d.schema);
    AppendAssociative(Flatten(first), adopted.records, d.records);
    var appended := Buffer(adopted.schema, adopted.records + d.records, Some(now));
    if |appended.records| >= maxRecords {
      var (drained, last) := Drain(appended);
      FlattenAppend(first, OptionToSeq(last));
      AppendAssociative(Flatten(first), Flatten(OptionToSeq(last)), drained.records);
    }
  }

  /** The schema check loses no record: what it emits, followed by what
      stays, is what was buffered. */
  lemma AdoptSchemaConserves<S, R>(b: Buffer<S, R>, schema: S)
    ensures var (adopted, first) := AdoptSchema(b, schema);
      Flatten(first) + adopted.records == b.records
  {
    if b.schema.Some? && b.schema.value != schema {
      FlattenOption(Drain(b).1);
    }
  }

  /** After a write the buffer's schema is the incoming one, so a buffer
      never mixes schemas. */
  lemma WriteStepAdoptsSchema<S, R>(b: Buffer<S, R>, d: DecodedAvro<S, R>, now: int, maxRecords: int)
    ensures WriteStep(b, d, now, maxRecords).0.schema == Some(d.schema)
  {
  }

  /** Every emitted batch is non-empty; at most two are emitted, and all
      but a leading one flushed on a schema change carry the new schema. */
  lemma WriteStepBatches<S, R>(b: Buffer<S, R>, d: DecodedAvro<S, R>, now: int, maxRecords: int)
    requires d.records != []
    ensures var out := WriteStep(b, d, now, maxRecords).1;
      && |out| <= 2
      && (forall i | 0 <= i < |out| :: out[i].records != [])
      && (forall i | 0 < i < |out| :: out[i].schema == d.schema)
  {
  }

  /** A schema change first emits the old contents, under the old schema,
      as one batch. */
  lemma WriteStepSchemaChange<S, R>(b: Buffer<S, R>, d: DecodedAvro<S, R>, now: int, maxRecords: int)
    requires b.schema.Some? && b.schema.value != d.schema && b.records != []
    ensures var out := WriteStep(b, d, now, maxRecords).1;
      out != [] && out[0] == DecodedAvro(b.schema.value, b.records)
  {
  }

  /** With a positive maxRecords, a buffer holds fewer records than that
      after every write: reaching the limit drains it. */
  lemma WriteStepBounded<S, R>(b: Buffer<S, R>, d: DecodedAvro<S, R>, now: int, maxRecords: int)
    requires d.records != [] && maxRecords > 0
    ensures |WriteStep(b, d, now, maxRecords).0.records| < maxRecords
  {
  }

  /** The drain at the limit happens exactly when the count after the
      append reaches maxRecords; below it no batch of the new schema goes
      out and the buffer is stamped with the write time. */
  lemma WriteStepBelowLimit<S, R>(b: Buffer<S, R>, d: DecodedAvro<S, R>, now: int, maxRecords: int)
    requires BufferInv(b) && (b.schema == Some(d.schema) || b.records == [])
    requires |b.records| + |d.records| < maxRecords
    ensures WriteStep(b, d, now, maxRecords) == (Buffer(Some(d.schema), b.records + d.records, Some(now)), [])
  {
    AdoptSchemaKeeps(b, d.schema);
  }

  /** A buffer that already has the schema, or holds nothing, passes the
      schema check with its records and emits nothing. */
  lemma AdoptSchemaKeeps<S, R>(b: Buffer<S, R>, schema: S)
    requires BufferInv(b) && (b.schema == Some(schema) || b.records == [])
    ensures AdoptSchema(b, schema) == (Buffer(Some(schema), b.records, b.lastAppend), [])
  {
  }

  /** write keeps the buffer invariant. */
  lemma WriteStepInv<S, R>(b: Buffer<S, R>, d: DecodedAvro<S, R>, now: int, maxRecords: int)
    requires BufferInv(b) && d.records != []
    ensures BufferInv(WriteStep(b, d, now, maxRecords).0)
  {
  }

  /** A null or empty batch leaves every buffer alone and emits nothing. */
  lemma WriteIgnoresEmpty<K, S, R>(view: map<K, Buffer<S, R>>, topic: K, decoded: Option<DecodedAvro<S, R>>,
                                    now: int, maxRecords: int)
    requires decoded.None? || decoded.value.records == []
    ensures Write(view, topic, decoded, now, maxRecords) == (view, [])
  {
  }

  /** Only the written topic's buffer changes. */
  lemma WriteTouchesOneTopic<K, S, R>(view: map<K, Buffer<S, R>>, topic: K, decoded: Option<DecodedAvro<S, R>>,
                                       now: int, maxRecords: int, other: K)
    requires other != topic
    ensures var view' := Write(view, topic, decoded, now, maxRecords).0;
      (other in view' <==> other in view) && (other in view ==> view'[other] == view[other])
  {
  }

  /** Reaching the limit drains the buffer: the records held, followed by
      the incoming ones, go out as one batch under the incoming schema and
      the buffer is left empty. */
  lemma WriteStepAtLimit<S, R>(b: Buffer<S, R>, d: DecodedAvro<S, R>, now: int, maxRecords: int)
    requires BufferInv(b) && (b.schema == Some(d.schema) || b.records == [])
    requires d.records != [] && |b.records| + |d.records| >= maxRecords
    ensures WriteStep(b, d, now, maxRecords)
         == (Buffer(Some(d.schema), [], None), [DecodedAvro(d.schema, b.records + d.records)])
  {
    AdoptSchemaKeeps(b, d.schema);
    var appended := Buffer(Some(d.schema), b.records + d.records, Some(now));
    var batch := DecodedAvro(d.schema, b.records + d.records);
    assert Drain(appended) == (Buffer(Some(d.schema), [], None), Some(batch));
    assert [] + OptionToSeq(Some(batch)) == [batch];
  }

  /** With maxRecords 3, three single-record writes to a new topic emit
      nothing, nothing, and then all three records as one batch, leaving
      the buffer empty. */
  lemma ThreeWritesOneBatch<K, S, R>(topic: K, schema: S, r1: R, r2: R, r3: R, t1: int, t2: int, t3: int)
    ensures var (v1, out1) := Write(map[], topic, Some(DecodedAvro(schema, [r1])), t1, 3);
      var (v2, out2) := Write(v1, topic, Some(DecodedAvro(schema, [r2])), t2, 3);
      var (v3, out3) := Write(v2, topic, Some(DecodedAvro(schema, [r3])), t3, 3);
      && out1 == [] && out2 == []
      && out3 == [DecodedAvro(schema, [r1, r2, r3])]
      && v3 == map[topic := Buffer(Some(schema), [], None)]
  {
    var b1 := Buffer(Some(schema), [r1], Some(t1));
    WriteStepBelowLimit(EmptyBuffer(), DecodedAvro(schema, [r1]), t1, 3);
    assert [] + [r1] == [r1];
    var b2 := Buffer(Some(schema), [r1, r2], Some(t2));
    WriteStepBelowLimit(b1, DecodedAvro(schema, [r2]), t2, 3);
    assert [r1] + [r2] == [r1, r2];
    WriteStepAtLimit(b2, DecodedAvro(schema, [r3]), t3, 3);
    assert [r1, r2] + [r3] == [r1, r2, r3];
  }

  /** The flush interval is enabled only when set and positive. */
  predicate FlushEnabled(interval: Option<int>) {
    interval.Some? && interval.value > 0
  }

  /** A buffer is due once its age reaches the interval. */
  predicate Expired<S, R>(b: Buffer<S, R>, interval: int, now: int) {
    b.lastAppend.Some? && now - b.lastAppend.value >= interval
  }

  /** The topics flushExpired drains. */
  predicate Due<K(==), S, R>(view: map<K, Buffer<S, R>>, interval: Option<int>, now: int, t: K)
    requires t in view
  {
    FlushEnabled(interval) && Expired(view[t], interval.value, now)
  }

  /** All topics flushExpired drains. */
  function DueTopics<K(==), S, R>(view: map<K, Buffer<S, R>>, interval: Option<int>, now: int): set<K> {
    set t | t in view && Due(view, interval, now, t)
  }

  /** The map after flushExpired: due buffers drained, others untouched. */
  function FlushExpired<K(==), S, R>(view: map<K, Buffer<S, R>>, interval: Option<int>, now: int)
    : (view': map<K, Buffer<S, R>>)
    ensures view'.Keys == view.Keys
    ensures forall t | t in view :: view'[t].schema == view[t].schema
  {
    map t | t in view :: if Due(view, interval, now, t) then Drain(view[t]).0 else view[t]
  }

  /** The map after flushAll: every buffer drained. */
  function FlushAll<K(==), S, R>(view: map<K, Buffer<S, R>>): (view': map<K, Buffer<S, R>>)
    ensures view'.Keys == view.Keys
    ensures forall t | t in view :: view'[t].schema == view[t].schema
    ensures forall t | t in view && view[t].schema.Some? :: view'[t].records == []
  {
    map t | t in view :: Drain(view[t]).0
  }

  /** The topics of a sequence of (topic, batch) pairs. */
  function Topics<K(==), S, R>(out: seq<(K, DecodedAvro<S, R>)>): set<K> {
    set i | 0 <= i < |out| :: out[i].0
  }

  lemma TopicsAppend<K, S, R>(out: seq<(K, DecodedAvro<S, R>)>, p: (K, DecodedAvro<S, R>))
    ensures Topics(out + [p]) == Topics(out) + {p.0}
  {
    var out' := out + [p];
    assert out'[|out|] == p;
    assert forall i | 0 <= i < |out| :: out'[i] == out[i];
  }

  /** out holds, once each and in some order, exactly the drained batch of
      every topic in selected for which drain returns one. */
  ghost predicate EmitsDrained<K, S, R>(view: map<K, Buffer<S, R>>, selected: set<K>,
                               out: seq<(K, DecodedAvro<S, R>)>)
  {
    && (forall i | 0 <= i < |out| :: out[i].0 in selected && out[i].0 in view && Drain(view[out[i].0]).1 == Some(out[i].1))
    && (forall i, j | 0 <= i < j < |out| :: out[i].0 != out[j].0)
    && (forall t | t in selected && t in view && Drain(view[t]).1.Some? :: t in Topics(out))
  }

  /** Draining one more topic that has a batch to give extends what has
      been emitted by that batch. */
  lemma EmitsDrainedSome<K, S, R>(view: map<K, Buffer<S, R>>, selected: set<K>,
                                  out: seq<(K, DecodedAvro<S, R>)>, t: K)
    requires EmitsDrained(view, selected, out) && t in view && t !in selected
    requires Drain(view[t]).1.Some?
    ensures EmitsDrained(view, selected + {t}, out + [(t, Drain(view[t]).1.value)])
  {
    TopicsAppend(out, (t, Drain(view[t]).1.value));
  }

  /** Draining one more topic that has nothing to give emits nothing. */
  lemma EmitsDrainedNone<K, S, R>(view: map<K, Buffer<S, R>>, selected: set<K>,
                                  out: seq<(K, DecodedAvro<S, R>)>, t: K)
    requires EmitsDrained(view, selected, out) && t in view && t !in selected
    requires Drain(view[t]).1.None?
    ensures EmitsDrained(view, selected + {t}, out)
  {
  }

  lemma SelectNext<K>(done: set<K>, selected: set<K>, t: K)
    ensures t in selected ==> done * selected + {t} == (done + {t}) * selected
    ensures t !in selected ==> done * selected == (done + {t}) * selected
  {
  }

  predicate AllInv<K(==), S, R>(view: map<K, Buffer<S, R>>) {
    forall t | t in view :: BufferInv(view[t])
  }

  /** flushExpired with a missing, zero or negative interval changes no
      buffer. */
  lemma FlushExpiredDisabled<K, S, R>(view: map<K, Buffer<S, R>>, interval: Option<int>, now: int)
    requires !FlushEnabled(interval)
    ensures FlushExpired(view, interval, now) == view
  {
    var view' := FlushExpired(view, interval, now);
    assert forall t | t in view :: view'[t] == view[t];
  }

  /** flushExpired drains exactly the due buffers: each due buffer ends up
      empty and each other buffer is unchanged; the invariant holds. */
  lemma FlushExpiredEffect<K, S, R>(view: map<K, Buffer<S, R>>, interval: Option<int>, now: int, t: K)
    requires AllInv(view) && t in view
    ensures var view' := FlushExpired(view, interval, now);
      && t in view'
      && (Due(view, interval, now, t) ==> view'[t] == Buffer(view[t].schema, [], None))
      && (!Due(view, interval, now, t) ==> view'[t] == view[t])
      && BufferInv(view'[t])
  {
  }

  /** flushExpired keeps the invariant. */
  lemma FlushExpiredInv<K, S, R>(view: map<K, Buffer<S, R>>, interval: Option<int>, now: int)
    requires AllInv(view)
    ensures AllInv(FlushExpired(view, interval, now))
  {
    forall t | t in view
      ensures BufferInv(FlushExpired(view, interval, now)[t])
    {
      DrainInv(view[t]);
    }
  }

  /** A due buffer always has a batch to give: the expiry test needs a
      last-append time, which only a non-empty buffer has. */
  lemma DueBufferDrains<K, S, R>(view: map<K, Buffer<S, R>>, interval: Option<int>, now: int, t: K)
    requires AllInv(view) && t in view && Due(view, interval, now, t)
    ensures Drain(view[t]).1 == Some(DecodedAvro(view[t].schema.value, view[t].records))
  {
  }

  /** After flushAll every buffer is empty, keeps its schema, and the
      invariant holds. */
  lemma FlushAllEmpties<K, S, R>(view: map<K, Buffer<S, R>>)
    requires AllInv(view)
    ensures var view' := FlushAll(view);
      view'.Keys == view.Keys && forall t | t in view' :: view'[t] == Buffer(view[t].schema, [], None)
  {
  }

  /** flushAll keeps the invariant. */
  lemma FlushAllInv<K, S, R>(view: map<K, Buffer<S, R>>)
    requires AllInv(view)
    ensures AllInv(FlushAll(view))
  {
    forall t | t in view
      ensures BufferInv(FlushAll(view)[t])
    {
      DrainInv(view[t]);
    }
  }

  /** flushAll gives exactly one batch per previously non-empty buffer. */
  lemma FlushAllBatchPerNonEmpty<K, S, R>(view: map<K, Buffer<S, R>>, out: seq<(K, DecodedAvro<S, R>)>)
    requires AllInv(view) && EmitsDrained(view, view.Keys, out)
    ensures Topics(out) == set t | t in view && view[t].records != []
    ensures |out| == |Topics(out)|
    ensures forall i | 0 <= i < |out| :: out[i].1 == DecodedAvro(view[out[i].0].schema.value, view[out[i].0].records)
  {
    DistinctTopicsCount(out);
  }

  lemma {:induction false} DistinctTopicsCount<K, S, R>(out: seq<(K, DecodedAvro<S, R>)>)
    requires forall i, j | 0 <= i < j < |out| :: out[i].0 != out[j].0
    ensures |Topics(out)| == |out|
    decreases |out|
  {
    if out != [] {
      var init := out[..|out| - 1];
      DistinctTopicsCount(init);
      assert Topics(out) == Topics(init) + {out[|out| - 1].0};
      assert out[|out| - 1].0 !in Topics(init);
    }
  }
}
