/**
 * WriterRouter: per-topic batching of decoded Avro records. The router
 * keeps one BatchBuffer object per topic in a map and mutates it in
 * place; each operation returns the batches it hands to the writers
 * instead of writing them. Every method is proved against the value-level
 * functions of module BatchBuffers.
 */
module WriterRouter {
  import opened Wrappers
  import opened Paths
  import opened AvroDecoding
  import opened BatchBuffers
  import opened WriteTargets
  import opened TopicMappingResolver

  /** One topic's buffer: schema, pending records, time of the last append. */
  class BatchBuffer<S(==), R> {
    var schema: Option<S>
    var records: seq<R>
    var lastAppend: Option<int>

    function State(): Buffer<S, R>
      reads this
    {
      Buffer(schema, records, lastAppend)
    }

    constructor()
      ensures State() == EmptyBuffer()
    {
      schema := None;
      records := [];
      lastAppend := None;
    }

    /** The buffer's part of write: adopt the incoming schema (draining
        the old contents if the schema changes), append the records, stamp
        the time, and drain once the count reaches maxRecords. */
    method Write(d: DecodedAvro<S, R>, now: int, maxRecords: int) returns (batches: seq<DecodedAvro<S, R>>)
      modifies this
      ensures (State(), batches) == WriteStep(old(State()), d, now, maxRecords)
    {
      ghost var adopted := BatchBuffers.AdoptSchema(State(), d.schema);
      batches := AdoptSchema(d.schema);
      records := records + d.records;
      lastAppend := Some(now);
      assert State() == Buffer(adopted.0.schema, adopted.0.records + d.records, Some(now));
      if |records| >= maxRecords {
        var drained := Drain();
        if drained.Some? {
          batches := batches + [drained.value];
        }
        assert batches == adopted.1 + OptionToSeq(drained);
      }
    }

    /** write's schema check: a different schema drains the old contents
        first; a missing one is adopted. */
    method AdoptSchema(incoming: S) returns (batches: seq<DecodedAvro<S, R>>)
      modifies this
      ensures (State(), batches) == BatchBuffers.AdoptSchema(old(State()), incoming)
    {
      batches := [];
      if schema.Some? && schema.value != incoming {
        var drained := Drain();
        ghost var mid := State();
        if drained.Some? {
          batches := [drained.value];
        }
        schema := Some(incoming);
        assert State() == mid.(schema := Some(incoming));
      } else if schema.None? {
        schema := Some(incoming);
      }
    }

    /** drain: snapshot and clear the records, clear the last-append time,
        keep the schema. */
    method Drain() returns (drained: Option<DecodedAvro<S, R>>)
      modifies this
      ensures (State(), drained) == BatchBuffers.Drain(old(State()))
    {
      if records == [] || schema.None? {
        return None;
      }
      var snapshot := records;
      records := [];
      lastAppend := None;
      drained := Some(DecodedAvro(schema.value, snapshot));
    }
  }

  class WriterRouter<K(==), S(==), R> {
    /** batch.maxRecords */
    const maxRecords: int
    /** batch.flushInterval in milliseconds; None when unset. */
    const flushInterval: Option<int>
    var buffers: map<K, BatchBuffer<S, R>>
    /** The buffers' contents, topic by topic. */
    ghost var view: map<K, Buffer<S, R>>

    /** Distinct topics own distinct buffer objects, view holds their
        contents, and every buffer satisfies the buffer invariant. */
    ghost predicate Valid()
      reads this, buffers.Values
    {
      && Injective()
      && buffers.Keys == view.Keys
      && (forall t | t in buffers :: buffers[t].State() == view[t])
      && AllInv(view)
    }

    /** No buffer object is shared between two topics. */
    ghost predicate Injective()
      reads this
    {
      forall t1, t2 | t1 in buffers && t2 in buffers && t1 != t2 :: buffers[t1] != buffers[t2]
    }

    constructor(maxRecords: int, flushInterval: Option<int>)
      ensures Valid() && view == map[]
      ensures this.maxRecords == maxRecords && this.flushInterval == flushInterval
    {
      this.maxRecords := maxRecords;
      this.flushInterval := flushInterval;
      buffers := map[];
      view := map[];
    }

    /** write(topic, decoded): returns the batches to write, in order. */
    method Write(topic: K, decoded: Option<DecodedAvro<S, R>>, now: int)
      returns (batches: seq<DecodedAvro<S, R>>)
      requires Valid()
      modifies this, buffers.Values
      ensures Valid()
      ensures (view, batches) == BatchBuffers.Write(old(view), topic, decoded, now, maxRecords)
    {
      if decoded.None? || decoded.value.records == [] {
        return [];
      }
      ghost var v0 := view;
      if topic !in buffers {
        AddBuffer(topic);
      }
      ghost var v1 := view;
      batches := WriteTopic(topic, decoded.value, now);
      assert v1[topic := view[topic]] == v0[topic := view[topic]];
    }

    /** computeIfAbsent: a new, empty buffer for a topic seen for the first
        time. */
    method AddBuffer(topic: K)
      requires Valid() && topic !in buffers
      modifies this
      ensures Valid() && view == old(view)[topic := EmptyBuffer()]
      ensures topic in buffers && fresh(buffers[topic])
      ensures buffers == old(buffers)[topic := buffers[topic]]
    {
      var buffer := new BatchBuffer();
      buffers := buffers[topic := buffer];
      view := view[topic := EmptyBuffer()];
    }

    /** The locked part of write on one topic's buffer; no other topic's
        buffer changes. */
    method WriteTopic(topic: K, d: DecodedAvro<S, R>, now: int) returns (batches: seq<DecodedAvro<S, R>>)
      requires Valid() && topic in buffers && d.records != []
      modifies this, buffers[topic]
      ensures Valid()
      ensures var (b', out) := WriteStep(old(view)[topic], d, now, maxRecords);
        view == old(view)[topic := b'] && batches == out
    {
      var buffer := buffers[topic];
      WriteStepInv(view[topic], d, now, maxRecords);
      batches := buffer.Write(d, now, maxRecords);
      view := view[topic := buffer.State()];
    }

    /** Every buffer holds its contents from v0, drained for the topics in
        selected. */
    ghost predicate DrainedFrom(v0: map<K, Buffer<S, R>>, selected: set<K>)
      reads this, buffers.Values
    {
      && v0.Keys == buffers.Keys
      && forall t | t in buffers :: buffers[t].State() == if t in selected then Drain(v0[t]).0 else v0[t]
    }

    /** Drains the buffer of one more topic; no other topic's buffer
        changes. */
    method DrainTopic(topic: K, ghost v0: map<K, Buffer<S, R>>, ghost selected: set<K>)
      returns (drained: Option<DecodedAvro<S, R>>)
      requires Injective() && topic in buffers && topic !in selected && DrainedFrom(v0, selected)
      modifies buffers[topic]
      ensures DrainedFrom(v0, selected + {topic})
      ensures drained == Drain(v0[topic]).1
    {
      drained := buffers[topic].Drain();
    }

    /** flushExpired(now): drains every buffer whose last append is at
        least the flush interval old; returns (topic, batch) pairs in map
        iteration order, which is left open. */
    method FlushExpired(now: int) returns (out: seq<(K, DecodedAvro<S, R>)>)
      requires Valid()
      modifies this, buffers.Values
      ensures Valid() && buffers == old(buffers)
      ensures view == BatchBuffers.FlushExpired(old(view), flushInterval, now)
      ensures EmitsDrained(old(view), DueTopics(old(view), flushInterval, now), out)
    {
      if !FlushEnabled(flushInterval) {
        FlushExpiredDisabled(view, flushInterval, now);
        assert DueTopics(view, flushInterval, now) == {};
        return [];
      }
      out := FlushDue(now);
    }

    /** The loop of flushExpired, once the interval is known to be enabled. */
    method FlushDue(now: int) returns (out: seq<(K, DecodedAvro<S, R>)>)
      requires Valid() && FlushEnabled(flushInterval)
      modifies this, buffers.Values
      ensures Valid() && buffers == old(buffers)
      ensures view == BatchBuffers.FlushExpired(old(view), flushInterval, now)
      ensures EmitsDrained(old(view), DueTopics(old(view), flushInterval, now), out)
    {
      ghost var v0 := view;
      ghost var due := DueTopics(v0, flushInterval, now);
      var remaining := buffers.Keys;
      ghost var done: set<K> := {};
      out := [];
      while remaining != {}
        modifies buffers.Values
        invariant FlushProgress(v0, remaining, done, due, out)
        decreases remaining
      {
        var topic :| topic in remaining;
        out := FlushIfDue(topic, now, v0, remaining, done, due, out);
        done := done + {topic};
        remaining := remaining - {topic};
      }
      assert done * due == due;
      view := BatchBuffers.FlushExpired(v0, flushInterval, now);
      FlushExpiredInv(v0, flushInterval, now);
    }

    /** Loop state of the flushes: the topics in done have been visited and
        those of them in selected drained, and out holds their batches. */
    ghost predicate FlushProgress(v0: map<K, Buffer<S, R>>, remaining: set<K>, done: set<K>, selected: set<K>,
                                  out: seq<(K, DecodedAvro<S, R>)>)
      reads this, buffers.Values
    {
      && Injective()
      && remaining + done == buffers.Keys && remaining !! done
      && DrainedFrom(v0, done * selected)
      && EmitsDrained(v0, done * selected, out)
    }

    /** One iteration of flushExpired: drain the topic's buffer if it has
        expired and emit its batch. */
    method FlushIfDue(topic: K, now: int, ghost v0: map<K, Buffer<S, R>>, ghost remaining: set<K>,
                      ghost done: set<K>, ghost due: set<K>, out: seq<(K, DecodedAvro<S, R>)>)
      returns (out': seq<(K, DecodedAvro<S, R>)>)
      requires FlushEnabled(flushInterval) && due == DueTopics(v0, flushInterval, now)
      requires FlushProgress(v0, remaining, done, due, out) && topic in remaining
      modifies buffers[topic]
      ensures FlushProgress(v0, remaining - {topic}, done + {topic}, due, out')
    {
      var buffer := buffers[topic];
      SelectNext(done, due, topic);
      out' := out;
      if buffer.lastAppend.Some? && now - buffer.lastAppend.value >= flushInterval.value {
        assert topic in due;
        var drained := DrainTopic(topic, v0, done * due);
        if drained.Some? {
          EmitsDrainedSome(v0, done * due, out, topic);
          out' := out + [(topic, drained.value)];
        } else {
          EmitsDrainedNone(v0, done * due, out, topic);
        }
      }
    }

    /** flushAll(): drains every buffer; returns (topic, batch) pairs in map
        iteration order, which is left open. */
    method FlushAll() returns (out: seq<(K, DecodedAvro<S, R>)>)
      requires Valid()
      modifies this, buffers.Values
      ensures Valid() && buffers == old(buffers)
      ensures view == BatchBuffers.FlushAll(old(view))
      ensures EmitsDrained(old(view), old(view).Keys, out)
    {
      ghost var v0 := view;
      var remaining := buffers.Keys;
      ghost var done: set<K> := {};
      out := [];
      while remaining != {}
        modifies buffers.Values
        invariant FlushProgress(v0, remaining, done, v0.Keys, out)
        decreases remaining
      {
        var topic :| topic in remaining;
        out := FlushOne(topic, v0, remaining, done, out);
        done := done + {topic};
        remaining := remaining - {topic};
      }
      assert done * v0.Keys == v0.Keys;
      view := BatchBuffers.FlushAll(v0);
      FlushAllInv(v0);
    }

    /** One iteration of flushAll: drain the topic's buffer and emit its
        batch. */
    method FlushOne(topic: K, ghost v0: map<K, Buffer<S, R>>, ghost remaining: set<K>, ghost done: set<K>,
                    out: seq<(K, DecodedAvro<S, R>)>)
      returns (out': seq<(K, DecodedAvro<S, R>)>)
      requires FlushProgress(v0, remaining, done, v0.Keys, out) && topic in remaining
      modifies buffers[topic]
      ensures FlushProgress(v0, remaining - {topic}, done + {topic}, v0.Keys, out')
    {
      SelectNext(done, v0.Keys, topic);
      var drained := DrainTopic(topic, v0, done * v0.Keys);
      if drained.Some? {
        EmitsDrainedSome(v0, done * v0.Keys, out, topic);
        out' := out + [(topic, drained.value)];
      } else {
        EmitsDrainedNone(v0, done * v0.Keys, out, topic);
        out' := out;
      }
    }
  }

  /** A call writeNow makes on one of the two writers. */
  datatype WriterCall<S, R> =
    | LocalWrite(batch: DecodedAvro<S, R>, path: Path)
    | S3Write(batch: DecodedAvro<S, R>, bucket: string, key: string)

  /** writeNow(topic, batch): resolve the topic's target and pick the writer
      by the target's type; a resolution error propagates. */
  function WriteNow<S, R>(settings: SinkSettings, topic: string, batch: DecodedAvro<S, R>, date: string, uuid: string)
    : (r: Result<WriterCall<S, R>, ResolveError>)
    ensures r.Failure? <==> TopicMappingResolver.Resolve(settings, topic, date, uuid).Failure?
    ensures r.Success? && r.value.LocalWrite? <==>
              TopicMappingResolver.Resolve(settings, topic, date, uuid).Success? && TopicMappingResolver.Resolve(settings, topic, date, uuid).value.Kind() == Local
    ensures r.Success? ==> r.value.batch == batch
    ensures r.Failure? ==> r.error == TopicMappingResolver.Resolve(settings, topic, date, uuid).error
    ensures r.Success? && r.value.LocalWrite? ==>
              TopicMappingResolver.Resolve(settings, topic, date, uuid).value == LocalTarget(r.value.path)
    ensures r.Success? && r.value.S3Write? ==>
              TopicMappingResolver.Resolve(settings, topic, date, uuid).value == S3Target(r.value.bucket, r.value.key)
  {
    match TopicMappingResolver.Resolve(settings, topic, date, uuid)
    case Failure(e) => Failure(e)
    case Success(target) =>
      if target.Kind() == Local then Success(LocalWrite(batch, target.LocalPath().value))
      else Success(S3Write(batch, target.Bucket().value, target.Key().value))
  }
}
