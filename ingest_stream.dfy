/**
 * The NDJSON streaming endpoint (EventController.ingestStream and its copy
 * EventControllerV2.ingestStream), run sequentially: the reader thread's
 * steps (one line read, end of input) and each producer acknowledgment
 * (a completion callback) are separate atomic inputs to one state machine.
 */
module IngestStream {
  import opened Wrappers
  import opened JavaText
  import opened IngestHeaders
  import opened Seqs

  /** One parsed NDJSON line (EventController.EventRequest). */
  datatype EventRequest = EventRequest(id: string, eventType: string, payload: string, timestampMs: Option<int>)

  /** The event handed to the producer; the timestamp defaults to the clock. */
  datatype Event = Event(id: string, eventType: string, timestampMs: int, payload: string)

  function ToEvent(request: EventRequest, now: int): Event {
    Event(request.id, request.eventType, request.timestampMs.GetOr(now), request.payload)
  }

  /** The status carried by a response line. */
  datatype AckStatus = Queued | Acked | Failed

  datatype Ack = Ack(id: string, status: AckStatus)

  /** Open, completed normally (emitter.complete), or completed with an
      error (emitter.completeWithError). */
  datatype Phase = Open | Completed | Errored

  /** The per-request state: the semaphore's available permits (kept at 0
      when there is no semaphore), the inFlight counter, the inputDone flag,
      the admitted but unresolved submissions, what was published and what
      was written to the response. */
  datatype StreamState = StreamState(
    mode: AckMode,
    maxInFlight: int,
    bounded: bool,
    permits: int,
    inFlight: int,
    inputDone: bool,
    pending: seq<string>,
    published: seq<Event>,
    acks: seq<Ack>,
    phase: Phase)

  /** The inputs of the state machine. A line comes with the outcome of
      parsing it (None when Jackson throws) and the clock reading. */
  datatype Input =
    | ReadLine(line: string, request: Option<EventRequest>, now: int)
    | EndOfInput
    | Completion(index: nat, ok: bool)

  /** The set-up before the reader thread starts: the stream starts open,
      empty and in its invariant, with a semaphore exactly for wait mode
      with a positive bound. */
  function Init(ackModeHeader: Option<string>, maxInFlightHeader: Option<string>): (r: StreamState)
    ensures Inv(r)
    ensures r.phase == Open && r.published == [] && r.acks == [] && r.pending == []
    ensures r.bounded <==> FromHeader(ackModeHeader) == WaitForAck && ParseMaxInFlight(maxInFlightHeader) > 0
  {
    assert AckIds([]) == [] && EventIds([]) == [];
    var mode := FromHeader(ackModeHeader);
    var maxInFlight := ParseMaxInFlight(maxInFlightHeader);
    var bounded := mode == WaitForAck && maxInFlight > 0;
    StreamState(mode, maxInFlight, bounded, if bounded then maxInFlight else 0,
                0, false, [], [], [], Open)
  }

  /** The reader thread is still in its loop. */
  predicate ReaderActive(s: StreamState) {
    s.phase == Open && !s.inputDone
  }

  /** The line is a wait-mode submission that must acquire a permit. */
  predicate Admits(s: StreamState, line: string, request: Option<EventRequest>) {
    !IsBlank(line) && request.Some? && s.mode == WaitForAck
  }

  /** An input can happen in state s: the reader reads only while it is in
      its loop, and acquireUninterruptibly holds the line back until a permit
      is free; a completion refers to a pending submission. */
  predicate Enabled(s: StreamState, input: Input)
    ensures Inv(s) && input.ReadLine? && Admits(s, input.line, input.request) && s.bounded ==>
              (Enabled(s, input) <==> ReaderActive(s) && s.inFlight < s.maxInFlight)
    ensures Inv(s) && input.Completion? ==> (Enabled(s, input) <==> input.index < s.inFlight)
  {
    match input
    case ReadLine(line, request, _) =>
      ReaderActive(s) && (Admits(s, line, request) && s.bounded ==> s.permits > 0)
    case EndOfInput => ReaderActive(s)
    case Completion(k, _) => k < |s.pending|
  }

  function RemoveAt(xs: seq<string>, k: nat): seq<string>
    requires k < |xs|
  {
    xs[..k] + xs[k + 1..]
  }

  /** One step. The configuration never changes, and the published events
      and the response lines only grow, by at most one each. */
  function Next(s: StreamState, input: Input): (r: StreamState)
    requires Enabled(s, input)
    ensures r.mode == s.mode && r.maxInFlight == s.maxInFlight && r.bounded == s.bounded
    ensures s.published <= r.published && |r.published| <= |s.published| + 1
    ensures s.acks <= r.acks && |r.acks| <= |s.acks| + 1
  {
    match input
    case ReadLine(line, request, now) =>
      if IsBlank(line) then s
      else if request.None? then s.(phase := Errored)
      else
        var e := ToEvent(request.value, now);
        if s.mode == FireAndForget then
          s.(published := s.published + [e], acks := s.acks + [Ack(e.id, Queued)])
        else
          s.(permits := if s.bounded then s.permits - 1 else s.permits,
             inFlight := s.inFlight + 1,
             pending := s.pending + [e.id],
             published := s.published + [e])
    case EndOfInput =>
      s.(inputDone := true, phase := if s.inFlight == 0 then Completed else s.phase)
    case Completion(k, ok) =>
      var id := s.pending[k];
      var inFlight := s.inFlight - 1;
      s.(acks := if s.phase == Open then s.acks + [Ack(id, if ok then Acked else Failed)] else s.acks,
         permits := if s.bounded then s.permits + 1 else s.permits,
         inFlight := inFlight,
         pending := RemoveAt(s.pending, k),
         phase := if s.phase == Open && s.inputDone && inFlight == 0 then Completed else s.phase)
  }

  /** Runs a sequence of inputs; None when one of them cannot happen. */
  function Run(s: StreamState, inputs: seq<Input>): (r: Option<StreamState>)
    ensures r.Some? ==> r.value.mode == s.mode && r.value.maxInFlight == s.maxInFlight && r.value.bounded == s.bounded
    ensures r.Some? ==> s.published <= r.value.published && s.acks <= r.value.acks
    decreases |inputs|
  {
    if inputs == [] then Some(s)
    else if !Enabled(s, inputs[0]) then None
    else Run(Next(s, inputs[0]), inputs[1..])
  }

  function QueuedAcks(events: seq<Event>): (acks: seq<Ack>)
    ensures |acks| == |events|
  {
    seq(|events|, i requires 0 <= i < |events| => Ack(events[i].id, Queued))
  }

  function AckIds(acks: seq<Ack>): seq<string> {
    seq(|acks|, i requires 0 <= i < |acks| => acks[i].id)
  }

  function EventIds(events: seq<Event>): seq<string> {
    seq(|events|, i requires 0 <= i < |events| => events[i].id)
  }

  /** The invariant of a stream. */
  ghost predicate Inv(s: StreamState) {
    && s.bounded == (s.mode == WaitForAck && s.maxInFlight > 0)
    && s.inFlight == |s.pending|
    && (s.bounded ==> 0 <= s.permits && s.permits + s.inFlight == s.maxInFlight)
    && (!s.bounded ==> s.permits == 0)
    && (s.phase == Completed <==> s.inputDone && s.inFlight == 0)
    && (s.phase == Errored ==> !s.inputDone)
    // fire-and-forget: one "queued" line per published event, in input order
    && (s.mode == FireAndForget ==> s.pending == [] && s.acks == QueuedAcks(s.published))
    // wait-for-ack: every published event is either pending or answered once
    && (s.mode == WaitForAck ==> forall i | 0 <= i < |s.acks| :: s.acks[i].status != Queued)
    && (s.mode == WaitForAck && s.phase != Errored ==>
          multiset(AckIds(s.acks)) + multiset(s.pending) == multiset(EventIds(s.published)))
  }

  lemma {:induction false} RemoveAtMultiset(xs: seq<string>, k: nat)
    requires k < |xs|
    ensures multiset(xs) == multiset(RemoveAt(xs, k)) + multiset{xs[k]}
  {
    assert xs == xs[..k] + [xs[k]] + xs[k + 1..];
  }

  /** Every input that can happen keeps the invariant. */
  lemma NextInv(s: StreamState, input: Input)
    requires Inv(s) && Enabled(s, input)
    ensures Inv(Next(s, input))
  {
    match input
    case ReadLine(line, request, now) => ReadLineInv(s, line, request, now);
    case EndOfInput =>
    case Completion(k, ok) => CompletionInv(s, k, ok);
  }

  /** A line read keeps the invariant. A blank line changes nothing; an
      unparsable one ends the stream with an error and publishes nothing;
      otherwise the event is published, and in fire-and-forget mode a
      "queued" line is written at once, while in wait mode the event takes
      a permit (when bounded) and is pending until its acknowledgment. */
  lemma ReadLineInv(s: StreamState, line: string, request: Option<EventRequest>, now: int)
    requires Inv(s) && Enabled(s, ReadLine(line, request, now))
    ensures Inv(Next(s, ReadLine(line, request, now)))
    ensures var t := Next(s, ReadLine(line, request, now));
      && (IsBlank(line) ==> t == s)
      && (!IsBlank(line) && request.None? ==>
            t.phase == Errored && t.published == s.published && t.acks == s.acks && t.pending == s.pending)
      && (!IsBlank(line) && request.Some? ==> t.published == s.published + [ToEvent(request.value, now)])
      && (!IsBlank(line) && request.Some? && s.mode == FireAndForget ==>
            t.acks == s.acks + [Ack(request.value.id, Queued)] && t.pending == [])
      && (!IsBlank(line) && request.Some? && s.mode == WaitForAck ==>
            && t.acks == s.acks
            && t.pending == s.pending + [request.value.id]
            && t.inFlight == s.inFlight + 1
            && (s.bounded ==> t.permits == s.permits - 1))
  {
    if !IsBlank(line) && request.Some? {
      var t := Next(s, ReadLine(line, request, now));
      var e := ToEvent(request.value, now);
      assert EventIds(t.published) == EventIds(s.published) + [e.id];
      if s.mode == FireAndForget {
        assert t.acks == QueuedAcks(t.published);
      } else {
        assert t.pending == s.pending + [e.id];
      }
    }
  }

  /** An acknowledgment keeps the invariant: it removes its submission
      from the pending ones, gives back a permit when bounded, writes an
      "acked" or "failed" line while the response is open, and completes
      the response when it was the last one after the end of the input. */
  lemma CompletionInv(s: StreamState, k: nat, ok: bool)
    requires Inv(s) && Enabled(s, Completion(k, ok))
    ensures Inv(Next(s, Completion(k, ok)))
    ensures var t := Next(s, Completion(k, ok));
      && t.inFlight == s.inFlight - 1
      && multiset(t.pending) + multiset{s.pending[k]} == multiset(s.pending)
      && (s.bounded ==> t.permits == s.permits + 1)
      && (s.phase == Open ==> t.acks == s.acks + [Ack(s.pending[k], if ok then Acked else Failed)])
      && (s.phase != Open ==> t.acks == s.acks)
      && (t.phase == Completed <==> s.phase == Completed || (s.phase == Open && s.inputDone && |s.pending| == 1))
  {
    var t := Next(s, Completion(k, ok));
    RemoveAtMultiset(s.pending, k);
    assert s.mode == WaitForAck;
    if s.phase == Open {
      assert AckIds(t.acks) == AckIds(s.acks) + [s.pending[k]];
    }
  }

  /** Every state a stream can reach keeps the invariant. */
  lemma {:induction false} RunInv(s: StreamState, inputs: seq<Input>)
    requires Inv(s)
    ensures Run(s, inputs).Some? ==> Inv(Run(s, inputs).value)
    decreases |inputs|
  {
    if inputs != [] && Enabled(s, inputs[0]) {
      NextInv(s, inputs[0]);
      RunInv(Next(s, inputs[0]), inputs[1..]);
    }
  }

  /** The events of the submitted lines of an input sequence, in input
      order: one per non-blank line that parses. */
  function Submitted(inputs: seq<Input>): seq<Event>
    decreases |inputs|
  {
    if inputs == [] then [] else LineEvent(inputs[0]) + Submitted(inputs[1..])
  }

  function LineEvent(input: Input): seq<Event> {
    match input
    case ReadLine(line, request, now) =>
      if !IsBlank(line) && request.Some? then [ToEvent(request.value, now)] else []
    case _ => []
  }

  /** Whatever a run does, it publishes exactly the submitted lines' events,
      in input order. */
  lemma {:induction false} RunPublishes(s: StreamState, inputs: seq<Input>)
    requires Run(s, inputs).Some?
    ensures Run(s, inputs).value.published == s.published + Submitted(inputs)
    decreases |inputs|
  {
    if inputs != [] {
      var t := Next(s, inputs[0]);
      assert Run(s, inputs) == Run(t, inputs[1..]);
      RunPublishes(t, inputs[1..]);
      NextPublishes(s, inputs[0]);
      AppendAssociative(s.published, LineEvent(inputs[0]), Submitted(inputs[1..]));
    }
  }

  /** One step publishes the event of its line, if any. */
  lemma NextPublishes(s: StreamState, input: Input)
    requires Enabled(s, input)
    ensures Next(s, input).published == s.published + LineEvent(input)
  {
  }

  /** What a stream promises at every point of any run from its headers:
      it has published exactly the events of the submitted lines, in input
      order; the in-flight count never exceeds the admission bound when
      there is one; the response completes normally exactly when the input
      is done and nothing is in flight; in fire-and-forget mode the response
      is one "queued" line per submitted line, in input order; in wait mode
      a normally completed response holds exactly one "acked"/"failed" line
      per submitted line. */
  lemma StreamGuarantees(ackModeHeader: Option<string>, maxInFlightHeader: Option<string>, inputs: seq<Input>)
    requires Run(Init(ackModeHeader, maxInFlightHeader), inputs).Some?
    ensures var t := Run(Init(ackModeHeader, maxInFlightHeader), inputs).value;
      && t.published == Submitted(inputs)
      && (t.bounded ==> t.inFlight <= t.maxInFlight)
      && (t.phase == Completed <==> t.inputDone && t.inFlight == 0)
      && (t.mode == FireAndForget ==> t.acks == QueuedAcks(Submitted(inputs)))
      && (t.mode == WaitForAck && t.phase == Completed ==>
            multiset(AckIds(t.acks)) == multiset(EventIds(Submitted(inputs))))
  {
    var s0 := Init(ackModeHeader, maxInFlightHeader);
    RunPublishes(s0, inputs);
    AppendEmpty(Submitted(inputs));
    RunInv(s0, inputs);
    InvGuarantees(Run(s0, inputs).value, Submitted(inputs));
  }

  /** The guarantees, read off the invariant of a state that has published
      the given events. */
  lemma InvGuarantees(t: StreamState, events: seq<Event>)
    requires Inv(t) && t.published == events
    ensures t.bounded ==> t.inFlight <= t.maxInFlight
    ensures t.phase == Completed <==> t.inputDone && t.inFlight == 0
    ensures t.mode == FireAndForget ==> t.acks == QueuedAcks(events)
    ensures t.mode == WaitForAck && t.phase == Completed ==>
              multiset(AckIds(t.acks)) == multiset(EventIds(events))
  {
    if t.mode == WaitForAck && t.phase == Completed {
      assert t.pending == [];
    }
  }

  /** A blank line changes nothing: no event, no ack. */
  lemma BlankLineIgnored(s: StreamState, line: string, request: Option<EventRequest>, now: int)
    requires ReaderActive(s) && IsBlank(line)
    ensures Enabled(s, ReadLine(line, request, now))
    ensures Next(s, ReadLine(line, request, now)) == s
  {
  }

  /** End of input completes the response at once if nothing is in flight,
      and otherwise leaves completion to the last acknowledgment. */
  lemma CompletionAtEndOfInput(s: StreamState)
    requires Inv(s) && ReaderActive(s)
    ensures Next(s, EndOfInput).phase == (if s.inFlight == 0 then Completed else Open)
  {
  }

  lemma CompletionByLastAck(s: StreamState, ok: bool)
    requires Inv(s) && s.phase == Open && s.inputDone && |s.pending| == 1
    ensures Next(s, Completion(0, ok)).phase == Completed
    ensures Next(s, Completion(0, ok)).acks
        == s.acks + [Ack(s.pending[0], if ok then Acked else Failed)]
  {
  }

  /** With the bound reached, the next submission waits; one completion
      frees a permit and lets it through. */
  lemma {:induction false} CompletionFreesPermit(s: StreamState, line: string, request: Option<EventRequest>, now: int, ok: bool)
    requires Inv(s) && ReaderActive(s) && s.bounded && s.inFlight == s.maxInFlight
    requires Admits(s, line, request)
    ensures !Enabled(s, ReadLine(line, request, now))
    ensures Enabled(Next(s, Completion(0, ok)), ReadLine(line, request, now))
  {
    assert |s.pending| > 0;
  }

  /** A fire-and-forget stream: two events around a blank line. */
  lemma FireAndForgetScenario(a: EventRequest, b: EventRequest, now: int)
    ensures var inputs := [ReadLine("{a}", Some(a), now), ReadLine("  ", None, now),
                           ReadLine("{b}", Some(b), now), EndOfInput];
      && Run(Init(None, None), inputs).Some?
      && Run(Init(None, None), inputs).value.acks == [Ack(a.id, Queued), Ack(b.id, Queued)]
      && Run(Init(None, None), inputs).value.phase == Completed
  {
    var s0 := Init(None, None);
    assert s0.mode == FireAndForget by { FireAndForgetKeywords(); }
    assert !IsBlank("{a}") by { assert !IsWhitespace("{a}"[0]); }
    assert !IsBlank("{b}") by { assert !IsWhitespace("{b}"[0]); }
    assert IsBlank("  ");
    var s1 := Next(s0, ReadLine("{a}", Some(a), now));
    var s2 := Next(s1, ReadLine("  ", None, now));
    var s3 := Next(s2, ReadLine("{b}", Some(b), now));
    var s4 := Next(s3, EndOfInput);
    assert s4.acks == [Ack(a.id, Queued), Ack(b.id, Queued)] && s4.phase == Completed;
    var inputs := [ReadLine("{a}", Some(a), now), ReadLine("  ", None, now),
                   ReadLine("{b}", Some(b), now), EndOfInput];
    assert Run(s3, [EndOfInput]) == Some(s4) by {
      assert [EndOfInput][1..] == [];
    }
    assert Run(s2, inputs[2..]) == Some(s4) by {
      assert inputs[2..][1..] == [EndOfInput];
    }
    assert Run(s1, inputs[1..]) == Some(s4) by {
      assert inputs[1..][1..] == inputs[2..];
    }
  }

  /** The streaming request as the controller runs it: the fields of one
      ingestStream invocation, updated by the reader loop and by the
      completion callbacks. */
  class StreamSession {
    const mode: AckMode
    const maxInFlight: int
    const bounded: bool
    var permits: int
    var inFlight: int
    var inputDone: bool
    var pending: seq<string>
    var published: seq<Event>
    var acks: seq<Ack>
    var phase: Phase

    function State(): StreamState
      reads this
    {
      StreamState(mode, maxInFlight, bounded, permits, inFlight, inputDone, pending, published, acks, phase)
    }

    ghost predicate Valid()
      reads this
    {
      Inv(State())
    }

    /** The set-up before the reader thread starts. */
    constructor (ackModeHeader: Option<string>, maxInFlightHeader: Option<string>)
      ensures State() == Init(ackModeHeader, maxInFlightHeader)
      ensures Valid()
    {
      var m := FromHeader(ackModeHeader);
      var n := ParseMaxInFlight(maxInFlightHeader);
      mode := m;
      maxInFlight := n;
      bounded := m == WaitForAck && n > 0;
      permits := if m == WaitForAck && n > 0 then n else 0;
      inFlight := 0;
      inputDone := false;
      pending := [];
      published := [];
      acks := [];
      phase := Open;
    }

    /** One iteration of the reader loop. */
    method ReadLine(line: string, request: Option<EventRequest>, now: int)
      requires Valid() && Enabled(State(), Input.ReadLine(line, request, now))
      modifies this
      ensures State() == Next(old(State()), Input.ReadLine(line, request, now))
      ensures Valid()
    {
      NextInv(State(), Input.ReadLine(line, request, now));
      if IsBlank(line) {
        return;
      }
      if request.None? {
        phase := Errored;
        return;
      }
      var event := ToEvent(request.value, now);
      match mode
      case FireAndForget =>
        published := published + [event];
        acks := acks + [Ack(event.id, Queued)];
      case WaitForAck =>
        if bounded {
          permits := permits - 1;
        }
        inFlight := inFlight + 1;
        pending := pending + [event.id];
        published := published + [event];
    }

    /** The reader reached the end of the input. */
    method EndOfInput()
      requires Valid() && Enabled(State(), Input.EndOfInput)
      modifies this
      ensures State() == Next(old(State()), Input.EndOfInput)
      ensures Valid()
    {
      NextInv(State(), Input.EndOfInput);
      inputDone := true;
      if inFlight == 0 {
        phase := Completed;
      }
    }

    /** The producer's acknowledgment for the k-th pending submission. */
    method Complete(k: nat, ok: bool)
      requires Valid() && Enabled(State(), Completion(k, ok))
      modifies this
      ensures State() == Next(old(State()), Completion(k, ok))
      ensures Valid()
    {
      NextInv(State(), Completion(k, ok));
      var id := pending[k];
      if phase == Open {
        acks := acks + [Ack(id, if ok then Acked else Failed)];
      }
      if bounded {
        permits := permits + 1;
      }
      pending := RemoveAt(pending, k);
      inFlight := inFlight - 1;
      if inFlight == 0 && inputDone && phase == Open {
        phase := Completed;
      }
    }
  }
}
