/**
 * AvroDecoding: the decoded-batch record (DecodedAvro) and the composite
 * decoder's choice between the Confluent wire format and an Avro Object
 * Container File. The Avro and Confluent libraries themselves are function
 * parameters; only the rules the wrappers add around them are modelled.
 */
module AvroDecoding {
  import opened Wrappers

  /** A Java byte. */
  newtype JByte = b: int | -128 <= b < 128

  /** The Confluent wire format starts with this magic byte, then a 4-byte
      schema id. */
  const SchemaRegistryMagic: JByte := 0
  const WireHeaderLength: nat := 5

  /** A schema and the records decoded under it (DecodedAvro). */
  datatype DecodedAvro<S, R> = DecodedAvro(schema: S, records: seq<R>)

  datatype DecodeError =
    | NullPayload          // the container reader cannot open a null array
    | Malformed            // the library reported an I/O failure
    | NoRecords            // a container file without records
    | DeserializedToNull   // the registry deserializer produced null

  datatype Decoder = SchemaRegistryDecoder | ContainerDecoder

  /** The payload carries the Confluent wire-format header. */
  predicate HasWireHeader(payload: Option<seq<JByte>>) {
    payload.Some? && |payload.value| >= WireHeaderLength && payload.value[0] == SchemaRegistryMagic
  }

  /** decode's dispatch: the registry decoder for a wire-format header,
      the container decoder for everything else, null included. */
  function SelectDecoder(payload: Option<seq<JByte>>): (d: Decoder)
    ensures d == SchemaRegistryDecoder <==> HasWireHeader(payload)
    ensures d == ContainerDecoder <==> !HasWireHeader(payload)
  {
    if HasWireHeader(payload) then SchemaRegistryDecoder else ContainerDecoder
  }

  /** AvroDecoder.decode over an abstract container reader (None: the
      library failed): a null payload or a file without records is an
      error, so every success carries at least one record. */
  function ContainerDecode<S, R>(read: seq<JByte> -> Option<(S, seq<R>)>, payload: Option<seq<JByte>>)
    : (r: Result<DecodedAvro<S, R>, DecodeError>)
    ensures r.Success? ==> r.value.records != []
    ensures r.Success? <==> payload.Some? && read(payload.value).Some? && read(payload.value).value.1 != []
    ensures r.Success? ==> r.value == DecodedAvro(read(payload.value).value.0, read(payload.value).value.1)
  {
    if payload.None? then Failure(NullPayload)
    else match read(payload.value)
      case None => Failure(Malformed)
      case Some((schema, records)) =>
        if records == [] then Failure(NoRecords) else Success(DecodedAvro(schema, records))
  }

  /** SchemaRegistryAvroDecoder.decode over an abstract deserializer (None:
      it returned null) and the record's own schema: exactly one record. */
  function RegistryDecode<S, R>(deserialize: seq<JByte> -> Option<R>, schemaOf: R -> S, payload: seq<JByte>)
    : (r: Result<DecodedAvro<S, R>, DecodeError>)
    ensures r.Success? <==> deserialize(payload).Some?
    ensures r.Success? ==> |r.value.records| == 1 && r.value.schema == schemaOf(r.value.records[0])
  {
    match deserialize(payload)
    case None => Failure(DeserializedToNull)
    case Some(record) => Success(DecodedAvro(schemaOf(record), [record]))
  }

  /** CompositeAvroDecoder.decode. */
  function Decode<S, R>(deserialize: seq<JByte> -> Option<R>, schemaOf: R -> S,
                        read: seq<JByte> -> Option<(S, seq<R>)>, payload: Option<seq<JByte>>)
    : (r: Result<DecodedAvro<S, R>, DecodeError>)
    ensures r.Success? ==> r.value.records != []
    ensures SelectDecoder(payload) == SchemaRegistryDecoder ==> r == RegistryDecode(deserialize, schemaOf, payload.value)
    ensures SelectDecoder(payload) == ContainerDecoder ==> r == ContainerDecode(read, payload)
  {
    if SelectDecoder(payload) == SchemaRegistryDecoder then RegistryDecode(deserialize, schemaOf, payload.value)
    else ContainerDecode(read, payload)
  }

  /** Payloads shorter than the wire header go to the container decoder. */
  lemma ShortPayloadUsesContainer(payload: seq<JByte>)
    requires |payload| < WireHeaderLength
    ensures SelectDecoder(Some(payload)) == ContainerDecoder
  {
  }

  /** Payloads whose first byte is not the magic byte go to the container
      decoder, whatever their length. */
  lemma NonMagicPayloadUsesContainer(payload: seq<JByte>)
    requires payload != [] && payload[0] != SchemaRegistryMagic
    ensures SelectDecoder(Some(payload)) == ContainerDecoder
  {
  }

  /** A null payload goes to the container decoder, which rejects it. */
  lemma NullPayloadRejected<S, R>(deserialize: seq<JByte> -> Option<R>, schemaOf: R -> S,
                                  read: seq<JByte> -> Option<(S, seq<R>)>)
    ensures SelectDecoder(None) == ContainerDecoder
    ensures Decode(deserialize, schemaOf, read, None) == Failure(NullPayload)
  {
  }

  /** The choice reads only the length and byte 0. */
  lemma SelectionReadsLengthAndFirstByte(p: seq<JByte>, q: seq<JByte>)
    requires |p| == |q| && (p != [] ==> p[0] == q[0])
    ensures SelectDecoder(Some(p)) == SelectDecoder(Some(q))
  {
  }

  /** A five-byte frame starting with the magic byte, followed by any
      schema id, is always read by the registry decoder. */
  lemma WireFrameUsesRegistry(schemaId: seq<JByte>, body: seq<JByte>)
    requires |schemaId| == 4
    ensures SelectDecoder(Some([SchemaRegistryMagic] + schemaId + body)) == SchemaRegistryDecoder
  {
  }
}
