/**
 * TopicMappingResolver: the write target of a topic, from the configured
 * topic mappings and the local and S3 defaults.
 */
module TopicMappingResolver {
  import opened Wrappers
  import opened JavaText
  import opened Paths
  import opened ParquetPathBuilder
  import opened WriteTargets

  /** One configured topic mapping (AppProperties.TopicMapping); every field
      may be null. */
  datatype TopicMapping = TopicMapping(
    topic: Option<string>,
    destination: Option<TargetType>,
    directory: Option<string>,
    bucket: Option<string>,
    prefix: Option<string>)

  /** A mapping as AppProperties creates it before binding: destination LOCAL. */
  function NewTopicMapping(topic: string): TopicMapping {
    TopicMapping(Some(topic), Some(Local), None, None, None)
  }

  /** The configuration the resolver reads: the mapping list, the local base
      directory and the S3 default bucket and prefix. */
  datatype SinkSettings = SinkSettings(
    mappings: seq<TopicMapping>,
    baseDir: Path,
    defaultBucket: Option<string>,
    defaultPrefix: Option<string>)

  /** AppProperties' defaults: no mappings, base directory /tmp/kafka-s3-sink,
      no bucket, prefix "". */
  function DefaultSettings(): SinkSettings {
    SinkSettings([], Of("/tmp/kafka-s3-sink"), None, Some(""))
  }

  datatype ResolveError = NoMappingForTopic(topic: string) | NoBucketForTopic(topic: string)

  predicate Matches(m: TopicMapping, topic: string) {
    m.topic.Some? && m.topic.value == topic
  }

  /** filter(...).findFirst(): the index of the first mapping for the topic. */
  function FirstMatch(mappings: seq<TopicMapping>, topic: string): (r: Option<nat>)
    ensures r.Some? ==> r.value < |mappings| && Matches(mappings[r.value], topic)
    ensures r.Some? ==> forall j | 0 <= j < r.value :: !Matches(mappings[j], topic)
    ensures r.None? <==> forall j | 0 <= j < |mappings| :: !Matches(mappings[j], topic)
    decreases |mappings|
  {
    if mappings == [] then None
    else if Matches(mappings[0], topic) then Some(0)
    else
      match FirstMatch(mappings[1..], topic)
      case None => None
      case Some(i) => Some(i + 1)
  }

  /** The bucket of an S3 mapping: its own when set, even if blank, otherwise
      the default. */
  function EffectiveBucket(settings: SinkSettings, m: TopicMapping): Option<string> {
    if m.bucket.Some? then m.bucket else settings.defaultBucket
  }

  function EffectivePrefix(settings: SinkSettings, m: TopicMapping): Option<string> {
    if m.prefix.Some? then m.prefix else settings.defaultPrefix
  }

  /** resolve(topic), with the date and UUID the path builder would draw. */
  function Resolve(settings: SinkSettings, topic: string, date: string, uuid: string): (r: Result<WriteTarget, ResolveError>)
    ensures r.Failure? && r.error.NoMappingForTopic? <==> FirstMatch(settings.mappings, topic).None?
    ensures r.Success? && r.value.S3Target? ==> !IsBlank(r.value.bucket)
  {
    match FirstMatch(settings.mappings, topic)
    case None => Failure(NoMappingForTopic(topic))
    case Some(i) =>
      var mapping := settings.mappings[i];
      var destination := mapping.destination.GetOr(Local);
      if destination == Local then
        Success(LocalTarget(BuildLocalPath(settings.baseDir, mapping.directory, topic, date, uuid)))
      else
        var bucket := EffectiveBucket(settings, mapping);
        if bucket.None? || IsBlank(bucket.value) then Failure(NoBucketForTopic(topic))
        else Success(S3Target(bucket.value, BuildS3Key(EffectivePrefix(settings, mapping), topic, date, uuid)))
  }

  /** The first matching mapping decides: a local destination (or none)
      yields the local path under the base directory, an S3 destination the
      effective bucket and the key under the effective prefix, or an error
      when that bucket is missing or blank. */
  lemma ResolveByFirstMatch(settings: SinkSettings, topic: string, date: string, uuid: string, i: nat)
    requires i < |settings.mappings| && Matches(settings.mappings[i], topic)
    requires forall j | 0 <= j < i :: !Matches(settings.mappings[j], topic)
    ensures var m := settings.mappings[i];
      var bucket := EffectiveBucket(settings, m);
      Resolve(settings, topic, date, uuid) ==
        if m.destination.None? || m.destination.value == Local then
          Success(LocalTarget(BuildLocalPath(settings.baseDir, m.directory, topic, date, uuid)))
        else if bucket.None? || IsBlank(bucket.value) then
          Failure(NoBucketForTopic(topic))
        else
          Success(S3Target(bucket.value, BuildS3Key(EffectivePrefix(settings, m), topic, date, uuid)))
  {
    assert FirstMatch(settings.mappings, topic) == Some(i);
  }

  /** Mappings after the first match for a topic are never consulted. */
  lemma {:induction false} LaterMappingsIgnored(mappings: seq<TopicMapping>, extra: seq<TopicMapping>, topic: string)
    requires FirstMatch(mappings, topic).Some?
    ensures FirstMatch(mappings + extra, topic) == FirstMatch(mappings, topic)
    decreases |mappings|
  {
    assert (mappings + extra)[0] == mappings[0];
    if !Matches(mappings[0], topic) {
      assert (mappings + extra)[1..] == mappings[1..] + extra;
      LaterMappingsIgnored(mappings[1..], extra, topic);
    }
  }

  /** A blank bucket set on the first matching S3 mapping is not replaced
      by the default, whatever the default is. */
  lemma BlankMappingBucketRejected(settings: SinkSettings, topic: string, date: string, uuid: string, i: nat)
    requires i < |settings.mappings| && Matches(settings.mappings[i], topic)
    requires forall j | 0 <= j < i :: !Matches(settings.mappings[j], topic)
    requires settings.mappings[i].destination == Some(S3)
    requires settings.mappings[i].bucket.Some? && IsBlank(settings.mappings[i].bucket.value)
    ensures Resolve(settings, topic, date, uuid) == Failure(NoBucketForTopic(topic))
  {
    ResolveByFirstMatch(settings, topic, date, uuid, i);
  }

  /** Under the default configuration no topic has a mapping, so every
      topic is rejected. */
  lemma DefaultsRejectEveryTopic(topic: string, date: string, uuid: string)
    ensures Resolve(DefaultSettings(), topic, date, uuid) == Failure(NoMappingForTopic(topic))
  {
  }

  /** A mapping that names only its topic keeps the LOCAL destination it is
      created with: the topic's files go under the base directory. */
  lemma NewMappingIsLocal(settings: SinkSettings, topic: string, date: string, uuid: string)
    requires settings.mappings == [NewTopicMapping(topic)]
    ensures Resolve(settings, topic, date, uuid) == Success(LocalTarget(BuildLocalPath(settings.baseDir, None, topic, date, uuid)))
  {
    assert FirstMatch(settings.mappings, topic) == Some(0);
  }

  /** The base directory of the local resolver test, as a path. */
  lemma BaseDirPath()
    ensures Of("/tmp/base") == Path(true, ["tmp", "base"])
  {
    assert "/tmp/base"[1..] == "tmp" + "/" + "base";
    SegmentsJoinBack("base", "tmp");
    OfSegment("base");
  }

  /** resolvesLocalTargetWithBaseDir: an absolute base directory and a
      relative mapping directory "local"; the path is the base, the
      directory, then the three layout elements. */
  lemma {:induction false} LocalScenario(base: seq<string>, topic: string, date: string, uuid: string)
    requires '/' !in topic && '/' !in date && '/' !in uuid
    ensures var settings := SinkSettings([TopicMapping(Some(topic), Some(Local), Some("local"), None, None)],
                                         Path(true, base), None, Some(""));
      Resolve(settings, topic, date, uuid)
        == Success(LocalTarget(Path(true, base + ["local", "topic=" + topic, "date=" + date, uuid + Extension])))
  {
    var settings := SinkSettings([TopicMapping(Some(topic), Some(Local), Some("local"), None, None)],
                                 Path(true, base), None, Some(""));
    ResolveByFirstMatch(settings, topic, date, uuid, 0);
    var prefixPath := ResolvePrefix(settings.baseDir, Some("local"));
    assert prefixPath == Path(true, base + ["local"]) by {
      assert !IsBlank("local") by { assert !IsWhitespace("local"[0]); }
      assert !StartsWith("local", "/");
      OfSegment("local");
    }
    LocalPathLayout(settings.baseDir, Some("local"), topic, date, uuid);
    assert base + ["local"] + ["topic=" + topic, "date=" + date, uuid + Extension]
        == base + ["local", "topic=" + topic, "date=" + date, uuid + Extension];
  }

  /** "prefix" normalises to "prefix/". */
  lemma PlainPrefix()
    ensures NormalizePrefix(Some("prefix")) == "prefix/"
  {
    assert !IsBlank("prefix") by { assert !IsWhitespace("prefix"[0]); }
    assert Trim("prefix") == "prefix" by { TrimPadded([], "prefix", []); assert [] + "prefix" + [] == "prefix"; }
    assert !StartsWith("prefix", "/");
    assert !EndsWith("prefix", "/");
  }

  /** resolvesS3TargetWithBucket: the default bucket, the mapping's prefix
      "prefix". */
  lemma S3Scenario(baseDir: Path, topic: string, date: string, uuid: string)
    ensures var settings := SinkSettings([TopicMapping(Some(topic), Some(S3), None, None, Some("prefix"))],
                                         baseDir, Some("default-bucket"), Some(""));
      Resolve(settings, topic, date, uuid)
        == Success(S3Target("default-bucket", "prefix/" + "topic=" + topic + "/" + "date=" + date + "/" + uuid + Extension))
  {
    var settings := SinkSettings([TopicMapping(Some(topic), Some(S3), None, None, Some("prefix"))],
                                 baseDir, Some("default-bucket"), Some(""));
    ResolveByFirstMatch(settings, topic, date, uuid, 0);
    assert !IsBlank("default-bucket") by { assert !IsWhitespace("default-bucket"[0]); }
    PlainPrefix();
  }
}
