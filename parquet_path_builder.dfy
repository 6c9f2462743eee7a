/**
 * ParquetPathBuilder: where a flushed batch goes. The clock's ISO date and
 * the random UUID are parameters.
 */
module ParquetPathBuilder {
  import opened Wrappers
  import opened JavaText
  import opened Paths

  const Extension: string := ".parquet"

  /** resolvePrefix: a missing or blank directory keeps the base directory,
      an absolute one replaces it and a relative one is appended to it. */
  function ResolvePrefix(baseDir: Path, directory: Option<string>): (p: Path)
    ensures directory.None? || IsBlank(directory.value) ==> p == baseDir
    ensures directory.Some? && !IsBlank(directory.value) && StartsWith(directory.value, "/") ==>
              p == Of(directory.value)
    ensures directory.Some? && !IsBlank(directory.value) && !StartsWith(directory.value, "/") ==>
              p == Path(baseDir.absolute, baseDir.segments + Of(directory.value).segments)
  {
    if directory.None? || IsBlank(directory.value) then baseDir
    else
      var provided := Of(directory.value);
      if provided.absolute then provided else Resolve(baseDir, provided)
  }

  /** buildLocalPath: <prefix>/topic=<topic>/date=<date>/<uuid>.parquet */
  function BuildLocalPath(baseDir: Path, directory: Option<string>, topic: string, date: string, uuid: string): (p: Path)
    ensures uuid == [] || uuid[0] != '/' ==>
              p.absolute == ResolvePrefix(baseDir, directory).absolute
              && ResolvePrefix(baseDir, directory).segments <= p.segments
  {
    var prefixPath := ResolvePrefix(baseDir, directory);
    Resolve(Resolve(Resolve(prefixPath, Of("topic=" + topic)), Of("date=" + date)), Of(uuid + Extension))
  }

  /** For separator-free topic, date and uuid (Kafka topic names, ISO dates
      and UUIDs never contain '/'), the local path is the resolved prefix
      followed by exactly three name elements. */
  lemma {:induction false} LocalPathLayout(baseDir: Path, directory: Option<string>, topic: string, date: string, uuid: string)
    requires '/' !in topic && '/' !in date && '/' !in uuid
    ensures var prefixPath := ResolvePrefix(baseDir, directory);
      BuildLocalPath(baseDir, directory, topic, date, uuid)
        == Path(prefixPath.absolute, prefixPath.segments + ["topic=" + topic, "date=" + date, uuid + Extension])
  {
    SeparatorFree("topic=", topic);
    SeparatorFree("date=", date);
    SeparatorFree(uuid, Extension);
    OfSegment("topic=" + topic);
    OfSegment("date=" + date);
    OfSegment(uuid + Extension);
  }

  lemma SeparatorFree(a: string, b: string)
    requires '/' !in a && '/' !in b && a + b != []
    ensures IsSegment(a + b)
  {
    assert forall c :: c in a + b ==> c in a || c in b;
  }

  /** Two flushes that draw different UUIDs never share a local path. */
  lemma {:induction false} LocalPathsDistinct(baseDir: Path, directory: Option<string>, topic: string, date: string, uuid1: string, uuid2: string)
    requires '/' !in topic && '/' !in date && '/' !in uuid1 && '/' !in uuid2
    requires uuid1 != uuid2
    ensures BuildLocalPath(baseDir, directory, topic, date, uuid1) != BuildLocalPath(baseDir, directory, topic, date, uuid2)
  {
    LocalPathLayout(baseDir, directory, topic, date, uuid1);
    LocalPathLayout(baseDir, directory, topic, date, uuid2);
    var n := |ResolvePrefix(baseDir, directory).segments|;
    var p1 := BuildLocalPath(baseDir, directory, topic, date, uuid1);
    var p2 := BuildLocalPath(baseDir, directory, topic, date, uuid2);
    assert p1.segments[n + 2] == uuid1 + Extension;
    assert p2.segments[n + 2] == uuid2 + Extension;
    assert (uuid1 + Extension)[..|uuid1|] == uuid1;
  }

  /** The trimmed prefix with at most one leading '/' removed. */
  function WithoutLeadingSlash(s: string): (r: string)
    ensures s == r || s == "/" + r
    ensures StartsWith(s, "/") ==> s == "/" + r
  {
    if StartsWith(s, "/") then s[1..] else s
  }

  /** normalizePrefix: "" for a missing or blank prefix; otherwise the
      trimmed prefix without one leading '/', ending in exactly the '/'
      it already had or one appended. */
  function NormalizePrefix(prefix: Option<string>): (r: string)
    ensures prefix.None? || IsBlank(prefix.value) ==> r == ""
    ensures prefix.Some? && !IsBlank(prefix.value) ==>
      var core := WithoutLeadingSlash(Trim(prefix.value));
      && EndsWith(r, "/")
      && (EndsWith(core, "/") ==> r == core)
      && (!EndsWith(core, "/") ==> r == core + "/")
  {
    if prefix.None? || IsBlank(prefix.value) then ""
    else
      var normalized := WithoutLeadingSlash(Trim(prefix.value));
      if EndsWith(normalized, "/") then normalized else normalized + "/"
  }

  /** The prefix "/" keeps its slash: only the one leading '/' is stripped
      before one is appended. */
  lemma NormalizeRootPrefix()
    ensures NormalizePrefix(Some("/")) == "/"
  {
    assert !IsBlank("/") by { assert !IsWhitespace("/"[0]); }
    assert Trim("/") == "/" by { TrimPadded([], "/", []); assert [] + "/" + [] == "/"; }
  }

  /** Surrounding blanks and the leading slash go, and one trailing slash
      comes: " /logs " becomes "logs/", and "/" stays "/". */
  lemma {:induction false} NormalizePaddedPrefix(pre: string, core: string, post: string)
    requires AllTrimmable(pre) && AllTrimmable(post)
    requires core != [] ==> !IsTrimmable(core[|core| - 1]) && core[|core| - 1] != '/'
    ensures NormalizePrefix(Some(pre + "/" + core + post)) == core + "/"
  {
    var framed := "/" + core;
    assert pre + "/" + core + post == pre + framed + post;
    SlashFramedTrim(pre, core, post);
    assert WithoutLeadingSlash(framed) == core by { assert framed[1..] == core; }
    assert !EndsWith(core, "/") by {
      if core != [] { assert core[|core| - 1..] != "/"; }
    }
  }

  /** A padded prefix starting with '/' is not blank and trims to its
      unpadded self. */
  lemma SlashFramedTrim(pre: string, core: string, post: string)
    requires AllTrimmable(pre) && AllTrimmable(post)
    requires core != [] ==> !IsTrimmable(core[|core| - 1])
    ensures !IsBlank(pre + ("/" + core) + post)
    ensures Trim(pre + ("/" + core) + post) == "/" + core
  {
    var framed := "/" + core;
    var p := pre + framed + post;
    assert !IsTrimmable(framed[|framed| - 1]);
    TrimPadded(pre, framed, post);
    assert p[|pre|] == '/';
  }

  /** A trailing slash is not doubled. */
  lemma NormalizeSlashEndedPrefix()
    ensures NormalizePrefix(Some("logs/")) == "logs/"
  {
    assert !IsBlank("logs/") by { assert !IsWhitespace("logs/"[0]); }
    assert Trim("logs/") == "logs/" by { TrimPadded([], "logs/", []); assert [] + "logs/" + [] == "logs/"; }
  }

  /** buildS3Key: <normalised prefix>topic=<topic>/date=<date>/<uuid>.parquet */
  function BuildS3Key(prefix: Option<string>, topic: string, date: string, uuid: string): (key: string)
    ensures StartsWith(key, NormalizePrefix(prefix))
    ensures EndsWith(key, uuid + Extension)
  {
    NormalizePrefix(prefix) + "topic=" + topic + "/" + "date=" + date + "/" + uuid + Extension
  }

  /** Two flushes that draw different UUIDs never share an object key. */
  lemma {:induction false} S3KeysDistinct(prefix: Option<string>, topic: string, date: string, uuid1: string, uuid2: string)
    requires uuid1 != uuid2
    ensures BuildS3Key(prefix, topic, date, uuid1) != BuildS3Key(prefix, topic, date, uuid2)
  {
    var head := NormalizePrefix(prefix) + "topic=" + topic + "/" + "date=" + date + "/";
    var k1 := BuildS3Key(prefix, topic, date, uuid1);
    var k2 := BuildS3Key(prefix, topic, date, uuid2);
    assert k1 == head + uuid1 + Extension;
    assert k2 == head + uuid2 + Extension;
    assert k1[|head|..|k1| - |Extension|] == uuid1;
    assert k2[|head|..|k2| - |Extension|] == uuid2;
  }
}
