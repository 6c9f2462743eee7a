/**
 * The part of java.nio.file.Path (Unix file system) that the path builder
 * uses: Path.of on a string, isAbsolute, and resolve. A path is an absolute
 * flag and its name elements.
 */
module Paths {

  datatype Path = Path(absolute: bool, segments: seq<string>)

  /** A name element: non-empty and free of the separator. */
  predicate IsSegment(s: string) {
    s != [] && '/' !in s
  }

  /** The length of the leading name element of s. */
  function SegmentLength(s: string): (n: nat)
    ensures n <= |s|
    ensures '/' !in s[..n]
    ensures n < |s| ==> s[n] == '/'
  {
    if s == [] || s[0] == '/' then 0
    else
      var n := SegmentLength(s[1..]);
      assert s[..n + 1] == [s[0]] + s[1..][..n];
      n + 1
  }

  /** The name elements of a path string: the maximal separator-free runs,
      so that repeated and trailing separators are dropped, as UnixPath
      normalises them. */
  function Segments(s: string): (r: seq<string>)
    ensures forall i | 0 <= i < |r| :: IsSegment(r[i])
    decreases |s|
  {
    if s == [] then []
    else if s[0] == '/' then Segments(s[1..])
    else
      var n := SegmentLength(s);
      [s[..n]] + Segments(s[n..])
  }

  /** Path.of(s): absolute exactly when s starts with the separator; its
      name elements are non-empty and separator-free. */
  function Of(s: string): (p: Path)
    ensures p.absolute <==> |s| > 0 && s[0] == '/'
    ensures forall i | 0 <= i < |p.segments| :: IsSegment(p.segments[i])
  {
    Path(s != [] && s[0] == '/', Segments(s))
  }

  /** Path.resolve(other): an absolute other replaces this path, otherwise
      its elements are appended (an empty other leaves this path). */
  function Resolve(base: Path, other: Path): (r: Path)
    ensures other.absolute ==> r == other
    ensures !other.absolute ==> r.absolute == base.absolute && r.segments == base.segments + other.segments
  {
    if other.absolute then other else Path(base.absolute, base.segments + other.segments)
  }

  /** A separator-free string is a single relative name element. */
  lemma {:induction false} OfSegment(s: string)
    requires IsSegment(s)
    ensures Of(s) == Path(false, [s])
  {
    SegmentLengthNoSeparator(s);
    assert s[0] != '/' by { assert s[0] in s; }
    assert s[..|s|] == s;
    assert s[|s|..] == [];
    assert Segments(s) == [s] + Segments([]);
  }

  lemma {:induction false} SegmentLengthNoSeparator(s: string)
    requires '/' !in s
    ensures SegmentLength(s) == |s|
  {
    if s != [] {
      assert '/' !in s[1..] by {
        forall i | 0 <= i < |s[1..]| ensures s[1..][i] != '/' {
          assert s[1..][i] == s[i + 1];
        }
      }
      SegmentLengthNoSeparator(s[1..]);
    }
  }

  /** Path.of keeps every character that is not a separator, in order. */
  lemma {:induction false} SegmentsJoinBack(s: string, prefix: string)
    requires IsSegment(prefix)
    ensures Segments(prefix + "/" + s) == [prefix] + Segments(s)
  {
    var t := prefix + "/" + s;
    SegmentLengthNoSeparator(prefix);
    SegmentLengthPrefix(prefix, "/" + s);
    assert t == prefix + ("/" + s);
    assert t[..|prefix|] == prefix;
    assert t[|prefix|..] == "/" + s;
    assert ("/" + s)[1..] == s;
  }

  lemma {:induction false} SegmentLengthPrefix(prefix: string, rest: string)
    requires '/' !in prefix && rest != [] && rest[0] == '/'
    ensures SegmentLength(prefix + rest) == |prefix|
  {
    if prefix != [] {
      assert (prefix + rest)[1..] == prefix[1..] + rest;
      assert '/' !in prefix[1..] by {
        forall i | 0 <= i < |prefix[1..]| ensures prefix[1..][i] != '/' {
          assert prefix[1..][i] == prefix[i + 1];
        }
      }
      SegmentLengthPrefix(prefix[1..], rest);
    } else {
      assert prefix + rest == rest;
    }
  }
}
