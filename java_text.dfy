/**
 * The parts of java.lang.String, java.lang.Character and java.lang.Integer
 * that the core relies on: isBlank, trim, toLowerCase, startsWith, endsWith
 * and Integer.parseInt.
 */
module JavaText {
  import opened Wrappers

  /** Character.isWhitespace: Unicode space, line and paragraph separators
      other than the no-break spaces, plus the ASCII controls TAB..CR and FS..US. */
  predicate IsWhitespace(c: char) {
    || c == ' '
    || '\t' <= c <= '\r'
    || '\U{001C}' <= c <= '\U{001F}'
    || c == '\U{1680}'
    || '\U{2000}' <= c <= '\U{2006}'
    || '\U{2008}' <= c <= '\U{200A}'
    || c == '\U{2028}' || c == '\U{2029}' || c == '\U{205F}' || c == '\U{3000}'
  }

  /** String.isBlank: empty or only whitespace. */
  predicate IsBlank(s: string) {
    forall i | 0 <= i < |s| :: IsWhitespace(s[i])
  }

  /** String.trim removes every leading and trailing char at or below U+0020. */
  predicate IsTrimmable(c: char) {
    c <= ' '
  }

  predicate AllTrimmable(s: string) {
    forall i | 0 <= i < |s| :: IsTrimmable(s[i])
  }

  function TrimStart(s: string): (r: string)
    ensures |r| <= |s| && r == s[|s| - |r|..]
    ensures AllTrimmable(s[..|s| - |r|])
    ensures r == [] || !IsTrimmable(r[0])
  {
    if s != [] && IsTrimmable(s[0]) then
      var r := TrimStart(s[1..]);
      assert s[..|s| - |r|] == [s[0]] + s[1..][..|s| - 1 - |r|];
      r
    else s
  }

  function TrimEnd(s: string): (r: string)
    ensures |r| <= |s| && r == s[..|r|]
    ensures AllTrimmable(s[|r|..])
    ensures r == [] || !IsTrimmable(r[|r| - 1])
  {
    if s != [] && IsTrimmable(s[|s| - 1]) then
      var r := TrimEnd(s[..|s| - 1]);
      assert s[|r|..] == s[..|s| - 1][|r|..] + [s[|s| - 1]];
      r
    else s
  }

  /** String.trim: the longest middle part whose ends are above U+0020. */
  function Trim(s: string): (r: string)
    ensures r == [] || (!IsTrimmable(r[0]) && !IsTrimmable(r[|r| - 1]))
  {
    TrimEnd(TrimStart(s))
  }

  /** Trimming a string that is already framed by non-trimmable chars and
      padded by trimmable ones gives back that string. */
  lemma {:induction false} TrimPadded(pre: string, s: string, post: string)
    requires AllTrimmable(pre) && AllTrimmable(post)
    requires s == [] ==> post == []
    requires s != [] ==> !IsTrimmable(s[0]) && !IsTrimmable(s[|s| - 1])
    ensures Trim(pre + s + post) == s
  {
    TrimStartPadded(pre, s + post);
    if s == [] {
      assert pre + s + post == pre;
    } else {
      assert pre + s + post == pre + (s + post);
      TrimEndPadded(s, post);
    }
  }

  lemma {:induction false} TrimStartPadded(pre: string, s: string)
    requires AllTrimmable(pre)
    requires s == [] || !IsTrimmable(s[0])
    ensures TrimStart(pre + s) == s
  {
    if pre != [] {
      assert (pre + s)[1..] == pre[1..] + s;
      TrimStartPadded(pre[1..], s);
    } else {
      assert pre + s == s;
    }
  }

  lemma {:induction false} TrimEndPadded(s: string, post: string)
    requires AllTrimmable(post)
    requires s != [] && !IsTrimmable(s[|s| - 1])
    ensures TrimEnd(s + post) == s
  {
    if post != [] {
      var last := |post| - 1;
      assert (s + post)[..|s + post| - 1] == s + post[..last];
      TrimEndPadded(s, post[..last]);
    } else {
      assert s + post == s;
    }
  }

  /** String.toLowerCase, as far as it can produce ASCII letters: A-Z and
      the KELVIN SIGN (U+212A, which lower-cases to 'k'). Every other char
      is kept as it is. */
  function LowerChar(c: char): (d: char)
    ensures IsTrimmable(d) == IsTrimmable(c)
  {
    if 'A' <= c <= 'Z' then (c as int + 32) as char
    else if c == '\U{212A}' then 'k'
    else c
  }

  function ToLower(s: string): (r: string)
    ensures |r| == |s|
    ensures forall i | 0 <= i < |s| :: r[i] == LowerChar(s[i])
  {
    seq(|s|, i requires 0 <= i < |s| => LowerChar(s[i]))
  }

  /** Lower-casing twice is lower-casing once. */
  lemma LowerIdempotent(s: string)
    ensures ToLower(ToLower(s)) == ToLower(s)
  {
  }

  predicate StartsWith(s: string, prefix: string) {
    prefix <= s
  }

  predicate EndsWith(s: string, suffix: string) {
    |suffix| <= |s| && s[|s| - |suffix|..] == suffix
  }

  // ---------------------------------------------------------------------
  // Integer.parseInt(s, 10), restricted to ASCII digits

  const IntMin: int := -0x8000_0000
  const IntMax: int := 0x7FFF_FFFF

  predicate IsDigit(c: char) {
    '0' <= c <= '9'
  }

  predicate AllDigits(s: string) {
    forall i | 0 <= i < |s| :: IsDigit(s[i])
  }

  function DigitValue(c: char): (v: nat)
    requires IsDigit(c)
    ensures v < 10
  {
    c as int - '0' as int
  }

  function DigitChar(v: nat): (c: char)
    requires v < 10
    ensures IsDigit(c) && DigitValue(c) == v
  {
    ('0' as int + v) as char
  }

  /** The value of a string of decimal digits, most significant first. */
  function DecimalValue(s: string): nat
    requires AllDigits(s)
  {
    if s == [] then 0 else DecimalValue(s[..|s| - 1]) * 10 + DigitValue(s[|s| - 1])
  }

  /** The canonical decimal rendering of a natural number (Integer.toString). */
  function DecimalString(n: nat): (s: string)
    ensures s != [] && AllDigits(s)
  {
    if n < 10 then [DigitChar(n)] else DecimalString(n / 10) + [DigitChar(n % 10)]
  }

  lemma {:induction false} DecimalRoundTrip(n: nat)
    ensures DecimalValue(DecimalString(n)) == n
  {
    if n >= 10 {
      var s := DecimalString(n);
      assert s[..|s| - 1] == DecimalString(n / 10);
      DecimalRoundTrip(n / 10);
    }
  }

  /** Integer.parseInt: an optional '+' or '-', then at least one digit,
      and a value within the 32-bit signed range; anything else is a
      NumberFormatException, modelled as None. */
  function ParseInt(s: string): (r: Option<int>)
    ensures r.Some? ==> IntMin <= r.value <= IntMax
    ensures r.Some? ==> s != [] && (IsDigit(s[0]) || s[0] == '-' || s[0] == '+')
  {
    if s == [] then None
    else
      var negative := s[0] == '-';
      var digits := if s[0] == '-' || s[0] == '+' then s[1..] else s;
      if digits == [] || !AllDigits(digits) then None
      else
        var magnitude: int := DecimalValue(digits);
        var v := if negative then -magnitude else magnitude;
        if IntMin <= v <= IntMax then Some(v) else None
  }

  /** parseInt reads back what Integer.toString writes, in range or not. */
  lemma ParseDecimalString(n: nat)
    ensures ParseInt(DecimalString(n)) == if n <= IntMax then Some(n) else None
    ensures ParseInt("-" + DecimalString(n)) == if n <= -IntMin then Some(-(n as int)) else None
    ensures ParseInt("+" + DecimalString(n)) == if n <= IntMax then Some(n) else None
  {
    var s := DecimalString(n);
    DecimalRoundTrip(n);
    assert ("-" + s)[1..] == s;
    assert ("+" + s)[1..] == s;
  }
}
