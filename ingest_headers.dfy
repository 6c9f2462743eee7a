/**
 * Request-header interpretation of the ingestion controller (EventController,
 * shared verbatim by EventControllerV2): the x-ack-mode keyword and the
 * x-max-in-flight admission bound.
 */
module IngestHeaders {
  import opened Wrappers
  import opened JavaText

  datatype AckMode = FireAndForget | WaitForAck

  /** The switch key of AckMode.fromHeader: a missing header reads as "",
      otherwise the header trimmed and lower-cased. */
  function HeaderKey(value: Option<string>): (key: string)
    ensures value.None? ==> key == ""
    ensures key == [] || (!IsTrimmable(key[0]) && !IsTrimmable(key[|key| - 1]))
  {
    if value.None? then ""
    else
      var trimmed := Trim(value.value);
      var key := ToLower(trimmed);
      assert key != [] ==> key[0] == LowerChar(trimmed[0]) && key[|key| - 1] == LowerChar(trimmed[|trimmed| - 1]);
      key
  }

  predicate IsWaitKeyword(key: string) {
    key == "wait" || key == "wait-for-ack" || key == "ack"
  }

  predicate IsFireAndForgetKeyword(key: string) {
    key == "" || key == "fire-and-forget" || key == "faf"
  }

  /** The switch itself: fire-and-forget keywords, wait keywords, and a
      fire-and-forget default for everything else. */
  function ModeOfKey(key: string): (m: AckMode)
    ensures m == WaitForAck <==> IsWaitKeyword(key)
  {
    if IsFireAndForgetKeyword(key) then FireAndForget
    else if IsWaitKeyword(key) then WaitForAck
    else FireAndForget
  }

  /** AckMode.fromHeader: WaitForAck exactly for the three wait keywords,
      FireAndForget for a missing header and every other value. */
  function FromHeader(value: Option<string>): (m: AckMode)
    ensures m == WaitForAck <==> IsWaitKeyword(HeaderKey(value))
    ensures value.None? ==> m == FireAndForget
  {
    ModeOfKey(HeaderKey(value))
  }

  /** Surrounding whitespace (anything String.trim removes) and letter case
      make no difference to the key, hence none to the mode. */
  lemma {:induction false} FromHeaderIgnoresPaddingAndCase(pre: string, word: string, post: string)
    requires AllTrimmable(pre) && AllTrimmable(post)
    requires word == [] ==> post == []
    requires word != [] ==> !IsTrimmable(word[0]) && !IsTrimmable(word[|word| - 1])
    ensures HeaderKey(Some(pre + word + post)) == ToLower(word)
    ensures FromHeader(Some(pre + word + post)) == FromHeader(Some(ToLower(word)))
  {
    TrimPadded(pre, word, post);
    LowerKeyStable(word);
  }

  /** A lower-cased, already trimmed key reads back as itself. */
  lemma LowerKeyStable(word: string)
    requires word != [] ==> !IsTrimmable(word[0]) && !IsTrimmable(word[|word| - 1])
    ensures HeaderKey(Some(ToLower(word))) == ToLower(word)
  {
    LowerTrimmed(word);
    LowerIdempotent(word);
  }

  /** Lower-casing keeps a trimmed string trimmed. */
  lemma LowerTrimmed(word: string)
    requires word != [] ==> !IsTrimmable(word[0]) && !IsTrimmable(word[|word| - 1])
    ensures Trim(ToLower(word)) == ToLower(word)
  {
    var low := ToLower(word);
    if word != [] {
      assert low[0] == LowerChar(word[0]);
      assert low[|low| - 1] == LowerChar(word[|word| - 1]);
    }
    TrimPadded([], low, []);
    assert [] + low + [] == low;
  }

  /** Every case and padding variant of a wait keyword selects WaitForAck. */
  lemma {:induction false} WaitKeywordsSelectWait(pre: string, word: string, post: string)
    requires AllTrimmable(pre) && AllTrimmable(post)
    requires IsWaitKeyword(ToLower(word))
    ensures FromHeader(Some(pre + word + post)) == WaitForAck
  {
    var low := ToLower(word);
    assert low[0] != ' ' && low[|low| - 1] != ' ';
    assert !IsTrimmable(word[0]) && !IsTrimmable(word[|word| - 1]);
    FromHeaderIgnoresPaddingAndCase(pre, word, post);
  }

  /** "", "faf", "fire-and-forget" and a missing header select FireAndForget. */
  lemma FireAndForgetKeywords()
    ensures FromHeader(None) == FireAndForget
    ensures FromHeader(Some("")) == FireAndForget
    ensures FromHeader(Some("faf")) == FireAndForget
    ensures FromHeader(Some("fire-and-forget")) == FireAndForget
  {
    TrimPadded([], "faf", []);
    assert [] + "faf" + [] == "faf";
    TrimPadded([], "fire-and-forget", []);
    assert [] + "fire-and-forget" + [] == "fire-and-forget";
  }

  /** A concrete check of the case-insensitive match: " Wait-For-ACK\t". */
  lemma MixedCaseWaitHeader()
    ensures FromHeader(Some(" Wait-For-ACK\t")) == WaitForAck
  {
    assert " Wait-For-ACK\t" == " " + "Wait-For-ACK" + "\t";
    assert ToLower("Wait-For-ACK") == "wait-for-ack";
    WaitKeywordsSelectWait(" ", "Wait-For-ACK", "\t");
  }

  /** parseMaxInFlight: a missing or blank header, a header that is not a
      32-bit integer after trimming, and a negative number all give 0. */
  function ParseMaxInFlight(header: Option<string>): (n: int)
    ensures 0 <= n <= IntMax
    ensures header.None? || IsBlank(header.value) ==> n == 0
    ensures header.Some? && ParseInt(Trim(header.value)).None? ==> n == 0
  {
    if header.None? || IsBlank(header.value) then 0
    else
      match ParseInt(Trim(header.value))
      case None => 0
      case Some(v) => if v < 0 then 0 else v
  }

  /** The header written as a (possibly padded) decimal number reads back
      as that number when it fits in an int, and as 0 otherwise. */
  lemma {:induction false} ParseMaxInFlightDecimal(pre: string, n: nat, post: string)
    requires AllTrimmable(pre) && AllTrimmable(post)
    ensures ParseMaxInFlight(Some(pre + DecimalString(n) + post)) == if n <= IntMax then n else 0
  {
    var s := DecimalString(n);
    var padded := pre + s + post;
    assert Trim(padded) == s by { TrimPadded(pre, s, post); }
    assert !IsBlank(padded) by {
      assert padded[|pre|] == s[0];
    }
    assert ParseInt(s) == if n <= IntMax then Some(n) else None by {
      ParseDecimalString(n);
    }
  }

  /** A negative number, however large, gives 0. */
  lemma {:induction false} ParseMaxInFlightNegative(pre: string, n: nat, post: string)
    requires AllTrimmable(pre) && AllTrimmable(post)
    ensures ParseMaxInFlight(Some(pre + "-" + DecimalString(n) + post)) == 0
  {
    var neg := "-" + DecimalString(n);
    var padded := pre + neg + post;
    assert pre + "-" + DecimalString(n) + post == padded;
    assert Trim(padded) == neg by { TrimPadded(pre, neg, post); }
    assert !IsBlank(padded) by {
      assert padded[|pre|] == '-';
    }
    assert ParseInt(neg) == if n <= -IntMin then Some(-(n as int)) else None by {
      ParseDecimalString(n);
    }
  }

  /** Anything but a sign or a digit after trimming is not a number. */
  lemma NonNumericHeader(header: string)
    requires !IsBlank(header)
    requires var t := Trim(header); t == [] || !(IsDigit(t[0]) || t[0] == '-' || t[0] == '+')
    ensures ParseMaxInFlight(Some(header)) == 0
  {
  }
}
