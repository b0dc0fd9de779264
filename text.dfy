/**
 * The few pieces of Python's string machinery the downloader leans on:
 * `str.strip()`, `str.split(sep)`, `int(text)` and the decimal rendering
 * of an integer in an f-string (`f"{n}"`, `f"{n:02d}"`).
 */
module Text {
  import opened Wrappers

  /**
   * The characters `int()` skips around a number: every character for which
   * `str.isspace()` holds except the separators U+001C to U+001F.
   */
  predicate IsNumberSpace(c: char) {
    ('\t' <= c <= '\r') || c == ' ' || c == '\U{85}' || c == '\U{A0}' || c == '\U{1680}'
    || ('\U{2000}' <= c <= '\U{200A}') || c == '\U{2028}' || c == '\U{2029}' || c == '\U{202F}'
    || c == '\U{205F}' || c == '\U{3000}'
  }

  /** The characters for which `str.isspace()` holds, the ones `str.strip()` removes. */
  predicate IsSpace(c: char) {
    IsNumberSpace(c) || ('\U{1C}' <= c <= '\U{1F}')
  }

  /**
   * `s.strip()`: drops whitespace from both ends. The result is a slice of
   * the text with nothing but whitespace cut off either side.
   */
  function Strip(s: string): (r: string)
    ensures |r| > 0 ==> !IsSpace(r[0]) && !IsSpace(r[|r| - 1])
    ensures |r| <= |s|
  {
    if |s| > 0 && IsSpace(s[0]) then Strip(s[1..])
    else if |s| > 0 && IsSpace(s[|s| - 1]) then Strip(s[..|s| - 1])
    else s
  }

  predicate AllSpace(s: string) {
    forall k :: 0 <= k < |s| ==> IsSpace(s[k])
  }

  /** Whitespace added at either end makes no difference to `strip()`. */
  lemma {:induction false} StripPadding(pre: string, s: string, post: string)
    requires AllSpace(pre) && AllSpace(post)
    ensures Strip(pre + s + post) == Strip(s)
    decreases |pre| + |s| + |post|
  {
    var t := pre + s + post;
    if |pre| > 0 {
      assert t[0] == pre[0];
      assert t[1..] == pre[1..] + s + post;
      StripPadding(pre[1..], s, post);
    } else if |s| > 0 && IsSpace(s[0]) {
      assert t == s + post && t[0] == s[0];
      assert t[1..] == [] + s[1..] + post;
      StripPadding([], s[1..], post);
    } else if |post| > 0 {
      assert t == s + post;
      if |s| == 0 {
        assert t[0] == post[0];
        assert t[1..] == [] + [] + post[1..];
        StripPadding([], [], post[1..]);
      } else {
        assert t[0] == s[0] && t[|t| - 1] == post[|post| - 1];
        assert t[..|t| - 1] == [] + s + post[..|post| - 1];
        StripPadding([], s, post[..|post| - 1]);
      }
    } else {
      assert t == s;
    }
  }

  /** Stripping a string that neither starts nor ends with whitespace is the identity. */
  lemma StripUnchanged(s: string)
    requires |s| > 0 ==> !IsSpace(s[0]) && !IsSpace(s[|s| - 1])
    ensures Strip(s) == s
  {
  }

  /** The trimming `int()` does before reading a number: like `Strip`, but keeping U+001C to U+001F. */
  function StripNumber(s: string): (r: string)
    ensures |r| > 0 ==> !IsNumberSpace(r[0]) && !IsNumberSpace(r[|r| - 1])
    ensures |r| <= |s|
  {
    if |s| > 0 && IsNumberSpace(s[0]) then StripNumber(s[1..])
    else if |s| > 0 && IsNumberSpace(s[|s| - 1]) then StripNumber(s[..|s| - 1])
    else s
  }

  lemma StripNumberUnchanged(s: string)
    requires |s| > 0 ==> !IsNumberSpace(s[0]) && !IsNumberSpace(s[|s| - 1])
    ensures StripNumber(s) == s
  {
  }

  predicate AllNumberSpace(s: string) {
    forall k :: 0 <= k < |s| ==> IsNumberSpace(s[k])
  }

  /** Whitespace that `int()` skips, added at either end, makes no difference to its trimming. */
  lemma {:induction false} StripNumberPadding(pre: string, s: string, post: string)
    requires AllNumberSpace(pre) && AllNumberSpace(post)
    ensures StripNumber(pre + s + post) == StripNumber(s)
    decreases |pre| + |s| + |post|
  {
    var t := pre + s + post;
    if |pre| > 0 {
      assert t[0] == pre[0];
      assert t[1..] == pre[1..] + s + post;
      StripNumberPadding(pre[1..], s, post);
    } else if |s| > 0 && IsNumberSpace(s[0]) {
      assert t == s + post && t[0] == s[0];
      assert t[1..] == [] + s[1..] + post;
      StripNumberPadding([], s[1..], post);
    } else if |post| > 0 {
      assert t == s + post;
      if |s| == 0 {
        assert t[0] == post[0];
        assert t[1..] == [] + [] + post[1..];
        StripNumberPadding([], [], post[1..]);
      } else {
        assert t[0] == s[0] && t[|t| - 1] == post[|post| - 1];
        assert t[..|t| - 1] == [] + s + post[..|post| - 1];
        StripNumberPadding([], s, post[..|post| - 1]);
      }
    } else {
      assert t == s;
    }
  }

  /** `sep.join(parts)`. */
  function Join(parts: seq<string>, sep: char): (r: string)
    requires |parts| > 0
  {
    if |parts| == 1 then parts[0] else parts[0] + [sep] + Join(parts[1..], sep)
  }

  predicate NoSep(s: string, sep: char) {
    forall k :: 0 <= k < |s| ==> s[k] != sep
  }

  lemma JoinHead(c: char, parts: seq<string>, sep: char)
    requires |parts| > 0
    ensures Join([[c] + parts[0]] + parts[1..], sep) == [c] + Join(parts, sep)
  {
    var ps := [[c] + parts[0]] + parts[1..];
    assert ps[1..] == parts[1..];
  }

  /**
   * `s.split(sep)`: the pieces between separators, in order. It is the one
   * list of separator-free pieces that joins back to `s` (see SplitJoin).
   */
  function Split(s: string, sep: char): (parts: seq<string>)
    ensures |parts| > 0
    ensures Join(parts, sep) == s
    ensures forall i :: 0 <= i < |parts| ==> NoSep(parts[i], sep)
  {
    if |s| == 0 then [""]
    else if s[0] == sep then
      var rest := Split(s[1..], sep);
      assert [""] + rest == [""] + rest && ([""] + rest)[1..] == rest;
      assert s == [sep] + s[1..];
      [""] + rest
    else
      var rest := Split(s[1..], sep);
      JoinHead(s[0], rest, sep);
      assert s == [s[0]] + s[1..];
      [[s[0]] + rest[0]] + rest[1..]
  }

  lemma {:induction false} SplitPrefix(a: string, t: string, sep: char)
    requires NoSep(a, sep)
    ensures Split(a + t, sep) == [a + Split(t, sep)[0]] + Split(t, sep)[1..]
  {
    if |a| > 0 {
      assert (a + t)[1..] == a[1..] + t;
      SplitPrefix(a[1..], t, sep);
      assert [a[0]] + (a[1..] + Split(t, sep)[0]) == a + Split(t, sep)[0];
    } else {
      var parts := Split(t, sep);
      assert a + t == t && a + parts[0] == parts[0];
      assert parts == [parts[0]] + parts[1..];
    }
  }

  /** Splitting undoes joining separator-free pieces. */
  lemma {:induction false} SplitJoin(parts: seq<string>, sep: char)
    requires |parts| > 0
    requires forall i :: 0 <= i < |parts| ==> NoSep(parts[i], sep)
    ensures Split(Join(parts, sep), sep) == parts
  {
    if |parts| == 1 {
      SplitPrefix(parts[0], "", sep);
      assert parts[0] + "" == parts[0];
    } else {
      var rest := Join(parts[1..], sep);
      SplitJoin(parts[1..], sep);
      assert parts[0] + [sep] + rest == parts[0] + ([sep] + rest);
      SplitPrefix(parts[0], [sep] + rest, sep);
      assert ([sep] + rest)[1..] == rest;
      assert Split([sep] + rest, sep) == [""] + parts[1..];
      assert parts[0] + "" == parts[0];
    }
  }

  predicate IsDigit(c: char) {
    '0' <= c <= '9'
  }

  /** A non-empty run of ASCII decimal digits. */
  predicate IsDigits(s: string) {
    |s| > 0 && forall k :: 0 <= k < |s| ==> IsDigit(s[k])
  }

  function DigitValue(c: char): int {
    c as int - '0' as int
  }

  function DigitChar(d: nat): (c: char)
    requires d < 10
    ensures IsDigit(c) && DigitValue(c) == d
  {
    ('0' as int + d) as char
  }

  /** The number a string of decimal digits denotes, most significant digit first. */
  function DigitsValue(s: string): int {
    if |s| == 0 then 0 else DigitsValue(s[..|s| - 1]) * 10 + DigitValue(s[|s| - 1])
  }

  /** `f"{n}"` for a non-negative `n`. */
  function NatToString(n: nat): string {
    if n < 10 then [DigitChar(n)] else NatToString(n / 10) + [DigitChar(n % 10)]
  }

  /** A decimal rendering has no leading zero unless it is the single digit "0". */
  predicate Unpadded(s: string) {
    |s| > 0 && (|s| == 1 || s[0] != '0')
  }

  /** `f"{n}"` denotes `n` and is written without padding. */
  lemma {:induction false} NatToStringDigits(n: nat)
    ensures IsDigits(NatToString(n)) && Unpadded(NatToString(n))
    ensures DigitsValue(NatToString(n)) == n
  {
    if n >= 10 {
      NatToStringDigits(n / 10);
      var a := NatToString(n / 10);
      var s := a + [DigitChar(n % 10)];
      assert s[..|s| - 1] == a;
    }
  }

  /** `f"{n}"` for any integer `n`. */
  function IntToString(n: int): string {
    if n < 0 then "-" + NatToString(-n) else NatToString(n)
  }

  /**
   * `int(tok)`: surrounding whitespace (in the sense of `IsNumberSpace`) is
   * ignored, then an optional sign and one or more decimal digits; anything
   * else raises, here `None`.
   */
  function ParseInt(tok: string): Option<int> {
    var t := StripNumber(tok);
    if |t| > 0 && (t[0] == '-' || t[0] == '+') then
      if IsDigits(t[1..]) then
        Some(if t[0] == '-' then -DigitsValue(t[1..]) else DigitsValue(t[1..]))
      else None
    else if IsDigits(t) then Some(DigitsValue(t))
    else None
  }

  /** `int()` reads a token the same with or without whitespace around it. */
  lemma ParseIntPadding(pre: string, s: string, post: string)
    requires AllNumberSpace(pre) && AllNumberSpace(post)
    ensures ParseInt(pre + s + post) == ParseInt(s)
  {
    StripNumberPadding(pre, s, post);
  }

  /** A plain run of digits is read as the number it denotes. */
  lemma ParseDigits(s: string)
    requires IsDigits(s)
    ensures ParseInt(s) == Some(DigitsValue(s))
  {
    StripNumberUnchanged(s);
  }

  /** `int(f"{n}") == n`: the rendering and the parser are inverse. */
  lemma ParseIntToString(n: int)
    ensures ParseInt(IntToString(n)) == Some(n)
  {
    var m := if n < 0 then -n else n;
    NatToStringDigits(m);
    var s := IntToString(n);
    StripNumberUnchanged(s);
    if n < 0 {
      assert s[1..] == NatToString(m);
    }
  }

  /**
   * `f"{n}"` reads back as `n`, is not blank, has no surrounding
   * whitespace, and holds only digits and a leading minus sign.
   */
  lemma IntToStringText(n: int)
    ensures ParseInt(IntToString(n)) == Some(n)
    ensures Strip(IntToString(n)) == IntToString(n) != ""
    ensures forall k :: 0 <= k < |IntToString(n)| ==> IsDigit(IntToString(n)[k]) || IntToString(n)[k] == '-'
  {
    ParseIntToString(n);
    IntToStringChars(n);
  }

  lemma IntToStringChars(n: int)
    ensures Strip(IntToString(n)) == IntToString(n) != ""
    ensures forall k :: 0 <= k < |IntToString(n)| ==> IsDigit(IntToString(n)[k]) || IntToString(n)[k] == '-'
  {
    var m := if n < 0 then -n else n;
    NatToStringDigits(m);
    StripUnchanged(IntToString(n));
  }

  /** U+001C is whitespace to `str.strip()` but not to `int()`. */
  lemma FileSeparatorIsNotNumberSpace(tok: string)
    requires tok == "\U{1C}7"
    ensures Strip(tok) == "7"
    ensures ParseInt(tok).None?
  {
    assert tok[1..] == "7";
    assert StripNumber(tok) == tok;
    assert !IsDigits(tok);
  }

  /** Non-ASCII whitespace around a number is skipped by `int()`. */
  lemma WideSpaceAroundNumber(tok: string)
    requires tok == "\U{3000}7\U{A0}"
    ensures ParseInt(tok) == Some(7)
  {
    var rest := tok[1..];
    assert rest == "7\U{A0}";
    assert IsNumberSpace(tok[0]) && StripNumber(tok) == StripNumber(rest);
    assert rest[..|rest| - 1] == "7";
    StripNumberUnchanged("7");
    assert !IsNumberSpace(rest[0]) && IsNumberSpace(rest[|rest| - 1]);
    assert StripNumber(rest) == "7";
    assert IsDigits("7") && DigitsValue("7") == 7;
  }
}
