/**
 * Input hygiene of app/utils/security.py: the `validate_input` predicate, the
 * `sanitize_input` filter and the API-key guard of `require_api_key`.
 *
 * Both string helpers are character-class tests built from Python's `re`
 * patterns. The Unicode classes `\w` and `\s` are not computed here: they are
 * given as a `CharClasses` value, and only what Python fixes about their ASCII
 * part is assumed where a property needs it.
 */
module Security {
  import opened Wrappers

  /** The argument of the helpers: a Python `str`, or any other object together with its `str()`. */
  datatype Input = Text(s: string) | Other(repr: string)

  /** Python's Unicode `\w` and `\s` for `str` patterns. */
  datatype CharClasses = CharClasses(word: char -> bool, space: char -> bool)

  predicate IsAsciiLetter(c: char) {
    'a' <= c <= 'z' || 'A' <= c <= 'Z'
  }

  predicate IsAsciiDigit(c: char) {
    '0' <= c <= '9'
  }

  predicate IsAsciiWhitespace(c: char) {
    c == ' ' || '\t' <= c <= '\r' || '\U{1c}' <= c <= '\U{1f}'
  }

  /**
   * What Python fixes about `\w` and `\s` on ASCII: `\w` is `[a-zA-Z0-9_]`,
   * `\s` is space, tab, line feed, vertical tab, form feed, carriage return and
   * the four separators 0x1c-0x1f.
   */
  predicate PythonClasses(cc: CharClasses) {
    forall c: char :: c as int < 128 ==>
      && (cc.word(c) <==> IsAsciiLetter(c) || IsAsciiDigit(c) || c == '_')
      && (cc.space(c) <==> IsAsciiWhitespace(c))
  }

  /** `[a-zA-Z0-9_\-.,\s]`, the class `validate_input` accepts. */
  predicate InSafeClass(cc: CharClasses, c: char) {
    IsAsciiLetter(c) || IsAsciiDigit(c) || c == '_' || c == '-' || c == '.' || c == ',' || cc.space(c)
  }

  /** `[\w\-.,\s]`, the class `sanitize_input` keeps. */
  predicate InKeptClass(cc: CharClasses, c: char) {
    cc.word(c) || c == '-' || c == '.' || c == ',' || cc.space(c)
  }

  /** Every character of `s` is in the safe class (a scan from the left). */
  predicate AllSafe(cc: CharClasses, s: string) {
    s == [] || (InSafeClass(cc, s[0]) && AllSafe(cc, s[1..]))
  }

  /**
   * `re.match(r'^[a-zA-Z0-9_\-.,\s]+$', s)`: one or more safe characters up
   * to the end, where Python's `$` also matches just before a final line feed.
   */
  predicate MatchesSafePattern(cc: CharClasses, s: string) {
    || (s != [] && AllSafe(cc, s))
    || (|s| >= 2 && s[|s| - 1] == '\n' && AllSafe(cc, s[..|s| - 1]))
  }

  /** `validate_input`: true only for a string that matches the pattern. */
  function ValidateInput(cc: CharClasses, input: Input): (ok: bool)
    ensures ok ==> input.Text? && input.s != []
  {
    match input
    case Text(s) => MatchesSafePattern(cc, s)
    case Other(_) => false
  }

  /** `re.sub(r'[^\w\-.,\s]', '', s)`: drop every character outside the kept class. */
  function Keep(cc: CharClasses, s: string): (r: string)
    ensures |r| <= |s|
    ensures forall i :: 0 <= i < |r| ==> InKeptClass(cc, r[i])
  {
    if s == [] then []
    else (if InKeptClass(cc, s[0]) then [s[0]] else []) + Keep(cc, s[1..])
  }

  /** `sanitize_input`: a string is filtered, any other object is only converted with `str()`. */
  function SanitizeInput(cc: CharClasses, input: Input): (r: string)
    ensures input.Other? ==> r == input.repr
    ensures input.Text? ==> |r| <= |input.s|
  {
    match input
    case Text(s) => Keep(cc, s)
    case Other(repr) => repr
  }

  // ---------------------------------------------------------------------
  // validate_input
  // ---------------------------------------------------------------------

  lemma {:induction false} AllSafeIff(cc: CharClasses, s: string)
    ensures AllSafe(cc, s) <==> forall i :: 0 <= i < |s| ==> InSafeClass(cc, s[i])
  {
    if s != [] {
      AllSafeIff(cc, s[1..]);
      assert forall i :: 1 <= i < |s| ==> s[i] == s[1..][i - 1];
    }
  }

  /**
   * Since a line feed is whitespace, `validate_input` accepts exactly the
   * non-empty strings whose every character is an ASCII letter or digit, `_`,
   * `-`, `.`, `,` or whitespace; the end-of-line subtlety of `$` adds nothing.
   */
  lemma ValidateInputIff(cc: CharClasses, s: string)
    requires cc.space('\n')
    ensures ValidateInput(cc, Text(s)) <==> |s| >= 1 && forall i :: 0 <= i < |s| ==> InSafeClass(cc, s[i])
  {
    AllSafeIff(cc, s);
    if |s| >= 2 && s[|s| - 1] == '\n' && AllSafe(cc, s[..|s| - 1]) {
      AllSafeIff(cc, s[..|s| - 1]);
      assert forall i :: 0 <= i < |s| - 1 ==> s[i] == s[..|s| - 1][i];
    }
  }

  /** Non-strings and the empty string are rejected. */
  lemma ValidateInputRejects(cc: CharClasses, repr: string)
    ensures !ValidateInput(cc, Other(repr))
    ensures !ValidateInput(cc, Text(""))
  {
  }

  // ---------------------------------------------------------------------
  // sanitize_input
  // ---------------------------------------------------------------------

  /** `a` is obtained from `b` by deleting characters, without inserting or reordering any. */
  predicate IsSubsequence(a: string, b: string)
    decreases |b|
  {
    a == [] || (b != [] && ((a[0] == b[0] && IsSubsequence(a[1..], b[1..])) || IsSubsequence(a, b[1..])))
  }

  lemma {:induction false} KeepIsSubsequence(cc: CharClasses, s: string)
    ensures IsSubsequence(Keep(cc, s), s)
  {
    if s != [] {
      KeepIsSubsequence(cc, s[1..]);
      var r := Keep(cc, s);
      if InKeptClass(cc, s[0]) {
        assert r == [s[0]] + Keep(cc, s[1..]);
        assert r[0] == s[0] && r[1..] == Keep(cc, s[1..]);
      } else {
        assert r == Keep(cc, s[1..]);
      }
    }
  }

  /**
   * Exactly the kept characters survive: each kept character occurs in the
   * result as often as in the input, and no other character occurs at all.
   */
  lemma {:induction false} KeepCounts(cc: CharClasses, s: string)
    ensures forall c :: multiset(Keep(cc, s))[c] == if InKeptClass(cc, c) then multiset(s)[c] else 0
  {
    if s != [] {
      KeepCounts(cc, s[1..]);
      assert s == [s[0]] + s[1..];
      assert multiset(s) == multiset{s[0]} + multiset(s[1..]);
    }
  }

  /** A string made of kept characters only is returned unchanged, and only such a string. */
  lemma {:induction false} KeepUnchangedIff(cc: CharClasses, s: string)
    ensures Keep(cc, s) == s <==> forall i :: 0 <= i < |s| ==> InKeptClass(cc, s[i])
  {
    if s != [] {
      KeepUnchangedIff(cc, s[1..]);
      if forall i :: 0 <= i < |s| ==> InKeptClass(cc, s[i]) {
        assert forall i :: 0 <= i < |s[1..]| ==> s[1..][i] == s[i + 1];
      }
      if !InKeptClass(cc, s[0]) {
        assert |Keep(cc, s)| < |s|;
      }
    }
  }

  /** Sanitizing twice is sanitizing once. */
  lemma SanitizeIdempotent(cc: CharClasses, s: string)
    ensures SanitizeInput(cc, Text(SanitizeInput(cc, Text(s)))) == SanitizeInput(cc, Text(s))
  {
    KeepUnchangedIff(cc, Keep(cc, s));
  }

  // ---------------------------------------------------------------------
  // Agreement of the two helpers
  // ---------------------------------------------------------------------

  /** A string `validate_input` accepts passes `sanitize_input` unchanged. */
  lemma ValidatedIsUnchanged(cc: CharClasses, s: string)
    requires PythonClasses(cc)
    requires ValidateInput(cc, Text(s))
    ensures SanitizeInput(cc, Text(s)) == s
  {
    assert cc.space('\n');
    ValidateInputIff(cc, s);
    forall i | 0 <= i < |s| ensures InKeptClass(cc, s[i]) {
      if IsAsciiLetter(s[i]) || IsAsciiDigit(s[i]) || s[i] == '_' {
        assert s[i] as int < 128;
      }
    }
    KeepUnchangedIff(cc, s);
  }

  /**
   * On ASCII text the two helpers agree: the sanitized string is accepted by
   * `validate_input` exactly when it is not empty.
   */
  lemma SanitizedAsciiValidates(cc: CharClasses, s: string)
    requires PythonClasses(cc)
    requires forall i :: 0 <= i < |s| ==> s[i] as int < 128
    ensures ValidateInput(cc, Text(SanitizeInput(cc, Text(s)))) <==> SanitizeInput(cc, Text(s)) != []
  {
    var r := Keep(cc, s);
    assert cc.space('\n');
    KeepCounts(cc, s);
    forall i | 0 <= i < |r| ensures InSafeClass(cc, r[i]) {
      assert r[i] in multiset(r);
      assert r[i] in multiset(s);
      assert r[i] as int < 128;
    }
    ValidateInputIff(cc, r);
  }

  // ---------------------------------------------------------------------
  // require_api_key
  // ---------------------------------------------------------------------

  /**
   * The guard of `require_api_key`: the `X-API-KEY` header must be present,
   * non-empty and equal to the configured `API_KEY`; otherwise the request is
   * aborted with 401.
   */
  function ApiKeyAccepted(header: Option<string>, configured: Option<string>): (ok: bool)
    ensures ok ==> header.Some? && header.value != [] && configured == header
    ensures configured.None? || configured == Some([]) ==> !ok
    ensures header.Some? && header.value != [] && configured == header ==> ok
  {
    !(header.None? || header.value == [] || Some(header.value) != configured)
  }
}
