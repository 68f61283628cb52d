/** The pieces of Python's string behaviour the cleaner relies on: `str.strip`,
    `str.isdigit` and `int`, `str.endswith`, `sep.join`, `str.split`, and the
    character-class searches `[a-zA-Z]` and `[a-zA-Z£]`. */
module PyText {
  import opened Options

  /** The characters for which Python's `str.isspace()` holds; `str.strip()`
      with no argument removes exactly these. */
  predicate IsSpace(c: char) {
    || c == ' '
    || '\t' <= c <= '\r'
    || '\U{1C}' <= c <= '\U{1F}'
    || c == '\U{85}' || c == '\U{A0}' || c == '\U{1680}'
    || '\U{2000}' <= c <= '\U{200A}'
    || c == '\U{2028}' || c == '\U{2029}' || c == '\U{202F}'
    || c == '\U{205F}' || c == '\U{3000}'
  }

  predicate AllSpace(s: string) {
    forall i | 0 <= i < |s| :: IsSpace(s[i])
  }

  /** Removes leading whitespace. */
  function LStrip(s: string): (r: string)
    ensures |r| <= |s| && r == s[|s| - |r|..]
    ensures AllSpace(s[..|s| - |r|])
    ensures r == [] || !IsSpace(r[0])
  {
    if s != [] && IsSpace(s[0]) then
      var r := LStrip(s[1..]);
      assert s[..|s| - |r|] == [s[0]] + s[1..][..|s[1..]| - |r|];
      r
    else
      s
  }

  /** Removes trailing whitespace. */
  function RStrip(s: string): (r: string)
    ensures |r| <= |s| && r == s[..|r|]
    ensures AllSpace(s[|r|..])
    ensures r == [] || !IsSpace(r[|r| - 1])
  {
    if s != [] && IsSpace(s[|s| - 1]) then
      var r := RStrip(s[..|s| - 1]);
      assert s[|r|..] == s[..|s| - 1][|r|..] + [s[|s| - 1]];
      r
    else
      s
  }

  /** Python's `str.strip()`: the slice of `s` left once whitespace is cut
      from both ends. */
  function Strip(s: string): (r: string)
    ensures r == [] || (!IsSpace(r[0]) && !IsSpace(r[|r| - 1]))
    ensures exists i, j | 0 <= i <= j <= |s| ::
      r == s[i..j] && AllSpace(s[..i]) && AllSpace(s[j..])
  {
    var l := LStrip(s);
    var r := RStrip(l);
    var i := |s| - |l|;
    assert r == s[i..i + |r|];
    assert s[i + |r|..] == l[|r|..];
    r
  }

  lemma {:induction false} LStripAllSpace(s: string)
    requires AllSpace(s)
    ensures LStrip(s) == []
    decreases |s|
  {
    if s != [] {
      LStripAllSpace(s[1..]);
    }
  }

  /** Stripping leaves nothing exactly when the text is all whitespace. */
  lemma {:induction false} StripEmptyIffAllSpace(s: string)
    ensures Strip(s) == [] <==> AllSpace(s)
  {
    if AllSpace(s) {
      LStripAllSpace(s);
    }
    if Strip(s) == [] {
      var i, j :| 0 <= i <= j <= |s| && Strip(s) == s[i..j] && AllSpace(s[..i]) && AllSpace(s[j..]);
      assert s == s[..i] + s[i..j] + s[j..];
      forall k | 0 <= k < |s|
        ensures IsSpace(s[k])
      {
        if k < i {
          assert s[k] == s[..i][k];
        } else {
          assert s[k] == s[j..][k - j];
        }
      }
    }
  }

  predicate IsAsciiLetter(c: char) {
    'a' <= c <= 'z' || 'A' <= c <= 'Z'
  }

  /** `re.search('[a-zA-Z]', s)` finds something. */
  predicate HasAsciiLetter(s: string) {
    exists i | 0 <= i < |s| :: IsAsciiLetter(s[i])
  }

  /** The character class `[a-zA-Z£]`. */
  predicate IsLetterOrPound(c: char) {
    IsAsciiLetter(c) || c == '\U{A3}'
  }

  /** The start of `re.search('[a-zA-Z£]', s)`: the index of the first ASCII
      letter or pound sign. */
  function FirstLetter(s: string): (r: Option<nat>)
    ensures r.Some? ==> r.value < |s|
  {
    if s == [] then None
    else if IsLetterOrPound(s[0]) then Some(0)
    else
      match FirstLetter(s[1..])
      case None => None
      case Some(k) => Some(k + 1)
  }

  /** The search finds a letter or pound sign, and none comes before it; it
      finds nothing only when there is none. */
  lemma {:induction false} FirstLetterIsFirst(s: string)
    ensures var r := FirstLetter(s);
      && (r.Some? ==> IsLetterOrPound(s[r.value]))
      && (forall k | 0 <= k < |s| && (r.None? || k < r.value) :: !IsLetterOrPound(s[k]))
  {
    if s != [] && !IsLetterOrPound(s[0]) {
      FirstLetterIsFirst(s[1..]);
      forall k | 1 <= k < |s|
        ensures s[k] == s[1..][k - 1]
      {
      }
    }
  }

  /** `s.endswith(tuple(chars))` for a tuple of one-character suffixes. */
  predicate EndsWithAny(s: string, chars: string) {
    |s| > 0 && s[|s| - 1] in chars
  }

  predicate IsDigit(c: char) {
    '0' <= c <= '9'
  }

  /** `str.isdigit()` on ASCII text: non-empty and all decimal digits. */
  predicate IsDigits(s: string) {
    |s| > 0 && forall i | 0 <= i < |s| :: IsDigit(s[i])
  }

  /** `int(s)` for a string of decimal digits. */
  function DigitsValue(s: string): nat
    requires forall i | 0 <= i < |s| :: IsDigit(s[i])
  {
    if s == [] then 0
    else
      assert IsDigit(s[|s| - 1]);
      10 * DigitsValue(s[..|s| - 1]) + (s[|s| - 1] as int - '0' as int)
  }

  /** `str(n)`: the decimal rendering of a natural number. */
  function Decimal(n: nat): (s: string)
    ensures IsDigits(s)
  {
    if n < 10 then [('0' as int + n) as char]
    else Decimal(n / 10) + [('0' as int + n % 10) as char]
  }

  /** `int(str(n)) == n`. */
  lemma {:induction false} DecimalRoundTrip(n: nat)
    ensures DigitsValue(Decimal(n)) == n
  {
    if n >= 10 {
      var s := Decimal(n);
      assert s[..|s| - 1] == Decimal(n / 10);
      DecimalRoundTrip(n / 10);
    }
  }

  /** `sep.join(parts)` for a one-character separator. */
  function JoinWith(sep: char, parts: seq<string>): string {
    if parts == [] then []
    else if |parts| == 1 then parts[0]
    else parts[0] + [sep] + JoinWith(sep, parts[1..])
  }

  /** `s.split(sep)` for a one-character separator; never empty. */
  function SplitOn(sep: char, s: string): (r: seq<string>)
    ensures |r| >= 1
  {
    if s == [] then [[]]
    else
      var t := SplitOn(sep, s[1..]);
      if s[0] == sep then [[]] + t else [[s[0]] + t[0]] + t[1..]
  }

  /** Splitting a text that opens with separator-free `p` extends the first
      piece by `p` and leaves the others alone. */
  lemma {:induction false} SplitPrefix(sep: char, p: string, u: string)
    requires sep !in p
    ensures SplitOn(sep, p + u) == [p + SplitOn(sep, u)[0]] + SplitOn(sep, u)[1..]
  {
    if p != [] {
      var pu := p + u;
      assert pu[0] == p[0] && pu[1..] == p[1..] + u;
      SplitPrefix(sep, p[1..], u);
      var t := SplitOn(sep, u);
      var t' := SplitOn(sep, pu[1..]);
      assert t' == [p[1..] + t[0]] + t[1..];
      assert SplitOn(sep, pu) == [[p[0]] + t'[0]] + t'[1..];
      assert [p[0]] + (p[1..] + t[0]) == p + t[0];
    } else {
      var t := SplitOn(sep, u);
      assert p + u == u && p + t[0] == t[0];
      assert [t[0]] + t[1..] == t;
    }
  }

  /** Splitting a join of separator-free pieces gives the pieces back. */
  lemma {:induction false} SplitJoin(sep: char, parts: seq<string>)
    requires |parts| >= 1
    requires forall k | 0 <= k < |parts| :: sep !in parts[k]
    ensures SplitOn(sep, JoinWith(sep, parts)) == parts
  {
    if |parts| == 1 {
      SplitPrefix(sep, parts[0], []);
      assert parts[0] + [] == parts[0];
    } else {
      var rest := JoinWith(sep, parts[1..]);
      SplitJoin(sep, parts[1..]);
      assert parts[0] + [sep] + rest == parts[0] + ([sep] + rest);
      SplitPrefix(sep, parts[0], [sep] + rest);
      var sr := [sep] + rest;
      assert sr[0] == sep && sr[1..] == rest;
      assert SplitOn(sep, sr) == [[]] + SplitOn(sep, rest);
      assert parts[0] + [] == parts[0];
      assert parts == [parts[0]] + parts[1..];
    }
  }

  /** The concatenation of a sequence of sequences. */
  function Concat<T>(xss: seq<seq<T>>): seq<T> {
    if xss == [] then [] else xss[0] + Concat(xss[1..])
  }

  lemma {:induction false} ConcatAppend<T>(a: seq<seq<T>>, b: seq<seq<T>>)
    ensures Concat(a + b) == Concat(a) + Concat(b)
  {
    if a != [] {
      assert (a + b)[0] == a[0] && (a + b)[1..] == a[1..] + b;
      ConcatAppend(a[1..], b);
      assert Concat(a + b) == a[0] + Concat(a[1..] + b);
    } else {
      assert a + b == b;
    }
  }

  /** The first line of `s` with its newline, or all of `s` when it has no
      newline. */
  function FirstLine(s: string): (r: string)
    ensures r <= s
    ensures '\n' !in s ==> r == s
    ensures '\n' in s ==> |r| > 0 && r[|r| - 1] == '\n' && '\n' !in r[..|r| - 1]
  {
    if s == [] then []
    else if s[0] == '\n' then ['\n']
    else
      var r := [s[0]] + FirstLine(s[1..]);
      assert '\n' in s ==> '\n' in s[1..];
      r
  }

  /** A text that starts with the whole first line of `s`, newline included,
      has that same first line. */
  lemma {:induction false} FirstLineOfExtension(s: string, t: string)
    requires '\n' in s
    requires FirstLine(s) <= t
    ensures FirstLine(t) == FirstLine(s)
  {
    if s[0] != '\n' {
      assert '\n' in s[1..];
      assert t[0] == s[0];
      assert FirstLine(s[1..]) <= t[1..];
      FirstLineOfExtension(s[1..], t[1..]);
    }
  }
}
