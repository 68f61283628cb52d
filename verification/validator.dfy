/** The utterance validator `Volume.__write_row`: joins a buffer, cuts it at
    the first letter, drops junk, classifies the rest into the day's totals
    and writes a row when the text is reo enough. */
module Validator {
  import opened Options
  import opened PyText
  import opened Collaborators
  import opened ParseState

  /** The second junk pattern, `([^ ]{1,3} )+[^ ]{1,3}`, taken as a match of
      the whole text: two or more tokens of one to three non-space characters
      joined by single spaces. */
  predicate ShortTokenRun(t: string) {
    var tokens := SplitOn(' ', t);
    |tokens| >= 2 && forall k | 0 <= k < |tokens| :: 1 <= |tokens[k]| <= 3
  }

  /** The junk test: the first pattern is an opaque anchored match; the
      second is tried only when the first finds nothing. The text is junk when
      the match that was made covers all of it. */
  predicate Junk(d: DayOracles, t: string) {
    match d.badEgg(t)
    case Some(end) => end == |t|
    case None => ShortTokenRun(t)
  }

  /** The text the validator classifies, or None when it drops the buffer
      without classifying it. */
  function Screen(d: DayOracles, buffer: seq<string>): Option<string> {
    var joined := JoinWith(' ', buffer);
    var first := FirstLetter(joined);
    if first.Some? && |joined| > 3 then
      var text := joined[first.value..];
      if !Junk(d, text) then Some(text) else None
    else
      None
  }

  /** What the screen keeps is the joined buffer cut just before its first
      letter or pound sign; it drops the buffer exactly when the joined text is
      at most three characters long, holds no letter or pound sign, or is junk
      once cut. */
  lemma ScreenCharacterized(d: DayOracles, buffer: seq<string>)
    ensures var joined := JoinWith(' ', buffer); var r := Screen(d, buffer);
      && (r.Some? ==>
            && |r.value| <= |joined| && r.value == joined[|joined| - |r.value|..]
            && r.value != [] && IsLetterOrPound(r.value[0])
            && forall i | 0 <= i < |joined| - |r.value| :: !IsLetterOrPound(joined[i]))
      && (r.None? <==>
            || |joined| <= 3
            || (forall i | 0 <= i < |joined| :: !IsLetterOrPound(joined[i]))
            || (FirstLetter(joined).Some? && Junk(d, joined[FirstLetter(joined).value..])))
  {
    FirstLetterIsFirst(JoinWith(' ', buffer));
  }

  /** A classified text is accepted when it is reo with more than two reo
      words and fewer than twenty other words. */
  predicate Accepted(c: Classification) {
    c.isReo && c.counts.reo > 2 && c.counts.other < 20
  }

  /** Whether validating `buffer` writes a row. */
  predicate Emits(d: DayOracles, buffer: seq<string>) {
    Screen(d, buffer).Some? && Accepted(d.classify(Screen(d, buffer).value))
  }

  /** Validates `buffer` and records it in `validated`. Text that is dropped
      before classification leaves the totals alone; classified text adds its
      counts whether a row is written or not; a written row carries the
      current day, utterance number and speaker, and a reo-rich text. */
  function WriteRow(d: DayOracles, st: Parse, buffer: seq<string>): (st': Parse)
    ensures st' == st.(totals := st'.totals, rows := st'.rows, validated := st'.validated)
    ensures st'.validated == st.validated + [buffer]
    ensures Screen(d, buffer).None? ==> st'.totals == st.totals
    ensures Screen(d, buffer).Some? ==>
      st'.totals == st.totals.Plus(d.classify(Screen(d, buffer).value).counts)
    ensures st.rows <= st'.rows
    ensures |st'.rows| == |st.rows| + (if Emits(d, buffer) then 1 else 0)
    ensures |st'.rows| > |st.rows| ==>
      var row := st'.rows[|st.rows|];
      && row.url == st.url && row.volume == st.volume.name && row.date == st.date
      && row.utterance == st.utterance && row.speaker == st.speaker
      && row.text == Screen(d, buffer).value && row.counts == d.classify(Screen(d, buffer).value).counts
      && row.counts.reo > 2 && row.counts.other < 20
  {
    var st1 := st.(validated := st.validated + [buffer]);
    match Screen(d, buffer)
    case None => st1
    case Some(text) =>
      var c := d.classify(text);
      var st2 := st1.(totals := st1.totals.Plus(c.counts));
      if Accepted(c) then
        st2.(rows := st2.rows + [UtteranceRow(st.url, st.volume.name, st.date, st.utterance, st.speaker, c.counts, text)])
      else
        st2
  }

  /** The counts validating `buffer` adds to the day's totals. */
  function Contribution(d: DayOracles, buffer: seq<string>): Counts {
    match Screen(d, buffer)
    case None => NoCounts
    case Some(text) => d.classify(text).counts
  }

  /** Validating a buffer adds its contribution to the totals. */
  lemma WriteRowTotals(d: DayOracles, st: Parse, buffer: seq<string>)
    ensures WriteRow(d, st, buffer).totals == st.totals.Plus(Contribution(d, buffer))
  {
    PlusLaws(st.totals, NoCounts, NoCounts);
  }

  /** Junk is dropped whatever the classifier says: if the whole cut text is
      a run of short tokens and the first pattern finds nothing, no row is
      written and the totals do not move. */
  lemma ShortTokenJunkDropped(d: DayOracles, st: Parse, buffer: seq<string>)
    requires var joined := JoinWith(' ', buffer);
      && FirstLetter(joined).Some?
      && d.badEgg(joined[FirstLetter(joined).value..]).None?
      && ShortTokenRun(joined[FirstLetter(joined).value..])
    ensures WriteRow(d, st, buffer).rows == st.rows
    ensures WriteRow(d, st, buffer).totals == st.totals
  {
  }

  /** The second junk pattern matches all of a text exactly when the text is
      two or more tokens of one to three non-space characters joined by single
      spaces. */
  lemma {:induction false} ShortTokenRunOfTokens(tokens: seq<string>)
    requires |tokens| >= 1
    requires forall k | 0 <= k < |tokens| :: ' ' !in tokens[k]
    ensures ShortTokenRun(JoinWith(' ', tokens)) <==>
      |tokens| >= 2 && forall k | 0 <= k < |tokens| :: 1 <= |tokens[k]| <= 3
  {
    SplitJoin(' ', tokens);
  }

  /** The length test looks at the text before it is cut at its first letter:
      "1. ka" is five characters long, so the two-letter "ka", which neither
      junk pattern matches, reaches the classifier. */
  lemma UntrimmedLengthTest(d: DayOracles)
    requires d.badEgg("ka").None?
    ensures Screen(d, ["1. ka"]) == Some("ka")
  {
    var joined := JoinWith(' ', ["1. ka"]);
    assert joined == "1. ka";
    assert FirstLetter(joined) == Some(3);
    assert joined[3..] == "ka";
    SplitJoin(' ', ["ka"]);
  }
}
