/** `Volume.__process_day`: a day's list of page fragments is joined into one
    text, cleaned of hyphenated line breaks and noise lines, read paragraph
    by paragraph with the totals reset to zero, and written to the day index
    when it counted more than fifty words. */
module Days {
  import opened Options
  import opened PyText
  import opened Collaborators
  import opened ParseState
  import opened Validator
  import opened Sentences
  import opened Paragraphs

  /** The number of noise-line substitutions applied in turn to a day. */
  const NoisePassCount: nat := 6

  /** A day row is written only when the day counted more words than this. */
  const DayRowThreshold: nat := 50

  /** Applies the noise substitutions `k`, `k + 1`, ... in order. */
  function NoisePasses(d: DayOracles, text: string, k: nat): string
    decreases NoisePassCount - k
  {
    if k >= NoisePassCount then text else NoisePasses(d, d.noise(k, text), k + 1)
  }

  /** The text the paragraph loop reads: the day's fragments joined by
      newlines, hyphenated line breaks rejoined, noise lines removed. */
  function CleanDay(d: DayOracles, day: seq<string>): string {
    NoisePasses(d, d.hyphenJoin(JoinWith('\n', day)), 0)
  }

  /** The noise substitutions only remove text after a newline, so the first
      line of the day survives them whole. */
  lemma {:induction false} FirstLineSurvives(d: DayOracles, text: string, k: nat)
    requires ValidDay(d)
    ensures FirstLine(NoisePasses(d, text, k)) == FirstLine(text)
    decreases NoisePassCount - k
  {
    if k < NoisePassCount {
      var t := d.noise(k, text);
      if '\n' in text {
        FirstLineOfExtension(text, t);
      } else {
        assert t == text;
      }
      FirstLineSurvives(d, t, k + 1);
    }
  }

  /** The first line of the cleaned day is the first line of the joined,
      hyphen-rejoined text. */
  lemma CleanDayFirstLine(d: DayOracles, day: seq<string>)
    requires ValidDay(d)
    ensures FirstLine(CleanDay(d, day)) == FirstLine(d.hyphenJoin(JoinWith('\n', day)))
  {
    FirstLineSurvives(d, d.hyphenJoin(JoinWith('\n', day)), 0);
  }

  /** The day's state before its paragraphs are read: totals reset, and the
      day list recorded as processed. */
  function Opened(st: Parse, day: seq<string>): Parse {
    st.(totals := NoCounts, processed := st.processed + [day])
  }

  /** The row the day index gets for a day with the given totals. */
  function DayRowOf(st: Parse, totals: Counts): DayRow {
    DayRow(st.url, st.volume.name, st.DayDate(), st.retrieved, totals)
  }

  /** One day: reset the totals, read the paragraphs, then write a day row
      carrying the day's url, date, retrieval time and totals exactly when the
      totals add up to more than fifty. Only the outputs, the totals, the
      counter and the speaker change. */
  function ProcessDay(d: DayOracles, st: Parse, day: seq<string>): (st': Parse)
    requires ValidDay(d)
    ensures Extends(st, st')
    ensures st' == st.(totals := st'.totals, rows := st'.rows, days := st'.days, validated := st'.validated,
                       processed := st'.processed, utterance := st'.utterance, speaker := st'.speaker)
    ensures st'.processed == st.processed + [day]
    ensures st.utterance <= st'.utterance
    ensures st'.days == st.days + (if st'.totals.Total() > DayRowThreshold then [DayRowOf(st, st'.totals)] else [])
    ensures RowsOfDay(st'.rows, |st.rows|, st)
  {
    var st1 := ProcessParagraphs(d, Opened(st, day), CleanDay(d, day));
    if st1.totals.Total() > DayRowThreshold then st1.(days := st1.days + [DayRowOf(st1, st1.totals)]) else st1
  }

  /** The paragraph pass of a day, and the day as that pass plus the gate. */
  lemma ProcessDayByParagraphs(d: DayOracles, st: Parse, day: seq<string>)
    requires ValidDay(d)
    ensures var st1 := ProcessParagraphs(d, Opened(st, day), CleanDay(d, day));
      var st' := ProcessDay(d, st, day);
      && st'.totals == st1.totals && st'.rows == st1.rows && st'.validated == st1.validated
      && st'.utterance == st1.utterance
  {
  }

  /** The counts the day's own text contributes: its long non-reo sentences
      and the validator's counts for the buffers `flushed`. */
  function DayCounts(d: DayOracles, flag410: bool, day: seq<string>, flushed: seq<seq<string>>): Counts
    requires ValidDay(d)
  {
    DaySentenceCounts(d, flag410, ParagraphTexts(d, CleanDay(d, day))).Plus(SumContributions(d, flushed))
  }

  /** The totals are reset at the start of each day: a day's totals are
      exactly what its own text contributes, whatever came before. */
  lemma DayTotalsReset(d: DayOracles, st: Parse, day: seq<string>)
    requires ValidDay(d)
    ensures var st' := ProcessDay(d, st, day);
      st'.totals == DayCounts(d, st.flag410, day, st'.validated[|st.validated|..])
  {
    var st0 := Opened(st, day);
    var text := CleanDay(d, day);
    var st1 := ProcessParagraphs(d, st0, text);
    ProcessDayByParagraphs(d, st, day);
    DayTotals(d, st0, text);
    var x := DaySentenceCounts(d, st.flag410, ParagraphTexts(d, text));
    var g := SumContributions(d, st1.validated[|st0.validated|..]);
    PlusLaws(x, g, g);
    assert NoCounts.Plus(x) == x;
  }

  /** The day gate: a day row is written exactly when the day's own counts
      total more than fifty, and it carries those counts. */
  lemma DayGate(d: DayOracles, st: Parse, day: seq<string>)
    requires ValidDay(d)
    ensures var st' := ProcessDay(d, st, day);
      var counts := DayCounts(d, st.flag410, day, st'.validated[|st.validated|..]);
      && (|st'.days| == |st.days| + 1 <==> counts.Total() > DayRowThreshold)
      && (|st'.days| == |st.days| <==> counts.Total() <= DayRowThreshold)
      && (|st'.days| > |st.days| ==> st'.days[|st.days|] == DayRowOf(st, counts))
  {
    DayTotalsReset(d, st, day);
  }

  /** Every cleaned reo sentence of the day reaches the validator exactly
      once and in order. */
  lemma DayText(d: DayOracles, st: Parse, day: seq<string>)
    requires ValidDay(d)
    ensures var st' := ProcessDay(d, st, day);
      Concat(st'.validated[|st.validated|..]) == DayReo(d, st.flag410, ParagraphTexts(d, CleanDay(d, day)))
  {
    ProcessDayByParagraphs(d, st, day);
    DayKeepsText(d, Opened(st, day), CleanDay(d, day));
  }

  /** The utterance rows a day writes have strictly increasing numbers, all
      above the counter the day started from. */
  lemma DayRowsNumbered(d: DayOracles, st: Parse, day: seq<string>)
    requires ValidDay(d)
    ensures var st' := ProcessDay(d, st, day);
      && (forall i, j | |st.rows| <= i < j < |st'.rows| :: st'.rows[i].utterance < st'.rows[j].utterance)
      && (forall i | |st.rows| <= i < |st'.rows| :: st.utterance < st'.rows[i].utterance <= st'.utterance)
  {
    ProcessDayByParagraphs(d, st, day);
    DayNumbered(d, Opened(st, day), CleanDay(d, day));
  }
}
