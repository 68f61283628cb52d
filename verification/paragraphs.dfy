/** Paragraph and speaker handling, `Volume.__process_paragraphs` and
    `Volume.__process_paragraph`: a day's text is cut at paragraph breaks; a
    paragraph that opens with a named speaker flushes the open utterance and
    switches the speaker; the rest of each paragraph goes through the
    sentence accumulator, whose open buffer is carried across paragraph
    breaks and flushed at the end of the day. */
module Paragraphs {
  import opened Options
  import opened PyText
  import opened Collaborators
  import opened ParseState
  import opened Validator
  import opened Sentences

  /** The speaker match at the start of a paragraph, when it captured a
      non-empty name; a match with an empty name counts as no match. */
  function Named(d: DayOracles, flag410: bool, text: string): Option<SpeakerMatch> {
    var k := d.speaker(flag410, text);
    if k.Some? && k.value.name != [] then k else None
  }

  /** The part of a paragraph the sentence loop reads: what follows the
      speaker match when there is a named one, the whole paragraph otherwise. */
  function Body(d: DayOracles, flag410: bool, text: string): string
    requires ValidDay(d)
  {
    match Named(d, flag410, text)
    case Some(k) => text[k.end..]
    case None => text
  }

  /** The state after a named speaker match: the open buffer, if any, goes to
      the validator under the old speaker, then the new speaker is set. The
      counter does not move. */
  function Handover(d: DayOracles, st: Parse, buffer: seq<string>, name: string): Parse {
    var st1 := if buffer != [] then WriteRow(d, st, buffer) else st;
    st1.(speaker := Some(d.cleanWhitespace(name)))
  }

  /** One paragraph: returns the new state and the buffer still open. */
  function ProcessParagraph(d: DayOracles, st: Parse, text: string, buffer: seq<string>): (res: (Parse, seq<string>))
    requires ValidDay(d)
    ensures SameDay(st, res.0)
    ensures RowsOfDay(res.0.rows, |st.rows|, st)
    ensures res.0.speaker == match Named(d, st.flag410, text)
                             case Some(k) => Some(d.cleanWhitespace(k.name))
                             case None => st.speaker
  {
    match Named(d, st.flag410, text)
    case Some(k) =>
      var r := ProcessSentences(d, Start(Handover(d, st, buffer, k.name), []), text[k.end..]);
      (r.st, r.buffer)
    case None =>
      var r := ProcessSentences(d, Start(st, buffer), text);
      (r.st, r.buffer)
  }

  /** The sentence run a paragraph starts from. */
  function Entry(d: DayOracles, st: Parse, text: string, buffer: seq<string>): (r: Run)
    ensures Consistent(r)
  {
    match Named(d, st.flag410, text)
    case Some(k) => Start(Handover(d, st, buffer, k.name), [])
    case None => Start(st, buffer)
  }

  /** A paragraph is its entry followed by the sentence loop over its body. */
  lemma ParagraphByEntry(d: DayOracles, st: Parse, text: string, buffer: seq<string>)
    requires ValidDay(d)
    ensures var r := ProcessSentences(d, Entry(d, st, text, buffer), Body(d, st.flag410, text));
      ProcessParagraph(d, st, text, buffer) == (r.st, r.buffer)
  {
  }

  /** Whether a paragraph flushes at its named speaker match. */
  predicate SpeakerFlush(d: DayOracles, flag410: bool, text: string, buffer: seq<string>) {
    Named(d, flag410, text).Some? && buffer != []
  }

  /** What the entry hands to the validator: the open buffer exactly when a
      named speaker match flushes it. */
  lemma EntryFlushes(d: DayOracles, st: Parse, text: string, buffer: seq<string>)
    ensures var e := Entry(d, st, text, buffer);
      && Extends(st, e.st) && e.st.utterance == st.utterance && e.st.days == st.days
      && e.st.processed == st.processed
      && e.st.validated == st.validated + (if SpeakerFlush(d, st.flag410, text, buffer) then [buffer] else [])
      && e.buffer == (if Named(d, st.flag410, text).Some? then [] else buffer)
  {
  }

  /** The entry loses no text: what it flushes, followed by the buffer it
      leaves open, is the incoming buffer. */
  lemma EntryKeepsText(d: DayOracles, st: Parse, text: string, buffer: seq<string>)
    ensures var e := Entry(d, st, text, buffer);
      st.validated <= e.st.validated && Concat(e.st.validated[|st.validated|..]) + e.buffer == buffer + []
  {
    var e := Entry(d, st, text, buffer);
    var v0, v1 := st.validated, e.st.validated;
    EntryFlushes(d, st, text, buffer);
    if SpeakerFlush(d, st.flag410, text, buffer) {
      assert v1[|v0|..] == [buffer];
      assert Concat([buffer]) == buffer + Concat([buffer][1..]);
    } else {
      assert v1[|v0|..] == [];
    }
  }

  /** The buffers handed to the validator during a paragraph, followed by the
      buffer left open, are the incoming buffer followed by the cleaned reo
      sentences of the paragraph's body: a speaker change flushes, it does not
      drop. */
  lemma ParagraphKeepsText(d: DayOracles, st: Parse, text: string, buffer: seq<string>)
    requires ValidDay(d)
    ensures var res := ProcessParagraph(d, st, text, buffer);
      Concat(res.0.validated[|st.validated|..]) + res.1
        == buffer + ReoSentences(d, Split(d, Body(d, st.flag410, text)))
  {
    var e := Entry(d, st, text, buffer);
    var body := Body(d, st.flag410, text);
    var r := ProcessSentences(d, e, body);
    var x := ReoSentences(d, Split(d, body));
    var v0, v1, v2 := st.validated, e.st.validated, r.st.validated;
    assert ProcessParagraph(d, st, text, buffer) == (r.st, r.buffer) by {
      ParagraphByEntry(d, st, text, buffer);
    }
    assert Concat(v2[|v1|..]) + r.buffer == e.buffer + x && v1 <= v2 by {
      NoTextLost(d, e, body);
    }
    assert Concat(v1[|v0|..]) + e.buffer == buffer + [] && v0 <= v1 by {
      EntryKeepsText(d, st, text, buffer);
    }
    ChainText(v0, v1, v2, buffer, e.buffer, r.buffer, [], x);
    assert [] + x == x;
  }

  /** A paragraph hands the validator at most the buffer flushed by its
      speaker match plus one buffer per non-reo sentence of its body, and
      never an empty buffer; `ParagraphFlushCountExact` gives the exact count. */
  lemma ParagraphFlushes(d: DayOracles, st: Parse, text: string, buffer: seq<string>)
    requires ValidDay(d)
    ensures var res := ProcessParagraph(d, st, text, buffer);
      && |res.0.validated| <= |st.validated| + (if SpeakerFlush(d, st.flag410, text, buffer) then 1 else 0)
                                             + NonReoCount(d, Split(d, Body(d, st.flag410, text)))
      && (forall i | |st.validated| <= i < |res.0.validated| :: res.0.validated[i] != [])
  {
    var e := Entry(d, st, text, buffer);
    var body := Body(d, st.flag410, text);
    ParagraphByEntry(d, st, text, buffer);
    EntryFlushes(d, st, text, buffer);
    FlushesOnlyOnOtherRuns(d, e, body);
  }

  /** Every row written during a paragraph carries the paragraph's speaker,
      except a row written for the buffer flushed at the speaker match, which
      carries the previous speaker. */
  lemma ParagraphSpeakers(d: DayOracles, st: Parse, text: string, buffer: seq<string>)
    requires ValidDay(d)
    ensures var res := ProcessParagraph(d, st, text, buffer);
      forall i | |st.rows| <= i < |res.0.rows| ::
        res.0.rows[i].speaker
          == if i == |st.rows| && SpeakerFlush(d, st.flag410, text, buffer) && Emits(d, buffer)
             then st.speaker else res.0.speaker
  {
    var res := ProcessParagraph(d, st, text, buffer);
    match Named(d, st.flag410, text)
    case Some(k) =>
      var st1 := if buffer != [] then WriteRow(d, st, buffer) else st;
      var st2 := Handover(d, st, buffer, k.name);
      assert |st1.rows| == |st.rows| + (if buffer != [] && Emits(d, buffer) then 1 else 0);
      assert st2.rows == st1.rows;
    case None =>
  }

  /** Utterance numbers keep increasing through a paragraph. */
  lemma ParagraphNumbered(d: DayOracles, st: Parse, text: string, buffer: seq<string>, from: nat, base: nat)
    requires ValidDay(d)
    requires Numbered(st.rows, from, base, st.utterance, buffer != [])
    ensures var res := ProcessParagraph(d, st, text, buffer);
      Numbered(res.0.rows, from, base, res.0.utterance, res.1 != [])
  {
    var e := Entry(d, st, text, buffer);
    ParagraphByEntry(d, st, text, buffer);
    EntryRows(d, st, text, buffer);
    if Named(d, st.flag410, text).Some? {
      NumberedFlush(st.rows, e.st.rows, from, base, st.utterance, buffer != []);
    }
    SentencesNumbered(d, e, Body(d, st.flag410, text), from, base);
  }

  /** The entry writes at most the flushed buffer's row, numbered with the
      current counter. */
  lemma EntryRows(d: DayOracles, st: Parse, text: string, buffer: seq<string>)
    ensures var e := Entry(d, st, text, buffer);
      && e.st.utterance == st.utterance
      && (Named(d, st.flag410, text).None? ==> e.st.rows == st.rows && e.buffer == buffer)
      && (Named(d, st.flag410, text).Some? ==>
            e.buffer == []
            && (e.st.rows == st.rows
                || (buffer != [] && |e.st.rows| == |st.rows| + 1 && st.rows <= e.st.rows
                    && e.st.rows[|st.rows|].utterance == st.utterance)))
  {
  }

  /** Flushing the open buffer under the current number, without moving the
      counter, leaves a closed, well-numbered state. */
  lemma NumberedFlush(rows: seq<UtteranceRow>, rows': seq<UtteranceRow>, from: nat, base: nat, counter: nat, open: bool)
    requires Numbered(rows, from, base, counter, open)
    requires rows' == rows || (open && |rows'| == |rows| + 1 && rows <= rows' && rows'[|rows|].utterance == counter)
    ensures Numbered(rows', from, base, counter, false)
  {
    if rows' != rows {
      forall i, j | from <= i < j < |rows'|
        ensures rows'[i].utterance < rows'[j].utterance
      {
        if j < |rows| {
          assert rows'[i] == rows[i] && rows'[j] == rows[j];
        } else {
          assert rows'[i] == rows[i];
        }
      }
      forall i | from <= i < |rows'|
        ensures base < rows'[i].utterance <= counter
      {
        if i < |rows| {
          assert rows'[i] == rows[i];
        }
      }
    }
  }

  /** The paragraph loop over a day's text: each paragraph ends where the
      next paragraph break begins, and the buffer still open after one
      paragraph is carried into the next. Returns the state and the buffer
      open after the last paragraph. */
  function ParagraphLoop(d: DayOracles, st: Parse, text: string, buffer: seq<string>): (res: (Parse, seq<string>))
    requires ValidDay(d)
    ensures SameDay(st, res.0)
    ensures RowsOfDay(res.0.rows, |st.rows|, st)
    decreases |text|
  {
    var m := d.paragraph(text);
    if m.Some? then
      var res := ProcessParagraph(d, st, text[..m.value.start], buffer);
      ParagraphLoop(d, res.0, text[m.value.end..], res.1)
    else
      ProcessParagraph(d, st, text, buffer)
  }

  /** `__process_paragraphs`: the loop starts with an empty buffer, and the
      buffer still open at the end of the day is flushed. */
  function ProcessParagraphs(d: DayOracles, st: Parse, text: string): (st': Parse)
    requires ValidDay(d)
    ensures SameDay(st, st')
    ensures RowsOfDay(st'.rows, |st.rows|, st)
  {
    var res := ParagraphLoop(d, st, text, []);
    if res.1 != [] then WriteRow(d, res.0, res.1) else res.0
  }

  /** The paragraphs the loop visits, in order. */
  function ParagraphTexts(d: DayOracles, text: string): (ps: seq<string>)
    requires ValidDay(d)
    ensures |ps| >= 1
    decreases |text|
  {
    var m := d.paragraph(text);
    if m.Some? then [text[..m.value.start]] + ParagraphTexts(d, text[m.value.end..]) else [text]
  }

  /** The cleaned reo sentences of a list of paragraphs, in order. */
  function DayReo(d: DayOracles, flag410: bool, ps: seq<string>): seq<string>
    requires ValidDay(d)
  {
    if ps == [] then [] else ReoSentences(d, Split(d, Body(d, flag410, ps[0]))) + DayReo(d, flag410, ps[1..])
  }

  /** Through the paragraph loop, the buffers handed to the validator
      followed by the buffer left open are the incoming buffer followed by the
      cleaned reo sentences of every paragraph body. */
  lemma {:induction false} LoopKeepsText(d: DayOracles, st: Parse, text: string, buffer: seq<string>)
    requires ValidDay(d)
    ensures var res := ParagraphLoop(d, st, text, buffer);
      Concat(res.0.validated[|st.validated|..]) + res.1 == buffer + DayReo(d, st.flag410, ParagraphTexts(d, text))
    decreases |text|
  {
    var m := d.paragraph(text);
    var p := if m.Some? then text[..m.value.start] else text;
    var res := ProcessParagraph(d, st, p, buffer);
    ParagraphKeepsText(d, st, p, buffer);
    var x := ReoSentences(d, Split(d, Body(d, st.flag410, p)));
    if m.Some? {
      var rest := text[m.value.end..];
      LoopKeepsText(d, res.0, rest, res.1);
      var res' := ParagraphLoop(d, res.0, rest, res.1);
      var y := DayReo(d, st.flag410, ParagraphTexts(d, rest));
      ChainText(st.validated, res.0.validated, res'.0.validated, buffer, res.1, res'.1, x, y);
      assert ParagraphTexts(d, text) == [p] + ParagraphTexts(d, rest);
      assert DayReo(d, st.flag410, ParagraphTexts(d, text)) == x + y;
    } else {
      assert ParagraphTexts(d, text) == [text];
      assert DayReo(d, st.flag410, [text]) == x + [];
    }
  }

  /** The end-of-day flush: the open buffer goes to the validator exactly
      when it holds text. */
  lemma EndOfDay(d: DayOracles, st: Parse, text: string)
    requires ValidDay(d)
    ensures var res := ParagraphLoop(d, st, text, []);
      var st' := ProcessParagraphs(d, st, text);
      && st'.validated == res.0.validated + (if res.1 != [] then [res.1] else [])
      && st'.totals == res.0.totals.Plus(SumContributions(d, st'.validated[|res.0.validated|..]))
      && st'.utterance == res.0.utterance
      && (st'.rows == res.0.rows
          || (res.1 != [] && |st'.rows| == |res.0.rows| + 1 && res.0.rows <= st'.rows
              && st'.rows[|res.0.rows|].utterance == res.0.utterance))
  {
    var res := ParagraphLoop(d, st, text, []);
    var st' := ProcessParagraphs(d, st, text);
    if res.1 != [] {
      WriteRowTotals(d, res.0, res.1);
    } else {
      PlusLaws(res.0.totals, NoCounts, NoCounts);
    }
    FlushSum(d, res.0.validated, st'.validated, res.1 != [], res.1);
  }

  /** Every cleaned reo sentence of the day reaches the validator exactly
      once and in order: concatenated, the buffers handed to it during the
      day, the end-of-day flush included, are exactly that text. */
  lemma DayKeepsText(d: DayOracles, st: Parse, text: string)
    requires ValidDay(d)
    ensures var st' := ProcessParagraphs(d, st, text);
      Concat(st'.validated[|st.validated|..]) == DayReo(d, st.flag410, ParagraphTexts(d, text))
  {
    var res := ParagraphLoop(d, st, text, []);
    var st' := ProcessParagraphs(d, st, text);
    var x := DayReo(d, st.flag410, ParagraphTexts(d, text));
    var v0, v1, v2 := st.validated, res.0.validated, st'.validated;
    assert Concat(v1[|v0|..]) + res.1 == [] + x by {
      LoopKeepsText(d, st, text, []);
    }
    assert v2 == v1 + (if res.1 != [] then [res.1] else []) by {
      EndOfDay(d, st, text);
    }
    FlushText(v1, v2, res.1);
    ChainText(v0, v1, v2, [], res.1, [], x, []);
    assert [] + (x + []) == x;
  }

  lemma FlushText(v: seq<seq<string>>, v': seq<seq<string>>, buffer: seq<string>)
    requires v' == v + (if buffer != [] then [buffer] else [])
    ensures Concat(v'[|v|..]) + [] == buffer + []
  {
    if buffer != [] {
      assert v'[|v|..] == [buffer];
      assert Concat([buffer]) == buffer + Concat([buffer][1..]);
    } else {
      assert v'[|v|..] == [];
    }
  }

  /** Utterance numbers keep increasing through the paragraph loop. */
  lemma {:induction false} LoopNumbered(d: DayOracles, st: Parse, text: string, buffer: seq<string>, from: nat, base: nat)
    requires ValidDay(d)
    requires Numbered(st.rows, from, base, st.utterance, buffer != [])
    ensures var res := ParagraphLoop(d, st, text, buffer);
      Numbered(res.0.rows, from, base, res.0.utterance, res.1 != [])
    decreases |text|
  {
    var m := d.paragraph(text);
    var p := if m.Some? then text[..m.value.start] else text;
    var res := ProcessParagraph(d, st, p, buffer);
    ParagraphNumbered(d, st, p, buffer, from, base);
    if m.Some? {
      LoopNumbered(d, res.0, text[m.value.end..], res.1, from, base);
    }
  }

  /** The rows written during a day have strictly increasing utterance
      numbers, all above the counter the day started from and at most the
      counter it ends with. */
  lemma DayNumbered(d: DayOracles, st: Parse, text: string)
    requires ValidDay(d)
    ensures var st' := ProcessParagraphs(d, st, text);
      Numbered(st'.rows, |st.rows|, st.utterance, st'.utterance, false)
  {
    var res := ParagraphLoop(d, st, text, []);
    LoopNumbered(d, st, text, [], |st.rows|, st.utterance);
    EndOfDay(d, st, text);
    var st' := ProcessParagraphs(d, st, text);
    NumberedFlush(res.0.rows, st'.rows, |st.rows|, st.utterance, res.0.utterance, res.1 != []);
  }
  /** What the entry adds to the totals: the validator's counts for a
      flushed buffer. */
  lemma EntryTotals(d: DayOracles, st: Parse, text: string, buffer: seq<string>)
    ensures var e := Entry(d, st, text, buffer);
      e.st.totals == st.totals.Plus(SumContributions(d, e.st.validated[|st.validated|..]))
  {
    var e := Entry(d, st, text, buffer);
    EntryFlushes(d, st, text, buffer);
    FlushSum(d, st.validated, e.st.validated, SpeakerFlush(d, st.flag410, text, buffer), buffer);
    PlusLaws(st.totals, NoCounts, NoCounts);
  }

  lemma ChainEntry(t0: Counts, t1: Counts, t2: Counts, f: Counts, s: Counts, g: Counts)
    requires t1 == t0.Plus(f)
    requires t2 == t1.Plus(s).Plus(g)
    ensures t2 == t0.Plus(s).Plus(f.Plus(g))
  {
    PlusLaws(t0, f, s);
  }

  /** A paragraph adds to the totals the counts of the long non-reo sentences
      of its body and the validator's counts for every buffer it flushed. */
  lemma ParagraphTotals(d: DayOracles, st: Parse, text: string, buffer: seq<string>)
    requires ValidDay(d)
    ensures var res := ProcessParagraph(d, st, text, buffer);
      res.0.totals == st.totals.Plus(SumSentenceCounts(d, Split(d, Body(d, st.flag410, text))))
                               .Plus(SumContributions(d, res.0.validated[|st.validated|..]))
  {
    var e := Entry(d, st, text, buffer);
    var body := Body(d, st.flag410, text);
    ParagraphByEntry(d, st, text, buffer);
    EntryTotals(d, st, text, buffer);
    EntryFlushes(d, st, text, buffer);
    TotalsConserved(d, e, body);
    var r := ProcessSentences(d, e, body);
    SumContributionsChain(d, st.validated, e.st.validated, r.st.validated);
    ChainEntry(st.totals, e.st.totals, r.st.totals, SumContributions(d, e.st.validated[|st.validated|..]),
               SumSentenceCounts(d, Split(d, body)), SumContributions(d, r.st.validated[|e.st.validated|..]));
  }

  /** The per-sentence counts of a list of paragraphs. */
  function DaySentenceCounts(d: DayOracles, flag410: bool, ps: seq<string>): Counts
    requires ValidDay(d)
  {
    if ps == [] then NoCounts
    else SumSentenceCounts(d, Split(d, Body(d, flag410, ps[0]))).Plus(DaySentenceCounts(d, flag410, ps[1..]))
  }

  lemma DaySentenceCountsCons(d: DayOracles, flag410: bool, p: string, ps: seq<string>)
    requires ValidDay(d)
    ensures DaySentenceCounts(d, flag410, [p] + ps)
         == SumSentenceCounts(d, Split(d, Body(d, flag410, p))).Plus(DaySentenceCounts(d, flag410, ps))
  {
    assert ([p] + ps)[0] == p && ([p] + ps)[1..] == ps;
  }


  lemma ChainDay(t0: Counts, t1: Counts, t2: Counts, f: Counts, x: Counts, y: Counts, g: Counts)
    requires t1 == t0.Plus(x).Plus(f)
    requires t2 == t1.Plus(y).Plus(g)
    ensures t2 == t0.Plus(x.Plus(y)).Plus(f.Plus(g))
  {
    PlusLaws(t0, x, f);
    ChainTotals(t0, t1, t2, f, x, y, g);
  }

  /** Through the paragraph loop the totals grow by the counts of the long
      non-reo sentences of every paragraph body and the validator's counts for
      every buffer handed to it. */
  lemma {:induction false} LoopTotals(d: DayOracles, st: Parse, text: string, buffer: seq<string>)
    requires ValidDay(d)
    ensures var res := ParagraphLoop(d, st, text, buffer);
      res.0.totals == st.totals.Plus(DaySentenceCounts(d, st.flag410, ParagraphTexts(d, text)))
                               .Plus(SumContributions(d, res.0.validated[|st.validated|..]))
    decreases |text|
  {
    var m := d.paragraph(text);
    var p := if m.Some? then text[..m.value.start] else text;
    var res := ProcessParagraph(d, st, p, buffer);
    ParagraphTotals(d, st, p, buffer);
    var x := SumSentenceCounts(d, Split(d, Body(d, st.flag410, p)));
    if m.Some? {
      var rest := text[m.value.end..];
      LoopTotals(d, res.0, rest, res.1);
      var res' := ParagraphLoop(d, res.0, rest, res.1);
      var y := DaySentenceCounts(d, st.flag410, ParagraphTexts(d, rest));
      var v0, v1, v2 := st.validated, res.0.validated, res'.0.validated;
      SumContributionsChain(d, v0, v1, v2);
      assert ParagraphTexts(d, text) == [p] + ParagraphTexts(d, rest);
      DaySentenceCountsCons(d, st.flag410, p, ParagraphTexts(d, rest));
      ChainDay(st.totals, res.0.totals, res'.0.totals, SumContributions(d, v1[|v0|..]), x, y,
               SumContributions(d, v2[|v1|..]));
    } else {
      assert ParagraphTexts(d, text) == [text] + [];
      DaySentenceCountsCons(d, st.flag410, text, []);
      PlusLaws(x, NoCounts, NoCounts);
    }
  }

  lemma ChainLast(t0: Counts, t1: Counts, t2: Counts, x: Counts, f: Counts, g: Counts)
    requires t1 == t0.Plus(x).Plus(f)
    requires t2 == t1.Plus(g)
    ensures t2 == t0.Plus(x).Plus(f.Plus(g))
  {
    PlusLaws(t0.Plus(x), f, g);
  }

  /** The day's totals grow by the counts of its long non-reo sentences and
      the validator's counts for every buffer handed to it, the end-of-day
      flush included. */
  lemma DayTotals(d: DayOracles, st: Parse, text: string)
    requires ValidDay(d)
    ensures var st' := ProcessParagraphs(d, st, text);
      st'.totals == st.totals.Plus(DaySentenceCounts(d, st.flag410, ParagraphTexts(d, text)))
                             .Plus(SumContributions(d, st'.validated[|st.validated|..]))
  {
    var res := ParagraphLoop(d, st, text, []);
    var st' := ProcessParagraphs(d, st, text);
    LoopTotals(d, st, text, []);
    EndOfDay(d, st, text);
    var v0, v1, v2 := st.validated, res.0.validated, st'.validated;
    SumContributionsChain(d, v0, v1, v2);
    ChainLast(st.totals, res.0.totals, st'.totals, DaySentenceCounts(d, st.flag410, ParagraphTexts(d, text)),
              SumContributions(d, v1[|v0|..]), SumContributions(d, v2[|v1|..]));
  }

  /** How many flushes a list of paragraphs can cause before the end of the
      day: one per named speaker match and one per non-reo sentence. */
  function FlushBudget(d: DayOracles, flag410: bool, ps: seq<string>): nat
    requires ValidDay(d)
  {
    if ps == [] then 0
    else (if Named(d, flag410, ps[0]).Some? then 1 else 0) + NonReoCount(d, Split(d, Body(d, flag410, ps[0])))
         + FlushBudget(d, flag410, ps[1..])
  }

  /** Within the paragraph loop, buffers reach the validator only at named
      speaker matches and at switches into a non-reo run, and none is empty. */
  lemma {:induction false} LoopFlushes(d: DayOracles, st: Parse, text: string, buffer: seq<string>)
    requires ValidDay(d)
    ensures var res := ParagraphLoop(d, st, text, buffer);
      && |res.0.validated| <= |st.validated| + FlushBudget(d, st.flag410, ParagraphTexts(d, text))
      && (forall i | |st.validated| <= i < |res.0.validated| :: res.0.validated[i] != [])
    decreases |text|
  {
    var m := d.paragraph(text);
    var p := if m.Some? then text[..m.value.start] else text;
    var res := ProcessParagraph(d, st, p, buffer);
    ParagraphFlushes(d, st, p, buffer);
    if m.Some? {
      var rest := text[m.value.end..];
      LoopFlushes(d, res.0, rest, res.1);
      assert ParagraphTexts(d, text) == [p] + ParagraphTexts(d, rest);
    } else {
      assert ParagraphTexts(d, text) == [text];
    }
  }

  /** Over a day, buffers reach the validator only at named speaker matches,
      at switches into a non-reo run, and once more at the end of the day;
      none is empty. */
  lemma DayFlushes(d: DayOracles, st: Parse, text: string)
    requires ValidDay(d)
    ensures var st' := ProcessParagraphs(d, st, text);
      && |st'.validated| <= |st.validated| + FlushBudget(d, st.flag410, ParagraphTexts(d, text)) + 1
      && (forall i | |st.validated| <= i < |st'.validated| :: st'.validated[i] != [])
  {
    LoopFlushes(d, st, text, []);
    EndOfDay(d, st, text);
  }

  /** The run a paragraph's sentences start in: an ongoing reo run when a
      buffer is carried in open and no named speaker match empties it, no run
      otherwise. */
  function ParagraphStart(d: DayOracles, flag410: bool, text: string, open: bool): Option<bool> {
    if Named(d, flag410, text).None? && open then Some(true) else None
  }

  /** The flushes a paragraph makes, counted from its sentence classes: one
      at a named speaker match that finds a buffer open, then one for every
      reo run a non-reo sentence of its body ends. */
  function ParagraphFlushCount(d: DayOracles, flag410: bool, text: string, open: bool): nat
    requires ValidDay(d)
  {
    (if Named(d, flag410, text).Some? && open then 1 else 0)
      + ReoEnds(ParagraphStart(d, flag410, text, open), Classes(d, Split(d, Body(d, flag410, text))))
  }

  /** Whether a paragraph leaves a buffer open: its last sentence is reo. */
  predicate EndsOpen(d: DayOracles, flag410: bool, text: string)
    requires ValidDay(d)
  {
    d.classify(LastSentence(d, Body(d, flag410, text))).isReo
  }

  /** A paragraph flushes exactly at a named speaker match that finds a buffer
      open and where a non-reo sentence ends a reo run, and nowhere else. */
  lemma ParagraphFlushCountExact(d: DayOracles, st: Parse, text: string, buffer: seq<string>)
    requires ValidDay(d)
    ensures var res := ProcessParagraph(d, st, text, buffer);
      && |res.0.validated| == |st.validated| + ParagraphFlushCount(d, st.flag410, text, buffer != [])
      && (res.1 != [] <==> EndsOpen(d, st.flag410, text))
  {
    var e := Entry(d, st, text, buffer);
    ParagraphByEntry(d, st, text, buffer);
    EntryFlushes(d, st, text, buffer);
    FlushCount(d, e, Body(d, st.flag410, text));
  }

  /** The flushes the paragraph loop makes, counted paragraph by paragraph;
      a paragraph break adds none, it only carries the open buffer on. */
  function LoopFlushCount(d: DayOracles, flag410: bool, ps: seq<string>, open: bool): nat
    requires ValidDay(d)
    decreases |ps|
  {
    if ps == [] then 0
    else ParagraphFlushCount(d, flag410, ps[0], open) + LoopFlushCount(d, flag410, ps[1..], EndsOpen(d, flag410, ps[0]))
  }

  /** Whether a buffer is still open after a list of paragraphs. */
  predicate LoopEndsOpen(d: DayOracles, flag410: bool, ps: seq<string>, open: bool)
    requires ValidDay(d)
    decreases |ps|
  {
    if ps == [] then open else LoopEndsOpen(d, flag410, ps[1..], EndsOpen(d, flag410, ps[0]))
  }

  /** The paragraph loop flushes exactly as often as its paragraphs do on
      their own: no flush happens at a paragraph break. */
  lemma {:induction false} LoopFlushCountExact(d: DayOracles, st: Parse, text: string, buffer: seq<string>)
    requires ValidDay(d)
    ensures var res := ParagraphLoop(d, st, text, buffer);
      && |res.0.validated| == |st.validated| + LoopFlushCount(d, st.flag410, ParagraphTexts(d, text), buffer != [])
      && (res.1 != [] <==> LoopEndsOpen(d, st.flag410, ParagraphTexts(d, text), buffer != []))
    decreases |text|
  {
    var m := d.paragraph(text);
    var p := if m.Some? then text[..m.value.start] else text;
    var res := ProcessParagraph(d, st, p, buffer);
    ParagraphFlushCountExact(d, st, p, buffer);
    if m.Some? {
      var rest := text[m.value.end..];
      LoopFlushCountExact(d, res.0, rest, res.1);
      assert ParagraphTexts(d, text) == [p] + ParagraphTexts(d, rest);
      assert ParagraphTexts(d, text)[1..] == ParagraphTexts(d, rest);
    } else {
      assert ParagraphTexts(d, text) == [text];
      assert ParagraphTexts(d, text)[1..] == [];
    }
  }

  /** Over a day, buffers reach the validator exactly at named speaker matches
      that find a buffer open, where a non-reo sentence ends a reo run, and
      once at the end of the day when the last sentence left a buffer open. */
  lemma DayFlushCountExact(d: DayOracles, st: Parse, text: string)
    requires ValidDay(d)
    ensures var st' := ProcessParagraphs(d, st, text);
      var ps := ParagraphTexts(d, text);
      |st'.validated|
        == |st.validated| + LoopFlushCount(d, st.flag410, ps, false) + (if LoopEndsOpen(d, st.flag410, ps, false) then 1 else 0)
  {
    LoopFlushCountExact(d, st, text, []);
    EndOfDay(d, st, text);
  }
}
