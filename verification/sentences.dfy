/** The sentence accumulator `Volume.__process_sentences`: a two-flag run
    machine that gathers consecutive reo sentences into an utterance buffer
    and flushes the buffer to the validator when a non-reo run begins. */
module Sentences {
  import opened Options
  import opened PyText
  import opened Collaborators
  import opened ParseState
  import opened Validator

  /** The accumulator: the parse state, the utterance buffer and the two run
      flags `consecutive['reo']` and `consecutive['other']`. */
  datatype Run = Run(st: Parse, buffer: seq<string>, reo: bool, other: bool)

  /** The flags are never both set, and the reo flag is set exactly when the
      buffer holds text. */
  predicate Consistent(r: Run) {
    !(r.reo && r.other) && (r.reo <==> r.buffer != [])
  }

  /** The run the loop starts from when handed `buffer`: an open buffer counts
      as an ongoing reo run. */
  function Start(st: Parse, buffer: seq<string>): (r: Run)
    ensures Consistent(r)
  {
    Run(st, buffer, buffer != [], false)
  }

  /** The class of the run in progress, if any. */
  function Current(r: Run): Option<bool> {
    if r.reo then Some(true) else if r.other then Some(false) else None
  }

  /** The cleaned sentence, when the classifier calls it reo. */
  function ReoText(d: DayOracles, sentence: string): seq<string> {
    if d.classify(sentence).isReo then [d.cleanWhitespace(sentence)] else []
  }

  /** The counts a sentence adds to the totals by itself: only a non-reo
      sentence longer than five characters adds any. */
  function SentenceCounts(d: DayOracles, sentence: string): Counts {
    var c := d.classify(sentence);
    if !c.isReo && |sentence| > 5 then c.counts else NoCounts
  }

  /** Closes the current run when a non-reo sentence arrives outside a
      non-reo run: the buffer, if it holds text, goes to the validator, and a
      non-reo run begins under the next utterance number. */
  function Close(d: DayOracles, r: Run): (r': Run)
    ensures SameDay(r.st, r'.st) && r'.st.speaker == r.st.speaker
    ensures RowsOfDay(r'.st.rows, |r.st.rows|, r.st)
    ensures forall i | |r.st.rows| <= i < |r'.st.rows| :: r'.st.rows[i].speaker == r.st.speaker
    ensures r'.buffer == [] && r'.other && !r'.reo
  {
    var st1 := if r.buffer != [] then WriteRow(d, r.st, r.buffer) else r.st;
    Run(st1.(utterance := st1.utterance + 1), [], false, true)
  }

  /** One pass of the loop body for one sentence. */
  function Step(d: DayOracles, r: Run, sentence: string): (r': Run)
    ensures SameDay(r.st, r'.st) && r'.st.speaker == r.st.speaker
    ensures RowsOfDay(r'.st.rows, |r.st.rows|, r.st)
    ensures forall i | |r.st.rows| <= i < |r'.st.rows| :: r'.st.rows[i].speaker == r.st.speaker
  {
    var c := d.classify(sentence);
    if c.isReo then
      var s := d.cleanWhitespace(sentence);
      if r.reo then
        r.(buffer := r.buffer + [s])
      else
        Run(r.st.(utterance := r.st.utterance + 1), [s], true, false)
    else
      var r1 := if !r.other then Close(d, r) else r;
      if |sentence| > 5 then r1.(st := r1.st.(totals := r1.st.totals.Plus(c.counts))) else r1
  }

  /** The accumulator invariant survives a step, and afterwards the run in
      progress has the class of the sentence just read. */
  lemma StepConsistent(d: DayOracles, r: Run, sentence: string)
    requires Consistent(r)
    ensures Consistent(Step(d, r, sentence))
    ensures Current(Step(d, r, sentence)) == Some(d.classify(sentence).isReo)
  {
  }

  /** Whether a step on `sentence` flushes the buffer: only a non-reo
      sentence that ends a reo run does. */
  predicate Flushes(d: DayOracles, r: Run, sentence: string) {
    !d.classify(sentence).isReo && !r.other && r.buffer != []
  }

  /** A step hands the buffer to the validator exactly when it flushes. */
  lemma StepFlushes(d: DayOracles, r: Run, sentence: string)
    ensures Step(d, r, sentence).st.validated == r.st.validated + (if Flushes(d, r, sentence) then [r.buffer] else [])
  {
  }

  /** A step loses no text: replacing the buffer by a fresh one happens only
      when the buffer is empty or has just been flushed. */
  lemma StepKeepsText(d: DayOracles, r: Run, sentence: string)
    requires Consistent(r)
    ensures var r' := Step(d, r, sentence);
      Concat(r'.st.validated[|r.st.validated|..]) + r'.buffer == r.buffer + ReoText(d, sentence)
  {
    var r' := Step(d, r, sentence);
    StepFlushes(d, r, sentence);
    var flushed := r'.st.validated[|r.st.validated|..];
    if Flushes(d, r, sentence) {
      assert flushed == [r.buffer];
      assert Concat(flushed) == r.buffer + Concat(flushed[1..]);
    } else {
      assert flushed == [];
    }
  }

  /** A step advances the utterance counter exactly when the sentence's class
      differs from the run in progress. */
  lemma StepCounter(d: DayOracles, r: Run, sentence: string)
    requires Consistent(r)
    ensures Step(d, r, sentence).st.utterance
         == r.st.utterance + (if Current(r) == Some(d.classify(sentence).isReo) then 0 else 1)
  {
  }

  /** The counts the validator adds during a step. */
  function FlushCounts(d: DayOracles, r: Run, sentence: string): Counts {
    if Flushes(d, r, sentence) then Contribution(d, r.buffer) else NoCounts
  }

  lemma StepTotalsReo(d: DayOracles, r: Run, sentence: string)
    requires d.classify(sentence).isReo
    ensures Step(d, r, sentence).st.totals == r.st.totals
  {
  }

  lemma StepTotalsOther(d: DayOracles, r: Run, sentence: string)
    requires !d.classify(sentence).isReo
    ensures Step(d, r, sentence).st.totals
         == (if r.other then r.st.totals else Close(d, r).st.totals).Plus(SentenceCounts(d, sentence))
  {
  }

  lemma CloseTotals(d: DayOracles, r: Run)
    ensures Close(d, r).st.totals == r.st.totals.Plus(if r.buffer != [] then Contribution(d, r.buffer) else NoCounts)
  {
  }

  lemma CountsStep(d: DayOracles, r: Run, sentence: string, t: Counts, u: Counts, x: Counts)
    requires !d.classify(sentence).isReo
    requires u == (if r.other then t else x).Plus(SentenceCounts(d, sentence))
    requires x == t.Plus(if r.buffer != [] then Contribution(d, r.buffer) else NoCounts)
    ensures u == t.Plus(FlushCounts(d, r, sentence)).Plus(SentenceCounts(d, sentence))
  {
    PlusLaws(t, NoCounts, NoCounts);
  }

  /** A step adds what the validator added for a flushed buffer, then the
      sentence's own counts. */
  lemma StepTotals(d: DayOracles, r: Run, sentence: string)
    ensures Step(d, r, sentence).st.totals
         == r.st.totals.Plus(FlushCounts(d, r, sentence)).Plus(SentenceCounts(d, sentence))
  {
    if d.classify(sentence).isReo {
      StepTotalsReo(d, r, sentence);
      assert FlushCounts(d, r, sentence) == NoCounts && SentenceCounts(d, sentence) == NoCounts;
      PlusLaws(r.st.totals, NoCounts, NoCounts);
      PlusLaws(r.st.totals.Plus(NoCounts), NoCounts, NoCounts);
    } else {
      StepTotalsOther(d, r, sentence);
      CloseTotals(d, r);
      CountsStep(d, r, sentence, r.st.totals, Step(d, r, sentence).st.totals, Close(d, r).st.totals);
    }
  }

  /** The sentence loop: cut off the next sentence (up to and including the
      first character of the boundary match), step, and go on after the
      boundary; the text after the last boundary is the last sentence. */
  function ProcessSentences(d: DayOracles, r: Run, text: string): (r': Run)
    requires ValidDay(d)
    ensures SameDay(r.st, r'.st) && r'.st.speaker == r.st.speaker
    ensures RowsOfDay(r'.st.rows, |r.st.rows|, r.st)
    ensures forall i | |r.st.rows| <= i < |r'.st.rows| :: r'.st.rows[i].speaker == r.st.speaker
    decreases |text|
  {
    var m := d.sentence(text);
    if m.Some? then
      ProcessSentences(d, Step(d, r, text[..m.value.start + 1]), text[m.value.end..])
    else
      Step(d, r, text)
  }

  /** The sentences the loop visits, in order. */
  function Split(d: DayOracles, text: string): (sentences: seq<string>)
    requires ValidDay(d)
    ensures |sentences| >= 1
    decreases |text|
  {
    var m := d.sentence(text);
    if m.Some? then [text[..m.value.start + 1]] + Split(d, text[m.value.end..]) else [text]
  }

  /** The cleaned reo sentences of a list, in order. */
  function ReoSentences(d: DayOracles, sentences: seq<string>): seq<string> {
    if sentences == [] then [] else ReoText(d, sentences[0]) + ReoSentences(d, sentences[1..])
  }

  /** The classes of a list of sentences, in order. */
  function Classes(d: DayOracles, sentences: seq<string>): seq<bool> {
    if sentences == [] then [] else [d.classify(sentences[0]).isReo] + Classes(d, sentences[1..])
  }

  /** How many times a class differs from the one before it, the first class
      being compared with `previous`. */
  function RunStarts(previous: Option<bool>, classes: seq<bool>): nat
    decreases |classes|
  {
    if classes == [] then 0
    else (if previous == Some(classes[0]) then 0 else 1) + RunStarts(Some(classes[0]), classes[1..])
  }

  function NonReoCount(d: DayOracles, sentences: seq<string>): nat {
    if sentences == [] then 0
    else (if d.classify(sentences[0]).isReo then 0 else 1) + NonReoCount(d, sentences[1..])
  }

  function SumSentenceCounts(d: DayOracles, sentences: seq<string>): Counts {
    if sentences == [] then NoCounts
    else SentenceCounts(d, sentences[0]).Plus(SumSentenceCounts(d, sentences[1..]))
  }

  /** The counts the validator adds for a list of flushed buffers. */
  function SumContributions(d: DayOracles, buffers: seq<seq<string>>): Counts {
    if buffers == [] then NoCounts
    else Contribution(d, buffers[0]).Plus(SumContributions(d, buffers[1..]))
  }

  lemma {:induction false} SumContributionsAppend(d: DayOracles, a: seq<seq<string>>, b: seq<seq<string>>)
    ensures SumContributions(d, a + b) == SumContributions(d, a).Plus(SumContributions(d, b))
  {
    if a == [] {
      assert a + b == b;
    } else {
      assert (a + b)[0] == a[0] && (a + b)[1..] == a[1..] + b;
      SumContributionsAppend(d, a[1..], b);
    }
  }

  lemma AppendChain(ca: seq<string>, cb: seq<string>, b0: seq<string>, b1: seq<string>, b2: seq<string>,
                    x: seq<string>, y: seq<string>)
    requires ca + b1 == b0 + x
    requires cb + b2 == b1 + y
    ensures (ca + cb) + b2 == b0 + (x + y)
  {
    calc {
      (ca + cb) + b2;
      ca + (cb + b2);
      ca + (b1 + y);
      (ca + b1) + y;
      (b0 + x) + y;
      b0 + (x + y);
    }
  }

  lemma ChainText(v0: seq<seq<string>>, v1: seq<seq<string>>, v2: seq<seq<string>>,
                   b0: seq<string>, b1: seq<string>, b2: seq<string>, x: seq<string>, y: seq<string>)
    requires v0 <= v1 && v1 <= v2
    requires Concat(v1[|v0|..]) + b1 == b0 + x
    requires Concat(v2[|v1|..]) + b2 == b1 + y
    ensures Concat(v2[|v0|..]) + b2 == b0 + (x + y)
  {
    var a, b := v1[|v0|..], v2[|v1|..];
    assert v2[|v0|..] == a + b;
    ConcatAppend(a, b);
    AppendChain(Concat(a), Concat(b), b0, b1, b2, x, y);
  }

  /** No buffered text is lost: the buffers flushed while reading `text`,
      followed by the buffer handed back, are the incoming buffer followed by
      the text's cleaned reo sentences. */
  lemma {:induction false} NoTextLost(d: DayOracles, r: Run, text: string)
    requires ValidDay(d) && Consistent(r)
    ensures var r' := ProcessSentences(d, r, text);
      Concat(r'.st.validated[|r.st.validated|..]) + r'.buffer == r.buffer + ReoSentences(d, Split(d, text))
    decreases |text|
  {
    var m := d.sentence(text);
    if m.Some? {
      var s := text[..m.value.start + 1];
      var rest := text[m.value.end..];
      var r1 := Step(d, r, s);
      StepConsistent(d, r, s);
      StepKeepsText(d, r, s);
      NoTextLost(d, r1, rest);
      var r' := ProcessSentences(d, r1, rest);
      ChainText(r.st.validated, r1.st.validated, r'.st.validated, r.buffer, r1.buffer, r'.buffer,
                ReoText(d, s), ReoSentences(d, Split(d, rest)));
      assert Split(d, text) == [s] + Split(d, rest);
      assert ReoSentences(d, Split(d, text)) == ReoText(d, s) + ReoSentences(d, Split(d, rest));
    } else {
      StepKeepsText(d, r, text);
      assert Split(d, text) == [text];
      assert ReoSentences(d, Split(d, text)) == ReoText(d, text) + [];
    }
  }

  /** The utterance counter rises by one for every run that begins: every
      sentence whose class differs from the class before it. */
  lemma {:induction false} CounterCountsRuns(d: DayOracles, r: Run, text: string)
    requires ValidDay(d) && Consistent(r)
    ensures ProcessSentences(d, r, text).st.utterance
         == r.st.utterance + RunStarts(Current(r), Classes(d, Split(d, text)))
    decreases |text|
  {
    var m := d.sentence(text);
    if m.Some? {
      var s := text[..m.value.start + 1];
      var rest := text[m.value.end..];
      StepConsistent(d, r, s);
      StepCounter(d, r, s);
      CounterCountsRuns(d, Step(d, r, s), rest);
      assert Split(d, text)[1..] == Split(d, rest);
    } else {
      StepCounter(d, r, text);
    }
  }

  /** A bound on the flushes: there are never more of them than non-reo
      sentences, and no flushed buffer is empty; `FlushCount` gives the
      exact count. */
  lemma {:induction false} FlushesOnlyOnOtherRuns(d: DayOracles, r: Run, text: string)
    requires ValidDay(d)
    ensures var r' := ProcessSentences(d, r, text);
      && |r'.st.validated| <= |r.st.validated| + NonReoCount(d, Split(d, text))
      && (forall i | |r.st.validated| <= i < |r'.st.validated| :: r'.st.validated[i] != [])
    decreases |text|
  {
    var m := d.sentence(text);
    if m.Some? {
      var s := text[..m.value.start + 1];
      var rest := text[m.value.end..];
      StepFlushes(d, r, s);
      FlushesOnlyOnOtherRuns(d, Step(d, r, s), rest);
      assert Split(d, text)[1..] == Split(d, rest);
    } else {
      StepFlushes(d, r, text);
    }
  }

  /** How many reo runs a list of classes ends: the non-reo classes whose
      predecessor, the first being compared with `previous`, is reo. */
  function ReoEnds(previous: Option<bool>, classes: seq<bool>): nat
    decreases |classes|
  {
    if classes == [] then 0
    else (if previous == Some(true) && !classes[0] then 1 else 0) + ReoEnds(Some(classes[0]), classes[1..])
  }

  /** In a consistent run a sentence flushes exactly when it is non-reo and
      ends a reo run. */
  lemma FlushesWhenReoEnds(d: DayOracles, r: Run, sentence: string)
    requires Consistent(r)
    ensures Flushes(d, r, sentence) <==> Current(r) == Some(true) && !d.classify(sentence).isReo
  {
  }

  /** The last sentence the loop reads. */
  function LastSentence(d: DayOracles, text: string): string
    requires ValidDay(d)
  {
    var sentences := Split(d, text);
    sentences[|sentences| - 1]
  }

  /** The loop flushes exactly once for every reo run that a non-reo sentence
      ends, and at no other point; it hands back an open buffer exactly when
      the last sentence is reo. */
  lemma {:induction false} FlushCount(d: DayOracles, r: Run, text: string)
    requires ValidDay(d) && Consistent(r)
    ensures var r' := ProcessSentences(d, r, text);
      && |r'.st.validated| == |r.st.validated| + ReoEnds(Current(r), Classes(d, Split(d, text)))
      && (r'.buffer != [] <==> d.classify(LastSentence(d, text)).isReo)
    decreases |text|
  {
    var m := d.sentence(text);
    var s := if m.Some? then text[..m.value.start + 1] else text;
    StepFlushes(d, r, s);
    FlushesWhenReoEnds(d, r, s);
    StepConsistent(d, r, s);
    if m.Some? {
      var rest := text[m.value.end..];
      FlushCount(d, Step(d, r, s), rest);
      assert Split(d, text) == [s] + Split(d, rest);
      assert Classes(d, Split(d, text))[1..] == Classes(d, Split(d, rest));
    } else {
      assert Split(d, text) == [text];
      assert Classes(d, Split(d, text))[1..] == [];
    }
  }

  /** The accumulator invariant holds after the sentence loop. */
  lemma {:induction false} SentencesConsistent(d: DayOracles, r: Run, text: string)
    requires ValidDay(d) && Consistent(r)
    ensures Consistent(ProcessSentences(d, r, text))
    decreases |text|
  {
    var m := d.sentence(text);
    if m.Some? {
      var s := text[..m.value.start + 1];
      StepConsistent(d, r, s);
      SentencesConsistent(d, Step(d, r, s), text[m.value.end..]);
    } else {
      StepConsistent(d, r, text);
    }
  }

  lemma ChainTotals(t0: Counts, t1: Counts, t2: Counts, f: Counts, x: Counts, y: Counts, g: Counts)
    requires t1 == t0.Plus(f).Plus(x)
    requires t2 == t1.Plus(y).Plus(g)
    ensures t2 == t0.Plus(x.Plus(y)).Plus(f.Plus(g))
  {
  }

  lemma SumContributionsChain(d: DayOracles, v0: seq<seq<string>>, v1: seq<seq<string>>, v2: seq<seq<string>>)
    requires v0 <= v1 && v1 <= v2
    ensures SumContributions(d, v2[|v0|..]) == SumContributions(d, v1[|v0|..]).Plus(SumContributions(d, v2[|v1|..]))
  {
    assert v2[|v0|..] == v1[|v0|..] + v2[|v1|..];
    SumContributionsAppend(d, v1[|v0|..], v2[|v1|..]);
  }

  lemma SumContributionsOne(d: DayOracles, buffer: seq<string>)
    ensures SumContributions(d, [buffer]) == Contribution(d, buffer)
  {
    assert [buffer][1..] == [];
    PlusLaws(Contribution(d, buffer), NoCounts, NoCounts);
  }

  lemma FlushSum(d: DayOracles, v: seq<seq<string>>, v': seq<seq<string>>, flushed: bool, buffer: seq<string>)
    requires v' == v + (if flushed then [buffer] else [])
    ensures SumContributions(d, v'[|v|..]) == if flushed then Contribution(d, buffer) else NoCounts
  {
    if flushed {
      assert v'[|v|..] == [buffer];
      SumContributionsOne(d, buffer);
    } else {
      assert v'[|v|..] == [];
    }
  }

  /** A step's totals, stated through the buffers it handed to the validator. */
  lemma StepContributions(d: DayOracles, r: Run, sentence: string)
    ensures var r' := Step(d, r, sentence);
      r'.st.totals == r.st.totals.Plus(SumContributions(d, r'.st.validated[|r.st.validated|..]))
                                 .Plus(SentenceCounts(d, sentence))
  {
    var r' := Step(d, r, sentence);
    StepTotals(d, r, sentence);
    StepFlushes(d, r, sentence);
    FlushSum(d, r.st.validated, r'.st.validated, Flushes(d, r, sentence), r.buffer);
  }

  /** The sentence counts of a text: those of its first sentence plus those
      of the rest after the boundary. */
  lemma SplitSentenceCounts(d: DayOracles, text: string)
    requires ValidDay(d)
    ensures var m := d.sentence(text);
      SumSentenceCounts(d, Split(d, text))
        == if m.Some? then SentenceCounts(d, text[..m.value.start + 1]).Plus(SumSentenceCounts(d, Split(d, text[m.value.end..])))
           else SentenceCounts(d, text)
  {
    var m := d.sentence(text);
    var sp := Split(d, text);
    assert sp[1..] == if m.Some? then Split(d, text[m.value.end..]) else [];
    assert SumSentenceCounts(d, sp) == SentenceCounts(d, sp[0]).Plus(SumSentenceCounts(d, sp[1..]));
    PlusLaws(SentenceCounts(d, text), NoCounts, NoCounts);
  }

  /** Conservation of counts: the totals grow by the counts of the long
      non-reo sentences plus what the validator added for each flushed
      buffer. */
  lemma {:induction false} TotalsConserved(d: DayOracles, r: Run, text: string)
    requires ValidDay(d)
    ensures var r' := ProcessSentences(d, r, text);
      r'.st.totals == r.st.totals.Plus(SumSentenceCounts(d, Split(d, text)))
                                 .Plus(SumContributions(d, r'.st.validated[|r.st.validated|..]))
    decreases |text|
  {
    var m := d.sentence(text);
    if m.Some? {
      var s := text[..m.value.start + 1];
      var rest := text[m.value.end..];
      var r1 := Step(d, r, s);
      StepContributions(d, r, s);
      TotalsConserved(d, r1, rest);
      var r' := ProcessSentences(d, r1, rest);
      var v0, v1, v2 := r.st.validated, r1.st.validated, r'.st.validated;
      SumContributionsChain(d, v0, v1, v2);
      SplitSentenceCounts(d, text);
      ChainTotals(r.st.totals, r1.st.totals, r'.st.totals, SumContributions(d, v1[|v0|..]), SentenceCounts(d, s),
                  SumSentenceCounts(d, Split(d, rest)), SumContributions(d, v2[|v1|..]));
    } else {
      StepContributions(d, r, text);
      SplitSentenceCounts(d, text);
      var r' := Step(d, r, text);
      PlusLaws(r.st.totals, SumContributions(d, r'.st.validated[|r.st.validated|..]), SentenceCounts(d, text));
    }
  }

  /** Closing a run writes at most one row, numbered with the current
      counter, and only when the buffer holds text; then the counter moves on. */
  lemma CloseRows(d: DayOracles, r: Run)
    ensures var r' := Close(d, r);
      && r'.st.utterance == r.st.utterance + 1
      && (r'.st.rows == r.st.rows
          || (r.buffer != [] && |r'.st.rows| == |r.st.rows| + 1 && r.st.rows <= r'.st.rows
              && r'.st.rows[|r.st.rows|].utterance == r.st.utterance))
  {
  }

  /** Utterance numbers stay strictly increasing across one sentence step. */
  lemma StepNumbered(d: DayOracles, r: Run, sentence: string, from: nat, base: nat)
    requires Consistent(r)
    requires Numbered(r.st.rows, from, base, r.st.utterance, r.buffer != [])
    ensures var r' := Step(d, r, sentence);
      Numbered(r'.st.rows, from, base, r'.st.utterance, r'.buffer != [])
  {
    var c := d.classify(sentence);
    var r' := Step(d, r, sentence);
    var rows, counter := r.st.rows, r.st.utterance;
    if c.isReo {
      if r.reo {
        assert r'.st.rows == rows && r'.st.utterance == counter && r'.buffer != [];
      } else {
        assert r'.st.rows == rows && r'.st.utterance == counter + 1 && r'.buffer != [];
        NumberedOpen(rows, from, base, counter);
      }
    } else if r.other {
      assert r'.st.rows == rows && r'.st.utterance == counter && r'.buffer == [];
    } else {
      var r1 := Close(d, r);
      CloseRows(d, r);
      assert r'.st.rows == r1.st.rows && r'.st.utterance == r1.st.utterance && r'.buffer == [];
      NumberedClose(rows, r1.st.rows, from, base, counter, r.buffer != []);
    }
  }

  /** Utterance numbers stay strictly increasing through the sentence loop. */
  lemma {:induction false} SentencesNumbered(d: DayOracles, r: Run, text: string, from: nat, base: nat)
    requires ValidDay(d) && Consistent(r)
    requires Numbered(r.st.rows, from, base, r.st.utterance, r.buffer != [])
    ensures var r' := ProcessSentences(d, r, text);
      Numbered(r'.st.rows, from, base, r'.st.utterance, r'.buffer != [])
    decreases |text|
  {
    var m := d.sentence(text);
    if m.Some? {
      var s := text[..m.value.start + 1];
      StepNumbered(d, r, s, from, base);
      StepConsistent(d, r, s);
      SentencesNumbered(d, Step(d, r, s), text[m.value.end..], from, base);
    } else {
      StepNumbered(d, r, text, from, base);
    }
  }
}
