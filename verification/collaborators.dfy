/** The matchers and services the cleaner calls but does not define: the
    header, date, speaker, paragraph and sentence regexes, the line-noise
    substitutions, the first junk regex, and the language classifier and
    whitespace normaliser. Each is an uninterpreted function; the facts the
    cleaner relies on are collected in `Valid`. */
module Collaborators {
  import opened Options
  import opened PyText

  /** The start and end of a `re.search` match. */
  datatype Span = Span(start: nat, end: nat)

  /** Word counts by language class, the non-percentage part of the
      classifier's result. */
  datatype Counts = Counts(reo: nat, ambiguous: nat, other: nat) {

    function Plus(that: Counts): Counts {
      Counts(reo + that.reo, ambiguous + that.ambiguous, other + that.other)
    }

    function Total(): nat {
      reo + ambiguous + other
    }
  }

  const NoCounts := Counts(0, 0, 0)

  /** No counts is the unit of `Plus`, and `Plus` is associative and
      commutative. */
  lemma PlusLaws(a: Counts, b: Counts, c: Counts)
    ensures a.Plus(NoCounts) == a && NoCounts.Plus(a) == a
    ensures a.Plus(b).Plus(c) == a.Plus(b.Plus(c))
    ensures a.Plus(b).Plus(c) == a.Plus(c).Plus(b)
    ensures a.Plus(b).Total() == a.Total() + b.Total()
  {
  }

  /** The pair `kupu_ratios` returns: whether the text is reo, and its counts. */
  datatype Classification = Classification(isReo: bool, counts: Counts)

  /** A speaker match anchored at the start of a paragraph: the captured name
      (empty when the group is empty or missing) and the end of the match. */
  datatype SpeakerMatch = SpeakerMatch(name: string, end: nat)

  /** What is used while reading one day's text. The `bool` argument of
      `speaker` is the era flag that picks the pattern variant; `noise(k, t)`
      is the k-th line substitution of the day cleaner. */
  datatype DayOracles = DayOracles(
    hyphenJoin: string -> string,
    noise: (nat, string) -> string,
    paragraph: string -> Option<Span>,
    speaker: (bool, string) -> Option<SpeakerMatch>,
    sentence: string -> Option<Span>,
    classify: string -> Classification,
    cleanWhitespace: string -> string,
    badEgg: string -> Option<nat>)

  /** What is used while cutting pages into days: the header match anchored
      at the start (its end), the era-selected date search, and the day-level
      collaborators. */
  datatype Oracles = Oracles(
    header: string -> Option<nat>,
    date: (bool, string) -> Option<Span>,
    day: DayOracles)

  /** A match that was found lies inside the searched text and is not empty.
      The cleaner's loops resume after the end of each match, so an empty
      match would make them spin forever. */
  ghost predicate SpanIn(m: Option<Span>, t: string) {
    m.Some? ==> m.value.start < m.value.end <= |t|
  }

  ghost predicate ValidDay(d: DayOracles) {
    // a noise substitution only removes text that follows a newline
    && (forall k, t :: FirstLine(t) <= d.noise(k, t))
    && (forall k, t :: '\n' !in t ==> d.noise(k, t) == t)
    && (forall t :: SpanIn(d.paragraph(t), t))
    && (forall f, t :: d.speaker(f, t).Some? ==> d.speaker(f, t).value.end <= |t|)
    && (forall t :: SpanIn(d.sentence(t), t))
  }

  ghost predicate Valid(o: Oracles) {
    && (forall t :: o.header(t).Some? ==> o.header(t).value <= |t|)
    && (forall f, t :: SpanIn(o.date(f, t), t))
    && ValidDay(o.day)
  }
}
