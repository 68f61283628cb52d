/** The day segmenter `Volume.__process_page` and the page loop of
    `Volume.process_pages`: each kept page is cut at date headers; the text
    before a date closes the current day list, which is processed, and a new
    day begins under the date; the text after the last date is carried to the
    next page as the open day list. */
module Pages {
  import opened Options
  import opened PyText
  import opened Collaborators
  import opened ParseState
  import opened Days

  /** What a piece of page text adds to the open day list: nothing when it is
      empty, its stripped form otherwise. The test comes before the strip, so
      a whitespace-only piece adds an empty string. */
  function Pending(t: string): seq<string> {
    if t != [] then [Strip(t)] else []
  }

  /** A piece adds nothing exactly when it is empty, and a piece of nothing
      but whitespace adds one empty string. */
  lemma PendingPiece(t: string)
    ensures Pending(t) == [] <==> t == []
    ensures Pending(t) == [""] <==> t != [] && AllSpace(t)
  {
    StripEmptyIffAllSpace(t);
  }

  /** The header match is tried only before the first date of a page has
      been seen; on a match the text up to its end is cut off. */
  function HeaderCut(o: Oracles, looped: bool, t: string): string
    requires Valid(o)
  {
    if !looped && o.header(t).Some? then t[o.header(t).value..] else t
  }

  /** The state once a date header has been read: the day's date is the
      cleaned header text, the url and retrieval time those of the page, and
      utterance numbering starts again. */
  function NewDay(o: Oracles, st: Parse, page: Page, dateText: string): Parse
  {
    st.(date := Some(o.day.cleanWhitespace(dateText)), url := page.url, retrieved := page.retreived, utterance := 0)
  }

  /** `b` extends `a`, with at most one new day row per newly processed day
      list. */
  ghost predicate Grows(a: Parse, b: Parse) {
    Extends(a, b) && |b.days| + |a.processed| <= |a.days| + |b.processed|
  }

  lemma GrowsTrans(a: Parse, b: Parse, c: Parse)
    requires Grows(a, b) && Grows(b, c)
    ensures Grows(a, c)
  {
  }

  /** A date header closes the open day list: the list is processed, and a
      new day begins under the date. */
  function CloseDay(o: Oracles, st: Parse, page: Page, closed: seq<string>, dateText: string): (st': Parse)
    requires Valid(o)
    ensures Grows(st, st')
    ensures st'.processed == st.processed + [closed]
    ensures st'.date == Some(o.day.cleanWhitespace(dateText))
    ensures st'.url == page.url && st'.retrieved == page.retreived && st'.utterance == 0
  {
    NewDay(o, ProcessDay(o.day, st, closed), page, dateText)
  }

  /** One page, from the point where `text` remains to be read, with `day`
      the open day list; returns the state and the open day list. */
  function ProcessPage(o: Oracles, st: Parse, page: Page, text: string, day: seq<string>, looped: bool)
    : (res: (Parse, seq<string>))
    requires Valid(o)
    ensures Grows(st, res.0)
    decreases |text|
  {
    match o.date(st.flag294, text)
    case Some(m) =>
      var st1 := CloseDay(o, st, page, day + Pending(HeaderCut(o, looped, text[..m.start])), text[m.start..m.end]);
      var res := ProcessPage(o, st1, page, text[m.end..], [], true);
      GrowsTrans(st, st1, res.0);
      res
    case None =>
      (st, day + Pending(HeaderCut(o, looped, text)))
  }

  /** The pieces a page is cut into: the text before each date, then the
      text after the last one; the header is cut from the first piece only. */
  function Segments(o: Oracles, flag294: bool, text: string, looped: bool): (segs: seq<string>)
    requires Valid(o)
    ensures |segs| >= 1
    decreases |text|
  {
    match o.date(flag294, text)
    case Some(m) => [HeaderCut(o, looped, text[..m.start])] + Segments(o, flag294, text[m.end..], true)
    case None => [HeaderCut(o, looped, text)]
  }

  /** The date headers of a page, in order, as matched. */
  function Dates(o: Oracles, flag294: bool, text: string): seq<string>
    requires Valid(o)
    decreases |text|
  {
    match o.date(flag294, text)
    case Some(m) => [text[m.start..m.end]] + Dates(o, flag294, text[m.end..])
    case None => []
  }

  /** A page has one more piece than it has dates. */
  lemma {:induction false} SegmentsAndDates(o: Oracles, flag294: bool, text: string, looped: bool)
    requires Valid(o)
    ensures |Segments(o, flag294, text, looped)| == |Dates(o, flag294, text)| + 1
    decreases |text|
  {
    match o.date(flag294, text)
    case Some(m) => SegmentsAndDates(o, flag294, text[m.end..], true);
    case None =>
  }

  /** The day lists a run of pieces closes, and the one it leaves open: the
      first piece completes the incoming list, every later piece starts a
      list of its own, and every list but the last is closed by a date. */
  function Flow(day: seq<string>, segs: seq<string>): (r: (seq<seq<string>>, seq<string>))
    requires |segs| >= 1
    ensures |r.0| == |segs| - 1
    decreases |segs|
  {
    var first := day + Pending(segs[0]);
    if |segs| == 1 then ([], first)
    else
      var rest := Flow([], segs[1..]);
      ([first] + rest.0, rest.1)
  }

  /** Every closed list after the first is its piece alone. */
  /** Past the first, the closed lists are those of the remaining pieces. */
  lemma FlowShift(day: seq<string>, segs: seq<string>, i: nat)
    requires 1 <= i < |segs| - 1
    ensures Flow(day, segs).0[i] == Flow([], segs[1..]).0[i - 1]
  {
    var rest := Flow([], segs[1..]).0;
    assert Flow(day, segs).0 == [day + Pending(segs[0])] + rest;
    IndexAfterHead(day + Pending(segs[0]), rest, i);
  }

  /** Starting from an empty list, the first closed list is the first piece alone. */
  lemma FlowHead(segs: seq<string>)
    requires |segs| >= 2
    ensures Flow([], segs).0[0] == Pending(segs[0])
  {
    EmptyAppend(Pending(segs[0]));
  }

  lemma {:induction false} FlowClosedAt(day: seq<string>, segs: seq<string>, i: nat)
    requires 1 <= i < |segs| - 1
    ensures Flow(day, segs).0[i] == Pending(segs[i])
    decreases i
  {
    var tail := segs[1..];
    FlowShift(day, segs, i);
    assert tail[i - 1] == segs[i];
    if i == 1 {
      FlowHead(tail);
    } else {
      FlowClosedAt([], tail, i - 1);
    }
  }

  /** The open list is the last piece, or the completed incoming list when
      there is only one piece. */
  lemma {:induction false} FlowOpen(day: seq<string>, segs: seq<string>)
    requires |segs| >= 1
    ensures Flow(day, segs).1 == if |segs| == 1 then day + Pending(segs[0]) else Pending(segs[|segs| - 1])
    decreases |segs|
  {
    if |segs| > 1 {
      var tail := segs[1..];
      FlowOpen([], tail);
      assert tail[|tail| - 1] == segs[|segs| - 1];
      if |tail| == 1 {
        EmptyAppend(Pending(tail[0]));
      }
    }
  }

  /** The lists `Flow` closes and leaves open, piece by piece: the first
      closed list is the incoming list completed by the first piece, every
      later one is its piece alone, and the open list is the last piece (or
      the completed incoming list when there is only one piece). */
  lemma FlowLists(day: seq<string>, segs: seq<string>)
    requires |segs| >= 1
    ensures var r := Flow(day, segs);
      && (|segs| > 1 ==> r.0[0] == day + Pending(segs[0]))
      && (forall i | 1 <= i < |r.0| :: r.0[i] == Pending(segs[i]))
      && r.1 == if |segs| == 1 then day + Pending(segs[0]) else Pending(segs[|segs| - 1])
  {
    forall i | 1 <= i < |segs| - 1
      ensures Flow(day, segs).0[i] == Pending(segs[i])
    {
      FlowClosedAt(day, segs, i);
    }
    FlowOpen(day, segs);
  }

  /** One date match: the page goes on from after the match with the
      closed state and an empty day list. */
  lemma PageUnfold(o: Oracles, st: Parse, page: Page, text: string, day: seq<string>, looped: bool, m: Span)
    requires Valid(o) && o.date(st.flag294, text) == Some(m)
    ensures ProcessPage(o, st, page, text, day, looped)
      == ProcessPage(o, CloseDay(o, st, page, day + Pending(HeaderCut(o, looped, text[..m.start])), text[m.start..m.end]),
                     page, text[m.end..], [], true)
    ensures Segments(o, st.flag294, text, looped)
      == [HeaderCut(o, looped, text[..m.start])] + Segments(o, st.flag294, text[m.end..], true)
    ensures Dates(o, st.flag294, text) == [text[m.start..m.end]] + Dates(o, st.flag294, text[m.end..])
  {
  }

  /** Appending to the empty sequence. */
  lemma EmptyAppend<T>(a: seq<T>)
    ensures [] + a == a
  {
  }

  /** Indexing past a one-element prefix. */
  lemma IndexAfterHead<T>(x: T, s: seq<T>, i: nat)
    requires 1 <= i <= |s|
    ensures ([x] + s)[i] == s[i - 1]
  {
  }

  lemma AppendAssoc<T>(a: seq<T>, b: seq<T>, c: seq<T>)
    ensures a + b + c == a + (b + c)
  {
  }

  /** The flow of a piece followed by more pieces. */
  lemma FlowCons(day: seq<string>, s: string, rest: seq<string>)
    requires |rest| >= 1
    ensures Flow(day, [s] + rest) == ([day + Pending(s)] + Flow([], rest).0, Flow([], rest).1)
  {
    assert ([s] + rest)[0] == s && ([s] + rest)[1..] == rest;
  }

  /** Each date match processes the day list it closes exactly once, in page
      order, and starts a new empty list; the list left open after the last
      date holds the rest of the page. */
  lemma {:induction false} PageDayLists(o: Oracles, st: Parse, page: Page, text: string, day: seq<string>, looped: bool)
    requires Valid(o)
    ensures var res := ProcessPage(o, st, page, text, day, looped);
      var flow := Flow(day, Segments(o, st.flag294, text, looped));
      res.0.processed == st.processed + flow.0 && res.1 == flow.1
    decreases |text|
  {
    match o.date(st.flag294, text)
    case Some(m) =>
      var closed := day + Pending(HeaderCut(o, looped, text[..m.start]));
      var st2 := CloseDay(o, st, page, closed, text[m.start..m.end]);
      var rest := Segments(o, st.flag294, text[m.end..], true);
      var res2 := ProcessPage(o, st2, page, text[m.end..], [], true);
      var flow2 := Flow([], rest);
      assert res2.0.processed == st2.processed + flow2.0 && res2.1 == flow2.1 by {
        PageDayLists(o, st2, page, text[m.end..], [], true);
      }
      assert ProcessPage(o, st, page, text, day, looped) == res2
          && Segments(o, st.flag294, text, looped) == [HeaderCut(o, looped, text[..m.start])] + rest by {
        PageUnfold(o, st, page, text, day, looped, m);
      }
      assert Flow(day, [HeaderCut(o, looped, text[..m.start])] + rest) == ([closed] + flow2.0, flow2.1) by {
        FlowCons(day, HeaderCut(o, looped, text[..m.start]), rest);
      }
      AppendAssoc(st.processed, [closed], flow2.0);
    case None =>
  }

  /** After a page with dates, the day is that of the page's last date, its
      url and retrieval time are the page's, and the counter is 0; a page
      without dates leaves the state as it was and only extends the open day
      list. */
  lemma {:induction false} PageDate(o: Oracles, st: Parse, page: Page, text: string, day: seq<string>, looped: bool)
    requires Valid(o)
    ensures var res := ProcessPage(o, st, page, text, day, looped);
      var dates := Dates(o, st.flag294, text);
      && (dates == [] ==> res == (st, day + Pending(HeaderCut(o, looped, text))))
      && (dates != [] ==>
            && res.0.date == Some(o.day.cleanWhitespace(dates[|dates| - 1]))
            && res.0.url == page.url && res.0.retrieved == page.retreived && res.0.utterance == 0)
    decreases |text|
  {
    match o.date(st.flag294, text)
    case Some(m) =>
      var closed := day + Pending(HeaderCut(o, looped, text[..m.start]));
      var st2 := CloseDay(o, st, page, closed, text[m.start..m.end]);
      PageDate(o, st2, page, text[m.end..], [], true);
      PageUnfold(o, st, page, text, day, looped, m);
      var rest := Dates(o, st.flag294, text[m.end..]);
      if rest == [] {
        assert ProcessPage(o, st2, page, text[m.end..], [], true).0 == st2;
      }
    case None =>
  }

  /** The header matcher is consulted only for the first piece of a page:
      every later piece is the same whatever the header matcher answers. */
  lemma {:induction false} HeaderOnlyAtPageStart(o: Oracles, header: string -> Option<nat>, flag294: bool,
                                                 text: string, looped: bool)
    requires Valid(o) && Valid(o.(header := header))
    ensures Segments(o, flag294, text, looped)[1..] == Segments(o.(header := header), flag294, text, looped)[1..]
    decreases |text|
  {
    var o' := o.(header := header);
    match o.date(flag294, text)
    case Some(m) =>
      SegmentsLooped(o, header, flag294, text[m.end..]);
    case None =>
  }

  /** Once the first date of a page has been read, the header matcher plays
      no part. */
  lemma {:induction false} SegmentsLooped(o: Oracles, header: string -> Option<nat>, flag294: bool, text: string)
    requires Valid(o) && Valid(o.(header := header))
    ensures Segments(o, flag294, text, true) == Segments(o.(header := header), flag294, text, true)
    decreases |text|
  {
    match o.date(flag294, text)
    case Some(m) =>
      SegmentsLooped(o, header, flag294, text[m.end..]);
    case None =>
  }

  /** The page filter of `process_pages`: pages whose url ends in one of
      `c`, `l`, `x`, `v`, `i` (roman-numbered front matter), the page numbered
      "1", and pages with no ASCII letter are skipped. */
  predicate KeepPage(p: Page) {
    !(EndsWithAny(p.url, "clxvi") || p.page == "1") && HasAsciiLetter(p.text)
  }

  /** One iteration of the page loop: a kept page is read from its start
      with header stripping enabled; a skipped page changes nothing. */
  function PageStep(o: Oracles, acc: (Parse, seq<string>), p: Page): (r: (Parse, seq<string>))
    requires Valid(o)
    ensures Grows(acc.0, r.0)
  {
    if KeepPage(p) then ProcessPage(o, acc.0, p, p.text, acc.1, false) else acc
  }

  /** The page loop over the pages of a volume's dump, in order. */
  function ProcessPages(o: Oracles, acc: (Parse, seq<string>), pages: seq<Page>): (r: (Parse, seq<string>))
    requires Valid(o)
    ensures Grows(acc.0, r.0)
    decreases |pages|
  {
    if pages == [] then acc
    else
      var r1 := PageStep(o, acc, pages[0]);
      var r := ProcessPages(o, r1, pages[1..]);
      GrowsTrans(acc.0, r1.0, r.0);
      r
  }

  /** A volume: the page loop from the freshly constructed state and an empty
      day list. The day list still open after the last page is dropped. */
  function ProcessVolume(o: Oracles, v: VolumeRecord, pages: seq<Page>): (st: Parse)
    requires Valid(o)
    ensures (st.flag294, st.flag410) == EraFlags(v.name) && st.volume == v
    ensures |st.days| <= |st.processed|
  {
    ProcessPages(o, (Init(v), []), pages).0
  }

  /** The pages the filter keeps, in order. */
  function Kept(pages: seq<Page>): (kept: seq<Page>)
    ensures |kept| <= |pages|
  {
    if pages == [] then []
    else (if KeepPage(pages[0]) then [pages[0]] else []) + Kept(pages[1..])
  }

  /** The kept pages are exactly those the filter accepts: each passes it,
      and every page that passes it is kept. */
  lemma {:induction false} KeptExactly(pages: seq<Page>)
    ensures forall i | 0 <= i < |Kept(pages)| :: KeepPage(Kept(pages)[i])
    ensures forall i | 0 <= i < |pages| && KeepPage(pages[i]) :: pages[i] in Kept(pages)
    decreases |pages|
  {
    if pages != [] {
      KeptExactly(pages[1..]);
      assert forall i | 1 <= i < |pages| :: pages[1..][i - 1] == pages[i];
    }
  }

  /** Skipped pages play no part: the loop over all pages gives what the loop
      over the kept pages gives. */
  lemma {:induction false} OnlyKeptPagesMatter(o: Oracles, acc: (Parse, seq<string>), pages: seq<Page>)
    requires Valid(o)
    ensures ProcessPages(o, acc, pages) == ProcessPages(o, acc, Kept(pages))
    decreases |pages|
  {
    if pages != [] {
      OnlyKeptPagesMatter(o, PageStep(o, acc, pages[0]), pages[1..]);
      var k := Kept(pages);
      if KeepPage(pages[0]) {
        assert k[0] == pages[0] && k[1..] == Kept(pages[1..]);
      } else {
        assert k == Kept(pages[1..]);
      }
    }
  }

  /** The loop over `pages + [p]` is the loop over `pages` followed by one
      step on `p`. */
  lemma {:induction false} PagesAppend(o: Oracles, acc: (Parse, seq<string>), pages: seq<Page>, p: Page)
    requires Valid(o)
    ensures ProcessPages(o, acc, pages + [p]) == PageStep(o, ProcessPages(o, acc, pages), p)
    decreases |pages|
  {
    if pages == [] {
      assert [p][1..] == [];
    } else {
      assert (pages + [p])[0] == pages[0] && (pages + [p])[1..] == pages[1..] + [p];
      PagesAppend(o, PageStep(o, acc, pages[0]), pages[1..], p);
    }
  }

  /** The final day of a volume is never processed: a last page without a
      date only extends the open day list, which the volume then drops, so
      the outputs are those of the volume without that page. */
  lemma LastDayNeverProcessed(o: Oracles, v: VolumeRecord, pages: seq<Page>, p: Page)
    requires Valid(o)
    requires o.date(EraFlags(v.name).0, p.text).None?
    ensures ProcessVolume(o, v, pages + [p]) == ProcessVolume(o, v, pages)
  {
    PagesAppend(o, (Init(v), []), pages, p);
    var acc := ProcessPages(o, (Init(v), []), pages);
    assert acc.0.flag294 == EraFlags(v.name).0;
    if KeepPage(p) {
      PageDate(o, acc.0, p, p.text, acc.1, false);
    }
  }

  /** How many date headers the kept pages hold under one era flag. */
  function DateCount(o: Oracles, flag294: bool, pages: seq<Page>): nat
    requires Valid(o)
  {
    if pages == [] then 0
    else (if KeepPage(pages[0]) then |Dates(o, flag294, pages[0].text)| else 0) + DateCount(o, flag294, pages[1..])
  }

  /** Day lists are processed once per date header, never at the end: the
      processed log grows by exactly the number of date headers of the kept
      pages. */
  lemma {:induction false} ProcessedOncePerDate(o: Oracles, acc: (Parse, seq<string>), pages: seq<Page>)
    requires Valid(o)
    ensures |ProcessPages(o, acc, pages).0.processed| == |acc.0.processed| + DateCount(o, acc.0.flag294, pages)
    decreases |pages|
  {
    if pages != [] {
      var p := pages[0];
      var r1 := PageStep(o, acc, p);
      if KeepPage(p) {
        PageDayLists(o, acc.0, p, p.text, acc.1, false);
        SegmentsAndDates(o, acc.0.flag294, p.text, false);
      }
      ProcessedOncePerDate(o, r1, pages[1..]);
    }
  }

  /** Utterance numbering restarts with every date and is 0 whenever a page
      begins, since utterances are only counted while a day is processed. */
  lemma {:induction false} CounterZeroAtPageStart(o: Oracles, acc: (Parse, seq<string>), pages: seq<Page>)
    requires Valid(o)
    requires acc.0.utterance == 0
    ensures ProcessPages(o, acc, pages).0.utterance == 0
    decreases |pages|
  {
    if pages != [] {
      var p := pages[0];
      if KeepPage(p) {
        PageDate(o, acc.0, p, p.text, acc.1, false);
      }
      CounterZeroAtPageStart(o, PageStep(o, acc, p), pages[1..]);
    }
  }

  /** A volume writes at most one day row per date header of its kept pages. */
  lemma DayRowsPerDate(o: Oracles, v: VolumeRecord, pages: seq<Page>)
    requires Valid(o)
    ensures |ProcessVolume(o, v, pages).days| <= DateCount(o, EraFlags(v.name).0, pages)
  {
    ProcessedOncePerDate(o, (Init(v), []), pages);
  }

  /** The volume as evidently intended: the day list left open after the
      last page is processed as well, so the text after the last date header
      is read like every other day. */
  function ProcessVolumeComplete(o: Oracles, v: VolumeRecord, pages: seq<Page>): (st: Parse)
    requires Valid(o)
    ensures (st.flag294, st.flag410) == EraFlags(v.name) && st.volume == v
  {
    var r := ProcessPages(o, (Init(v), []), pages);
    ProcessDay(o.day, r.0, r.1)
  }

  /** With the final day processed, one day list more than there are date
      headers reaches the day processor, the last of them the list left open
      after the last page; the outputs extend those of the volume as written. */
  lemma EveryDayProcessed(o: Oracles, v: VolumeRecord, pages: seq<Page>)
    requires Valid(o)
    ensures var st := ProcessVolumeComplete(o, v, pages);
      var r := ProcessPages(o, (Init(v), []), pages);
      && |st.processed| == DateCount(o, EraFlags(v.name).0, pages) + 1
      && st.processed[|st.processed| - 1] == r.1
      && Extends(ProcessVolume(o, v, pages), st)
  {
    ProcessedOncePerDate(o, (Init(v), []), pages);
  }

  /** Under the completed volume a last page without date headers is no
      longer lost: its text reaches the day processor. */
  lemma LastPageReachesDayProcessor(o: Oracles, v: VolumeRecord, pages: seq<Page>, p: Page)
    requires Valid(o)
    requires KeepPage(p) && o.date(EraFlags(v.name).0, p.text).None?
    ensures var st := ProcessVolumeComplete(o, v, pages + [p]);
      var acc := ProcessPages(o, (Init(v), []), pages);
      st.processed[|st.processed| - 1] == acc.1 + Pending(HeaderCut(o, false, p.text))
  {
    PagesAppend(o, (Init(v), []), pages, p);
    var acc := ProcessPages(o, (Init(v), []), pages);
    assert acc.0.flag294 == EraFlags(v.name).0;
    PageDate(o, acc.0, p, p.text, acc.1, false);
  }
}
