# Hansard volume cleaner: the parsing state machine

This project models, in Dafny, the `Volume` class of
`nga_tautohetohe_hansard/historicaltext_cleaner.py`. It is the state machine that
turns the OCR page texts of one volume of the New Zealand parliamentary
debates into day segments, paragraphs and sentence runs. From those it picks
out the utterances in te reo Māori and writes them as rows, and it writes one
statistics row per day with enough words.

The model is functional. An immutable `Parse` record is threaded through pure
step functions. It holds:

- the volume and its two era flags;
- the current date, url and retrieval time;
- the utterance counter, the speaker and the day's word totals;
- four append-only logs.

The logs are:

- `rows`: the utterance rows written;
- `days`: the day rows written;
- `validated`: every utterance buffer handed to the validator, whether it wrote a row or not;
- `processed`: every day list handed to the day processor.

The last two are bookkeeping that the program does not keep. They make
"no buffered text is lost" and "each day list is processed once" statable.

The matchers and services the cleaner calls but does not define are
uninterpreted functions collected in `Collaborators.Oracles`. They are:

- the header, date, speaker, paragraph and sentence regexes;
- the hyphen-join and noise-line substitutions;
- the first junk regex;
- the language classifier `kupu_ratios`;
- `clean_whitespace`.

`Valid` records the only facts the cleaner relies on:

- every match lies inside the searched text;
- date, paragraph and sentence matches are non-empty;
- a noise substitution removes only text that follows a newline.

The second junk regex is simple enough to be defined concretely
(`Validator.ShortTokenRun`). `str.strip` is defined with Python's exact
whitespace set.

Modules, in program order:

- `PyText`: the Python string operations used;
- `Collaborators`: the oracles;
- `ParseState`: the record, era flags and construction;
- `Validator`: `__write_row`;
- `Sentences`: `__process_sentences`;
- `Paragraphs`: `__process_paragraph` and `__process_paragraphs`;
- `Days`: `__process_day`;
- `Pages`: `__process_page` and the page loop of `process_pages`.

Where the code differs from what a quick reading suggests, the model follows
the code:

- The validator's length test looks at the joined text before it is cut at its first letter.
- Text dropped as junk adds nothing to the totals.
- The second junk pattern is tried only when the first matches nothing.
- Header stripping is tried at the start of every page.
- A piece of page text is tested for emptiness before it is stripped, so a whitespace-only piece adds an empty string to the day list.
- The day list still open after the last page is never processed (see Findings).

Date, paragraph and sentence matches are taken to be non-empty. The source's
loops resume at the end of each match, so an empty match at the start of the
text would make them loop forever; the model requires the matchers to avoid
it.

The paragraph loop of `__process_paragraphs` is modelled in two steps:

- `Paragraphs.ParagraphLoop`: the paragraphs, with the buffer carried across breaks;
- `Paragraphs.ProcessParagraphs`: the final flush.

## Model

| member | source | states |
|---|---|---|
| ParseState.EraFlags | nga_tautohetohe_hansard/historicaltext_cleaner.py:119-121 | `flag294` holds exactly outside the early era (an all-digit name of value at least 294), `flag410` exactly in the late era (at least 410), and `flag410` implies `flag294` |
| ParseState.NumberedVolumeFlags | nga_tautohetohe_hansard/historicaltext_cleaner.py:119-121 | a volume named by the decimal digits of `n` gets the flags `(n >= 294, n >= 410)` |
| ParseState.Init | nga_tautohetohe_hansard/historicaltext_cleaner.py:110-121 | a new volume has the era flags of its name, counter 0, no date or speaker yet, the volume's period as day date, the volume's url, and empty outputs |
| PyText.StripEmptyIffAllSpace | nga_tautohetohe_hansard/historicaltext_cleaner.py:153-154 | stripping leaves nothing exactly when the text is all whitespace |
| PyText.FirstLetterIsFirst | nga_tautohetohe_hansard/historicaltext_cleaner.py:271 | the search for `[a-zA-Z£]` finds the first letter or pound sign, and none exists when it finds nothing |
| Validator.ScreenCharacterized | nga_tautohetohe_hansard/historicaltext_cleaner.py:270-281 | the text the validator classifies is the joined buffer cut just before its first letter; it is dropped exactly when the uncut text has at most 3 characters, has no letter or pound sign, or is junk once cut |
| Validator.WriteRow | nga_tautohetohe_hansard/historicaltext_cleaner.py:269-294 | dropped text leaves the totals alone; classified text adds its counts whether or not a row is written; a row is written exactly when the text is reo with more than 2 reo and fewer than 20 other words; the row carries the current url, volume, date, counter and speaker, the cut text and the classifier's counts for it |
| Validator.WriteRowTotals | nga_tautohetohe_hansard/historicaltext_cleaner.py:281-285 | validating a buffer adds exactly its contribution to the totals |
| Validator.ShortTokenJunkDropped | nga_tautohetohe_hansard/historicaltext_cleaner.py:277-281 | when the first junk pattern fails and the cut text is a run of short tokens, nothing is written and the totals do not move, whatever the classifier says |
| Validator.ShortTokenRunOfTokens | nga_tautohetohe_hansard/historicaltext_cleaner.py:278-279 | the second junk pattern covers a space-joined token list exactly when there are at least two tokens, each 1 to 3 characters long |
| Validator.UntrimmedLengthTest | nga_tautohetohe_hansard/historicaltext_cleaner.py:272-281 | the length test is made before the cut: the buffer "1. ka", which no junk pattern covers once cut, reaches the classifier as the two-letter "ka" |
| Sentences.Start | nga_tautohetohe_hansard/historicaltext_cleaner.py:228-229 | the run flags start consistent: the reo flag is set exactly when a buffer is handed in, and the other flag is clear |
| Sentences.Close | nga_tautohetohe_hansard/historicaltext_cleaner.py:253-259 | starting a non-reo run empties the buffer, sets the other flag and clears the reo flag, and keeps the day, the speaker and the rows' day |
| Sentences.Step | nga_tautohetohe_hansard/historicaltext_cleaner.py:233-264 | one sentence never changes the day or the speaker, never lowers the counter, and only writes rows for the current day and speaker |
| Sentences.StepConsistent | nga_tautohetohe_hansard/historicaltext_cleaner.py:241-259 | the two run flags are never both set, the reo flag is set exactly when the buffer holds text, and afterwards the run in progress has the sentence's class; so replacing the buffer by a new one-sentence buffer discards nothing |
| Sentences.StepFlushes | nga_tautohetohe_hansard/historicaltext_cleaner.py:253-256 | a sentence hands the buffer to the validator exactly when it is non-reo, ends a run that is not non-reo, and the buffer holds text |
| Sentences.StepKeepsText | nga_tautohetohe_hansard/historicaltext_cleaner.py:242-256 | what a sentence flushes, followed by the new buffer, is the old buffer followed by the sentence when it is reo |
| Sentences.StepCounter | nga_tautohetohe_hansard/historicaltext_cleaner.py:244-259 | the counter rises by exactly one when the sentence's class differs from the run in progress, and not otherwise |
| Sentences.StepTotals | nga_tautohetohe_hansard/historicaltext_cleaner.py:253-264 | a sentence adds the validator's counts for a flushed buffer plus its own counts when it is non-reo and longer than 5 characters |
| Sentences.ProcessSentences | nga_tautohetohe_hansard/historicaltext_cleaner.py:227-267 | the sentence loop keeps the day and the speaker, never lowers the counter, and writes rows only for its day and speaker |
| Sentences.NoTextLost | nga_tautohetohe_hansard/historicaltext_cleaner.py:227-267 | the buffers flushed by the loop, followed by the buffer it returns, are the incoming buffer followed by every cleaned reo sentence of the text, in order |
| Sentences.CounterCountsRuns | nga_tautohetohe_hansard/historicaltext_cleaner.py:244-259 | the counter rises by the number of sentences whose class differs from the class before them |
| Sentences.FlushesOnlyOnOtherRuns | nga_tautohetohe_hansard/historicaltext_cleaner.py:253-256 | the loop flushes at most once per non-reo sentence, and never an empty buffer |
| Sentences.SentencesConsistent | nga_tautohetohe_hansard/historicaltext_cleaner.py:228-259 | the run-flag invariant holds after the whole loop |
| Sentences.TotalsConserved | nga_tautohetohe_hansard/historicaltext_cleaner.py:261-264 | the totals grow by the counts of the long non-reo sentences plus the validator's counts for each flushed buffer, and by nothing else |
| Sentences.CloseRows | nga_tautohetohe_hansard/historicaltext_cleaner.py:253-259 | starting a non-reo run moves the counter on by one and writes at most one row, numbered with the old counter, only for a buffer holding text |
| Sentences.StepNumbered | nga_tautohetohe_hansard/historicaltext_cleaner.py:244-259 | rows keep strictly increasing utterance numbers, and an open buffer's number is above every written row |
| Sentences.SentencesNumbered | nga_tautohetohe_hansard/historicaltext_cleaner.py:227-267 | strictly increasing utterance numbers survive the sentence loop |
| Paragraphs.ProcessParagraph | nga_tautohetohe_hansard/historicaltext_cleaner.py:214-225 | a paragraph keeps the day; afterwards the speaker is the cleaned name of a named speaker match, or the previous speaker when there is none |
| Paragraphs.EntryFlushes | nga_tautohetohe_hansard/historicaltext_cleaner.py:215-223 | a named speaker match flushes the open buffer exactly when it holds text, and the sentences then start from an empty buffer; without one the buffer is carried on untouched |
| Paragraphs.EntryKeepsText | nga_tautohetohe_hansard/historicaltext_cleaner.py:218-221 | a speaker change loses no buffered text: what it flushes followed by the buffer it keeps is the incoming buffer |
| Paragraphs.ParagraphKeepsText | nga_tautohetohe_hansard/historicaltext_cleaner.py:214-225 | what a paragraph flushes followed by the buffer it keeps is the incoming buffer followed by the cleaned reo sentences of its body after the speaker match |
| Paragraphs.ParagraphFlushes | nga_tautohetohe_hansard/historicaltext_cleaner.py:216-225 | a paragraph flushes at most once for a named speaker match with an open buffer plus once per non-reo sentence, and never an empty buffer |
| Paragraphs.ParagraphSpeakers | nga_tautohetohe_hansard/historicaltext_cleaner.py:216-225 | rows written in a paragraph carry its speaker, except the row of the buffer flushed at the speaker match, which carries the previous speaker |
| Paragraphs.ParagraphNumbered | nga_tautohetohe_hansard/historicaltext_cleaner.py:214-225 | strictly increasing utterance numbers survive a paragraph |
| Paragraphs.EntryRows | nga_tautohetohe_hansard/historicaltext_cleaner.py:216-223 | a speaker change leaves the counter alone and writes at most the flushed buffer's row, numbered with the current counter |
| Paragraphs.ParagraphLoop | nga_tautohetohe_hansard/historicaltext_cleaner.py:199-209 | the paragraph loop keeps the day and writes rows only for it |
| Paragraphs.ProcessParagraphs | nga_tautohetohe_hansard/historicaltext_cleaner.py:199-212 | reading a day's paragraphs keeps the day and writes rows only for it |
| Paragraphs.LoopKeepsText | nga_tautohetohe_hansard/historicaltext_cleaner.py:199-209 | across paragraph breaks the buffer is carried, not dropped: flushed buffers followed by the open one are the incoming buffer followed by the cleaned reo sentences of every paragraph |
| Paragraphs.EndOfDay | nga_tautohetohe_hansard/historicaltext_cleaner.py:209-211 | at the end of the day the open buffer goes to the validator exactly when it holds text, and its row is numbered with the final counter |
| Paragraphs.DayKeepsText | nga_tautohetohe_hansard/historicaltext_cleaner.py:199-212 | concatenated, the buffers handed to the validator during a day are exactly the day's cleaned reo sentences, each once and in order |
| Paragraphs.DayNumbered | nga_tautohetohe_hansard/historicaltext_cleaner.py:199-212 | a day's rows have strictly increasing utterance numbers, above the starting counter and at most the final one |
| Paragraphs.ParagraphTotals | nga_tautohetohe_hansard/historicaltext_cleaner.py:214-225 | a paragraph adds to the totals its long non-reo sentence counts and the validator's counts for what it flushed |
| Paragraphs.LoopTotals | nga_tautohetohe_hansard/historicaltext_cleaner.py:199-209 | the paragraph loop adds the long non-reo sentence counts of every paragraph and the validator's counts for every flushed buffer |
| Paragraphs.DayTotals | nga_tautohetohe_hansard/historicaltext_cleaner.py:199-212 | over a day the totals grow by exactly the long non-reo sentence counts plus the validator's counts, the end-of-day flush included |
| Paragraphs.LoopFlushes | nga_tautohetohe_hansard/historicaltext_cleaner.py:199-209 | a bound: the loop flushes at most once per named speaker match and per non-reo sentence, and never an empty buffer |
| Paragraphs.DayFlushes | nga_tautohetohe_hansard/historicaltext_cleaner.py:199-225 | a bound: a day flushes at most one buffer more than its paragraph loop, and never an empty one |
| Sentences.FlushesWhenReoEnds | nga_tautohetohe_hansard/historicaltext_cleaner.py:244-259 | a sentence flushes exactly when it is non-reo and the run in progress is reo |
| Sentences.FlushCount | nga_tautohetohe_hansard/historicaltext_cleaner.py:227-267 | the sentence loop flushes exactly once per reo run that a non-reo sentence ends, and returns an open buffer exactly when its last sentence is reo |
| Paragraphs.ParagraphFlushCountExact | nga_tautohetohe_hansard/historicaltext_cleaner.py:214-225 | a paragraph flushes exactly once at a named speaker match that finds a buffer open, plus once per reo run a non-reo sentence of its body ends, and leaves a buffer open exactly when its last sentence is reo |
| Paragraphs.LoopFlushCountExact | nga_tautohetohe_hansard/historicaltext_cleaner.py:199-209 | the loop's flushes are exactly the sum of its paragraphs' flushes, each paragraph entered open when the one before ended on a reo sentence: a paragraph break flushes nothing |
| Paragraphs.DayFlushCountExact | nga_tautohetohe_hansard/historicaltext_cleaner.py:199-225 | a day's flushes are exactly those of its paragraphs plus one at the end of the day when a buffer is still open |
| Days.FirstLineSurvives | nga_tautohetohe_hansard/historicaltext_cleaner.py:182-185 | the noise-line substitutions leave the first line of a day whole |
| Days.CleanDayFirstLine | nga_tautohetohe_hansard/historicaltext_cleaner.py:176-185 | the cleaned day starts with the first line of the joined, hyphen-rejoined day |
| Days.ProcessDay | nga_tautohetohe_hansard/historicaltext_cleaner.py:175-197 | a day changes only the outputs, totals, counter and speaker; it is recorded once as processed; it writes a day row with the day's url, date, retrieval time and totals exactly when the totals exceed 50; its rows belong to the day |
| Days.DayTotalsReset | nga_tautohetohe_hansard/historicaltext_cleaner.py:187-189 | the totals are reset to zero at the start of each day, so a day's totals are its own text's counts, whatever came before |
| Days.DayGate | nga_tautohetohe_hansard/historicaltext_cleaner.py:191-197 | a day row is written if and only if the day's own counts total more than 50, and then it carries those counts |
| Days.DayText | nga_tautohetohe_hansard/historicaltext_cleaner.py:175-189 | every cleaned reo sentence of the day's cleaned text reaches the validator once, in order |
| Days.DayRowsNumbered | nga_tautohetohe_hansard/historicaltext_cleaner.py:175-189 | a day's rows have strictly increasing utterance numbers above the counter the day started from |
| Pages.PendingPiece | nga_tautohetohe_hansard/historicaltext_cleaner.py:153-154 | a piece of page text adds nothing to the day list exactly when it is empty, and adds one empty string exactly when it is non-empty whitespace |
| Pages.CloseDay | nga_tautohetohe_hansard/historicaltext_cleaner.py:153-162 | at a date header the closed day list is processed once; afterwards the date is the cleaned header text, the url and retrieval time are the page's, and the counter is 0 |
| Pages.ProcessPage | nga_tautohetohe_hansard/historicaltext_cleaner.py:139-173 | a page keeps the volume and era flags, only appends to the outputs, and writes at most one day row per day list it processes |
| Pages.SegmentsAndDates | nga_tautohetohe_hansard/historicaltext_cleaner.py:143-172 | a page is cut into one more piece than it has date headers |
| Pages.PageDayLists | nga_tautohetohe_hansard/historicaltext_cleaner.py:143-173 | each date header processes exactly once, in order, the list it closes (the open list plus the non-empty stripped text before the date); every later list starts empty; the list returned holds the text after the last date |
| Pages.FlowClosedAt | nga_tautohetohe_hansard/historicaltext_cleaner.py:153-165 | starting from the second, every day list a page's date closes holds only what the text since the previous date contributes: its stripped form, or nothing when that text is empty |
| Pages.FlowOpen | nga_tautohetohe_hansard/historicaltext_cleaner.py:165-171 | the day list a page leaves open holds only what the text after its last date contributes, or is the incoming list plus the page's contribution when the page has no date |
| Pages.PageDate | nga_tautohetohe_hansard/historicaltext_cleaner.py:156-173 | after a page with dates the date is the cleaned last date header, with the page's url and retrieval time and counter 0; a page without dates changes nothing but the open day list |
| Pages.HeaderOnlyAtPageStart | nga_tautohetohe_hansard/historicaltext_cleaner.py:141-152 | the header matcher affects only the first piece of each page |
| Pages.SegmentsLooped | nga_tautohetohe_hansard/historicaltext_cleaner.py:146-149 | once a page's first date is read, the header matcher plays no part |
| Pages.PageStep | nga_tautohetohe_hansard/historicaltext_cleaner.py:135-137 | one iteration of the page loop only appends to the outputs, at most one day row per processed day list |
| Pages.ProcessPages | nga_tautohetohe_hansard/historicaltext_cleaner.py:133-137 | the page loop keeps the volume and flags, only appends, and writes at most one day row per processed day list |
| Pages.ProcessVolume | nga_tautohetohe_hansard/historicaltext_cleaner.py:123-137 | a volume's state carries its era flags, and it writes no more day rows than it processes day lists |
| Pages.OnlyKeptPagesMatter | nga_tautohetohe_hansard/historicaltext_cleaner.py:136-137 | pages the filter rejects (url ending in c, l, x, v or i, page "1", or no ASCII letter) change nothing |
| Pages.KeptExactly | nga_tautohetohe_hansard/historicaltext_cleaner.py:135-137 | the pages the loop hands on are exactly those the filter accepts: each kept page passes the filter, and every page that passes it is kept |
| Pages.PagesAppend | nga_tautohetohe_hansard/historicaltext_cleaner.py:135-137 | the pages are read in order, one step per page |
| Pages.LastDayNeverProcessed | nga_tautohetohe_hansard/historicaltext_cleaner.py:134-137 | a final page without a date header leaves the volume's outputs exactly as without it |
| Pages.ProcessedOncePerDate | nga_tautohetohe_hansard/historicaltext_cleaner.py:135-155 | the number of processed day lists equals the number of date headers on kept pages |
| Pages.CounterZeroAtPageStart | nga_tautohetohe_hansard/historicaltext_cleaner.py:135-162 | the utterance counter is 0 whenever a page begins |
| Pages.DayRowsPerDate | nga_tautohetohe_hansard/historicaltext_cleaner.py:135-197 | a volume writes at most one day row per date header of its kept pages |
| Pages.ProcessVolumeComplete | nga_tautohetohe_hansard/historicaltext_cleaner.py:134-137 | the corrected volume, which processes the last open day list too, keeps the era flags |
| Pages.EveryDayProcessed | nga_tautohetohe_hansard/historicaltext_cleaner.py:134-155 | in the corrected volume one more day list than there are date headers is processed, the last being the list open after the last page, and its outputs extend those of the volume as written |
| Pages.LastPageReachesDayProcessor | nga_tautohetohe_hansard/historicaltext_cleaner.py:166-172 | in the corrected volume the text of a final page without dates reaches the day processor |

## Left out

- File and CSV plumbing is left out because it is I/O. This covers `get_file_list`, `read_index_rows`, `process_csv_files`, `process_csv`, and the file opens and writes in `process_pages`, `__process_day` and `__write_row`. Written rows are appends to the `rows` and `days` logs.
- The index update, `write_lock` and the thread pool exist for concurrency and persistence, and are not modelled.
- The regexes `header_pattern`, `date_pattern`, `newspeaker_pattern`, `paragraph_pattern` and `new_sentence`, the first junk regex, and the substitutions of lines 179 and 182-185 are opaque matchers. They carry only the facts listed above.
- `kupu_ratios` and `clean_whitespace` come from the `taumahi` module, which is not part of this model. Each is an uninterpreted function.
- `get_percentage` and the `percent` fields of both outputs are floating point. They are not modelled, and rows carry only the three counts.
- The day row's constant `format` field ("OCR") is not modelled.
- A page row missing a field makes the program fail on a missing key. In the model a `Page` always has all four fields, so that failure is not modelled.
- Wall-clock timing, `print` and the entry point are console output and are not modelled.
- ParseState.EraFlags: reads only ASCII digits. Python's `str.isdigit` also accepts other Unicode digits. A name in another script's decimal digits gets its flags by value in the program and `(false, false)` in the model. For a name such as "²", `isdigit()` holds but `int()` raises `ValueError`, so the constructor crashes; the model gives such a name the flags `(false, false)` instead.
- Pages.ProcessPage: a date, paragraph or sentence match is assumed non-empty. On an empty match at the start of the remaining text the source would loop forever.
- The utterance row's `text` and count fields stay in the program's row dictionary between writes. In the model each written row carries its own values, which is what every written row holds.

## Findings

| source | as written | input that shows it | evidently intended | confidence | as-written member | corrected member |
|---|---|---|---|---|---|---|
| nga_tautohetohe_hansard/historicaltext_cleaner.py:134-137 | the day list still open after the last page is discarded, so the last day of every volume is never processed | a volume whose last kept page has no date header: its text reaches no output (`Pages.LastDayNeverProcessed`), and only as many day lists are processed as there are date headers (`Pages.ProcessedOncePerDate`) | the open day list is processed after the loop like every other day | medium, not executed | Pages.ProcessVolume | Pages.ProcessVolumeComplete |
