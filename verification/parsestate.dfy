/** The state a `Volume` carries while it reads its pages: the era flags fixed
    at construction, the fields of the current day and utterance row, the
    running totals, and the append-only outputs. */
module ParseState {
  import opened Options
  import opened PyText
  import opened Collaborators

  /** A row of the volume index, as far as the cleaner reads it. */
  datatype VolumeRecord = VolumeRecord(name: string, url: string, period: string, retrieved: string)

  /** One row of a volume's page dump; the retrieval time is read under the
      key `retreived`. */
  datatype Page = Page(url: string, page: string, text: string, retreived: string)

  /** A row of the utterance output. The date is missing until the first date
      header of the volume has been seen. */
  datatype UtteranceRow = UtteranceRow(
    url: string, volume: string, date: Option<string>, utterance: nat,
    speaker: Option<string>, counts: Counts, text: string)

  /** A row of the day index output (format is always "OCR"). */
  datatype DayRow = DayRow(url: string, volume: string, date: string, retrieved: string, counts: Counts)

  /** The running state. `rows` and `days` are the two outputs; `validated`
      records every utterance buffer handed to the validator, kept or not,
      and `processed` every day list handed to the day processor. */
  datatype Parse = Parse(
    volume: VolumeRecord,
    flag294: bool,
    flag410: bool,
    date: Option<string>,
    url: string,
    retrieved: string,
    utterance: nat,
    speaker: Option<string>,
    totals: Counts,
    rows: seq<UtteranceRow>,
    days: seq<DayRow>,
    validated: seq<seq<string>>,
    processed: seq<seq<string>>)
  {
    /** The date written to the day index: the volume's period until a date
        header has been seen. */
    function DayDate(): string {
      date.GetOr(volume.period)
    }
  }

  /** The three formatting eras a volume can belong to. */
  datatype Era = Early | Middle | Late

  function EraOf(name: string): Era {
    if !IsDigits(name) then Early
    else if DigitsValue(name) < 294 then Early
    else if DigitsValue(name) < 410 then Middle
    else Late
  }

  /** The two flags of `Volume.__init__`: `flag294` picks the date pattern and
      `flag410` the speaker pattern. */
  function EraFlags(name: string): (flags: (bool, bool))
    ensures flags.0 <==> EraOf(name) != Early
    ensures flags.1 <==> EraOf(name) == Late
    ensures flags.1 ==> flags.0
  {
    var flag294 := IsDigits(name) && DigitsValue(name) >= 294;
    (flag294, flag294 && DigitsValue(name) >= 410)
  }

  /** A volume named by the decimal rendering of `n` gets its flags by `n`. */
  lemma NumberedVolumeFlags(n: nat)
    ensures EraFlags(Decimal(n)) == (n >= 294, n >= 410)
  {
    DecimalRoundTrip(n);
  }

  /** The state of a freshly constructed volume. */
  function Init(v: VolumeRecord): (st: Parse)
    ensures (st.flag294, st.flag410) == EraFlags(v.name)
    ensures st.utterance == 0 && st.date.None? && st.speaker.None?
    ensures st.DayDate() == v.period && st.url == v.url
    ensures st.rows == [] && st.days == [] && st.validated == [] && st.processed == []
  {
    var (flag294, flag410) := EraFlags(v.name);
    Parse(v, flag294, flag410, None, v.url, v.retrieved, 0, None, NoCounts, [], [], [], [])
  }

  /** `b` is a later state of the same volume: the era flags are fixed and
      every log only grew. */
  ghost predicate Extends(a: Parse, b: Parse) {
    && a.volume == b.volume && a.flag294 == b.flag294 && a.flag410 == b.flag410
    && a.rows <= b.rows && a.days <= b.days && a.validated <= b.validated && a.processed <= b.processed
  }

  /** `b` is a later state within the same day: besides `Extends`, the day's
      date, url and retrieval time are unchanged, no day was closed, and the
      utterance counter did not go down. */
  ghost predicate SameDay(a: Parse, b: Parse) {
    && Extends(a, b)
    && a.date == b.date && a.url == b.url && a.retrieved == b.retrieved
    && a.days == b.days && a.processed == b.processed
    && a.utterance <= b.utterance
  }

  /** Every row from index `from` on was written for the day of `st` by its
      volume. */
  ghost predicate RowsOfDay(rows: seq<UtteranceRow>, from: nat, st: Parse) {
    forall i | from <= i < |rows| ::
      rows[i].date == st.date && rows[i].url == st.url && rows[i].volume == st.volume.name
  }

  /** Utterance numbers of the rows from `from` on increase strictly and lie
      in (base, counter]; while a buffer is open they stay below the counter,
      which is the number the open buffer will be written under. */
  ghost predicate Numbered(rows: seq<UtteranceRow>, from: nat, base: nat, counter: nat, open: bool) {
    && from <= |rows|
    && base <= counter
    && (forall i, j | from <= i < j < |rows| :: rows[i].utterance < rows[j].utterance)
    && (forall i | from <= i < |rows| :: base < rows[i].utterance <= counter)
    && (open ==> base < counter && forall i | from <= i < |rows| :: rows[i].utterance < counter)
  }

  /** Opening a buffer under the next utterance number keeps the numbering. */
  lemma NumberedOpen(rows: seq<UtteranceRow>, from: nat, base: nat, counter: nat)
    requires Numbered(rows, from, base, counter, false)
    ensures Numbered(rows, from, base, counter + 1, true)
  {
  }

  /** Writing the open buffer under the current number, or nothing, and then
      moving the counter on keeps the numbering. */
  lemma NumberedClose(rows: seq<UtteranceRow>, rows': seq<UtteranceRow>, from: nat, base: nat, counter: nat, open: bool)
    requires Numbered(rows, from, base, counter, open)
    requires rows' == rows || (open && |rows'| == |rows| + 1 && rows <= rows' && rows'[|rows|].utterance == counter)
    ensures Numbered(rows', from, base, counter + 1, false)
  {
    if rows' != rows {
      forall i, j | from <= i < j < |rows'|
        ensures rows'[i].utterance < rows'[j].utterance
      {
        if j < |rows| {
          assert rows'[i] == rows[i] && rows'[j] == rows[j];
        } else {
          assert rows'[i] == rows[i];
        }
      }
      forall i | from <= i < |rows'|
        ensures base < rows'[i].utterance <= counter + 1
      {
        if i < |rows| {
          assert rows'[i] == rows[i];
        }
      }
    }
  }
}
