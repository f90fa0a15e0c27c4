/**
 * FundTable: the reminder rows of one fund. Issue `i` of the fund is paired
 * with entry `i` of the email-date list by position; each row shows the
 * issue's dates, the email date, the number of days until the email is due
 * and whether it was sent, and is shaded and bolded from those values.
 *
 * Dates are whole day numbers. The parse of
 * `new Date(date.replace(/\//g, '-'))` followed by `setHours(0, 0, 0, 0)` is
 * the parameter `parseDay` (its result is `None` for an Invalid Date), and
 * today's midnight is the parameter `today`.
 */
module FundTable {
  import opened Wrappers
  import opened Strings

  datatype Issue = Issue(issueDate: Option<string>, deadlineDate: Option<string>)

  datatype Fund = Fund(name: string, issues: seq<Issue>)

  /** The reminder settings of one issue. */
  datatype EmailDateEntry = EmailDateEntry(date: string, isEnabled: bool, isSent: bool)

  /** `diffDays`: `null` without an entry, a whole number of days, or NaN for an unparsable date. */
  datatype Offset = NoOffset | Days(days: int) | NotANumber

  /** What a cell shows: text, a number, or one of the translated labels. */
  datatype Cell = Text(text: string) | Number(n: int) | NaNText | Na | NoEmailDateSet | Yes | No

  datatype Shade = White | Grey

  datatype ReminderRow = ReminderRow(
    enabled: bool,
    offset: Offset,
    background: Shade,
    bold: bool,
    issueCell: Cell,
    deadlineCell: Cell,
    emailCell: Cell,
    dayCell: Cell,
    sentCell: Cell)

  /** `normalizeDate`: the `na` label for an absent or empty date, otherwise every `-` written as `/`. */
  function NormalizeDate(date: Option<string>): (r: Cell)
    ensures date.None? || date == Some("") ==> r == Na
    ensures date.Some? && date.value != "" ==>
      && r.Text?
      && |r.text| == |date.value|
      && '-' !in r.text
      && forall i :: 0 <= i < |r.text| ==> r.text[i] == (if date.value[i] == '-' then '/' else date.value[i])
  {
    if date.None? || date.value == "" then Na else Text(ReplaceAll(date.value, '-', '/'))
  }

  /** Normalising a date that is already normalised changes nothing. */
  lemma NormalizeDateIdempotent(date: Option<string>)
    requires NormalizeDate(date).Text?
    ensures NormalizeDate(Some(NormalizeDate(date).text)) == NormalizeDate(date)
  {
    ReplaceAllClears(date.value, '-', '/');
  }

  /** `emailDates && index < emailDates.length ? emailDates[index] : null`. */
  function EntryFor(emailDates: Option<seq<EmailDateEntry>>, index: nat): (r: Option<EmailDateEntry>)
    ensures r.Some? <==> emailDates.Some? && index < |emailDates.value|
    ensures r.Some? ==> r.value == emailDates.value[index]
  {
    if emailDates.Some? && index < |emailDates.value| then Some(emailDates.value[index]) else None
  }

  /**
   * `Math.ceil((emailDateObj - today) / 86400000)` for two midnights, in
   * days: zero for today, -1 for yesterday, positive exactly for future dates.
   */
  function DayOffset(entry: EmailDateEntry, today: int, parseDay: string -> Option<int>): (r: Offset)
    ensures parseDay(ReplaceAll(entry.date, '/', '-')).None? <==> r == NotANumber
    ensures parseDay(ReplaceAll(entry.date, '/', '-')).Some? ==>
      r == Days(parseDay(ReplaceAll(entry.date, '/', '-')).value - today)
    ensures parseDay(ReplaceAll(entry.date, '/', '-')) == Some(today) ==> r == Days(0)
    ensures parseDay(ReplaceAll(entry.date, '/', '-')) == Some(today - 1) ==> r == Days(-1)
    ensures r.Days? ==> (r.days > 0 <==> parseDay(ReplaceAll(entry.date, '/', '-')).value > today)
    ensures r.Days? ==> r.days + today == parseDay(ReplaceAll(entry.date, '/', '-')).value
  {
    match parseDay(ReplaceAll(entry.date, '/', '-'))
    case None => NotANumber
    case Some(day) => Days(day - today)
  }

  /** The day column: the number, `NaN`, or the `na` label. */
  function OffsetCell(offset: Offset): Cell
  {
    match offset
    case NoOffset => Na
    case Days(d) => Number(d)
    case NotANumber => NaNText
  }

  /** One row of the table, for an issue and the email-date entry aligned with it. */
  function ComputeRow(issue: Issue, entry: Option<EmailDateEntry>, today: int, parseDay: string -> Option<int>): (r: ReminderRow)
    ensures r.enabled <==> entry.Some? && entry.value.isEnabled
    ensures r.offset == NoOffset <==> entry.None?
    ensures entry.None? ==> r.dayCell == Na && r.emailCell == NoEmailDateSet && r.sentCell == Na
    ensures entry.Some? ==> r.dayCell == (if r.offset.Days? then Number(r.offset.days) else NaNText)
    ensures entry.Some? ==> r.offset == DayOffset(entry.value, today, parseDay)
    ensures entry.Some? ==> r.emailCell == NormalizeDate(Some(entry.value.date))
    ensures entry.Some? ==> r.sentCell == (if entry.value.isSent then Yes else No)
    ensures r.background == White <==> r.enabled && !(r.offset.Days? && r.offset.days < 0)
    ensures r.bold <==> r.offset == Days(0)
    ensures r.issueCell == NormalizeDate(issue.issueDate) && r.deadlineCell == NormalizeDate(issue.deadlineDate)
  {
    var enabled := if entry.Some? then entry.value.isEnabled else false;
    var offset := if entry.Some? then DayOffset(entry.value, today, parseDay) else NoOffset;
    // `diffDays < 0` is false for NaN, so an enabled row with an unparsable date stays white.
    var background :=
      if enabled then (if entry.Some? && offset.Days? && offset.days < 0 then Grey else White)
      else Grey;
    var bold := entry.Some? && offset == Days(0);
    ReminderRow(
      enabled,
      offset,
      background,
      bold,
      NormalizeDate(issue.issueDate),
      NormalizeDate(issue.deadlineDate),
      if entry.Some? then NormalizeDate(Some(entry.value.date)) else NoEmailDateSet,
      OffsetCell(offset),
      if entry.Some? then (if entry.value.isSent then Yes else No) else Na)
  }

  /** `fund.issues.map(...)`: one row per issue, row `i` built from email-date entry `i`. */
  function Rows(fund: Fund, emailDates: Option<seq<EmailDateEntry>>, today: int, parseDay: string -> Option<int>): (r: seq<ReminderRow>)
    ensures |r| == |fund.issues|
    ensures forall i :: 0 <= i < |r| ==> r[i] == ComputeRow(fund.issues[i], EntryFor(emailDates, i), today, parseDay)
  {
    seq(|fund.issues|, i requires 0 <= i < |fund.issues| => ComputeRow(fund.issues[i], EntryFor(emailDates, i), today, parseDay))
  }

  /** Rows past the end of the email-date list (or all rows, without a list) are disabled, grey and show no day count. */
  lemma RowsWithoutEntry(fund: Fund, emailDates: Option<seq<EmailDateEntry>>, today: int, parseDay: string -> Option<int>, i: nat)
    requires i < |fund.issues|
    requires emailDates.None? || i >= |emailDates.value|
    ensures var row := Rows(fund, emailDates, today, parseDay)[i];
      && !row.enabled && row.background == Grey && !row.bold
      && row.offset == NoOffset && row.dayCell == Na && row.emailCell == NoEmailDateSet && row.sentCell == Na
  {
  }

  /** A row whose email is due today is bold, and white when its reminder is enabled. */
  lemma RowDueToday(fund: Fund, emailDates: seq<EmailDateEntry>, today: int, parseDay: string -> Option<int>, i: nat)
    requires i < |fund.issues| && i < |emailDates|
    requires parseDay(ReplaceAll(emailDates[i].date, '/', '-')) == Some(today)
    ensures var row := Rows(fund, Some(emailDates), today, parseDay)[i];
      && row.bold && row.dayCell == Number(0)
      && (row.background == White <==> emailDates[i].isEnabled)
  {
  }

  /** A row whose email date has passed is grey and not bold. */
  lemma RowPastDue(fund: Fund, emailDates: seq<EmailDateEntry>, today: int, parseDay: string -> Option<int>, i: nat)
    requires i < |fund.issues| && i < |emailDates|
    requires parseDay(ReplaceAll(emailDates[i].date, '/', '-')).Some?
    requires parseDay(ReplaceAll(emailDates[i].date, '/', '-')).value < today
    ensures var row := Rows(fund, Some(emailDates), today, parseDay)[i];
      && row.background == Grey && !row.bold && row.dayCell.Number? && row.dayCell.n < 0
  {
  }
}
