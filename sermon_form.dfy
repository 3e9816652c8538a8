/**
 * The sermon form validator (server/validators/SermonFormDataValidator.ts).
 * Each `#validate*` helper either returns or throws a `UserError`; here each
 * is a function returning `None` or `Some(error)`. `validate` runs them in a
 * fixed order and stops at the first failure. The speaker and series lists
 * (`json-data`), the Bible book table and "this year" are parameters.
 */
module SermonForm {
  import opened Wrappers
  import opened JsText
  import opened UserErrors
  import opened IsoDate
  import BibleReference

  /* ---------------- The form (server/types.d.ts) ---------------- */

  datatype Speaker = Speaker(isNew: bool, value: string, firstName: string, lastName: string)

  datatype Series = Series(isNew: bool, value: string, newValue: string)

  datatype ReferenceField = ReferenceField(book: string, passage: string)

  datatype FormData = FormData(
    speaker: Speaker,
    title: string,
    series: Series,
    reference: ReferenceField,
    date: string,
    time: string,
    sermonFileName: string,
    sermonPicName: string)

  /* ---------------- Speaker, title, series ---------------- */

  const NewSpeakerMessage := "A first name and last name are required for new speakers."

  function UnknownSpeakerMessage(name: string): string {
    "No existing speaker was found with the name \"" + name + "\"."
  }

  /**
   * A new speaker needs both names (an empty string is falsy); an existing
   * one must be on the speaker list.
   */
  function SpeakerError(speaker: Speaker, speakers: seq<string>): (r: Option<Error>)
    ensures speaker.isNew ==>
              (r.None? <==> speaker.firstName != "" && speaker.lastName != "")
    ensures !speaker.isNew ==> (r.None? <==> speaker.value in speakers)
    ensures r.Some? ==>
              r.value == Plain(if speaker.isNew then NewSpeakerMessage
                               else UnknownSpeakerMessage(speaker.value))
  {
    if speaker.isNew then
      if speaker.firstName == "" || speaker.lastName == "" then Some(Plain(NewSpeakerMessage))
      else None
    else if speaker.value !in speakers then Some(Plain(UnknownSpeakerMessage(speaker.value)))
    else None
  }

  const EmptyTitleMessage := "An empty title is only allowed for evening services."

  /** Only an evening service may go without a title. */
  function TitleError(title: string, time: string): (r: Option<Error>)
    ensures r.None? <==> title != "" || time == "Sunday Evening"
    ensures r.Some? ==> r.value == Plain(EmptyTitleMessage)
  {
    if title == "" && time != "Sunday Evening" then Some(Plain(EmptyTitleMessage)) else None
  }

  const NewSeriesMessage := "A valid series name is required for new series."

  function UnknownSeriesMessage(name: string): string {
    "No existing series called \"" + name + "\" was found."
  }

  /** A new series needs a name; an existing one must be on the series list. */
  function SeriesError(series: Series, seriesNames: seq<string>): (r: Option<Error>)
    ensures series.isNew ==> (r.None? <==> series.newValue != "")
    ensures !series.isNew ==> (r.None? <==> series.value in seriesNames)
    ensures r.Some? ==>
              r.value == Plain(if series.isNew then NewSeriesMessage
                               else UnknownSeriesMessage(series.value))
  {
    if series.isNew then
      if series.newValue == "" then Some(Plain(NewSeriesMessage)) else None
    else if series.value !in seriesNames then Some(Plain(UnknownSeriesMessage(series.value)))
    else None
  }

  /* ---------------- Reference ---------------- */

  const IncompleteReference :=
    Error("An incomplete Bible reference was provided.", None,
          Some("Please use a complete Bible reference or exclude it entirely."))

  /**
   * No reference at all is fine; half a reference is rejected; a whole one is
   * handed to the Bible reference validator as `book + " " + passage`, whose
   * rejection is passed on unchanged.
   */
  function ReferenceError(reference: ReferenceField, books: seq<BibleReference.Book>): (r: Option<Error>)
    ensures reference.book == "" && reference.passage == "" ==> r.None?
    ensures (reference.book == "") != (reference.passage == "") ==> r == Some(IncompleteReference)
    ensures reference.book != "" && reference.passage != "" ==>
              (r.None? <==> BibleReference.Validate(books, reference.book + " " + reference.passage).Ok?)
    ensures reference.book != "" && reference.passage != "" && r.Some? ==>
              Err(r.value) == BibleReference.Validate(books, reference.book + " " + reference.passage)
  {
    if reference.book == "" && reference.passage == "" then None
    else if reference.book == "" || reference.passage == "" then Some(IncompleteReference)
    else
      match BibleReference.Validate(books, reference.book + " " + reference.passage)
      case Ok(_) => None
      case Err(e) => Some(e)
  }

  /* ---------------- Date ---------------- */

  const InvalidDate :=
    Error("An invalid date was provided.", Some("The expected date format is 'YYYY-MM-DD'."), None)

  const InvalidYear :=
    Error("An invalid year was provided.",
          Some("Year must be no earlier than 1900 and no later than this year."), None)

  const InvalidMonth := Plain("An invalid month was provided.")

  const InvalidDay :=
    Error("An invalid day was provided for the given month and year.", None,
          Some("Remember to account for leap years."))

  /** The Gregorian rule: every fourth year, except centuries not divisible by 400. */
  predicate IsLeapYear(year: nat) {
    year % 400 == 0 || (year % 4 == 0 && year % 100 != 0)
  }

  /** Thirty days hath September, April, June and November; February has 28, or 29 in a leap year. */
  function DaysInMonth(year: nat, month: nat): (d: nat)
    requires 1 <= month <= 12
    ensures 28 <= d <= 31
    ensures d == 29 <==> month == 2 && IsLeapYear(year)
  {
    if month == 2 then (if IsLeapYear(year) then 29 else 28)
    else if month == 4 || month == 6 || month == 9 || month == 11 then 30
    else 31
  }

  function YearLength(year: nat): nat {
    DaysInMonth(year, 1) + DaysInMonth(year, 2) + DaysInMonth(year, 3) + DaysInMonth(year, 4)
    + DaysInMonth(year, 5) + DaysInMonth(year, 6) + DaysInMonth(year, 7) + DaysInMonth(year, 8)
    + DaysInMonth(year, 9) + DaysInMonth(year, 10) + DaysInMonth(year, 11) + DaysInMonth(year, 12)
  }

  /** A leap year has 366 days and any other year 365. */
  lemma YearLengthIsGregorian(year: nat)
    ensures YearLength(year) == if IsLeapYear(year) then 366 else 365
  {
  }

  /**
   * What `#validateDate` decides, checked in order: the format, the year in
   * [1900, currentYear], the month in [1, 12], the day within the month.
   */
  function DateError(date: string, currentYear: int): Option<Error> {
    if !IsIsoDateFormat(date) then Some(InvalidDate)
    else if YearOf(date) < 1900 || YearOf(date) > currentYear then Some(InvalidYear)
    else if MonthOf(date) < 1 || MonthOf(date) > 12 then Some(InvalidMonth)
    else if DayOf(date) < 1 || DayOf(date) > DaysInMonth(YearOf(date), MonthOf(date)) then Some(InvalidDay)
    else None
  }

  /**
   * `#validateDate`: splits the date into numbers, fills a table of month
   * lengths and moves February to 29 days in a leap year before checking the day.
   */
  method ValidateDate(date: string, currentYear: int) returns (e: Option<Error>)
    ensures e == DateError(date, currentYear)
  {
    if !IsIsoDateFormat(date) {
      return Some(InvalidDate);
    }
    NumbersOfIsoDate(date);
    var parts := ToNumbers(Split(date, '-'));
    var year, month, day := parts[0].n, parts[1].n, parts[2].n;
    if year < 1900 || year > currentYear {
      return Some(InvalidYear);
    }
    if month < 1 || month > 12 {
      return Some(InvalidMonth);
    }
    var monthDays := new nat[12] [31, 28, 31, 30, 31, 30, 31, 31, 30, 31, 30, 31];
    if year % 400 == 0 || (year % 4 == 0 && year % 100 != 0) {
      monthDays[1] := 29;
    }
    assert monthDays[month - 1] == DaysInMonth(year, month);
    if day < 1 || day > monthDays[month - 1] {
      return Some(InvalidDay);
    }
    return None;
  }

  /* ---------------- Time and files ---------------- */

  const InvalidTime := Plain("An invalid time of day was provided.")

  function TimeError(time: string): (r: Option<Error>)
    ensures r.None? <==> time in {"Sunday Morning", "Sunday Evening", "Other"}
    ensures r.Some? ==> r.value == InvalidTime
  {
    if time != "Sunday Morning" && time != "Sunday Evening" && time != "Other" then Some(InvalidTime)
    else None
  }

  datatype FileKind = SermonFile | Thumbnail

  function Extension(kind: FileKind): string {
    if kind == SermonFile then "mp3" else "png"
  }

  function KindName(kind: FileKind): string {
    if kind == SermonFile then "sermon file" else "thumbnail"
  }

  function ExtensionMessage(kind: FileKind): string {
    "Only ." + Extension(kind) + " files are allowed for " + KindName(kind) + "s."
  }

  /** The extension part of `#validateFile`: the name must end in `.mp3` or `.png`. */
  function FileError(kind: FileKind, filename: string): (r: Option<Error>)
    ensures r.None? <==> EndsWith(filename, "." + Extension(kind))
    ensures r.Some? ==> r.value == Plain(ExtensionMessage(kind))
  {
    if !EndsWith(filename, "." + Extension(kind)) then Some(Plain(ExtensionMessage(kind)))
    else None
  }

  /* ---------------- validate ---------------- */

  /** The first failure of a sequence of checks, if any. */
  function FirstError(checks: seq<Option<Error>>): Option<Error> {
    if checks == [] then None
    else if checks[0].Some? then checks[0]
    else FirstError(checks[1..])
  }

  /** The first error is the earliest failing check, and there is none exactly when every check passes. */
  lemma {:induction false} FirstErrorMeans(checks: seq<Option<Error>>)
    ensures FirstError(checks).None? <==> forall k :: 0 <= k < |checks| ==> checks[k].None?
    ensures FirstError(checks).Some? ==>
              exists k :: 0 <= k < |checks| && checks[k] == FirstError(checks)
                          && forall j :: 0 <= j < k ==> checks[j].None?
  {
    if checks != [] && checks[0].None? {
      FirstErrorMeans(checks[1..]);
      if FirstError(checks).Some? {
        var k :| 0 <= k < |checks[1..]| && checks[1..][k] == FirstError(checks[1..])
                 && forall j :: 0 <= j < k ==> checks[1..][j].None?;
        assert checks[k + 1] == FirstError(checks);
        assert forall j :: 0 <= j < k + 1 ==> checks[j].None? by {
          forall j | 0 <= j < k + 1 ensures checks[j].None? {
            if j > 0 { assert checks[j] == checks[1..][j - 1]; }
          }
        }
      }
    }
  }

  /** The checks of `validate`, in the order it runs them. */
  function Checks(form: FormData, speakers: seq<string>, seriesNames: seq<string>,
                  books: seq<BibleReference.Book>, currentYear: int): seq<Option<Error>>
  {
    [ SpeakerError(form.speaker, speakers),
      TitleError(form.title, form.time),
      SeriesError(form.series, seriesNames),
      ReferenceError(form.reference, books),
      DateError(form.date, currentYear),
      TimeError(form.time),
      FileError(SermonFile, form.sermonFileName),
      FileError(Thumbnail, form.sermonPicName) ]
  }

  /** Once the first `k` checks pass, the first error is decided from check `k` on. */
  lemma {:induction false} FirstErrorStep(checks: seq<Option<Error>>, k: nat)
    requires k < |checks| && forall j :: 0 <= j < k ==> checks[j].None?
    ensures FirstError(checks) == if checks[k].Some? then checks[k] else FirstError(checks[k + 1..])
  {
    if k > 0 {
      var rest := checks[1..];
      assert forall j :: 0 <= j < k - 1 ==> rest[j] == checks[j + 1];
      FirstErrorStep(rest, k - 1);
      assert rest[k - 1] == checks[k];
      assert rest[k..] == checks[k + 1..];
    }
  }

  /** The checks of `validate` from the date on, in its order. */
  function LaterChecks(form: FormData, currentYear: int): seq<Option<Error>> {
    [ DateError(form.date, currentYear),
      TimeError(form.time),
      FileError(SermonFile, form.sermonFileName),
      FileError(Thumbnail, form.sermonPicName) ]
  }

  /** The second half of `validate`: date, time of day and the two file extensions. */
  method ValidateLater(form: FormData, currentYear: int) returns (r: Option<Error>)
    ensures r == FirstError(LaterChecks(form, currentYear))
  {
    ghost var cs := LaterChecks(form, currentYear);
    r := ValidateDate(form.date, currentYear);
    FirstErrorStep(cs, 0);
    if r.Some? { return; }
    r := TimeError(form.time);
    FirstErrorStep(cs, 1);
    if r.Some? { return; }
    r := FileError(SermonFile, form.sermonFileName);
    FirstErrorStep(cs, 2);
    if r.Some? { return; }
    r := FileError(Thumbnail, form.sermonPicName);
    FirstErrorStep(cs, 3);
    assert cs[4..] == [];
  }

  /** `validate`: the checks in order, stopping at the first failure. */
  method Validate(form: FormData, speakers: seq<string>, seriesNames: seq<string>,
                  books: seq<BibleReference.Book>, currentYear: int) returns (r: Option<Error>)
    ensures r == FirstError(Checks(form, speakers, seriesNames, books, currentYear))
  {
    ghost var cs := Checks(form, speakers, seriesNames, books, currentYear);
    r := SpeakerError(form.speaker, speakers);
    FirstErrorStep(cs, 0);
    if r.Some? { return; }
    r := TitleError(form.title, form.time);
    FirstErrorStep(cs, 1);
    if r.Some? { return; }
    r := SeriesError(form.series, seriesNames);
    FirstErrorStep(cs, 2);
    if r.Some? { return; }
    r := ReferenceError(form.reference, books);
    FirstErrorStep(cs, 3);
    if r.Some? { return; }
    assert cs[4..] == LaterChecks(form, currentYear);
    r := ValidateLater(form, currentYear);
  }
}
