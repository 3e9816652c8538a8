/**
 * What the sermon form validator promises: the forms it accepts, rule by
 * rule; that the earliest failing check is the one reported; the Gregorian
 * leap-day rule; and the cases of its test suite
 * (server/validators/__tests__/SermonFormDataValidator.test.ts).
 */
module SermonFormProperties {
  import opened Wrappers
  import opened JsText
  import opened UserErrors
  import opened IsoDate
  import opened SermonForm
  import BibleReference
  import BibleReferenceExamples

  /* ---------------- Accepted forms ---------------- */

  /** A real `YYYY-MM-DD` day from 1900 up to the end of `currentYear`. */
  predicate IsCalendarDate(date: string, currentYear: int) {
    && IsIsoDateFormat(date)
    && 1900 <= YearOf(date) <= currentYear
    && 1 <= MonthOf(date) <= 12
    && 1 <= DayOf(date) <= DaysInMonth(YearOf(date), MonthOf(date))
  }

  predicate ReferenceAcceptable(reference: ReferenceField, books: seq<BibleReference.Book>) {
    || (reference.book == "" && reference.passage == "")
    || (reference.book != "" && reference.passage != ""
        && BibleReference.Validate(books, reference.book + " " + reference.passage).Ok?)
  }

  /** Every rule of the form, stated directly. */
  predicate Acceptable(form: FormData, speakers: seq<string>, seriesNames: seq<string>,
                       books: seq<BibleReference.Book>, currentYear: int) {
    && (if form.speaker.isNew then form.speaker.firstName != "" && form.speaker.lastName != ""
        else form.speaker.value in speakers)
    && (form.title != "" || form.time == "Sunday Evening")
    && (if form.series.isNew then form.series.newValue != "" else form.series.value in seriesNames)
    && ReferenceAcceptable(form.reference, books)
    && IsCalendarDate(form.date, currentYear)
    && form.time in {"Sunday Morning", "Sunday Evening", "Other"}
    && EndsWith(form.sermonFileName, ".mp3")
    && EndsWith(form.sermonPicName, ".png")
  }

  lemma DateAcceptedMeans(date: string, currentYear: int)
    ensures DateError(date, currentYear).None? <==> IsCalendarDate(date, currentYear)
  {
  }

  /** `validate` finds no error exactly when the form meets every rule. */
  /** Eight checks all pass exactly when each of them does. */
  lemma AllEightPass(cs: seq<Option<Error>>)
    requires |cs| == 8
    ensures FirstError(cs).None? <==>
              cs[0].None? && cs[1].None? && cs[2].None? && cs[3].None? &&
              cs[4].None? && cs[5].None? && cs[6].None? && cs[7].None?
  {
    FirstErrorMeans(cs);
    if cs[0].None? && cs[1].None? && cs[2].None? && cs[3].None? &&
       cs[4].None? && cs[5].None? && cs[6].None? && cs[7].None? {
      forall k | 0 <= k < |cs| ensures cs[k].None? {
        assert k in {0, 1, 2, 3, 4, 5, 6, 7};
      }
    }
  }

  /** The speaker, title, series and reference checks pass exactly when their rules hold. */
  lemma FrontChecksMean(form: FormData, speakers: seq<string>, seriesNames: seq<string>,
                        books: seq<BibleReference.Book>)
    ensures (SpeakerError(form.speaker, speakers).None? && TitleError(form.title, form.time).None? &&
             SeriesError(form.series, seriesNames).None? && ReferenceError(form.reference, books).None?) <==>
            ((if form.speaker.isNew then form.speaker.firstName != "" && form.speaker.lastName != ""
              else form.speaker.value in speakers) &&
             (form.title != "" || form.time == "Sunday Evening") &&
             (if form.series.isNew then form.series.newValue != "" else form.series.value in seriesNames) &&
             ReferenceAcceptable(form.reference, books))
  {
  }

  /** The date, time and extension checks pass exactly when their rules hold. */
  lemma BackChecksMean(form: FormData, currentYear: int)
    ensures (DateError(form.date, currentYear).None? && TimeError(form.time).None? &&
             FileError(SermonFile, form.sermonFileName).None? && FileError(Thumbnail, form.sermonPicName).None?) <==>
            (IsCalendarDate(form.date, currentYear) && form.time in {"Sunday Morning", "Sunday Evening", "Other"} &&
             EndsWith(form.sermonFileName, ".mp3") && EndsWith(form.sermonPicName, ".png"))
  {
    DateAcceptedMeans(form.date, currentYear);
    assert "." + Extension(SermonFile) == ".mp3";
    assert "." + Extension(Thumbnail) == ".png";
  }

  lemma ValidateAcceptsExactly(form: FormData, speakers: seq<string>, seriesNames: seq<string>,
                               books: seq<BibleReference.Book>, currentYear: int)
    ensures FirstError(Checks(form, speakers, seriesNames, books, currentYear)).None? <==>
              Acceptable(form, speakers, seriesNames, books, currentYear)
  {
    AllEightPass(Checks(form, speakers, seriesNames, books, currentYear));
    FrontChecksMean(form, speakers, seriesNames, books);
    BackChecksMean(form, currentYear);
  }



  /* ---------------- Order of the checks ---------------- */

  /** Whatever else is wrong with the form, the earliest failing check in the order of `validate` is reported. */
  lemma ValidateReportsEarliest(form: FormData, speakers: seq<string>, seriesNames: seq<string>,
                                books: seq<BibleReference.Book>, currentYear: int, k: nat)
    requires k < 8
    requires Checks(form, speakers, seriesNames, books, currentYear)[k].Some?
    requires forall j :: 0 <= j < k ==> Checks(form, speakers, seriesNames, books, currentYear)[j].None?
    ensures FirstError(Checks(form, speakers, seriesNames, books, currentYear)) ==
              Checks(form, speakers, seriesNames, books, currentYear)[k]
  {
    FirstErrorStep(Checks(form, speakers, seriesNames, books, currentYear), k);
  }

  /** An incomplete new speaker is reported before an untitled morning service and a bad date. */
  lemma SpeakerBeforeTitleAndDate(form: FormData, speakers: seq<string>, seriesNames: seq<string>,
                                  books: seq<BibleReference.Book>, currentYear: int)
    requires form.speaker.isNew && form.speaker.firstName == ""
    ensures FirstError(Checks(form, speakers, seriesNames, books, currentYear)) == Some(Plain(NewSpeakerMessage))
  {
    FirstErrorStep(Checks(form, speakers, seriesNames, books, currentYear), 0);
  }

  /** The sermon file's extension is checked before the thumbnail's. */
  lemma SermonFileBeforeThumbnail(form: FormData, speakers: seq<string>, seriesNames: seq<string>,
                                  books: seq<BibleReference.Book>, currentYear: int)
    requires forall j :: 0 <= j < 6 ==> Checks(form, speakers, seriesNames, books, currentYear)[j].None?
    requires !EndsWith(form.sermonFileName, ".mp3")
    ensures FirstError(Checks(form, speakers, seriesNames, books, currentYear)) ==
              Some(Plain("Only .mp3 files are allowed for sermon files."))
  {
    assert "." + Extension(SermonFile) == ".mp3";
    ExtensionMessages();
    FirstErrorStep(Checks(form, speakers, seriesNames, books, currentYear), 6);
  }

  /* ---------------- Dates ---------------- */

  /** February 29th of an admissible year is accepted exactly in a Gregorian leap year. */
  lemma LeapDay(date: string, currentYear: int)
    requires IsIsoDateFormat(date) && MonthOf(date) == 2 && DayOf(date) == 29
    requires 1900 <= YearOf(date) <= currentYear
    ensures DateError(date, currentYear).None? <==> IsLeapYear(YearOf(date))
    ensures DateError(date, currentYear).Some? ==> DateError(date, currentYear) == Some(InvalidDay)
  {
  }

  /** Any day after the last of its month is rejected with the day error. */
  lemma DayAfterLast(date: string, currentYear: int)
    requires IsIsoDateFormat(date) && 1900 <= YearOf(date) <= currentYear && 1 <= MonthOf(date) <= 12
    requires DayOf(date) == DaysInMonth(YearOf(date), MonthOf(date)) + 1
    ensures DateError(date, currentYear) == Some(InvalidDay)
  {
  }

  /** The value of four digits, place by place. */
  lemma DigitsValue4(t: string)
    requires |t| == 4 && forall i :: 0 <= i < 4 ==> IsDigit(t[i])
    ensures AllDigits(t)
    ensures DigitsValue(t) ==
              DigitValue(t[0]) * 1000 + DigitValue(t[1]) * 100 + DigitValue(t[2]) * 10 + DigitValue(t[3])
  {
    var t3, t2, t1 := t[..3], t[..2], t[..1];
    assert t3[..2] == t2 && t2[..1] == t1 && t1[..0] == [];
    AllDigitsMeans(t);
    AllDigitsMeans(t3);
    AllDigitsMeans(t2);
    AllDigitsMeans(t1);
    assert DigitsValue(t1) == DigitValue(t[0]);
    assert DigitsValue(t2) == DigitValue(t[0]) * 10 + DigitValue(t[1]);
    assert DigitsValue(t3) == (DigitValue(t[0]) * 10 + DigitValue(t[1])) * 10 + DigitValue(t[2]);
  }

  /** The value of two digits, place by place. */
  lemma DigitsValue2(t: string)
    requires |t| == 2 && IsDigit(t[0]) && IsDigit(t[1])
    ensures AllDigits(t)
    ensures DigitsValue(t) == DigitValue(t[0]) * 10 + DigitValue(t[1])
  {
    var t1 := t[..1];
    assert t[..|t| - 1] == t1 && t1[..0] == [] && t1[0] == t[0];
    AllDigitsMeans(t);
    AllDigitsMeans(t1);
    assert DigitsValue(t1) == DigitValue(t[0]);
  }

  /** A date written out character by character, with the values of its parts. */
  lemma DateValue(date: string)
    requires |date| == 10 && date[4] == '-' && date[7] == '-'
    requires IsDigit(date[0]) && IsDigit(date[1]) && IsDigit(date[2]) && IsDigit(date[3])
    requires IsDigit(date[5]) && IsDigit(date[6]) && IsDigit(date[8]) && IsDigit(date[9])
    ensures IsIsoDateFormat(date)
    ensures YearOf(date) == DigitValue(date[0]) * 1000 + DigitValue(date[1]) * 100
                            + DigitValue(date[2]) * 10 + DigitValue(date[3])
    ensures MonthOf(date) == DigitValue(date[5]) * 10 + DigitValue(date[6])
    ensures DayOf(date) == DigitValue(date[8]) * 10 + DigitValue(date[9])
  {
    assert forall i :: 0 <= i < 10 && i != 4 && i != 7 ==> IsDigit(date[i]) by {
      forall i | 0 <= i < 10 && i != 4 && i != 7 ensures IsDigit(date[i]) {
        assert i in {0, 1, 2, 3, 5, 6, 8, 9};
      }
    }
    DigitsValue4(date[0..4]);
    DigitsValue2(date[5..7]);
    DigitsValue2(date[8..10]);
  }

  lemma AcceptsLeapDay2000()
    ensures DateError("2000-02-29", 2026) == None
  {
    DateValue("2000-02-29");
  }

  /**
   * Days past the end of their month: February 29th of 1999, and of 1900 (a
   * century not divisible by 400), and April 31st.
   */
  lemma RejectsImpossibleDays()
    ensures DateError("1999-02-29", 2026) == Some(InvalidDay)
    ensures DateError("1900-02-29", 2026) == Some(InvalidDay)
    ensures DateError("2025-04-31", 2026) == Some(InvalidDay)
  {
    DateValue("1999-02-29");
    DateValue("1900-02-29");
    DateValue("2025-04-31");
  }

  lemma RejectsMalformedDates()
    ensures DateError("not-a-date", 2026) == Some(InvalidDate)
    ensures DateError("12345678", 2026) == Some(InvalidDate)
    ensures DateError("01-01-2026", 2026) == Some(InvalidDate)
  {
    assert !IsDigit("not-a-date"[0]);
    assert "01-01-2026"[2] == '-';
  }

  lemma RejectsYearsOutOfBounds()
    ensures DateError("1899-10-14", 2026) == Some(InvalidYear)
    ensures DateError("2027-10-14", 2026) == Some(InvalidYear)
  {
    DateValue("1899-10-14");
    DateValue("2027-10-14");
  }

  lemma RejectsMonthsOutOfBounds()
    ensures DateError("2026-00-14", 2026) == Some(InvalidMonth)
    ensures DateError("2026-13-14", 2026) == Some(InvalidMonth)
  {
    DateValue("2026-00-14");
    DateValue("2026-13-14");
  }

  /* ---------------- Other fields ---------------- */

  lemma SpeakerCases()
    ensures UnknownSpeakerMessage("Invalid Speaker") ==
              "No existing speaker was found with the name \"Invalid Speaker\"."
    ensures SpeakerError(Speaker(false, "Invalid Speaker", "", ""), ["Speaker A"]) ==
              Some(Plain(UnknownSpeakerMessage("Invalid Speaker")))
    ensures SpeakerError(Speaker(true, "", "New", ""), []) == Some(Plain(NewSpeakerMessage))
    ensures SpeakerError(Speaker(true, "", "", "Speaker"), []) == Some(Plain(NewSpeakerMessage))
    ensures SpeakerError(Speaker(true, "", "New", "Speaker"), []) == None
    ensures SpeakerError(Speaker(false, "Speaker A", "", ""), ["Speaker A"]) == None
  {
  }

  lemma TitleCases()
    ensures TitleError("", "Sunday Morning") == Some(Plain(EmptyTitleMessage))
    ensures TitleError("", "Other") == Some(Plain(EmptyTitleMessage))
    ensures TitleError("", "Sunday Evening") == None
    ensures TitleError("Sermon Title", "Sunday Morning") == None
  {
  }

  lemma SeriesCases()
    ensures UnknownSeriesMessage("Invalid Series") == "No existing series called \"Invalid Series\" was found."
    ensures SeriesError(Series(false, "Invalid Series", ""), ["Series A"]) ==
              Some(Plain(UnknownSeriesMessage("Invalid Series")))
    ensures SeriesError(Series(true, "", ""), []) == Some(Plain(NewSeriesMessage))
    ensures SeriesError(Series(true, "", "New Series"), []) == None
    ensures SeriesError(Series(false, "Series A", ""), ["Series A"]) == None
  {
  }

  /** Half a reference is rejected, no reference is accepted, and "Genesis" with "1:1" is handed on and accepted. */
  lemma ReferenceCases()
    ensures ReferenceError(ReferenceField("", "1:1"), BibleReferenceExamples.Sample) == Some(IncompleteReference)
    ensures ReferenceError(ReferenceField("Genesis", ""), BibleReferenceExamples.Sample) == Some(IncompleteReference)
    ensures ReferenceError(ReferenceField("", ""), BibleReferenceExamples.Sample) == None
    ensures ReferenceError(ReferenceField("Genesis", "1:1"), BibleReferenceExamples.Sample) == None
  {
    assert "Genesis" + " " + "1:1" == "Genesis 1:1";
    BibleReferenceExamples.AcceptsVerse();
  }

  lemma TimeCases()
    ensures TimeError("Invalid Time") == Some(InvalidTime)
    ensures TimeError("Sunday Morning") == None
    ensures TimeError("Sunday Evening") == None
    ensures TimeError("Other") == None
  {
  }

  lemma SermonFileMessage()
    ensures ExtensionMessage(SermonFile) == "Only .mp3 files are allowed for sermon files."
  {
    assert "Only ." + "mp3" + " files are allowed for " == "Only .mp3 files are allowed for ";
    assert "Only .mp3 files are allowed for " + "sermon file" + "s." == "Only .mp3 files are allowed for sermon files.";
  }

  lemma ThumbnailMessage()
    ensures ExtensionMessage(Thumbnail) == "Only .png files are allowed for thumbnails."
  {
    assert "Only ." + "png" + " files are allowed for " == "Only .png files are allowed for ";
    assert "Only .png files are allowed for " + "thumbnail" + "s." == "Only .png files are allowed for thumbnails.";
  }

  lemma ExtensionMessages()
    ensures ExtensionMessage(SermonFile) == "Only .mp3 files are allowed for sermon files."
    ensures ExtensionMessage(Thumbnail) == "Only .png files are allowed for thumbnails."
  {
    SermonFileMessage();
    ThumbnailMessage();
  }


  lemma ThumbnailCases()
    ensures FileError(Thumbnail, "thumbnail.png.jpg") == Some(Plain("Only .png files are allowed for thumbnails."))
    ensures FileError(Thumbnail, "thumbnail.png") == None
  {
    assert "." + Extension(Thumbnail) == ".png";
    assert "thumbnail.png"[9..] == ".png";
    assert "thumbnail.png.jpg"[13..] != ".png" by { assert "thumbnail.png.jpg"[13..][1] == 'j'; }
    ExtensionMessages();
  }

  lemma SermonFileCases()
    ensures FileError(SermonFile, "sermon-file.mp3.wav") == Some(Plain("Only .mp3 files are allowed for sermon files."))
    ensures FileError(SermonFile, "sermon-file.mp3") == None
  {
    assert "." + Extension(SermonFile) == ".mp3";
    assert "sermon-file.mp3"[11..] == ".mp3";
    assert "sermon-file.mp3.wav"[15..] != ".mp3" by { assert "sermon-file.mp3.wav"[15..][1] == 'w'; }
    ExtensionMessages();
  }

  /* ---------------- Whole forms ---------------- */

  /**
   * The form the test suite starts from: existing speaker and series, no
   * reference. The suite fills in today's date; here the date is a fixed day
   * of 2026, the current year passed to the checks.
   */
  const BaseForm := FormData(
    Speaker(false, "Speaker A", "", ""), "Sermon Title", Series(false, "Series A", ""),
    ReferenceField("", ""), "2026-10-14", "Sunday Morning", "sermon-file.mp3", "thumbnail.png")

  /** The speaker, title, series and reference of `BaseForm` pass against the lists used below. */
  lemma BaseFrontPasses()
    ensures SpeakerError(BaseForm.speaker, ["Speaker A"]) == None
    ensures TitleError(BaseForm.title, "Invalid Time") == None
    ensures SeriesError(BaseForm.series, ["Series A"]) == None
    ensures ReferenceError(BaseForm.reference, BibleReferenceExamples.Sample) == None
  {
    assert BaseForm.speaker.value == "Speaker A";
    assert BaseForm.series.value == "Series A";
  }

  /** The date, time and file names of `BaseForm` pass. */
  lemma BaseBackPasses()
    ensures DateError(BaseForm.date, 2026) == None
    ensures TimeError(BaseForm.time) == None
    ensures FileError(SermonFile, BaseForm.sermonFileName) == None
    ensures FileError(Thumbnail, BaseForm.sermonPicName) == None
  {
    DateValue("2026-10-14");
    assert "sermon-file.mp3"[11..] == ".mp3";
    assert "thumbnail.png"[9..] == ".png";
    assert "." + Extension(SermonFile) == ".mp3";
    assert "." + Extension(Thumbnail) == ".png";
  }

  lemma AcceptsBaseForm()
    ensures FirstError(Checks(BaseForm, ["Speaker A"], ["Series A"], BibleReferenceExamples.Sample, 2026)) == None
  {
    BaseFrontPasses();
    BaseBackPasses();
    AllEightPass(Checks(BaseForm, ["Speaker A"], ["Series A"], BibleReferenceExamples.Sample, 2026));
  }

  /** With a bad date, an unknown time and a wrong thumbnail all at once, the date is what is reported. */
  lemma ReportsDateBeforeTimeAndFiles()
    ensures var form := BaseForm.(date := "2025-02-29", time := "Invalid Time", sermonPicName := "picture.jpg");
            FirstError(Checks(form, ["Speaker A"], ["Series A"], BibleReferenceExamples.Sample, 2026)) ==
              Some(InvalidDay)
  {
    var form := BaseForm.(date := "2025-02-29", time := "Invalid Time", sermonPicName := "picture.jpg");
    BaseFrontPasses();
    DateValue("2025-02-29");
    assert DateError(form.date, 2026) == Some(InvalidDay);
    FirstErrorStep(Checks(form, ["Speaker A"], ["Series A"], BibleReferenceExamples.Sample, 2026), 4);
  }
}
