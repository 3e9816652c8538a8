/**
 * How the upload route feeds a validated form to the file helpers
 * (server/routes/podbeanRouter.ts:14-25), and what validation then
 * guarantees about the new file name and the ID3 tags. The HTTP handling
 * and the publish call are not part of this model.
 */
module SermonUpload {
  import opened Wrappers
  import opened JsText
  import opened IsoDate
  import SermonForm
  import SermonFormProperties
  import opened SermonFiles

  /** A new speaker is "first last" and a new series its new name; otherwise the chosen entry. */
  function ToDetails(form: SermonForm.FormData): SermonDetails {
    SermonDetails(
      speaker := if form.speaker.isNew then form.speaker.firstName + " " + form.speaker.lastName
                 else form.speaker.value,
      title := form.title,
      reference := ReferenceField(form.reference.book, form.reference.passage),
      series := if form.series.isNew then form.series.newValue else form.series.value,
      date := form.date,
      time := form.time,
      sermonFileName := form.sermonFileName,
      sermonPicName := form.sermonPicName)
  }

  /**
   * Once the date has passed validation, the year tag is a year from 1900 to
   * `currentYear`, the date tag holds a real day of that month, and the new
   * file name reads back to that date and the time suffix.
   */
  lemma ValidatedDateGivesSoundTags(form: SermonForm.FormData, currentYear: int)
    requires SermonForm.DateError(form.date, currentYear).None?
    ensures var tags := ID3Tags(ToDetails(form));
            && tags.year.Some?
            && exists y: nat :: ToNumber(tags.year.value) == Val(y) && 1900 <= y <= currentYear
    ensures var tags := ID3Tags(ToDetails(form));
            && |tags.date| == 4
            && exists d: nat, m: nat :: && ToNumber(tags.date[..2]) == Val(d) && ToNumber(tags.date[2..]) == Val(m)
                                     && 1 <= m <= 12 && 1 <= d <= SermonForm.DaysInMonth(YearOf(form.date), m)
    ensures DecodeFileName(NewFileNameFor(ToDetails(form))).Some?
    ensures DecodeFileName(NewFileNameFor(ToDetails(form))).value.stamp ==
              form.date + TimeSuffix(form.time)
  {
    SermonFormProperties.DateAcceptedMeans(form.date, currentYear);
    var details := ToDetails(form);
    IsoDateTags(details);
    var tags := ID3Tags(details);
    assert ToNumber(tags.year.value) == Val(YearOf(form.date));
    assert ToNumber(tags.date[..2]) == Val(DayOf(form.date)) && ToNumber(tags.date[2..]) == Val(MonthOf(form.date));
    assert '_' !in form.date by { assert forall i :: 0 <= i < |form.date| ==> form.date[i] != '_'; }
    DecodeNewFileName(form.date, form.time, details.speaker);
  }

  /** A sermon in a series, new or existing, is tagged with that series; "(None)" leaves the tag out. */
  lemma SeriesTag(form: SermonForm.FormData)
    ensures var name := if form.series.isNew then form.series.newValue else form.series.value;
            ID3Tags(ToDetails(form)).contentGroup == if name == "(None)" then None else Some(name)
  {
  }

  lemma StripSpace()
    ensures RemoveWhitespace([' ']) == []
  {
    var space: string := [' '];
    assert space[1..] == [];
    assert IsWhitespace(space[0]);
  }

  lemma StripLeadingSpace(last: string)
    requires forall i :: 0 <= i < |last| ==> !IsWhitespace(last[i])
    ensures RemoveWhitespace([' '] + last) == last
  {
    StripSpace();
    RemoveWhitespaceAppend([' '], last);
    RemoveWhitespaceNone(last);
    assert [] + last == last;
  }

  /** Joining two names with a space and stripping whitespace gives the names run together. */
  lemma StripJoinedName(first: string, last: string)
    requires forall i :: 0 <= i < |first| ==> !IsWhitespace(first[i])
    requires forall i :: 0 <= i < |last| ==> !IsWhitespace(last[i])
    ensures RemoveWhitespace(first + " " + last) == first + last
  {
    assert first + " " + last == first + ([' '] + last);
    StripLeadingSpace(last);
    RemoveWhitespaceAppend(first, [' '] + last);
    RemoveWhitespaceNone(first);
  }

  lemma StripJaneDoe()
    ensures RemoveWhitespace("Jane Doe") == "JaneDoe"
  {
    var first, last := "Jane", "Doe";
    assert !IsWhitespace(first[0]) && !IsWhitespace(first[1]) && !IsWhitespace(first[2]) && !IsWhitespace(first[3]);
    assert !IsWhitespace(last[0]) && !IsWhitespace(last[1]) && !IsWhitespace(last[2]);
    assert forall i :: 0 <= i < |first| ==> !IsWhitespace(first[i]) by {
      forall i | 0 <= i < |first| ensures !IsWhitespace(first[i]) { assert i in {0, 1, 2, 3}; }
    }
    assert forall i :: 0 <= i < |last| ==> !IsWhitespace(last[i]) by {
      forall i | 0 <= i < |last| ensures !IsWhitespace(last[i]) { assert i in {0, 1, 2}; }
    }
    StripJoinedName(first, last);
    assert first + " " + last == "Jane Doe";
  }

  /** A new speaker "Jane Doe" is filed under "JaneDoe". */
  lemma NewSpeakerFileName(form: SermonForm.FormData)
    requires form.speaker.isNew && form.speaker.firstName == "Jane" && form.speaker.lastName == "Doe"
    requires form.date == "2025-10-12" && form.time == "Sunday Morning"
    ensures NewFileNameFor(ToDetails(form)) == "GHC_2025-10-12am_JaneDoe.mp3"
  {
    var details := ToDetails(form);
    assert details.speaker == "Jane Doe";
    assert TimeSuffix(details.time) == "am";
    StripJaneDoe();
    JaneDoeName();
  }

  lemma JaneDoeName()
    ensures NewFileName("2025-10-12", "Sunday Morning", "Jane Doe") == "GHC_2025-10-12am_JaneDoe.mp3"
  {
    StripJaneDoe();
    assert TimeSuffix("Sunday Morning") == "am";
    var a := "GHC_" + "2025-10-12";
    assert a == "GHC_2025-10-12";
    var b := a + "am";
    assert b == "GHC_2025-10-12am";
    var c := b + "_";
    assert c == "GHC_2025-10-12am_";
    var d := c + "JaneDoe";
    assert d == "GHC_2025-10-12am_JaneDoe";
    assert d + ".mp3" == "GHC_2025-10-12am_JaneDoe.mp3";
  }
}
