/**
 * The canonical sermon file name and the ID3 tag record (server/helpers/files.ts).
 * The rename, the existence probe and the tag write are file-system calls;
 * here the sermon directory is the set of names it holds, and the tag record
 * is returned rather than written.
 */
module SermonFiles {
  import opened Wrappers
  import opened JsText
  import opened UserErrors
  import opened IsoDate

  datatype ReferenceField = ReferenceField(book: string, passage: string)

  /** The validated form data the helpers receive. */
  datatype SermonDetails = SermonDetails(
    speaker: string,
    title: string,
    reference: ReferenceField,
    series: string,
    date: string,
    time: string,
    sermonFileName: string,
    sermonPicName: string)

  /* ---------------- The new file name ---------------- */

  /** Morning services are "am", evening services "pm", anything else has no suffix. */
  function TimeSuffix(time: string): (suffix: string)
    ensures suffix == "am" <==> time == "Sunday Morning"
    ensures suffix == "pm" <==> time == "Sunday Evening"
    ensures suffix == "" <==> time != "Sunday Morning" && time != "Sunday Evening"
  {
    if time == "Sunday Morning" then "am"
    else if time == "Sunday Evening" then "pm"
    else ""
  }

  /** `GHC_<date><am|pm|>_<speaker without whitespace>.mp3`. */
  function NewFileName(date: string, time: string, speaker: string): string {
    "GHC_" + date + TimeSuffix(time) + "_" + RemoveWhitespace(speaker) + ".mp3"
  }

  /** The two variable parts of a canonical name: the date stamp and the speaker. */
  datatype FileNameParts = FileNameParts(stamp: string, speaker: string)

  /**
   * Reads a canonical name back: after the "GHC_" prefix, the stamp runs to
   * the first underscore and the speaker from there to the ".mp3" extension.
   */
  function DecodeFileName(name: string): Option<FileNameParts> {
    if |name| < 8 || name[..4] != "GHC_" || !EndsWith(name, ".mp3") then None
    else
      var body := name[4..|name| - 4];
      match IndexOf(body, "_")
      case None => None
      case Some(k) => Some(FileNameParts(body[..k], body[k + 1..]))
  }

  /** The first underscore of `a + "_" + b` is the one after `a` when `a` has none. */
  lemma FirstUnderscore(a: string, b: string)
    requires '_' !in a
    ensures IndexOf(a + "_" + b, "_") == Some(|a|)
  {
    var s := a + "_" + b;
    assert OccursAt(s, "_", |a|) by { assert s[|a|..|a| + 1] == "_"; }
    forall j | 0 <= j < |a| ensures !OccursAt(s, "_", j) {
      assert s[j..j + 1] == [a[j]];
    }
    var r := IndexOf(s, "_");
    assert r.Some?;
  }

  /** Decoding a new file name gives back the date stamp and the speaker without whitespace. */
  lemma DecodeNewFileName(date: string, time: string, speaker: string)
    requires '_' !in date
    ensures DecodeFileName(NewFileName(date, time, speaker)) ==
              Some(FileNameParts(date + TimeSuffix(time), RemoveWhitespace(speaker)))
  {
    var stamp := date + TimeSuffix(time);
    var tail := RemoveWhitespace(speaker);
    var name := NewFileName(date, time, speaker);
    assert '_' !in stamp by {
      assert forall c :: c in TimeSuffix(time) ==> c != '_';
      assert forall i :: 0 <= i < |stamp| ==> stamp[i] in date || stamp[i] in TimeSuffix(time);
    }
    assert name == "GHC_" + (stamp + "_" + tail) + ".mp3";
    assert name[4..|name| - 4] == stamp + "_" + tail;
    assert name[..4] == "GHC_";
    assert name[|name| - 4..] == ".mp3";
    FirstUnderscore(stamp, tail);
    assert (stamp + "_" + tail)[..|stamp|] == stamp;
    assert (stamp + "_" + tail)[|stamp| + 1..] == tail;
  }

  /**
   * For well-formed dates the name determines the date, the time suffix and
   * the speaker up to whitespace: two sermons share a name only if they share all three.
   */
  lemma NewFileNameInjective(d1: string, t1: string, s1: string, d2: string, t2: string, s2: string)
    requires IsIsoDateFormat(d1) && IsIsoDateFormat(d2)
    requires NewFileName(d1, t1, s1) == NewFileName(d2, t2, s2)
    ensures d1 == d2 && TimeSuffix(t1) == TimeSuffix(t2)
    ensures RemoveWhitespace(s1) == RemoveWhitespace(s2)
  {
    assert '_' !in d1 by { assert forall i :: 0 <= i < |d1| ==> d1[i] != '_'; }
    assert '_' !in d2 by { assert forall i :: 0 <= i < |d2| ==> d2[i] != '_'; }
    DecodeNewFileName(d1, t1, s1);
    DecodeNewFileName(d2, t2, s2);
    var x1, x2 := d1 + TimeSuffix(t1), d2 + TimeSuffix(t2);
    assert x1 == x2;
    assert d1 == x1[..10] && d2 == x2[..10];
    assert TimeSuffix(t1) == x1[10..] && TimeSuffix(t2) == x2[10..];
  }

  /** A new name has no whitespace when the date has none. */
  lemma NewFileNameHasNoWhitespace(date: string, time: string, speaker: string)
    requires forall i :: 0 <= i < |date| ==> !IsWhitespace(date[i])
    ensures forall i :: 0 <= i < |NewFileName(date, time, speaker)| ==>
              !IsWhitespace(NewFileName(date, time, speaker)[i])
  {
    var n := NewFileName(date, time, speaker);
    var suffix, tail := TimeSuffix(time), RemoveWhitespace(speaker);
    forall i | 0 <= i < |n| ensures !IsWhitespace(n[i]) {
      if i < 4 {
      } else if i < 4 + |date| {
        assert n[i] == date[i - 4];
      } else if i < 4 + |date| + |suffix| {
        assert n[i] == suffix[i - 4 - |date|];
      } else if i == 4 + |date| + |suffix| {
      } else if i < 5 + |date| + |suffix| + |tail| {
        assert n[i] == tail[i - 5 - |date| - |suffix|];
      } else {
        assert n[i] == ".mp3"[i - 5 - |date| - |suffix| - |tail|];
      }
    }
  }

  /* ---------------- Renaming ---------------- */

  const RenameInfo :=
    "All sermon files are renamed to a standard format during the uploading process to make it easier to track sermon history."

  function RenameConflict(current: string, target: string): Error {
    Error("File " + current + " could not be renamed to " + target + " because " + target + " already exists.",
          Some(RenameInfo),
          Some("Consider moving or renaming the existing file (" + target + ") so that the upload process may continue."))
  }

  function NewFileNameFor(info: SermonDetails): string {
    NewFileName(info.date, info.time, info.speaker)
  }

  /**
   * `updateSermonFileName` against a sermon directory holding `existing`: a
   * file already carrying its canonical name keeps it; otherwise the rename
   * goes ahead unless another file already has that name.
   */
  function UpdateSermonFileName(info: SermonDetails, existing: set<string>): (r: Result<string, Error>)
    ensures r.Ok? <==> NewFileNameFor(info) == info.sermonFileName || NewFileNameFor(info) !in existing
    ensures r.Ok? ==> r.value == NewFileNameFor(info)
    ensures r.Err? ==> r.error == RenameConflict(info.sermonFileName, NewFileNameFor(info))
  {
    var target := NewFileNameFor(info);
    if target == info.sermonFileName then Ok(info.sermonFileName)
    else if target in existing then Err(RenameConflict(info.sermonFileName, target))
    else Ok(target)
  }

  /** The sermon directory after `updateSermonFileName`: the file moves to its new name, or nothing changes. */
  function DirectoryAfter(info: SermonDetails, existing: set<string>): (after: set<string>)
    ensures UpdateSermonFileName(info, existing).Err? ==> after == existing
    ensures info.sermonFileName in existing && UpdateSermonFileName(info, existing).Ok? ==>
              && UpdateSermonFileName(info, existing).value in after
              && |after| == |existing|
              && after - {UpdateSermonFileName(info, existing).value} ==
                 existing - {info.sermonFileName, UpdateSermonFileName(info, existing).value}
  {
    match UpdateSermonFileName(info, existing)
    case Err(_) => existing
    case Ok(target) =>
      if target == info.sermonFileName then existing
      else
        var after := existing - {info.sermonFileName} + {target};
        assert info.sermonFileName in existing ==>
                 existing - {info.sermonFileName} + {info.sermonFileName} == existing;
        after
  }

  /** Renaming is idempotent: a file that already has its canonical name is left alone. */
  lemma RenameIdempotent(info: SermonDetails, existing: set<string>)
    requires UpdateSermonFileName(info, existing).Ok?
    ensures var renamed := info.(sermonFileName := UpdateSermonFileName(info, existing).value);
            && UpdateSermonFileName(renamed, DirectoryAfter(info, existing)) == Ok(renamed.sermonFileName)
            && DirectoryAfter(renamed, DirectoryAfter(info, existing)) == DirectoryAfter(info, existing)
  {
  }

  /* ---------------- ID3 tags ---------------- */

  /** The cover-art frame; the image bytes read from the thumbnail directory are not modelled. */
  datatype Image = Image(mime: string, typeId: nat, typeName: string, description: string)

  datatype Tags = Tags(
    artist: string,
    title: string,
    subtitle: string,
    date: string,
    year: Option<string>,
    genre: string,
    language: string,
    publisher: string,
    publisherUrl: string,
    album: string,
    copyright: string,
    image: Image,
    contentGroup: Option<string>)

  /** Element `i` of an array destructuring, `undefined` past the end. */
  function PartAt(parts: seq<string>, i: nat): (p: Option<string>)
    ensures p.Some? <==> i < |parts|
    ensures p.Some? ==> p.value == parts[i]
  {
    if i < |parts| then Some(parts[i]) else None
  }

  /** A value interpolated into a template literal: `undefined` prints as "undefined". */
  function Templated(v: Option<string>): string {
    match v
    case None => "undefined"
    case Some(s) => s
  }

  const CoverArt := Image("image/png", 3, "front cover", "Grace Harbor Church")

  /** The tag record `applyID3Tags` writes, with `contentGroup` only for a sermon in a series. */
  function ID3Tags(data: SermonDetails): (t: Tags)
    ensures t.artist == data.speaker && t.title == data.title
    ensures t.subtitle == data.reference.book + " " + data.reference.passage
    ensures t.genre == "Speech" && t.language == "eng" && t.album == "GHC Sermons"
    ensures t.publisher == "Grace Harbor Church, Providence, RI"
    ensures t.publisherUrl == "https://www.graceharbor.net"
    ensures t.image == CoverArt
    ensures t.contentGroup.Some? <==> data.series != "(None)"
    ensures t.contentGroup.Some? ==> t.contentGroup.value == data.series
  {
    var parts := Split(data.date, '-');
    var year, month, day := PartAt(parts, 0), PartAt(parts, 1), PartAt(parts, 2);
    Tags(
      artist := data.speaker,
      title := data.title,
      subtitle := data.reference.book + " " + data.reference.passage,
      date := Templated(day) + Templated(month),
      year := year,
      genre := "Speech",
      language := "eng",
      publisher := "Grace Harbor Church, Providence, RI",
      publisherUrl := "https://www.graceharbor.net",
      album := "GHC Sermons",
      copyright := Templated(year) + ", Grace Harbor Church",
      image := CoverArt,
      contentGroup := if data.series != "(None)" then Some(data.series) else None)
  }

  /**
   * For a `YYYY-MM-DD` date the date tag is `DDMM`, the year tag is `YYYY`
   * and the copyright names that year; the tag's digits are the same day,
   * month and year the form validator checked.
   */
  lemma IsoDateTags(data: SermonDetails)
    requires IsIsoDateFormat(data.date)
    ensures ID3Tags(data).date == data.date[8..10] + data.date[5..7]
    ensures ID3Tags(data).year == Some(data.date[..4])
    ensures ID3Tags(data).copyright == data.date[..4] + ", Grace Harbor Church"
    ensures |ID3Tags(data).date| == 4
    ensures ToNumber(ID3Tags(data).date[..2]) == Val(DayOf(data.date))
    ensures ToNumber(ID3Tags(data).date[2..]) == Val(MonthOf(data.date))
    ensures ToNumber(ID3Tags(data).year.value) == Val(YearOf(data.date))
  {
    SplitIsoDate(data.date);
    var d := data.date;
    assert d[8..] == d[8..10];
    var t := d[8..10] + d[5..7];
    assert t[..2] == d[8..10] && t[2..] == d[5..7];
    assert d[..4] == d[0..4];
  }

  /**
   * A date with no dash destructures into one part: the day and month are
   * `undefined`, so the date tag is literally "undefinedundefined" and the
   * whole string becomes the year.
   */
  lemma DashlessDateTags(data: SermonDetails)
    requires '-' !in data.date
    ensures ID3Tags(data).date == "undefinedundefined"
    ensures ID3Tags(data).year == Some(data.date)
    ensures ID3Tags(data).copyright == data.date + ", Grace Harbor Church"
  {
    SplitNone(data.date, '-');
  }
}
