/**
 * The Bible reference validator (server/validators/BibleReferenceValidator.ts):
 * resolve the book by a case-insensitive whole-word prefix, turn the rest of
 * the text into a start/end record, and check that record against the book's
 * chapter and verse counts.
 *
 * The book table (bibleData.json) is a parameter. Components are the result of
 * `Number()` and are compared with JavaScript's rules: NaN compares false with
 * everything, and 0 and NaN are falsy in the checks that test truthiness.
 */
module BibleReference {
  import opened Wrappers
  import opened JsText
  import opened UserErrors

  /* ---------------- Data ---------------- */

  /** A row of the book table: `chapters[i]` is the verse count of chapter i + 1. */
  datatype Book = Book(name: string, abbr: seq<string>, chapters: seq<nat>)

  /** `{ chapter, verse? }`. */
  datatype Verse = Verse(chapter: JsNum, verse: Option<JsNum>)

  /** `{ start, end? }`. */
  datatype Reference = Reference(start: Verse, end: Option<Verse>)

  /** What a successful validation has established: the book and the reference. */
  datatype ParsedReference = ParsedReference(book: Book, reference: Reference)

  /* ---------------- Errors: one message, a distinct info each ---------------- */

  const InvalidReferenceMessage := "An invalid Bible reference was provided."

  const BookNotFoundInfo := "The provided book could not be found."
  const DashInfo := "Expected only 1 dash in the reference."
  const ColonsEndInfo := "Too many colons were found at the end of the reference."
  const ColonsStartInfo := "Too many colons were found at the beginning of the reference."
  const OutOfRangeInfo := "The provided reference is out of range."
  const OrderInfo := "The beginning of the reference is larger than the end of the reference."

  function Rejection(info: string): Error {
    Error(InvalidReferenceMessage, Some(info), None)
  }

  /* ---------------- Book lookup ---------------- */

  /**
   * The alternatives of the pattern `^(name|abbr[0]|...|abbr[n-1])\b`. With an
   * empty abbreviation list `abbr.join("|")` is "", so the pattern is
   * `^(name|)\b`: its empty alternative matches every input that starts with
   * a word character.
   */
  function Alternatives(b: Book): (alts: seq<string>)
    ensures |alts| >= 2 && alts[0] == b.name
  {
    [b.name] + (if b.abbr == [] then [""] else b.abbr)
  }

  /** One alternative matches: a case-insensitive prefix followed by `\b`. */
  predicate AltMatches(alt: string, s: string) {
    StartsWithIgnoringCase(s, alt) && WordBoundary(s, |alt|)
  }

  /** Some alternative in `alts` matches (the regex engine tries each in turn). */
  predicate AnyAltMatches(alts: seq<string>, s: string) {
    alts != [] && (AltMatches(alts[0], s) || AnyAltMatches(alts[1..], s))
  }

  lemma {:induction false} AnyAltMatchesMeans(alts: seq<string>, s: string)
    ensures AnyAltMatches(alts, s) <==> exists k :: 0 <= k < |alts| && AltMatches(alts[k], s)
  {
    if alts != [] {
      AnyAltMatchesMeans(alts[1..], s);
      if exists k :: 0 <= k < |alts| && AltMatches(alts[k], s) {
        var k :| 0 <= k < |alts| && AltMatches(alts[k], s);
        if k > 0 {
          assert alts[1..][k - 1] == alts[k];
        }
      }
    }
  }

  /** The test `new RegExp(`^(${b.name}|${b.abbr.join("|")})\\b`, "i").test(s)`. */
  predicate BookMatches(b: Book, s: string) {
    AnyAltMatches(Alternatives(b), s)
  }

  /** `books.find(...)` from index `from` on: the index of the first matching book. */
  function FindFrom(books: seq<Book>, s: string, from: nat): (r: Option<nat>)
    requires from <= |books|
    ensures r.Some? ==> from <= r.value < |books| && BookMatches(books[r.value], s)
    ensures r.Some? ==> forall j :: from <= j < r.value ==> !BookMatches(books[j], s)
    ensures r.None? ==> forall j :: from <= j < |books| ==> !BookMatches(books[j], s)
    decreases |books| - from
  {
    if from == |books| then None
    else if BookMatches(books[from], s) then Some(from)
    else FindFrom(books, s, from + 1)
  }

  /** The index of the book `validate` resolves `s` to, if any. */
  function FindBook(books: seq<Book>, s: string): Option<nat> {
    FindFrom(books, s, 0)
  }

  /**
   * The book is the first entry of the table, in declaration order, whose
   * name or one of whose abbreviations matches; no match means no book.
   */
  lemma FindBookIsFirstMatch(books: seq<Book>, s: string, i: nat)
    requires i < |books|
    ensures FindBook(books, s) == Some(i) <==>
              BookMatches(books[i], s) && forall j :: 0 <= j < i ==> !BookMatches(books[j], s)
  {
  }

  /** A book matches exactly when its name or an abbreviation matches (or, with no abbreviations, the empty alternative does). */
  lemma BookMatchesMeans(b: Book, s: string)
    ensures BookMatches(b, s) <==>
              AltMatches(b.name, s)
              || (b.abbr == [] && AltMatches("", s))
              || (exists k :: 0 <= k < |b.abbr| && AltMatches(b.abbr[k], s))
  {
    var alts := Alternatives(b);
    AnyAltMatchesMeans(alts, s);
    if b.abbr != [] {
      forall k | 0 <= k < |b.abbr| ensures alts[k + 1] == b.abbr[k] { }
      if exists k :: 0 <= k < |alts| && AltMatches(alts[k], s) {
        var k :| 0 <= k < |alts| && AltMatches(alts[k], s);
        if k > 0 {
          assert AltMatches(b.abbr[k - 1], s);
        }
      }
    } else {
      assert alts == [b.name, ""];
    }
  }

  /** The quirk of an empty abbreviation list: any input that starts with a word character matches. */
  lemma EmptyAbbrMatchesWordStart(b: Book, s: string)
    requires b.abbr == []
    requires |s| > 0 && IsWordChar(s[0])
    ensures BookMatches(b, s)
  {
    assert AltMatches("", s) by {
      assert s[..0] == [];
    }
    BookMatchesMeans(b, s);
  }

  /** A name that is only a prefix of a longer word does not match (no partial-word match). */
  lemma NoPartialWordMatch(alt: string, s: string)
    requires |alt| > 0 && IsWordChar(alt[|alt| - 1])
    requires |alt| < |s| && IsWordChar(s[|alt|])
    ensures !AltMatches(alt, s)
  {
    if StartsWithIgnoringCase(s, alt) {
      EqualsIgnoringCaseMeans(alt, s[..|alt|]);
      assert Fold(alt[|alt| - 1]) == Fold(s[|alt| - 1]);
    }
  }

  /* ---------------- The reference object ---------------- */

  /** The reference text left for parsing: `s.replace(book.name, "").replace(/\s/g, "")`. */
  function PassageText(b: Book, s: string): (p: string)
    ensures forall i :: 0 <= i < |p| ==> !IsWhitespace(p[i])
  {
    RemoveWhitespace(ReplaceFirst(s, b.name))
  }

  /**
   * The immediately invoked function that builds the reference object from
   * the passage text. The dash count is checked before anything else; an empty
   * part before the first dash means `{ start: { chapter: 1 } }`.
   */
  function ParseReference(passage: string): (r: Result<Reference, Error>)
    ensures r.Err? ==> r.error in {Rejection(DashInfo), Rejection(ColonsEndInfo), Rejection(ColonsStartInfo)}
  {
    var parts := Split(passage, '-');
    var startArr := ToNumbers(Split(parts[0], ':'));
    if |parts| > 2 then Err(Rejection(DashInfo))
    else if parts[0] == "" then Ok(Reference(Verse(Val(1), None), None))
    else if |startArr| == 1 then
      var start := Verse(startArr[0], None);
      if |parts| == 1 then Ok(Reference(start, None))
      else
        var endArr := ToNumbers(Split(parts[1], ':'));
        if |endArr| == 1 then Ok(Reference(start, Some(Verse(endArr[0], None))))
        else if |endArr| == 2 then Ok(Reference(start, Some(Verse(endArr[0], Some(endArr[1])))))
        else Err(Rejection(ColonsEndInfo))
    else if |startArr| == 2 then
      var start := Verse(startArr[0], Some(startArr[1]));
      if |parts| == 1 then Ok(Reference(start, None))
      else
        var endArr := ToNumbers(Split(parts[1], ':'));
        if |endArr| == 1 then Ok(Reference(start, Some(Verse(startArr[0], Some(endArr[0])))))
        else if |endArr| == 2 then Ok(Reference(start, Some(Verse(endArr[0], Some(endArr[1])))))
        else Err(Rejection(ColonsEndInfo))
    else Err(Rejection(ColonsStartInfo))
  }

  /* ---------------- JavaScript comparisons ---------------- */

  predicate Truthy(x: JsNum) {
    x.Val? && x.n != 0
  }

  /** Truthiness of an optional property: `undefined` is falsy. */
  predicate OptTruthy(x: Option<JsNum>) {
    x.Some? && Truthy(x.value)
  }

  predicate JsLe(a: JsNum, b: JsNum) {
    a.Val? && b.Val? && a.n <= b.n
  }

  predicate JsGt(a: JsNum, b: JsNum) {
    a.Val? && b.Val? && a.n > b.n
  }

  /** `===` on numbers: NaN is not equal to itself. */
  predicate JsEq(a: JsNum, b: JsNum) {
    a.Val? && b.Val? && a.n == b.n
  }

  /** `book.chapters[chapter - 1]`, with an index outside the table giving `undefined` (NaN in a comparison). */
  function ChapterEntry(b: Book, chapter: JsNum): JsNum {
    if chapter.Val? && 1 <= chapter.n <= |b.chapters| then Val(b.chapters[chapter.n - 1]) else NaN
  }

  /* ---------------- Range checks ---------------- */

  /**
   * `chapterInRange`: a one-chapter book checks the number against that
   * chapter's verse count, any other book against its chapter count. There
   * is no lower bound.
   */
  predicate ChapterInRange(b: Book, chapter: JsNum) {
    if |b.chapters| == 1 then JsLe(chapter, Val(b.chapters[0]))
    else JsLe(chapter, Val(|b.chapters|))
  }

  /** `verseInRange`: the verse is at most the verse count of the chapter. */
  predicate VerseInRange(b: Book, chapter: JsNum, verse: JsNum) {
    JsLe(verse, ChapterEntry(b, chapter))
  }

  /** The negation of the out-of-range condition of `validate`. */
  predicate InRange(b: Book, r: Reference) {
    && ChapterInRange(b, r.start.chapter)
    && (OptTruthy(r.start.verse) ==> VerseInRange(b, r.start.chapter, r.start.verse.value))
    && (r.end.Some? && Truthy(r.end.value.chapter) ==> ChapterInRange(b, r.end.value.chapter))
    && (r.end.Some? && OptTruthy(r.end.value.verse) ==>
          VerseInRange(b, r.end.value.chapter, r.end.value.verse.value))
  }

  /** The ordering rejection: the start is after the end. */
  predicate EndBeforeStart(r: Reference) {
    r.end.Some? &&
    var (s, e) := (r.start, r.end.value);
    || JsGt(s.chapter, e.chapter)
    || (JsEq(s.chapter, e.chapter) && OptTruthy(s.verse) && OptTruthy(e.verse)
        && JsGt(s.verse.value, e.verse.value))
  }

  /* ---------------- validate ---------------- */

  /**
   * `BibleReferenceValidator.validate`: a thrown `UserError` is an `Err`; on
   * success the book and the reference object are returned.
   */
  function Validate(books: seq<Book>, s: string): (r: Result<ParsedReference, Error>)
    ensures FindBook(books, s).None? <==> r == Err(Rejection(BookNotFoundInfo))
    ensures r.Ok? <==>
              && FindBook(books, s).Some?
              && var b := books[FindBook(books, s).value];
                 && ParseReference(PassageText(b, s)).Ok?
                 && InRange(b, ParseReference(PassageText(b, s)).value)
                 && !EndBeforeStart(ParseReference(PassageText(b, s)).value)
    ensures r.Ok? ==>
              && r.value.book == books[FindBook(books, s).value]
              && ParseReference(PassageText(r.value.book, s)) == Ok(r.value.reference)
    ensures r.Err? ==> r.error.message == InvalidReferenceMessage && r.error.info.Some?
                       && r.error.suggestion.None?
  {
    match FindBook(books, s)
    case None => Err(Rejection(BookNotFoundInfo))
    case Some(i) =>
      var b := books[i];
      match ParseReference(PassageText(b, s))
      case Err(e) => Err(e)
      case Ok(ref) =>
        if !InRange(b, ref) then Err(Rejection(OutOfRangeInfo))
        else if EndBeforeStart(ref) then Err(Rejection(OrderInfo))
        else Ok(ParsedReference(b, ref))
  }
}
