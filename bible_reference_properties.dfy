/**
 * What the Bible reference validator promises, stated over all inputs: the
 * table of reference shapes, the order of the checks, the range and ordering
 * rules in plain arithmetic terms, the quirks that come from `Number()` and
 * JavaScript comparisons, and a round trip through a canonical rendering.
 */
module BibleReferenceProperties {
  import opened Wrappers
  import opened JsText
  import opened UserErrors
  import opened BibleReference

  /** A component of a reference: text with no dash and no colon. */
  predicate IsComponent(x: string) {
    '-' !in x && ':' !in x
  }

  /* ---------------- The shape table ---------------- */

  /** More than one dash is rejected, whatever the colons. */
  lemma TooManyDashes(passage: string)
    requires Count(passage, '-') >= 2
    ensures ParseReference(passage) == Err(Rejection(DashInfo))
  {
  }

  /** Nothing before the first dash: chapter 1 and no end, even when text follows the dash. */
  lemma EmptyStartIsChapterOne(tail: string)
    requires '-' !in tail
    ensures ParseReference("") == Ok(Reference(Verse(Val(1), None), None))
    ensures ParseReference("-" + tail) == Ok(Reference(Verse(Val(1), None), None))
  {
    SplitCons("", '-', tail);
    assert "" + "-" + tail == "-" + tail;
    SplitNone(tail, '-');
  }

  /** `c`: a chapter. */
  lemma ShapeChapter(c: string)
    requires c != "" && IsComponent(c)
    ensures ParseReference(c) == Ok(Reference(Verse(ToNumber(c), None), None))
  {
    SplitNone(c, '-');
    SplitNone(c, ':');
  }

  /** `c:v`: a chapter and verse; an empty `c` is chapter `Number("")`, that is 0. */
  lemma ShapeVerse(c: string, v: string)
    requires IsComponent(c) && IsComponent(v)
    ensures ParseReference(c + ":" + v) ==
              Ok(Reference(Verse(ToNumber(c), Some(ToNumber(v))), None))
  {
    var p := c + ":" + v;
    assert '-' !in p;
    SplitNone(p, '-');
    SplitCons(c, ':', v);
    SplitNone(v, ':');
  }

  /** `c1-c2`: chapter to chapter. */
  lemma ShapeChapterToChapter(c1: string, c2: string)
    requires c1 != "" && IsComponent(c1) && IsComponent(c2)
    ensures ParseReference(c1 + "-" + c2) ==
              Ok(Reference(Verse(ToNumber(c1), None), Some(Verse(ToNumber(c2), None))))
  {
    SplitCons(c1, '-', c2);
    SplitNone(c2, '-');
    SplitNone(c1, ':');
    SplitNone(c2, ':');
  }

  /** `c1-c2:v2`: the start of a chapter to a verse of another. */
  lemma ShapeChapterToVerse(c1: string, c2: string, v2: string)
    requires c1 != "" && IsComponent(c1) && IsComponent(c2) && IsComponent(v2)
    ensures ParseReference(c1 + "-" + c2 + ":" + v2) ==
              Ok(Reference(Verse(ToNumber(c1), None),
                           Some(Verse(ToNumber(c2), Some(ToNumber(v2))))))
  {
    var e := c2 + ":" + v2;
    assert c1 + "-" + c2 + ":" + v2 == c1 + "-" + e;
    assert '-' !in e;
    SplitCons(c1, '-', e);
    SplitNone(e, '-');
    SplitNone(c1, ':');
    SplitCons(c2, ':', v2);
    SplitNone(v2, ':');
  }

  /** `c:v1-v2`: a single end number is a verse in the start's chapter. */
  lemma ShapeVerseToVerseSameChapter(c: string, v1: string, v2: string)
    requires IsComponent(c) && IsComponent(v1) && IsComponent(v2)
    ensures ParseReference(c + ":" + v1 + "-" + v2) ==
              Ok(Reference(Verse(ToNumber(c), Some(ToNumber(v1))),
                           Some(Verse(ToNumber(c), Some(ToNumber(v2))))))
  {
    var st := c + ":" + v1;
    assert '-' !in st;
    SplitCons(st, '-', v2);
    SplitNone(v2, '-');
    SplitCons(c, ':', v1);
    SplitNone(v1, ':');
    SplitNone(v2, ':');
  }

  /** `c1:v1-c2:v2`: independent chapter and verse at both ends. */
  lemma ShapeVerseToVerse(c1: string, v1: string, c2: string, v2: string)
    requires IsComponent(c1) && IsComponent(v1)
    requires IsComponent(c2) && IsComponent(v2)
    ensures ParseReference(c1 + ":" + v1 + "-" + c2 + ":" + v2) ==
              Ok(Reference(Verse(ToNumber(c1), Some(ToNumber(v1))),
                           Some(Verse(ToNumber(c2), Some(ToNumber(v2))))))
  {
    var st := c1 + ":" + v1;
    var e := c2 + ":" + v2;
    assert c1 + ":" + v1 + "-" + c2 + ":" + v2 == st + "-" + e;
    assert '-' !in st && '-' !in e;
    SplitCons(st, '-', e);
    SplitNone(e, '-');
    SplitCons(c1, ':', v1);
    SplitNone(v1, ':');
    SplitCons(c2, ':', v2);
    SplitNone(v2, ':');
  }

  /** Three or more colon-separated numbers after the dash. */
  lemma TooManyColonsAtEnd(st: string, e: string)
    requires st != "" && '-' !in st && Count(st, ':') <= 1
    requires '-' !in e && Count(e, ':') >= 2
    ensures ParseReference(st + "-" + e) == Err(Rejection(ColonsEndInfo))
  {
    SplitCons(st, '-', e);
    SplitNone(e, '-');
  }

  /** Three or more colon-separated numbers before the dash, with or without an end. */
  lemma TooManyColonsAtStart(st: string, e: string)
    requires st != "" && '-' !in st && Count(st, ':') >= 2
    requires '-' !in e
    ensures ParseReference(st) == Err(Rejection(ColonsStartInfo))
    ensures ParseReference(st + "-" + e) == Err(Rejection(ColonsStartInfo))
  {
    SplitNone(st, '-');
    SplitCons(st, '-', e);
    SplitNone(e, '-');
  }

  /* ---------------- Book lookup ---------------- */

  /** A canonical name ending in a word character matches when it is followed by the end of the text or a non-word character. */
  lemma NameMatches(b: Book, rest: string)
    requires b.name != [] && IsWordChar(b.name[|b.name| - 1])
    requires rest == [] || !IsWordChar(rest[0])
    ensures BookMatches(b, b.name + rest)
  {
    var s := b.name + rest;
    assert s[..|b.name|] == b.name;
    EqualsIgnoringCaseReflexive(b.name);
    assert AltMatches(b.name, s);
  }

  /** A book none of whose alternatives starts with the first character of the text (ignoring case) does not match. */
  lemma FirstCharMismatch(b: Book, s: string)
    requires s != []
    requires forall k :: 0 <= k < |Alternatives(b)| ==>
               Alternatives(b)[k] != [] && Fold(Alternatives(b)[k][0]) != Fold(s[0])
    ensures !BookMatches(b, s)
  {
    AnyAltMatchesMeans(Alternatives(b), s);
    forall k | 0 <= k < |Alternatives(b)| ensures !AltMatches(Alternatives(b)[k], s) {
      var alt := Alternatives(b)[k];
      if |alt| <= |s| {
        EqualsIgnoringCaseMeans(alt, s[..|alt|]);
        assert s[..|alt|][0] == s[0];
      }
    }
  }

  /* ---------------- Order of the checks in validate ---------------- */

  /** The dash check comes before every colon and range check. */
  lemma DashCheckFirst(books: seq<Book>, s: string, i: nat)
    requires FindBook(books, s) == Some(i)
    requires Count(PassageText(books[i], s), '-') >= 2
    ensures Validate(books, s) == Err(Rejection(DashInfo))
  {
  }

  /** A rejection of the reference text is the result of `validate`. */
  lemma ParseErrorIsResult(books: seq<Book>, s: string, i: nat, e: Error)
    requires FindBook(books, s) == Some(i)
    requires ParseReference(PassageText(books[i], s)) == Err(e)
    ensures Validate(books, s) == Err(e)
  {
  }

  /** Once the range checks pass, the ordering rejection happens exactly when the start is after the end. */
  lemma OrderCheckExactly(books: seq<Book>, s: string, i: nat, ref: Reference)
    requires FindBook(books, s) == Some(i)
    requires ParseReference(PassageText(books[i], s)) == Ok(ref)
    requires InRange(books[i], ref)
    ensures Validate(books, s) == Err(Rejection(OrderInfo)) <==> EndBeforeStart(ref)
    ensures Validate(books, s) == Ok(ParsedReference(books[i], ref)) <==> !EndBeforeStart(ref)
  {
  }

  /** A range failure is reported as out of range, before any ordering check. */
  lemma RangeCheckBeforeOrder(books: seq<Book>, s: string, i: nat, ref: Reference)
    requires FindBook(books, s) == Some(i)
    requires ParseReference(PassageText(books[i], s)) == Ok(ref)
    ensures Validate(books, s) == Err(Rejection(OutOfRangeInfo)) <==> !InRange(books[i], ref)
  {
  }

  /* ---------------- Range rules in plain arithmetic ---------------- */

  /** Every component present is a positive number. */
  predicate PositiveVerse(v: Verse) {
    v.chapter.Val? && v.chapter.n >= 1 && (v.verse.Some? ==> v.verse.value.Val? && v.verse.value.n >= 1)
  }

  predicate Positive(r: Reference) {
    PositiveVerse(r.start) && (r.end.Some? ==> PositiveVerse(r.end.value))
  }

  /** The position of a verse is within a book with several chapters. */
  predicate WithinBook(b: Book, v: Verse)
    requires PositiveVerse(v)
  {
    v.chapter.n <= |b.chapters|
    && (v.verse.Some? ==> v.verse.value.n <= b.chapters[v.chapter.n - 1])
  }

  /**
   * For a book with more than one chapter and a reference made of positive
   * numbers, "in range" is the usual meaning: each chapter exists and each
   * verse exists in its chapter.
   */
  lemma InRangeMeans(b: Book, r: Reference)
    requires |b.chapters| != 1
    requires Positive(r)
    ensures InRange(b, r) <==> WithinBook(b, r.start) && (r.end.Some? ==> WithinBook(b, r.end.value))
  {
  }

  /** There is no lower bound: chapter 0 passes the chapter check of every book that has chapters. */
  lemma NoLowerBound(b: Book)
    ensures ChapterInRange(b, Val(0))
    ensures InRange(b, Reference(Verse(Val(0), None), None))
  {
  }

  /**
   * A one-chapter book bounds the chapter number by that chapter's verse
   * count, while a truthy verse is looked up in `chapters[chapter - 1]`,
   * which is `undefined` for any chapter but 1: such a reference is out of
   * range even when the chapter number passed.
   */
  lemma OneChapterBook(b: Book, c: nat, v: nat)
    requires |b.chapters| == 1
    ensures ChapterInRange(b, Val(c)) <==> c <= b.chapters[0]
    ensures v != 0 && c != 1 ==> !InRange(b, Reference(Verse(Val(c), Some(Val(v))), None))
  {
  }

  /** A start chapter that is NaN (text left in the passage) is always out of range. */
  lemma NaNChapterOutOfRange(b: Book, r: Reference)
    requires r.start.chapter == NaN
    ensures !InRange(b, r)
  {
  }

  /** Falsy values skip their checks: a verse of 0 or NaN, an end chapter of 0 or NaN. */
  lemma FalsySkipsChecks(b: Book, c: nat, x: JsNum)
    requires !Truthy(x)
    requires ChapterInRange(b, Val(c))
    ensures InRange(b, Reference(Verse(Val(c), Some(x)), None))
    ensures InRange(b, Reference(Verse(Val(c), None), Some(Verse(x, None))))
  {
  }

  /* ---------------- Ordering in plain arithmetic ---------------- */

  /**
   * With both verses present and non-zero, the reference is rejected exactly
   * when (end chapter, end verse) comes strictly before (start chapter, start
   * verse) in lexicographic order.
   */
  lemma OrderIsLexicographic(sc: nat, sv: nat, ec: nat, ev: nat)
    requires sv != 0 && ev != 0
    ensures EndBeforeStart(Reference(Verse(Val(sc), Some(Val(sv))), Some(Verse(Val(ec), Some(Val(ev)))))) <==>
              (ec < sc || (ec == sc && ev < sv))
  {
  }

  /** Without two comparable verses only the chapters are compared. */
  lemma OrderIgnoresMissingVerse(sc: nat, sv: Option<JsNum>, ec: nat, ev: Option<JsNum>)
    requires !OptTruthy(sv) || !OptTruthy(ev)
    ensures EndBeforeStart(Reference(Verse(Val(sc), sv), Some(Verse(Val(ec), ev)))) <==> ec < sc
  {
  }

  /** An end chapter that is NaN is never "before" the start. */
  lemma NaNEndNeverBefore(start: Verse, v: Option<JsNum>)
    ensures !EndBeforeStart(Reference(start, Some(Verse(NaN, v))))
  {
  }

  /* ---------------- Text the book name was not stripped from ---------------- */

  /** Whitespace removal keeps a non-whitespace character, with only stripped earlier characters before it. */
  lemma {:induction false} RemoveWhitespaceKeeps(s: string, j: nat)
    requires j < |s| && !IsWhitespace(s[j])
    ensures RemoveWhitespace(s) == RemoveWhitespace(s[..j]) + [s[j]] + RemoveWhitespace(s[j + 1..])
  {
    assert s == s[..j] + ([s[j]] + s[j + 1..]);
    RemoveWhitespaceAppend(s[..j], [s[j]] + s[j + 1..]);
    var t := [s[j]] + s[j + 1..];
    assert t[0] == s[j] && t[1..] == s[j + 1..];
  }

  /** The first piece of a split keeps every position up to `q` when no separator occurs there. */
  lemma {:induction false} SplitKeepsPrefix(t: string, sep: char, q: nat)
    requires q < |t| && sep !in t[..q + 1]
    ensures |Split(t, sep)[0]| > q && Split(t, sep)[0][..q + 1] == t[..q + 1]
  {
    assert t[0] == t[..q + 1][0];
    if q > 0 {
      assert t[1..][..q] == t[..q + 1][1..];
      SplitKeepsPrefix(t[1..], sep, q - 1);
    }
  }

  /** A non-digit with no dash or colon before it makes the start chapter NaN. */
  lemma NonDigitInStartChapter(passage: string, q: nat)
    requires q < |passage| && !IsDigit(passage[q])
    requires '-' !in passage[..q + 1] && ':' !in passage[..q + 1]
    ensures ToNumber(Split(Split(passage, '-')[0], ':')[0]) == NaN
  {
    SplitKeepsPrefix(passage, '-', q);
    var first := Split(passage, '-')[0];
    assert first[..q + 1] == passage[..q + 1];
    SplitKeepsPrefix(first, ':', q);
    var comp := Split(first, ':')[0];
    assert comp[q] == comp[..q + 1][q] == passage[q];
  }

  /** With nothing stripped, the letter `s[j]` survives into the passage with no separator before it. */
  lemma UnstrippedLetter(b: Book, s: string, j: nat) returns (q: nat)
    requires IndexOf(s, b.name).None?
    requires j < |s| && (('A' <= s[j] <= 'Z') || ('a' <= s[j] <= 'z'))
    requires '-' !in s[..j] && ':' !in s[..j]
    ensures q < |PassageText(b, s)| && PassageText(b, s)[q] == s[j]
    ensures '-' !in PassageText(b, s)[..q + 1] && ':' !in PassageText(b, s)[..q + 1]
  {
    var passage := PassageText(b, s);
    assert passage == RemoveWhitespace(s);
    RemoveWhitespaceKeeps(s, j);
    var pre := RemoveWhitespace(s[..j]);
    q := |pre|;
    assert passage[..q + 1] == pre + [s[j]];
    forall c | c in pre ensures c != '-' && c != ':' { assert c in s[..j]; }
  }

  /**
   * When the canonical name does not occur (case-sensitively) in the text,
   * as with an abbreviation or a differently cased name, nothing is
   * stripped. A letter of the text with no dash or colon before it (the
   * first letter of "Gen", or of "Cor" in "1 Cor 13") then lands in the
   * start chapter, which is NaN, and the reference is out of range.
   */
  lemma UnstrippedNameIsOutOfRange(books: seq<Book>, s: string, i: nat, j: nat)
    requires FindBook(books, s) == Some(i)
    requires IndexOf(s, books[i].name).None?
    requires j < |s| && (('A' <= s[j] <= 'Z') || ('a' <= s[j] <= 'z'))
    requires '-' !in s[..j] && ':' !in s[..j]
    requires Count(PassageText(books[i], s), '-') <= 1
    requires forall piece :: piece in Split(PassageText(books[i], s), '-') ==> Count(piece, ':') <= 1
    ensures Validate(books, s) == Err(Rejection(OutOfRangeInfo))
  {
    var passage := PassageText(books[i], s);
    var q := UnstrippedLetter(books[i], s, j);
    NonDigitInStartChapter(passage, q);
    var parts := Split(passage, '-');
    assert parts[0] in parts;
    if |parts| == 2 {
      assert parts[1] in parts;
    }
    var ref := ParseReference(passage);
    assert ref.Ok? && ref.value.start.chapter == NaN;
  }

  /* ---------------- Canonical rendering and the round trip ---------------- */

  /** `c` or `c:v`. */
  function RenderVerse(v: Verse): string
    requires v.chapter.Val? && (v.verse.Some? ==> v.verse.value.Val?)
  {
    NatToString(v.chapter.n) + if v.verse.Some? then ":" + NatToString(v.verse.value.n) else ""
  }

  /** A reference that has a textual form: every component is a number, and an end carries a verse whenever the start does. */
  predicate Renderable(r: Reference) {
    && r.start.chapter.Val? && (r.start.verse.Some? ==> r.start.verse.value.Val?)
    && (r.end.Some? ==>
          && r.end.value.chapter.Val?
          && (r.end.value.verse.Some? ==> r.end.value.verse.value.Val?)
          && (r.start.verse.Some? ==> r.end.value.verse.Some?))
  }

  /** The passage text of a reference: `start` or `start-end`. */
  function Render(r: Reference): string
    requires Renderable(r)
  {
    RenderVerse(r.start) + if r.end.Some? then "-" + RenderVerse(r.end.value) else ""
  }

  /** The full reference text, `name passage`. */
  function ReferenceText(pr: ParsedReference): string
    requires Renderable(pr.reference)
  {
    pr.book.name + " " + Render(pr.reference)
  }

  lemma RenderVerseIsComponents(v: Verse)
    requires v.chapter.Val? && (v.verse.Some? ==> v.verse.value.Val?)
    ensures '-' !in RenderVerse(v)
    ensures forall i :: 0 <= i < |RenderVerse(v)| ==> !IsWhitespace(RenderVerse(v)[i])
  {
    NatToStringNoSeparators(v.chapter.n);
    if v.verse.Some? {
      NatToStringNoSeparators(v.verse.value.n);
    }
  }

  /** Parsing the canonical text of a reference gives it back. */
  lemma ParseRender(r: Reference)
    requires Renderable(r)
    ensures ParseReference(Render(r)) == Ok(r)
  {
    var c1 := r.start.chapter.n;
    if r.end.None? {
      if r.start.verse.None? {
        ParseRenderChapter(c1);
      } else {
        ParseRenderVerse(c1, r.start.verse.value.n);
      }
    } else {
      var e := r.end.value;
      if r.start.verse.None? {
        if e.verse.None? {
          ParseRenderChapterToChapter(c1, e.chapter.n);
        } else {
          ParseRenderChapterToVerse(c1, e.chapter.n, e.verse.value.n);
        }
      } else {
        ParseRenderVerseToVerse(c1, r.start.verse.value.n, e.chapter.n, e.verse.value.n);
      }
    }
  }

  lemma ParseRenderChapter(c: nat)
    ensures ParseReference(Render(Reference(Verse(Val(c), None), None))) ==
              Ok(Reference(Verse(Val(c), None), None))
  {
    NatToStringNoSeparators(c);
    NumberOfNatToString(c);
    assert Render(Reference(Verse(Val(c), None), None)) == NatToString(c);
    ShapeChapter(NatToString(c));
  }

  lemma ParseRenderVerse(c: nat, v: nat)
    ensures ParseReference(Render(Reference(Verse(Val(c), Some(Val(v))), None))) ==
              Ok(Reference(Verse(Val(c), Some(Val(v))), None))
  {
    NatToStringNoSeparators(c);
    NumberOfNatToString(c);
    NatToStringNoSeparators(v);
    NumberOfNatToString(v);
    assert Render(Reference(Verse(Val(c), Some(Val(v))), None)) == NatToString(c) + ":" + NatToString(v);
    ShapeVerse(NatToString(c), NatToString(v));
  }

  lemma ParseRenderChapterToChapter(c1: nat, c2: nat)
    ensures ParseReference(Render(Reference(Verse(Val(c1), None), Some(Verse(Val(c2), None))))) ==
              Ok(Reference(Verse(Val(c1), None), Some(Verse(Val(c2), None))))
  {
    NatToStringNoSeparators(c1);
    NumberOfNatToString(c1);
    NatToStringNoSeparators(c2);
    NumberOfNatToString(c2);
    assert Render(Reference(Verse(Val(c1), None), Some(Verse(Val(c2), None)))) ==
           NatToString(c1) + "-" + NatToString(c2);
    ShapeChapterToChapter(NatToString(c1), NatToString(c2));
  }

  lemma ParseRenderChapterToVerse(c1: nat, c2: nat, v2: nat)
    ensures ParseReference(Render(Reference(Verse(Val(c1), None), Some(Verse(Val(c2), Some(Val(v2))))))) ==
              Ok(Reference(Verse(Val(c1), None), Some(Verse(Val(c2), Some(Val(v2))))))
  {
    NatToStringNoSeparators(c1);
    NumberOfNatToString(c1);
    NatToStringNoSeparators(c2);
    NumberOfNatToString(c2);
    NatToStringNoSeparators(v2);
    NumberOfNatToString(v2);
    var x, y, z := NatToString(c1), NatToString(c2), NatToString(v2);
    assert Render(Reference(Verse(Val(c1), None), Some(Verse(Val(c2), Some(Val(v2)))))) ==
           x + "-" + y + ":" + z;
    ShapeChapterToVerse(x, y, z);
  }

  lemma ParseRenderVerseToVerse(c1: nat, v1: nat, c2: nat, v2: nat)
    ensures ParseReference(Render(Reference(Verse(Val(c1), Some(Val(v1))), Some(Verse(Val(c2), Some(Val(v2))))))) ==
              Ok(Reference(Verse(Val(c1), Some(Val(v1))), Some(Verse(Val(c2), Some(Val(v2))))))
  {
    NatToStringNoSeparators(c1);
    NumberOfNatToString(c1);
    NatToStringNoSeparators(v1);
    NumberOfNatToString(v1);
    NatToStringNoSeparators(c2);
    NumberOfNatToString(c2);
    NatToStringNoSeparators(v2);
    NumberOfNatToString(v2);
    var w, x, y, z := NatToString(c1), NatToString(v1), NatToString(c2), NatToString(v2);
    assert Render(Reference(Verse(Val(c1), Some(Val(v1))), Some(Verse(Val(c2), Some(Val(v2)))))) ==
           w + ":" + x + "-" + y + ":" + z;
    ShapeVerseToVerse(w, x, y, z);
  }

  /** The text after the canonical name loses the name and the space and nothing else. */
  lemma PassageOfReferenceText(b: Book, passage: string)
    requires forall i :: 0 <= i < |passage| ==> !IsWhitespace(passage[i])
    ensures PassageText(b, b.name + " " + passage) == passage
  {
    assert b.name + " " + passage == b.name + (" " + passage);
    ReplaceFirstPrefix(b.name, " " + passage);
    RemoveWhitespaceAppend(" ", passage);
    RemoveWhitespaceNone(passage);
  }

  /**
   * Re-validating the canonical text of an accepted reference gives the same
   * book and the same reference, provided the table resolves that text to the
   * same book (the table could list an earlier book whose abbreviation is a
   * prefix of this book's name).
   */
  lemma RoundTrip(books: seq<Book>, s: string, pr: ParsedReference)
    requires Validate(books, s) == Ok(pr)
    requires Renderable(pr.reference)
    requires FindBook(books, ReferenceText(pr)) == FindBook(books, s)
    ensures Validate(books, ReferenceText(pr)) == Ok(pr)
  {
    var r := pr.reference;
    RenderVerseIsComponents(r.start);
    if r.end.Some? {
      RenderVerseIsComponents(r.end.value);
    }
    assert forall i :: 0 <= i < |Render(r)| ==> !IsWhitespace(Render(r)[i]);
    PassageOfReferenceText(pr.book, Render(r));
    ParseRender(r);
  }

  /**
   * Completeness for canonical text: every reference in canonical form that is
   * in range and not reversed is accepted, when the text resolves to its book.
   */
  lemma CanonicalAccepted(books: seq<Book>, i: nat, r: Reference)
    requires i < |books| && Renderable(r)
    requires FindBook(books, ReferenceText(ParsedReference(books[i], r))) == Some(i)
    requires InRange(books[i], r) && !EndBeforeStart(r)
    ensures Validate(books, ReferenceText(ParsedReference(books[i], r))) == Ok(ParsedReference(books[i], r))
  {
    RenderVerseIsComponents(r.start);
    if r.end.Some? {
      RenderVerseIsComponents(r.end.value);
    }
    assert forall k :: 0 <= k < |Render(r)| ==> !IsWhitespace(Render(r)[k]);
    PassageOfReferenceText(books[i], Render(r));
    ParseRender(r);
  }

  /**
   * Every chapter a book's range check admits is accepted as `name c`, with
   * the reference `{ start: { chapter: c } }`, when the name resolves to that
   * book.
   */
  lemma EveryChapterAccepted(books: seq<Book>, i: nat, c: nat)
    requires i < |books|
    requires FindBook(books, books[i].name + " " + NatToString(c)) == Some(i)
    requires ChapterInRange(books[i], Val(c))
    ensures Validate(books, books[i].name + " " + NatToString(c)) ==
              Ok(ParsedReference(books[i], Reference(Verse(Val(c), None), None)))
  {
    var s := books[i].name + " " + NatToString(c);
    var ref := Reference(Verse(Val(c), None), None);
    NatToStringNoSeparators(c);
    PassageOfReferenceText(books[i], NatToString(c));
    assert PassageText(books[i], s) == NatToString(c);
    NumberOfNatToString(c);
    ShapeChapter(NatToString(c));
    assert ParseReference(PassageText(books[i], s)) == Ok(ref);
    assert InRange(books[i], ref) && !EndBeforeStart(ref);
    OrderCheckExactly(books, s, i, ref);
  }

  /** A bare book name stands for chapter 1 of that book. */
  lemma BareBookIsChapterOne(books: seq<Book>, i: nat)
    requires i < |books|
    requires FindBook(books, books[i].name) == Some(i)
    requires ChapterInRange(books[i], Val(1))
    ensures Validate(books, books[i].name) ==
              Ok(ParsedReference(books[i], Reference(Verse(Val(1), None), None)))
  {
    ReplaceFirstPrefix(books[i].name, "");
    assert books[i].name + "" == books[i].name;
  }
}
