/**
 * The accepted and rejected references of the validator's test suite
 * (server/validators/__tests__/BibleReferenceValidator.test.ts), worked out
 * against a two-book sample table. The verse counts are those of Genesis and
 * Jude; the abbreviations are illustrative, since the shipped table
 * (bibleData.json) is not part of this model.
 */
module BibleReferenceExamples {
  import opened Wrappers
  import opened JsText
  import opened BibleReference
  import opened BibleReferenceProperties

  const Genesis := Book("Genesis", ["Gen", "Gn"],
    [31, 25] + [24, 26, 32, 22, 24, 22, 29, 32, 32, 20, 18, 24, 21, 16, 27, 33, 38, 18,
     34, 24, 20, 67, 34, 35, 46, 22, 35, 43, 55, 32, 20, 31, 29, 43, 36, 30, 23, 23,
     57, 38, 34, 34, 28, 34, 31, 22, 33, 26])

  const Jude := Book("Jude", ["Jud", "Jd"], [25])

  const Sample := [Genesis, Jude]

  function Chapter(c: nat): Verse {
    Verse(Val(c), None)
  }

  function At(c: nat, v: nat): Verse {
    Verse(Val(c), Some(Val(v)))
  }

  /** "Genesis" followed by a non-word character resolves to Genesis. */
  lemma FindsGenesis(rest: string)
    requires rest == [] || !IsWordChar(rest[0])
    ensures FindBook(Sample, "Genesis" + rest) == Some(0)
  {
    NameMatches(Genesis, rest);
  }

  /** "Jude" followed by a non-word character resolves to Jude. */
  lemma FindsJude(rest: string)
    requires rest == [] || !IsWordChar(rest[0])
    ensures FindBook(Sample, "Jude" + rest) == Some(1)
  {
    var s := "Jude" + rest;
    FirstCharMismatch(Genesis, s);
    NameMatches(Jude, rest);
    assert FindFrom(Sample, s, 1) == Some(1);
  }

  lemma AcceptsLoneBook()
    ensures Validate(Sample, "Jude") == Ok(ParsedReference(Jude, Reference(Chapter(1), None)))
  {
    FindsJude("");
    assert "Jude" + "" == Sample[1].name;
    BareBookIsChapterOne(Sample, 1);
  }

  lemma AcceptsChapter()
    ensures Validate(Sample, "Genesis 1") == Ok(ParsedReference(Genesis, Reference(Chapter(1), None)))
  {
    var r := Reference(Chapter(1), None);
    assert ReferenceText(ParsedReference(Genesis, r)) == "Genesis 1";
    FindsGenesis(" 1");
    assert "Genesis" + " 1" == "Genesis 1";
    CanonicalAccepted(Sample, 0, r);
  }

  lemma Numbers()
    ensures ToNumber("0") == Val(0) && ToNumber("1") == Val(1) && ToNumber("2") == Val(2)
    ensures ToNumber("3") == Val(3) && ToNumber("4") == Val(4)
    ensures ToNumber("1000") == Val(1000)
    ensures ToNumber("x") == NaN
  {
    NumberOfNatToString(0);
    NumberOfNatToString(1);
    NumberOfNatToString(2);
    NumberOfNatToString(3);
    NumberOfNatToString(4);
    assert NatToString(10) == "10";
    assert NatToString(100) == "100";
    assert NatToString(1000) == "1000";
    NumberOfNatToString(1000);
    assert !IsDigit("x"[0]);
  }

  /** `Genesis <passage>` reduces to parsing `<passage>` against Genesis. */
  lemma GenesisPassage(text: string, passage: string)
    requires text == "Genesis " + passage
    requires forall k :: 0 <= k < |passage| ==> !IsWhitespace(passage[k])
    ensures FindBook(Sample, text) == Some(0)
    ensures PassageText(Genesis, text) == passage
  {
    assert text == "Genesis" + (" " + passage);
    assert text == Genesis.name + " " + passage;
    FindsGenesis(" " + passage);
    PassageOfReferenceText(Genesis, passage);
  }

  /* ---------------- Accepted ---------------- */

  lemma AcceptsVerse()
    ensures Validate(Sample, "Genesis 1:1") == Ok(ParsedReference(Genesis, Reference(At(1, 1), None)))
  {
    var r := Reference(At(1, 1), None);
    assert Genesis.chapters[0] == 31;
    assert ReferenceText(ParsedReference(Genesis, r)) == "Genesis 1:1";
    FindsGenesis(" 1:1");
    assert "Genesis" + " 1:1" == "Genesis 1:1";
    CanonicalAccepted(Sample, 0, r);
  }

  lemma ParsesVersesOfOneChapter()
    ensures ParseReference("1:1-2") == Ok(Reference(At(1, 1), Some(At(1, 2))))
  {
    Numbers();
    ShapeVerseToVerseSameChapter("1", "1", "2");
    assert "1" + ":" + "1" + "-" + "2" == "1:1-2";
  }

  lemma AcceptsVersesOfOneChapter()
    ensures Validate(Sample, "Genesis 1:1-2") ==
              Ok(ParsedReference(Genesis, Reference(At(1, 1), Some(At(1, 2)))))
  {
    GenesisPassage("Genesis 1:1-2", "1:1-2");
    ParsesVersesOfOneChapter();
    assert Genesis.chapters[0] == 31;
    OrderCheckExactly(Sample, "Genesis 1:1-2", 0, Reference(At(1, 1), Some(At(1, 2))));
  }

  lemma AcceptsChapterToChapter()
    ensures Validate(Sample, "Genesis 1-2") ==
              Ok(ParsedReference(Genesis, Reference(Chapter(1), Some(Chapter(2)))))
  {
    var r := Reference(Chapter(1), Some(Chapter(2)));
    assert ReferenceText(ParsedReference(Genesis, r)) == "Genesis 1-2";
    FindsGenesis(" 1-2");
    assert "Genesis" + " 1-2" == "Genesis 1-2";
    CanonicalAccepted(Sample, 0, r);
  }

  lemma AcceptsChapterToVerse()
    ensures Validate(Sample, "Genesis 1-2:3") ==
              Ok(ParsedReference(Genesis, Reference(Chapter(1), Some(At(2, 3)))))
  {
    var r := Reference(Chapter(1), Some(At(2, 3)));
    assert ReferenceText(ParsedReference(Genesis, r)) == "Genesis 1-2:3";
    FindsGenesis(" 1-2:3");
    assert "Genesis" + " 1-2:3" == "Genesis 1-2:3";
    CanonicalAccepted(Sample, 0, r);
  }

  lemma AcceptsVerseToVerse()
    ensures Validate(Sample, "Genesis 1:5-2:6") ==
              Ok(ParsedReference(Genesis, Reference(At(1, 5), Some(At(2, 6)))))
  {
    var r := Reference(At(1, 5), Some(At(2, 6)));
    assert Genesis.chapters[0] == 31 && Genesis.chapters[1] == 25;
    assert ReferenceText(ParsedReference(Genesis, r)) == "Genesis 1:5-2:6";
    FindsGenesis(" 1:5-2:6");
    assert "Genesis" + " 1:5-2:6" == "Genesis 1:5-2:6";
    CanonicalAccepted(Sample, 0, r);
  }

  /** A one-chapter book takes the numbers after its name as chapters bounded by its verse count. */
  lemma AcceptsOneChapterBookRange()
    ensures Validate(Sample, "Jude 5-12") ==
              Ok(ParsedReference(Jude, Reference(Chapter(5), Some(Chapter(12)))))
  {
    var r := Reference(Chapter(5), Some(Chapter(12)));
    assert NatToString(12) == "12";
    assert ReferenceText(ParsedReference(Jude, r)) == "Jude 5-12";
    FindsJude(" 5-12");
    assert "Jude" + " 5-12" == "Jude 5-12";
    CanonicalAccepted(Sample, 1, r);
  }

  /* ---------------- Rejected ---------------- */

  lemma RejectsUnknownBook()
    ensures Validate(Sample, "Hezekiah") == Err(Rejection(BookNotFoundInfo))
  {
    FirstCharMismatch(Genesis, "Hezekiah");
    FirstCharMismatch(Jude, "Hezekiah");
  }

  lemma ParsesChapter1000()
    ensures ParseReference("1000") == Ok(Reference(Chapter(1000), None))
  {
    Numbers();
    ShapeChapter("1000");
  }

  lemma ParsesChapters1To1000()
    ensures ParseReference("1-1000") == Ok(Reference(Chapter(1), Some(Chapter(1000))))
  {
    Numbers();
    ShapeChapterToChapter("1", "1000");
    assert "1" + "-" + "1000" == "1-1000";
  }

  lemma ParsesVerse1000()
    ensures ParseReference("1:1000") == Ok(Reference(At(1, 1000), None))
  {
    Numbers();
    ShapeVerse("1", "1000");
    assert "1" + ":" + "1000" == "1:1000";
  }

  lemma ParsesVerses1To1000()
    ensures ParseReference("1:1-1000") == Ok(Reference(At(1, 1), Some(At(1, 1000))))
  {
    Numbers();
    ShapeVerseToVerseSameChapter("1", "1", "1000");
    assert "1" + ":" + "1" + "-" + "1000" == "1:1-1000";
  }

  /** Genesis has 50 chapters and 31 verses in chapter 1. */
  lemma GenesisBounds()
    ensures !InRange(Genesis, Reference(Chapter(1000), None))
    ensures !InRange(Genesis, Reference(Chapter(1), Some(Chapter(1000))))
    ensures !InRange(Genesis, Reference(At(1, 1000), None))
    ensures !InRange(Genesis, Reference(At(1, 1), Some(At(1, 1000))))
  {
    assert |Genesis.chapters| == 50;
    assert Genesis.chapters[0] == 31;
  }

  lemma RejectsChapterOutOfRange()
    ensures Validate(Sample, "Genesis 1000") == Err(Rejection(OutOfRangeInfo))
  {
    GenesisPassage("Genesis 1000", "1000");
    ParsesChapter1000();
    GenesisBounds();
    RangeCheckBeforeOrder(Sample, "Genesis 1000", 0, Reference(Chapter(1000), None));
  }

  lemma RejectsEndChapterOutOfRange()
    ensures Validate(Sample, "Genesis 1-1000") == Err(Rejection(OutOfRangeInfo))
  {
    GenesisPassage("Genesis 1-1000", "1-1000");
    ParsesChapters1To1000();
    GenesisBounds();
    RangeCheckBeforeOrder(Sample, "Genesis 1-1000", 0, Reference(Chapter(1), Some(Chapter(1000))));
  }

  lemma RejectsVerseOutOfRange()
    ensures Validate(Sample, "Genesis 1:1000") == Err(Rejection(OutOfRangeInfo))
  {
    GenesisPassage("Genesis 1:1000", "1:1000");
    ParsesVerse1000();
    GenesisBounds();
    RangeCheckBeforeOrder(Sample, "Genesis 1:1000", 0, Reference(At(1, 1000), None));
  }

  lemma RejectsEndVerseOutOfRange()
    ensures Validate(Sample, "Genesis 1:1-1000") == Err(Rejection(OutOfRangeInfo))
  {
    GenesisPassage("Genesis 1:1-1000", "1:1-1000");
    ParsesVerses1To1000();
    GenesisBounds();
    RangeCheckBeforeOrder(Sample, "Genesis 1:1-1000", 0, Reference(At(1, 1), Some(At(1, 1000))));
  }

  lemma ParsesReversedChapters()
    ensures ParseReference("2-1") == Ok(Reference(Chapter(2), Some(Chapter(1))))
  {
    Numbers();
    ShapeChapterToChapter("2", "1");
    assert "2" + "-" + "1" == "2-1";
  }

  lemma ParsesReversedVerses()
    ensures ParseReference("1:2-1") == Ok(Reference(At(1, 2), Some(At(1, 1))))
  {
    Numbers();
    ShapeVerseToVerseSameChapter("1", "2", "1");
    assert "1" + ":" + "2" + "-" + "1" == "1:2-1";
  }

  /** Both reversed ranges lie inside Genesis, so only the ordering check can reject them. */
  lemma ReversedInRange()
    ensures InRange(Genesis, Reference(Chapter(2), Some(Chapter(1))))
    ensures InRange(Genesis, Reference(At(1, 2), Some(At(1, 1))))
  {
    assert |Genesis.chapters| == 50;
    assert Genesis.chapters[0] == 31;
  }

  lemma RejectsReversedChapters()
    ensures Validate(Sample, "Genesis 2-1") == Err(Rejection(OrderInfo))
  {
    ParsesReversedChapters();
    ReversedInRange();
    GenesisPassage("Genesis 2-1", "2-1");
    OrderCheckExactly(Sample, "Genesis 2-1", 0, Reference(Chapter(2), Some(Chapter(1))));
  }

  lemma ReversedVersesPassage()
    ensures FindBook(Sample, "Genesis 1:2-1") == Some(0)
    ensures PassageText(Genesis, "Genesis 1:2-1") == "1:2-1"
  {
    var p := "1:2-1";
    assert forall k :: 0 <= k < |p| ==> !IsWhitespace(p[k]) by {
      forall k | 0 <= k < |p| ensures !IsWhitespace(p[k]) { assert k in {0, 1, 2, 3, 4}; }
    }
    GenesisPassage("Genesis 1:2-1", p);
  }

  lemma ReversedVersesBefore()
    ensures EndBeforeStart(Reference(At(1, 2), Some(At(1, 1))))
  {
  }

  lemma RejectsReversedVerses()
    ensures Validate(Sample, "Genesis 1:2-1") == Err(Rejection(OrderInfo))
  {
    ParsesReversedVerses();
    ReversedInRange();
    ReversedVersesPassage();
    ReversedVersesBefore();
    OrderCheckExactly(Sample, "Genesis 1:2-1", 0, Reference(At(1, 2), Some(At(1, 1))));
  }

  lemma ParsesTwoDashes()
    ensures ParseReference("1-2-3") == Err(Rejection(DashInfo))
  {
    assert "1-2-3" == "1" + "-" + ("2" + "-" + "3");
    SplitCons("1", '-', "2" + "-" + "3");
    SplitCons("2", '-', "3");
    SplitNone("3", '-');
    TooManyDashes("1-2-3");
  }

  lemma RejectsTwoDashes()
    ensures Validate(Sample, "Genesis 1-2-3") == Err(Rejection(DashInfo))
  {
    GenesisPassage("Genesis 1-2-3", "1-2-3");
    ParsesTwoDashes();
    ParseErrorIsResult(Sample, "Genesis 1-2-3", 0, Rejection(DashInfo));
  }

  lemma TwoColons(a: string, b: string, c: string)
    requires a + ":" + b + ":" + c == "1:2:3" || a + ":" + b + ":" + c == "2:3:4"
    requires ':' !in a && ':' !in b && ':' !in c
    ensures Count(a + ":" + b + ":" + c, ':') == 2
  {
    assert a + ":" + b + ":" + c == a + ":" + (b + ":" + c);
    SplitCons(a, ':', b + ":" + c);
    SplitCons(b, ':', c);
    SplitNone(c, ':');
  }

  lemma ParsesColonsAtStart()
    ensures ParseReference("1:2:3-4") == Err(Rejection(ColonsStartInfo))
  {
    TwoColons("1", "2", "3");
    assert "1" + ":" + "2" + ":" + "3" == "1:2:3";
    TooManyColonsAtStart("1:2:3", "4");
    assert "1:2:3" + "-" + "4" == "1:2:3-4";
  }

  lemma RejectsColonsAtStart()
    ensures Validate(Sample, "Genesis 1:2:3-4") == Err(Rejection(ColonsStartInfo))
  {
    GenesisPassage("Genesis 1:2:3-4", "1:2:3-4");
    ParsesColonsAtStart();
    ParseErrorIsResult(Sample, "Genesis 1:2:3-4", 0, Rejection(ColonsStartInfo));
  }

  lemma ParsesColonsAtEnd()
    ensures ParseReference("1-2:3:4") == Err(Rejection(ColonsEndInfo))
  {
    TwoColons("2", "3", "4");
    assert "2" + ":" + "3" + ":" + "4" == "2:3:4";
    TooManyColonsAtEnd("1", "2:3:4");
    assert "1" + "-" + "2:3:4" == "1-2:3:4";
  }

  lemma ParsesColonsAtEndAfterVerse()
    ensures ParseReference("1:1-2:3:4") == Err(Rejection(ColonsEndInfo))
  {
    TwoColons("2", "3", "4");
    assert "2" + ":" + "3" + ":" + "4" == "2:3:4";
    assert "1:1" == "1" + ":" + "1";
    SplitCons("1", ':', "1");
    SplitNone("1", ':');
    TooManyColonsAtEnd("1:1", "2:3:4");
    assert "1:1" + "-" + "2:3:4" == "1:1-2:3:4";
  }

  lemma ColonsAtEndPassage()
    ensures FindBook(Sample, "Genesis 1-2:3:4") == Some(0)
    ensures PassageText(Genesis, "Genesis 1-2:3:4") == "1-2:3:4"
  {
    var p := "1-2:3:4";
    assert forall k :: 0 <= k < |p| ==> !IsWhitespace(p[k]) by {
      forall k | 0 <= k < |p| ensures !IsWhitespace(p[k]) { assert k in {0, 1, 2, 3, 4, 5, 6}; }
    }
    GenesisPassage("Genesis 1-2:3:4", p);
  }

  lemma RejectsColonsAtEnd()
    ensures Validate(Sample, "Genesis 1-2:3:4") == Err(Rejection(ColonsEndInfo))
  {
    ParsesColonsAtEnd();
    ColonsAtEndPassage();
    ParseErrorIsResult(Sample, "Genesis 1-2:3:4", 0, Rejection(ColonsEndInfo));
  }

  lemma RejectsColonsAtEndAfterVerse()
    ensures Validate(Sample, "Genesis 1:1-2:3:4") == Err(Rejection(ColonsEndInfo))
  {
    GenesisPassage("Genesis 1:1-2:3:4", "1:1-2:3:4");
    ParsesColonsAtEndAfterVerse();
    ParseErrorIsResult(Sample, "Genesis 1:1-2:3:4", 0, Rejection(ColonsEndInfo));
  }

  /* ---------------- Quirks of the code as written ---------------- */

  /** No lower bound: chapter 0 is accepted. */
  lemma AcceptsChapterZero()
    ensures Validate(Sample, "Genesis 0") == Ok(ParsedReference(Genesis, Reference(Chapter(0), None)))
  {
    var r := Reference(Chapter(0), None);
    assert ReferenceText(ParsedReference(Genesis, r)) == "Genesis 0";
    FindsGenesis(" 0");
    assert "Genesis" + " 0" == "Genesis 0";
    CanonicalAccepted(Sample, 0, r);
  }

  lemma ParsesNonNumericEnd()
    ensures ParseReference("1-x") == Ok(Reference(Chapter(1), Some(Verse(NaN, None))))
  {
    Numbers();
    ShapeChapterToChapter("1", "x");
    assert "1" + "-" + "x" == "1-x";
  }

  lemma ParsesEmptyEnd()
    ensures ParseReference("1-") == Ok(Reference(Chapter(1), Some(Chapter(0))))
  {
    Numbers();
    ShapeChapterToChapter("1", "");
    assert "1" + "-" + "" == "1-";
  }

  lemma ParsesSecondChapterVerse()
    ensures ParseReference("2:1") == Ok(Reference(At(2, 1), None))
  {
    Numbers();
    ShapeVerse("2", "1");
    assert "2" + ":" + "1" == "2:1";
  }

  /** A non-numeric end chapter is NaN: it skips the range check and is never "before" the start. */
  lemma AcceptsNonNumericEnd()
    ensures Validate(Sample, "Genesis 1-x") ==
              Ok(ParsedReference(Genesis, Reference(Chapter(1), Some(Verse(NaN, None)))))
  {
    ParsesNonNumericEnd();
    GenesisPassage("Genesis 1-x", "1-x");
    OrderCheckExactly(Sample, "Genesis 1-x", 0, Reference(Chapter(1), Some(Verse(NaN, None))));
  }

  /** An empty end chapter is `Number("") == 0`, which is "before" chapter 1. */
  lemma RejectsEmptyEnd()
    ensures Validate(Sample, "Genesis 1-") == Err(Rejection(OrderInfo))
  {
    ParsesEmptyEnd();
    GenesisPassage("Genesis 1-", "1-");
    OrderCheckExactly(Sample, "Genesis 1-", 0, Reference(Chapter(1), Some(Chapter(0))));
  }

  /** `Jude <passage>` reduces to parsing `<passage>` against Jude. */
  lemma JudePassage(text: string, passage: string)
    requires text == "Jude " + passage
    requires forall k :: 0 <= k < |passage| ==> !IsWhitespace(passage[k])
    ensures FindBook(Sample, text) == Some(1)
    ensures PassageText(Jude, text) == passage
  {
    assert text == "Jude" + (" " + passage);
    assert text == Jude.name + " " + passage;
    FindsJude(" " + passage);
    PassageOfReferenceText(Jude, passage);
  }

  /** A one-chapter book has no `chapters[1]`, so a verse of "chapter" 2 is out of range. */
  lemma JudeBounds()
    ensures !InRange(Jude, Reference(At(2, 1), None))
  {
  }

  lemma RejectsVerseOfOneChapterBook()
    ensures Validate(Sample, "Jude 2:1") == Err(Rejection(OutOfRangeInfo))
  {
    JudePassage("Jude 2:1", "2:1");
    ParsesSecondChapterVerse();
    JudeBounds();
    RangeCheckBeforeOrder(Sample, "Jude 2:1", 1, Reference(At(2, 1), None));
  }

  /* ---------------- A book name that is not stripped ---------------- */

  /** A text without dashes or colons leaves a passage of one piece with no colon. */
  lemma OnePiecePassage(b: Book, s: string)
    requires '-' !in s && ':' !in s
    ensures Count(PassageText(b, s), '-') <= 1
    ensures forall piece :: piece in Split(PassageText(b, s), '-') ==> Count(piece, ':') <= 1
  {
    var p := PassageText(b, s);
    assert p == RemoveWhitespace(ReplaceFirst(s, b.name));
    assert '-' !in p && ':' !in p;
    CountNone(p, '-');
    SplitNone(p, '-');
    CountNone(p, ':');
  }

  /** "Gen 1" resolves to Genesis through its abbreviation. */
  lemma FindsGenByAbbreviation()
    ensures FindBook(Sample, "Gen 1") == Some(0)
  {
    var s := "Gen 1";
    assert s[..3] == "Gen" == Genesis.abbr[0];
    EqualsIgnoringCaseReflexive("Gen");
    assert AltMatches(Genesis.abbr[0], s);
    BookMatchesMeans(Genesis, s);
  }

  /** "genesis 1" resolves to Genesis, the match ignoring case. */
  lemma FindsGenesisInLowerCase()
    ensures FindBook(Sample, "genesis 1") == Some(0)
  {
    var s := "genesis 1";
    var n := Genesis.name;
    assert s[..7] == "genesis";
    assert Fold(n[0]) == Fold(s[0]) by { assert n[0] == 'G' && s[0] == 'g'; }
    assert forall k :: 1 <= k < 7 ==> n[k] == s[k];
    EqualsIgnoringCaseMeans(n, s[..7]);
    assert AltMatches(n, s);
    BookMatchesMeans(Genesis, s);
  }

  /** The case-sensitive search for "Genesis" finds nothing in either text. */
  lemma NameAbsent()
    ensures IndexOf("Gen 1", "Genesis").None?
    ensures IndexOf("genesis 1", "Genesis").None?
  {
    var s := "genesis 1";
    assert s[0..7][0] == 'g';
    assert s[1..8][0] == 'e';
    assert s[2..9][0] == 'n';
  }

  /** An abbreviation is not stripped, so its letters are read as the chapter. */
  lemma RejectsAbbreviatedBook()
    ensures Validate(Sample, "Gen 1") == Err(Rejection(OutOfRangeInfo))
  {
    var s := "Gen 1";
    FindsGenByAbbreviation();
    NameAbsent();
    assert s[..0] == [];
    OnePiecePassage(Genesis, s);
    UnstrippedNameIsOutOfRange(Sample, s, 0, 0);
  }

  /** The name is stripped case-sensitively, so "genesis" stays in the chapter. */
  lemma RejectsLowerCaseBook()
    ensures Validate(Sample, "genesis 1") == Err(Rejection(OutOfRangeInfo))
  {
    var s := "genesis 1";
    FindsGenesisInLowerCase();
    NameAbsent();
    assert s[..0] == [];
    OnePiecePassage(Genesis, s);
    UnstrippedNameIsOutOfRange(Sample, s, 0, 0);
  }

  /** A verse with nothing before its colon is in chapter `Number("")`, that is 0. */
  lemma ParsesEmptyChapterVerse()
    ensures ParseReference(":5") == Ok(Reference(Verse(Val(0), Some(Val(5))), None))
  {
    NumberOfNatToString(5);
    assert NatToString(5) == "5";
    ShapeVerse("", "5");
    assert "" + ":" + "5" == ":5";
  }
}
