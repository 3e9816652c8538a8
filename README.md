# ghc-podbean-helper: the sermon upload checks, in Dafny

This project models the sequential core of the server of ghc-podbean-helper, a tool for uploading sermons. It has three parts.

- **The Bible reference validator** (`BibleReferenceValidator.validate`). It resolves the book by a case-insensitive, whole-word prefix match against the book table. It then strips the book's canonical name and all whitespace, and splits the rest on `-` and `:` into a `{start: {chapter, verse?}, end?}` record. Finally it checks that record against the book's chapter and verse counts and checks that the start is not after the end. Every failure is a `UserError` with the message "An invalid Bible reference was provided." and a distinct `info`.
- **The sermon form validator** (`SermonFormDataValidator.validate`). It checks the form in a fixed order: speaker, title, series, reference, date, time of day, then the sermon-file and thumbnail extensions. The first failing check determines the error.
- **The file helpers** (`server/helpers/files.ts`). These build the canonical sermon file name `GHC_<date><am|pm|>_<speaker without whitespace>.mp3`, decide whether the rename may go ahead, and build the ID3 tag record.

The model keeps the JavaScript semantics the code relies on:
- `Number()` on a component gives a value for digits, 0 for the empty string and NaN otherwise (module `JsText`);
- 0 and NaN are falsy, and every comparison with NaN is false;
- `\b` is a real word boundary;
- `replace` with a string pattern removes only the first, case-sensitive occurrence;
- `split` can produce empty pieces.

These semantics give the validator's actual behaviour, which the example lemmas pin down:
- chapter 0 is accepted;
- "Genesis 1-x" is accepted, because its NaN end skips every check;
- "Genesis 1-" is rejected as reversed, because `Number("")` is 0;
- "Jude 2:1" is out of range;
- a reference written with an abbreviation ("Gen 1") or in another case ("genesis 1") keeps its book text, so its chapter is NaN and it is out of range.

## Layout

- `wrappers.dfy`, `user_error.dfy`: `Option`/`Result`, and `UserError` as `Error(message, info, suggestion)`.
- `js_text.dfy`: the string and number operations listed above.
- `iso_date.dfy`: `YYYY-MM-DD` dates, and what `split("-").map(Number)` gives for them.
- `bible_reference.dfy`: the book lookup, the reference parser and the range and ordering checks.
- `bible_reference_properties.dfy`:
  - the table of reference shapes;
  - the order in which the checks run;
  - the range rules in plain arithmetic;
  - a round trip through a canonical rendering.
- `bible_reference_examples.dfy`: the validator's test cases on a two-book sample table. Genesis and Jude carry their real verse counts.
- `sermon_form.dfy`:
  - each field check as a function returning `Option<Error>`;
  - `ValidateDate` as a method with the `monthDays` array updated in place;
  - `Validate` as a method running the checks in order.
- `sermon_form_properties.dfy`: which forms are accepted, the order of the checks, the leap-year rule, and the test cases.
- `sermon_files.dfy`: the file name and its decoder, the rename decision against a directory given as a set of names, and the ID3 tag record.
- `sermon_upload.dfy`: how the upload route maps a validated form onto the file helpers' input. It also proves what validation then guarantees about the tags and the name.

## Model

| member | source | states |
|---|---|---|
| BibleReference.Alternatives | server/validators/BibleReferenceValidator.ts:17 | the alternatives of the book pattern start with the name; with no abbreviations the empty alternative is present |
| BibleReference.AnyAltMatchesMeans | server/validators/BibleReferenceValidator.ts:17 | the alternation matches iff one of its alternatives matches |
| BibleReference.FindFrom | server/validators/BibleReferenceValidator.ts:16-18 | `find` returns the first matching book at or after the start index, and None only if no book there matches |
| BibleReference.FindBookIsFirstMatch | server/validators/BibleReferenceValidator.ts:16-24 | the book found is exactly the first table entry in declaration order that matches |
| BibleReference.Truthy | server/validators/BibleReferenceValidator.ts:105-107 | JavaScript truthiness of a number: 0 and NaN are falsy |
| BibleReference.OptTruthy | server/validators/BibleReferenceValidator.ts:105-117 | truthiness of an optional number: a missing verse is falsy |
| BibleReference.JsLe | server/validators/BibleReferenceValidator.ts:93-98 | `<=` on numbers, false whenever either side is NaN or undefined |
| BibleReference.JsGt | server/validators/BibleReferenceValidator.ts:116-117 | `>` on numbers, false whenever either side is NaN |
| BibleReference.JsEq | server/validators/BibleReferenceValidator.ts:117 | `===` on numbers, false whenever either side is NaN |
| BibleReference.AltMatches | server/validators/BibleReferenceValidator.ts:17 | one alternative matches: a case-insensitive prefix of the text followed by `\b` |
| BibleReference.BookMatches | server/validators/BibleReferenceValidator.ts:17 | the book's regular expression `^(name|abbr…)\b` with the `i` flag tests true |
| BibleReference.FindBook | server/validators/BibleReferenceValidator.ts:16-18 | `books.find`: the index of the first matching book |
| BibleReference.BookMatchesMeans | server/validators/BibleReferenceValidator.ts:17 | a book matches iff its name, one of its abbreviations, or (with no abbreviations) the empty alternative is a case-insensitive prefix followed by a word boundary |
| BibleReference.EmptyAbbrMatchesWordStart | server/validators/BibleReferenceValidator.ts:17 | a book with no abbreviations matches every input that starts with a word character |
| BibleReference.NoPartialWordMatch | server/validators/BibleReferenceValidator.ts:17 | an alternative followed by another word character does not match (`\b`) |
| BibleReference.PassageText | server/validators/BibleReferenceValidator.ts:29 | the passage text is the input with the first case-sensitive occurrence of the name removed, and it has no whitespace |
| BibleReference.ParseReference | server/validators/BibleReferenceValidator.ts:28-89 | every rejection of the parser is the dash, end-colon or start-colon rejection |
| BibleReference.ChapterEntry | server/validators/BibleReferenceValidator.ts:98 | `book.chapters[chapter - 1]`, undefined (NaN in comparisons) outside the table |
| BibleReference.ChapterInRange | server/validators/BibleReferenceValidator.ts:93-96 | `chapterInRange`: a one-chapter book bounds the number by its verse count, any other book by its chapter count |
| BibleReference.VerseInRange | server/validators/BibleReferenceValidator.ts:97-98 | `verseInRange`: the verse is at most the verse count of its chapter |
| BibleReference.InRange | server/validators/BibleReferenceValidator.ts:103-108 | the negation of the out-of-range condition, with its truthiness guards |
| BibleReference.EndBeforeStart | server/validators/BibleReferenceValidator.ts:114-118 | the ordering condition: a later start chapter, or the same chapter and a later truthy verse |
| BibleReference.Validate | server/validators/BibleReferenceValidator.ts:12-123 | no book found iff the book rejection; success iff a book is found, the parse succeeds, the record is in range and the start is not after the end; on success the book and the record are those; every rejection carries the shared message, an info and no suggestion |
| BibleReferenceProperties.TooManyDashes | server/validators/BibleReferenceValidator.ts:34-38 | two or more dashes are rejected with "Expected only 1 dash", whatever the colons |
| BibleReferenceProperties.DashCheckFirst | server/validators/BibleReferenceValidator.ts:29-38 | once a book is found, two dashes give the dash rejection before any colon or range check |
| BibleReferenceProperties.EmptyStartIsChapterOne | server/validators/BibleReferenceValidator.ts:41 | an empty start, even with text after the dash, is chapter 1 with no end |
| BibleReferenceProperties.ShapeChapter | server/validators/BibleReferenceValidator.ts:43-47 | `c` is chapter `Number(c)` |
| BibleReferenceProperties.ShapeChapterToChapter | server/validators/BibleReferenceValidator.ts:48-49 | `c1-c2` is chapter to chapter |
| BibleReferenceProperties.ShapeChapterToVerse | server/validators/BibleReferenceValidator.ts:50-52 | `c1-c2:v2` is chapter c1 to verse v2 of chapter c2 |
| BibleReferenceProperties.ShapeVerse | server/validators/BibleReferenceValidator.ts:63-69 | `c:v` is one verse; an empty `c` is chapter `Number("")`, that is 0 |
| BibleReferenceProperties.ShapeVerseToVerseSameChapter | server/validators/BibleReferenceValidator.ts:70-72 | in `c:v1-v2` the end is verse v2 of the start's chapter, for any `c`, empty included |
| BibleReferenceProperties.ShapeVerseToVerse | server/validators/BibleReferenceValidator.ts:73-75 | `c1:v1-c2:v2` has independent ends, for any `c1`, empty included |
| BibleReferenceProperties.TooManyColonsAtEnd | server/validators/BibleReferenceValidator.ts:53-58 | three or more end components give "Too many colons … at the end" |
| BibleReferenceProperties.TooManyColonsAtStart | server/validators/BibleReferenceValidator.ts:85-88 | three or more start components give "… at the beginning", with or without an end |
| BibleReferenceProperties.NameMatches | server/validators/BibleReferenceValidator.ts:17 | the canonical name followed by a non-word character or the end of input matches |
| BibleReferenceProperties.FirstCharMismatch | server/validators/BibleReferenceValidator.ts:17 | a book none of whose alternatives begins with the input's first character, ignoring case, does not match |
| BibleReferenceProperties.ParseErrorIsResult | server/validators/BibleReferenceValidator.ts:28-89 | a parser rejection is the result of `validate` |
| BibleReferenceProperties.RangeCheckBeforeOrder | server/validators/BibleReferenceValidator.ts:103-112 | after a successful parse, the result is out of range exactly when the record fails the range checks, before any ordering check |
| BibleReferenceProperties.OrderCheckExactly | server/validators/BibleReferenceValidator.ts:114-122 | once in range, the ordering rejection happens exactly when the end is before the start, and otherwise the reference is accepted |
| BibleReferenceProperties.InRangeMeans | server/validators/BibleReferenceValidator.ts:93-112 | for positive components and a book without exactly one chapter, in range means every chapter is at most the chapter count and every verse at most that chapter's verse count |
| BibleReferenceProperties.NoLowerBound | server/validators/BibleReferenceValidator.ts:93-96 | chapter 0 passes the chapter check |
| BibleReferenceProperties.OneChapterBook | server/validators/BibleReferenceValidator.ts:93-98 | a one-chapter book bounds the chapter by `chapters[0]`, and a truthy verse of any chapter other than 1 is out of range because `chapters[c-1]` is undefined |
| BibleReferenceProperties.NaNChapterOutOfRange | server/validators/BibleReferenceValidator.ts:93-112 | a NaN start chapter is always out of range |
| BibleReferenceProperties.FalsySkipsChecks | server/validators/BibleReferenceValidator.ts:105-107 | a verse or end chapter of 0 or NaN skips its range check |
| BibleReferenceProperties.OrderIsLexicographic | server/validators/BibleReferenceValidator.ts:115-117 | with positive verses at both ends, "end before start" is strict lexicographic order on (chapter, verse) |
| BibleReferenceProperties.OrderIgnoresMissingVerse | server/validators/BibleReferenceValidator.ts:116-117 | without two truthy verses, only the chapters are compared |
| BibleReferenceProperties.NaNEndNeverBefore | server/validators/BibleReferenceValidator.ts:116-117 | a NaN end chapter is never before the start |
| BibleReferenceProperties.SplitKeepsPrefix | server/validators/BibleReferenceValidator.ts:29-31 | the first piece of a split keeps every position up to one that has no separator at or before it |
| BibleReferenceProperties.RemoveWhitespaceKeeps | server/validators/BibleReferenceValidator.ts:29 | removing whitespace keeps a non-whitespace character, preceded by the stripped characters before it |
| BibleReferenceProperties.NonDigitInStartChapter | server/validators/BibleReferenceValidator.ts:29-30 | a non-digit with no dash or colon before it makes the start chapter NaN |
| BibleReferenceProperties.UnstrippedLetter | server/validators/BibleReferenceValidator.ts:29 | with nothing stripped, a letter of the text reaches the passage with no separator before it |
| BibleReferenceProperties.UnstrippedNameIsOutOfRange | server/validators/BibleReferenceValidator.ts:29-112 | a book matched through an abbreviation or another case, without the canonical name in the text, leaves the text unstripped; a letter with no dash or colon before it (as in "Gen 1" or "1 Cor 13") lands in the start chapter, giving NaN and the out-of-range rejection |
| BibleReferenceProperties.RenderVerseIsComponents | server/validators/BibleReferenceValidator.ts:29-31 | a rendered `c` or `c:v` has no dash and no whitespace |
| BibleReferenceProperties.ParseRender | server/validators/BibleReferenceValidator.ts:28-89 | parsing the canonical text of any numeric reference gives that reference back |
| BibleReferenceProperties.ParseRenderChapter | server/validators/BibleReferenceValidator.ts:43-47 | round trip of `c` |
| BibleReferenceProperties.ParseRenderVerse | server/validators/BibleReferenceValidator.ts:63-69 | round trip of `c:v` |
| BibleReferenceProperties.ParseRenderChapterToChapter | server/validators/BibleReferenceValidator.ts:48-49 | round trip of `c1-c2` |
| BibleReferenceProperties.ParseRenderChapterToVerse | server/validators/BibleReferenceValidator.ts:50-52 | round trip of `c1-c2:v2` |
| BibleReferenceProperties.ParseRenderVerseToVerse | server/validators/BibleReferenceValidator.ts:73-75 | round trip of `c1:v1-c2:v2` |
| BibleReferenceProperties.PassageOfReferenceText | server/validators/BibleReferenceValidator.ts:29 | stripping the canonical name and whitespace from `name + " " + passage` leaves exactly the passage |
| BibleReferenceProperties.RoundTrip | server/validators/BibleReferenceValidator.ts:12-123 | an accepted reference, written out canonically, is accepted again with the same book and record, when the table resolves the canonical text to the same book |
| BibleReferenceProperties.CanonicalAccepted | server/validators/BibleReferenceValidator.ts:12-123 | the canonical text of an in-range, ordered reference is accepted, when the table resolves the canonical text to the reference's book |
| BibleReferenceProperties.EveryChapterAccepted | server/validators/BibleReferenceValidator.ts:43-96 | `name c` is accepted for every chapter that passes the chapter check, when the table resolves `name c` to that book |
| BibleReferenceProperties.BareBookIsChapterOne | server/validators/BibleReferenceValidator.ts:41 | a bare book name is chapter 1 of that book |
| BibleReferenceExamples.FindsGenesis | server/validators/BibleReferenceValidator.ts:16-18 | "Genesis" followed by a non-word character resolves to Genesis |
| BibleReferenceExamples.FindsJude | server/validators/BibleReferenceValidator.ts:16-18 | "Jude" followed by a non-word character resolves to Jude, past Genesis |
| BibleReferenceExamples.Numbers | server/validators/BibleReferenceValidator.ts:30-31 | `Number()` of the digit strings used, and NaN for "x" |
| BibleReferenceExamples.GenesisPassage | server/validators/BibleReferenceValidator.ts:16-30 | "Genesis " + passage resolves to Genesis and leaves the passage |
| BibleReferenceExamples.JudePassage | server/validators/BibleReferenceValidator.ts:16-30 | "Jude " + passage resolves to Jude and leaves the passage |
| BibleReferenceExamples.AcceptsLoneBook | server/validators/__tests__/BibleReferenceValidator.test.ts:15-21 | "Jude" is accepted as chapter 1 |
| BibleReferenceExamples.AcceptsChapter | server/validators/__tests__/BibleReferenceValidator.test.ts:23-29 | "Genesis 1" is accepted |
| BibleReferenceExamples.AcceptsVerse | server/validators/__tests__/BibleReferenceValidator.test.ts:31-37 | "Genesis 1:1" is accepted |
| BibleReferenceExamples.ParsesVersesOfOneChapter | server/validators/BibleReferenceValidator.ts:70-72 | "1:1-2" parses to verses 1 to 2 of chapter 1 |
| BibleReferenceExamples.AcceptsVersesOfOneChapter | server/validators/__tests__/BibleReferenceValidator.test.ts:39-45 | "Genesis 1:1-2" is accepted |
| BibleReferenceExamples.AcceptsChapterToChapter | server/validators/__tests__/BibleReferenceValidator.test.ts:47-53 | "Genesis 1-2" is accepted |
| BibleReferenceExamples.AcceptsChapterToVerse | server/validators/__tests__/BibleReferenceValidator.test.ts:55-61 | "Genesis 1-2:3" is accepted |
| BibleReferenceExamples.AcceptsVerseToVerse | server/validators/__tests__/BibleReferenceValidator.test.ts:63-69 | "Genesis 1:5-2:6" is accepted |
| BibleReferenceExamples.AcceptsOneChapterBookRange | server/validators/__tests__/BibleReferenceValidator.test.ts:71-78 | "Jude 5-12" is accepted, with the numbers taken as chapters |
| BibleReferenceExamples.RejectsUnknownBook | server/validators/__tests__/BibleReferenceValidator.test.ts:81-92 | "Hezekiah" is rejected with "The provided book could not be found." |
| BibleReferenceExamples.ParsesChapter1000 | server/validators/BibleReferenceValidator.ts:43-47 | "1000" parses to chapter 1000 |
| BibleReferenceExamples.ParsesChapters1To1000 | server/validators/BibleReferenceValidator.ts:48-49 | "1-1000" parses to chapters 1 to 1000 |
| BibleReferenceExamples.ParsesVerse1000 | server/validators/BibleReferenceValidator.ts:63-69 | "1:1000" parses to verse 1000 of chapter 1 |
| BibleReferenceExamples.ParsesVerses1To1000 | server/validators/BibleReferenceValidator.ts:70-72 | "1:1-1000" parses to verses 1 to 1000 of chapter 1 |
| BibleReferenceExamples.GenesisBounds | server/validators/BibleReferenceValidator.ts:93-112 | chapter 1000 and verse 1:1000 of Genesis are out of range, at either end |
| BibleReferenceExamples.RejectsChapterOutOfRange | server/validators/__tests__/BibleReferenceValidator.test.ts:94-111 | "Genesis 1000" is out of range |
| BibleReferenceExamples.RejectsEndChapterOutOfRange | server/validators/__tests__/BibleReferenceValidator.test.ts:94-111 | "Genesis 1-1000" is out of range |
| BibleReferenceExamples.RejectsVerseOutOfRange | server/validators/__tests__/BibleReferenceValidator.test.ts:113-131 | "Genesis 1:1000" is out of range |
| BibleReferenceExamples.RejectsEndVerseOutOfRange | server/validators/__tests__/BibleReferenceValidator.test.ts:113-131 | "Genesis 1:1-1000" is out of range |
| BibleReferenceExamples.ParsesReversedChapters | server/validators/BibleReferenceValidator.ts:48-49 | "2-1" parses to chapters 2 to 1 |
| BibleReferenceExamples.ParsesReversedVerses | server/validators/BibleReferenceValidator.ts:70-72 | "1:2-1" parses to verses 2 to 1 of chapter 1 |
| BibleReferenceExamples.ReversedInRange | server/validators/BibleReferenceValidator.ts:93-112 | both reversed ranges pass the range checks of Genesis |
| BibleReferenceExamples.ReversedVersesPassage | server/validators/BibleReferenceValidator.ts:16-30 | "Genesis 1:2-1" resolves to Genesis and leaves "1:2-1" |
| BibleReferenceExamples.ReversedVersesBefore | server/validators/BibleReferenceValidator.ts:115-117 | verse 1:2 to verse 1:1 ends before it starts |
| BibleReferenceExamples.RejectsReversedChapters | server/validators/__tests__/BibleReferenceValidator.test.ts:133-152 | "Genesis 2-1" is rejected as ending before it starts |
| BibleReferenceExamples.RejectsReversedVerses | server/validators/__tests__/BibleReferenceValidator.test.ts:133-152 | "Genesis 1:2-1" is rejected as ending before it starts |
| BibleReferenceExamples.ParsesTwoDashes | server/validators/BibleReferenceValidator.ts:34-38 | "1-2-3" is the dash rejection |
| BibleReferenceExamples.RejectsTwoDashes | server/validators/__tests__/BibleReferenceValidator.test.ts:154-167 | "Genesis 1-2-3" is rejected with "Expected only 1 dash in the reference." |
| BibleReferenceExamples.TwoColons | server/validators/BibleReferenceValidator.ts:30-31 | "1:2:3" and "2:3:4" have two colons |
| BibleReferenceExamples.ParsesColonsAtStart | server/validators/BibleReferenceValidator.ts:85-88 | "1:2:3-4" is the start-colon rejection |
| BibleReferenceExamples.RejectsColonsAtStart | server/validators/__tests__/BibleReferenceValidator.test.ts:169-197 | "Genesis 1:2:3-4" is rejected with too many colons at the beginning |
| BibleReferenceExamples.ParsesColonsAtEnd | server/validators/BibleReferenceValidator.ts:53-58 | "1-2:3:4" is the end-colon rejection |
| BibleReferenceExamples.ParsesColonsAtEndAfterVerse | server/validators/BibleReferenceValidator.ts:76-81 | "1:1-2:3:4" is the end-colon rejection |
| BibleReferenceExamples.ColonsAtEndPassage | server/validators/BibleReferenceValidator.ts:16-30 | "Genesis 1-2:3:4" resolves to Genesis and leaves "1-2:3:4" |
| BibleReferenceExamples.RejectsColonsAtEnd | server/validators/__tests__/BibleReferenceValidator.test.ts:169-197 | "Genesis 1-2:3:4" is rejected with too many colons at the end |
| BibleReferenceExamples.RejectsColonsAtEndAfterVerse | server/validators/__tests__/BibleReferenceValidator.test.ts:169-197 | "Genesis 1:1-2:3:4" is rejected with too many colons at the end |
| BibleReferenceExamples.AcceptsChapterZero | server/validators/BibleReferenceValidator.ts:93-96 | "Genesis 0" is accepted: there is no lower bound |
| BibleReferenceExamples.ParsesNonNumericEnd | server/validators/BibleReferenceValidator.ts:31-49 | "1-x" parses with a NaN end chapter |
| BibleReferenceExamples.ParsesEmptyEnd | server/validators/BibleReferenceValidator.ts:31-49 | "1-" parses with end chapter `Number("") == 0` |
| BibleReferenceExamples.ParsesSecondChapterVerse | server/validators/BibleReferenceValidator.ts:63-69 | "2:1" parses to verse 1 of chapter 2 |
| BibleReferenceExamples.AcceptsNonNumericEnd | server/validators/BibleReferenceValidator.ts:103-122 | "Genesis 1-x" is accepted: the NaN end skips the range check and is never before the start |
| BibleReferenceExamples.RejectsEmptyEnd | server/validators/BibleReferenceValidator.ts:103-122 | "Genesis 1-" is rejected as ending before it starts |
| BibleReferenceExamples.JudeBounds | server/validators/BibleReferenceValidator.ts:93-112 | verse 2:1 of a one-chapter book is out of range |
| BibleReferenceExamples.RejectsVerseOfOneChapterBook | server/validators/BibleReferenceValidator.ts:93-112 | "Jude 2:1" is out of range |
| BibleReferenceExamples.OnePiecePassage | server/validators/BibleReferenceValidator.ts:29-31 | a text without dashes or colons gives a passage of one piece with no colon |
| BibleReferenceExamples.FindsGenByAbbreviation | server/validators/BibleReferenceValidator.ts:16-18 | "Gen 1" resolves to Genesis through its abbreviation |
| BibleReferenceExamples.FindsGenesisInLowerCase | server/validators/BibleReferenceValidator.ts:16-18 | "genesis 1" resolves to Genesis, the match ignoring case |
| BibleReferenceExamples.NameAbsent | server/validators/BibleReferenceValidator.ts:29 | the case-sensitive search for "Genesis" finds nothing in "Gen 1" or "genesis 1" |
| BibleReferenceExamples.RejectsAbbreviatedBook | server/validators/BibleReferenceValidator.ts:29-112 | "Gen 1" is out of range: the abbreviation is not stripped |
| BibleReferenceExamples.RejectsLowerCaseBook | server/validators/BibleReferenceValidator.ts:29-112 | "genesis 1" is out of range: the name is stripped case-sensitively |
| BibleReferenceExamples.ParsesEmptyChapterVerse | server/validators/BibleReferenceValidator.ts:63-69 | ":5" parses to verse 5 of chapter `Number("")`, that is 0 |
| JsText.Fold | server/validators/BibleReferenceValidator.ts:17 | the `i` flag folds ASCII lower case to upper case and keeps word characters word characters |
| JsText.IsWordChar | server/validators/BibleReferenceValidator.ts:17 | the word characters of `\b`: ASCII letters, digits and `_` |
| JsText.StartsWithIgnoringCase | server/validators/BibleReferenceValidator.ts:17 | an anchored prefix match under the `i` flag |
| JsText.IsWhitespace | server/validators/BibleReferenceValidator.ts:29 | the characters `\s` matches: the ECMAScript white space and line terminators |
| JsText.EndsWith | server/validators/SermonFormDataValidator.ts:100 | `/p$/` for a literal `p`: the text ends with `p` |
| JsText.WordBoundary | server/validators/BibleReferenceValidator.ts:17 | `\b` at a position: exactly one of the neighbouring characters is a word character |
| JsText.EqualsIgnoringCaseMeans | server/validators/BibleReferenceValidator.ts:17 | case-insensitive equality is equal length and position-wise equal folded characters |
| JsText.EqualsIgnoringCaseReflexive | server/validators/BibleReferenceValidator.ts:17 | every string equals itself ignoring case |
| JsText.RemoveWhitespace | server/validators/BibleReferenceValidator.ts:29 | `replace(/\s/g, "")` leaves no whitespace, no new characters and no longer a string |
| JsText.RemoveWhitespaceAppend | server/helpers/files.ts:59 | removing whitespace distributes over concatenation |
| JsText.RemoveWhitespaceNone | server/helpers/files.ts:59 | a string without whitespace is unchanged |
| JsText.RemoveWhitespaceIdempotent | server/helpers/files.ts:59 | removing whitespace twice is removing it once |
| JsText.Split | server/validators/BibleReferenceValidator.ts:29-31 | `split` on one character gives one more piece than there are separators, and no piece contains the separator |
| JsText.JoinSplit | server/validators/BibleReferenceValidator.ts:29-31 | joining the pieces with the separator gives the string back |
| JsText.CountNone | server/validators/BibleReferenceValidator.ts:29-31 | a string without the character has a count of 0 |
| JsText.SplitNone | server/validators/BibleReferenceValidator.ts:29-31 | a string without the separator splits into itself |
| JsText.SplitCons | server/validators/BibleReferenceValidator.ts:29-31 | splitting `a + sep + b`, with no separator in `a`, gives `a` then the pieces of `b` |
| JsText.IndexFrom | server/validators/BibleReferenceValidator.ts:29 | the search returns the first occurrence at or after the start, or None when there is none |
| JsText.ReplaceFirst | server/validators/BibleReferenceValidator.ts:29 | `replace(p, "")` removes the first occurrence of `p`, or returns the string unchanged |
| JsText.ReplaceFirstPrefix | server/validators/BibleReferenceValidator.ts:29 | a string beginning with `p` loses exactly that prefix |
| JsText.AllDigitsMeans | server/validators/BibleReferenceValidator.ts:30-31 | the recursive digit test means every character is a digit |
| JsText.ToNumber | server/validators/BibleReferenceValidator.ts:30-31 | `Number()` is NaN exactly when a non-digit is present |
| JsText.ToNumbers | server/validators/BibleReferenceValidator.ts:30-31 | `map(Number)` keeps the length and converts each piece |
| JsText.NumberOfNatToString | server/validators/BibleReferenceValidator.ts:30-31 | `Number(String(n)) == n` for every natural number |
| JsText.NatToStringNoSeparators | server/validators/BibleReferenceValidator.ts:29-31 | a written number has no dash, colon or whitespace |
| IsoDate.SplitIsoDate | server/validators/SermonFormDataValidator.ts:62-68 | a `YYYY-MM-DD` date splits on "-" into year, month and day |
| IsoDate.IsIsoDateFormat | server/validators/SermonFormDataValidator.ts:62 | `/^\d{4}-\d{2}-\d{2}$/`: ten characters, dashes at 4 and 7, digits elsewhere |
| IsoDate.DigitsAt | server/validators/SermonFormDataValidator.ts:68 | the value of a run of digits is what `Number()` gives |
| IsoDate.NumbersOfIsoDate | server/validators/SermonFormDataValidator.ts:68 | `split("-").map(Number)` of a well-formed date is its year, month and day |
| SermonForm.SpeakerError | server/validators/SermonFormDataValidator.ts:21-31 | a new speaker passes iff both names are non-empty, an existing one iff it is on the list, and each failure has its message |
| SermonForm.TitleError | server/validators/SermonFormDataValidator.ts:33-36 | a title passes iff it is non-empty or the time is exactly "Sunday Evening" |
| SermonForm.SeriesError | server/validators/SermonFormDataValidator.ts:38-46 | a new series passes iff its name is non-empty, an existing one iff it is on the list |
| SermonForm.ReferenceError | server/validators/SermonFormDataValidator.ts:48-58 | no reference passes; half a reference is the incomplete-reference error with its suggestion; a whole one passes iff the Bible validator accepts `book + " " + passage`, and its rejection is passed on |
| SermonForm.DaysInMonth | server/validators/SermonFormDataValidator.ts:81-82 | months have 28 to 31 days, and 29 exactly for February of a leap year |
| SermonForm.IsLeapYear | server/validators/SermonFormDataValidator.ts:82 | the Gregorian rule: divisible by 400, or by 4 and not by 100 |
| SermonForm.YearLengthIsGregorian | server/validators/SermonFormDataValidator.ts:81-82 | the month table gives 366 days in a leap year and 365 otherwise |
| SermonForm.ValidateDate | server/validators/SermonFormDataValidator.ts:60-89 | the method, splitting and converting the date and updating `monthDays` in place, returns exactly the date decision: format, then year, then month, then day |
| SermonForm.DateError | server/validators/SermonFormDataValidator.ts:60-89 | the date decision the method is proved against: format, year, month, then day |
| SermonForm.TimeError | server/validators/SermonFormDataValidator.ts:91-95 | a time passes iff it is "Sunday Morning", "Sunday Evening" or "Other" |
| SermonForm.FileError | server/validators/SermonFormDataValidator.ts:97-101 | a name passes iff it ends in ".mp3" (sermon file) or ".png" (thumbnail) |
| SermonForm.Extension | server/validators/SermonFormDataValidator.ts:99 | "mp3" for the sermon file, "png" for the thumbnail |
| SermonForm.ExtensionMessage | server/validators/SermonFormDataValidator.ts:101 | `Only .<ext> files are allowed for <type>s.` |
| SermonForm.FirstErrorMeans | server/validators/SermonFormDataValidator.ts:10-19 | no error iff every check passes; otherwise the error is that of a check preceded only by passing ones |
| SermonForm.FirstErrorStep | server/validators/SermonFormDataValidator.ts:10-19 | once the first checks pass, the first error is decided from the next check on |
| SermonForm.FirstError | server/validators/SermonFormDataValidator.ts:10-19 | the first error of a list of checks run in turn |
| SermonForm.Checks | server/validators/SermonFormDataValidator.ts:10-18 | the checks of `validate` in its order, the existence checks aside |
| SermonForm.Validate | server/validators/SermonFormDataValidator.ts:10-19 | the method returns the first failure of the checks, in the order of `validate` |
| SermonForm.LaterChecks | server/validators/SermonFormDataValidator.ts:14-18 | the date, time and two extension checks, in the order of `validate` |
| SermonForm.ValidateLater | server/validators/SermonFormDataValidator.ts:14-18 | the method returns the first failure of the date, time and extension checks |
| SermonFormProperties.DateAcceptedMeans | server/validators/SermonFormDataValidator.ts:60-89 | a date passes iff it is a real `YYYY-MM-DD` day between 1900 and the current year |
| SermonFormProperties.AllEightPass | server/validators/SermonFormDataValidator.ts:10-19 | eight checks in a row pass exactly when each of them passes |
| SermonFormProperties.FrontChecksMean | server/validators/SermonFormDataValidator.ts:10-13 | the speaker, title, series and reference checks pass iff their rules hold |
| SermonFormProperties.BackChecksMean | server/validators/SermonFormDataValidator.ts:14-18 | the date, time and extension checks pass iff the date is a calendar date, the time is one of the three and the names end in `.mp3` and `.png` |
| SermonFormProperties.ValidateAcceptsExactly | server/validators/SermonFormDataValidator.ts:10-101 | `validate` accepts a form iff it meets every field rule |
| SermonFormProperties.ValidateReportsEarliest | server/validators/SermonFormDataValidator.ts:10-19 | whatever else fails, the earliest failing check is reported |
| SermonFormProperties.SpeakerBeforeTitleAndDate | server/validators/SermonFormDataValidator.ts:10-26 | an incomplete new speaker is reported first |
| SermonFormProperties.SermonFileBeforeThumbnail | server/validators/SermonFormDataValidator.ts:10-101 | the sermon file's extension is checked before the thumbnail's |
| SermonFormProperties.LeapDay | server/validators/SermonFormDataValidator.ts:81-88 | February 29th of an admissible year passes iff the year is a Gregorian leap year |
| SermonFormProperties.DayAfterLast | server/validators/SermonFormDataValidator.ts:84-88 | the day after the last of its month is the day error |
| SermonFormProperties.DigitsValue4 | server/validators/SermonFormDataValidator.ts:68 | four digits have their place value |
| SermonFormProperties.DigitsValue2 | server/validators/SermonFormDataValidator.ts:68 | two digits have their place value |
| SermonFormProperties.DateValue | server/validators/SermonFormDataValidator.ts:62-68 | a date written out digit by digit is well formed and has those parts |
| SermonFormProperties.AcceptsLeapDay2000 | server/validators/__tests__/SermonFormDataValidator.test.ts:309-335 | 2000-02-29 is accepted |
| SermonFormProperties.RejectsImpossibleDays | server/validators/__tests__/SermonFormDataValidator.test.ts:284-335 | 1999-02-29, 1900-02-29 (a century not divisible by 400) and 2025-04-31 are the day error |
| SermonFormProperties.RejectsMalformedDates | server/validators/__tests__/SermonFormDataValidator.test.ts:218-238 | "not-a-date", "12345678" and "01-01-2026" are the format error |
| SermonFormProperties.RejectsYearsOutOfBounds | server/validators/__tests__/SermonFormDataValidator.test.ts:240-260 | 1899 and the year after the current one are the year error |
| SermonFormProperties.RejectsMonthsOutOfBounds | server/validators/__tests__/SermonFormDataValidator.test.ts:262-282 | months 00 and 13 are the month error |
| SermonFormProperties.SpeakerCases | server/validators/__tests__/SermonFormDataValidator.test.ts:32-86 | the speaker test cases, with the message naming the unknown speaker |
| SermonFormProperties.TitleCases | server/validators/__tests__/SermonFormDataValidator.test.ts:88-130 | the title test cases |
| SermonFormProperties.SeriesCases | server/validators/__tests__/SermonFormDataValidator.test.ts:132-176 | the series test cases, with the message naming the unknown series |
| SermonFormProperties.ReferenceCases | server/validators/__tests__/SermonFormDataValidator.test.ts:179-215 | half references are rejected, none is accepted, and "Genesis" with "1:1" is accepted |
| SermonFormProperties.TimeCases | server/validators/__tests__/SermonFormDataValidator.test.ts:351-376 | the time-of-day test cases |
| SermonFormProperties.SermonFileMessage | server/validators/SermonFormDataValidator.ts:99-101 | the sermon file extension message in full |
| SermonFormProperties.ThumbnailMessage | server/validators/SermonFormDataValidator.ts:99-101 | the thumbnail extension message in full |
| SermonFormProperties.ExtensionMessages | server/validators/SermonFormDataValidator.ts:99-101 | the two extension messages in full |
| SermonFormProperties.ThumbnailCases | server/validators/__tests__/SermonFormDataValidator.test.ts:379-417 | "thumbnail.png.jpg" is rejected and "thumbnail.png" passes the extension check |
| SermonFormProperties.SermonFileCases | server/validators/__tests__/SermonFormDataValidator.test.ts:420-458 | "sermon-file.mp3.wav" is rejected and "sermon-file.mp3" passes the extension check |
| SermonFormProperties.BaseFrontPasses | server/validators/__tests__/SermonFormDataValidator.test.ts:461-475 | the base form's speaker, title, series and empty reference pass |
| SermonFormProperties.BaseBackPasses | server/validators/__tests__/SermonFormDataValidator.test.ts:461-475 | the base form's date, time and file names pass |
| SermonFormProperties.AcceptsBaseForm | server/validators/__tests__/SermonFormDataValidator.test.ts:461-475 | the test suite's base form is accepted, with a fixed day of the current year in place of today's date |
| SermonFormProperties.ReportsDateBeforeTimeAndFiles | server/validators/SermonFormDataValidator.ts:15-18 | with a bad date, time and thumbnail together, the date error is reported |
| SermonFiles.TimeSuffix | server/helpers/files.ts:53-57 | "am" iff "Sunday Morning", "pm" iff "Sunday Evening", "" otherwise |
| SermonFiles.NewFileName | server/helpers/files.ts:59 | the canonical name `GHC_<date><suffix>_<speaker without whitespace>.mp3` |
| SermonFiles.FirstUnderscore | server/helpers/files.ts:59 | the first underscore after a stamp without underscores is the one that follows it |
| SermonFiles.DecodeNewFileName | server/helpers/files.ts:59 | the new name reads back to the date with its time suffix and the speaker without whitespace |
| SermonFiles.NewFileNameInjective | server/helpers/files.ts:59 | for well-formed dates, equal names mean equal dates, suffixes and stripped speakers |
| SermonFiles.NewFileNameHasNoWhitespace | server/helpers/files.ts:59 | a new name has no whitespace when its date has none |
| SermonFiles.UpdateSermonFileName | server/helpers/files.ts:50-82 | success iff the name is already canonical or the canonical name is free, with the canonical name as result; otherwise the conflict error with its info and suggestion |
| SermonFiles.RenameConflict | server/helpers/files.ts:66-72 | the conflict error: its message naming both files, its info and its suggestion |
| SermonFiles.DirectoryAfter | server/helpers/files.ts:60-80 | a refused rename changes nothing; a successful one leaves the new name present and the file count unchanged, and no other name is affected |
| SermonFiles.RenameIdempotent | server/helpers/files.ts:60 | a renamed file is left alone by a second call |
| SermonFiles.PartAt | server/helpers/files.ts:17 | array destructuring gives the element, or undefined past the end |
| SermonFiles.ID3Tags | server/helpers/files.ts:15-39 | the tag record: artist, title, subtitle `book passage`, the fixed fields and cover art, and a content group iff the series is not "(None)" |
| SermonFiles.IsoDateTags | server/helpers/files.ts:17-30 | for `YYYY-MM-DD` the date tag is `DDMM`, the year tag `YYYY`, the copyright names the year, and their values are the day, month and year |
| SermonFiles.DashlessDateTags | server/helpers/files.ts:17-30 | a date without dashes gives the date tag "undefinedundefined" and becomes the year |
| SermonFiles.Templated | server/helpers/files.ts:23-30 | a template slot: the part, or "undefined" when it is missing |
| SermonUpload.ToDetails | server/routes/podbeanRouter.ts:17-21 | a new speaker becomes "first last" and a new series its new name; every other field is carried over |
| SermonUpload.ValidatedDateGivesSoundTags | server/helpers/files.ts:17-59 | after date validation the year tag is in [1900, current year], the date tag is a real day and month, and the file name reads back to the date |
| SermonUpload.SeriesTag | server/helpers/files.ts:39 | the content group is the chosen or new series, absent for "(None)" |
| SermonUpload.StripSpace | server/helpers/files.ts:59 | a single space is removed entirely |
| SermonUpload.StripLeadingSpace | server/helpers/files.ts:59 | stripping `" " + last` gives `last` |
| SermonUpload.StripJoinedName | server/helpers/files.ts:59 | stripping `first + " " + last` gives the names run together |
| SermonUpload.StripJaneDoe | server/helpers/files.ts:59 | "Jane Doe" is stripped to "JaneDoe" |
| SermonUpload.JaneDoeName | server/helpers/files.ts:53-59 | "Jane Doe" on a Sunday morning of 2025-10-12 gets "GHC_2025-10-12am_JaneDoe.mp3" |
| SermonUpload.NewSpeakerFileName | server/helpers/files.ts:59 | a new speaker Jane Doe preaching on a Sunday morning gets "GHC_2025-10-12am_JaneDoe.mp3" |

## Left out

- File system and ID3 I/O: `fs.access`, `fs.rename`, `fs.readFile` and `NodeID3.update` are not called. The sermon directory is a set of names, the image buffer of the cover art is not modelled, and the tag record is returned rather than written.
- The existence checks of `#validateFile` (server/validators/SermonFormDataValidator.ts:103-120), with their "Could not find …" errors. So in the model the order is sermon-file extension, then thumbnail extension. The source checks the sermon file's existence between the two.
- The distinction between ENOENT and other file-system errors. The model rethrows nothing, because it makes no file-system calls.
- UpdateSermonFileName: a rename that fails at the file-system level (for example, a missing source file) is not a possible outcome of the model. DirectoryAfter only describes a directory that holds the current file.
- `new Date().getFullYear()` is the `currentYear` parameter. The speaker and series lists (`json-data`) are parameters too.
- The book table `bibleData.json` is a parameter. The examples use a sample table with Genesis and Jude and their real verse counts. Their abbreviations are illustrative.
- Full `Number()` semantics: decimals, signs, hexadecimal, exponents, `Infinity` and surrounding whitespace are not modelled. `Number("Infinity")` is truthy and larger than every count, so the source rejects "Genesis 1:Infinity" and "Genesis 1-Infinity" as out of range, while the model reads "Infinity" as NaN and accepts both. Components are digits (their value), the empty string (0), or anything else (NaN).
- The regular-expression engine: book names and abbreviations are matched literally, so metacharacters in them are not modelled. Case folding under the `i` flag covers ASCII letters only.
- JavaScript's `undefined` for missing form fields: form fields are strings and booleans, and an absent string is the empty string, which is falsy in the same way.
- `UserError.toJSON` (server/models/errors/UserError.ts:11-16) uses reflection over own properties and is not modelled. An error is its message, info and suggestion.
- The network client (`PodbeanService`), the Express routers and server start-up, the Vue component tests, and the build and test tooling are not part of this model. Only the form-to-details mapping of the upload route is modelled (SermonUpload.ToDetails).
- The `SermonDetails` type is not among the type declarations available (server/types.d.ts declares only `SermonFormData`). Its fields are taken from their uses in server/helpers/files.ts and server/routes/podbeanRouter.ts.
