/**
 * The pieces of JavaScript string and number semantics that the validators
 * rely on: the `\s` and `\w` character classes, the `\b` assertion, the `i`
 * (ignore case) flag, `String.prototype.split` and `replace` with a string
 * pattern, and `Number()` applied to a string.
 */
module JsText {
  import opened Wrappers

  /* ---------------- Character classes ---------------- */

  /** `\s`: the ECMAScript WhiteSpace and LineTerminator code points. */
  predicate IsWhitespace(c: char) {
    var x := c as int;
    (0x09 <= x <= 0x0D) || x == 0x20 || x == 0xA0 || x == 0x1680
    || (0x2000 <= x <= 0x200A) || x == 0x2028 || x == 0x2029
    || x == 0x202F || x == 0x205F || x == 0x3000 || x == 0xFEFF
  }

  /** `\w`, the characters `\b` treats as word characters: [A-Za-z0-9_]. */
  predicate IsWordChar(c: char) {
    ('A' <= c <= 'Z') || ('a' <= c <= 'z') || ('0' <= c <= '9') || c == '_'
  }

  /** `\d` without the `u` flag: [0-9]. */
  predicate IsDigit(c: char) {
    '0' <= c <= '9'
  }

  /* ---------------- Ignore-case matching ---------------- */

  /** Canonical form of a character under the `i` flag (ASCII letters only). */
  function Fold(c: char): (f: char)
    ensures IsWordChar(f) <==> IsWordChar(c)
    ensures 'a' <= c <= 'z' ==> 'A' <= f <= 'Z' && f as int + 32 == c as int
    ensures !('a' <= c <= 'z') ==> f == c
  {
    if 'a' <= c <= 'z' then (c as int - 32) as char else c
  }

  /** Equality of two strings character by character under `Fold`. */
  predicate EqualsIgnoringCase(a: string, b: string) {
    if a == [] then b == []
    else b != [] && Fold(a[0]) == Fold(b[0]) && EqualsIgnoringCase(a[1..], b[1..])
  }

  lemma {:induction false} EqualsIgnoringCaseMeans(a: string, b: string)
    ensures EqualsIgnoringCase(a, b) <==>
              |a| == |b| && forall i :: 0 <= i < |a| ==> Fold(a[i]) == Fold(b[i])
  {
    if a != [] && b != [] {
      EqualsIgnoringCaseMeans(a[1..], b[1..]);
      if |a| == |b| && forall i :: 0 <= i < |a| ==> Fold(a[i]) == Fold(b[i]) {
        forall i | 0 <= i < |a| - 1 ensures Fold(a[1..][i]) == Fold(b[1..][i]) {
          assert Fold(a[i + 1]) == Fold(b[i + 1]);
        }
      }
    }
  }

  lemma {:induction false} EqualsIgnoringCaseReflexive(a: string)
    ensures EqualsIgnoringCase(a, a)
  {
    if a != [] {
      EqualsIgnoringCaseReflexive(a[1..]);
    }
  }

  /** True when `s` begins with `p`, ignoring case (the `^p` part of a case-insensitive pattern). */
  predicate StartsWithIgnoringCase(s: string, p: string) {
    |p| <= |s| && EqualsIgnoringCase(p, s[..|p|])
  }

  /**
   * The `\b` assertion at position `i` of `s`: exactly one of the characters
   * on either side of `i` is a word character (the ends of the input count as
   * non-word characters).
   */
  predicate WordBoundary(s: string, i: nat)
    requires i <= |s|
  {
    (i > 0 && IsWordChar(s[i - 1])) != (i < |s| && IsWordChar(s[i]))
  }

  /* ---------------- Whitespace removal: s.replace(/\s/g, "") ---------------- */

  function RemoveWhitespace(s: string): (r: string)
    ensures |r| <= |s|
    ensures forall i :: 0 <= i < |r| ==> !IsWhitespace(r[i])
    ensures forall c :: c in r ==> c in s
  {
    if s == [] then []
    else (if IsWhitespace(s[0]) then [] else [s[0]]) + RemoveWhitespace(s[1..])
  }

  lemma {:induction false} RemoveWhitespaceAppend(a: string, b: string)
    ensures RemoveWhitespace(a + b) == RemoveWhitespace(a) + RemoveWhitespace(b)
  {
    if a == [] {
      assert a + b == b;
    } else {
      assert (a + b)[1..] == a[1..] + b;
      RemoveWhitespaceAppend(a[1..], b);
    }
  }

  /** A string with no whitespace is left as it is. */
  lemma {:induction false} RemoveWhitespaceNone(s: string)
    requires forall i :: 0 <= i < |s| ==> !IsWhitespace(s[i])
    ensures RemoveWhitespace(s) == s
  {
    if s != [] {
      RemoveWhitespaceNone(s[1..]);
    }
  }

  /** Removing whitespace twice is the same as removing it once. */
  lemma RemoveWhitespaceIdempotent(s: string)
    ensures RemoveWhitespace(RemoveWhitespace(s)) == RemoveWhitespace(s)
  {
    RemoveWhitespaceNone(RemoveWhitespace(s));
  }

  /* ---------------- s.split(sep) for a one-character separator ---------------- */

  function Split(s: string, sep: char): (parts: seq<string>)
    ensures |parts| == Count(s, sep) + 1
    ensures forall k :: 0 <= k < |parts| ==> sep !in parts[k]
  {
    if s == [] then [""]
    else
      var rest := Split(s[1..], sep);
      if s[0] == sep then [""] + rest
      else [[s[0]] + rest[0]] + rest[1..]
  }

  /** Number of occurrences of `c` in `s`. */
  function Count(s: string, c: char): nat {
    if s == [] then 0 else (if s[0] == c then 1 else 0) + Count(s[1..], c)
  }

  /** `parts.join(sep)`. */
  function Join(parts: seq<string>, sep: char): string
    requires |parts| >= 1
  {
    if |parts| == 1 then parts[0] else parts[0] + [sep] + Join(parts[1..], sep)
  }

  /** Joining the pieces of a split gives back the original string. */
  lemma {:induction false} JoinSplit(s: string, sep: char)
    ensures Join(Split(s, sep), sep) == s
  {
    if s != [] {
      JoinSplit(s[1..], sep);
      var rest := Split(s[1..], sep);
      if s[0] == sep {
        assert Split(s, sep)[1..] == rest;
      } else {
        var parts := Split(s, sep);
        assert parts[1..] == rest[1..];
        if |rest| == 1 {
          assert s == [s[0]] + s[1..];
        } else {
          assert Join(rest, sep) == rest[0] + [sep] + Join(rest[1..], sep);
        }
      }
    }
  }

  lemma {:induction false} CountNone(s: string, c: char)
    requires c !in s
    ensures Count(s, c) == 0
  {
    if s != [] {
      CountNone(s[1..], c);
    }
  }

  /** A string without the separator splits into itself alone. */
  lemma {:induction false} SplitNone(s: string, sep: char)
    requires sep !in s
    ensures Split(s, sep) == [s]
  {
    if s != [] {
      SplitNone(s[1..], sep);
      assert [s[0]] + s[1..] == s;
    }
  }

  /** Splitting `a + [sep] + b`, where `a` has no separator, yields `a` and then the pieces of `b`. */
  lemma {:induction false} SplitCons(a: string, sep: char, b: string)
    requires sep !in a
    ensures Split(a + [sep] + b, sep) == [a] + Split(b, sep)
  {
    if a == [] {
      assert a + [sep] + b == [sep] + b;
      assert ([sep] + b)[1..] == b;
    } else {
      var s := a + [sep] + b;
      assert s[0] == a[0];
      assert s[1..] == a[1..] + [sep] + b;
      SplitCons(a[1..], sep, b);
      assert [a[0]] + a[1..] == a;
    }
  }

  /* ---------------- s.replace(p, "") for a string pattern ---------------- */

  predicate OccursAt(s: string, p: string, j: nat) {
    j + |p| <= |s| && s[j..j + |p|] == p
  }

  /** Index of the first occurrence of `p` in `s` at or after `from`. */
  function IndexFrom(s: string, p: string, from: nat): (r: Option<nat>)
    requires from <= |s| + 1
    ensures r.Some? ==> from <= r.value && OccursAt(s, p, r.value)
    ensures r.Some? ==> forall j :: from <= j < r.value ==> !OccursAt(s, p, j)
    ensures r.None? ==> forall j :: from <= j ==> !OccursAt(s, p, j)
    decreases |s| + 1 - from
  {
    if from + |p| > |s| then None
    else if s[from..from + |p|] == p then Some(from)
    else IndexFrom(s, p, from + 1)
  }

  /** `s.indexOf(p)`, as an Option. */
  function IndexOf(s: string, p: string): Option<nat> {
    IndexFrom(s, p, 0)
  }

  /**
   * `s.replace(p, "")`: the first occurrence of `p` is removed (matching is
   * exact and case-sensitive); without one, `s` is returned unchanged.
   */
  function ReplaceFirst(s: string, p: string): (r: string)
    ensures IndexOf(s, p).None? ==> r == s
    ensures IndexOf(s, p).Some? ==>
              var i := IndexOf(s, p).value; r == s[..i] + s[i + |p|..]
  {
    match IndexOf(s, p)
    case None => s
    case Some(i) => s[..i] + s[i + |p|..]
  }

  /** A string that starts with `p` loses exactly that prefix. */
  lemma ReplaceFirstPrefix(p: string, rest: string)
    ensures ReplaceFirst(p + rest, p) == rest
  {
    var s := p + rest;
    assert OccursAt(s, p, 0) by { assert s[0..|p|] == p; }
    assert s[|p|..] == rest;
  }

  /** `/p$/.test(s)` for a literal pattern `p`: `s` ends with `p`. */
  predicate EndsWith(s: string, p: string) {
    |p| <= |s| && s[|s| - |p|..] == p
  }

  /* ---------------- Number(s) ---------------- */

  /** A JavaScript number as the validators meet it: a non-negative integer or NaN. */
  datatype JsNum = NaN | Val(n: nat)

  predicate AllDigits(s: string) {
    s == [] || (AllDigits(s[..|s| - 1]) && IsDigit(s[|s| - 1]))
  }

  lemma {:induction false} AllDigitsMeans(s: string)
    ensures AllDigits(s) <==> forall i :: 0 <= i < |s| ==> IsDigit(s[i])
  {
    if s != [] {
      var init := s[..|s| - 1];
      AllDigitsMeans(init);
      assert forall i :: 0 <= i < |init| ==> init[i] == s[i];
    }
  }

  function DigitValue(c: char): nat
    requires IsDigit(c)
  {
    c as int - '0' as int
  }

  function DigitChar(d: nat): (c: char)
    requires d < 10
    ensures IsDigit(c) && DigitValue(c) == d
  {
    ('0' as int + d) as char
  }

  /** The decimal value of a string of digits. */
  function DigitsValue(s: string): nat
    requires AllDigits(s)
  {
    if s == [] then 0 else DigitsValue(s[..|s| - 1]) * 10 + DigitValue(s[|s| - 1])
  }

  /**
   * `Number(s)` for the strings the validators produce: the empty string is 0,
   * a string of decimal digits is its value, anything else is NaN.
   */
  function ToNumber(s: string): (r: JsNum)
    ensures r.NaN? <==> exists i :: 0 <= i < |s| && !IsDigit(s[i])
  {
    AllDigitsMeans(s);
    if s == [] then Val(0)
    else if AllDigits(s) then Val(DigitsValue(s))
    else NaN
  }

  /** `parts.map(Number)`. */
  function ToNumbers(parts: seq<string>): (r: seq<JsNum>)
    ensures |r| == |parts|
    ensures forall k :: 0 <= k < |parts| ==> r[k] == ToNumber(parts[k])
  {
    if parts == [] then [] else [ToNumber(parts[0])] + ToNumbers(parts[1..])
  }

  /** The decimal digits of `n`, without leading zeros (`String(n)`). */
  function NatToString(n: nat): (s: string)
    ensures s != [] && AllDigits(s)
    decreases n
  {
    if n < 10 then [DigitChar(n)] else NatToString(n / 10) + [DigitChar(n % 10)]
  }

  /** `Number(String(n)) == n`. */
  lemma {:induction false} NumberOfNatToString(n: nat)
    ensures DigitsValue(NatToString(n)) == n
    ensures ToNumber(NatToString(n)) == Val(n)
    decreases n
  {
    var s := NatToString(n);
    if n < 10 {
      assert s[..0] == [];
    } else {
      NumberOfNatToString(n / 10);
      assert s[..|s| - 1] == NatToString(n / 10);
    }
  }

  lemma NatToStringNoSeparators(n: nat)
    ensures forall i :: 0 <= i < |NatToString(n)| ==>
              IsDigit(NatToString(n)[i]) && !IsWhitespace(NatToString(n)[i])
    ensures '-' !in NatToString(n) && ':' !in NatToString(n)
  {
    AllDigitsMeans(NatToString(n));
  }
}
