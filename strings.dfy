/**
 * The few Python string operations the core relies on: `str.strip()` (used by
 * REST framework character fields to trim input and to detect blank input),
 * `str(n)` of a non-negative integer (used by character fields on numeric
 * input) and `str.title()` (used to build the difficulty labels).
 * Whitespace is Python's: the characters `str.isspace()` accepts, which are
 * the ones `str.strip()` removes. Letters are the ASCII ones, which is all
 * the labels need.
 */
module Strings {

  /**
   * Python's whitespace: tab, line feed, vertical tab, form feed, carriage
   * return, the four information separators, space, next line, no-break
   * space, and the Unicode space and line/paragraph separators.
   */
  predicate IsSpace(c: char) {
    ('\t' <= c <= '\r') || ('\U{1C}' <= c <= '\U{1F}') || c == ' ' || c == '\U{85}' || c == '\U{A0}' ||
    c == '\U{1680}' || ('\U{2000}' <= c <= '\U{200A}') || c == '\U{2028}' || c == '\U{2029}' || c == '\U{202F}' ||
    c == '\U{205F}' || c == '\U{3000}'
  }

  /** A string made only of whitespace (the empty string included). */
  predicate Blank(s: string) {
    forall i :: 0 <= i < |s| ==> IsSpace(s[i])
  }

  /** `s.lstrip()`: drops leading whitespace. */
  function TrimLeft(s: string): string {
    if s != [] && IsSpace(s[0]) then TrimLeft(s[1..]) else s
  }

  /** `s.rstrip()`: drops trailing whitespace. */
  function TrimRight(s: string): string {
    if s != [] && IsSpace(s[|s| - 1]) then TrimRight(s[..|s| - 1]) else s
  }

  /** `s.strip()`. */
  function Trim(s: string): string {
    TrimRight(TrimLeft(s))
  }

  /** `lstrip` keeps a suffix of its input. */
  lemma {:induction false} TrimLeftSuffix(s: string)
    ensures |TrimLeft(s)| <= |s| && TrimLeft(s) == s[|s| - |TrimLeft(s)|..]
  {
    if s != [] && IsSpace(s[0]) {
      TrimLeftSuffix(s[1..]);
      assert s[1..][|s| - 1 - |TrimLeft(s[1..])|..] == s[|s| - |TrimLeft(s[1..])|..];
    }
  }

  /** What `lstrip` keeps does not start with whitespace. */
  lemma {:induction false} TrimLeftStart(s: string)
    ensures TrimLeft(s) == [] || !IsSpace(TrimLeft(s)[0])
  {
    if s != [] && IsSpace(s[0]) {
      TrimLeftStart(s[1..]);
    }
  }

  /** What `lstrip` drops is whitespace. */
  lemma {:induction false} TrimLeftDropsSpaces(s: string)
    ensures forall i :: 0 <= i < |s| - |TrimLeft(s)| ==> IsSpace(s[i])
  {
    if s != [] && IsSpace(s[0]) {
      var rest := s[1..];
      TrimLeftDropsSpaces(rest);
      assert forall i :: 0 < i < |s| ==> s[i] == rest[i - 1];
    }
  }

  /** `lstrip` keeps a suffix that does not start with whitespace, and drops only whitespace. */
  lemma TrimLeftShape(s: string)
    ensures |TrimLeft(s)| <= |s| && TrimLeft(s) == s[|s| - |TrimLeft(s)|..]
    ensures TrimLeft(s) == [] || !IsSpace(TrimLeft(s)[0])
    ensures forall i :: 0 <= i < |s| - |TrimLeft(s)| ==> IsSpace(s[i])
  {
    TrimLeftSuffix(s);
    TrimLeftStart(s);
    TrimLeftDropsSpaces(s);
  }

  /** `rstrip` keeps a prefix, and a non-empty result does not start with whitespace if its input did not. */
  lemma {:induction false} TrimRightShape(s: string)
    ensures |TrimRight(s)| <= |s| && TrimRight(s) == s[..|TrimRight(s)|]
  {
    if s != [] && IsSpace(s[|s| - 1]) {
      TrimRightShape(s[..|s| - 1]);
    }
  }

  /** `rstrip` yields the empty string only from a blank string. */
  lemma {:induction false} TrimRightEmpty(s: string)
    ensures TrimRight(s) == [] ==> Blank(s)
  {
    if s != [] && IsSpace(s[|s| - 1]) {
      TrimRightEmpty(s[..|s| - 1]);
    }
  }

  /** Stripping leaves nothing exactly when the string is blank. */
  lemma TrimEmptyIffBlank(s: string)
    ensures Trim(s) == [] <==> Blank(s)
  {
    var l := TrimLeft(s);
    TrimLeftShape(s);
    TrimRightEmpty(l);
    if l != [] {
      assert l[0] == s[|s| - |l|];
      assert !Blank(l);
    } else {
      assert Trim(s) == [];
    }
  }

  /** A stripped string has no surrounding whitespace, so it is blank only when empty. */
  lemma TrimmedBlankIsEmpty(s: string)
    ensures Blank(Trim(s)) <==> Trim(s) == []
  {
    var l := TrimLeft(s);
    var t := Trim(s);
    TrimLeftShape(s);
    TrimRightShape(l);
    if t != [] {
      assert t[0] == l[0];
      assert !IsSpace(t[0]);
    }
  }

  /** No NUL character: REST framework character fields refuse input holding one. */
  predicate NoNul(s: string) {
    forall i :: 0 <= i < |s| ==> s[i] != '\0'
  }

  function Digit(d: nat): (c: char)
    requires d < 10
    ensures '0' <= c <= '9'
  {
    ('0' as int + d) as char
  }

  /** `str(n)` for a non-negative integer: its decimal digits, without leading zeros. */
  function Decimal(n: nat): (r: string)
    ensures r != []
    ensures forall i :: 0 <= i < |r| ==> '0' <= r[i] <= '9'
  {
    if n < 10 then [Digit(n)] else Decimal(n / 10) + [Digit(n % 10)]
  }

  /** Decimal digits are neither whitespace nor NUL, so `str(n)` is never blank and survives stripping. */
  lemma DecimalIsText(n: nat)
    ensures !Blank(Decimal(n)) && NoNul(Decimal(n)) && Trim(Decimal(n)) == Decimal(n)
  {
    var r := Decimal(n);
    assert !IsSpace(r[0]);
    assert IsSpace(r[|r| - 1]) == false;
    assert TrimLeft(r) == r;
    assert TrimRight(r) == r;
  }

  predicate IsLetter(c: char) {
    ('a' <= c <= 'z') || ('A' <= c <= 'Z')
  }

  function Upper(c: char): char {
    if 'a' <= c <= 'z' then (c as int - 32) as char else c
  }

  function Lower(c: char): char {
    if 'A' <= c <= 'Z' then (c as int + 32) as char else c
  }

  function LowerAll(s: string): (r: string)
    ensures |r| == |s|
    ensures forall i :: 0 <= i < |s| ==> r[i] == Lower(s[i])
  {
    if s == [] then [] else [Lower(s[0])] + LowerAll(s[1..])
  }

  /**
   * `str.title()` on the rest of a string: a letter is upper-cased when it
   * follows a non-letter (or starts the string) and lower-cased otherwise.
   */
  function TitleFrom(s: string, afterLetter: bool): string {
    if s == [] then []
    else
      var c := s[0];
      var c' := if !IsLetter(c) then c else if afterLetter then Lower(c) else Upper(c);
      [c'] + TitleFrom(s[1..], IsLetter(c))
  }

  function Title(s: string): string {
    TitleFrom(s, false)
  }

  lemma {:induction false} TitleRestOfWord(s: string)
    requires forall i :: 0 <= i < |s| ==> IsLetter(s[i])
    ensures TitleFrom(s, true) == LowerAll(s)
  {
    if s != [] {
      TitleRestOfWord(s[1..]);
    }
  }

  /** A single word is title-cased to its first letter upper-cased and the rest lower-cased. */
  lemma TitleOfWord(s: string)
    requires s != []
    requires forall i :: 0 <= i < |s| ==> IsLetter(s[i])
    ensures Title(s) == [Upper(s[0])] + LowerAll(s[1..])
  {
    TitleRestOfWord(s[1..]);
  }
}
