/**
 * The string primitives the parser and the dashboard rely on, restricted to
 * ASCII: substring search (`in` in Python, `includes` in JavaScript), case
 * mapping (`upper()`, `toLowerCase()`), whitespace stripping (`strip()`,
 * `trim()`) and Python's `str.title()`.
 */
module Text {

  /** `needle` occurs in `hay` as a contiguous block. The empty needle occurs everywhere. */
  predicate Contains(hay: string, needle: string)
    decreases |hay|
  {
    needle <= hay || (hay != [] && Contains(hay[1..], needle))
  }

  /** `needle` sits in `hay` starting at position `i`. */
  predicate OccursAt(hay: string, needle: string, i: nat) {
    i + |needle| <= |hay| && hay[i..i + |needle|] == needle
  }

  /** Contains agrees with the positional definition of a substring, in both directions. */
  lemma {:induction false} ContainsIffOccurs(hay: string, needle: string)
    ensures Contains(hay, needle) <==> exists i: nat :: OccursAt(hay, needle, i)
    decreases |hay|
  {
    if needle <= hay {
      assert OccursAt(hay, needle, 0);
    } else if hay == [] {
      assert |needle| > 0;
    } else {
      ContainsIffOccurs(hay[1..], needle);
      if Contains(hay[1..], needle) {
        var i: nat :| OccursAt(hay[1..], needle, i);
        assert hay[i + 1..i + 1 + |needle|] == hay[1..][i..i + |needle|];
        assert OccursAt(hay, needle, i + 1);
      } else {
        forall i: nat ensures !OccursAt(hay, needle, i) {
          if i > 0 && i + |needle| <= |hay| {
            assert hay[1..][i - 1..i - 1 + |needle|] == hay[i..i + |needle|];
            assert !OccursAt(hay[1..], needle, i - 1);
          }
        }
      }
    }
  }

  predicate IsLowerLetter(c: char) { 'a' <= c <= 'z' }
  predicate IsUpperLetter(c: char) { 'A' <= c <= 'Z' }
  predicate IsLetter(c: char) { IsLowerLetter(c) || IsUpperLetter(c) }
  predicate IsDigit(c: char) { '0' <= c <= '9' }

  /**
   * Whose notion of whitespace a strip uses: JavaScript's `trim()` or
   * Python's argument-less `str.strip()`. On ASCII they differ only in the
   * four separators U+001C to U+001F, which Python counts as whitespace.
   */
  datatype Trim = JsTrim | PyStrip

  /** The ASCII characters the given strip removes. */
  predicate IsSpace(w: Trim, c: char) {
    c == ' ' || c == '\t' || c == '\n' || c == '\r' || c == '\U{B}' || c == '\U{C}'
    || (w == PyStrip && '\U{1C}' <= c <= '\U{1F}')
  }

  /** Upper-cases an ASCII lower-case letter; every other character is kept. */
  function UpperChar(c: char): (u: char)
    ensures IsLetter(u) == IsLetter(c) && !IsLowerLetter(u)
    ensures IsLowerLetter(c) ==> u as int == c as int - 32
    ensures !IsLowerLetter(c) ==> u == c
  {
    if IsLowerLetter(c) then (c as int - 'a' as int + 'A' as int) as char else c
  }

  /** Lower-cases an ASCII upper-case letter; every other character is kept. */
  function LowerChar(c: char): (l: char)
    ensures IsLetter(l) == IsLetter(c) && !IsUpperLetter(l)
    ensures IsUpperLetter(c) ==> l as int == c as int + 32
    ensures !IsUpperLetter(c) ==> l == c
  {
    if IsUpperLetter(c) then (c as int - 'A' as int + 'a' as int) as char else c
  }

  function Upper(s: string): (u: string)
    ensures |u| == |s|
  {
    seq(|s|, i requires 0 <= i < |s| => UpperChar(s[i]))
  }

  function Lower(s: string): (l: string)
    ensures |l| == |s|
  {
    seq(|s|, i requires 0 <= i < |s| => LowerChar(s[i]))
  }

  /** Two strings with the same upper-case form have the same lower-case form, and back. */
  lemma SameCaseFold(s: string, t: string)
    ensures Upper(s) == Upper(t) <==> Lower(s) == Lower(t)
  {
    if Upper(s) == Upper(t) {
      assert |s| == |t|;
      forall i | 0 <= i < |s| ensures Lower(s)[i] == Lower(t)[i] {
        assert UpperChar(s[i]) == Upper(s)[i] == Upper(t)[i] == UpperChar(t[i]);
      }
    }
    if Lower(s) == Lower(t) {
      assert |s| == |t|;
      forall i | 0 <= i < |s| ensures Upper(s)[i] == Upper(t)[i] {
        assert LowerChar(s[i]) == Lower(s)[i] == Lower(t)[i] == LowerChar(t[i]);
      }
    }
  }

  /** Upper-casing a lower-cased or an upper-cased string gives the upper-cased original. */
  lemma UpperAbsorbs(s: string)
    ensures Upper(Lower(s)) == Upper(s)
    ensures Upper(Upper(s)) == Upper(s)
  {
    forall i | 0 <= i < |s| ensures Upper(Lower(s))[i] == Upper(s)[i] {
      assert Lower(s)[i] == LowerChar(s[i]);
    }
    forall i | 0 <= i < |s| ensures Upper(Upper(s))[i] == Upper(s)[i] {
      assert Upper(s)[i] == UpperChar(s[i]);
    }
  }

  /** Case folding never changes which characters are whitespace. */
  lemma LowerKeepsSpaces(w: Trim, s: string, t: string)
    requires Lower(s) == Lower(t)
    ensures IsBlank(w, s) <==> IsBlank(w, t)
  {
    assert |s| == |t|;
    forall i | 0 <= i < |s| ensures IsSpace(w, s[i]) <==> IsSpace(w, t[i]) {
      assert LowerChar(s[i]) == Lower(s)[i] == Lower(t)[i] == LowerChar(t[i]);
    }
  }

  /** Every character is whitespace (the empty string included). */
  predicate IsBlank(w: Trim, s: string) {
    forall i :: 0 <= i < |s| ==> IsSpace(w, s[i])
  }

  /** Drops leading and trailing whitespace, as `strip()` or `trim()` does. */
  function Strip(w: Trim, s: string): (r: string)
    ensures |r| <= |s|
    ensures r == [] <==> IsBlank(w, s)
    ensures r != [] ==> !IsSpace(w, r[0]) && !IsSpace(w, r[|r| - 1])
    decreases |s|
  {
    if s == [] then s
    else if IsSpace(w, s[0]) then Strip(w, s[1..])
    else if IsSpace(w, s[|s| - 1]) then Strip(w, s[..|s| - 1])
    else s
  }

  /** Stripping removes exactly the whitespace padding around a word with non-space ends. */
  lemma {:induction false} StripPadded(w: Trim, a: string, s: string, b: string)
    requires IsBlank(w, a) && IsBlank(w, b)
    requires s != [] && !IsSpace(w, s[0]) && !IsSpace(w, s[|s| - 1])
    ensures Strip(w, a + s + b) == s
    decreases |a| + |b|
  {
    var t := a + s + b;
    if a != [] {
      assert t[0] == a[0];
      assert t[1..] == a[1..] + s + b;
      StripPadded(w, a[1..], s, b);
    } else if b != [] {
      assert t[0] == s[0];
      assert t[|t| - 1] == b[|b| - 1];
      assert t[..|t| - 1] == a + s + b[..|b| - 1];
      StripPadded(w, a, s, b[..|b| - 1]);
    } else {
      assert t == s;
    }
  }

  /**
   * Python's `str.title()` on ASCII: a letter is upper-cased when it starts a
   * word (it follows a non-letter or the start of the string) and lower-cased
   * otherwise; other characters are kept.
   */
  function TitleCase(s: string): (t: string)
    ensures |t| == |s|
    ensures forall i :: 0 <= i < |s| ==> IsLetter(t[i]) == IsLetter(s[i])
    ensures forall i :: 0 <= i < |s| && !IsLetter(s[i]) ==> t[i] == s[i]
    ensures Lower(t) == Lower(s)
  {
    seq(|s|, i requires 0 <= i < |s| =>
      if !IsLetter(s[i]) then s[i]
      else if i > 0 && IsLetter(s[i - 1]) then LowerChar(s[i])
      else UpperChar(s[i]))
  }

  /** Title case: each word begins with a capital and continues in lower case. */
  predicate IsTitled(t: string) {
    forall i :: 0 <= i < |t| && IsLetter(t[i]) ==>
      (IsUpperLetter(t[i]) <==> (i == 0 || !IsLetter(t[i - 1])))
  }

  /** TitleCase yields title case, and applying it again changes nothing. */
  lemma TitleCaseIsTitled(s: string)
    ensures IsTitled(TitleCase(s))
    ensures TitleCase(TitleCase(s)) == TitleCase(s)
  {
    var t := TitleCase(s);
    forall i | 0 <= i < |t| && IsLetter(t[i])
      ensures IsUpperLetter(t[i]) <==> (i == 0 || !IsLetter(t[i - 1]))
    {
      if i > 0 { assert IsLetter(t[i - 1]) == IsLetter(s[i - 1]); }
    }
    forall i | 0 <= i < |t| ensures TitleCase(t)[i] == t[i] {
      if i > 0 && IsLetter(t[i]) { assert IsLetter(t[i - 1]) == IsLetter(s[i - 1]); }
    }
  }

  /**
   * Title case is fixed by the letters up to case: the only titled string
   * equal to `s` up to case is TitleCase(s).
   */
  lemma TitleCaseUnique(s: string, t: string)
    requires Lower(t) == Lower(s) && IsTitled(t)
    ensures t == TitleCase(s)
  {
    var r := TitleCase(s);
    assert |t| == |s|;
    forall i | 0 <= i < |s| ensures t[i] == r[i] {
      assert LowerChar(t[i]) == Lower(t)[i] == Lower(s)[i] == LowerChar(s[i]);
      if i > 0 {
        assert LowerChar(t[i - 1]) == Lower(t)[i - 1] == Lower(s)[i - 1] == LowerChar(s[i - 1]);
        assert IsLetter(t[i - 1]) == IsLetter(s[i - 1]);
      }
      if IsLetter(s[i]) {
        assert IsLetter(t[i]);
        if i == 0 || !IsLetter(s[i - 1]) {
          assert r[i] == UpperChar(s[i]) && IsUpperLetter(t[i]);
        } else {
          assert r[i] == LowerChar(s[i]) && !IsUpperLetter(t[i]);
        }
      }
    }
  }
}
