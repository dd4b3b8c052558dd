/** The part of Python's `str` methods that the normalisers use (`strip`, `upper`,
    `lower` and `title`), restricted to ASCII: every other character is uncased
    and is not whitespace. */
module AsciiText {

  /** Python's `str.isspace()` on ASCII: TAB, LF, VT, FF, CR, the information
      separators 0x1C-0x1F, and SPACE. */
  predicate IsSpace(c: char)
  {
    var n := c as int;
    n == 32 || 9 <= n <= 13 || 28 <= n <= 31
  }

  predicate IsUpper(c: char) { 'A' <= c <= 'Z' }

  predicate IsLower(c: char) { 'a' <= c <= 'z' }

  /** A cased character in the sense of Python's `title()`. */
  predicate IsLetter(c: char) { IsUpper(c) || IsLower(c) }

  function UpperChar(c: char): char
  {
    if IsLower(c) then (c as int - 32) as char else c
  }

  function LowerChar(c: char): char
  {
    if IsUpper(c) then (c as int + 32) as char else c
  }

  /** `str.upper()`. */
  function Upper(s: string): (r: string)
    ensures CaseFoldEq(r, s)
    ensures forall i :: 0 <= i < |r| ==> !IsLower(r[i])
  {
    seq(|s|, i requires 0 <= i < |s| => UpperChar(s[i]))
  }

  /** `upper()` is the ONLY text equal to `s` up to case with no lower-case letter. */
  lemma UpperUnique(s: string, t: string)
    requires CaseFoldEq(t, s)
    requires forall i :: 0 <= i < |t| ==> !IsLower(t[i])
    ensures t == Upper(s)
  {
    var r := Upper(s);
    forall i | 0 <= i < |s|
      ensures t[i] == r[i]
    {
      assert LowerChar(t[i]) == LowerChar(r[i]);
      LetterFromFoldAndCase(t[i], r[i]);
    }
  }

  ghost predicate AllSpace(s: string)
  {
    forall i :: 0 <= i < |s| ==> IsSpace(s[i])
  }

  /** No leading and no trailing whitespace. */
  predicate Trimmed(s: string)
  {
    s == [] || (!IsSpace(s[0]) && !IsSpace(s[|s| - 1]))
  }

  /** The index of the first non-whitespace character at or after `i`; `|s|` if none. */
  function SkipSpace(s: string, i: nat): (r: nat)
    requires i <= |s|
    ensures i <= r <= |s|
    ensures forall k :: i <= k < r ==> IsSpace(s[k])
    ensures r == |s| || !IsSpace(s[r])
    decreases |s| - i
  {
    if i < |s| && IsSpace(s[i]) then SkipSpace(s, i + 1) else i
  }

  /** The index just past the last non-whitespace character before `j` and not before
      `lo`; `lo` if there is none. */
  function SkipSpaceBack(s: string, lo: nat, j: nat): (r: nat)
    requires lo <= j <= |s|
    ensures lo <= r <= j
    ensures forall k :: r <= k < j ==> IsSpace(s[k])
    ensures r == lo || !IsSpace(s[r - 1])
  {
    if lo < j && IsSpace(s[j - 1]) then SkipSpaceBack(s, lo, j - 1) else j
  }

  /** `str.strip()`: whitespace removed at both ends, and nothing else changed. */
  function Strip(s: string): (r: string)
    ensures |r| <= |s|
    ensures Trimmed(r)
    ensures Trimmed(s) ==> r == s
  {
    var i := SkipSpace(s, 0);
    var j := SkipSpaceBack(s, i, |s|);
    assert s != [] && !IsSpace(s[0]) ==> i == 0;
    assert s != [] && !IsSpace(s[|s| - 1]) ==> j == |s|;
    s[i..j]
  }

  /** `strip()` removes only whitespace, and only at the two ends: the result is the
      slice of the input that starts at its first non-whitespace character, and what
      lies before and after that slice is whitespace. */
  lemma StripIsSlice(s: string)
    ensures var r := Strip(s);
            var i := SkipSpace(s, 0);
            && i + |r| <= |s|
            && r == s[i..i + |r|]
            && (forall k :: 0 <= k < i ==> IsSpace(s[k]))
            && (forall k :: i + |r| <= k < |s| ==> IsSpace(s[k]))
  {
  }

  /** `strip()` undoes padding: text with no whitespace at its ends, surrounded by any
      whitespace, strips back to itself. */
  lemma StripPadding(p: string, t: string, q: string)
    requires AllSpace(p) && AllSpace(q)
    requires Trimmed(t) && t != []
    ensures Strip(p + t + q) == t
  {
    var s := p + t + q;
    var n := |p| + |t|;
    assert forall k :: 0 <= k < |p| ==> s[k] == p[k];
    assert forall k :: n <= k < |s| ==> s[k] == q[k - n];
    assert s[|p|] == t[0] && s[n - 1] == t[|t| - 1];
    var i := SkipSpace(s, 0);
    assert i == |p|;
    var j := SkipSpaceBack(s, i, |s|);
    assert j == n;
    assert s[|p|..n] == t;
  }

  /** A word written with one capital followed by lower-case letters has the title shape. */
  lemma CapitalizedIsTitleCased(w: string)
    requires |w| > 0 && IsUpper(w[0])
    requires forall i :: 1 <= i < |w| ==> IsLower(w[i])
    ensures TitleCased(w)
  {
  }

  /** Two strings that agree character by character up to case. */
  predicate CaseFoldEq(a: string, b: string)
  {
    |a| == |b| && forall i :: 0 <= i < |a| ==> LowerChar(a[i]) == LowerChar(b[i])
  }

  /** Every letter that starts a run of letters is upper case and every other letter is
      lower case; `afterLetter` says whether the text is preceded by a letter. */
  predicate TitleCasedAfter(s: string, afterLetter: bool)
  {
    forall i :: 0 <= i < |s| && IsLetter(s[i]) ==>
      if LetterBefore(s, i, afterLetter) then IsLower(s[i]) else IsUpper(s[i])
  }

  /** Whether the character before position `i` is a letter; `afterLetter` at the start. */
  predicate LetterBefore(s: string, i: nat, afterLetter: bool)
    requires i <= |s|
  {
    if i == 0 then afterLetter else IsLetter(s[i - 1])
  }

  /** The shape `str.title()` produces. */
  predicate TitleCased(s: string)
  {
    TitleCasedAfter(s, false)
  }

  /** The loop of Python's `str.title()`, from a state where `afterLetter` says whether
      the previous ORIGINAL character was cased. */
  function TitleFrom(s: string, afterLetter: bool): (r: string)
    ensures CaseFoldEq(r, s)
    ensures TitleCasedAfter(r, afterLetter)
  {
    if s == [] then
      []
    else
      var c := s[0];
      var d := if afterLetter then LowerChar(c) else UpperChar(c);
      var rest := TitleFrom(s[1..], IsLetter(c));
      assert forall i :: 1 <= i < |s| ==> LowerChar(([d] + rest)[i]) == LowerChar(s[1..][i - 1]);
      TitleCasedCons(d, rest, afterLetter);
      [d] + rest
  }

  /** Putting a correctly cased character in front of a title-cased text keeps the shape. */
  lemma TitleCasedCons(d: char, rest: string, afterLetter: bool)
    requires IsLetter(d) ==> if afterLetter then IsLower(d) else IsUpper(d)
    requires TitleCasedAfter(rest, IsLetter(d))
    ensures TitleCasedAfter([d] + rest, afterLetter)
  {
    var r := [d] + rest;
    assert r[0] == d;
    forall i | 0 <= i < |r| && IsLetter(r[i])
      ensures if LetterBefore(r, i, afterLetter) then IsLower(r[i]) else IsUpper(r[i])
    {
      if i > 0 {
        assert r[i] == rest[i - 1];
        assert LetterBefore(r, i, afterLetter) == LetterBefore(rest, i - 1, IsLetter(d));
      }
    }
  }

  /** `str.title()`. */
  function Title(s: string): (r: string)
    ensures CaseFoldEq(r, s)
    ensures TitleCased(r)
  {
    TitleFrom(s, false)
  }

  /** A letter is determined by its lower-case form and by whether it is upper case. */
  lemma LetterFromFoldAndCase(a: char, b: char)
    requires LowerChar(a) == LowerChar(b)
    requires IsUpper(a) <==> IsUpper(b)
    ensures a == b
  {
  }

  /** `Title(s)` is the ONLY string that equals `s` up to case and has the title shape:
      the shape alone decides the case of every letter. */
  lemma {:induction false} TitleUnique(s: string, t: string)
    requires CaseFoldEq(t, s)
    requires TitleCased(t)
    ensures t == Title(s)
  {
    var r := Title(s);
    forall i | 0 <= i < |s|
      ensures t[i] == r[i]
    {
      assert LowerChar(t[i]) == LowerChar(r[i]);
      assert IsLetter(t[i]) <==> IsLetter(r[i]);
      if i > 0 {
        assert LowerChar(t[i - 1]) == LowerChar(r[i - 1]);
        assert IsLetter(t[i - 1]) <==> IsLetter(r[i - 1]);
      }
      if IsLetter(t[i]) {
        assert IsLetter(r[i]);
        if i > 0 && IsLetter(t[i - 1]) {
          assert IsLower(t[i]) && IsLower(r[i]);
        } else if i == 0 {
          assert IsUpper(t[i]);
          assert IsUpper(r[i]);
        } else {
          assert !IsLetter(t[i - 1]);
          assert IsUpper(t[i]);
          assert IsUpper(r[i]);
        }
      }
      LetterFromFoldAndCase(t[i], r[i]);
    }
  }

  /** Applying `title()` twice gives the same string as applying it once. */
  lemma TitleIdempotent(s: string)
    ensures Title(Title(s)) == Title(s)
  {
    TitleUnique(Title(s), Title(s));
  }

  /** `title()` changes only letters, so it never adds or removes surrounding whitespace. */
  lemma TitleKeepsTrimmed(s: string)
    ensures Trimmed(Title(s)) <==> Trimmed(s)
  {
    var r := Title(s);
    if |s| > 0 {
      assert LowerChar(r[0]) == LowerChar(s[0]);
      assert LowerChar(r[|s| - 1]) == LowerChar(s[|s| - 1]);
    }
  }
}
