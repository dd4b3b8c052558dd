/** The field normalisers of the clean-and-load script: total functions from a
    possibly-missing raw cell to the canonical value. */
module Normalize {
  import opened Wrappers
  import opened AsciiText

  /** The three canonical experience levels. */
  const Levels: set<string> := {"Junior", "Mid", "Senior"}

  /** The closed lookup table from upper-cased experience codes to levels. */
  const ExperienceCodes: map<string, string> :=
    map["EN" := "Junior", "MI" := "Mid", "SE" := "Senior", "EX" := "Senior"]

  /** `normalize_experiance`: a missing code is `Mid`; otherwise the code is stripped
      and upper-cased and looked up, and every code outside the table is `Mid` too. */
  function NormalizeExperience(level: Option<string>): (r: string)
    ensures r in Levels
    ensures level.None? ==> r == "Mid"
  {
    match level
    case None => "Mid"
    case Some(s) =>
      var code := Upper(Strip(s));
      if code in ExperienceCodes then ExperienceCodes[code] else "Mid"
  }

  /** The spellings of the two-letter code `ab` (upper case) in any mix of cases. */
  function CaseVariants(a: char, b: char): set<string>
  {
    {[a, b], [a, LowerChar(b)], [LowerChar(a), b], [LowerChar(a), LowerChar(b)]}
  }

  /** `t` upper-cases to the two-letter code `ab`. */
  predicate SpellsCode(t: string, a: char, b: char)
  {
    |t| == 2 && UpperChar(t[0]) == a && UpperChar(t[1]) == b
  }

  lemma {:induction false} UpperIsCode(t: string, a: char, b: char)
    ensures Upper(t) == [a, b] <==> SpellsCode(t, a, b)
  {
    if Upper(t) == [a, b] {
      assert Upper(t)[0] == a && Upper(t)[1] == b;
    }
    if SpellsCode(t, a, b) {
      assert Upper(t)[0] == a && Upper(t)[1] == b;
    }
  }

  /** The texts that upper-case to a code of two upper-case letters are exactly its four
      spellings in mixed case. */
  lemma {:induction false} SpellingsOfCode(t: string, a: char, b: char)
    requires IsUpper(a) && IsUpper(b)
    ensures SpellsCode(t, a, b) <==> t in CaseVariants(a, b)
  {
    if SpellsCode(t, a, b) {
      assert t[0] == a || t[0] == LowerChar(a);
      assert t[1] == b || t[1] == LowerChar(b);
      assert t == [t[0], t[1]];
    }
  }

  /** The lookup on the upper-cased stripped text, one code at a time. */
  lemma ExperienceByCode(s: string)
    ensures NormalizeExperience(Some(s)) == "Junior" <==> SpellsCode(Strip(s), 'E', 'N')
    ensures NormalizeExperience(Some(s)) == "Senior" <==>
              SpellsCode(Strip(s), 'S', 'E') || SpellsCode(Strip(s), 'E', 'X')
  {
    var t := Strip(s);
    var u := Upper(t);
    assert NormalizeExperience(Some(s)) == if u in ExperienceCodes then ExperienceCodes[u] else "Mid";
    UpperIsCode(t, 'E', 'N');
    UpperIsCode(t, 'S', 'E');
    UpperIsCode(t, 'E', 'X');
  }

  /** The mapping as a table over the stripped raw text, with no reference to `upper()`:
      `Junior` for exactly the spellings of `EN`, `Senior` for exactly those of `SE` and
      `EX`, and `Mid` for everything else, `MI` included. */
  lemma ExperienceTable(s: string)
    ensures NormalizeExperience(Some(s)) == "Junior" <==> Strip(s) in CaseVariants('E', 'N')
    ensures NormalizeExperience(Some(s)) == "Senior" <==>
              Strip(s) in CaseVariants('S', 'E') || Strip(s) in CaseVariants('E', 'X')
    ensures NormalizeExperience(Some(s)) == "Mid" <==>
              && Strip(s) !in CaseVariants('E', 'N')
              && Strip(s) !in CaseVariants('S', 'E')
              && Strip(s) !in CaseVariants('E', 'X')
  {
    var t := Strip(s);
    ExperienceByCode(s);
    SpellingsOfCode(t, 'E', 'N');
    SpellingsOfCode(t, 'S', 'E');
    SpellingsOfCode(t, 'E', 'X');
  }

  /** Two non-blank characters are looked up as their upper-cased form. */
  lemma TwoLetterCode(s: string, a: char, b: char)
    requires |s| == 2 && !IsSpace(s[0]) && !IsSpace(s[1])
    requires UpperChar(s[0]) == a && UpperChar(s[1]) == b
    ensures NormalizeExperience(Some(s)) ==
              if [a, b] in ExperienceCodes then ExperienceCodes[[a, b]] else "Mid"
  {
    assert Trimmed(s);
    assert Upper(s) == [a, b];
  }

  /** Text that is not two characters long once stripped is no code, so it is Mid. */
  lemma NotTwoLettersIsMid(s: string)
    requires |Strip(s)| != 2
    ensures NormalizeExperience(Some(s)) == "Mid"
  {
    assert |Upper(Strip(s))| != 2;
  }

  /** Surrounding whitespace does not matter: a code padded with any whitespace on
      either side normalises as the bare code. */
  lemma ExperienceIgnoresPadding(p: string, code: string, q: string)
    requires AllSpace(p) && AllSpace(q)
    requires Trimmed(code) && code != []
    ensures NormalizeExperience(Some(p + code + q)) == NormalizeExperience(Some(code))
  {
    StripPadding(p, code, q);
  }

  /** Letter case does not matter: `"Se"` is Senior. */
  lemma MixedCaseCodeExample()
    ensures NormalizeExperience(Some("Se")) == "Senior"
  {
    TwoLetterCode("Se", 'S', 'E');
  }

  /** A code outside the table falls back to Mid. */
  lemma UnknownCodeExample()
    ensures NormalizeExperience(Some("XX")) == "Mid"
  {
    TwoLetterCode("XX", 'X', 'X');
  }

  lemma JuniorCode()
    ensures NormalizeExperience(Some("EN")) == "Junior"
  {
    TwoLetterCode("EN", 'E', 'N');
  }

  lemma MidCode()
    ensures NormalizeExperience(Some("MI")) == "Mid"
  {
    TwoLetterCode("MI", 'M', 'I');
  }

  lemma SeniorCode()
    ensures NormalizeExperience(Some("SE")) == "Senior"
  {
    TwoLetterCode("SE", 'S', 'E');
  }

  /** The canonical code of a level: the first code the table sends to it. */
  function LevelCode(level: string): (code: string)
    requires level in Levels
    ensures NormalizeExperience(Some(code)) == level
  {
    if level == "Junior" then JuniorCode(); "EN"
    else if level == "Mid" then MidCode(); "MI"
    else SeniorCode(); "SE"
  }

  /** Normalising again through a level's own code changes nothing. */
  lemma ExperienceIdempotentOnCodes(level: Option<string>)
    ensures NormalizeExperience(Some(LevelCode(NormalizeExperience(level)))) == NormalizeExperience(level)
  {
  }

  /** Normalising a level NAME again is not the identity: no name is a code, so every
      normalised level normalises again to `Mid` (`EN` gives `Junior`, then `Mid`). */
  lemma ExperienceNotIdempotentOnNames(level: Option<string>)
    ensures NormalizeExperience(Some(NormalizeExperience(level))) == "Mid"
  {
    var name := NormalizeExperience(level);
    assert Trimmed(name) && |name| != 2;
    NotTwoLettersIsMid(name);
  }

  /** `normalize_title`: `Unknown` when missing, else the stripped text in title case. */
  function NormalizeTitle(title: Option<string>): (r: string)
    ensures Trimmed(r)
    ensures TitleCased(r)
    ensures title.None? ==> r == "Unknown"
    ensures title.Some? ==> CaseFoldEq(r, Strip(title.value))
  {
    match title
    case None =>
      CapitalizedIsTitleCased("Unknown");
      "Unknown"
    case Some(t) =>
      TitleKeepsTrimmed(Strip(t));
      Title(Strip(t))
  }

  /** Normalising an already-normalised title changes nothing. */
  lemma NormalizeTitleIdempotent(title: Option<string>)
    ensures NormalizeTitle(Some(NormalizeTitle(title))) == NormalizeTitle(title)
  {
    var r := NormalizeTitle(title);
    assert Strip(r) == r;
    TitleUnique(r, r);
  }

  /** `fillna("Unknown")` on a string column: no trimming and no change of case. */
  function FillUnknown(cell: Option<string>): (r: string)
    ensures cell.None? ==> r == "Unknown"
    ensures cell.Some? ==> r == cell.value
  {
    cell.GetOr("Unknown")
  }
}
