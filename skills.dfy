/** The skill filter of `extract_skills` in resume_lens/api.py, applied to
    the (text, part-of-speech tag) pairs the tagger produces.

    A token survives when its tag is NOT one of the excluded tags and its
    lower-cased text is not an excluded symbol. The excluded tags include
    nouns, adjectives and verbs, so the surviving "skills" are tokens of the
    other kinds (proper nouns, numerals, symbols, ...). This is the code's
    behaviour and is reproduced as is. */
module Skills {
  import opened Basics

  /** One token of the tagged text: its text and its coarse tag (`pos_`). */
  datatype Token = Token(text: string, pos: string)

  /** `excluded_tokens`. */
  const ExcludedTags: seq<string> :=
    ["NOUN", "ADJ", "PRON", "CONJ", "SCONJ", "ADP", "AUX", "VERB", "DET", "CCONJ"]

  /** The literal part of `excluded_symbols`, duplicates included. */
  const LiteralSymbols: seq<string> := [
    "etc", "to", "to", "(", ")", "-", "_", ".", "/", ",", "e.g.", "\n", ":", "’s",
    "to", "hands", "indepth", "+", "2", "complete", "master", "bachelor’s/", "bachelor",
    "engineering/", " ", "3", "", "independently", "ip", "identity", "closely", "http",
    "framework", "one", "highly", "pipeline", "serverless", "strong", "compute", "code",
    "experience", "web", "storage", "also", "lambda", "access", "simple",
    "quickly", "especially", "certification", "elastic", "developer", "information",
    "infrastructure", "iam", "service", "effectively", "management", "dependency", "entity",
    "10", "core", "parallel", "async", "basics", "security", "patterns", "json", "good",
    "!", "~", "`", "@", "$", "%", "^", "*"]

  /** The largest numeral added to the symbol list. */
  const NumeralLimit: nat := 100000

  /** The numerals appended by `excluded_symbols.extend(str(num) for num in
      range(1, 100001))`, stated as `str(n)` for some n in 1..100000. */
  ghost predicate IsListedNumeral(s: string)
  {
    exists n: nat :: 1 <= n <= NumeralLimit && Decimal(n) == s
  }

  /** The same set tested digit by digit: a decimal numeral without leading
      zero whose value lies in 1..100000. */
  predicate IsCountingNumeral(s: string)
  {
    IsDigits(s) && s[0] != '0' && 1 <= DigitsValue(s) <= NumeralLimit
  }

  lemma {:induction false} DigitCharRoundTrip(d: nat)
    requires d < 10
    ensures IsDigitChar(DigitChar(d)) && DigitValue(DigitChar(d)) == d
  {
  }

  /** `str(n)` is a string of digits that spells n, without a leading zero. */
  lemma {:induction false} DecimalSpellsValue(n: nat)
    ensures IsDigits(Decimal(n)) && DigitsValue(Decimal(n)) == n
    ensures n > 0 ==> Decimal(n)[0] != '0'
  {
    DigitCharRoundTrip(n % 10);
    if n >= 10 {
      DecimalSpellsValue(n / 10);
      var s := Decimal(n);
      assert s[..|s| - 1] == Decimal(n / 10);
      assert s[0] == Decimal(n / 10)[0];
    }
  }

  /** A non-empty string of digits with a non-zero first digit has value at least 1. */
  lemma {:induction false} LeadingDigitPositive(s: string)
    requires IsDigits(s) && s[0] != '0'
    ensures DigitsValue(s) >= 1
  {
    if |s| > 1 {
      var p := s[..|s| - 1];
      assert p[0] == s[0];
      LeadingDigitPositive(p);
    }
  }

  /** A digit string without a leading zero is `str` of its own value. */
  lemma {:induction false} DigitsSpellDecimal(s: string)
    requires IsDigits(s) && s[0] != '0'
    ensures Decimal(DigitsValue(s)) == s
  {
    var n := DigitsValue(s);
    var d := DigitValue(s[|s| - 1]);
    if |s| == 1 {
      assert s[..0] == [];
      assert DigitChar(d) == s[0];
    } else {
      var p := s[..|s| - 1];
      assert p[0] == s[0];
      LeadingDigitPositive(p);
      DigitsSpellDecimal(p);
      assert n == DigitsValue(p) * 10 + d;
      assert n / 10 == DigitsValue(p) && n % 10 == d;
      assert DigitChar(d) == s[|s| - 1];
      assert s == p + [s[|s| - 1]];
    }
  }

  /** The digit-by-digit test recognises exactly the listed numerals. */
  lemma CountingNumeralIsListed(s: string)
    ensures IsCountingNumeral(s) <==> IsListedNumeral(s)
  {
    if IsCountingNumeral(s) {
      DigitsSpellDecimal(s);
    }
    if IsListedNumeral(s) {
      var n: nat :| 1 <= n <= NumeralLimit && Decimal(n) == s;
      DecimalSpellsValue(n);
    }
  }

  /** Membership in `excluded_symbols`. */
  predicate IsExcludedSymbol(s: string)
  {
    s in LiteralSymbols || IsCountingNumeral(s)
  }

  /** The test of the list comprehension in `extract_skills`. */
  predicate Keeps(t: Token)
  {
    t.pos !in ExcludedTags && !IsExcludedSymbol(Lower(t.text))
  }

  function TokenSkill(t: Token): string
  {
    Lower(t.text)
  }

  /** `[token.text.lower() for token in doc if ...]`, in token order. */
  function SkillList(tokens: seq<Token>): seq<string>
  {
    FilterMap(tokens, Keeps, TokenSkill)
  }

  /** `list(set(skills))`: the de-duplicated skills. The order of that list is
      the iteration order of a Python set, which the code does not fix, so
      the result is a set. */
  function ExtractSkills(tokens: seq<Token>): (r: set<string>)
    ensures forall s :: s in r <==> exists i :: 0 <= i < |tokens| && Keeps(tokens[i]) && Lower(tokens[i].text) == s
  {
    var skills := SkillList(tokens);
    forall s | s in Elements(skills)
      ensures exists i :: 0 <= i < |tokens| && Keeps(tokens[i]) && Lower(tokens[i].text) == s
    {
      FilterMapSound(tokens, Keeps, TokenSkill, s);
    }
    forall i | 0 <= i < |tokens| && Keeps(tokens[i])
      ensures Lower(tokens[i].text) in Elements(skills)
    {
      FilterMapComplete(tokens, Keeps, TokenSkill, i);
    }
    Elements(skills)
  }

  /** Every extracted skill is lower-case, is not an excluded symbol, is no
      numeral from 1 to 100000, and comes from a token that is not tagged as
      a noun, an adjective or a verb. */
  lemma ExtractedSkillsAreFiltered(tokens: seq<Token>, s: string)
    requires s in ExtractSkills(tokens)
    ensures Lower(s) == s
    ensures s !in LiteralSymbols
    ensures forall n: nat :: 1 <= n <= NumeralLimit ==> s != Decimal(n)
    ensures exists i :: (0 <= i < |tokens| && Lower(tokens[i].text) == s &&
      tokens[i].pos != "NOUN" && tokens[i].pos != "ADJ" && tokens[i].pos != "VERB")
  {
    var i :| 0 <= i < |tokens| && Keeps(tokens[i]) && Lower(tokens[i].text) == s;
    LowerIsIdempotent(tokens[i].text);
    CountingNumeralIsListed(s);
    assert "NOUN" == ExcludedTags[0] && "ADJ" == ExcludedTags[1] && "VERB" == ExcludedTags[7];
  }

  /** A token tagged as a noun, an adjective or a verb never yields a skill on
      its own: its text is extracted only if another token of a kept tag has
      the same lower-cased text. */
  lemma NounsAdjectivesVerbsDropped(tokens: seq<Token>, i: nat)
    requires i < |tokens|
    requires tokens[i].pos in {"NOUN", "ADJ", "VERB"}
    requires forall j :: 0 <= j < |tokens| && j != i ==> Lower(tokens[j].text) != Lower(tokens[i].text)
    ensures Lower(tokens[i].text) !in ExtractSkills(tokens)
  {
    assert "NOUN" == ExcludedTags[0] && "ADJ" == ExcludedTags[1] && "VERB" == ExcludedTags[7];
  }
}
