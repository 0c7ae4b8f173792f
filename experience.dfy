/** Experience extraction in resume_lens/api.py, after the regular expression
    has run.

    A job description yields an ordered list of year ranges; a resume yields
    one number, the largest stated value of years. The regular-expression
    engine itself is not modelled: its matches are the inputs. */
module Experience {
  import opened Basics

  /** One match of the job-description experience pattern, reduced to the
      capture groups the code inspects (0, 2, 4, 6, 8 and 10). A group that
      is the empty string in the match tuple is None; a group that took part
      holds the number its digits spell. */
  datatype ExpMatch = ExpMatch(
    g0: Option<real>, g2: Option<real>,
    g4: Option<real>, g6: Option<real>,
    g8: Option<real>, g10: Option<real>)

  /** A (start, end) pair of years. Nothing forces start <= end: the text
      "10 to 5 years" yields (10, 5). */
  datatype Range = Range(start: real, end: real)

  /** A single stated value n is read as the range (n, n + SingleValueSpan). */
  const SingleValueSpan: real := 5.0

  /** The range one match contributes, or None when no case applies and the
      match is dropped. The first applicable case wins. */
  function RangeOf(m: ExpMatch): (r: Option<Range>)
    ensures r.None? <==>
      !(m.g0.Some? && m.g2.Some?) && m.g4.None? && m.g6.None? && !(m.g8.Some? && m.g10.Some?)
    ensures m.g0.Some? && m.g2.Some? ==> r == Some(Range(m.g0.value, m.g2.value))
    ensures !(m.g0.Some? && m.g2.Some?) && m.g4.Some? ==>
      r == Some(Range(m.g4.value, m.g4.value + SingleValueSpan))
    ensures !(m.g0.Some? && m.g2.Some?) && m.g4.None? && m.g6.Some? ==>
      r == Some(Range(m.g6.value, m.g6.value + SingleValueSpan))
    ensures !(m.g0.Some? && m.g2.Some?) && m.g4.None? && m.g6.None? && m.g8.Some? && m.g10.Some? ==>
      r == Some(Range(m.g8.value, m.g10.value))
  {
    if m.g0.Some? && m.g2.Some? then Some(Range(m.g0.value, m.g2.value))
    else if m.g4.Some? then Some(Range(m.g4.value, m.g4.value + SingleValueSpan))
    else if m.g6.Some? then Some(Range(m.g6.value, m.g6.value + SingleValueSpan))
    else if m.g8.Some? && m.g10.Some? then Some(Range(m.g8.value, m.g10.value))
    else None
  }

  /** The ranges of a list of matches, in text order. */
  function ExperienceRanges(ms: seq<ExpMatch>): (r: seq<Range>)
    ensures |r| <= |ms|
  {
    if ms == [] then []
    else
      var last := RangeOf(ms[|ms| - 1]);
      ExperienceRanges(ms[..|ms| - 1]) + (if last.Some? then [last.value] else [])
  }

  /** `extract_experience`: walks the matches in order and appends the range
      each applicable one gives. */
  method ExtractExperience(matches: seq<ExpMatch>) returns (ranges: seq<Range>)
    ensures ranges == ExperienceRanges(matches)
    ensures |ranges| <= |matches|
  {
    ranges := [];
    for i := 0 to |matches|
      invariant ranges == ExperienceRanges(matches[..i])
    {
      assert matches[..i + 1][..i] == matches[..i];
      var m := matches[i];
      if m.g0.Some? && m.g2.Some? {
        ranges := ranges + [Range(m.g0.value, m.g2.value)];
      } else if m.g4.Some? {
        ranges := ranges + [Range(m.g4.value, m.g4.value + SingleValueSpan)];
      } else if m.g6.Some? {
        ranges := ranges + [Range(m.g6.value, m.g6.value + SingleValueSpan)];
      } else if m.g8.Some? && m.g10.Some? {
        ranges := ranges + [Range(m.g8.value, m.g10.value)];
      }
    }
    assert matches[..|matches|] == matches;
  }

  /** The ranges of two stretches of text are those of the first followed by
      those of the second: output order is text order. */
  lemma {:induction false} ExperienceRangesAppend(a: seq<ExpMatch>, b: seq<ExpMatch>)
    ensures ExperienceRanges(a + b) == ExperienceRanges(a) + ExperienceRanges(b)
    decreases |b|
  {
    if b == [] {
      assert a + b == a;
    } else {
      var b' := b[..|b| - 1];
      assert (a + b)[..|a + b| - 1] == a + b';
      assert (a + b)[|a + b| - 1] == b[|b| - 1];
      ExperienceRangesAppend(a, b');
    }
  }

  /** A range is extracted exactly when some match gives it. */
  lemma {:induction false} ExperienceRangesMembership(ms: seq<ExpMatch>, r: Range)
    ensures r in ExperienceRanges(ms) <==> exists i :: 0 <= i < |ms| && RangeOf(ms[i]) == Some(r)
  {
    if ms != [] {
      var init := ms[..|ms| - 1];
      ExperienceRangesMembership(init, r);
      if exists i :: 0 <= i < |init| && RangeOf(init[i]) == Some(r) {
        var i :| 0 <= i < |init| && RangeOf(init[i]) == Some(r);
        assert ms[i] == init[i];
      }
      if exists i :: 0 <= i < |ms| && RangeOf(ms[i]) == Some(r) {
        var i :| 0 <= i < |ms| && RangeOf(ms[i]) == Some(r);
        if i < |init| {
          assert init[i] == ms[i];
        }
      }
    }
  }

  /** Nothing is extracted exactly when no match has an applicable case. */
  lemma {:induction false} ExperienceRangesEmpty(ms: seq<ExpMatch>)
    ensures ExperienceRanges(ms) == [] <==> forall i :: 0 <= i < |ms| ==> RangeOf(ms[i]).None?
  {
    if ms != [] {
      var init := ms[..|ms| - 1];
      ExperienceRangesEmpty(init);
      if ExperienceRanges(ms) == [] {
        forall i | 0 <= i < |ms| ensures RangeOf(ms[i]).None? {
          if i < |init| {
            assert ms[i] == init[i];
          }
        }
      }
    }
  }

  /** The default `parse_jd` puts in place of an empty extraction. */
  const DefaultRange: Range := Range(0.0, 0.0)

  /** `experience if experience else [(0, 0)]` in `parse_jd`. */
  function JdExperience(ranges: seq<Range>): (r: seq<Range>)
    ensures r != []
    ensures ranges != [] ==> r == ranges
    ensures ranges == [] ==> r == [DefaultRange]
  {
    if ranges == [] then [DefaultRange] else ranges
  }

  /** The lower end of the experience envelope: the smallest range start. */
  function MinStart(rs: seq<Range>): (m: real)
    requires rs != []
    ensures forall i :: 0 <= i < |rs| ==> m <= rs[i].start
    ensures exists i :: 0 <= i < |rs| && m == rs[i].start
  {
    if |rs| == 1 then rs[0].start
    else
      var rest := MinStart(rs[1..]);
      if rs[0].start <= rest then rs[0].start else rest
  }

  /** The upper end of the experience envelope: the largest range end. */
  function MaxEnd(rs: seq<Range>): (m: real)
    requires rs != []
    ensures forall i :: 0 <= i < |rs| ==> rs[i].end <= m
    ensures exists i :: 0 <= i < |rs| && m == rs[i].end
  {
    if |rs| == 1 then rs[0].end
    else
      var rest := MaxEnd(rs[1..]);
      if rest <= rs[0].end then rs[0].end else rest
  }

  /** With no experience pattern in the job description the envelope is (0, 0). */
  lemma NoPatternGivesZeroEnvelope(ms: seq<ExpMatch>)
    requires forall i :: 0 <= i < |ms| ==> RangeOf(ms[i]).None?
    ensures MinStart(JdExperience(ExperienceRanges(ms))) == 0.0
    ensures MaxEnd(JdExperience(ExperienceRanges(ms))) == 0.0
  {
    ExperienceRangesEmpty(ms);
  }

  // ---------------------------------------------------------------------
  // Resume style: the largest stated number of years.

  /** `s.lstrip('+')`: the suffix left after dropping leading '+'. */
  function TrimLeadingPlus(s: string): (r: string)
    ensures |r| <= |s| && r == s[|s| - |r|..]
    ensures forall k :: 0 <= k < |s| - |r| ==> s[k] == '+'
    ensures r == [] || r[0] != '+'
  {
    if s != [] && s[0] == '+' then
      var r := TrimLeadingPlus(s[1..]);
      assert forall k :: 1 <= k < |s| - |r| ==> s[k] == s[1..][k - 1];
      r
    else s
  }

  /** `s.rstrip('+')`: the prefix left after dropping trailing '+'. */
  function TrimTrailingPlus(s: string): (r: string)
    ensures |r| <= |s| && r == s[..|r|]
    ensures forall k :: |r| <= k < |s| ==> s[k] == '+'
    ensures r == [] || r[|r| - 1] != '+'
  {
    if s != [] && s[|s| - 1] == '+' then TrimTrailingPlus(s[..|s| - 1]) else s
  }

  /** `match.strip('+')`. */
  function StripPlus(s: string): string
  {
    TrimTrailingPlus(TrimLeadingPlus(s))
  }

  /** Stripping removes '+' signs at both ends and nothing else: the result
      is a slice of the text, everything cut away is '+', and the result
      neither starts nor ends with '+'. */
  lemma StripPlusMeaning(s: string)
    ensures var r := StripPlus(s);
      (r == [] || (r[0] != '+' && r[|r| - 1] != '+')) &&
      exists i, j :: (0 <= i <= j <= |s| && r == s[i..j] &&
        (forall k :: 0 <= k < i ==> s[k] == '+') && (forall k :: j <= k < |s| ==> s[k] == '+'))
  {
    var i, j := StripPlusSlice(s);
    var left := TrimLeadingPlus(s);
    var r := TrimTrailingPlus(left);
    if r != [] {
      assert r[0] == left[0];
    }
  }

  /** Where StripPlus cuts: the slice s[i..j] it keeps, with only '+'
      before i and from j on. */
  lemma StripPlusSlice(s: string) returns (i: nat, j: nat)
    ensures i <= j <= |s| && StripPlus(s) == s[i..j]
    ensures forall k :: 0 <= k < i ==> s[k] == '+'
    ensures forall k :: j <= k < |s| ==> s[k] == '+'
  {
    var left := TrimLeadingPlus(s);
    var r := TrimTrailingPlus(left);
    i := |s| - |left|;
    j := i + |r|;
    assert r == s[i..j] by {
      assert s[i..][..|r|] == s[i..j];
    }
    forall k | j <= k < |s| ensures s[k] == '+' {
      assert s[k] == left[k - i];
    }
  }

  /** `s.replace('.', '', 1)`: the text without its first '.'. */
  function RemoveFirstDot(s: string): string
  {
    if s == [] then []
    else if s[0] == '.' then s[1..]
    else [s[0]] + RemoveFirstDot(s[1..])
  }

  /** The acceptance test of `extract_experience_from_resume`: a string of
      digits, or one that becomes one once its first '.' is removed. */
  predicate IsYearsNumber(t: string)
  {
    IsDigits(t) || IsDigits(RemoveFirstDot(t))
  }

  /** The digits before the first '.' (all of them when there is none). */
  function IntegerPart(t: string): string
  {
    if t == [] || t[0] == '.' then [] else [t[0]] + IntegerPart(t[1..])
  }

  /** The digits after the first '.' (none when there is none). */
  function FractionPart(t: string): string
  {
    if t == [] then [] else if t[0] == '.' then t[1..] else FractionPart(t[1..])
  }

  /** Splitting at the first '.' and dropping it is removing that '.'. */
  lemma {:induction false} DotSplit(t: string)
    ensures RemoveFirstDot(t) == IntegerPart(t) + FractionPart(t)
  {
    if t != [] && t[0] != '.' {
      var head, i, f := [t[0]], IntegerPart(t[1..]), FractionPart(t[1..]);
      DotSplit(t[1..]);
      assert RemoveFirstDot(t) == head + (i + f);
      assert IntegerPart(t) + FractionPart(t) == (head + i) + f;
    }
  }

  /** A text without '.' is all integer part. */
  lemma {:induction false} NoDotIsWhole(t: string)
    ensures '.' !in t ==> IntegerPart(t) == t && FractionPart(t) == []
  {
    if t != [] && '.' !in t {
      assert t[1..] == t[1..] && '.' !in t[1..] by {
        forall c | c in t[1..] ensures c in t { }
      }
      NoDotIsWhole(t[1..]);
      assert t == [t[0]] + t[1..];
    }
  }

  /** The number n read with `point` digits after the decimal point:
      n / 10^point. Below 1 when n has at most `point` digits. */
  function PlaceValue(n: nat, point: nat): (v: real)
    ensures v >= 0.0
    ensures n < Pow10(point) ==> v < 1.0
  {
    var nr, pr := n as real, Pow10(point) as real;
    Quotient(nr, pr);
    nr / pr
  }

  lemma Quotient(n: real, p: real)
    requires 0.0 <= n && 0.0 < p
    ensures 0.0 <= n / p
    ensures n < p ==> n / p < 1.0
  {
    if n < p {
      ProperFraction(n, p);
    }
  }

  lemma ProperFraction(n: real, p: real)
    requires 0.0 <= n < p
    ensures n / p < 1.0
  {
  }

  /** The value of the digits after the point: "25" is 25 / 10^2. It is
      always below 1. */
  function FractionValue(d: string): (v: real)
    ensures 0.0 <= v < 1.0
  {
    DigitsBelowPower(d);
    PlaceValue(DigitsValue(d), |d|)
  }

  /** `float(t)` for an accepted years number, "12", "2.5", "3." or ".5":
      its integer part plus the value of its fraction digits. A number
      without '.' reads as the whole number its digits spell. */
  function YearsValue(t: string): (v: real)
    ensures v >= 0.0
    ensures DigitsValue(IntegerPart(t)) as real <= v < DigitsValue(IntegerPart(t)) as real + 1.0
    ensures '.' !in t ==> v == DigitsValue(t) as real
  {
    NoDotIsWhole(t);
    DigitsValue(IntegerPart(t)) as real + FractionValue(FractionPart(t))
  }

  /** A whole part x plus the fraction y / 10^k is the number x * 10^k + y
      read with k digits after the point. */
  lemma ShiftPoint(v: real, x: nat, y: nat, k: nat, n: nat)
    requires v == x as real + PlaceValue(y, k)
    requires n == x * Pow10(k) + y
    ensures v == PlaceValue(n, k)
  {
  }

  /** The value read is the number the digits spell once the '.' is
      removed, read with as many digits after the point as follow the '.':
      "2.5" reads as 25 / 10, "3." as 3, ".05" as 5 / 100. */
  lemma YearsValueReadsDigits(t: string)
    ensures YearsValue(t) == PlaceValue(DigitsValue(RemoveFirstDot(t)), |FractionPart(t)|)
  {
    var i, f := IntegerPart(t), FractionPart(t);
    DotSplit(t);
    DigitsValueAppend(i, f);
    ShiftPoint(YearsValue(t), DigitsValue(i), DigitsValue(f), |f|, DigitsValue(RemoveFirstDot(t)));
  }

  /** Whether one resume match counts, once its '+' signs are stripped. */
  predicate MatchAccepted(m: string)
  {
    IsYearsNumber(StripPlus(m))
  }

  /** The number of years one resume match states. */
  function MatchYears(m: string): real
  {
    YearsValue(StripPlus(m))
  }

  /** The values of the accepted matches, in text order. */
  function AcceptedYears(matches: seq<string>): seq<real>
  {
    FilterMap(matches, MatchAccepted, MatchYears)
  }

  /** Python's `max` over a non-empty list of numbers. */
  function SeqMax(xs: seq<real>): (m: real)
    requires xs != []
    ensures m in xs
    ensures forall i :: 0 <= i < |xs| ==> xs[i] <= m
  {
    if |xs| == 1 then xs[0]
    else
      var rest := SeqMax(xs[1..]);
      if rest <= xs[0] then xs[0] else rest
  }

  /** The total experience a resume states: the largest accepted value, or 0. */
  function ResumeYears(matches: seq<string>): real
  {
    var accepted := AcceptedYears(matches);
    if accepted == [] then 0.0 else SeqMax(accepted)
  }

  /** ResumeYears is the largest accepted value: no accepted match reads
      more, one of them reads exactly that when any is accepted, and it is 0
      when none is. */
  lemma ResumeYearsIsMax(matches: seq<string>)
    ensures forall i :: 0 <= i < |matches| && MatchAccepted(matches[i]) ==>
      MatchYears(matches[i]) <= ResumeYears(matches)
    ensures (exists i :: 0 <= i < |matches| && MatchAccepted(matches[i])) ==>
      exists i :: 0 <= i < |matches| && MatchAccepted(matches[i]) && ResumeYears(matches) == MatchYears(matches[i])
    ensures (forall i :: 0 <= i < |matches| ==> !MatchAccepted(matches[i])) ==> ResumeYears(matches) == 0.0
  {
    var accepted, years := AcceptedYears(matches), ResumeYears(matches);
    forall i | 0 <= i < |matches| && MatchAccepted(matches[i])
      ensures MatchYears(matches[i]) <= years
    {
      FilterMapComplete(matches, MatchAccepted, MatchYears, i);
    }
    if accepted != [] {
      FilterMapSound(matches, MatchAccepted, MatchYears, years);
    } else if exists i :: 0 <= i < |matches| && MatchAccepted(matches[i]) {
      var i :| 0 <= i < |matches| && MatchAccepted(matches[i]);
      FilterMapComplete(matches, MatchAccepted, MatchYears, i);
    }
  }

  /** `extract_experience_from_resume`: strips '+' from each match, keeps
      the accepted numbers and returns their maximum, 0 when there are none. */
  method ExtractExperienceFromResume(matches: seq<string>) returns (years: real)
    ensures years == ResumeYears(matches)
    ensures forall i :: 0 <= i < |matches| && MatchAccepted(matches[i]) ==>
      MatchYears(matches[i]) <= years
    ensures (exists i :: 0 <= i < |matches| && MatchAccepted(matches[i])) ==>
      exists i :: 0 <= i < |matches| && MatchAccepted(matches[i]) && years == MatchYears(matches[i])
    ensures (forall i :: 0 <= i < |matches| ==> !MatchAccepted(matches[i])) ==> years == 0.0
  {
    var experienceYears: seq<real> := [];
    for i := 0 to |matches|
      invariant experienceYears == AcceptedYears(matches[..i])
    {
      FilterMapSnoc(matches, i, MatchAccepted, MatchYears);
      var years := StripPlus(matches[i]);
      if IsDigits(years) || IsDigits(RemoveFirstDot(years)) {
        experienceYears := experienceYears + [YearsValue(years)];
      }
    }
    assert matches[..|matches|] == matches;
    years := if experienceYears == [] then 0.0 else SeqMax(experienceYears);
    ResumeYearsIsMax(matches);
  }
}
