/** The matching engine of `process_resumes` in resume_lens/api.py: the
    experience-bounds filter with its skill overlap, and the five match tiers.

    The similarity percentage of a resume is an input; how it is computed
    (sentence embeddings and cosine similarity) is not part of this model. */
module Matching {
  import opened Basics

  /** One entry of `resume_scores`: a resume that was parsed and scored. */
  datatype ScoredResume = ScoredResume(
    applicantName: string,
    resumeName: string,
    score: real,               // similarity percentage
    experienceYears: real,
    resumeSkills: set<string>,
    fileUrl: string,
    filePath: string)

  /** One entry of the filtered list. `matchedCount` out of `totalSkills` is the
      "k out of n" text of the source; `fileUrl` is the resume the view link
      is minted for. */
  datatype MatchedResume = MatchedResume(
    applicantName: string,
    resumeName: string,
    score: real,
    experienceYears: real,
    matchedSkills: set<string>,
    matchedCount: nat,
    totalSkills: nat,
    fileUrl: string)

  /** `set(map(str.lower, resume['resume_skills']))`. */
  function LowerSkills(skills: set<string>): set<string>
  {
    set s | s in skills :: Lower(s)
  }

  /** The inclusive experience test `min_exp <= exp_years <= max_exp`. */
  function WithinExperience(minExp: real, maxExp: real): ScoredResume -> bool
  {
    (r: ScoredResume) => minExp <= r.experienceYears <= maxExp
  }

  /** The record built for a resume inside the bounds: the JD skills it has
      (case-insensitively) and how many out of how many. */
  function MatchRecord(r: ScoredResume, jdSkills: set<string>): (m: MatchedResume)
    ensures m.matchedSkills <= jdSkills
    ensures forall s :: s in m.matchedSkills <==> s in jdSkills && exists t :: t in r.resumeSkills && Lower(t) == s
    ensures m.matchedCount == |m.matchedSkills|
    ensures m.matchedCount <= |jdSkills| && m.matchedCount <= |r.resumeSkills|
    ensures m.totalSkills == |jdSkills|
    ensures m.applicantName == r.applicantName && m.resumeName == r.resumeName
    ensures m.score == r.score && m.experienceYears == r.experienceYears && m.fileUrl == r.fileUrl
  {
    var matched := jdSkills * LowerSkills(r.resumeSkills);
    SubsetCardinality(matched, jdSkills);
    SubsetCardinality(matched, LowerSkills(r.resumeSkills));
    LowerImageCardinality(r.resumeSkills);
    MatchedResume(r.applicantName, r.resumeName, r.score, r.experienceYears,
                  matched, |matched|, |jdSkills|, r.fileUrl)
  }

  function RecordFor(jdSkills: set<string>): ScoredResume -> MatchedResume
  {
    (r: ScoredResume) => MatchRecord(r, jdSkills)
  }

  /** The specification of `filter_resumes_by_experience`. */
  function FilteredResumes(resumes: seq<ScoredResume>, minExp: real, maxExp: real, jdSkills: set<string>): seq<MatchedResume>
  {
    FilterMap(resumes, WithinExperience(minExp, maxExp), RecordFor(jdSkills))
  }

  /** `filter_resumes_by_experience`: keeps, in input order, the resumes whose
      experience lies in [minExp, maxExp], each with its skill overlap. */
  method FilterResumesByExperience(resumes: seq<ScoredResume>, minExp: real, maxExp: real, jdSkills: set<string>)
    returns (filtered: seq<MatchedResume>)
    ensures filtered == FilteredResumes(resumes, minExp, maxExp, jdSkills)
    ensures |filtered| <= |resumes|
    ensures forall m :: m in filtered ==> minExp <= m.experienceYears <= maxExp
  {
    var keep, build := WithinExperience(minExp, maxExp), RecordFor(jdSkills);
    filtered := [];
    for i := 0 to |resumes|
      invariant filtered == FilterMap(resumes[..i], keep, build)
    {
      FilterMapSnoc(resumes, i, keep, build);
      var resume := resumes[i];
      var expYears := resume.experienceYears;
      if minExp <= expYears <= maxExp {
        var matchedSkills := jdSkills * LowerSkills(resume.resumeSkills);
        filtered := filtered + [MatchedResume(resume.applicantName, resume.resumeName, resume.score,
                                              resume.experienceYears, matchedSkills, |matchedSkills|,
                                              |jdSkills|, resume.fileUrl)];
      }
    }
    assert resumes[..|resumes|] == resumes;
    forall m | m in filtered ensures minExp <= m.experienceYears <= maxExp {
      FilterMapSound(resumes, keep, build, m);
    }
  }

  /** A resume is kept exactly when its experience lies in the inclusive
      bounds; the kept record carries its name and its skill overlap. */
  lemma FilterKeepsExactlyInBounds(resumes: seq<ScoredResume>, minExp: real, maxExp: real, jdSkills: set<string>, i: nat)
    requires i < |resumes|
    ensures MatchRecord(resumes[i], jdSkills) in FilteredResumes(resumes, minExp, maxExp, jdSkills)
      <== minExp <= resumes[i].experienceYears <= maxExp
    ensures forall m :: m in FilteredResumes(resumes, minExp, maxExp, jdSkills) ==>
      exists j :: (0 <= j < |resumes| && minExp <= resumes[j].experienceYears <= maxExp &&
        m == MatchRecord(resumes[j], jdSkills))
  {
    var keep, build := WithinExperience(minExp, maxExp), RecordFor(jdSkills);
    if minExp <= resumes[i].experienceYears <= maxExp {
      FilterMapComplete(resumes, keep, build, i);
    }
    forall m | m in FilteredResumes(resumes, minExp, maxExp, jdSkills)
      ensures exists j :: (0 <= j < |resumes| && minExp <= resumes[j].experienceYears <= maxExp &&
        m == MatchRecord(resumes[j], jdSkills))
    {
      FilterMapSound(resumes, keep, build, m);
    }
  }

  /** Both bounds are inclusive: a resume whose experience equals either end
      of the envelope is kept. */
  lemma FilterBoundsAreInclusive(resumes: seq<ScoredResume>, minExp: real, maxExp: real, jdSkills: set<string>, i: nat)
    requires i < |resumes| && minExp <= maxExp
    requires resumes[i].experienceYears == minExp || resumes[i].experienceYears == maxExp
    ensures MatchRecord(resumes[i], jdSkills) in FilteredResumes(resumes, minExp, maxExp, jdSkills)
  {
    FilterKeepsExactlyInBounds(resumes, minExp, maxExp, jdSkills, i);
  }

  /** The filter keeps input order: filtering two batches one after the other
      gives the two filtered lists one after the other. */
  lemma FilterKeepsOrder(a: seq<ScoredResume>, b: seq<ScoredResume>, minExp: real, maxExp: real, jdSkills: set<string>)
    ensures FilteredResumes(a + b, minExp, maxExp, jdSkills) ==
      FilteredResumes(a, minExp, maxExp, jdSkills) + FilteredResumes(b, minExp, maxExp, jdSkills)
  {
    FilterMapAppend(a, b, WithinExperience(minExp, maxExp), RecordFor(jdSkills));
  }

  /** With the (0, 0) envelope a job description without an experience
      pattern gets, only resumes stating exactly zero years survive. */
  lemma ZeroEnvelopeKeepsOnlyZeroYears(resumes: seq<ScoredResume>, jdSkills: set<string>)
    ensures forall m :: m in FilteredResumes(resumes, 0.0, 0.0, jdSkills) ==> m.experienceYears == 0.0
    ensures forall i :: 0 <= i < |resumes| && resumes[i].experienceYears == 0.0 ==>
      MatchRecord(resumes[i], jdSkills) in FilteredResumes(resumes, 0.0, 0.0, jdSkills)
  {
    forall i | 0 <= i < |resumes| && resumes[i].experienceYears == 0.0
      ensures MatchRecord(resumes[i], jdSkills) in FilteredResumes(resumes, 0.0, 0.0, jdSkills)
    {
      FilterKeepsExactlyInBounds(resumes, 0.0, 0.0, jdSkills, i);
    }
    forall m | m in FilteredResumes(resumes, 0.0, 0.0, jdSkills) ensures m.experienceYears == 0.0 {
      FilterKeepsExactlyInBounds(resumes, 0.0, 0.0, jdSkills, 0);
    }
  }

  // ---------------------------------------------------------------------
  // Tiers

  /** The keys of `matched_resumes`, in the order the dictionary lists them. */
  datatype Tier = PerfectMatched | TopMatched | GoodMatched | PoorMatched | NotGood

  const AllTiers: set<Tier> := {PerfectMatched, TopMatched, GoodMatched, PoorMatched, NotGood}

  lemma AllTiersListed()
    ensures forall t: Tier :: t in AllTiers
  {
    forall t: Tier ensures t in AllTiers {
      match t
      case PerfectMatched =>
      case TopMatched =>
      case GoodMatched =>
      case PoorMatched =>
      case NotGood =>
    }
  }

  /** The tier of a similarity percentage. The bands are closed below and
      open above, and together they cover every score. */
  function TierOf(score: real): (t: Tier)
    ensures t == PerfectMatched <==> 80.0 <= score
    ensures t == TopMatched <==> 70.0 <= score < 80.0
    ensures t == GoodMatched <==> 60.0 <= score < 70.0
    ensures t == PoorMatched <==> 50.0 <= score < 60.0
    ensures t == NotGood <==> score < 50.0
  {
    if score >= 80.0 then PerfectMatched
    else if 70.0 <= score < 80.0 then TopMatched
    else if 60.0 <= score < 70.0 then GoodMatched
    else if 50.0 <= score < 60.0 then PoorMatched
    else NotGood
  }

  function InTier(t: Tier): MatchedResume -> bool
  {
    (m: MatchedResume) => TierOf(m.score) == t
  }

  function Same(m: MatchedResume): MatchedResume
  {
    m
  }

  /** The candidates of one tier, in arrival order. */
  function TierMembers(filtered: seq<MatchedResume>, t: Tier): seq<MatchedResume>
  {
    FilterMap(filtered, InTier(t), Same)
  }

  /** `matched_resumes` as the tier loop leaves it: each tier's members. */
  function Buckets(filtered: seq<MatchedResume>): (b: map<Tier, seq<MatchedResume>>)
    ensures b.Keys == AllTiers
    ensures forall t: Tier :: t in b
  {
    AllTiersListed();
    map[PerfectMatched := TierMembers(filtered, PerfectMatched),
        TopMatched := TierMembers(filtered, TopMatched),
        GoodMatched := TierMembers(filtered, GoodMatched),
        PoorMatched := TierMembers(filtered, PoorMatched),
        NotGood := TierMembers(filtered, NotGood)]
  }

  /** One more candidate joins the members of its own tier and of no other. */
  lemma TierMembersSnoc(filtered: seq<MatchedResume>, i: nat, t: Tier)
    requires i < |filtered|
    ensures TierMembers(filtered[..i + 1], t) ==
      TierMembers(filtered[..i], t) + (if TierOf(filtered[i].score) == t then [filtered[i]] else [])
  {
    FilterMapSnoc(filtered, i, InTier(t), Same);
  }

  /** One more candidate is appended to the list of its own tier only. */
  lemma BucketsSnoc(filtered: seq<MatchedResume>, i: nat)
    requires i < |filtered|
    ensures var before, t := Buckets(filtered[..i]), TierOf(filtered[i].score);
      Buckets(filtered[..i + 1]) == before[t := before[t] + [filtered[i]]]
  {
    var before, after, t := Buckets(filtered[..i]), Buckets(filtered[..i + 1]), TierOf(filtered[i].score);
    var expected := before[t := before[t] + [filtered[i]]];
    assert after.Keys == expected.Keys;
    forall x | x in after ensures after[x] == expected[x] {
      TierMembersSnoc(filtered, i, x);
    }
  }

  /** The tier loop of `process_resumes`: appends every filtered candidate to
      the list of its tier. */
  method BucketByTier(filtered: seq<MatchedResume>) returns (buckets: map<Tier, seq<MatchedResume>>)
    ensures buckets == Buckets(filtered)
    ensures buckets.Keys == AllTiers
  {
    buckets := map[PerfectMatched := [], TopMatched := [], GoodMatched := [], PoorMatched := [], NotGood := []];
    assert filtered[..0] == [];
    for i := 0 to |filtered|
      invariant buckets == Buckets(filtered[..i])
    {
      BucketsSnoc(filtered, i);
      var resume := filtered[i];
      var score := resume.score;
      if score >= 80.0 {
        buckets := buckets[PerfectMatched := buckets[PerfectMatched] + [resume]];
      } else if 70.0 <= score < 80.0 {
        buckets := buckets[TopMatched := buckets[TopMatched] + [resume]];
      } else if 60.0 <= score < 70.0 {
        buckets := buckets[GoodMatched := buckets[GoodMatched] + [resume]];
      } else if 50.0 <= score < 60.0 {
        buckets := buckets[PoorMatched := buckets[PoorMatched] + [resume]];
      } else {
        // the source tests `score < 50` here, which every real score below 50 meets
        buckets := buckets[NotGood := buckets[NotGood] + [resume]];
      }
    }
    assert filtered[..|filtered|] == filtered;
  }

  /** Every filtered candidate lies in the bucket of its own tier and in no
      other. */
  lemma EachCandidateInOneTier(filtered: seq<MatchedResume>, t: Tier, m: MatchedResume)
    ensures m in TierMembers(filtered, t) <==> m in filtered && TierOf(m.score) == t
  {
    var keep := InTier(t);
    if m in TierMembers(filtered, t) {
      FilterMapSound(filtered, keep, Same, m);
    }
    if m in filtered && TierOf(m.score) == t {
      var i :| 0 <= i < |filtered| && filtered[i] == m;
      FilterMapComplete(filtered, keep, Same, i);
    }
  }

  function TierSizes(filtered: seq<MatchedResume>): nat
  {
    |TierMembers(filtered, PerfectMatched)| + |TierMembers(filtered, TopMatched)| +
    |TierMembers(filtered, GoodMatched)| + |TierMembers(filtered, PoorMatched)| +
    |TierMembers(filtered, NotGood)|
  }

  /** The five bucket sizes add up to the number of filtered candidates. */
  lemma {:induction false} TierSizesSumToTotal(filtered: seq<MatchedResume>)
    ensures TierSizes(filtered) == |filtered|
  {
    if filtered != [] {
      var init := filtered[..|filtered| - 1];
      TierSizesSumToTotal(init);
    }
  }

  /** Within a tier, candidates keep their arrival order. */
  lemma TierKeepsArrivalOrder(a: seq<MatchedResume>, b: seq<MatchedResume>, t: Tier)
    ensures TierMembers(a + b, t) == TierMembers(a, t) + TierMembers(b, t)
  {
    FilterMapAppend(a, b, InTier(t), Same);
  }
}
