/** `process_resumes` in resume_lens/api.py: parse the job description, score
    every applicant's resume, keep those inside the job's experience envelope,
    sort them into score tiers and save the shortlist.

    Everything the request handler reads from outside is a parameter: the
    applicant files, the parsed job description (None when parsing raised),
    the per-resume analysis (None when reading, parsing or scoring the resume
    raised), the rounding of the displayed percentage, and the two record
    lookups of the shortlist. */
module Pipeline {
  import opened Basics
  import opened FileGate
  import opened Experience
  import opened Skills
  import opened Matching
  import opened Shortlist

  /** One entry of `get_applicant_files()`. */
  datatype ApplicantFile = ApplicantFile(applicantName: string, filename: string, fileUrl: string, filePath: string)

  /** What parsing the job description yields: the matches of the experience
      pattern, and the tagged tokens of the required-skills section. */
  datatype JdSignals = JdSignals(experienceMatches: seq<ExpMatch>, skillTokens: seq<Token>)

  /** What parsing and scoring one resume yields: the matches of the years
      pattern, the tagged tokens of the text, and the cosine similarity with
      the job description. */
  datatype ResumeSignals = ResumeSignals(experienceMatches: seq<string>, tokens: seq<Token>, similarity: real)

  /** The outcome of `process_resumes`. A `Report` answers with the tier lists
      and the job's skills only. `saved` is not part of that answer, because
      the handler discards the status of saving the shortlist. It records
      the side effect instead: on `Saved`, the shortlist document that is
      inserted. */
  datatype Outcome =
    | Preflight        // an OPTIONS request: the empty answer with the CORS headers
    | JdNotBound       // no job description text: `jd_parsed` is never bound and the request fails
    | JdParseFailed    // parsing the job description raised
    | Report(matched: map<Tier, seq<MatchedResume>>, requiredSkills: set<string>, saved: SaveResult)

  /** Whether a file yields a scored entry: its extension is allowed and its
      analysis did not raise. */
  function Scored(analyse: ApplicantFile -> Option<ResumeSignals>): ApplicantFile -> bool
  {
    (f: ApplicantFile) => AllowedFile(f.filename) && analyse(f).Some?
  }

  /** The entry appended to `resume_scores` for a file and its analysis. */
  function Entry(f: ApplicantFile, s: ResumeSignals, display: real -> real): ScoredResume
  {
    ScoredResume(f.applicantName, f.filename, display(s.similarity * 100.0),
                 ResumeYears(s.experienceMatches), ExtractSkills(s.tokens), f.fileUrl, f.filePath)
  }

  /** The entry of a file, for files whose analysis succeeded. */
  function EntryFor(analyse: ApplicantFile -> Option<ResumeSignals>, display: real -> real): ApplicantFile -> ScoredResume
  {
    (f: ApplicantFile) =>
      var a := analyse(f);
      Entry(f, if a.Some? then a.value else ResumeSignals([], [], 0.0), display)
  }

  /** `resume_scores`: one entry per scored file, in file order. */
  function ResumeScores(files: seq<ApplicantFile>, analyse: ApplicantFile -> Option<ResumeSignals>,
                        display: real -> real): seq<ScoredResume>
  {
    FilterMap(files, Scored(analyse), EntryFor(analyse, display))
  }

  /** One more file extends `resume_scores` by its entry exactly when its
      extension is allowed and its analysis succeeds. */
  lemma ResumeScoresSnoc(files: seq<ApplicantFile>, i: nat, analyse: ApplicantFile -> Option<ResumeSignals>,
                         display: real -> real)
    requires i < |files|
    ensures ResumeScores(files[..i + 1], analyse, display) ==
      if AllowedFile(files[i].filename) && analyse(files[i]).Some?
      then ResumeScores(files[..i], analyse, display) + [Entry(files[i], analyse(files[i]).value, display)]
      else ResumeScores(files[..i], analyse, display)
  {
    FilterMapSnoc(files, i, Scored(analyse), EntryFor(analyse, display));
  }

  /** The body of the `try` block for one file: the resume's experience,
      percentage score and skills, with the file's own fields. */
  method BuildEntry(f: ApplicantFile, s: ResumeSignals, display: real -> real) returns (entry: ScoredResume)
    ensures entry == Entry(f, s, display)
  {
    var experienceYears := ExtractExperienceFromResume(s.experienceMatches);
    var percentageScore := s.similarity * 100.0;
    entry := ScoredResume(f.applicantName, f.filename, display(percentageScore), experienceYears,
                          ExtractSkills(s.tokens), f.fileUrl, f.filePath);
  }

  /** The loop of `process_resumes` over the applicant files: a file with a
      disallowed extension is skipped, a file whose analysis raises is
      skipped, every other file appends its entry. */
  method ScoreResumes(files: seq<ApplicantFile>, analyse: ApplicantFile -> Option<ResumeSignals>,
                      display: real -> real)
    returns (resumeScores: seq<ScoredResume>)
    ensures resumeScores == ResumeScores(files, analyse, display)
  {
    resumeScores := [];
    for i := 0 to |files|
      invariant resumeScores == ResumeScores(files[..i], analyse, display)
    {
      ResumeScoresSnoc(files, i, analyse, display);
      var resumeFile := files[i];
      if !AllowedFile(resumeFile.filename) {
        continue;
      }
      var resumeParsed := analyse(resumeFile);
      if resumeParsed.None? {
        continue;
      }
      var entry := BuildEntry(resumeFile, resumeParsed.value, display);
      resumeScores := resumeScores + [entry];
    }
    assert files[..|files|] == files;
  }

  /** The experience envelope of a parsed job description: the smallest
      start and the largest end of its ranges. */
  function Envelope(jd: JdSignals): (real, real)
  {
    var experience := JdExperience(ExperienceRanges(jd.experienceMatches));
    (MinStart(experience), MaxEnd(experience))
  }

  /** `matched_resumes`: the scored resumes inside the envelope, by tier. */
  function Classified(jd: JdSignals, files: seq<ApplicantFile>, analyse: ApplicantFile -> Option<ResumeSignals>,
                      display: real -> real): map<Tier, seq<MatchedResume>>
  {
    var (lo, hi) := Envelope(jd);
    Buckets(FilteredResumes(ResumeScores(files, analyse, display), lo, hi, ExtractSkills(jd.skillTokens)))
  }

  /** The specification of `process_resumes`. */
  function ProcessOutcome(preflight: bool, jobTitle: string, jdText: string, jd: Option<JdSignals>,
                          files: seq<ApplicantFile>, analyse: ApplicantFile -> Option<ResumeSignals>,
                          display: real -> real,
                          findOpening: string -> Option<string>, findApplicant: string -> Option<string>): Outcome
  {
    if preflight then Preflight
    else if jdText == "" then JdNotBound
    else if jd.None? then JdParseFailed
    else
      var matched := Classified(jd.value, files, analyse, display);
      var jdSkills := ExtractSkills(jd.value.skillTokens);
      Report(matched, jdSkills, SaveOutcome(matched, jobTitle, jdSkills, findOpening, findApplicant))
  }

  /** `process_resumes`. The "experience range not found" answer of the source
      is never given: the job description always carries at least the default
      range, so that branch is not reproduced. */
  method ProcessResumes(preflight: bool, jobTitle: string, jdText: string, jd: Option<JdSignals>,
                        files: seq<ApplicantFile>, analyse: ApplicantFile -> Option<ResumeSignals>,
                        display: real -> real,
                        findOpening: string -> Option<string>, findApplicant: string -> Option<string>)
    returns (outcome: Outcome)
    ensures outcome == ProcessOutcome(preflight, jobTitle, jdText, jd, files, analyse, display, findOpening, findApplicant)
  {
    if preflight {
      return Preflight;
    }
    if jdText == "" {
      // every resume fails on the unbound `jd_parsed`, then so does the envelope
      return JdNotBound;
    }
    if jd.None? {
      return JdParseFailed;
    }
    var ranges := ExtractExperience(jd.value.experienceMatches);
    var experience := JdExperience(ranges);
    var jdSkills := ExtractSkills(jd.value.skillTokens);

    var resumeScores := ScoreResumes(files, analyse, display);
    var minExperience, maxExperience := MinStart(experience), MaxEnd(experience);
    var filtered := FilterResumesByExperience(resumeScores, minExperience, maxExperience, jdSkills);
    var matched := BucketByTier(filtered);
    var saved := SaveShortlistedCandidates(matched, jobTitle, jdSkills, findOpening, findApplicant);
    outcome := Report(matched, jdSkills, saved);
  }

  /** Every entry of `resume_scores` is the entry of an allowed file whose
      analysis succeeded. */
  lemma ScoredEntrySound(files: seq<ApplicantFile>, analyse: ApplicantFile -> Option<ResumeSignals>,
                         display: real -> real, e: ScoredResume)
    requires e in ResumeScores(files, analyse, display)
    ensures exists i :: (0 <= i < |files| && AllowedFile(files[i].filename) && analyse(files[i]).Some? &&
      e == Entry(files[i], analyse(files[i]).value, display))
  {
    FilterMapSound(files, Scored(analyse), EntryFor(analyse, display), e);
  }

  /** Every allowed file whose analysis succeeded has its entry in `resume_scores`. */
  lemma ScoredEntryComplete(files: seq<ApplicantFile>, analyse: ApplicantFile -> Option<ResumeSignals>,
                            display: real -> real, k: nat)
    requires k < |files| && AllowedFile(files[k].filename) && analyse(files[k]).Some?
    ensures Entry(files[k], analyse(files[k]).value, display) in ResumeScores(files, analyse, display)
  {
    FilterMapComplete(files, Scored(analyse), EntryFor(analyse, display), k);
  }

  /** A candidate in a tier is the record of a scored resume inside the
      envelope, and its score belongs to that tier. */
  lemma TieredCandidateSound(scores: seq<ScoredResume>, lo: real, hi: real, jdSkills: set<string>,
                             t: Tier, c: MatchedResume)
    requires c in Buckets(FilteredResumes(scores, lo, hi, jdSkills))[t]
    ensures TierOf(c.score) == t
    ensures exists j :: 0 <= j < |scores| && lo <= scores[j].experienceYears <= hi && c == MatchRecord(scores[j], jdSkills)
  {
    var filtered := FilteredResumes(scores, lo, hi, jdSkills);
    EachCandidateInOneTier(filtered, t, c);
    FilterMapSound(scores, WithinExperience(lo, hi), RecordFor(jdSkills), c);
  }

  /** The record of a scored resume inside the envelope is in the tier of its score. */
  lemma TieredCandidateComplete(scores: seq<ScoredResume>, lo: real, hi: real, jdSkills: set<string>, j: nat)
    requires j < |scores| && lo <= scores[j].experienceYears <= hi
    ensures MatchRecord(scores[j], jdSkills) in Buckets(FilteredResumes(scores, lo, hi, jdSkills))[TierOf(scores[j].score)]
  {
    var filtered := FilteredResumes(scores, lo, hi, jdSkills);
    FilterMapComplete(scores, WithinExperience(lo, hi), RecordFor(jdSkills), j);
    EachCandidateInOneTier(filtered, TierOf(scores[j].score), MatchRecord(scores[j], jdSkills));
  }

  /** Every reported candidate is the record of an applicant file with an
      allowed extension whose analysis succeeded, whose experience lies
      inside the job description's envelope, and whose score lies in the
      candidate's tier. */
  lemma ReportedCandidatesPassedEveryGate(jd: JdSignals, files: seq<ApplicantFile>,
                                         analyse: ApplicantFile -> Option<ResumeSignals>, display: real -> real,
                                         t: Tier, c: MatchedResume)
    requires t in Classified(jd, files, analyse, display)
    requires c in Classified(jd, files, analyse, display)[t]
    ensures TierOf(c.score) == t
    ensures Envelope(jd).0 <= c.experienceYears <= Envelope(jd).1
    ensures exists i :: (0 <= i < |files| && AllowedFile(files[i].filename) && analyse(files[i]).Some? &&
      c == MatchRecord(Entry(files[i], analyse(files[i]).value, display), ExtractSkills(jd.skillTokens)))
  {
    var (lo, hi) := Envelope(jd);
    var jdSkills := ExtractSkills(jd.skillTokens);
    var scores := ResumeScores(files, analyse, display);
    TieredCandidateSound(scores, lo, hi, jdSkills, t, c);
    var j :| 0 <= j < |scores| && lo <= scores[j].experienceYears <= hi && c == MatchRecord(scores[j], jdSkills);
    ScoredEntrySound(files, analyse, display, scores[j]);
  }

  /** A file whose extension is not allowed (a `.txt` resume, say) never
      appears among the reported candidates, whatever its analysis. */
  lemma UnsupportedFileNeverReported(preflight: bool, jobTitle: string, jdText: string, jd: Option<JdSignals>,
                                     files: seq<ApplicantFile>, analyse: ApplicantFile -> Option<ResumeSignals>,
                                     display: real -> real,
                                     findOpening: string -> Option<string>, findApplicant: string -> Option<string>,
                                     k: nat)
    requires k < |files| && !AllowedFile(files[k].filename)
    ensures var o := ProcessOutcome(preflight, jobTitle, jdText, jd, files, analyse, display, findOpening, findApplicant);
      o.Report? ==> forall t, c :: t in o.matched && c in o.matched[t] ==> c.resumeName != files[k].filename
  {
    var o := ProcessOutcome(preflight, jobTitle, jdText, jd, files, analyse, display, findOpening, findApplicant);
    if o.Report? {
      assert o.matched == Classified(jd.value, files, analyse, display);
      forall t, c | t in o.matched && c in o.matched[t]
        ensures c.resumeName != files[k].filename
      {
        ReportedCandidatesPassedEveryGate(jd.value, files, analyse, display, t, c);
      }
    }
  }

  /** Conversely, an allowed, successfully analysed file whose experience lies
      inside the envelope is reported, in the tier of its score. */
  lemma QualifyingFileIsReported(jd: JdSignals, files: seq<ApplicantFile>,
                                 analyse: ApplicantFile -> Option<ResumeSignals>, display: real -> real, k: nat)
    requires k < |files| && AllowedFile(files[k].filename) && analyse(files[k]).Some?
    requires Envelope(jd).0 <= ResumeYears(analyse(files[k]).value.experienceMatches) <= Envelope(jd).1
    ensures var e := Entry(files[k], analyse(files[k]).value, display);
      MatchRecord(e, ExtractSkills(jd.skillTokens)) in Classified(jd, files, analyse, display)[TierOf(e.score)]
  {
    var (lo, hi) := Envelope(jd);
    var jdSkills := ExtractSkills(jd.skillTokens);
    var scores := ResumeScores(files, analyse, display);
    var e := Entry(files[k], analyse(files[k]).value, display);
    ScoredEntryComplete(files, analyse, display, k);
    var j :| 0 <= j < |scores| && scores[j] == e;
    TieredCandidateComplete(scores, lo, hi, jdSkills, j);
  }
}
