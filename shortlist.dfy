/** `save_shortlisted_candidates` in resume_lens/api.py: which classified
    candidates are written to the shortlist record of a job opening.

    The two record-store lookups are parameters: `findOpening` maps a job
    title to the id of the open job opening with that title, `findApplicant`
    maps an applicant name to the id of the applicant record. None stands for
    every value the code treats as false (no record). */
module Shortlist {
  import opened Basics
  import opened Matching

  /** One entry of `shortlisted_candidates`. */
  datatype ShortlistRow = ShortlistRow(
    jobApplicant: string,
    resumeName: string,
    experienceYear: real,
    matchedCount: nat,
    totalSkills: nat,
    matchedSkills: set<string>,
    score: real)

  /** The status the function returns, with the document it inserts on success. */
  datatype SaveResult =
    | MissingInput                 // no job opening title, or no candidate lists at all
    | OpeningNotFound              // no open job opening has that title
    | NoValidCandidates            // nothing to shortlist
    | Saved(jobOpeningId: string, rows: seq<ShortlistRow>, requiredSkills: set<string>)

  /** `allowed_categories`, in the order they are visited. */
  const ShortlistTiers: seq<Tier> := [PerfectMatched, TopMatched, GoodMatched]

  /** Whether a candidate's applicant name resolves to a record. */
  function Resolves(findApplicant: string -> Option<string>): MatchedResume -> bool
  {
    (c: MatchedResume) => findApplicant(c.applicantName).Some?
  }

  /** The row written for a candidate whose applicant resolves. */
  function RowOf(findApplicant: string -> Option<string>): MatchedResume -> ShortlistRow
  {
    (c: MatchedResume) =>
      var id := findApplicant(c.applicantName);
      ShortlistRow(if id.Some? then id.value else "", c.resumeName, c.experienceYears,
                   c.matchedCount, c.totalSkills, c.matchedSkills, c.score)
  }

  /** The rows of one category, in arrival order; a missing category gives none. */
  function CategoryRows(lists: map<Tier, seq<MatchedResume>>, t: Tier, findApplicant: string -> Option<string>): seq<ShortlistRow>
  {
    if t in lists then FilterMap(lists[t], Resolves(findApplicant), RowOf(findApplicant)) else []
  }

  /** The rows of the given categories, category by category. */
  function RowsFor(lists: map<Tier, seq<MatchedResume>>, tiers: seq<Tier>, findApplicant: string -> Option<string>): seq<ShortlistRow>
  {
    if tiers == [] then []
    else RowsFor(lists, tiers[..|tiers| - 1], findApplicant) + CategoryRows(lists, tiers[|tiers| - 1], findApplicant)
  }

  /** All rows the function writes: Perfect, then Top, then Good matches. */
  function ShortlistRows(lists: map<Tier, seq<MatchedResume>>, findApplicant: string -> Option<string>): seq<ShortlistRow>
  {
    CategoryRows(lists, PerfectMatched, findApplicant) +
    CategoryRows(lists, TopMatched, findApplicant) +
    CategoryRows(lists, GoodMatched, findApplicant)
  }

  /** Walking `allowed_categories` in order gives the three category blocks
      one after the other. */
  lemma RowsForShortlistTiers(lists: map<Tier, seq<MatchedResume>>, findApplicant: string -> Option<string>)
    ensures RowsFor(lists, ShortlistTiers, findApplicant) == ShortlistRows(lists, findApplicant)
  {
    var one, two := [PerfectMatched], [PerfectMatched, TopMatched];
    assert ShortlistTiers[..2] == two && two[..1] == one && one[..0] == [];
    assert RowsFor(lists, one, findApplicant) == CategoryRows(lists, PerfectMatched, findApplicant);
    assert RowsFor(lists, two, findApplicant) ==
      CategoryRows(lists, PerfectMatched, findApplicant) + CategoryRows(lists, TopMatched, findApplicant);
  }

  /** The specification of `save_shortlisted_candidates`. */
  function SaveOutcome(lists: map<Tier, seq<MatchedResume>>, jobOpening: string, jdSkills: set<string>,
                       findOpening: string -> Option<string>, findApplicant: string -> Option<string>): SaveResult
  {
    if jobOpening == "" || |lists| == 0 then MissingInput
    else if findOpening(jobOpening).None? then OpeningNotFound
    else
      var rows := ShortlistRows(lists, findApplicant);
      if rows == [] then NoValidCandidates else Saved(findOpening(jobOpening).value, rows, jdSkills)
  }

  /** `save_shortlisted_candidates`: checks its inputs, looks the opening up,
      then walks the three shortlisted categories in order and collects a row
      for every candidate whose applicant record is found. */
  method SaveShortlistedCandidates(lists: map<Tier, seq<MatchedResume>>, jobOpening: string, jdSkills: set<string>,
                                   findOpening: string -> Option<string>, findApplicant: string -> Option<string>)
    returns (result: SaveResult)
    ensures result == SaveOutcome(lists, jobOpening, jdSkills, findOpening, findApplicant)
  {
    if jobOpening == "" || |lists| == 0 {
      return MissingInput;
    }
    var jobOpeningId := findOpening(jobOpening);
    if jobOpeningId.None? {
      return OpeningNotFound;
    }
    var shortlisted: seq<ShortlistRow> := [];
    for k := 0 to |ShortlistTiers|
      invariant shortlisted == RowsFor(lists, ShortlistTiers[..k], findApplicant)
    {
      assert ShortlistTiers[..k + 1][..k] == ShortlistTiers[..k];
      var category := ShortlistTiers[k];
      if category in lists {
        var rows := ResolvedRows(lists[category], findApplicant);
        shortlisted := shortlisted + rows;
      }
    }
    assert ShortlistTiers[..3] == ShortlistTiers;
    RowsForShortlistTiers(lists, findApplicant);
    if shortlisted == [] {
      return NoValidCandidates;
    }
    result := Saved(jobOpeningId.value, shortlisted, jdSkills);
  }

  /** The inner loop over one category's candidates: a row for every
      candidate whose applicant record is found, in arrival order. */
  method ResolvedRows(candidates: seq<MatchedResume>, findApplicant: string -> Option<string>)
    returns (rows: seq<ShortlistRow>)
    ensures rows == FilterMap(candidates, Resolves(findApplicant), RowOf(findApplicant))
  {
    rows := [];
    for i := 0 to |candidates|
      invariant rows == FilterMap(candidates[..i], Resolves(findApplicant), RowOf(findApplicant))
    {
      FilterMapSnoc(candidates, i, Resolves(findApplicant), RowOf(findApplicant));
      var candidate := candidates[i];
      var jobApplicant := findApplicant(candidate.applicantName);
      if jobApplicant.Some? {
        rows := rows + [ShortlistRow(jobApplicant.value, candidate.resumeName,
          candidate.experienceYears, candidate.matchedCount, candidate.totalSkills,
          candidate.matchedSkills, candidate.score)];
      }
    }
    assert candidates[..|candidates|] == candidates;
  }

  /** The four outcomes, each stated by its condition. */
  lemma SaveOutcomeCases(lists: map<Tier, seq<MatchedResume>>, jobOpening: string, jdSkills: set<string>,
                         findOpening: string -> Option<string>, findApplicant: string -> Option<string>)
    ensures var r := SaveOutcome(lists, jobOpening, jdSkills, findOpening, findApplicant);
      && (r.MissingInput? <==> jobOpening == "" || lists == map[])
      && (r.OpeningNotFound? <==> jobOpening != "" && lists != map[] && findOpening(jobOpening).None?)
      && (r.NoValidCandidates? <==> (jobOpening != "" && lists != map[] && findOpening(jobOpening).Some? &&
            forall t, i :: t in ShortlistTiers && t in lists && 0 <= i < |lists[t]| ==>
              findApplicant(lists[t][i].applicantName).None?))
      && (r.Saved? ==> r.jobOpeningId == findOpening(jobOpening).value && r.requiredSkills == jdSkills)
  {
    var rows := ShortlistRows(lists, findApplicant);
    var keep, row := Resolves(findApplicant), RowOf(findApplicant);
    if lists == map[] {
      assert |lists| == 0;
    } else {
      assert |lists| != 0;
    }
    FilterMapEmptyIn(lists, PerfectMatched, findApplicant);
    FilterMapEmptyIn(lists, TopMatched, findApplicant);
    FilterMapEmptyIn(lists, GoodMatched, findApplicant);
  }

  lemma FilterMapEmptyIn(lists: map<Tier, seq<MatchedResume>>, t: Tier, findApplicant: string -> Option<string>)
    ensures CategoryRows(lists, t, findApplicant) == [] <==>
      (t in lists ==> forall i :: 0 <= i < |lists[t]| ==> findApplicant(lists[t][i].applicantName).None?)
  {
    if t in lists {
      FilterMapEmpty(lists[t], Resolves(findApplicant), RowOf(findApplicant));
    }
  }

  /** Every written row belongs to a Perfect, Top or Good match whose
      applicant resolves, and every such candidate gets its row: Poor and
      NotGood matches are never shortlisted. */
  lemma ShortlistedExactlyResolvedTopTiers(lists: map<Tier, seq<MatchedResume>>, findApplicant: string -> Option<string>,
                                           row: ShortlistRow)
    ensures row in ShortlistRows(lists, findApplicant) <==>
      exists t, i :: t in ShortlistTiers && t in lists && 0 <= i < |lists[t]| &&
        findApplicant(lists[t][i].applicantName).Some? && row == RowOf(findApplicant)(lists[t][i])
  {
    if row in ShortlistRows(lists, findApplicant) {
      ShortlistedRowHasCandidate(lists, findApplicant, row);
    }
    if exists t, i :: t in ShortlistTiers && t in lists && 0 <= i < |lists[t]| &&
        findApplicant(lists[t][i].applicantName).Some? && row == RowOf(findApplicant)(lists[t][i]) {
      var t, i :| t in ShortlistTiers && t in lists && 0 <= i < |lists[t]| &&
        findApplicant(lists[t][i].applicantName).Some? && row == RowOf(findApplicant)(lists[t][i]);
      ResolvedCandidateHasRow(lists, findApplicant, t, i);
    }
  }

  lemma ShortlistedRowHasCandidate(lists: map<Tier, seq<MatchedResume>>, findApplicant: string -> Option<string>,
                                   row: ShortlistRow)
    requires row in ShortlistRows(lists, findApplicant)
    ensures exists t, i :: t in ShortlistTiers && t in lists && 0 <= i < |lists[t]| &&
                           findApplicant(lists[t][i].applicantName).Some? && row == RowOf(findApplicant)(lists[t][i])
  {
    var t :| t in ShortlistTiers && row in CategoryRows(lists, t, findApplicant);
    FilterMapSound(lists[t], Resolves(findApplicant), RowOf(findApplicant), row);
  }

  lemma ResolvedCandidateHasRow(lists: map<Tier, seq<MatchedResume>>, findApplicant: string -> Option<string>,
                                t: Tier, i: nat)
    requires t in ShortlistTiers && t in lists && i < |lists[t]|
    requires findApplicant(lists[t][i].applicantName).Some?
    ensures RowOf(findApplicant)(lists[t][i]) in ShortlistRows(lists, findApplicant)
  {
    FilterMapComplete(lists[t], Resolves(findApplicant), RowOf(findApplicant), i);
    assert RowOf(findApplicant)(lists[t][i]) in CategoryRows(lists, t, findApplicant);
  }

  /** Rows come category by category (Perfect, then Top, then Good) and, within
      a category, in arrival order: appending candidates to a category
      appends their rows to that category's block. */
  lemma ShortlistKeepsArrivalOrder(lists: map<Tier, seq<MatchedResume>>, t: Tier, more: seq<MatchedResume>,
                                   findApplicant: string -> Option<string>)
    requires t in lists
    ensures CategoryRows(lists[t := lists[t] + more], t, findApplicant) ==
      CategoryRows(lists, t, findApplicant) + FilterMap(more, Resolves(findApplicant), RowOf(findApplicant))
  {
    FilterMapAppend(lists[t], more, Resolves(findApplicant), RowOf(findApplicant));
  }
}
