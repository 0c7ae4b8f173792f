# resume_lens: resume screening against a job description

This project models the screening core of the resume_lens Frappe app
(`resume_lens/api.py`) and proves properties of it in Dafny.

The request handler `process_resumes` runs these steps:

- It parses a job description into a list of experience ranges and a set of required skills.
- It gathers the resume attachments of the job applicants whose status is Open. Applicants without an attachment are skipped, and so are files whose extension is not `pdf`, `doc` or `docx`.
- For every other file, it extracts the largest stated number of years of experience, the skills and a similarity score.
- It keeps the resumes whose experience lies inside the envelope of the job's ranges.
- It sorts the kept resumes into five score tiers.
- It saves the Perfect, Top and Good candidates as the shortlist of the open job opening with the requested title.
- A separate store hands out random tokens that stand for file paths, used in secure view and download links.

The modules follow those steps:

| module | file | models |
|---|---|---|
| `Basics` | basics.dfy | Option, ASCII lower-casing, decimal digits, and the list comprehension `[f(x) for x in xs if keep(x)]` as `FilterMap` with its laws |
| `FileGate` | file_gate.dfy | `allowed_file` |
| `Experience` | experience.dfy | `extract_experience`, the `[(0, 0)]` default of `parse_jd`, the min/max envelope, `extract_experience_from_resume` |
| `Skills` | skills.dfy | the filter of `extract_skills`, including the 100000 numerals it excludes |
| `Matching` | matching.dfy | `filter_resumes_by_experience` and the tier loop of `process_resumes` |
| `Shortlist` | shortlist.dfy | `save_shortlisted_candidates` |
| `DownloadTokens` | download_tokens.dfy | `TOKEN_MAP`, `generate_download_token`, `resolve_file_path`, `get_secure_view_url`, `get_secure_download_url` |
| `Pipeline` | pipeline.dfy | `process_resumes` end to end |

The code uses a regular-expression engine, a spaCy tagger, sentence embeddings and the Frappe database. None of these is modelled. What the code reads from them becomes an input:

- the capture groups of each regex match, as an `ExpMatch` record or a matched string;
- the (text, tag) pair of each token;
- the cosine similarity of each resume;
- the two record lookups, as functions from a name to an optional id.

The loops of the source are methods with loop invariants. Each method is proved equal to a specification function. The lemmas state what those functions promise.

## Model

| member | source | states |
|---|---|---|
| FileGate.Extension | resume_lens/api.py:266 | there is no extension exactly when the name holds no '.'; otherwise the extension is the text after the last '.', holds no '.', and is a proper suffix of the name |
| FileGate.AllowedFileMeaning | resume_lens/api.py:265-266 | a file is allowed exactly when it has a '.' after which no '.' follows and the lower-cased rest is `pdf`, `doc` or `docx` |
| Experience.RangeOf | resume_lens/api.py:322-333 | the first applicable case decides: groups 0 and 2 give (g0, g2); else group 4 gives (g4, g4 + 5); else group 6 gives (g6, g6 + 5); else groups 8 and 10 give (g8, g10); a match is dropped exactly when none applies |
| Experience.ExperienceRanges | resume_lens/api.py:318-335 | at most one range per match |
| Experience.ExtractExperience | resume_lens/api.py:313-335 | the loop yields exactly the ranges of the matches, in order, at most one per match |
| Experience.ExperienceRangesAppend | resume_lens/api.py:319-333 | the ranges of two consecutive stretches of matches are the concatenation of their ranges |
| Experience.ExperienceRangesMembership | resume_lens/api.py:321-333 | a range is extracted exactly when some match gives it |
| Experience.ExperienceRangesEmpty | resume_lens/api.py:321-335 | nothing is extracted exactly when no match has an applicable case |
| Experience.JdExperience | resume_lens/api.py:406 | the job's ranges are never empty: the extracted ranges when there are any, otherwise the single range (0, 0) |
| Experience.MinStart | resume_lens/api.py:227 | the minimum is at most every start and is the start of some range |
| Experience.MaxEnd | resume_lens/api.py:228 | the maximum is at least every end and is the end of some range |
| Experience.NoPatternGivesZeroEnvelope | resume_lens/api.py:406 | a job description without a usable experience match gets the envelope (0, 0) |
| Experience.TrimLeadingPlus | resume_lens/api.py:421 | only '+' characters are removed from the front, and the result does not start with '+' |
| Experience.TrimTrailingPlus | resume_lens/api.py:421 | only '+' characters are removed from the back, and the result does not end with '+' |
| Experience.StripPlusMeaning | resume_lens/api.py:421 | `strip('+')` gives a slice of the match with no '+' at either end, and everything cut away is '+' |
| Experience.StripPlusSlice | resume_lens/api.py:421 | names the slice `strip('+')` keeps: only '+' lies before it and after it |
| Experience.DotSplit | resume_lens/api.py:422 | removing the first '.' is the same as joining the digits before it and the digits after it |
| Experience.NoDotIsWhole | resume_lens/api.py:422-423 | a number without '.' is all integer part, with no fraction digits |
| Basics.DigitsBelowPower | resume_lens/api.py:423 | a string of k digits spells a number below 10^k |
| Basics.DigitsValueAppend | resume_lens/api.py:423 | the digits of a + b spell value(a) * 10^len(b) + value(b) |
| Experience.PlaceValue | resume_lens/api.py:423 | a number read with k digits after the point is never negative, and below 1 when it has at most k digits |
| Experience.FractionValue | resume_lens/api.py:423 | the digits after the point are worth at least 0 and strictly less than 1 |
| Experience.YearsValue | resume_lens/api.py:423 | `float(years)` lies between the integer part and the integer part plus 1; a number without '.' reads as exactly the whole number its digits spell |
| Experience.ShiftPoint | resume_lens/api.py:423 | a whole part x plus the fraction y / 10^k is the number x * 10^k + y read with k digits after the point |
| Experience.YearsValueReadsDigits | resume_lens/api.py:422-423 | `float(years)` is the number its digits spell once the '.' is removed, with as many digits after the point as follow the '.' |
| Experience.SeqMax | resume_lens/api.py:425 | `max` returns an element that is at least every element |
| Experience.ResumeYearsIsMax | resume_lens/api.py:419-425 | the specified resume experience is at least every accepted value and equals one of them; it is 0 when no match is accepted |
| Experience.ExtractExperienceFromResume | resume_lens/api.py:411-425 | the result is at least every accepted value and equals one of them; it is 0 when no match is accepted |
| Skills.DecimalSpellsValue | resume_lens/api.py:375 | `str(n)` is a digit string without leading zero that spells n |
| Skills.DigitsSpellDecimal | resume_lens/api.py:375 | a digit string without leading zero is `str` of its value |
| Skills.CountingNumeralIsListed | resume_lens/api.py:375 | the digit-by-digit test holds exactly for `str(n)` with n in 1..100000 |
| Skills.ExtractSkills | resume_lens/api.py:376-377 | a string is a skill exactly when some kept token lower-cases to it |
| Skills.ExtractedSkillsAreFiltered | resume_lens/api.py:364-376 | every skill is lower-case, is not an excluded symbol, is no numeral from 1 to 100000, and comes from a token not tagged NOUN, ADJ or VERB |
| Skills.NounsAdjectivesVerbsDropped | resume_lens/api.py:364-376 | a noun, adjective or verb whose text no other token shares yields no skill |
| Matching.MatchRecord | resume_lens/api.py:459-470 | the matched skills are exactly the job skills that some resume skill lower-cases to; the count is their number, at most both totals; the total is the number of job skills; the other fields are copied |
| Matching.FilterResumesByExperience | resume_lens/api.py:454-473 | the loop yields exactly the records of the resumes inside the bounds, in order; every kept record lies inside the bounds |
| Matching.FilterKeepsExactlyInBounds | resume_lens/api.py:456-464 | a resume's record is kept when its experience lies inside the bounds, and every kept record comes from such a resume |
| Matching.FilterBoundsAreInclusive | resume_lens/api.py:458 | a resume exactly at either bound is kept |
| Matching.FilterKeepsOrder | resume_lens/api.py:455-473 | filtering two consecutive stretches of resumes concatenates their results, so relative order is kept |
| Matching.ZeroEnvelopeKeepsOnlyZeroYears | resume_lens/api.py:458 | with the (0, 0) envelope exactly the resumes with 0 years are kept |
| Matching.TierOf | resume_lens/api.py:244-254 | each tier holds exactly the scores of its interval: [80, ∞), [70, 80), [60, 70), [50, 60), below 50 |
| Matching.Buckets | resume_lens/api.py:235-241 | the result has exactly the five tier keys, so every tier has a list |
| Matching.TierMembersSnoc | resume_lens/api.py:243-254 | one more resume joins the members of its own tier and of no other |
| Matching.BucketsSnoc | resume_lens/api.py:243-254 | one more resume is appended to its own tier's list, and no other list changes |
| Matching.BucketByTier | resume_lens/api.py:235-254 | the loop yields exactly the tier lists of the specification, under exactly the five keys |
| Matching.EachCandidateInOneTier | resume_lens/api.py:243-254 | a resume is in a tier's list exactly when it was kept and its score lies in that tier |
| Matching.TierSizesSumToTotal | resume_lens/api.py:243-254 | the five lists together hold as many entries as the filtered list: nothing is lost or duplicated |
| Matching.TierKeepsArrivalOrder | resume_lens/api.py:243-254 | each tier list keeps the arrival order of the filtered list |
| Shortlist.RowsForShortlistTiers | resume_lens/api.py:281-282 | walking the allowed categories gives the Perfect rows, then the Top rows, then the Good rows |
| Shortlist.ResolvedRows | resume_lens/api.py:284-295 | the inner loop yields a row for exactly the candidates whose applicant resolves, in arrival order |
| Shortlist.SaveShortlistedCandidates | resume_lens/api.py:270-310 | the function returns the specified outcome: the checks in order, then the rows of the three categories |
| Shortlist.SaveOutcomeCases | resume_lens/api.py:271-298 | the error "required" occurs exactly when the title or the lists are empty; "not found" occurs exactly when the opening lookup fails; "no valid candidates" occurs exactly when no Perfect, Top or Good candidate resolves; on success the record names the opening and the job's skills |
| Shortlist.FilterMapEmptyIn | resume_lens/api.py:283-287 | a category contributes no row exactly when it is missing or none of its applicants resolves |
| Shortlist.ShortlistedExactlyResolvedTopTiers | resume_lens/api.py:281-295 | a row is written exactly for each Perfect, Top or Good candidate whose applicant resolves, so Poor and NotGood are never shortlisted |
| Shortlist.ShortlistedRowHasCandidate | resume_lens/api.py:281-295 | every written row belongs to a Perfect, Top or Good candidate whose applicant resolves |
| Shortlist.ResolvedCandidateHasRow | resume_lens/api.py:281-295 | every Perfect, Top or Good candidate whose applicant resolves gets its row |
| Shortlist.ShortlistKeepsArrivalOrder | resume_lens/api.py:284-295 | within a category, rows follow the candidates' order |
| DownloadTokens.Basename | resume_lens/api.py:36 | the basename holds no '/', is a suffix of the path, and is preceded by '/' unless it is the whole path |
| DownloadTokens.ResolveFilePath | resume_lens/api.py:35-45 | the file is private exactly when the URL starts with `/private/files/`; the filename is the longest suffix of the URL without '/', which is either the whole URL or preceded by '/' |
| DownloadTokens.JoinPlainName | resume_lens/api.py:39-43 | `os.path.join` of a directory and a name without '/' puts a '/' between them exactly when the directory is non-empty and does not end in '/' |
| DownloadTokens.ResolvedPathJoinsDirectoryAndFilename | resume_lens/api.py:38-43 | the path is the directory of the file's type joined with the filename: a '/' goes between them exactly when the directory is non-empty and does not end in '/' |
| DownloadTokens.TokenStore.constructor | resume_lens/api.py:25 | the store starts with no tokens |
| DownloadTokens.TokenStore.Lookup | resume_lens/api.py:69 | a lookup finds a path exactly for an issued token, and finds the path stored under it |
| DownloadTokens.TokenStore.GenerateDownloadToken | resume_lens/api.py:28-32 | the token is returned and now maps to the path; every other token maps as before |
| DownloadTokens.TokenStore.SecureDownloadUrl | resume_lens/api.py:53-57 | the link is the download endpoint with the token, and the token now resolves to the resolved file path |
| DownloadTokens.TokenStore.SecureViewUrl | resume_lens/api.py:60-64 | the link is the view endpoint with the token, and the token now resolves to the resolved file path |
| Pipeline.ResumeScoresSnoc | resume_lens/api.py:199-223 | one more file adds its entry exactly when its extension is allowed and its analysis succeeds |
| Pipeline.BuildEntry | resume_lens/api.py:204-219 | the entry carries the file's names and URLs, the displayed percentage, the resume's experience and its skills |
| Pipeline.ScoreResumes | resume_lens/api.py:197-223 | the loop yields exactly the entries of the allowed, successfully analysed files, in file order |
| Pipeline.ProcessResumes | resume_lens/api.py:180-262 | the handler gives the specified outcome: preflight; then the missing job text; then the parse failure; otherwise it answers with the tier lists and the job's skills. The save status is discarded by the handler and is kept only as the record of the save's side effect |
| Pipeline.ScoredEntrySound | resume_lens/api.py:199-219 | every scored entry is the entry of an allowed file whose analysis succeeded |
| Pipeline.ScoredEntryComplete | resume_lens/api.py:199-219 | every allowed file whose analysis succeeded has its entry among the scores |
| Pipeline.TieredCandidateSound | resume_lens/api.py:232-254 | a tiered candidate is the record of a scored resume inside the envelope, and its score lies in that tier |
| Pipeline.TieredCandidateComplete | resume_lens/api.py:232-254 | a scored resume inside the envelope is in the tier of its score |
| Pipeline.ReportedCandidatesPassedEveryGate | resume_lens/api.py:199-254 | every reported candidate is the record of an allowed, successfully analysed file; its experience lies inside the job's envelope; its score lies in its tier |
| Pipeline.UnsupportedFileNeverReported | resume_lens/api.py:199-201 | a file with an extension other than pdf/doc/docx never appears in the report |
| Pipeline.QualifyingFileIsReported | resume_lens/api.py:199-254 | an allowed, successfully analysed file whose experience lies inside the envelope is reported in the tier of its score |

## Left out

- Text extraction (`extract_text_from_pdf`, `extract_text_from_docx`, `strip_html`) and reading files: file contents are not modelled; the analysis of a resume is a parameter.
- The regular expressions of `extract_experience` and `extract_experience_from_resume`: their matches are inputs. `float()` of a group is the exact decimal value, not an IEEE double.
- The `re.sub` normalisations and the spaCy tagging in `extract_skills`: the tagged tokens are inputs.
- `parse_jd`'s file branch and the required-skills section search: the job description's matches and tokens are inputs. `process_resumes` only ever passes `jd_text`.
- `score_resume`'s embeddings and cosine similarity: the similarity is an input.
- Pipeline.ProcessResumes: the `f"{percentage_score:.2f}%"` rounding and its re-parse by `float(...strip('%'))` are one parameter, `display`. A NaN similarity, which drops the resume from every tier in the source, is not modelled.
- Pipeline.ProcessResumes: the answer "Experience range not found" (api.py:229-230) is never produced. `parse_jd` always returns at least the range (0, 0), and the model proves the envelope is always defined.
- Pipeline.ProcessResumes: an empty `jd_text` leaves `jd_parsed` unbound. The request then fails with an exception, modelled as the outcome `JdNotBound`. The per-resume `NameError`s that precede it are not modelled one by one.
- `get_applicant_files` and `get_job_applicants` (database queries): the applicant files are a parameter. These queries keep only Open applicants that have a resume attachment (api.py:139-140, 169).
- Pipeline.ProcessResumes: with no Open applicant, `get_applicant_files` returns the string "No Job Applicants Found". Every non-OPTIONS request whose job description parses then raises a TypeError at api.py:200, because `resume_file['filename']` indexes a character of that string outside the `try`. The model does not have this crash: it gives a `Report` with empty tiers for an empty list of files.
- The CORS headers of the OPTIONS preflight: only the empty answer is modelled.
- `print` of the error for a skipped resume.
- Matching.FilterResumesByExperience: `view_url` is not part of the record. In the source each kept resume mints a view token through `get_secure_view_url`. That step is modelled separately as `DownloadTokens.TokenStore.SecureViewUrl`.
- Matching.MatchRecord: `matched_count` is the string "k out of n"; the model keeps k and n as numbers. `list(matched_skills)` becomes a set, because a Python set has no fixed order.
- Skills.ExtractSkills: `list(set(skills))` is a set for the same reason.
- Shortlist.SaveShortlistedCandidates: the `", ".join` of the matched skills and the job's skills is kept as a set. The document insert and the commit are not modelled; success is the `Saved` outcome carrying the rows.
- `str.lower` and `str.isdigit` are modelled on ASCII only. Unicode case folding and non-ASCII digits are not modelled.
- `download_matched_resume`, `view_matched_resume` and `is_path_allowed`: these are HTTP endpoints, file reads and `os.path.abspath`. Only the token lookup is modelled, as `DownloadTokens.TokenStore.Lookup`. A filename such as `..` is left to `is_path_allowed`.
- DownloadTokens.TokenStore.GenerateDownloadToken: `secrets.token_urlsafe(16)` is a parameter. Collisions, expiry and concurrent requests sharing `TOKEN_MAP` are not modelled.
- `get_all_records`, the hooks files and the front end (`App.tsx`) are configuration and user interface, outside the screening core.
