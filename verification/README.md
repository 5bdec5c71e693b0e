# Résumé analyser: scoring engine, account store and client checks

This project is a Dafny model of the decision logic of a small résumé
analyser web application. The model has three parts.

- **The scoring engine** is `analyze_resume` in `app.py`, modelled in the
  `Tokenizer` and `Scoring` modules. It takes a résumé text and a job
  description and returns:
  - a keyword score: the overlap of the words of three or more letters;
  - a skills score: substring matching against a fixed list of 17 skill
    phrases;
  - experience and education scores: counts of marker words;
  - their weighted aggregate (`ats_score`);
  - a "Shortlisted" verdict when the aggregate is 60 or more.

  The divergent copy `simple_analysis` in `working_server.py` is modelled in
  `SimpleScoring`. It has a smaller skill list, two-level heuristics, other
  limits, and a word pattern written with doubled backslashes.
- **The account store** of `auth.py` is modelled as the `Accounts.Store`
  class. It holds a users map keyed by e-mail address and an append-only
  list of analyses. It supports user creation, credential checks, lookup by
  id, saving an analysis, and owner-filtered listing. `app.py:51-105`
  repeats the same store functions, except `get_user_by_id`.
- **The browser client** (`script.js`) is modelled in the `Dashboard`
  module: the history statistics (`updateStats`) and the checks that stop a
  sign-up or an analysis request before it is sent.

Supporting modules:
- `Optional`: the `Option` type for `None` and `null` results.
- `Seqs`: Python's list and set conversions. `set(xs)` is `Elems`, a
  comprehension filter is `Filter`, `list(s)[:n]` is `Unique` then `Take`.
- `Text`: `str.lower()` and the substring operator `in`.

Python sets have no defined order. The model lists set elements in the
order they first occur. Every property is stated over membership,
distinctness and length, never over order.

## Model

| member | source | states |
|---|---|---|
| Text.Lower | app.py:122-123 | Same length; every ASCII capital becomes its small letter and every other character is kept |
| Text.LowerIdempotent | app.py:122-123 | Lower-casing a lower-cased text changes nothing |
| Text.Occurs | app.py:137-138 | The string `in` test, scanning from the left: a phrase longer than the text never occurs (the exact condition: `OccursSpec`) |
| Text.OccursSpec | app.py:137-138 | The scanning containment test holds exactly when the phrase sits at some position of the text |
| Text.PrefixOccurs | app.py:137-138 | A text containing a phrase contains every prefix of it |
| Text.NothingOccursInEmpty | app.py:137-138 | No non-empty phrase occurs in the empty text |
| Tokenizer.FindWords | app.py:125-126 | The `re.findall` match list: every match is three or more letters from a to z (what they are exactly: `FindWordsSpec`) |
| Tokenizer.FindWordsSpec | app.py:125-126 | From a boundary on, a word is found exactly when it is a whole word-character run of three or more small letters |
| Tokenizer.Words | app.py:125-126 | `set(re.findall(...))`: the set of `FindWords` matches; `WordsSpec` and `WordShape` state its content |
| Tokenizer.WordsSpec | app.py:125-126 | The word set is exactly the set of such runs in the text |
| Tokenizer.WordShape | app.py:125-126 | Every word of the word set `Words` (the `set(...)` of the matches) has at least three letters, all from a to z |
| Tokenizer.DigitSuffixYieldsNothing | app.py:125-126 | Runs touching a digit or an underscore ("python3", "c_sql") yield no word |
| Tokenizer.FindEscapedWords | working_server.py:45-46 | Every match of the doubled-backslash pattern is a backslash and `b`, three or more small letters, then a backslash and `b` |
| Tokenizer.EscapedWords | working_server.py:45-46 | The variant's word set: each word has that same shape |
| Tokenizer.NoBackslashNoEscapedWords | working_server.py:45-46 | A text without a backslash gives that pattern no match |
| Scoring.Verdict.Label | app.py:155 | The label is "Shortlisted" exactly for the Shortlisted verdict |
| Scoring.Ratio | app.py:135 | The floor of the percentage `part` is of `max(whole, 1)`; in [0, 100] when `part <= whole`; 0 when `part` is 0 |
| Scoring.AtsScore | app.py:152-153 | The floor of the 4:3:2:1 weighted mean; in [0, 100] when the four scores are |
| Scoring.VerdictFor | app.py:155 | Shortlisted exactly when the aggregate is at least 60 |
| Scoring.AtsMonotone | app.py:152-153 | A higher sub-score never lowers the aggregate |
| Scoring.Detected | app.py:137-138 | A phrase is listed exactly when it is in the vocabulary and occurs in the text; no duplicates |
| Scoring.DetectedCount | app.py:137-138 | The detected list holds each phrase of the detected set once |
| Scoring.VocabulariesDistinct | app.py:128-130 | The skill, experience and education lists have no duplicates |
| Scoring.MarkerCount | app.py:145 | The number of markers found is at most the number of markers |
| Scoring.MatchKeywords | app.py:125-135 | The keyword score is in [0, 100]; the samples hold at most 20 and 15 words |
| Scoring.MatchSkills | app.py:137-142 | The skills score is in [0, 100] |
| Scoring.ExperienceScore | app.py:144-146 | The experience score is in [0, 100] |
| Scoring.EducationScore | app.py:148-150 | The education score is in [0, 100] |
| Scoring.AnalyzeResume | app.py:121-167 | Every score is in [0, 100]; the aggregate is the floor of the weighted mean; Shortlisted iff the aggregate is at least 60; the sample lengths are within 20 and 15 |
| Scoring.KeywordSamples | app.py:132-133 | The matched sample is duplicate-free and drawn from the shared words, of size min(shared, 20). The missing sample is duplicate-free and drawn from the job-description words the résumé lacks, of size min(missing, 15). Each sample is the whole set when it fits |
| Scoring.KeywordScoreLaw | app.py:135 | The keyword score is `100 * min(shared, 20) / max(jd words, 1)`, rounded down. It is 0 without job-description words and stops growing past 20 shared words |
| Scoring.SkillsLaw | app.py:137-142 | `missing_skills` is exactly the job-description skills absent from the résumé. The skills score is 50 when the job description names no skill, else the floor of the percentage of its skills the résumé names |
| Scoring.ExperienceLaw | app.py:144-146 | The experience score is 15 per marker found, so a multiple of 15 no larger than 90 |
| Scoring.EducationLaw | app.py:148-150 | The education score is `min(100, 20 * markers found)`, a multiple of 20 |
| Scoring.HeuristicLaw | app.py:144-150 | The engine reports those marker scores of the lower-cased résumé |
| Scoring.HalfMatchedSkillsScoreNeutral | app.py:142 | When exactly half of the requested skills are matched, the skills score is also 50 |
| Scoring.EmptyResume | app.py:121-155 | For an empty résumé, keyword, experience and education scores are 0 and the matched sample is empty. The skills score is 0 if the job description names a skill, else 50. The aggregate is then 0 or 15, and the verdict is Not Shortlisted |
| Scoring.JavascriptImpliesJava | app.py:128-138 | A text mentioning "javascript" is credited with both "javascript" and "java" |
| SimpleScoring.AnyOccurs | working_server.py:62-63 | `any(word in text ...)` holds exactly when some cue occurs in the text |
| SimpleScoring.SimpleKeywords | working_server.py:52-60 | The keyword score is in [0, 100]; each sample holds at most 10 words |
| SimpleScoring.SimpleSkills | working_server.py:55-61 | The skills score is in [0, 100] |
| SimpleScoring.SimpleResult | working_server.py:61-66 | Experience is 40 or 80 and education 30 or 75. The aggregate is the floor of the weighted mean, in [0, 100]. Shortlisted iff the aggregate is at least 60 |
| SimpleScoring.SimpleAnalysis | working_server.py:40-78 | Bounds, the two-level heuristics, the weighted floor, the verdict rule and sample lengths of at most 10 |
| SimpleScoring.KeywordPartLaw | working_server.py:52-60 | For any match list, the samples are duplicate-free, drawn from the shared and the missing words, of size min(count, 10). The score is `100 * min(shared, 10) / max(words, 1)`, rounded down |
| SimpleScoring.SimpleKeywordLaw | working_server.py:45-60 | The same law over the doubled-backslash pattern's word sets |
| SimpleScoring.LowerKeepsBackslashFree | working_server.py:41-42 | Lower-casing does not introduce a backslash |
| SimpleScoring.PlainJobDescriptionHasNoKeywords | working_server.py:45-60 | A job description without a backslash gives empty samples and a keyword score of 0 |
| SimpleScoring.SimpleSkillsLaw | working_server.py:49-61 | `missing_skills` is exactly the requested skills the résumé lacks. The skills score is 70 with no requested skill, else `min(100, 100 * résumé skills / requested skills)`, rounded down |
| SimpleScoring.SimpleHeuristics | working_server.py:62-63 | Experience is 80 exactly when "experience", "worked" or "developed" occurs; education is 75 exactly when "degree", "university" or "college" occurs |
| SimpleScoring.PlainJobDescriptionNeverShortlisted | working_server.py:60-66 | With a job description without a backslash, the aggregate is at most 53 and the verdict is Not Shortlisted |
| SimpleScoring.CorrectedSimpleAnalysis | working_server.py:40-78 | With the evidently intended word pattern: bounds, the verdict rule and sample lengths of at most 10 |
| SimpleScoring.CorrectedKeywordLaw | working_server.py:45-60 | The corrected variant's keyword samples and score follow the main engine's word sets |
| SimpleScoring.FullOverlapScore | working_server.py:60 | A full overlap of one to ten words scores 100 |
| SimpleScoring.CorrectedFullOverlapScoresFull | working_server.py:60 | With the corrected pattern, one to ten job-description words all present in the résumé score 100 |
| SimpleScoring.PythonWords | app.py:125 | The text "python" has no backslash and the single word "python" |
| SimpleScoring.EscapedPatternMissesSharedWords | working_server.py:45-46 | For a backslash-free text with one to ten words, used as both inputs, the as-written variant scores keywords 0 with empty samples, and the corrected one scores 100 |
| Seqs.Unique | app.py:132-133 | `list(set(xs))` in first-occurrence order: duplicate-free, the same elements, no longer |
| Seqs.Filter | app.py:132-133 | Keeps exactly the elements inside (or outside) the given set; no longer; duplicate-free input stays duplicate-free |
| Seqs.Take | app.py:132-133 | The slice `[:n]`: length min(length, n), drawn from the list, the whole list when it fits |
| Accounts.OwnedBy | auth.py:84-86 | The filtered list holds exactly the records of that owner and is no longer than the full list |
| Accounts.OwnedByAppend | auth.py:84-86 | Filtering commutes with concatenation, which fixes the stored order |
| Accounts.OwnedByExtend | auth.py:80-86 | Appending a record extends its owner's listing by that record and leaves every other listing unchanged |
| Accounts.FirstMatch | auth.py:88-93 | The record found has both ids; None means no record has both |
| Accounts.FirstMatchIsFirst | auth.py:90-92 | The record found is the earliest with both ids |
| Accounts.FirstMatchAppended | auth.py:71-80 | A record appended after records with other ids is the one its ids find |
| Accounts.Store.constructor | auth.py:9-23 | A store with no files starts with no users and no analyses, and satisfies the id invariant |
| Accounts.Store.CreateUser | auth.py:32-47 | A taken e-mail gives "Email already exists" and leaves the users unchanged. Otherwise it adds exactly one user under that e-mail, with id = old count + 1 and the hashed password, and returns that id. The id invariant is kept. After a successful call, authenticating with the same e-mail and password returns the new user |
| Accounts.Store.Authenticate | auth.py:49-59 | Succeeds, returning the stored user, exactly when the e-mail is known and the stored hash equals the password's hash; otherwise "Invalid credentials" |
| Accounts.Store.GetUserById | auth.py:61-66 | Returns a stored user with that id, or None only when no user has it |
| Accounts.Store.SaveAnalysis | auth.py:68-82 | Appends exactly one record with id = old length + 1 and returns that id. Earlier records are unchanged. Only the owner's listing grows, by that record. The id invariant is kept. Looking the new id up for that owner finds the new record |
| Accounts.Store.UserAnalyses | auth.py:84-86 | Lists exactly the stored records of that user |
| Accounts.Store.GetAnalysisById | auth.py:88-93 | Returns `FirstMatch`: the earliest record with both ids, so never another user's, or None when there is none. Under the invariant this is the record at position id - 1 if its owner matches |
| Dashboard.CountShortlisted | script.js:391 | Exactly the number of rows whose verdict is exactly "Shortlisted"; at most the number of rows, and equal to it exactly when every verdict is "Shortlisted" |
| Dashboard.RoundedQuotient | script.js:390 | The integer nearest to the quotient, halves rounding up |
| Dashboard.SumScores | script.js:390 | The `reduce` sum of the scores: non-negative when every score is, at most 100 per row when every score is at most 100 |
| Dashboard.UpdateStats | script.js:388-396 | The total is the number of entries. The average is 0 for none, else the sum of scores divided by the total, rounded to nearest with halves up. Shortlisted is the number of rows whose verdict is exactly "Shortlisted", at most the total |
| Dashboard.SumBounds | script.js:390 | Scores in [lo, hi] sum to between n * lo and n * hi |
| Dashboard.RoundedMeanInRange | script.js:390 | The rounded mean of a sum in [0, 100n] lies in [0, 100] |
| Dashboard.AverageInRange | script.js:390 | When every score lies in [0, 100], so does the displayed average |
| Dashboard.ShortlistedCountsPassing | script.js:391 | For rows built from engine results, the shortlisted count is the number of scores of 60 or more |
| Dashboard.HandleSignup | script.js:94-97 | The request is sent exactly when the password has at least 6 characters, and carries the entered fields; otherwise the alert "Password must be at least 6 characters" |
| Dashboard.SkipSpaces | script.js:237 | Skips exactly the white space before the first character that is not white space |
| Dashboard.DropSpaces | script.js:237 | Drops exactly the white space after the last character that is not white space |
| Dashboard.Trim | script.js:237 | `trim()`: a slice of the text, after a white-space prefix and followed only by white space, that neither starts nor ends with white space |
| Dashboard.TrimEmptyIffBlank | script.js:237 | Trimming leaves nothing exactly when every character is white space |
| Dashboard.AnalyzeGuard | script.js:232-245 | The checks run in order: file selected, then non-blank job description, then a user with a token. The first failure gives its alert. The request is sent exactly when all pass, with the untrimmed job description and the token |
| Dashboard.SentJobDescriptionNotBlank | script.js:237-245 | A sent job description holds a character other than white space |

## Left out

- HTTP routes, CORS, JWT issuance and checking, multipart upload and file
  handling (`app.py` from line 169 on, `working_server.py:9-38`) are
  transport, not decision logic.
- `extract_text` (PDF and Word extraction through foreign libraries) is not
  part of this model. The résumé text is an input string.
- Loading and saving `users.json` and `analyses.json` is file I/O. The two
  collections are the fields of `Accounts.Store`, changed in place.
- Concurrency: each store call is modelled as atomic, one call at a time.
  In the source every call reloads the whole JSON file, changes it and
  writes it back (`auth.py:33-46`, `auth.py:69-81`), and the development
  server handles requests in threads. Two concurrent `create_user` or
  `save_analysis` calls can compute the same id, and the later write can
  overwrite the earlier one. The unique ids of `Accounts.Store.Valid` and the
  lookups promised by `CreateUser` and `SaveAnalysis` hold only for calls
  that do not overlap.
- `hash_password` (SHA-256) is a function given to the store when it is
  created.
- `datetime.now()` timestamps are a `now` parameter of `CreateUser` and
  `SaveAnalysis`.
- Floating point: the model computes `int((a / b) * 100)` and
  `int(k * 0.4 + s * 0.3 + e * 0.2 + d * 0.1)` with exact integer floor
  division. Python's float result can be one lower at exact boundaries, for
  example `29 / 100 * 100` is 28.999….
- Set iteration order: which words fill the truncated keyword samples
  depends on Python's hashing. Only membership, distinctness and size are
  stated.
- Unicode: `str.lower()` and the regex class `\w` act on ASCII only here. In
  Python, non-ASCII letters are lower-cased and count as word characters.
- Dashboard.HandleSignup: the length is counted in code points. JavaScript
  counts UTF-16 code units, so a password with characters outside the Basic
  Multilingual Plane may count differently.
- Accounts.Store.GetUserById: does not state insertion order ("the first
  user"), because a Dafny `map` has none. Ids are unique under `Valid`, so
  at most one user can match.
- `simple_app.py` (the same store inside HTTP handlers), `simple_analyze.py`
  (fixed mock results) and `test_server.py` (stubs) are not part of this
  model.
- The rest of `script.js` (page drawing, `fetch`, local storage, downloads)
  is not modelled.

## Notes on behaviour

- `keyword_score` is computed from the matched sample after it is cut to
  20 words, not from the full intersection (`app.py:132-135`). So it stops
  growing once more than 20 words are shared (`Scoring.KeywordScoreLaw`).
- `keyword_score` and `skills_score` are truncated by `int(...)`, not
  rounded (`app.py:135`, `app.py:142`).
- `skills_score` is 50 when the job description names no listed skill. It
  is also 50 whenever exactly half of the requested skills are matched
  (`Scoring.HalfMatchedSkillsScoreNeutral`).
- An empty résumé with a job description that names no listed skill scores
  15, not 0: the neutral skills score of 50 carries weight 0.3
  (`Scoring.EmptyResume`).
- The engine does not reject an empty job description. It scores keywords 0
  through the `max(..., 1)` denominator (`app.py:135`).
- A word is a whole word-character run made only of small letters
  (`app.py:125-126`). A run touching a digit or an underscore, such as
  "python3", yields no word (`Tokenizer.DigitSuffixYieldsNothing`).

## Findings

| source | as written | input that shows it | evidently intended | confidence | as-written member | corrected member |
|---|---|---|---|---|---|---|
| working_server.py:45-46 | The word pattern is a raw string with doubled backslashes, so it matches only a literal backslash and `b`, letters, then another backslash and `b`. Ordinary text has no keyword | Job description and résumé both "python": keyword score 0, both samples empty | The pattern `\b[a-z]{3,}\b` of `app.py:125`, which gives keyword score 100 here | high (not executed) | SimpleScoring.EscapedPatternMissesSharedWords | SimpleScoring.CorrectedKeywordLaw |
