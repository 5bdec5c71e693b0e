/**
 * The variant scorer of the standalone analysis server (`simple_analysis`):
 * a smaller skill list, two-level experience and education heuristics,
 * other sample limits and defaults, and a word pattern that only matches
 * text written with literal backslashes (see `Tokenizer.FindEscapedWords`).
 * It shares the weighted aggregate and the verdict rule with the main engine.
 */
module SimpleScoring {
  import opened Seqs
  import opened Text
  import opened Tokenizer
  import opened Scoring

  const SIMPLE_SKILLS: seq<string> :=
    ["python", "java", "javascript", "react", "node", "sql", "aws", "docker", "git"]

  const EXPERIENCE_CUES: seq<string> := ["experience", "worked", "developed"]
  const EDUCATION_CUES: seq<string> := ["degree", "university", "college"]

  /** Length of each returned keyword sample. */
  const SAMPLE_LIMIT: nat := 10
  /** `skills_score` when the job description names no listed skill. */
  const NO_SKILL_SCORE: int := 70
  const EXPERIENCE_HIGH: int := 80
  const EXPERIENCE_LOW: int := 40
  const EDUCATION_HIGH: int := 75
  const EDUCATION_LOW: int := 30

  /** `any(word in text for word in cues)`. */
  predicate AnyOccurs(cues: seq<string>, text: string): (r: bool)
    ensures r <==> exists c :: c in cues && Occurs(c, text)
  {
    var found := Detected(cues, text);
    assert found != [] ==> found[0] in found;
    found != []
  }

  /**
   * Lines 52-53 and 60 of the variant: `found` is the pattern's match list
   * on the lower-cased job description, `resumeWords` its match set on the
   * lower-cased résumé.
   */
  function SimpleKeywords(found: seq<string>, resumeWords: set<string>): (m: KeywordMatch)
    ensures 0 <= m.score <= 100
    ensures |m.matched| <= SAMPLE_LIMIT && |m.missing| <= SAMPLE_LIMIT
  {
    var jdList := Unique(found);
    var matched := Take(Filter(jdList, resumeWords, true), SAMPLE_LIMIT);
    var missing := Take(Filter(jdList, resumeWords, false), SAMPLE_LIMIT);
    UniqueCount(found);
    KeywordMatch(matched, missing, Min(100, Ratio(|matched|, |Elems(found)|)))
  }

  /** Lines 55-57 and 61 of the variant, on lower-cased texts. */
  function SimpleSkills(jd: string, resume: string): (m: SkillMatch)
    ensures 0 <= m.score <= 100
  {
    var jdSkills := Detected(SIMPLE_SKILLS, jd);
    var resumeSkills := Detected(SIMPLE_SKILLS, resume);
    var missingSkills := Filter(jdSkills, Elems(resumeSkills), false);
    var score :=
      if jdSkills != [] then Min(100, Ratio(|resumeSkills|, |jdSkills|)) else NO_SKILL_SCORE;
    SkillMatch(missingSkills, score)
  }

  /** Lines 62-66 of the variant: the rest of the result around a keyword part. */
  function SimpleResult(keywords: KeywordMatch, jd: string, resume: string): (r: AnalysisResult)
    requires 0 <= keywords.score <= 100
    ensures r.keywordScore == keywords.score
    ensures r.matchedKeywords == keywords.matched && r.missingKeywords == keywords.missing
    ensures 0 <= r.skillsScore <= 100
    ensures r.experienceScore in {EXPERIENCE_LOW, EXPERIENCE_HIGH}
    ensures r.educationScore in {EDUCATION_LOW, EDUCATION_HIGH}
    ensures 0 <= r.atsScore <= 100
    ensures 10 * r.atsScore <= 4 * r.keywordScore + 3 * r.skillsScore + 2 * r.experienceScore + r.educationScore
                             < 10 * r.atsScore + 10
    ensures r.verdict == Shortlisted <==> r.atsScore >= SHORTLIST_THRESHOLD
  {
    var skills := SimpleSkills(jd, resume);
    var experienceScore := if AnyOccurs(EXPERIENCE_CUES, resume) then EXPERIENCE_HIGH else EXPERIENCE_LOW;
    var educationScore := if AnyOccurs(EDUCATION_CUES, resume) then EDUCATION_HIGH else EDUCATION_LOW;
    var ats := AtsScore(keywords.score, skills.score, experienceScore, educationScore);
    AnalysisResult(ats, keywords.score, skills.score, experienceScore, educationScore,
                   keywords.matched, keywords.missing, skills.missing, VerdictFor(ats))
  }

  /**
   * `simple_analysis(resume_text, job_description)` as written: its word
   * pattern is `FindEscapedWords`.
   */
  function SimpleAnalysis(resumeText: string, jobDescription: string): (r: AnalysisResult)
    ensures 0 <= r.keywordScore <= 100 && 0 <= r.skillsScore <= 100
    ensures r.experienceScore in {EXPERIENCE_LOW, EXPERIENCE_HIGH}
    ensures r.educationScore in {EDUCATION_LOW, EDUCATION_HIGH}
    ensures 0 <= r.atsScore <= 100
    ensures 10 * r.atsScore <= 4 * r.keywordScore + 3 * r.skillsScore + 2 * r.experienceScore + r.educationScore
                             < 10 * r.atsScore + 10
    ensures r.verdict == Shortlisted <==> r.atsScore >= SHORTLIST_THRESHOLD
    ensures |r.matchedKeywords| <= SAMPLE_LIMIT && |r.missingKeywords| <= SAMPLE_LIMIT
  {
    var resume := Lower(resumeText);
    var jd := Lower(jobDescription);
    SimpleResult(SimpleKeywords(FindEscapedWords(jd, 0), EscapedWords(resume)), jd, resume)
  }

  /**
   * `simple_analysis` with the word pattern it evidently means, the one of
   * the main engine (`\b[a-z]{3,}\b` written once-escaped).
   */
  function CorrectedSimpleAnalysis(resumeText: string, jobDescription: string): (r: AnalysisResult)
    ensures 0 <= r.keywordScore <= 100 && 0 <= r.skillsScore <= 100
    ensures 0 <= r.atsScore <= 100
    ensures r.verdict == Shortlisted <==> r.atsScore >= SHORTLIST_THRESHOLD
    ensures |r.matchedKeywords| <= SAMPLE_LIMIT && |r.missingKeywords| <= SAMPLE_LIMIT
  {
    var resume := Lower(resumeText);
    var jd := Lower(jobDescription);
    SimpleResult(SimpleKeywords(FindWords(jd, 0), Words(resume)), jd, resume)
  }

  /** Helper: the keyword part of the variant, over any match list. */
  lemma KeywordPartLaw(found: seq<string>, resumeWords: set<string>)
    ensures var m := SimpleKeywords(found, resumeWords);
            var jdWords := Elems(found);
            && NoDup(m.matched) && NoDup(m.missing)
            && (forall w :: w in m.matched ==> w in jdWords && w in resumeWords)
            && (forall w :: w in m.missing ==> w in jdWords && w !in resumeWords)
            && |m.matched| == Min(|jdWords * resumeWords|, SAMPLE_LIMIT)
            && |m.missing| == Min(|jdWords - resumeWords|, SAMPLE_LIMIT)
            && m.score == 100 * Min(|jdWords * resumeWords|, SAMPLE_LIMIT) / Max(|jdWords|, 1)
  {
    var jdList := Unique(found);
    UniqueCount(found);
    FilterCount(jdList, resumeWords, true);
    FilterCount(jdList, resumeWords, false);
    var shared := Elems(found) * resumeWords;
    assert |shared| <= |Elems(found)| by {
      assert shared <= Elems(found);
    }
  }

  /**
   * The keyword samples are duplicate-free, hold at most ten words each,
   * and are drawn from the shared and the missing pattern matches
   * respectively; the score is the truncated share of matched words.
   */
  lemma SimpleKeywordLaw(resumeText: string, jobDescription: string)
    ensures var r := SimpleAnalysis(resumeText, jobDescription);
            var jdWords := EscapedWords(Lower(jobDescription));
            var resumeWords := EscapedWords(Lower(resumeText));
            && NoDup(r.matchedKeywords) && NoDup(r.missingKeywords)
            && (forall w :: w in r.matchedKeywords ==> w in jdWords && w in resumeWords)
            && (forall w :: w in r.missingKeywords ==> w in jdWords && w !in resumeWords)
            && |r.matchedKeywords| == Min(|jdWords * resumeWords|, SAMPLE_LIMIT)
            && |r.missingKeywords| == Min(|jdWords - resumeWords|, SAMPLE_LIMIT)
            && r.keywordScore == 100 * Min(|jdWords * resumeWords|, SAMPLE_LIMIT) / Max(|jdWords|, 1)
  {
    KeywordPartLaw(FindEscapedWords(Lower(jobDescription), 0), EscapedWords(Lower(resumeText)));
  }

  /** Lower-casing neither creates nor removes a backslash. */
  lemma LowerKeepsBackslashFree(s: string)
    requires forall k :: 0 <= k < |s| ==> s[k] != '\\'
    ensures forall k :: 0 <= k < |Lower(s)| ==> Lower(s)[k] != '\\'
  {
  }

  /**
   * For a job description without a backslash, which is every ordinary
   * text, the pattern finds no word: both samples are empty and the
   * keyword score is 0.
   */
  lemma PlainJobDescriptionHasNoKeywords(resumeText: string, jobDescription: string)
    requires forall k :: 0 <= k < |jobDescription| ==> jobDescription[k] != '\\'
    ensures var r := SimpleAnalysis(resumeText, jobDescription);
            r.matchedKeywords == [] && r.missingKeywords == [] && r.keywordScore == 0
  {
    var jd := Lower(jobDescription);
    LowerKeepsBackslashFree(jobDescription);
    NoBackslashNoEscapedWords(jd, 0);
    KeywordPartLaw(FindEscapedWords(jd, 0), EscapedWords(Lower(resumeText)));
  }

  /**
   * `missing_skills` is the set of listed skills in the job description and
   * not in the résumé; `skills_score` is 70 when the job description names
   * none, otherwise the number of résumé skills (all of them, not only the
   * requested ones) per requested skill as a percentage, capped at 100.
   */
  lemma SimpleSkillsLaw(resumeText: string, jobDescription: string)
    ensures var r := SimpleAnalysis(resumeText, jobDescription);
            var jdSkills := PhrasesIn(SIMPLE_SKILLS, Lower(jobDescription));
            var resumeSkills := PhrasesIn(SIMPLE_SKILLS, Lower(resumeText));
            && NoDup(r.missingSkills)
            && Elems(r.missingSkills) == jdSkills - resumeSkills
            && (jdSkills == {} ==> r.skillsScore == NO_SKILL_SCORE)
            && (jdSkills != {} ==> r.skillsScore == Min(100, 100 * |resumeSkills| / |jdSkills|))
  {
    var jd := Lower(jobDescription);
    var resume := Lower(resumeText);
    assert NoDup(SIMPLE_SKILLS);
    var jdSkills := Detected(SIMPLE_SKILLS, jd);
    var resumeSkills := Detected(SIMPLE_SKILLS, resume);
    DetectedCount(SIMPLE_SKILLS, jd);
    DetectedCount(SIMPLE_SKILLS, resume);
    FilterCount(jdSkills, Elems(resumeSkills), false);
  }

  /**
   * The experience score is 80 exactly when the résumé mentions
   * "experience", "worked" or "developed", else 40; the education score is
   * 75 exactly when it mentions "degree", "university" or "college", else 30.
   */
  lemma SimpleHeuristics(resumeText: string, jobDescription: string)
    ensures var r := SimpleAnalysis(resumeText, jobDescription);
            var resume := Lower(resumeText);
            && (r.experienceScore == EXPERIENCE_HIGH <==> exists c :: c in EXPERIENCE_CUES && Occurs(c, resume))
            && (r.educationScore == EDUCATION_HIGH <==> exists c :: c in EDUCATION_CUES && Occurs(c, resume))
  {
    var resume := Lower(resumeText);
    var e := Detected(EXPERIENCE_CUES, resume);
    var d := Detected(EDUCATION_CUES, resume);
    if e != [] { assert e[0] in e; }
    if d != [] { assert d[0] in d; }
  }

  /**
   * With a job description free of backslashes the keyword score is 0, so
   * the aggregate is at most (300 + 160 + 75) / 10 = 53 and the variant
   * never shortlists.
   */
  lemma PlainJobDescriptionNeverShortlisted(resumeText: string, jobDescription: string)
    requires forall k :: 0 <= k < |jobDescription| ==> jobDescription[k] != '\\'
    ensures var r := SimpleAnalysis(resumeText, jobDescription);
            r.atsScore <= 53 && r.verdict == NotShortlisted
  {
    PlainJobDescriptionHasNoKeywords(resumeText, jobDescription);
  }

  /** The corrected variant's keyword part, stated over the engine's word sets. */
  lemma CorrectedKeywordLaw(resumeText: string, jobDescription: string)
    ensures var r := CorrectedSimpleAnalysis(resumeText, jobDescription);
            var jdWords := Words(Lower(jobDescription));
            var resumeWords := Words(Lower(resumeText));
            && NoDup(r.matchedKeywords) && NoDup(r.missingKeywords)
            && (forall w :: w in r.matchedKeywords ==> w in jdWords && w in resumeWords)
            && (forall w :: w in r.missingKeywords ==> w in jdWords && w !in resumeWords)
            && |r.matchedKeywords| == Min(|jdWords * resumeWords|, SAMPLE_LIMIT)
            && |r.missingKeywords| == Min(|jdWords - resumeWords|, SAMPLE_LIMIT)
            && r.keywordScore == 100 * Min(|jdWords * resumeWords|, SAMPLE_LIMIT) / Max(|jdWords|, 1)
  {
    KeywordPartLaw(FindWords(Lower(jobDescription), 0), Words(Lower(resumeText)));
  }

  /** Helper: a full overlap of at most ten words scores 100. */
  lemma FullOverlapScore(jdWords: set<string>, resumeWords: set<string>, score: int)
    requires jdWords != {} && |jdWords| <= SAMPLE_LIMIT && jdWords <= resumeWords
    requires score == 100 * Min(|jdWords * resumeWords|, SAMPLE_LIMIT) / Max(|jdWords|, 1)
    ensures score == 100
  {
    assert jdWords * resumeWords == jdWords;
  }

  /**
   * With the corrected pattern, a job description whose words all appear in
   * the résumé, and which has at most ten of them, scores 100 on keywords.
   */
  lemma CorrectedFullOverlapScoresFull(resumeText: string, jobDescription: string)
    requires Words(Lower(jobDescription)) != {}
    requires |Words(Lower(jobDescription))| <= SAMPLE_LIMIT
    requires Words(Lower(jobDescription)) <= Words(Lower(resumeText))
    ensures CorrectedSimpleAnalysis(resumeText, jobDescription).keywordScore == 100
  {
    var r := CorrectedSimpleAnalysis(resumeText, jobDescription);
    CorrectedKeywordLaw(resumeText, jobDescription);
    FullOverlapScore(Words(Lower(jobDescription)), Words(Lower(resumeText)), r.keywordScore);
  }

  /** The one-word text "python" has no backslash and exactly one word. */
  lemma PythonWords()
    ensures forall k :: 0 <= k < |"python"| ==> "python"[k] != '\\'
    ensures Lower("python") == "python"
    ensures Words("python") == {"python"}
  {
    var s := "python";
    assert Lower(s) == s;
    assert RunEnd(s, 0) == 6 by {
      assert RunEnd(s, 6) == 6;
      assert RunEnd(s, 5) == 6 && RunEnd(s, 4) == 6 && RunEnd(s, 3) == 6;
      assert RunEnd(s, 2) == 6 && RunEnd(s, 1) == 6;
    }
    assert s[0..6] == s;
    assert FindWords(s, 0) == [s];
  }

  /**
   * The as-written variant ignores the words the texts share: for a text
   * without backslashes and with one to ten words (such as "python", see
   * `PythonWords`), given as both job description and résumé, the keyword
   * score is 0 and both samples are empty, where the corrected pattern
   * gives 100.
   */
  lemma EscapedPatternMissesSharedWords(text: string)
    requires forall k :: 0 <= k < |text| ==> text[k] != '\\'
    requires Words(Lower(text)) != {} && |Words(Lower(text))| <= SAMPLE_LIMIT
    ensures var r := SimpleAnalysis(text, text);
            r.keywordScore == 0 && r.matchedKeywords == [] && r.missingKeywords == []
    ensures CorrectedSimpleAnalysis(text, text).keywordScore == 100
  {
    PlainJobDescriptionHasNoKeywords(text, text);
    CorrectedFullOverlapScoresFull(text, text);
  }
}
