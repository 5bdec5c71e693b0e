/**
 * The résumé / job-description scoring engine (`analyze_resume`): keyword
 * overlap, skill-vocabulary matching, experience and education marker
 * counts, their weighted aggregate and the shortlist verdict.
 *
 * Python evaluates the ratios and the weighted sum in floating point and
 * truncates with `int(...)`; the model uses exact integer floor division.
 */
module Scoring {
  import opened Seqs
  import opened Text
  import opened Tokenizer

  datatype Verdict = Shortlisted | NotShortlisted
  {
    /** The verdict as the JSON result spells it. */
    function Label(): (s: string)
      ensures s == "Shortlisted" <==> this == Shortlisted
    {
      if Shortlisted? then "Shortlisted" else "Not Shortlisted"
    }
  }

  datatype AnalysisResult = AnalysisResult(
    atsScore: int,
    keywordScore: int,
    skillsScore: int,
    experienceScore: int,
    educationScore: int,
    matchedKeywords: seq<string>,
    missingKeywords: seq<string>,
    missingSkills: seq<string>,
    verdict: Verdict)

  /** The curated skill vocabulary, matched as substrings. */
  const SKILLS: seq<string> := [
    "python", "java", "javascript", "react", "node", "sql", "aws", "docker",
    "kubernetes", "git", "agile", "scrum", "leadership", "communication",
    "machine learning", "data analysis", "project management"]

  const EXPERIENCE_MARKERS: seq<string> :=
    ["years", "experience", "worked", "developed", "managed", "led"]

  const EDUCATION_MARKERS: seq<string> :=
    ["bachelor", "master", "phd", "degree", "university", "college"]

  /** Length of the returned `matched_keywords` sample. */
  const MATCHED_LIMIT: nat := 20
  /** Length of the returned `missing_keywords` sample. */
  const MISSING_LIMIT: nat := 15
  /** `skills_score` when the job description names no vocabulary skill. */
  const NEUTRAL_SKILLS_SCORE: int := 50
  const EXPERIENCE_STEP: nat := 15
  const EDUCATION_STEP: nat := 20
  const SHORTLIST_THRESHOLD: int := 60

  // ---------------------------------------------------------------------
  // Arithmetic shared by every sub-score and by the variant scorer

  /**
   * `int((part / max(whole, 1)) * 100)`: the percentage `part` is of
   * `whole`, rounded down, with an empty `whole` counted as one.
   */
  function Ratio(part: nat, whole: nat): (r: int)
    ensures Max(whole, 1) * r <= 100 * part < Max(whole, 1) * (r + 1)
    ensures 0 <= r
    ensures part <= whole ==> r <= 100
    ensures part == 0 ==> r == 0
  {
    100 * part / Max(whole, 1)
  }

  /**
   * `int(k * 0.4 + s * 0.3 + e * 0.2 + d * 0.1)`: the weighted mean of the
   * four sub-scores, rounded down.
   */
  function AtsScore(keyword: int, skills: int, experience: int, education: int): (ats: int)
    ensures 10 * ats <= 4 * keyword + 3 * skills + 2 * experience + education < 10 * ats + 10
    ensures 0 <= keyword <= 100 && 0 <= skills <= 100 && 0 <= experience <= 100 && 0 <= education <= 100
            ==> 0 <= ats <= 100
  {
    (4 * keyword + 3 * skills + 2 * experience + education) / 10
  }

  function VerdictFor(ats: int): (v: Verdict)
    ensures v == Shortlisted <==> ats >= SHORTLIST_THRESHOLD
  {
    if ats >= SHORTLIST_THRESHOLD then Shortlisted else NotShortlisted
  }

  /** A higher sub-score never lowers the aggregate. */
  lemma AtsMonotone(k: int, s: int, e: int, d: int, k': int, s': int, e': int, d': int)
    requires k <= k' && s <= s' && e <= e' && d <= d'
    ensures AtsScore(k, s, e, d) <= AtsScore(k', s', e', d')
  {
    var a, a' := AtsScore(k, s, e, d), AtsScore(k', s', e', d');
    assert 10 * a < 10 * a' + 10;
  }

  // ---------------------------------------------------------------------
  // Vocabulary detection

  /** `[p for p in vocabulary if p in text]`. */
  function Detected(vocabulary: seq<string>, text: string): (found: seq<string>)
    ensures forall p :: p in found <==> p in vocabulary && Occurs(p, text)
    ensures |found| <= |vocabulary|
    ensures NoDup(vocabulary) ==> NoDup(found)
  {
    if vocabulary == [] then []
    else
      var rest := Detected(vocabulary[1..], text);
      assert NoDup(vocabulary) ==> NoDup(vocabulary[1..]) && vocabulary[0] !in vocabulary[1..] by {
        if NoDup(vocabulary) {
          forall i, j | 0 <= i < j < |vocabulary| - 1 ensures vocabulary[1..][i] != vocabulary[1..][j] {
            assert vocabulary[1..][i] == vocabulary[i + 1] && vocabulary[1..][j] == vocabulary[j + 1];
          }
          forall k | 0 <= k < |vocabulary| - 1 ensures vocabulary[1..][k] != vocabulary[0] {
            assert vocabulary[1..][k] == vocabulary[k + 1];
          }
        }
      }
      if Occurs(vocabulary[0], text) then [vocabulary[0]] + rest else rest
  }

  /** The set of vocabulary phrases that occur in `text`. */
  ghost function PhrasesIn(vocabulary: seq<string>, text: string): set<string>
  {
    set p | p in vocabulary && Occurs(p, text)
  }

  /** Helper: detection from a duplicate-free vocabulary lists each found phrase once. */
  lemma DetectedCount(vocabulary: seq<string>, text: string)
    requires NoDup(vocabulary)
    ensures Elems(Detected(vocabulary, text)) == PhrasesIn(vocabulary, text)
    ensures |Detected(vocabulary, text)| == |PhrasesIn(vocabulary, text)|
  {
    DistinctLength(Detected(vocabulary, text));
  }

  lemma VocabulariesDistinct()
    ensures NoDup(SKILLS) && NoDup(EXPERIENCE_MARKERS) && NoDup(EDUCATION_MARKERS)
  {
  }

  /** `sum(1 for word in markers if word in text)`. */
  function MarkerCount(markers: seq<string>, text: string): (n: nat)
    ensures n <= |markers|
  {
    |Detected(markers, text)|
  }

  // ---------------------------------------------------------------------
  // The engine

  /** The keyword part of the result: the two samples and `keyword_score`. */
  datatype KeywordMatch = KeywordMatch(matched: seq<string>, missing: seq<string>, score: int)

  /** Lines 125-135 of the engine, on already lower-cased texts. */
  function MatchKeywords(jd: string, resume: string): (m: KeywordMatch)
    ensures 0 <= m.score <= 100
    ensures |m.matched| <= MATCHED_LIMIT && |m.missing| <= MISSING_LIMIT
  {
    var jdWords := Words(jd);
    var resumeWords := Words(resume);
    var jdList := Unique(FindWords(jd, 0));
    var matched := Take(Filter(jdList, resumeWords, true), MATCHED_LIMIT);
    var missing := Take(Filter(jdList, resumeWords, false), MISSING_LIMIT);
    KeywordMatch(matched, missing, Min(100, Ratio(|matched|, |jdWords|)))
  }

  /** The skill part of the result: `missing_skills` and `skills_score`. */
  datatype SkillMatch = SkillMatch(missing: seq<string>, score: int)

  /** Lines 137-142 of the engine, on already lower-cased texts. */
  function MatchSkills(jd: string, resume: string): (m: SkillMatch)
    ensures 0 <= m.score <= 100
  {
    var jdSkills := Detected(SKILLS, jd);
    var resumeSkills := Detected(SKILLS, resume);
    var matchedSkills := Filter(jdSkills, Elems(resumeSkills), true);
    var missingSkills := Filter(jdSkills, Elems(resumeSkills), false);
    var score :=
      if jdSkills != [] then Min(100, Ratio(|matchedSkills|, |jdSkills|)) else NEUTRAL_SKILLS_SCORE;
    SkillMatch(missingSkills, score)
  }

  function ExperienceScore(resume: string): (score: int)
    ensures 0 <= score <= 100
  {
    Min(100, MarkerCount(EXPERIENCE_MARKERS, resume) * EXPERIENCE_STEP)
  }

  function EducationScore(resume: string): (score: int)
    ensures 0 <= score <= 100
  {
    Min(100, MarkerCount(EDUCATION_MARKERS, resume) * EDUCATION_STEP)
  }

  /** `analyze_resume(resume_text, job_description)`. */
  function AnalyzeResume(resumeText: string, jobDescription: string): (r: AnalysisResult)
    ensures 0 <= r.keywordScore <= 100 && 0 <= r.skillsScore <= 100
    ensures 0 <= r.experienceScore <= 100 && 0 <= r.educationScore <= 100
    ensures 0 <= r.atsScore <= 100
    ensures 10 * r.atsScore <= 4 * r.keywordScore + 3 * r.skillsScore + 2 * r.experienceScore + r.educationScore
                             < 10 * r.atsScore + 10
    ensures r.verdict == Shortlisted <==> r.atsScore >= SHORTLIST_THRESHOLD
    ensures |r.matchedKeywords| <= MATCHED_LIMIT && |r.missingKeywords| <= MISSING_LIMIT
  {
    var resume := Lower(resumeText);
    var jd := Lower(jobDescription);
    var keywords := MatchKeywords(jd, resume);
    var skills := MatchSkills(jd, resume);
    var experienceScore := ExperienceScore(resume);
    var educationScore := EducationScore(resume);
    var ats := AtsScore(keywords.score, skills.score, experienceScore, educationScore);
    AnalysisResult(ats, keywords.score, skills.score, experienceScore, educationScore,
                   keywords.matched, keywords.missing, skills.missing, VerdictFor(ats))
  }

  // ---------------------------------------------------------------------
  // Properties of the engine, stated over the word and phrase sets

  /** Helper: filtering a duplicate-free list against a set keeps as many elements as the set algebra says. */
  lemma FilterCount(xs: seq<string>, s: set<string>, keep: bool)
    requires NoDup(xs)
    ensures Elems(Filter(xs, s, keep)) == (if keep then Elems(xs) * s else Elems(xs) - s)
    ensures |Filter(xs, s, keep)| == |if keep then Elems(xs) * s else Elems(xs) - s|
  {
    DistinctLength(Filter(xs, s, keep));
  }

  /**
   * `matched_keywords` is a duplicate-free sample of the words both texts
   * share, `missing_keywords` one of the job-description words the résumé
   * lacks; each is the whole set when it fits under its limit, and the two
   * never share a word.
   */
  lemma KeywordSamples(resumeText: string, jobDescription: string)
    ensures var r := AnalyzeResume(resumeText, jobDescription);
            var jdWords := Words(Lower(jobDescription));
            var resumeWords := Words(Lower(resumeText));
            && NoDup(r.matchedKeywords) && NoDup(r.missingKeywords)
            && (forall w :: w in r.matchedKeywords ==> w in jdWords && w in resumeWords)
            && (forall w :: w in r.missingKeywords ==> w in jdWords && w !in resumeWords)
            && |r.matchedKeywords| == Min(|jdWords * resumeWords|, MATCHED_LIMIT)
            && |r.missingKeywords| == Min(|jdWords - resumeWords|, MISSING_LIMIT)
            && (|jdWords * resumeWords| <= MATCHED_LIMIT ==> Elems(r.matchedKeywords) == jdWords * resumeWords)
            && (|jdWords - resumeWords| <= MISSING_LIMIT ==> Elems(r.missingKeywords) == jdWords - resumeWords)
  {
    var jd := Lower(jobDescription);
    var resumeWords := Words(Lower(resumeText));
    var jdList := Unique(FindWords(jd, 0));
    UniqueCount(FindWords(jd, 0));
    FilterCount(jdList, resumeWords, true);
    FilterCount(jdList, resumeWords, false);
  }

  /**
   * `keyword_score` is the share of job-description words found in the
   * returned (truncated) sample, so it is 0 when the job description has
   * no word and stops growing once more than 20 words are shared.
   */
  lemma KeywordScoreLaw(resumeText: string, jobDescription: string)
    ensures var r := AnalyzeResume(resumeText, jobDescription);
            var jdWords := Words(Lower(jobDescription));
            var shared := |jdWords * Words(Lower(resumeText))|;
            && r.keywordScore == 100 * Min(shared, MATCHED_LIMIT) / Max(|jdWords|, 1)
            && (jdWords == {} ==> r.keywordScore == 0)
            && (shared >= MATCHED_LIMIT ==> r.keywordScore == 100 * MATCHED_LIMIT / |jdWords|)
  {
    KeywordSamples(resumeText, jobDescription);
    var jdWords := Words(Lower(jobDescription));
    var shared := jdWords * Words(Lower(resumeText));
    assert |shared| <= |jdWords| by {
      assert shared <= jdWords;
    }
  }

  /**
   * `missing_skills` is the set of vocabulary skills named in the job
   * description and absent from the résumé; `skills_score` is the neutral
   * 50 when the job description names none, else the percentage of its
   * skills the résumé also names.
   */
  lemma SkillsLaw(resumeText: string, jobDescription: string)
    ensures var r := AnalyzeResume(resumeText, jobDescription);
            var jdSkills := PhrasesIn(SKILLS, Lower(jobDescription));
            var resumeSkills := PhrasesIn(SKILLS, Lower(resumeText));
            && NoDup(r.missingSkills)
            && Elems(r.missingSkills) == jdSkills - resumeSkills
            && (jdSkills == {} ==> r.skillsScore == NEUTRAL_SKILLS_SCORE)
            && (jdSkills != {} ==> r.skillsScore == 100 * |jdSkills * resumeSkills| / |jdSkills|)
  {
    var jd := Lower(jobDescription);
    var resume := Lower(resumeText);
    VocabulariesDistinct();
    var jdSkills := Detected(SKILLS, jd);
    var resumeSkills := Detected(SKILLS, resume);
    DetectedCount(SKILLS, jd);
    DetectedCount(SKILLS, resume);
    FilterCount(jdSkills, Elems(resumeSkills), true);
    FilterCount(jdSkills, Elems(resumeSkills), false);
    var both := PhrasesIn(SKILLS, jd) * PhrasesIn(SKILLS, resume);
    assert |both| <= |PhrasesIn(SKILLS, jd)| by {
      assert both <= PhrasesIn(SKILLS, jd);
    }
  }

  /**
   * The experience score is 15 per experience marker found in the text;
   * there are six markers, so it is a multiple of 15 no larger than 90.
   */
  lemma ExperienceLaw(resume: string)
    ensures ExperienceScore(resume) == EXPERIENCE_STEP * |PhrasesIn(EXPERIENCE_MARKERS, resume)|
    ensures ExperienceScore(resume) % EXPERIENCE_STEP == 0 && ExperienceScore(resume) <= 90
  {
    VocabulariesDistinct();
    DetectedCount(EXPERIENCE_MARKERS, resume);
    var e := MarkerCount(EXPERIENCE_MARKERS, resume);
    assert ExperienceScore(resume) == e * EXPERIENCE_STEP;
  }

  /**
   * The education score is 20 per education marker found in the text,
   * capped at 100, so it is one of 0, 20, ..., 100.
   */
  lemma EducationLaw(resume: string)
    ensures EducationScore(resume) == Min(100, EDUCATION_STEP * |PhrasesIn(EDUCATION_MARKERS, resume)|)
    ensures EducationScore(resume) % EDUCATION_STEP == 0
  {
    VocabulariesDistinct();
    DetectedCount(EDUCATION_MARKERS, resume);
    var d := MarkerCount(EDUCATION_MARKERS, resume);
    if d <= 5 {
      assert EducationScore(resume) == d * EDUCATION_STEP;
    }
  }

  /** The engine reports the marker scores of the lower-cased résumé. */
  lemma HeuristicLaw(resumeText: string, jobDescription: string)
    ensures var r := AnalyzeResume(resumeText, jobDescription);
            var resume := Lower(resumeText);
            && r.experienceScore == EXPERIENCE_STEP * |PhrasesIn(EXPERIENCE_MARKERS, resume)|
            && r.experienceScore % EXPERIENCE_STEP == 0 && r.experienceScore <= 90
            && r.educationScore == Min(100, EDUCATION_STEP * |PhrasesIn(EDUCATION_MARKERS, resume)|)
            && r.educationScore % EDUCATION_STEP == 0
  {
    ExperienceLaw(Lower(resumeText));
    EducationLaw(Lower(resumeText));
  }

  /**
   * A skills score of 50 does not mean that no skill was requested: it is
   * also 50 whenever exactly half of the requested skills are matched.
   */
  lemma HalfMatchedSkillsScoreNeutral(resumeText: string, jobDescription: string)
    requires var jdSkills := PhrasesIn(SKILLS, Lower(jobDescription));
             jdSkills != {} && 2 * |jdSkills * PhrasesIn(SKILLS, Lower(resumeText))| == |jdSkills|
    ensures AnalyzeResume(resumeText, jobDescription).skillsScore == NEUTRAL_SKILLS_SCORE
  {
    var r := AnalyzeResume(resumeText, jobDescription);
    SkillsLaw(resumeText, jobDescription);
    var jdSkills := PhrasesIn(SKILLS, Lower(jobDescription));
    HalfIsFifty(|jdSkills * PhrasesIn(SKILLS, Lower(resumeText))|, |jdSkills|, r.skillsScore);
  }

  /** Helper: `100 * b / (2 * b)` is 50. */
  lemma HalfIsFifty(both: int, total: int, score: int)
    requires total > 0 && 2 * both == total && score == 100 * both / total
    ensures score == 50
  {
    assert 100 * both == 50 * total;
  }

  /**
   * For an empty résumé the keyword, experience and education scores are 0;
   * the skills score is 0 if the job description names a vocabulary skill
   * and 50 otherwise, so the aggregate is 0 or 15 and never shortlists.
   */
  lemma EmptyResume(resumeText: string, jobDescription: string)
    requires |resumeText| == 0
    ensures var r := AnalyzeResume(resumeText, jobDescription);
            var named := PhrasesIn(SKILLS, Lower(jobDescription)) != {};
            && r.keywordScore == 0 && r.experienceScore == 0 && r.educationScore == 0
            && r.matchedKeywords == []
            && r.skillsScore == (if named then 0 else NEUTRAL_SKILLS_SCORE)
            && r.atsScore == (if named then 0 else 15)
            && r.verdict == NotShortlisted
  {
    var resume := Lower(resumeText);
    var r := AnalyzeResume(resumeText, jobDescription);
    EmptyTextFacts(resume);
    KeywordSamples(resumeText, jobDescription);
    KeywordScoreLaw(resumeText, jobDescription);
    HeuristicLaw(resumeText, jobDescription);
    SkillsLaw(resumeText, jobDescription);
    NoResumeSkillScoresZero(PhrasesIn(SKILLS, Lower(jobDescription)), PhrasesIn(SKILLS, resume), r.skillsScore);
  }

  /** Helper: with no résumé skill the skills score is 0, or 50 when nothing is asked. */
  lemma NoResumeSkillScoresZero(jdSkills: set<string>, resumeSkills: set<string>, score: int)
    requires resumeSkills == {}
    requires jdSkills == {} ==> score == NEUTRAL_SKILLS_SCORE
    requires jdSkills != {} ==> score == 100 * |jdSkills * resumeSkills| / |jdSkills|
    ensures score == (if jdSkills != {} then 0 else NEUTRAL_SKILLS_SCORE)
  {
  }

  /** Helper: the empty text has no word and mentions no phrase of any list. */
  lemma EmptyTextFacts(resume: string)
    requires |resume| == 0
    ensures Words(resume) == {}
    ensures PhrasesIn(SKILLS, resume) == {}
    ensures PhrasesIn(EXPERIENCE_MARKERS, resume) == {}
    ensures PhrasesIn(EDUCATION_MARKERS, resume) == {}
  {
    assert FindWords(resume, 0) == [];
    forall p | p != [] ensures !Occurs(p, resume) {
      NothingOccursInEmpty(p);
    }
  }

  /**
   * Skills are found by substring containment: a text that mentions
   * "javascript" is credited with "java" as well.
   */
  lemma JavascriptImpliesJava(text: string)
    requires Occurs("javascript", text)
    ensures "java" in Detected(SKILLS, text) && "javascript" in Detected(SKILLS, text)
  {
    assert "java" in SKILLS && "javascript" in SKILLS by {
      assert SKILLS[1] == "java" && SKILLS[2] == "javascript";
    }
    assert "javascript"[..4] == "java";
    PrefixOccurs("java", "javascript", text);
  }
}
