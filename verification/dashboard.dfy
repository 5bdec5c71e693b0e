/**
 * The browser client's own decisions: the history statistics
 * (`updateStats`) and the checks that stop a sign-up or an analysis request
 * before anything is sent. Drawing the page, `fetch` and local storage are
 * not modelled.
 */
module Dashboard {
  import opened Optional
  import opened Scoring

  /** One row of the history list as the server returns it. */
  datatype HistoryEntry = HistoryEntry(atsScore: int, verdict: string)

  datatype Stats = Stats(total: nat, avgScore: int, shortlisted: nat)

  /** `analyses.reduce((sum, a) => sum + a.ats_score, 0)`. */
  function SumScores(entries: seq<HistoryEntry>): (sum: int)
    ensures (forall i :: 0 <= i < |entries| ==> entries[i].atsScore >= 0) ==> sum >= 0
    ensures (forall i :: 0 <= i < |entries| ==> entries[i].atsScore <= 100) ==> sum <= 100 * |entries|
  {
    if entries == [] then 0 else SumScores(entries[..|entries| - 1]) + entries[|entries| - 1].atsScore
  }

  /** Positions of the rows whose verdict is exactly "Shortlisted". */
  ghost function ShortlistedRows(entries: seq<HistoryEntry>): set<int>
  {
    set i | 0 <= i < |entries| && entries[i].verdict == "Shortlisted"
  }

  /** `analyses.filter(a => a.verdict === 'Shortlisted').length`. */
  function CountShortlisted(entries: seq<HistoryEntry>): (n: nat)
    ensures n == |ShortlistedRows(entries)|
    ensures n <= |entries|
    ensures n == |entries| <==> forall i :: 0 <= i < |entries| ==> entries[i].verdict == "Shortlisted"
  {
    if entries == [] then 0
    else
      var last := |entries| - 1;
      var init := entries[..last];
      assert ShortlistedRows(entries)
             == ShortlistedRows(init) + (if entries[last].verdict == "Shortlisted" then {last} else {});
      CountShortlisted(init) + (if entries[last].verdict == "Shortlisted" then 1 else 0)
  }

  /**
   * `Math.round(num / den)` for a positive `den`: the integer nearest to
   * the quotient, a half rounding up.
   */
  function RoundedQuotient(num: int, den: int): (q: int)
    requires den > 0
    ensures 2 * den * q <= 2 * num + den < 2 * den * (q + 1)
  {
    (2 * num + den) / (2 * den)
  }

  /** `updateStats(analyses)`: count, rounded mean score and shortlisted count. */
  function UpdateStats(entries: seq<HistoryEntry>): (s: Stats)
    ensures s.total == |entries|
    ensures |entries| == 0 ==> s.avgScore == 0
    ensures |entries| > 0 ==>
              2 * |entries| * s.avgScore <= 2 * SumScores(entries) + |entries| < 2 * |entries| * (s.avgScore + 1)
    ensures s.shortlisted == |ShortlistedRows(entries)| <= s.total
  {
    var total := |entries|;
    var avgScore := if total > 0 then RoundedQuotient(SumScores(entries), total) else 0;
    Stats(total, avgScore, CountShortlisted(entries))
  }

  /** The sum of scores in [lo, hi] lies between n * lo and n * hi. */
  lemma {:induction false} SumBounds(entries: seq<HistoryEntry>, lo: int, hi: int)
    requires forall i :: 0 <= i < |entries| ==> lo <= entries[i].atsScore <= hi
    ensures |entries| * lo <= SumScores(entries) <= |entries| * hi
  {
    if entries != [] {
      var init := entries[..|entries| - 1];
      SumBounds(init, lo, hi);
      assert SumScores(entries) == SumScores(init) + entries[|entries| - 1].atsScore;
      MulStep(|init|, lo);
      MulStep(|init|, hi);
    }
  }

  /** Helper: one more row adds one more `x`. */
  lemma MulStep(n: nat, x: int)
    ensures (n + 1) * x == n * x + x
  {
  }

  /** The nearest integer to a mean of values in [0, 100] lies in [0, 100]. */
  lemma RoundedMeanInRange(sum: int, n: int, avg: int)
    requires n > 0 && 0 <= sum <= n * 100
    requires 2 * n * avg <= 2 * sum + n < 2 * n * (avg + 1)
    ensures 0 <= avg <= 100
  {
    RoundedMeanNonNegative(sum, n, avg);
    RoundedMeanAtMostHundred(sum, n, avg);
  }

  /** Helper: a rounded mean of a non-negative sum is non-negative. */
  lemma RoundedMeanNonNegative(sum: int, n: int, avg: int)
    requires n > 0 && 0 <= sum
    requires 2 * sum + n < 2 * n * (avg + 1)
    ensures 0 <= avg
  {
  }

  /** Helper: a rounded mean of at most `n * 100` is at most 100. */
  lemma RoundedMeanAtMostHundred(sum: int, n: int, avg: int)
    requires n > 0 && sum <= n * 100
    requires 2 * n * avg <= 2 * sum + n
    ensures avg <= 100
  {
  }

  /** When every score lies in [0, 100], so does the displayed average. */
  lemma AverageInRange(entries: seq<HistoryEntry>)
    requires forall i :: 0 <= i < |entries| ==> 0 <= entries[i].atsScore <= 100
    ensures 0 <= UpdateStats(entries).avgScore <= 100
  {
    if |entries| > 0 {
      SumBounds(entries, 0, 100);
      RoundedMeanInRange(SumScores(entries), |entries|, UpdateStats(entries).avgScore);
    }
  }

  /** A history row made from a stored result. */
  function EntryOf(r: AnalysisResult): HistoryEntry
  {
    HistoryEntry(r.atsScore, r.verdict.Label())
  }

  /** Number of results that reach the shortlist threshold. */
  function CountPassing(results: seq<AnalysisResult>): nat
  {
    if results == [] then 0
    else
      CountPassing(results[..|results| - 1])
      + (if results[|results| - 1].atsScore >= SHORTLIST_THRESHOLD then 1 else 0)
  }

  /**
   * For rows made from engine results (whose verdict follows the threshold)
   * the shortlisted count is the number of scores of 60 or more.
   */
  lemma {:induction false} ShortlistedCountsPassing(results: seq<AnalysisResult>)
    requires forall i :: 0 <= i < |results| ==> results[i].verdict == VerdictFor(results[i].atsScore)
    ensures UpdateStats(seq(|results|, i requires 0 <= i < |results| => EntryOf(results[i]))).shortlisted
            == CountPassing(results)
  {
    var entries := seq(|results|, i requires 0 <= i < |results| => EntryOf(results[i]));
    RowsCountPassing(results, entries);
  }

  /** Helper: the induction behind `ShortlistedCountsPassing`, row by row. */
  lemma {:induction false} RowsCountPassing(results: seq<AnalysisResult>, entries: seq<HistoryEntry>)
    requires |entries| == |results|
    requires forall i :: 0 <= i < |results| ==> results[i].verdict == VerdictFor(results[i].atsScore)
    requires forall i :: 0 <= i < |results| ==> entries[i] == EntryOf(results[i])
    ensures CountShortlisted(entries) == CountPassing(results)
  {
    if results != [] {
      var last := |results| - 1;
      RowsCountPassing(results[..last], entries[..last]);
      assert (entries[last].verdict == "Shortlisted") == (results[last].atsScore >= SHORTLIST_THRESHOLD);
      assert CountShortlisted(entries)
             == CountShortlisted(entries[..last]) + (if entries[last].verdict == "Shortlisted" then 1 else 0);
      assert CountPassing(results)
             == CountPassing(results[..last]) + (if results[last].atsScore >= SHORTLIST_THRESHOLD then 1 else 0);
    }
  }

  // ---------------------------------------------------------------------
  // Guards run before a request is sent

  /** What the page does next: show an alert and stop, or send the request. */
  datatype Action<Request> = Alert(message: string) | Send(request: Request)

  datatype SignupRequest = SignupRequest(name: string, email: string, password: string)

  const MIN_PASSWORD_LENGTH: nat := 6
  const SHORT_PASSWORD: string := "Password must be at least 6 characters"

  /** `handleSignup`: refuse passwords under six characters. */
  function HandleSignup(name: string, email: string, password: string): (a: Action<SignupRequest>)
    ensures a.Send? <==> |password| >= MIN_PASSWORD_LENGTH
    ensures a.Send? ==> a.request == SignupRequest(name, email, password)
    ensures a.Alert? ==> a.message == SHORT_PASSWORD
  {
    if |password| < MIN_PASSWORD_LENGTH then Alert(SHORT_PASSWORD)
    else Send(SignupRequest(name, email, password))
  }

  /** A logged-in user as the page keeps it; an empty token counts as none. */
  datatype Session = Session(name: string, token: string)

  datatype AnalyzeRequest = AnalyzeRequest(jobDescription: string, token: string)

  const NO_FILE: string := "Please select a resume file"
  const NO_JOB_DESCRIPTION: string := "Please enter a job description"
  const NOT_LOGGED_IN: string := "Please login first"

  /** `WhiteSpace` and `LineTerminator` code points, which `String.prototype.trim` removes. */
  predicate IsJsSpace(c: char)
  {
    || c == '\U{0009}' || c == '\U{000A}' || c == '\U{000B}' || c == '\U{000C}' || c == '\U{000D}'
    || c == '\U{0020}' || c == '\U{00A0}' || c == '\U{1680}'
    || ('\U{2000}' <= c <= '\U{200A}') || c == '\U{2028}' || c == '\U{2029}'
    || c == '\U{202F}' || c == '\U{205F}' || c == '\U{3000}' || c == '\U{FEFF}'
  }

  /** Index of the first character at or after `i` that is not white space. */
  function SkipSpaces(s: string, i: nat): (j: nat)
    requires i <= |s|
    ensures i <= j <= |s|
    ensures forall k :: i <= k < j ==> IsJsSpace(s[k])
    ensures j == |s| || !IsJsSpace(s[j])
    decreases |s| - i
  {
    if i == |s| || !IsJsSpace(s[i]) then i else SkipSpaces(s, i + 1)
  }

  /** End of `s[lo..j]` once its trailing white space is dropped. */
  function DropSpaces(s: string, lo: nat, j: nat): (k: nat)
    requires lo <= j <= |s|
    ensures lo <= k <= j
    ensures forall m :: k <= m < j ==> IsJsSpace(s[m])
    ensures k == lo || !IsJsSpace(s[k - 1])
    decreases j
  {
    if j == lo || !IsJsSpace(s[j - 1]) then j else DropSpaces(s, lo, j - 1)
  }

  /**
   * `s.trim()`: the part of `s` left between a white-space prefix and a
   * white-space suffix, starting and ending with a character that is not
   * white space.
   */
  function Trim(s: string): (r: string)
    ensures |r| <= |s|
    ensures r != [] ==> !IsJsSpace(r[0]) && !IsJsSpace(r[|r| - 1])
    ensures var a := SkipSpaces(s, 0);
            && a + |r| <= |s| && r == s[a..a + |r|]
            && (forall i :: 0 <= i < a ==> IsJsSpace(s[i]))
            && (forall i :: a + |r| <= i < |s| ==> IsJsSpace(s[i]))
  {
    var a := SkipSpaces(s, 0);
    s[a..DropSpaces(s, a, |s|)]
  }

  /** Trimming leaves nothing exactly when the text is all white space. */
  lemma TrimEmptyIffBlank(s: string)
    ensures Trim(s) == [] <==> forall i :: 0 <= i < |s| ==> IsJsSpace(s[i])
  {
    if Trim(s) != [] {
      assert Trim(s)[0] == s[SkipSpaces(s, 0)];
    }
  }

  /**
   * `analyzeResume`: a file must be selected, the trimmed job description
   * must be non-empty, and a user with a token must be logged in, checked
   * in that order; the request carries the untrimmed job description.
   */
  function AnalyzeGuard(fileSelected: bool, jobDescription: string, user: Option<Session>): (a: Action<AnalyzeRequest>)
    ensures !fileSelected ==> a == Alert(NO_FILE)
    ensures fileSelected && Trim(jobDescription) == [] ==> a == Alert(NO_JOB_DESCRIPTION)
    ensures fileSelected && Trim(jobDescription) != [] && (user.None? || user.value.token == [])
            ==> a == Alert(NOT_LOGGED_IN)
    ensures a.Send? <==> fileSelected && Trim(jobDescription) != [] && user.Some? && user.value.token != []
    ensures a.Send? ==> a.request == AnalyzeRequest(jobDescription, user.value.token)
  {
    if !fileSelected then Alert(NO_FILE)
    else if Trim(jobDescription) == [] then Alert(NO_JOB_DESCRIPTION)
    else if user.None? || user.value.token == [] then Alert(NOT_LOGGED_IN)
    else Send(AnalyzeRequest(jobDescription, user.value.token))
  }

  /**
   * A request that leaves the page carries a job description with a
   * character other than white space, so it is never empty.
   */
  lemma SentJobDescriptionNotBlank(fileSelected: bool, jobDescription: string, user: Option<Session>)
    requires AnalyzeGuard(fileSelected, jobDescription, user).Send?
    ensures exists i :: 0 <= i < |jobDescription| && !IsJsSpace(jobDescription[i])
    ensures |jobDescription| > 0
  {
    TrimEmptyIffBlank(jobDescription);
  }
}
