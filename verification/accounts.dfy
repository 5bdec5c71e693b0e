/**
 * The user and analysis store of the server: a map from e-mail address to
 * user record and an append-only list of analysis records. Loading and
 * saving the two JSON files around every call is not modelled; the two
 * collections are the fields of a `Store` object, changed in place.
 * The password digest (SHA-256 in the source) is a function the store is
 * given when it is created.
 */
module Accounts {
  import opened Optional
  import opened Scoring

  /** A call that either yields a value or fails with the source's message. */
  datatype Outcome<T> = Ok(value: T) | Err(message: string)

  datatype User = User(id: int, name: string, password: string, createdAt: string)

  /** A stored analysis: its own fields followed by the scorer's result. */
  datatype Analysis = Analysis(
    id: int,
    userId: int,
    filename: string,
    jobDescription: string,
    createdAt: string,
    result: AnalysisResult)

  const EMAIL_TAKEN: string := "Email already exists"
  const BAD_CREDENTIALS: string := "Invalid credentials"

  /** `[a for a in analyses if a['user_id'] == user_id]`. */
  function OwnedBy(analyses: seq<Analysis>, userId: int): (r: seq<Analysis>)
    ensures forall a :: a in r <==> a in analyses && a.userId == userId
    ensures |r| <= |analyses|
  {
    if analyses == [] then []
    else
      var rest := OwnedBy(analyses[1..], userId);
      if analyses[0].userId == userId then [analyses[0]] + rest else rest
  }

  /**
   * The filter is a homomorphism of concatenation; with the membership
   * clause above this fixes its result, including the stored order.
   */
  lemma {:induction false} OwnedByAppend(xs: seq<Analysis>, ys: seq<Analysis>, userId: int)
    ensures OwnedBy(xs + ys, userId) == OwnedBy(xs, userId) + OwnedBy(ys, userId)
  {
    if xs == [] {
      assert xs + ys == ys;
    } else {
      assert (xs + ys)[0] == xs[0] && (xs + ys)[1..] == xs[1..] + ys;
      OwnedByAppend(xs[1..], ys, userId);
      if xs[0].userId == userId {
        assert OwnedBy(xs, userId) == [xs[0]] + OwnedBy(xs[1..], userId);
      }
    }
  }

  /** Appending a record extends exactly its owner's listing. */
  lemma OwnedByExtend(xs: seq<Analysis>, a: Analysis, userId: int)
    ensures OwnedBy(xs + [a], userId)
            == if a.userId == userId then OwnedBy(xs, userId) + [a] else OwnedBy(xs, userId)
  {
    OwnedByAppend(xs, [a], userId);
    assert [a][1..] == [];
  }

  /** The first record with both ids, scanning from the oldest. */
  function FirstMatch(analyses: seq<Analysis>, analysisId: int, userId: int): (r: Option<Analysis>)
    ensures r.Some? ==> r.value in analyses && r.value.id == analysisId && r.value.userId == userId
    ensures r.None? ==> forall a :: a in analyses ==> !(a.id == analysisId && a.userId == userId)
  {
    if analyses == [] then None
    else if analyses[0].id == analysisId && analyses[0].userId == userId then Some(analyses[0])
    else FirstMatch(analyses[1..], analysisId, userId)
  }

  /** `FirstMatch` finds the earliest record with both ids. */
  lemma {:induction false} FirstMatchIsFirst(analyses: seq<Analysis>, analysisId: int, userId: int)
    requires FirstMatch(analyses, analysisId, userId).Some?
    ensures exists k :: 0 <= k < |analyses| && analyses[k] == FirstMatch(analyses, analysisId, userId).value
                        && forall j :: 0 <= j < k ==> !(analyses[j].id == analysisId && analyses[j].userId == userId)
  {
    if !(analyses[0].id == analysisId && analyses[0].userId == userId) {
      var rest := analyses[1..];
      FirstMatchIsFirst(rest, analysisId, userId);
      var k :| 0 <= k < |rest| && rest[k] == FirstMatch(rest, analysisId, userId).value
               && forall j :: 0 <= j < k ==> !(rest[j].id == analysisId && rest[j].userId == userId);
      assert analyses[k + 1] == rest[k];
      forall j | 0 <= j < k + 1
        ensures !(analyses[j].id == analysisId && analyses[j].userId == userId)
      {
        if j > 0 { assert analyses[j] == rest[j - 1]; }
      }
    } else {
      assert analyses[0] == FirstMatch(analyses, analysisId, userId).value;
    }
  }

  /** A record appended after records with other ids is the one found by its ids. */
  lemma {:induction false} FirstMatchAppended(xs: seq<Analysis>, a: Analysis)
    requires forall k :: 0 <= k < |xs| ==> xs[k].id != a.id
    ensures FirstMatch(xs + [a], a.id, a.userId) == Some(a)
  {
    if xs == [] {
      assert xs + [a] == [a];
    } else {
      assert (xs + [a])[1..] == xs[1..] + [a];
      FirstMatchAppended(xs[1..], a);
    }
  }

  class Store {
    /** `users.json`: e-mail address to user record. */
    var users: map<string, User>
    /** `analyses.json`: every saved analysis, oldest first. */
    var analyses: seq<Analysis>
    /** `hash_password`. */
    const hash: string -> string

    /**
     * What creating users and saving analyses keeps true: the user ids are
     * 1 to the number of users, one per user, and each analysis id is its
     * position in the list plus one.
     */
    ghost predicate Valid()
      reads this
    {
      && (forall e :: e in users ==> 1 <= users[e].id <= |users|)
      && (forall e1, e2 :: e1 in users && e2 in users && users[e1].id == users[e2].id ==> e1 == e2)
      && (forall k :: 0 <= k < |analyses| ==> analyses[k].id == k + 1)
    }

    /** A store whose files do not exist yet. */
    constructor (hash: string -> string)
      ensures Valid()
      ensures users == map[] && analyses == [] && this.hash == hash
    {
      this.hash := hash;
      users := map[];
      analyses := [];
    }

    /** `create_user(email, password, name)`, stamped with `now`. */
    method CreateUser(email: string, password: string, name: string, now: string) returns (r: Outcome<int>)
      requires Valid()
      modifies this`users
      ensures Valid()
      ensures email in old(users) ==> r == Err(EMAIL_TAKEN) && users == old(users)
      ensures email !in old(users) ==>
                && r == Ok(|old(users)| + 1)
                && users == old(users)[email := User(|old(users)| + 1, name, hash(password), now)]
                && |users| == |old(users)| + 1
    ensures r.Ok? ==> Authenticate(email, password) == Ok(users[email]) && users[email].id == r.value
    {
      if email in users {
        return Err(EMAIL_TAKEN);
      }
      var userId := |users| + 1;
      users := users[email := User(userId, name, hash(password), now)];
      r := Ok(userId);
    }

    /** `authenticate_user(email, password)`. */
    function Authenticate(email: string, password: string): (r: Outcome<User>)
      reads this
      ensures r.Ok? <==> email in users && users[email].password == hash(password)
      ensures r.Ok? ==> r.value == users[email]
      ensures r.Err? ==> r.message == BAD_CREDENTIALS
    {
      if email !in users then Err(BAD_CREDENTIALS)
      else if users[email].password != hash(password) then Err(BAD_CREDENTIALS)
      else Ok(users[email])
    }

    /**
     * `get_user_by_id(user_id)`. The source walks the users in insertion
     * order; the model visits them in any order, which finds the same user
     * because ids are unique (`Valid`).
     */
    method GetUserById(userId: int) returns (r: Option<User>)
      ensures r.Some? ==> exists e :: e in users && users[e] == r.value && r.value.id == userId
      ensures r.None? ==> forall e :: e in users ==> users[e].id != userId
    {
      var pending := users.Keys;
      while pending != {}
        invariant pending <= users.Keys
        invariant forall e :: e in users && e !in pending ==> users[e].id != userId
        decreases pending
      {
        var e :| e in pending;
        if users[e].id == userId {
          return Some(users[e]);
        }
        pending := pending - {e};
      }
      return None;
    }

    /** `save_analysis(user_id, filename, job_description, results)`, stamped with `now`. */
    method SaveAnalysis(userId: int, filename: string, jobDescription: string, result: AnalysisResult, now: string)
      returns (analysisId: int)
      requires Valid()
      modifies this`analyses
      ensures Valid()
      ensures analysisId == |old(analyses)| + 1
      ensures analyses == old(analyses) + [Analysis(analysisId, userId, filename, jobDescription, now, result)]
      ensures UserAnalyses(userId) == old(UserAnalyses(userId)) + [analyses[|analyses| - 1]]
      ensures forall other :: other != userId ==> UserAnalyses(other) == old(UserAnalyses(other))
      ensures FirstMatch(analyses, analysisId, userId) == Some(analyses[|analyses| - 1])
    {
      var analysis := Analysis(|analyses| + 1, userId, filename, jobDescription, now, result);
      FirstMatchAppended(analyses, analysis);
      OwnedByExtend(analyses, analysis, userId);
      forall other | other != userId
        ensures OwnedBy(analyses + [analysis], other) == OwnedBy(analyses, other)
      {
        OwnedByExtend(analyses, analysis, other);
      }
      analyses := analyses + [analysis];
      analysisId := analysis.id;
    }

    /** `get_user_analyses(user_id)`. */
    function UserAnalyses(userId: int): (r: seq<Analysis>)
      reads this
      ensures forall a :: a in r <==> a in analyses && a.userId == userId
    {
      OwnedBy(analyses, userId)
    }

    /**
     * `get_analysis_by_id(analysis_id, user_id)`: the first record with
     * both ids, so another user's analysis is never returned.
     */
    method GetAnalysisById(analysisId: int, userId: int) returns (r: Option<Analysis>)
      ensures r == FirstMatch(analyses, analysisId, userId)
      ensures Valid() ==>
                r == if 1 <= analysisId <= |analyses| && analyses[analysisId - 1].userId == userId
                     then Some(analyses[analysisId - 1]) else None
    {
      for k := 0 to |analyses|
        invariant FirstMatch(analyses[k..], analysisId, userId) == FirstMatch(analyses, analysisId, userId)
      {
        var a := analyses[k];
        if a.id == analysisId && a.userId == userId {
          return Some(a);
        }
        assert analyses[k..][1..] == analyses[k + 1..];
      }
      return None;
    }
  }
}
