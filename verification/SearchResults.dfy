/**
 The second check on search results (api/search.go, checkAndFillResponse): the
 hits of each index are checked against the database and cut at the limit.
 */
module SearchResults {
  import opened Basics
  import opened Access

  /** What the database knows about one hit; `None` is a failed lookup. */
  datatype Hit =
    | StreamHit(stream: Option<(Stream, Course)>)
    | CourseHit(course: Option<Course>)

  /** The result of one index; `Streams` stands for streams and subtitles, whose
      hits are checked alike. */
  datatype SearchResult = Streams(hits: seq<Hit>) | Courses(hits: seq<Hit>) | Other(hits: seq<Hit>)

  /** Hits of a course the request names may be hidden; others may not. */
  predicate MaySee(user: Option<User>, namesHidden: bool, course: Course) {
    if namesHidden then IsEligibleToWatchCourse(user, course) else IsEligibleToSearchForCourse(user, course)
  }

  predicate Allowed(user: Option<User>, namesHidden: bool, hit: Hit) {
    match hit
    case StreamHit(Some((s, c))) => MaySee(user, namesHidden, c) && (!s.private || IsAdminOfCourse(user, c))
    case CourseHit(Some(c)) => IsEligibleToSearchForCourse(user, c)
    case _ => false
  }

  function AllowedHits(user: Option<User>, namesHidden: bool, hits: seq<Hit>): seq<Hit> {
    Filter(hits, (h: Hit) => Allowed(user, namesHidden, h))
  }

  lemma {:induction false} FilterOfPrefix<T(!new)>(s: seq<T>, n: nat, keep: T -> bool)
    requires n <= |s|
    ensures Filter(s[..n], keep) <= Filter(s, keep)
    decreases |s| - n
  {
    if n < |s| {
      FilterOfPrefix(s, n + 1, keep);
      assert s[..n + 1][..n] == s[..n];
    } else {
      assert s[..n] == s;
    }
  }

  /** A stream that cannot be looked up is passed over; a course that cannot be
      looked up is not. */
  predicate PassedOver(hit: Hit) {
    hit.StreamHit? && hit.stream.None?
  }

  /** The first hit not passed over, if there is one. */
  function FirstSettled(hits: seq<Hit>): (r: seq<Hit>)
    ensures |r| <= 1 && forall h :: h in r ==> h in hits
  {
    if hits == [] then []
    else if PassedOver(hits[0]) then FirstSettled(hits[1..])
    else [hits[0]]
  }

  /** With a positive limit, the first `limit` allowed hits in order; with limit 0,
      the first hit that is not passed over, if it is allowed. */
  function Kept(user: Option<User>, namesHidden: bool, limit: nat, hits: seq<Hit>): seq<Hit> {
    var allowed := AllowedHits(user, namesHidden, hits);
    if limit == 0 then AllowedHits(user, namesHidden, FirstSettled(hits))
    else if |allowed| <= limit then allowed
    else allowed[..limit]
  }

  lemma {:induction false} PassOver(hits: seq<Hit>, n: nat)
    requires n <= |hits| && forall k :: 0 <= k < n ==> PassedOver(hits[k])
    ensures FirstSettled(hits) == FirstSettled(hits[n..])
    decreases n
  {
    if n > 0 {
      PassOver(hits[1..], n - 1);
      assert hits[1..][n - 1..] == hits[n..];
    }
  }

  /** With limit 0, streams that cannot be looked up are passed over, and the first
      other hit is the only one that may be kept. */
  lemma LimitZeroExactly(user: Option<User>, namesHidden: bool, hits: seq<Hit>, k: nat)
    requires k <= |hits| && forall i :: 0 <= i < k ==> hits[i] == StreamHit(None)
    requires k < |hits| ==> hits[k] != StreamHit(None)
    ensures Kept(user, namesHidden, 0, hits) ==
            if k < |hits| && Allowed(user, namesHidden, hits[k]) then [hits[k]] else []
  {
    hide Allowed, Filter;
    PassOver(hits, k);
    if k < |hits| {
      KeptOfOne(user, namesHidden, hits[k]);
      assert FirstSettled(hits[k..]) == [hits[k]];
    } else {
      FilterNone([], (h: Hit) => Allowed(user, namesHidden, h));
    }
  }

  lemma KeptOfOne(user: Option<User>, namesHidden: bool, hit: Hit)
    ensures AllowedHits(user, namesHidden, [hit]) == if Allowed(user, namesHidden, hit) then [hit] else []
  {
    var keep := (h: Hit) => Allowed(user, namesHidden, h);
    FilterNone([], keep);
    assert [hit][..1] == [hit] && [hit][..0] == [];
    FilterOneMore([hit], 0, keep);
  }

  /** One index. */
  method CheckHits(user: Option<User>, namesHidden: bool, limit: nat, hits: seq<Hit>) returns (kept: seq<Hit>)
    ensures kept == Kept(user, namesHidden, limit, hits)
  {
    hide Allowed, Filter;
    var keep := (h: Hit) => Allowed(user, namesHidden, h);
    kept := [];
    FilterNone([], keep);
    for i := 0 to |hits|
      invariant kept == Filter(hits[..i], keep) == AllowedHits(user, namesHidden, hits[..i])
      invariant |kept| < limit || (limit == 0 && kept == [])
      invariant limit == 0 ==> forall k :: 0 <= k < i ==> PassedOver(hits[k])
    {
      FilterOfPrefix(hits, i + 1, keep);
      FilterOneMore(hits, i, keep);
      if PassedOver(hits[i]) {
        assert !Allowed(user, namesHidden, hits[i]) by { PassedOverIsNotAllowed(user, namesHidden, hits[i]); }
        continue;
      }
      if Allowed(user, namesHidden, hits[i]) {
        kept := kept + [hits[i]];
      }
      if |kept| >= limit {
        PassOverUnlessLimited(limit, hits, i);
        KeptOfOne(user, namesHidden, hits[i]);
        return;
      }
    }
    assert hits[..|hits|] == hits;
    if limit == 0 {
      PassOver(hits, |hits|);
    }
  }

  lemma FilterOneMore(s: seq<Hit>, i: nat, keep: Hit -> bool)
    requires i < |s|
    ensures Filter(s[..i + 1], keep) == Filter(s[..i], keep) + (if keep(s[i]) then [s[i]] else [])
  {
    assert s[..i + 1][..i] == s[..i];
  }

  lemma PassedOverIsNotAllowed(user: Option<User>, namesHidden: bool, hit: Hit)
    requires PassedOver(hit)
    ensures !Allowed(user, namesHidden, hit)
  {
  }

  lemma PassOverUnlessLimited(limit: nat, hits: seq<Hit>, i: nat)
    requires i < |hits| && !PassedOver(hits[i])
    requires limit == 0 ==> forall k :: 0 <= k < i ==> PassedOver(hits[k])
    ensures limit == 0 ==> FirstSettled(hits) == [hits[i]]
  {
    if limit == 0 {
      PassOver(hits, i);
    }
  }

  predicate Checked(user: Option<User>, namesHidden: bool, limit: nat, before: SearchResult, after: SearchResult) {
    if before.Other? then after == before
    else after == before.(hits := Kept(user, namesHidden, limit, before.hits))
  }

  /** The whole response, index by index and in place. */
  method CheckAndFillResponse(user: Option<User>, namesHidden: bool, limit: nat, results: array<SearchResult>)
    modifies results
    ensures forall i :: 0 <= i < results.Length ==>
                          Checked(user, namesHidden, limit, old(results[i]), results[i])
  {
    hide Checked;
    for i := 0 to results.Length
      invariant forall j :: 0 <= j < i ==> Checked(user, namesHidden, limit, old(results[j]), results[j])
      invariant forall j :: i <= j < results.Length ==> results[j] == old(results[j])
    {
      results[i] := CheckResult(user, namesHidden, limit, results[i]);
    }
  }

  method CheckResult(user: Option<User>, namesHidden: bool, limit: nat, before: SearchResult)
    returns (after: SearchResult)
    ensures Checked(user, namesHidden, limit, before, after)
  {
    hide Kept;
    after := before;
    if !before.Other? {
      var hits := CheckHits(user, namesHidden, limit, before.hits);
      after := before.(hits := hits);
    }
  }

  /** However stale the index, a checked hit is one the database allows, and no
      allowed hit is lost while the limit leaves room. */
  lemma OnlyAllowedHits(user: Option<User>, namesHidden: bool, limit: nat, before: SearchResult, after: SearchResult)
    requires Checked(user, namesHidden, limit, before, after) && !before.Other?
    ensures forall h :: h in after.hits ==> h in before.hits && Allowed(user, namesHidden, h)
    ensures 0 < limit && |after.hits| < limit ==>
              forall h :: h in before.hits && Allowed(user, namesHidden, h) ==> h in after.hits
  {
    hide Allowed, FirstSettled;
    forall h | h in after.hits ensures h in before.hits && Allowed(user, namesHidden, h) {
      KeptIsAllowed(user, namesHidden, limit, before.hits, h);
    }
  }

  lemma KeptIsAllowed(user: Option<User>, namesHidden: bool, limit: nat, hits: seq<Hit>, h: Hit)
    requires h in Kept(user, namesHidden, limit, hits)
    ensures h in hits && Allowed(user, namesHidden, h)
  {
    hide Allowed;
    assert h in AllowedHits(user, namesHidden, hits) || h in AllowedHits(user, namesHidden, FirstSettled(hits));
  }
}
