/**
 From the filter to the second check (api/search.go): with an index that agrees
 with the database, the check drops no hit that the filters let through.
 */
module SearchEndToEnd {
  import opened Basics
  import opened FilterLanguage
  import opened Access
  import opened SearchFilter
  import opened SearchFilterProperties
  import opened SearchResults

  // ------------------------------------------------- One row, one hit

  /** A stream row of a semester search is accepted exactly when the check allows
      the hit, except for what the filter overlooks. */
  lemma SemesterStreamIsAllowed(user: Option<User>, semester: Semester, s: Stream, c: Course)
    requires IsQuotable(semester.term) && UserAgrees(user, c) && c.KnownVisibility()
    ensures Verdict(SemesterStreamFilter(user, semester), StreamRow(s, c)) ==
            Some(&& c.Term().IsEqual(semester)
                 && Allowed(user, false, StreamHit(Some((s, c))))
                 && !OverlooksStream(user, s, c))
  {
    hide Verdict, SemesterStreamFilter, OverlooksStream;
    StreamFilterExact(user, semester, s, c);
  }

  /** In named courses that the user may see, a stream row is accepted exactly when
      the check allows the hit. */
  lemma NamedStreamIsAllowed(user: Option<User>, namesHidden: bool, courses: seq<Course>, s: Stream, c: Course)
    requires Agrees(courses, c) && (Lists(courses, c) ==> MaySee(user, namesHidden, c))
    ensures Verdict(NamedStreamFilter(user, courses), StreamRow(s, c)) ==
            Some(Lists(courses, c) && Allowed(user, namesHidden, StreamHit(Some((s, c)))))
  {
    hide Verdict, NamedStreamFilter, MaySee;
    NamedStreamFilterExact(user, courses, s, c);
  }

  /** A course row is accepted exactly when it was asked for and the check allows
      the hit, except for what the filter overlooks. */
  lemma CourseIsAllowed(user: Option<User>, namesHidden: bool, first: Semester, last: Semester,
                        semesters: Option<seq<Semester>>, c: Course)
    requires var req := Requested(first, last, semesters);
             Printable(req) && Sensible(req, c.Term())
    requires MeiliSemesterFilter(first, last, semesters) == "" ==> first.year < c.year < last.year
    requires UserAgrees(user, c) && c.KnownVisibility()
    ensures Verdict(MeiliCourseFilter(user, first, last, semesters), CourseRow(c)) ==
            Some(&& Requested(first, last, semesters).Covers(c.Term())
                 && Allowed(user, namesHidden, CourseHit(Some(c)))
                 && !Overlooked(user, c))
  {
    hide Verdict, MeiliCourseFilter, Overlooked;
    CourseFilterExact(user, first, last, semesters, c);
  }

  /** What the named courses say of a stream is what the database says. */
  predicate StreamAgrees(courses: seq<Course>, s: Stream, c: Course) {
    forall i, j :: 0 <= i < |courses| && 0 <= j < |courses[i].streams| && courses[i].streams[j].id == s.id ==>
                     && courses[i].id == c.id && courses[i].ownerId == c.ownerId
                     && courses[i].streams[j].private == s.private
  }

  /** A subtitle row in named courses that the user may see is accepted only if the
      check allows the hit. */
  lemma SubtitleIsAllowed(user: Option<User>, namesHidden: bool, courses: seq<Course>, s: Stream, c: Course)
    requires courses != [] && StreamAgrees(courses, s, c) && MaySee(user, namesHidden, c)
    ensures Verdict(SubtitleFilter(user, courses), SubtitleRow(s.id)) == Some(true) ==>
              Allowed(user, namesHidden, StreamHit(Some((s, c))))
  {
    hide Verdict, SubtitleFilter, MaySee;
    SubtitleFilterExact(user, courses, s.id);
    if SearchableIn(user, courses, s.id) {
      var i :| 0 <= i < |courses| && Offers(user, courses[i], s.id);
      assert IsAdminOfCourse(user, courses[i]) == IsAdminOfCourse(user, c);
    }
  }

  // ----------------------------------------------------- Whole responses

  /** If every hit is allowed, the check only cuts at the limit. */
  lemma AllAllowed(user: Option<User>, namesHidden: bool, limit: nat, hits: seq<Hit>)
    requires limit > 0 && forall h :: h in hits ==> Allowed(user, namesHidden, h)
    ensures Kept(user, namesHidden, limit, hits) == if |hits| <= limit then hits else hits[..limit]
  {
    hide Filter, Allowed;
    FilterAll(hits, (h: Hit) => Allowed(user, namesHidden, h));
  }

  /** Hits in hidden courses, none of them private, are kept for every visitor and
      every user up to the limit where the request names the courses; and otherwise
      only for who administers them. */
  lemma HiddenCoursesWhereNamed(user: Option<User>, limit: nat, rows: seq<(Stream, Course)>)
    requires limit > 0 && forall r :: r in rows ==> r.1.visibility == "hidden" && !r.0.private
    ensures Kept(user, true, limit, StreamHits(rows))
         == if |rows| <= limit then StreamHits(rows) else StreamHits(rows)[..limit]
    ensures (forall r :: r in rows ==> !IsAdminOfCourse(user, r.1)) ==> Kept(user, false, limit, StreamHits(rows)) == []
  {
    hide Filter, IsAdminOfCourse;
    var hits := StreamHits(rows);
    forall h | h in hits ensures Allowed(user, true, h) {
      var i :| 0 <= i < |rows| && h == StreamHit(Some(rows[i]));
      assert rows[i] in rows && rows[i] == (rows[i].0, rows[i].1);
    }
    AllAllowed(user, true, limit, hits);
    if forall r :: r in rows ==> !IsAdminOfCourse(user, r.1) {
      forall h | h in hits ensures !Allowed(user, false, h) {
        var i :| 0 <= i < |rows| && h == StreamHit(Some(rows[i]));
        assert rows[i] in rows && rows[i] == (rows[i].0, rows[i].1);
      }
      FilterNone(hits, (h: Hit) => Allowed(user, false, h));
    }
  }

  function StreamHits(rows: seq<(Stream, Course)>): seq<Hit> {
    seq(|rows|, i requires 0 <= i < |rows| => StreamHit(Some(rows[i])))
  }

  function CourseHits(rows: seq<Course>): seq<Hit> {
    seq(|rows|, i requires 0 <= i < |rows| => CourseHit(Some(rows[i])))
  }

  /** Main result: whatever rows an up-to-date index returns for a semester's
      stream filter, the check keeps them all, up to the limit. */
  lemma FreshStreamsAreKept(user: Option<User>, semester: Semester, rows: seq<(Stream, Course)>, limit: nat)
    requires limit > 0 && IsQuotable(semester.term)
    requires forall r :: r in rows ==> UserAgrees(user, r.1) && r.1.KnownVisibility()
    requires forall r :: r in rows ==> Verdict(SemesterStreamFilter(user, semester), StreamRow(r.0, r.1)) == Some(true)
    ensures Kept(user, false, limit, StreamHits(rows))
         == if |rows| <= limit then StreamHits(rows) else StreamHits(rows)[..limit]
  {
    hide Verdict, SemesterStreamFilter, Allowed, Kept, UserAgrees, OverlooksStream;
    var hits := StreamHits(rows);
    forall h | h in hits ensures Allowed(user, false, h) {
      var i :| 0 <= i < |rows| && h == StreamHit(Some(rows[i]));
      assert rows[i] in rows && rows[i] == (rows[i].0, rows[i].1);
      SemesterStreamIsAllowed(user, semester, rows[i].0, rows[i].1);
    }
    AllAllowed(user, false, limit, hits);
  }

  /** The same for the streams of named courses that the user may see. */
  lemma FreshNamedStreamsAreKept(user: Option<User>, namesHidden: bool, courses: seq<Course>,
                                 rows: seq<(Stream, Course)>, limit: nat)
    requires limit > 0
    requires forall r :: r in rows ==> Agrees(courses, r.1) && (Lists(courses, r.1) ==> MaySee(user, namesHidden, r.1))
    requires forall r :: r in rows ==> Verdict(NamedStreamFilter(user, courses), StreamRow(r.0, r.1)) == Some(true)
    ensures Kept(user, namesHidden, limit, StreamHits(rows))
         == if |rows| <= limit then StreamHits(rows) else StreamHits(rows)[..limit]
  {
    hide Verdict, NamedStreamFilter, Allowed, Kept, Agrees, MaySee, Lists;
    var hits := StreamHits(rows);
    forall h | h in hits ensures Allowed(user, namesHidden, h) {
      var i :| 0 <= i < |rows| && h == StreamHit(Some(rows[i]));
      assert rows[i] in rows && rows[i] == (rows[i].0, rows[i].1);
      NamedStreamIsAllowed(user, namesHidden, courses, rows[i].0, rows[i].1);
    }
    AllAllowed(user, namesHidden, limit, hits);
  }

  /** The same for courses, for both forms of the semester request. */
  lemma FreshCoursesAreKept(user: Option<User>, namesHidden: bool, first: Semester, last: Semester,
                            semesters: Option<seq<Semester>>, rows: seq<Course>, limit: nat)
    requires limit > 0
    requires var req := Requested(first, last, semesters);
             Printable(req) && forall c :: c in rows ==> Sensible(req, c.Term())
    requires MeiliSemesterFilter(first, last, semesters) == "" ==>
               forall c :: c in rows ==> first.year < c.year < last.year
    requires forall c :: c in rows ==> UserAgrees(user, c) && c.KnownVisibility()
    requires forall c :: c in rows ==>
                           Verdict(MeiliCourseFilter(user, first, last, semesters), CourseRow(c)) == Some(true)
    ensures Kept(user, namesHidden, limit, CourseHits(rows))
         == if |rows| <= limit then CourseHits(rows) else CourseHits(rows)[..limit]
  {
    hide Verdict, MeiliCourseFilter, MeiliSemesterFilter, Allowed, Kept, UserAgrees, Sensible, Printable, Overlooked;
    var hits := CourseHits(rows);
    forall h | h in hits ensures Allowed(user, namesHidden, h) {
      var i :| 0 <= i < |rows| && h == CourseHit(Some(rows[i]));
      assert rows[i] in rows;
      CourseIsAllowed(user, namesHidden, first, last, semesters, rows[i]);
    }
    AllAllowed(user, namesHidden, limit, hits);
  }
}
