/**
 Meaning preservation of the search filters (api/search.go): read back as the
 index reads them, the printed texts accept exactly the rows that the access
 checks on users and courses (model/user.go) allow.
 */
module SearchFilterProperties {
  import opened Basics
  import opened FilterLanguage
  import opened Access
  import opened SearchFilter

  // --------------------------------------------------------- Index rows

  /** The exported rows (tools/meiliExporter.go). */
  function CourseRow(c: Course): Row {
    map["ID" := Num(c.id), "visibility" := Str(c.visibility), "year" := Num(c.year), "semester" := Str(c.term)]
  }

  function StreamRow(s: Stream, c: Course): Row {
    map["ID" := Num(s.id), "courseID" := Num(c.id), "visibility" := Str(c.visibility),
        "year" := Num(c.year), "semester" := Str(c.term), "private" := Num(if s.private then 1 else 0)]
  }

  function SubtitleRow(streamID: nat): Row {
    map["streamID" := Num(streamID)]
  }

  /** The course lists of a user agree with the course they name. */
  predicate Agrees(courses: seq<Course>, c: Course) {
    forall i :: 0 <= i < |courses| && courses[i].id == c.id ==>
                  courses[i].ownerId == c.ownerId && courses[i].Term() == c.Term()
  }

  predicate UserAgrees(user: Option<User>, c: Course) {
    user.Some? ==> Agrees(user.value.courses, c) && Agrees(user.value.administeredCourses, c)
  }

  // ---------------------------------------------------------- Semesters

  predicate Printable(req: Request) {
    match req
    case Range(first, last) => IsQuotable(first.term) && IsQuotable(last.term)
    case Listed(semesters) => semesters != [] && forall i :: 0 <= i < |semesters| ==> IsQuotable(semesters[i].term)
  }

  /** A range is one semester, or runs forward between proper semesters. */
  predicate Sensible(req: Request, s: Semester) {
    req.Range? ==>
      || req.first.IsEqual(req.last)
      || (req.first.Proper() && req.last.Proper() && s.Proper() && req.first.Index() <= req.last.Index())
  }

  predicate AtSemester(row: Row, s: Semester) {
    "year" in row && row["year"] == Num(s.year) && "semester" in row && row["semester"] == Str(s.term)
  }

  lemma OneSemester(wanted: Semester, s: Semester, row: Row)
    requires AtSemester(row, s)
    ensures AcceptsAtom(IsSemester(wanted), row) <==> s.IsEqual(wanted)
  {
    hide Holds;
    AcceptsBoth(Test(Equal("year", Num(wanted.year))), Test(Equal("semester", Str(wanted.term))), row);
    TestSemester(wanted, s, row);
  }

  lemma TestSemester(wanted: Semester, s: Semester, row: Row)
    requires AtSemester(row, s)
    ensures AcceptsAtom(Test(Equal("year", Num(wanted.year))), row) <==> s.year == wanted.year
    ensures AcceptsAtom(Test(Equal("semester", Str(wanted.term))), row) <==> s.term == wanted.term
    ensures AcceptsAtom(Test(Greater("year", wanted.year)), row) <==> s.year > wanted.year
    ensures AcceptsAtom(Test(Less("year", wanted.year)), row) <==> s.year < wanted.year
  {
  }

  lemma AcceptsBoth(a: Atom, b: Atom, row: Row)
    ensures AcceptsAny(Last(And(a, Final(b))), row) <==> AcceptsAtom(a, row) && AcceptsAtom(b, row)
    ensures AcceptsAtom(Group(Last(And(a, Final(b)))), row) <==> AcceptsAtom(a, row) && AcceptsAtom(b, row)
  {
    assert AcceptsAll(And(a, Final(b)), row) <==> AcceptsAtom(a, row) && AcceptsAll(Final(b), row);
    assert AcceptsAny(Last(And(a, Final(b))), row) <==> AcceptsAll(And(a, Final(b)), row);
  }

  lemma AcceptsOne(a: Atom, row: Row)
    ensures AcceptsAny(Last(Final(a)), row) <==> AcceptsAtom(a, row)
    ensures AcceptsAtom(Group(Last(Final(a))), row) <==> AcceptsAtom(a, row)
  {
    assert AcceptsAll(Final(a), row) <==> AcceptsAtom(a, row);
    assert AcceptsAny(Last(Final(a)), row) <==> AcceptsAll(Final(a), row);
  }

  lemma AcceptsEither(a: Atom, d: Disjunction, row: Row)
    ensures AcceptsAny(Or(Final(a), d), row) <==> AcceptsAtom(a, row) || AcceptsAny(d, row)
    ensures AcceptsAtom(Group(Or(Final(a), d)), row) <==> AcceptsAtom(a, row) || AcceptsAny(d, row)
  {
    assert AcceptsAll(Final(a), row) <==> AcceptsAtom(a, row);
    assert AcceptsAny(Or(Final(a), d), row) <==> AcceptsAll(Final(a), row) || AcceptsAny(d, row);
  }

  lemma {:induction false} ListedSemesters(semesters: seq<Semester>, s: Semester, row: Row)
    requires semesters != [] && AtSemester(row, s)
    ensures AcceptsAny(AnyOfSemesters(semesters), row) <==> s.IsInRangeOfSemesters(semesters)
  {
    OneSemester(semesters[0], s, row);
    if |semesters| == 1 {
      AcceptsOne(IsSemester(semesters[0]), row);
    } else {
      ListedSemesters(semesters[1..], s, row);
      AcceptsEither(IsSemester(semesters[0]), AnyOfSemesters(semesters[1..]), row);
      assert forall i :: 0 < i < |semesters| ==> semesters[i] == semesters[1..][i - 1];
      assert forall i :: 0 <= i < |semesters[1..]| ==> semesters[1..][i] == semesters[i + 1];
    }
  }

  /** The semester filter accepts a row exactly when its semester was asked for. */
  lemma SemesterFilterMeaning(req: Request, s: Semester, row: Row)
    requires Printable(req) && Sensible(req, s) && AtSemester(row, s)
    ensures AcceptsAtom(SemesterAtom(req), row) <==> req.Covers(s)
  {
    hide Holds, AcceptsAtom, AcceptsAny, IsSemester;
    match req
    case Listed(semesters) =>
      ListedSemesters(semesters, s, row);
      AcceptsGroup(AnyOfSemesters(semesters), row);
    case Range(first, last) =>
      OneSemester(first, s, row);
      OneSemester(last, s, row);
      TestSemester(first, s, row);
      TestSemester(last, s, row);
      AcceptsBoth(Test(Greater("year", first.year)), Test(Less("year", last.year)), row);
      var f, b, l := FirstAtom(first), BetweenAtom(first, last), LastAtom(last);
      AcceptsOne(l, row);
      AcceptsEither(b, Last(Final(l)), row);
      AcceptsEither(f, Last(Final(l)), row);
      AcceptsEither(f, Or(Final(b), Last(Final(l))), row);
  }

  lemma AcceptsGroup(d: Disjunction, row: Row)
    ensures AcceptsAtom(Group(d), row) <==> AcceptsAny(d, row)
  {
  }

  lemma WellFormedParts(a: Atom, b: Atom, d: Disjunction)
    ensures WellFormedAll(Final(a)) <==> WellFormedAtom(a)
    ensures WellFormedAny(Last(Final(a))) <==> WellFormedAtom(a)
    ensures WellFormedAll(And(a, Final(b))) <==> WellFormedAtom(a) && WellFormedAtom(b)
    ensures WellFormedAny(Last(And(a, Final(b)))) <==> WellFormedAtom(a) && WellFormedAtom(b)
    ensures WellFormedAny(Or(Final(a), d)) <==> WellFormedAtom(a) && WellFormedAny(d)
    ensures WellFormedAny(Or(And(a, Final(b)), d)) <==> WellFormedAtom(a) && WellFormedAtom(b) && WellFormedAny(d)
    ensures WellFormedAtom(Group(d)) <==> WellFormedAny(d)
  {
    assert WellFormedAll(Final(b)) <==> WellFormedAtom(b);
    assert WellFormedAll(And(a, Final(b))) <==> WellFormedAtom(a) && WellFormedAll(Final(b));
    assert WellFormedAll(Final(a)) <==> WellFormedAtom(a);
  }

  lemma SemesterAtomWellFormed(req: Request)
    requires Printable(req)
    ensures WellFormedAtom(SemesterAtom(req))
  {
    hide WellFormedAtom, WellFormedAny, IsSemester;
    match req
    case Listed(semesters) =>
      SemestersWellFormed(semesters);
      WellFormedParts(IsSemester(semesters[0]), IsSemester(semesters[0]), AnyOfSemesters(semesters));
    case Range(first, last) =>
      SemesterWellFormed(first);
      SemesterWellFormed(last);
      var f, b, l := FirstAtom(first), BetweenAtom(first, last), LastAtom(last);
      var after, before := Test(Greater("year", first.year)), Test(Less("year", last.year));
      WellFormedParts(after, before, Last(And(after, Final(before))));
      WellFormedParts(l, l, Last(Final(l)));
      WellFormedParts(f, f, Last(Final(l)));
      WellFormedParts(b, b, Last(Final(l)));
      WellFormedParts(f, f, Or(Final(b), Last(Final(l))));
      WellFormedParts(f, f, Or(Final(f), Or(Final(b), Last(Final(l)))));
      WellFormedParts(f, f, Or(Final(f), Last(Final(l))));
      assert WellFormedAtom(after) && WellFormedAtom(before) && WellFormedAtom(f) && WellFormedAtom(l) by {
        YearsWellFormed(first.year);
        YearsWellFormed(last.year);
      }
  }

  lemma YearsWellFormed(year: int)
    ensures WellFormedAtom(Test(Greater("year", year)))
    ensures WellFormedAtom(Test(Less("year", year)))
    ensures WellFormedAtom(Test(Equal("year", Num(year))))
  {
  }

  lemma SemesterWellFormed(s: Semester)
    requires IsQuotable(s.term)
    ensures WellFormedAtom(IsSemester(s))
  {
    var year, term := Test(Equal("year", Num(s.year))), Test(Equal("semester", Str(s.term)));
    assert WellFormedAtom(year) && WellFormedAtom(term);
    WellFormedParts(year, term, Last(And(year, Final(term))));
  }

  lemma {:induction false} SemestersWellFormed(semesters: seq<Semester>)
    requires semesters != [] && forall i :: 0 <= i < |semesters| ==> IsQuotable(semesters[i].term)
    ensures WellFormedAny(AnyOfSemesters(semesters))
  {
    SemesterWellFormed(semesters[0]);
    if |semesters| > 1 {
      SemestersWellFormed(semesters[1..]);
    }
  }

  // --------------------------------------------------------- Id lists

  lemma IdsMean(courses: seq<Course>, id: nat)
    ensures id in Ids(courses) <==> exists i :: 0 <= i < |courses| && courses[i].id == id
  {
    if i :| 0 <= i < |courses| && courses[i].id == id {
      assert Ids(courses)[i] == id;
    }
  }

  lemma InMeans(field: string, ids: seq<nat>, id: nat, row: Row)
    requires field in row && row[field] == Num(id)
    ensures AcceptsAtom(Test(In(field, ids)), row) <==> id in ids
  {
  }

  /** Membership in a filtered course list. */
  lemma ListedIn(courses: seq<Course>, keep: Course -> bool, c: Course, kept: bool)
    requires forall x: Course :: x in courses && x.id == c.id ==> keep(x) == kept
    ensures c.id in Ids(Filter(courses, keep)) <==> Lists(courses, c) && kept
  {
    var listed := Filter(courses, keep);
    IdsMean(listed, c.id);
    if c.id in Ids(listed) {
      var i :| 0 <= i < |listed| && listed[i].id == c.id;
      assert listed[i] in courses;
    }
    if Lists(courses, c) && kept {
      var i :| 0 <= i < |courses| && courses[i].id == c.id;
      assert courses[i] in courses && courses[i] in listed;
      var j :| 0 <= j < |listed| && listed[j] == courses[i];
      assert listed[j].id == c.id;
    }
  }

  lemma UserLists(u: User, req: Request, c: Course)
    requires UserAgrees(Some(u), c)
    ensures c.id in Ids(AdministeredIn(u, req)) <==> Lists(u.administeredCourses, c) && req.Covers(c.Term())
    ensures c.id in Ids(EnrolledIn(u, req)) <==>
              Lists(u.courses, c) && req.Covers(c.Term()) && !IsAdminOfCourse(Some(u), c)
  {
    ListedIn(u.administeredCourses, (x: Course) => req.Covers(x.Term()), c, req.Covers(c.Term()));
    forall x: Course | x in u.courses && x.id == c.id
      ensures IsAdminOfCourse(Some(u), x) == IsAdminOfCourse(Some(u), c) && x.Term() == c.Term()
    {
    }
    ListedIn(u.courses, (x: Course) => req.Covers(x.Term()) && !IsAdminOfCourse(Some(u), x), c,
             req.Covers(c.Term()) && !IsAdminOfCourse(Some(u), c));
  }

  // ------------------------------------------------------- Permissions

  lemma VisibilityMeans(v: string, w: string, row: Row)
    requires "visibility" in row && row["visibility"] == Str(w)
    ensures AcceptsAtom(HasVisibility(v), row) <==> v == w
    ensures IsQuotable(v) ==> WellFormedAtom(HasVisibility(v))
  {
  }

  predicate OpenTo(c: Course, enrolled: bool) {
    c.IsLoggedIn() || c.IsPublic() || (c.IsEnrolled() && enrolled)
  }

  lemma OpenToUserMeans(field: string, enrolled: seq<nat>, c: Course, row: Row)
    requires "visibility" in row && row["visibility"] == Str(c.visibility)
    requires IsWord(field) && field in row && row[field] == Num(c.id)
    ensures AcceptsAny(OpenToUser(field, enrolled), row) <==> OpenTo(c, c.id in enrolled)
    ensures WellFormedAny(OpenToUser(field, enrolled))
  {
    hide AcceptsAtom, AcceptsAny, WellFormedAtom, WellFormedAny, HasVisibility;
    var member := EnrolledAtom(field, enrolled);
    EnrolledMeans(field, enrolled, c, row);
    VisibilityMeans("loggedin", c.visibility, row);
    VisibilityMeans("public", c.visibility, row);
    AcceptsOne(member, row);
    AcceptsEither(HasVisibility("public"), Last(Final(member)), row);
    AcceptsEither(HasVisibility("loggedin"), Or(Final(HasVisibility("public")), Last(Final(member))), row);
    WellFormedParts(member, member, Last(Final(member)));
    WellFormedParts(HasVisibility("public"), member, Last(Final(member)));
    WellFormedParts(HasVisibility("loggedin"), member, Or(Final(HasVisibility("public")), Last(Final(member))));
  }

  lemma EnrolledMeans(field: string, enrolled: seq<nat>, c: Course, row: Row)
    requires "visibility" in row && row["visibility"] == Str(c.visibility)
    requires IsWord(field) && field in row && row[field] == Num(c.id)
    ensures AcceptsAtom(EnrolledAtom(field, enrolled), row) <==> c.IsEnrolled() && c.id in enrolled
    ensures WellFormedAtom(EnrolledAtom(field, enrolled))
  {
    var isEnrolled, isIn := HasVisibility("enrolled"), Test(In(field, enrolled));
    VisibilityMeans("enrolled", c.visibility, row);
    InMeans(field, enrolled, c.id, row);
    AcceptsBoth(isEnrolled, isIn, row);
    WellFormedParts(isEnrolled, isIn, Last(And(isEnrolled, Final(isIn))));
  }

  lemma OpenOrListedMeans(field: string, enrolled: seq<nat>, administered: seq<nat>, c: Course, row: Row)
    requires "visibility" in row && row["visibility"] == Str(c.visibility)
    requires IsWord(field) && field in row && row[field] == Num(c.id)
    ensures AcceptsAny(OpenOrListed(field, enrolled, administered), row) <==>
              OpenTo(c, c.id in enrolled) || c.id in administered
    ensures WellFormedAny(OpenOrListed(field, enrolled, administered))
  {
    hide AcceptsAtom, AcceptsAny, WellFormedAtom, WellFormedAny, HasVisibility;
    var member, listed := EnrolledAtom(field, enrolled), Test(In(field, administered));
    EnrolledMeans(field, enrolled, c, row);
    VisibilityMeans("loggedin", c.visibility, row);
    VisibilityMeans("public", c.visibility, row);
    InMeans(field, administered, c.id, row);
    InWellFormed(field, administered);
    var tail := Or(Final(member), Last(Final(listed)));
    AcceptsOne(listed, row);
    AcceptsEither(member, Last(Final(listed)), row);
    AcceptsEither(HasVisibility("public"), tail, row);
    AcceptsEither(HasVisibility("loggedin"), Or(Final(HasVisibility("public")), tail), row);
    WellFormedParts(listed, member, Last(Final(listed)));
    WellFormedParts(member, member, Last(Final(listed)));
    WellFormedParts(HasVisibility("public"), member, tail);
    WellFormedParts(HasVisibility("loggedin"), member, Or(Final(HasVisibility("public")), tail));
  }

  lemma InWellFormed(field: string, ids: seq<nat>)
    requires IsWord(field)
    ensures WellFormedAtom(Test(In(field, ids)))
  {
  }

  // ------------------------------------------------------ Course filter

  /** The one kind of course the filter overlooks: the user owns it, is not
      listed among its admins, and nobody else may see it. */
  predicate Overlooked(user: Option<User>, c: Course) {
    && user.Some? && user.value.role != ADMIN_TYPE
    && c.ownerId == user.value.id && !Lists(user.value.administeredCourses, c)
    && (c.IsHidden() || c.IsEnrolled())
  }

  lemma CoursePermissionMeans(user: Option<User>, req: Request, c: Course)
    requires UserAgrees(user, c) && c.KnownVisibility() && req.Covers(c.Term())
    requires user.Some? ==> user.value.role != ADMIN_TYPE
    ensures AcceptsAtom(CoursePermission(user, req), CourseRow(c)) <==>
              IsEligibleToSearchForCourse(user, c) && !Overlooked(user, c)
    ensures WellFormedAtom(CoursePermission(user, req))
  {
    hide AcceptsAtom, AcceptsAny, WellFormedAtom, WellFormedAny, HasVisibility, OpenToUser, OpenOrListed, Ids,
      AdministeredIn, EnrolledIn;
    var row := CourseRow(c);
    match user
    case None =>
      VisibilityMeans("public", c.visibility, row);
      AcceptsOne(HasVisibility("public"), row);
      WellFormedParts(HasVisibility("public"), HasVisibility("public"), Last(Final(HasVisibility("public"))));
    case Some(u) =>
      var enrolled, administered := Ids(EnrolledIn(u, req)), Ids(AdministeredIn(u, req));
      UserLists(u, req, c);
      OpenToUserMeans("ID", enrolled, c, row);
      OpenOrListedMeans("ID", enrolled, administered, c, row);
      AcceptsGroup(OpenToUser("ID", enrolled), row);
      AcceptsGroup(OpenOrListed("ID", enrolled, administered), row);
      var p := HasVisibility("public");
      WellFormedParts(p, p, OpenToUser("ID", enrolled));
      WellFormedParts(p, p, OpenOrListed("ID", enrolled, administered));
  }

  /** Main result for courses, for visitors, users and site admins, any course
      lists, and both forms of the semester request: the text accepts a course
      row exactly when the course was asked for and may be searched, except for
      the courses overlooked; and it never accepts more than is allowed. The
      empty semester text stands for all years strictly inside its range. */
  lemma CourseFilterExact(user: Option<User>, first: Semester, last: Semester, semesters: Option<seq<Semester>>,
                          c: Course)
    requires var req := Requested(first, last, semesters);
             Printable(req) && Sensible(req, c.Term())
    requires MeiliSemesterFilter(first, last, semesters) == "" ==> first.year < c.year < last.year
    requires UserAgrees(user, c) && c.KnownVisibility()
    ensures var req := Requested(first, last, semesters);
            var asked := req.Covers(c.Term()) && IsEligibleToSearchForCourse(user, c);
            var verdict := Verdict(MeiliCourseFilter(user, first, last, semesters), CourseRow(c));
            && verdict == Some(asked && !Overlooked(user, c))
            && (verdict == Some(asked) <==> !(req.Covers(c.Term()) && Overlooked(user, c)))
  {
    hide AcceptsAtom, AcceptsAny, WellFormedAtom, WellFormedAny, MeiliSemesterFilter, CoursePermissionText,
      CoursePermission, SemesterAtom, Read;
    var req := Requested(first, last, semesters);
    var row := CourseRow(c);
    var s, p := SemesterAtom(req), CoursePermission(user, req);
    SemesterFilterMeaning(req, c.Term(), row);
    SemesterAtomWellFormed(req);
    AcceptsOne(s, row);
    WellFormedParts(s, s, Last(Final(s)));
    ShortcutMeans(first, last, semesters, c);
    if user.None? || user.value.role != ADMIN_TYPE {
      PermissionSides(user, req, c);
      AcceptsOne(p, row);
      AcceptsBoth(p, s, row);
      var both := Group(Last(And(p, Final(s))));
      AcceptsOne(both, row);
      WellFormedParts(p, s, Last(And(p, Final(s))));
      WellFormedParts(both, s, Last(Final(both)));
      CourseFilterIsNotEmpty(user, first, last, semesters);
    }
    if MeiliCourseFilter(user, first, last, semesters) != "" {
      CourseFilterSpells(user, first, last, semesters);
      VerdictOfText(CourseFilter(user, first, last, semesters), row);
    }
  }

  const Owner := User(7, 4, [], [])
  const OwnCourse := Course(3, 7, "hidden", 2024, "W", [])

  /** A course its owner may search and does not find. */
  lemma OwnHiddenCourseIsOverlooked()
    ensures var winter := Semester("W", 2024);
            && IsEligibleToSearchForCourse(Some(Owner), OwnCourse)
            && Verdict(MeiliCourseFilter(Some(Owner), winter, winter, None), CourseRow(OwnCourse)) == Some(false)
  {
    hide MeiliCourseFilter, Verdict;
    var winter := Semester("W", 2024);
    assert Requested(winter, winter, None) == Range(winter, winter);
    assert MeiliSemesterFilter(winter, winter, None) != "" by { SemesterIsPrinted(winter); }
    CourseFilterExact(Some(Owner), winter, winter, None, OwnCourse);
  }

  /** A site admin finds the same course. */
  lemma SiteAdminFindsAll()
    ensures var winter := Semester("W", 2024);
            Verdict(MeiliCourseFilter(Some(User(8, 1, [], [])), winter, winter, None), CourseRow(OwnCourse))
            == Some(true)
  {
    hide MeiliCourseFilter, Verdict;
    var winter := Semester("W", 2024);
    assert Requested(winter, winter, None) == Range(winter, winter);
    assert MeiliSemesterFilter(winter, winter, None) != "" by { SemesterIsPrinted(winter); }
    CourseFilterExact(Some(User(8, 1, [], [])), winter, winter, None, OwnCourse);
  }

  lemma SemesterIsPrinted(s: Semester)
    requires s.year >= 1900
    ensures MeiliSemesterFilter(s, s, None) != ""
  {
    assert MeiliSemesterFilter(s, s, None)[0] == '(';
  }

  lemma ShortcutMeans(first: Semester, last: Semester, semesters: Option<seq<Semester>>, c: Course)
    requires semesters != Some([])
    requires MeiliSemesterFilter(first, last, semesters) == "" ==> first.year < c.year < last.year
    ensures MeiliSemesterFilter(first, last, semesters) == "" ==> Requested(first, last, semesters).Covers(c.Term())
  {
    if semesters.Some? {
      SemesterListSpells(semesters.value);
      assert |MeiliSemesterFilter(first, last, semesters)| >= 2;
    }
  }

  lemma PermissionSides(user: Option<User>, req: Request, c: Course)
    requires UserAgrees(user, c) && c.KnownVisibility()
    requires user.Some? ==> user.value.role != ADMIN_TYPE
    ensures req.Covers(c.Term()) ==>
              (AcceptsAtom(CoursePermission(user, req), CourseRow(c)) <==>
               IsEligibleToSearchForCourse(user, c) && !Overlooked(user, c))
    ensures WellFormedAtom(CoursePermission(user, req))
  {
    hide CoursePermission, AcceptsAtom, WellFormedAtom;
    if req.Covers(c.Term()) {
      CoursePermissionMeans(user, req, c);
    } else {
      PermissionWellFormed(user, req, c);
    }
  }

  lemma PermissionWellFormed(user: Option<User>, req: Request, c: Course)
    ensures WellFormedAtom(CoursePermission(user, req))
  {
    hide WellFormedAtom, WellFormedAny, HasVisibility, OpenToUser, OpenOrListed, Ids, AdministeredIn, EnrolledIn;
    var row := CourseRow(c);
    var p := HasVisibility("public");
    VisibilityMeans("public", c.visibility, row);
    WellFormedParts(p, p, Last(Final(p)));
    if user.Some? {
      var enrolled, administered := Ids(EnrolledIn(user.value, req)), Ids(AdministeredIn(user.value, req));
      OpenToUserMeans("ID", enrolled, c, row);
      OpenOrListedMeans("ID", enrolled, administered, c, row);
      WellFormedParts(p, p, OpenToUser("ID", enrolled));
      WellFormedParts(p, p, OpenOrListed("ID", enrolled, administered));
    }
  }

  lemma CourseFilterIsNotEmpty(user: Option<User>, first: Semester, last: Semester, semesters: Option<seq<Semester>>)
    requires user.None? || user.value.role != ADMIN_TYPE
    ensures MeiliCourseFilter(user, first, last, semesters) != ""
  {
    hide MeiliSemesterFilter, CoursePermissionText;
    var filter := MeiliSemesterFilter(first, last, semesters);
    var p := CoursePermissionText(user, Requested(first, last, semesters));
    CoursePermissionSpells(user, Requested(first, last, semesters));
    AtomTextIsNotEmpty(CoursePermission(user, Requested(first, last, semesters)));
    assert |p + filter| >= |p| > 0;
    assert |"(" + p + " AND " + filter + ")"| > 0;
  }

  // ------------------------------------------------------ Stream filter

  predicate MaySearchStream(user: Option<User>, s: Stream, c: Course) {
    IsEligibleToSearchForCourse(user, c) && (!s.private || IsAdminOfCourse(user, c))
  }

  /** The streams the filter overlooks: those open to the user only as the
      owner of a course that does not list the user among its admins. */
  predicate OverlooksStream(user: Option<User>, s: Stream, c: Course) {
    && user.Some? && user.value.role != ADMIN_TYPE
    && c.ownerId == user.value.id && !Lists(user.value.administeredCourses, c)
    && (s.private || c.IsHidden() || c.IsEnrolled())
  }

  lemma NotPrivateMeans(s: Stream, c: Course)
    ensures AcceptsAtom(IsNotPrivate(), StreamRow(s, c)) <==> !s.private
    ensures WellFormedAtom(IsNotPrivate())
  {
  }

  lemma StreamPermissionMeans(user: Option<User>, semester: Semester, s: Stream, c: Course)
    requires UserAgrees(user, c) && c.KnownVisibility()
    requires user.Some? ==> user.value.role != ADMIN_TYPE
    ensures c.Term().IsEqual(semester) ==>
              (AcceptsAtom(StreamPermission(user, semester), StreamRow(s, c)) <==>
               MaySearchStream(user, s, c) && !OverlooksStream(user, s, c))
    ensures WellFormedAtom(StreamPermission(user, semester))
  {
    hide AcceptsAtom, AcceptsAny, WellFormedAtom, WellFormedAny, HasVisibility, OpenToUser, Ids, IsNotPrivate,
      AdministeredIn, EnrolledIn;
    var row := StreamRow(s, c);
    var free := IsNotPrivate();
    NotPrivateMeans(s, c);
    match user
    case None =>
      var public := HasVisibility("public");
      VisibilityMeans("public", c.visibility, row);
      AcceptsBoth(public, free, row);
      WellFormedParts(public, free, Last(And(public, Final(free))));
    case Some(u) =>
      var req := Range(semester, semester);
      var enrolled, administered := Ids(EnrolledIn(u, req)), Ids(AdministeredIn(u, req));
      var open, listed := Group(OpenToUser("courseID", enrolled)), Test(In("courseID", administered));
      UserLists(u, req, c);
      OpenToUserMeans("courseID", enrolled, c, row);
      AcceptsGroup(OpenToUser("courseID", enrolled), row);
      InMeans("courseID", administered, c.id, row);
      InWellFormed("courseID", administered);
      AcceptsBoth(open, free, row);
      AcceptsOne(listed, row);
      AcceptsEitherOf(And(open, Final(free)), Last(Final(listed)), row);
      WellFormedParts(open, free, OpenToUser("courseID", enrolled));
      WellFormedParts(listed, free, Last(Final(listed)));
      WellFormedParts(open, free, Last(And(open, Final(free))));
      WellFormedParts(open, free, Last(Final(listed)));
      WellFormedParts(open, free, Or(And(open, Final(free)), Last(Final(listed))));
  }

  lemma AcceptsEitherOf(a: Conjunction, d: Disjunction, row: Row)
    ensures AcceptsAny(Or(a, d), row) <==> AcceptsAny(Last(a), row) || AcceptsAny(d, row)
    ensures AcceptsAtom(Group(Or(a, d)), row) <==> AcceptsAny(Or(a, d), row)
  {
    assert AcceptsAny(Last(a), row) <==> AcceptsAll(a, row);
  }

  /** Main result for the streams of one semester: the text accepts a stream row
      exactly when its course is of that semester and may be searched and the
      stream is not private to the user, except for the streams overlooked. */
  lemma StreamFilterExact(user: Option<User>, semester: Semester, s: Stream, c: Course)
    requires IsQuotable(semester.term)
    requires UserAgrees(user, c) && c.KnownVisibility()
    ensures var asked := c.Term().IsEqual(semester) && MaySearchStream(user, s, c);
            var verdict := Verdict(SemesterStreamFilter(user, semester), StreamRow(s, c));
            && verdict == Some(asked && !OverlooksStream(user, s, c))
            && (verdict == Some(asked) <==> !(c.Term().IsEqual(semester) && OverlooksStream(user, s, c)))
  {
    hide AcceptsAtom, AcceptsAny, WellFormedAtom, WellFormedAny, StreamPermission, IsSemester, SemesterStreamFilter,
      Verdict;
    var row := StreamRow(s, c);
    var t, p := IsSemester(semester), StreamPermission(user, semester);
    OneSemester(semester, c.Term(), row);
    SemesterWellFormed(semester);
    AcceptsOne(t, row);
    WellFormedParts(t, t, Last(Final(t)));
    if user.None? || user.value.role != ADMIN_TYPE {
      StreamPermissionMeans(user, semester, s, c);
      var both := Group(Last(And(p, Final(t))));
      AcceptsBoth(p, t, row);
      AcceptsOne(both, row);
      WellFormedParts(p, t, Last(And(p, Final(t))));
      WellFormedParts(both, t, Last(Final(both)));
    }
    SemesterStreamsSpell(user, semester);
    VerdictOfText(SemesterStreams(user, semester), row);
  }

  lemma NamedLists(user: Option<User>, courses: seq<Course>, c: Course, admin: bool)
    requires Agrees(courses, c)
    ensures c.id in Ids(NamedWith(user, courses, admin)) <==>
              Lists(courses, c) && IsAdminOfCourse(user, c) == admin
  {
    forall x: Course | x in courses && x.id == c.id
      ensures IsAdminOfCourse(user, x) == IsAdminOfCourse(user, c)
    {
    }
    ListedIn(courses, (x: Course) => IsAdminOfCourse(user, x) == admin, c, IsAdminOfCourse(user, c) == admin);
  }

  /** Main result for named courses: the text, unparenthesised where the source
      leaves it so, accepts a stream row exactly when its course is named and the
      stream is public or the user administers the course. No assumption on
      ownership or visibility is needed. */
  lemma NamedStreamFilterExact(user: Option<User>, courses: seq<Course>, s: Stream, c: Course)
    requires Agrees(courses, c)
    ensures Verdict(NamedStreamFilter(user, courses), StreamRow(s, c)) ==
            Some(Lists(courses, c) && (!s.private || IsAdminOfCourse(user, c)))
  {
    hide AcceptsAtom, AcceptsAny, WellFormedAtom, WellFormedAny, IsNotPrivate, NamedStreamFilter, NamedWith, Verdict;
    var row := StreamRow(s, c);
    var administered, others := Ids(NamedWith(user, courses, true)), Ids(NamedWith(user, courses, false));
    var mine, theirs, free := Test(In("courseID", administered)), Test(In("courseID", others)), IsNotPrivate();
    NamedLists(user, courses, c, true);
    NamedLists(user, courses, c, false);
    NotPrivateMeans(s, c);
    InMeans("courseID", administered, c.id, row);
    InMeans("courseID", others, c.id, row);
    InWellFormed("courseID", administered);
    InWellFormed("courseID", others);
    AcceptsBoth(theirs, free, row);
    WellFormedParts(theirs, free, Last(And(theirs, Final(free))));
    var open := Group(Last(And(theirs, Final(free))));
    AcceptsOne(open, row);
    AcceptsEither(mine, Last(Final(open)), row);
    AcceptsOne(Group(Or(Final(mine), Last(Final(open)))), row);
    WellFormedParts(open, open, Last(Final(open)));
    WellFormedParts(mine, open, Last(Final(open)));
    WellFormedParts(mine, open, Or(Final(mine), Last(Final(open))));
    var both := Group(Or(Final(mine), Last(Final(open))));
    WellFormedParts(both, open, Last(Final(both)));
    NamedStreamsSpell(user, courses);
    VerdictOfText(NamedStreams(user, courses), row);
  }

  // ---------------------------------------------------- Subtitle filter

  predicate OpenAt(streams: seq<Stream>, admin: bool, id: nat, i: int) {
    0 <= i < |streams| && streams[i].id == id && (!streams[i].private || admin)
  }

  ghost predicate Offers(user: Option<User>, course: Course, id: nat) {
    exists i :: OpenAt(course.streams, IsAdminOfCourse(user, course), id, i)
  }

  ghost predicate SearchableIn(user: Option<User>, courses: seq<Course>, id: nat) {
    exists i :: 0 <= i < |courses| && Offers(user, courses[i], id)
  }

  lemma {:induction false} OpenIdsMean(streams: seq<Stream>, admin: bool, id: nat)
    ensures id in OpenIds(streams, admin) <==> exists i :: OpenAt(streams, admin, id, i)
  {
    if streams != [] {
      var n := |streams| - 1;
      OpenIdsMean(streams[..n], admin, id);
      assert forall i :: 0 <= i < n ==> (OpenAt(streams[..n], admin, id, i) <==> OpenAt(streams, admin, id, i));
      assert OpenAt(streams, admin, id, n) <==> streams[n].id == id && (!streams[n].private || admin);
    }
  }

  lemma SearchableStreamsMean(user: Option<User>, course: Course, id: nat)
    ensures id in SearchableStreams(user, course) <==> Offers(user, course, id)
  {
    hide OpenIds, IsAdminOfCourse;
    OpenIdsMean(course.streams, IsAdminOfCourse(user, course), id);
  }

  lemma {:induction false} SearchableIdsMean(user: Option<User>, courses: seq<Course>, id: nat)
    ensures id in SearchableIds(user, courses) <==> SearchableIn(user, courses, id)
  {
    hide SearchableStreams, Offers;
    if courses != [] {
      var n := |courses| - 1;
      var before := courses[..n];
      SearchableIdsMean(user, before, id);
      SearchableStreamsMean(user, courses[n], id);
      assert forall i :: 0 <= i < n ==> before[i] == courses[i];
    }
  }

  lemma NoCourseSearchable(user: Option<User>, id: nat)
    ensures !SearchableIn(user, [], id)
  {
  }

  /** Main result for subtitles: where courses are named, the text accepts a row
      exactly when its stream is in one of them and is public or in a course the
      user administers. Where none is named there is no filter, and every row is
      accepted; so the text agrees with the check exactly when a course is named. */
  lemma SubtitleFilterExact(user: Option<User>, courses: seq<Course>, id: nat)
    ensures var verdict := Verdict(SubtitleFilter(user, courses), SubtitleRow(id));
            && verdict == Some(courses == [] || SearchableIn(user, courses, id))
            && (verdict == Some(SearchableIn(user, courses, id)) <==> courses != [])
  {
    hide AcceptsAtom, AcceptsAny, WellFormedAtom, WellFormedAny, UintSliceToString, SearchableIn, Read;
    if courses == [] {
      NoCourseSearchable(user, id);
    } else {
      NamedSubtitles(user, courses, id);
    }
  }

  lemma NamedSubtitles(user: Option<User>, courses: seq<Course>, id: nat)
    ensures Verdict("streamID IN " + UintSliceToString(SearchableIds(user, courses)), SubtitleRow(id)) ==
            Some(SearchableIn(user, courses, id))
  {
    hide AcceptsAtom, AcceptsAny, WellFormedAtom, WellFormedAny, Verdict, UintSliceToString, SearchableIn;
    var ids := SearchableIds(user, courses);
    var test := Test(In("streamID", ids));
    SearchableIdsMean(user, courses, id);
    InMeans("streamID", ids, id, SubtitleRow(id));
    InWellFormed("streamID", ids);
    InSpells("streamID", ids);
    FinalText(test);
    assert "streamID IN " == "streamID" + " IN ";
    AcceptsOne(test, SubtitleRow(id));
    WellFormedParts(test, test, Last(Final(test)));
    VerdictOfText(Last(Final(test)), SubtitleRow(id));
  }
}
