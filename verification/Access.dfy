/**
 Semesters, courses and what a user may see of them (model/semester.go,
 model/user.go, model/course.go).
 */
module Access {
  import opened Basics

  // ---------------------------------------------------------- Semesters

  datatype Semester = Semester(term: string, year: int)
  {
    predicate IsEqual(other: Semester) {
      year == other.year && term == other.term
    }

    predicate IsGreaterEqualThan(other: Semester) {
      year > other.year || (year == other.year && (term == "W" || other.term == "S"))
    }

    predicate IsBetweenSemesters(first: Semester, last: Semester) {
      if first.year == last.year && first.term == last.term
      then year == first.year && term == first.term
      else IsGreaterEqualThan(first) && last.IsGreaterEqualThan(this)
    }

    predicate IsInRangeOfSemesters(semesters: seq<Semester>) {
      exists i :: 0 <= i < |semesters| && year == semesters[i].year && term == semesters[i].term
    }

    predicate Proper() {
      term == "W" || term == "S"
    }

    /** Position among all semesters; the winter term ends its year. */
    function Index(): int {
      2 * year + if term == "W" then 1 else 0
    }
  }

  /** `IsGreaterEqualThan` is the order of the semester positions, and the range
      test is the interval of positions when the range is not inverted. */
  lemma SemesterOrder(s: Semester, first: Semester, last: Semester)
    requires s.Proper() && first.Proper() && last.Proper()
    ensures s.IsGreaterEqualThan(first) <==> s.Index() >= first.Index()
    ensures s.IsEqual(first) <==> s.Index() == first.Index()
    ensures first.Index() <= last.Index() ==>
              (s.IsBetweenSemesters(first, last) <==> first.Index() <= s.Index() <= last.Index())
  {
  }

  // ------------------------------------------------- Courses and users

  datatype Stream = Stream(id: nat, private: bool)

  datatype Course = Course(id: nat, ownerId: nat, visibility: string, year: int, term: string, streams: seq<Stream>)
  {
    function Term(): Semester { Semester(term, year) }
    predicate IsPublic() { visibility == "public" }
    predicate IsHidden() { visibility == "hidden" }
    predicate IsLoggedIn() { visibility == "loggedin" }
    predicate IsEnrolled() { visibility == "enrolled" }
    predicate KnownVisibility() { IsPublic() || IsHidden() || IsLoggedIn() || IsEnrolled() }
  }

  const ADMIN_TYPE: nat := 1

  datatype User = User(id: nat, role: nat, courses: seq<Course>, administeredCourses: seq<Course>)

  predicate Lists(courses: seq<Course>, course: Course) {
    exists i :: 0 <= i < |courses| && courses[i].id == course.id
  }

  /** `None` is a visitor who is not logged in. */
  predicate IsAdminOfCourse(u: Option<User>, course: Course) {
    u.Some? &&
    (Lists(u.value.administeredCourses, course) || u.value.role == ADMIN_TYPE || course.ownerId == u.value.id)
  }

  predicate IsEligibleToWatchCourse(u: Option<User>, course: Course) {
    if u.None? then course.IsPublic() || course.IsHidden()
    else
      || course.IsPublic() || course.IsHidden() || course.IsLoggedIn()
      || Lists(u.value.courses, course)
      || IsAdminOfCourse(u, course)
  }

  predicate IsEligibleToSearchForCourse(u: Option<User>, course: Course) {
    (IsEligibleToWatchCourse(u, course) && !course.IsHidden()) || IsAdminOfCourse(u, course)
  }

  // --------------------------------------- Semester-scoped course lists

  /** The semesters asked for: a range, or a list. */
  datatype Request = Range(first: Semester, last: Semester) | Listed(semesters: seq<Semester>)
  {
    predicate Covers(s: Semester) {
      match this
      case Range(first, last) => s.IsBetweenSemesters(first, last)
      case Listed(semesters) => s.IsInRangeOfSemesters(semesters)
    }
  }

  function AdministeredIn(u: User, req: Request): seq<Course> {
    Filter(u.administeredCourses, (c: Course) => req.Covers(c.Term()))
  }

  function EnrolledIn(u: User, req: Request): seq<Course> {
    Filter(u.courses, (c: Course) => req.Covers(c.Term()) && !IsAdminOfCourse(Some(u), c))
  }

  /** The membership loop of `IsInRangeOfSemesters`. */
  method SearchSemesters(s: Semester, semesters: seq<Semester>) returns (found: bool)
    ensures found <==> s.IsInRangeOfSemesters(semesters)
  {
    for i := 0 to |semesters|
      invariant forall j :: 0 <= j < i ==> !(s.year == semesters[j].year && s.term == semesters[j].term)
    {
      if s.year == semesters[i].year && s.term == semesters[i].term {
        return true;
      }
    }
    return false;
  }

  /** The loops of `AdministeredCoursesBetweenSemesters` and `...ForSemesters`. */
  method AdministeredCourses(u: User, req: Request) returns (administeredCourses: seq<Course>)
    ensures administeredCourses == AdministeredIn(u, req)
  {
    administeredCourses := [];
    var keep := (c: Course) => req.Covers(c.Term());
    for i := 0 to |u.administeredCourses|
      invariant administeredCourses == Filter(u.administeredCourses[..i], keep)
    {
      var c := u.administeredCourses[i];
      assert u.administeredCourses[..i + 1][..i] == u.administeredCourses[..i];
      if req.Covers(c.Term()) {
        administeredCourses := administeredCourses + [c];
      }
    }
    assert u.administeredCourses[..|u.administeredCourses|] == u.administeredCourses;
  }

  /** The loops of `CoursesBetweenSemestersWithoutAdministeredCourses` and
      `CoursesForSemestersWithoutAdministeredCourses`. */
  method CoursesWithoutAdministered(u: User, req: Request) returns (courses: seq<Course>)
    ensures courses == EnrolledIn(u, req)
  {
    courses := [];
    var keep := (c: Course) => req.Covers(c.Term()) && !IsAdminOfCourse(Some(u), c);
    for i := 0 to |u.courses|
      invariant courses == Filter(u.courses[..i], keep)
    {
      var c := u.courses[i];
      assert u.courses[..i + 1][..i] == u.courses[..i];
      if req.Covers(c.Term()) && !IsAdminOfCourse(Some(u), c) {
        courses := courses + [c];
      }
    }
    assert u.courses[..|u.courses|] == u.courses;
  }
}
