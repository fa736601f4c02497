/**
 The filters sent to the search index (api/search.go): the texts as the server
 prints them, and the filters they spell.
 */
module SearchFilter {
  import opened Basics
  import opened Decimal
  import opened FilterLanguage
  import opened Access

  // ------------------------------------------------------ Id lists

  function Ids(courses: seq<Course>): seq<nat> {
    seq(|courses|, i requires 0 <= i < |courses| => courses[i].id)
  }

  function IdStrings(ids: seq<nat>): seq<string> {
    seq(|ids|, i requires 0 <= i < |ids| => FormatNat(ids[i]))
  }

  function UintSliceToString(ids: seq<nat>): string {
    if |ids| == 0 then "[]" else "[" + Join(IdStrings(ids), ",") + "]"
  }

  function CourseSliceToString(courses: seq<Course>): string {
    UintSliceToString(Ids(courses))
  }

  lemma {:induction false} JoinedIds(ids: seq<nat>)
    ensures Join(IdStrings(ids), ",") == IdsText(ids)
  {
    if |ids| > 1 {
      assert IdStrings(ids)[1..] == IdStrings(ids[1..]);
      JoinedIds(ids[1..]);
    }
  }

  lemma IdListText(ids: seq<nat>)
    ensures UintSliceToString(ids) == "[" + IdsText(ids) + "]"
  {
    JoinedIds(ids);
  }

  // --------------------------------------------------- Semester filter

  function SemesterText(s: Semester): string {
    "(year = " + FormatInt(s.year) + " AND semester = \"" + s.term + "\")"
  }

  function YearText(year: int): string {
    "year = " + FormatInt(year)
  }

  function FirstText(first: Semester): string {
    if first.term == "W" then SemesterText(first) else YearText(first.year)
  }

  function LastText(last: Semester): string {
    if last.term == "S" then SemesterText(last) else YearText(last.year)
  }

  function BetweenText(first: Semester, last: Semester): string {
    "(year > " + FormatInt(first.year) + " AND year < " + FormatInt(last.year) + ")"
  }

  function SemesterTexts(semesters: seq<Semester>): seq<string> {
    seq(|semesters|, i requires 0 <= i < |semesters| => SemesterText(semesters[i]))
  }

  /** Range `first`..`last` when `semesters` is nil, else the listed semesters. */
  function MeiliSemesterFilter(first: Semester, last: Semester, semesters: Option<seq<Semester>>): string {
    if (semesters.None? || semesters.value == []) && first.year < 1900 && last.year > 2800 then ""
    else if semesters.Some? then "(" + Join(SemesterTexts(semesters.value), " OR ") + ")"
    else if first.year == last.year && first.term == last.term then SemesterText(first)
    else if first.year + 1 < last.year then
      "(" + FirstText(first) + " OR " + BetweenText(first, last) + " OR " + LastText(last) + ")"
    else "(" + FirstText(first) + " OR " + LastText(last) + ")"
  }

  function IsSemester(s: Semester): Atom {
    Group(Last(And(Test(Equal("year", Num(s.year))), Final(Test(Equal("semester", Str(s.term)))))))
  }

  function FirstAtom(first: Semester): Atom {
    if first.term == "W" then IsSemester(first) else Test(Equal("year", Num(first.year)))
  }

  function LastAtom(last: Semester): Atom {
    if last.term == "S" then IsSemester(last) else Test(Equal("year", Num(last.year)))
  }

  function BetweenAtom(first: Semester, last: Semester): Atom {
    Group(Last(And(Test(Greater("year", first.year)), Final(Test(Less("year", last.year))))))
  }

  function AnyOfSemesters(semesters: seq<Semester>): Disjunction
    requires semesters != []
  {
    if |semesters| == 1 then Last(Final(IsSemester(semesters[0])))
    else Or(Final(IsSemester(semesters[0])), AnyOfSemesters(semesters[1..]))
  }

  /** The filter behind the semester text, where there is one. */
  function SemesterAtom(req: Request): Atom
    requires req.Listed? ==> req.semesters != []
  {
    match req
    case Listed(semesters) => Group(AnyOfSemesters(semesters))
    case Range(first, last) =>
      if first.IsEqual(last) then IsSemester(first)
      else if first.year + 1 < last.year then
        Group(Or(Final(FirstAtom(first)), Or(Final(BetweenAtom(first, last)), Last(Final(LastAtom(last))))))
      else Group(Or(Final(FirstAtom(first)), Last(Final(LastAtom(last)))))
  }

  function Requested(first: Semester, last: Semester, semesters: Option<seq<Semester>>): Request {
    if semesters.Some? then Listed(semesters.value) else Range(first, last)
  }

  // One unfolding of the text at a time.

  lemma FinalText(a: Atom)
    ensures AllText(Final(a)) == AtomText(a)
    ensures AnyText(Last(Final(a))) == AtomText(a)
  {
  }

  lemma AndText(a: Atom, b: Atom)
    ensures AllText(And(a, Final(b))) == AtomText(a) + " AND " + AtomText(b)
    ensures AnyText(Last(And(a, Final(b)))) == AtomText(a) + " AND " + AtomText(b)
    ensures AtomText(Group(Last(And(a, Final(b))))) == "(" + (AtomText(a) + " AND " + AtomText(b)) + ")"
  {
    FinalText(b);
    assert AllText(And(a, Final(b))) == AtomText(a) + " AND " + AllText(Final(b));
    assert AnyText(Last(And(a, Final(b)))) == AllText(And(a, Final(b)));
  }

  lemma OrText(a: Atom, d: Disjunction)
    ensures AnyText(Or(Final(a), d)) == AtomText(a) + " OR " + AnyText(d)
  {
    FinalText(a);
  }

  lemma SemesterTextSpells(s: Semester)
    ensures SemesterText(s) == AtomText(IsSemester(s))
  {
    hide FormatInt, AtomText;
    var y, t := FormatInt(s.year), s.term;
    var year, term := Test(Equal("year", Num(s.year))), Test(Equal("semester", Str(t)));
    YearTextSpells(s.year);
    TermSpells(t);
    AndText(year, term);
    assert "(year = " + y + " AND semester = \"" + t + "\")"
        == "(" + ("year = " + y + " AND " + ("semester = \"" + t + "\"")) + ")";
  }

  lemma TermSpells(t: string)
    ensures AtomText(Test(Equal("semester", Str(t)))) == "semester = \"" + t + "\""
  {
    assert "semester" + " = " + ("\"" + t + "\"") == "semester = \"" + t + "\"";
  }

  lemma YearTextSpells(year: int)
    ensures YearText(year) == AtomText(Test(Equal("year", Num(year))))
    ensures AtomText(Test(Less("year", year))) == "year < " + FormatInt(year)
    ensures AtomText(Test(Greater("year", year))) == "year > " + FormatInt(year)
  {
    hide FormatInt;
    assert "year" + " = " == "year = " && "year" + " < " == "year < " && "year" + " > " == "year > ";
  }

  lemma BetweenTextSpells(first: Semester, last: Semester)
    ensures BetweenText(first, last) == AtomText(BetweenAtom(first, last))
  {
    hide FormatInt, AtomText;
    var a, b := FormatInt(first.year), FormatInt(last.year);
    YearTextSpells(first.year);
    YearTextSpells(last.year);
    AndText(Test(Greater("year", first.year)), Test(Less("year", last.year)));
    assert "(year > " + a + " AND year < " + b + ")" == "(" + ("year > " + a + " AND " + ("year < " + b)) + ")";
  }

  lemma {:induction false} SemesterListSpells(semesters: seq<Semester>)
    requires semesters != []
    ensures Join(SemesterTexts(semesters), " OR ") == AnyText(AnyOfSemesters(semesters))
  {
    SemesterTextSpells(semesters[0]);
    if |semesters| > 1 {
      assert SemesterTexts(semesters)[1..] == SemesterTexts(semesters[1..]);
      SemesterListSpells(semesters[1..]);
    }
  }

  lemma EndsSpell(first: Semester, last: Semester)
    ensures FirstText(first) == AtomText(FirstAtom(first))
    ensures LastText(last) == AtomText(LastAtom(last))
  {
    SemesterTextSpells(first);
    SemesterTextSpells(last);
    YearTextSpells(first.year);
    YearTextSpells(last.year);
  }

  lemma RangeSpells(first: Semester, last: Semester)
    requires MeiliSemesterFilter(first, last, None) != ""
    ensures MeiliSemesterFilter(first, last, None) == AtomText(SemesterAtom(Range(first, last)))
  {
    hide AtomText, AnyText, SemesterText, FirstText, LastText, BetweenText, FirstAtom, LastAtom, BetweenAtom;
    if first.IsEqual(last) {
      SemesterTextSpells(first);
    } else {
      EndsSpell(first, last);
      BetweenTextSpells(first, last);
      var f, b, l := FirstAtom(first), BetweenAtom(first, last), LastAtom(last);
      FinalText(l);
      OrText(b, Last(Final(l)));
      OrText(f, Last(Final(l)));
      OrText(f, Or(Final(b), Last(Final(l))));
      GroupText(Or(Final(f), Last(Final(l))));
      GroupText(Or(Final(f), Or(Final(b), Last(Final(l)))));
      var ft, bt, lt := AtomText(f), AtomText(b), AtomText(l);
      assert "(" + ft + " OR " + bt + " OR " + lt + ")" == "(" + (ft + " OR " + (bt + " OR " + lt)) + ")";
      assert "(" + ft + " OR " + lt + ")" == "(" + (ft + " OR " + lt) + ")";
    }
  }

  lemma GroupText(d: Disjunction)
    ensures AtomText(Group(d)) == "(" + AnyText(d) + ")"
  {
  }

  /** The semester text spells its filter, case by case. */
  lemma SemesterFilterSpells(first: Semester, last: Semester, semesters: Option<seq<Semester>>)
    requires semesters != Some([])
    requires MeiliSemesterFilter(first, last, semesters) != ""
    ensures MeiliSemesterFilter(first, last, semesters) == AtomText(SemesterAtom(Requested(first, last, semesters)))
  {
    if semesters.Some? {
      SemesterListSpells(semesters.value);
    } else {
      RangeSpells(first, last);
    }
  }

  // ----------------------------------------------------- Course filter

  /** The three kinds of courses open to a user who is logged in. */
  function OpenToUserText(idField: string, enrolled: string): string {
    "visibility = \"loggedin\"" + " OR visibility = \"public\"" + " OR (visibility = \"enrolled\" AND "
    + idField + " IN " + enrolled + ")"
  }

  function CoursePermissionText(user: Option<User>, req: Request): string {
    match user
    case None => "(visibility = \"public\")"
    case Some(u) =>
      var enrolled := CourseSliceToString(EnrolledIn(u, req));
      if |u.administeredCourses| == 0 then "(" + OpenToUserText("ID", enrolled) + ")"
      else "(" + OpenToUserText("ID", enrolled) + " OR ID IN "
           + CourseSliceToString(AdministeredIn(u, req)) + ")"
  }

  function MeiliCourseFilter(user: Option<User>, first: Semester, last: Semester, semesters: Option<seq<Semester>>)
    : string
  {
    var semesterFilter := MeiliSemesterFilter(first, last, semesters);
    if user.Some? && user.value.role == ADMIN_TYPE then semesterFilter
    else
      var permissionFilter := CoursePermissionText(user, Requested(first, last, semesters));
      if semesterFilter == "" || permissionFilter == "" then permissionFilter + semesterFilter
      else "(" + permissionFilter + " AND " + semesterFilter + ")"
  }

  function HasVisibility(v: string): Atom {
    Test(Equal("visibility", Str(v)))
  }

  function EnrolledAtom(idField: string, enrolled: seq<nat>): Atom {
    Group(Last(And(HasVisibility("enrolled"), Final(Test(In(idField, enrolled))))))
  }

  function OpenToUser(idField: string, enrolled: seq<nat>): Disjunction {
    Or(Final(HasVisibility("loggedin")),
       Or(Final(HasVisibility("public")), Last(Final(EnrolledAtom(idField, enrolled)))))
  }

  function OpenOrListed(idField: string, enrolled: seq<nat>, administered: seq<nat>): Disjunction {
    Or(Final(HasVisibility("loggedin")),
       Or(Final(HasVisibility("public")),
          Or(Final(EnrolledAtom(idField, enrolled)), Last(Final(Test(In(idField, administered)))))))
  }

  function CoursePermission(user: Option<User>, req: Request): Atom {
    match user
    case None => Group(Last(Final(HasVisibility("public"))))
    case Some(u) =>
      var enrolled := Ids(EnrolledIn(u, req));
      if |u.administeredCourses| == 0 then Group(OpenToUser("ID", enrolled))
      else Group(OpenOrListed("ID", enrolled, Ids(AdministeredIn(u, req))))
  }

  lemma VisibilitySpells()
    ensures AtomText(HasVisibility("public")) == "visibility = \"public\""
    ensures AtomText(HasVisibility("loggedin")) == "visibility = \"loggedin\""
    ensures AtomText(HasVisibility("enrolled")) == "visibility = \"enrolled\""
  {
    hide AtomText, HasVisibility;
    var opening := "visibility" + " = " + "\"";
    VisibilityText("public");
    VisibilityText("loggedin");
    VisibilityText("enrolled");
    assert opening == "visibility = \"";
    assert "visibility = \"public\"" == "visibility = \"" + "public" + "\"";
    assert "visibility = \"loggedin\"" == "visibility = \"" + "loggedin" + "\"";
    assert "visibility = \"enrolled\"" == "visibility = \"" + "enrolled" + "\"";
  }

  lemma VisibilityText(v: string)
    ensures AtomText(HasVisibility(v)) == "visibility" + " = " + "\"" + v + "\""
  {
  }

  lemma InSpells(idField: string, ids: seq<nat>)
    ensures AtomText(Test(In(idField, ids))) == idField + " IN " + UintSliceToString(ids)
  {
    IdListText(ids);
  }

  lemma EnrolledSpells(idField: string, enrolled: seq<nat>)
    ensures AtomText(EnrolledAtom(idField, enrolled))
         == "(visibility = \"enrolled\" AND " + idField + " IN " + UintSliceToString(enrolled) + ")"
  {
    hide AtomText, UintSliceToString;
    VisibilitySpells();
    InSpells(idField, enrolled);
    AndText(HasVisibility("enrolled"), Test(In(idField, enrolled)));
    var ids := UintSliceToString(enrolled);
    assert "(visibility = \"enrolled\" AND " == "(" + ("visibility = \"enrolled\"" + " AND ");
    assert "(" + ("visibility = \"enrolled\"" + " AND " + (idField + " IN " + ids)) + ")"
        == ("(" + ("visibility = \"enrolled\"" + " AND ")) + idField + " IN " + ids + ")";
  }

  lemma Regroup(a: string, b: string, or: string, c: string, field: string, in_: string, ids: string, r: string)
    ensures a + (or + b) + (or + c) + field + in_ + ids + r == a + or + (b + or + (c + field + in_ + ids + r))
  {
    assert a + (or + b) + (or + c) == a + or + b + or + c;
    assert b + or + (c + field + in_ + ids + r) == b + or + c + field + in_ + ids + r;
  }

  lemma OpenToUserPieces(idField: string, ids: string)
    ensures OpenToUserText(idField, ids)
         == "visibility = \"loggedin\"" + " OR " + ("visibility = \"public\"" + " OR "
            + ("(visibility = \"enrolled\" AND " + idField + " IN " + ids + ")"))
  {
    var public, opening := "visibility = \"public\"", "(visibility = \"enrolled\" AND ";
    SplitPublic();
    SplitEnrolled();
    Regroup("visibility = \"loggedin\"", public, " OR ", opening, idField, " IN ", ids, ")");
  }

  lemma SplitPublic()
    ensures " OR visibility = \"public\"" == " OR " + "visibility = \"public\""
  {
  }

  lemma SplitEnrolled()
    ensures " OR (visibility = \"enrolled\" AND " == " OR " + "(visibility = \"enrolled\" AND "
  {
  }

  lemma OpenToUserSpells(idField: string, enrolled: seq<nat>)
    ensures OpenToUserText(idField, UintSliceToString(enrolled)) == AnyText(OpenToUser(idField, enrolled))
  {
    hide AtomText, AnyText, UintSliceToString, EnrolledAtom, OpenToUserText;
    VisibilitySpells();
    EnrolledSpells(idField, enrolled);
    var member := EnrolledAtom(idField, enrolled);
    FinalText(member);
    OrText(HasVisibility("public"), Last(Final(member)));
    OrText(HasVisibility("loggedin"), Or(Final(HasVisibility("public")), Last(Final(member))));
    OpenToUserPieces(idField, UintSliceToString(enrolled));
  }

  /** The filter for a listed course behind the three open kinds. */
  lemma OpenOrListedSpells(idField: string, enrolled: seq<nat>, administered: seq<nat>)
    ensures OpenToUserText(idField, UintSliceToString(enrolled)) + " OR " + idField + " IN "
            + UintSliceToString(administered)
         == AnyText(OpenOrListed(idField, enrolled, administered))
  {
    hide AtomText, AnyText, UintSliceToString, EnrolledAtom, OpenToUserText;
    var member, listed := EnrolledAtom(idField, enrolled), Test(In(idField, administered));
    OpenToUserSpells(idField, enrolled);
    InSpells(idField, administered);
    FinalText(member);
    FinalText(listed);
    OrText(HasVisibility("public"), Last(Final(member)));
    OrText(HasVisibility("loggedin"), Or(Final(HasVisibility("public")), Last(Final(member))));
    OrText(member, Last(Final(listed)));
    OrText(HasVisibility("public"), Or(Final(member), Last(Final(listed))));
    OrText(HasVisibility("loggedin"), Or(Final(HasVisibility("public")), Or(Final(member), Last(Final(listed)))));
    var a, b, c := AtomText(HasVisibility("loggedin")), AtomText(HasVisibility("public")), AtomText(member);
    var ids := UintSliceToString(administered);
    assert (a + " OR " + (b + " OR " + c)) + " OR " + idField + " IN " + ids
        == a + " OR " + (b + " OR " + (c + " OR " + (idField + " IN " + ids)));
  }

  lemma PublicSpells()
    ensures AtomText(Group(Last(Final(HasVisibility("public"))))) == "(visibility = \"public\")"
  {
    VisibilitySpells();
    FinalText(HasVisibility("public"));
    GroupText(Last(Final(HasVisibility("public"))));
    assert "(visibility = \"public\")" == "(" + "visibility = \"public\"" + ")";
  }

  lemma CoursePermissionSpells(user: Option<User>, req: Request)
    ensures CoursePermissionText(user, req) == AtomText(CoursePermission(user, req))
  {
    hide AtomText, AnyText, UintSliceToString, OpenToUserText, OpenToUser, OpenOrListed;
    match user
    case None => PublicSpells();
    case Some(u) =>
      var enrolled, administered := Ids(EnrolledIn(u, req)), Ids(AdministeredIn(u, req));
      OpenToUserSpells("ID", enrolled);
      OpenOrListedSpells("ID", enrolled, administered);
      GroupText(OpenToUser("ID", enrolled));
      GroupText(OpenOrListed("ID", enrolled, administered));
      var open, ids := OpenToUserText("ID", UintSliceToString(enrolled)), UintSliceToString(administered);
      assert " OR ID IN " == " OR " + "ID" + " IN ";
      assert "(" + open + (" OR " + "ID" + " IN ") + ids + ")" == "(" + (open + " OR " + "ID" + " IN " + ids) + ")";
  }

  /** The filter behind the whole course text, where the text is not empty. */
  function CourseFilter(user: Option<User>, first: Semester, last: Semester, semesters: Option<seq<Semester>>)
    : Disjunction
    requires semesters != Some([])
  {
    var req := Requested(first, last, semesters);
    var allSemesters := MeiliSemesterFilter(first, last, semesters) == "";
    if user.Some? && user.value.role == ADMIN_TYPE then Last(Final(SemesterAtom(req)))
    else if allSemesters then Last(Final(CoursePermission(user, req)))
    else Last(Final(Group(Last(And(CoursePermission(user, req), Final(SemesterAtom(req)))))))
  }

  lemma CourseFilterSpells(user: Option<User>, first: Semester, last: Semester, semesters: Option<seq<Semester>>)
    requires semesters != Some([])
    requires MeiliCourseFilter(user, first, last, semesters) != ""
    ensures MeiliCourseFilter(user, first, last, semesters)
         == AnyText(CourseFilter(user, first, last, semesters))
  {
    hide AtomText, AnyText, MeiliSemesterFilter, CoursePermissionText, CoursePermission, SemesterAtom;
    var req := Requested(first, last, semesters);
    var filter := MeiliSemesterFilter(first, last, semesters);
    CoursePermissionSpells(user, req);
    AtomTextIsNotEmpty(CoursePermission(user, req));
    FinalText(CoursePermission(user, req));
    if filter != "" {
      SemesterFilterSpells(first, last, semesters);
      FinalText(SemesterAtom(req));
      AndText(CoursePermission(user, req), SemesterAtom(req));
      var p := AtomText(CoursePermission(user, req));
      FinalText(Group(Last(And(CoursePermission(user, req), Final(SemesterAtom(req))))));
      assert "(" + p + " AND " + filter + ")" == "(" + (p + " AND " + filter) + ")";
    } else {
      assert CoursePermissionText(user, req) + "" == CoursePermissionText(user, req);
    }
  }

  /** There is no semester text exactly for a range that starts before 1900 and ends
      after 2800, where no semesters are listed. */
  lemma ShortcutExactly(first: Semester, last: Semester, semesters: Option<seq<Semester>>)
    ensures MeiliSemesterFilter(first, last, semesters) == "" <==>
              (semesters == None || semesters == Some([])) && first.year < 1900 && last.year > 2800
  {
    hide FirstText, LastText, BetweenText, SemesterTexts, Join, FormatInt;
  }

  lemma AtomTextIsNotEmpty(a: Atom)
    ensures AtomText(a) != ""
  {
    TextIsNotEmpty(Last(Final(a)));
  }

  // ----------------------------------------------------- Stream filter

  function StreamPermissionText(user: Option<User>, semester: Semester): string {
    match user
    case None => "(visibility = \"public\" AND private = 0)"
    case Some(u) =>
      var req := Range(semester, semester);
      var enrolled := CourseSliceToString(EnrolledIn(u, req));
      if |u.administeredCourses| == 0 then "((" + OpenToUserText("courseID", enrolled) + ") AND private = 0)"
      else "((" + OpenToUserText("courseID", enrolled) + ") AND private = 0 OR courseID IN "
           + CourseSliceToString(AdministeredIn(u, req)) + ")"
  }

  /** `meiliStreamFilter` without named courses. */
  function SemesterStreamFilter(user: Option<User>, semester: Semester): string {
    if user.Some? && user.value.role == ADMIN_TYPE then SemesterText(semester)
    else "(" + StreamPermissionText(user, semester) + " AND " + SemesterText(semester) + ")"
  }

  function NamedWith(user: Option<User>, courses: seq<Course>, admin: bool): seq<Course> {
    Filter(courses, (c: Course) => IsAdminOfCourse(user, c) == admin)
  }

  /** `meiliStreamFilter` for the courses named in the request. */
  function NamedStreamFilter(user: Option<User>, courses: seq<Course>): string {
    var administered := NamedWith(user, courses, true);
    var others := NamedWith(user, courses, false);
    if user.None? || |administered| == 0
    then "courseID IN " + CourseSliceToString(others) + " AND private = 0"
    else "(courseID IN " + CourseSliceToString(administered) + " OR (courseID IN " + CourseSliceToString(others)
         + " AND private = 0))"
  }

  /** The partition of the named courses, and the filter text. */
  method MeiliStreamFilter(user: Option<User>, semester: Semester, courses: Option<seq<Course>>)
    returns (filter: string)
    ensures filter == if courses.Some? then NamedStreamFilter(user, courses.value)
                      else SemesterStreamFilter(user, semester)
  {
    if courses.Some? {
      var cs := courses.value;
      var administered: seq<Course>, others: seq<Course> := [], [];
      for i := 0 to |cs|
        invariant administered == NamedWith(user, cs[..i], true)
        invariant others == NamedWith(user, cs[..i], false)
      {
        assert cs[..i + 1][..i] == cs[..i];
        if IsAdminOfCourse(user, cs[i]) {
          administered := administered + [cs[i]];
        } else {
          others := others + [cs[i]];
        }
      }
      assert cs[..|cs|] == cs;
      if user.None? || |administered| == 0 {
        return "courseID IN " + CourseSliceToString(others) + " AND private = 0";
      }
      return "(courseID IN " + CourseSliceToString(administered) + " OR (courseID IN "
             + CourseSliceToString(others) + " AND private = 0))";
    }
    var semesterFilter := SemesterText(semester);
    if user.Some? && user.value.role == ADMIN_TYPE {
      return semesterFilter;
    }
    return "(" + StreamPermissionText(user, semester) + " AND " + semesterFilter + ")";
  }

  function IsNotPrivate(): Atom {
    Test(Equal("private", Num(0)))
  }

  function StreamPermission(user: Option<User>, semester: Semester): Atom {
    match user
    case None => Group(Last(And(HasVisibility("public"), Final(IsNotPrivate()))))
    case Some(u) =>
      var req := Range(semester, semester);
      var open := Group(OpenToUser("courseID", Ids(EnrolledIn(u, req))));
      if |u.administeredCourses| == 0 then Group(Last(And(open, Final(IsNotPrivate()))))
      else Group(Or(And(open, Final(IsNotPrivate())),
                    Last(Final(Test(In("courseID", Ids(AdministeredIn(u, req))))))))
  }

  function SemesterStreams(user: Option<User>, semester: Semester): Disjunction {
    if user.Some? && user.value.role == ADMIN_TYPE then Last(Final(IsSemester(semester)))
    else Last(Final(Group(Last(And(StreamPermission(user, semester), Final(IsSemester(semester)))))))
  }

  function NamedStreams(user: Option<User>, courses: seq<Course>): Disjunction {
    var administered := Ids(NamedWith(user, courses, true));
    var others := Ids(NamedWith(user, courses, false));
    var openOthers := And(Test(In("courseID", others)), Final(IsNotPrivate()));
    if user.None? || |administered| == 0 then Last(openOthers)
    else Last(Final(Group(Or(Final(Test(In("courseID", administered))), Last(Final(Group(Last(openOthers))))))))
  }

  lemma NotPrivateSpells()
    ensures AtomText(IsNotPrivate()) == "private = 0"
  {
    assert FormatInt(0) == "0";
    assert "private" + " = " + "0" == "private = 0";
  }

  lemma StreamPermissionPieces(o: string, ids: string)
    ensures "((" + o + ") AND private = 0)" == "(" + ("(" + o + ")" + " AND " + "private = 0") + ")"
    ensures "((" + o + ") AND private = 0 OR courseID IN " + ids + ")"
         == "(" + ("(" + o + ")" + " AND " + "private = 0" + " OR " + ("courseID" + " IN " + ids)) + ")"
  {
    var tail := ")" + " AND " + "private = 0";
    assert ") AND private = 0" == tail;
    assert ") AND private = 0)" == tail + ")";
    assert ") AND private = 0 OR courseID IN " == tail + " OR " + ("courseID" + " IN ");
    assert "((" == "(" + "(";
    RegroupStream("(", o, tail, " OR ", "courseID" + " IN ", ids, ")");
    assert "(" + o + ")" + " AND " + "private = 0" == "(" + o + tail;
  }

  lemma RegroupStream(l: string, o: string, tail: string, or: string, field: string, ids: string, r: string)
    ensures (l + l) + o + (tail + r) == l + (l + o + tail) + r
    ensures (l + l) + o + (tail + or + field) + ids + r == l + (l + o + tail + or + (field + ids)) + r
  {
  }

  lemma PublicStreamsText()
    ensures "(visibility = \"public\" AND private = 0)"
         == "(" + ("visibility = \"public\"" + " AND " + "private = 0") + ")"
  {
    SplitVisitor();
    SplitFirst();
    SplitSecond();
    JoinFour("(", "visibility = \"public\"", " AND ", "private = 0", ")");
  }

  lemma SplitVisitor()
    ensures "(visibility = \"public\" AND private = 0)" == "(visibility = \"public\"" + " AND private = 0)"
  {
  }

  lemma SplitFirst()
    ensures "(visibility = \"public\"" == "(" + "visibility = \"public\""
  {
  }

  lemma SplitSecond()
    ensures " AND private = 0)" == " AND " + "private = 0" + ")"
  {
  }

  lemma JoinFour(l: string, v: string, and: string, p: string, r: string)
    ensures (l + v) + (and + p + r) == l + (v + and + p) + r
  {
  }

  lemma StreamPermissionSpells(user: Option<User>, semester: Semester)
    ensures StreamPermissionText(user, semester) == AtomText(StreamPermission(user, semester))
  {
    hide AtomText, AnyText, AllText, UintSliceToString, OpenToUserText, OpenToUser, IsNotPrivate;
    NotPrivateSpells();
    match user
    case None =>
      VisibilitySpells();
      AndText(HasVisibility("public"), IsNotPrivate());
      PublicStreamsText();
    case Some(u) =>
      var req := Range(semester, semester);
      var enrolled, administered := Ids(EnrolledIn(u, req)), Ids(AdministeredIn(u, req));
      var open := Group(OpenToUser("courseID", enrolled));
      var listed := Test(In("courseID", administered));
      var both := And(open, Final(IsNotPrivate()));
      OpenToUserSpells("courseID", enrolled);
      GroupText(OpenToUser("courseID", enrolled));
      AndText(open, IsNotPrivate());
      InSpells("courseID", administered);
      FinalText(listed);
      OrOfAnd(both, Last(Final(listed)));
      GroupText(Or(both, Last(Final(listed))));
      StreamPermissionPieces(OpenToUserText("courseID", UintSliceToString(enrolled)), UintSliceToString(administered));
  }

  lemma OrOfAnd(c: Conjunction, d: Disjunction)
    ensures AnyText(Or(c, d)) == AllText(c) + " OR " + AnyText(d)
  {
  }

  lemma SemesterStreamsSpell(user: Option<User>, semester: Semester)
    ensures SemesterStreamFilter(user, semester) == AnyText(SemesterStreams(user, semester))
  {
    hide AtomText, AnyText, StreamPermissionText, StreamPermission, SemesterText, IsSemester;
    SemesterTextSpells(semester);
    StreamPermissionSpells(user, semester);
    var p, s := StreamPermission(user, semester), IsSemester(semester);
    FinalText(s);
    AndText(p, s);
    FinalText(Group(Last(And(p, Final(s)))));
    assert "(" + AtomText(p) + " AND " + AtomText(s) + ")" == "(" + (AtomText(p) + " AND " + AtomText(s)) + ")";
  }

  lemma NamedStreamsSpell(user: Option<User>, courses: seq<Course>)
    ensures NamedStreamFilter(user, courses) == AnyText(NamedStreams(user, courses))
  {
    hide AtomText, AnyText, UintSliceToString, IsNotPrivate, NamedWith;
    NotPrivateSpells();
    var administered := Ids(NamedWith(user, courses, true));
    var others := Ids(NamedWith(user, courses, false));
    var mine, theirs := Test(In("courseID", administered)), Test(In("courseID", others));
    InSpells("courseID", administered);
    InSpells("courseID", others);
    AndText(theirs, IsNotPrivate());
    var openOthers := Group(Last(And(theirs, Final(IsNotPrivate()))));
    FinalText(openOthers);
    OrText(mine, Last(Final(openOthers)));
    var both := Or(Final(mine), Last(Final(openOthers)));
    GroupText(both);
    FinalText(Group(both));
    var m, t := UintSliceToString(administered), UintSliceToString(others);
    assert "courseID IN " == "courseID" + " IN " && " AND private = 0" == " AND " + "private = 0";
    assert ("courseID" + " IN ") + t + (" AND " + "private = 0") == "courseID" + " IN " + t + " AND " + "private = 0";
    assert "(courseID IN " == "(" + ("courseID" + " IN ");
    assert " OR (courseID IN " == " OR " + "(" + ("courseID" + " IN ");
    assert " AND private = 0))" == " AND " + "private = 0" + ")" + ")";
    RegroupNamed("courseID" + " IN ", m, t, " OR ", " AND ", "private = 0");
  }

  lemma RegroupNamed(field: string, m: string, t: string, or: string, and: string, open: string)
    ensures ("(" + field) + m + (or + "(" + field) + t + (and + open + ")" + ")")
         == "(" + (field + m + or + ("(" + (field + t + and + open) + ")")) + ")"
  {
    assert ("(" + field) + m + (or + "(" + field) == "(" + (field + m + or + ("(" + field));
    assert t + (and + open + ")" + ")") == (t + and + open + ")") + ")";
  }

  // --------------------------------------------------- Subtitle filter

  /** The ids of the streams to search, where the user is admin or not. */
  function OpenIds(streams: seq<Stream>, admin: bool): seq<nat> {
    if streams == [] then []
    else
      var last := streams[|streams| - 1];
      OpenIds(streams[..|streams| - 1], admin) + (if !last.private || admin then [last.id] else [])
  }

  function SearchableStreams(user: Option<User>, course: Course): seq<nat> {
    OpenIds(course.streams, IsAdminOfCourse(user, course))
  }

  function SearchableIds(user: Option<User>, courses: seq<Course>): seq<nat> {
    if courses == [] then []
    else SearchableIds(user, courses[..|courses| - 1]) + SearchableStreams(user, courses[|courses| - 1])
  }

  /** The filter text; none at all if no course is named. */
  function SubtitleFilter(user: Option<User>, courses: seq<Course>): string {
    if courses == [] then "" else "streamID IN " + UintSliceToString(SearchableIds(user, courses))
  }

  /** The collection of stream ids, and the filter text. */
  method MeiliSubtitleFilter(user: Option<User>, courses: seq<Course>) returns (filter: string)
    ensures filter == SubtitleFilter(user, courses)
  {
    if |courses| == 0 {
      return "";
    }
    var streamIDs: seq<nat> := [];
    for i := 0 to |courses|
      invariant streamIDs == SearchableIds(user, courses[..i])
    {
      var course := courses[i];
      var admin := IsAdminOfCourse(user, course);
      ghost var before := streamIDs;
      for j := 0 to |course.streams|
        invariant streamIDs == before + OpenIds(course.streams[..j], admin)
      {
        assert course.streams[..j + 1][..j] == course.streams[..j];
        if !course.streams[j].private || admin {
          streamIDs := streamIDs + [course.streams[j].id];
        }
      }
      assert course.streams[..|course.streams|] == course.streams;
      assert courses[..i + 1][..i] == courses[..i];
    }
    assert courses[..|courses|] == courses;
    return "streamID IN " + UintSliceToString(streamIDs);
  }
}
