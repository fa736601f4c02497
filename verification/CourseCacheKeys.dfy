/**
 The course entries of the shared cache (dao/courses.go): keys concatenated from
 the parameters of a query, and the cache filled and read under them.
 */
module CourseCacheKeys {
  import opened Basics
  import opened Decimal

  datatype Query =
    | BySlug(slug: string, term: string, year: int)
    | Public(year: int, term: string)
    | PublicAndLoggedIn(year: int, term: string)
    | Administered(userID: nat, year: int, term: string)
  {
    /** The queries whose key is a year and a term run together. */
    predicate IsList() { Public? || PublicAndLoggedIn? }
  }

  function Key(q: Query): string {
    match q
    case BySlug(slug, term, year) => "courseBySlugYearAndTerm" + (slug + term + FormatInt(year))
    case Public(year, term) => "publicCourses" + (FormatInt(year) + term)
    case PublicAndLoggedIn(year, term) => "publicAndLoggedInCourses" + (FormatInt(year) + term)
    case Administered(user, year, term) =>
      "coursesByUserID" + (FormatNat(user) + ("-" + (FormatInt(year) + ("-" + term))))
  }

  /** The key a site admin's course list is filled under. */
  function AdminFillKey(userID: nat): string {
    "coursesByUserID" + FormatNat(userID)
  }

  /** A term of one letter, as the terms of the course rows are. */
  predicate IsLetter(term: string) {
    |term| == 1 && ('A' <= term[0] <= 'Z' || 'a' <= term[0] <= 'z')
  }

  predicate StartsInDigit(term: string) {
    term != "" && IsDigit(term[0])
  }

  // -------------------------------------------------------- Injectivity

  lemma SameSuffix(a: string, x: string, b: string, y: string)
    requires a + x == b + y && |x| == |y|
    ensures a == b && x == y
  {
    assert a == (a + x)[..|a|] && b == (b + y)[..|b|];
    assert x == (a + x)[|a|..] && y == (b + y)[|b|..];
  }

  lemma SamePrefix(a: string, x: string, b: string, y: string)
    requires a + x == b + y && |a| == |b|
    ensures a == b && x == y
  {
    SameSuffix(a, x, b, y);
  }

  lemma SameNumber(m: nat, n: nat)
    requires FormatNat(m) == FormatNat(n)
    ensures m == n
  {
    FormatNatRoundTrip(m);
    FormatNatRoundTrip(n);
  }

  lemma SameYear(m: int, n: int)
    requires FormatInt(m) == FormatInt(n)
    ensures m == n
  {
    hide FormatNat, FormatInt;
    SignAndSize(m);
    SignAndSize(n);
    SamePrefix(Sign(m), FormatNat(Size(m)), Sign(n), FormatNat(Size(n)));
    SameNumber(Size(m), Size(n));
  }

  function Size(n: int): nat {
    if n < 0 then -n else n
  }

  function Sign(n: int): string {
    if n < 0 then "-" else ""
  }

  lemma SignAndSize(n: int)
    ensures FormatInt(n) == Sign(n) + FormatNat(Size(n))
    ensures FormatInt(n) != "" && (FormatInt(n)[0] == '-' <==> n < 0)
  {
    hide FormatNat;
    FormatNatRoundTrip(Size(n));
  }

  /** Length of the longest suffix of digits. */
  function DigitSuffix(s: string): (n: nat)
    ensures n <= |s|
    ensures forall i :: |s| - n <= i < |s| ==> IsDigit(s[i])
    ensures n < |s| ==> !IsDigit(s[|s| - n - 1])
  {
    if s != [] && IsDigit(s[|s| - 1]) then 1 + DigitSuffix(s[..|s| - 1]) else 0
  }

  lemma PrefixOfMore(m: nat, t: string)
    ensures RunLength(FormatNat(m) + t, IsDigit) == |FormatNat(m)| + RunLength(t, IsDigit)
  {
    hide RunLength;
    var a := FormatNat(m);
    var s := a + t;
    FormatNatRoundTrip(m);
    assert forall i :: 0 <= i < |a| ==> s[i] == a[i];
    assert forall i :: 0 <= i < |t| ==> s[|a| + i] == t[i];
    RunLengthIs(s, IsDigit, |a| + RunLength(t, IsDigit));
  }

  /** A number before a text: whatever digits the text starts in are read as part
      of the number. */
  lemma SizeBeforeText(m: nat, t: string, n: nat, u: string)
    ensures var k, l := RunLength(t, IsDigit), RunLength(u, IsDigit);
            FormatNat(m) + t == FormatNat(n) + u <==>
              FormatNat(m) + t[..k] == FormatNat(n) + u[..l] && t[k..] == u[l..]
  {
    hide RunLength, FormatNat;
    var k, l := RunLength(t, IsDigit), RunLength(u, IsDigit);
    PrefixOfMore(m, t);
    PrefixOfMore(n, u);
    SplitBehind(FormatNat(m), t, k);
    SplitBehind(FormatNat(n), u, l);
    if FormatNat(m) + t == FormatNat(n) + u {
      SamePrefix(FormatNat(m) + t[..k], t[k..], FormatNat(n) + u[..l], u[l..]);
    }
  }

  lemma SplitBehind(z: string, x: string, k: nat)
    requires k <= |x|
    ensures z + x == (z + x[..k]) + x[k..] && |z + x[..k]| == |z| + k
  {
  }

  lemma YearBeforeText(m: int, t: string, n: int, u: string)
    ensures var k, l := RunLength(t, IsDigit), RunLength(u, IsDigit);
            FormatInt(m) + t == FormatInt(n) + u <==>
              FormatInt(m) + t[..k] == FormatInt(n) + u[..l] && t[k..] == u[l..]
  {
    hide RunLength, FormatNat, FormatInt;
    var k, l := RunLength(t, IsDigit), RunLength(u, IsDigit);
    SignAndSize(m);
    SignAndSize(n);
    if (m < 0) == (n < 0) {
      SizeBeforeText(Size(m), t, Size(n), u);
      BehindSign(Sign(m), FormatNat(Size(m)), t, FormatNat(Size(n)), u);
      BehindSign(Sign(m), FormatNat(Size(m)), t[..k], FormatNat(Size(n)), u[..l]);
    } else {
      assert (FormatInt(m) + t)[0] != (FormatInt(n) + u)[0];
      assert (FormatInt(m) + t[..k])[0] != (FormatInt(n) + u[..l])[0];
    }
  }

  lemma BehindSign(sign: string, a: string, t: string, b: string, u: string)
    ensures (sign + a) + t == (sign + b) + u <==> a + t == b + u
  {
    assert (sign + a) + t == sign + (a + t) && (sign + b) + u == sign + (b + u);
    if sign + (a + t) == sign + (b + u) {
      SamePrefix(sign, a + t, sign, b + u);
    }
  }

  lemma FamiliesAreApart(q: Query, r: Query)
    requires Key(q) == Key(r)
    ensures q.BySlug? == r.BySlug? && q.Public? == r.Public? && q.Administered? == r.Administered?
  {
    hide FormatNat, FormatInt;
    var k := Key(q);
    assert q.BySlug? ==> k[0] == 'c' && k[6] == 'B';
    assert q.Administered? ==> k[0] == 'c' && k[6] == 's';
    assert q.Public? ==> k[0] == 'p' && k[6] == 'C';
    assert q.PublicAndLoggedIn? ==> k[0] == 'p' && k[6] == 'A';
    var l := Key(r);
    assert r.BySlug? ==> l[0] == 'c' && l[6] == 'B';
    assert r.Administered? ==> l[0] == 'c' && l[6] == 's';
    assert r.Public? ==> l[0] == 'p' && l[6] == 'C';
    assert r.PublicAndLoggedIn? ==> l[0] == 'p' && l[6] == 'A';
  }

  // ------------------------------------------------- When keys are equal

  /** Two list queries of one kind share a key exactly when their terms are equal
      behind the digits they start in, and years and these digits run together to
      the same text; without such digits, exactly when they are the same query. */
  lemma ListKeysExact(q: Query, r: Query)
    requires q.IsList() && q.Public? == r.Public? && r.IsList()
    ensures var k, l := RunLength(q.term, IsDigit), RunLength(r.term, IsDigit);
            Key(q) == Key(r) <==>
              && FormatInt(q.year) + q.term[..k] == FormatInt(r.year) + r.term[..l]
              && q.term[k..] == r.term[l..]
    ensures !StartsInDigit(q.term) && !StartsInDigit(r.term) ==> (Key(q) == Key(r) <==> q == r)
  {
    hide RunLength, FormatInt;
    var k, l := RunLength(q.term, IsDigit), RunLength(r.term, IsDigit);
    YearBeforeText(q.year, q.term, r.year, r.term);
    if Key(q) == Key(r) {
      var prefix := if q.Public? then "publicCourses" else "publicAndLoggedInCourses";
      SamePrefix(prefix, FormatInt(q.year) + q.term, prefix, FormatInt(r.year) + r.term);
    }
    if !StartsInDigit(q.term) && !StartsInDigit(r.term) {
      assert k == 0 && l == 0;
      assert FormatInt(q.year) + q.term[..0] == FormatInt(q.year) && q.term[0..] == q.term;
      assert FormatInt(r.year) + r.term[..0] == FormatInt(r.year) && r.term[0..] == r.term;
      if Key(q) == Key(r) {
        SameYear(q.year, r.year);
      }
    }
  }

  /** Queries for administered courses share no key, whatever their terms. */
  lemma AdministeredKeys(q: Query, r: Query)
    requires q.Administered? && r.Administered? && Key(q) == Key(r)
    ensures q == r
  {
    hide FormatInt, FormatNat, RunLength;
    var x, y := "-" + (FormatInt(q.year) + ("-" + q.term)), "-" + (FormatInt(r.year) + ("-" + r.term));
    SamePrefix("coursesByUserID", FormatNat(q.userID) + x, "coursesByUserID", FormatNat(r.userID) + y);
    SizeBeforeText(q.userID, x, r.userID, y);
    NoDigitAhead('-', FormatInt(q.year) + ("-" + q.term), FormatNat(q.userID));
    NoDigitAhead('-', FormatInt(r.year) + ("-" + r.term), FormatNat(r.userID));
    SameNumber(q.userID, r.userID);
    SamePrefix("-", FormatInt(q.year) + ("-" + q.term), "-", FormatInt(r.year) + ("-" + r.term));
    YearBeforeText(q.year, "-" + q.term, r.year, "-" + r.term);
    NoDigitAhead('-', q.term, FormatInt(q.year));
    NoDigitAhead('-', r.term, FormatInt(r.year));
    SameYear(q.year, r.year);
    SamePrefix("-", q.term, "-", r.term);
  }

  lemma NoDigitAhead(c: char, t: string, z: string)
    requires !IsDigit(c)
    ensures var s := [c] + t;
            RunLength(s, IsDigit) == 0 && z + s[..0] == z && s[0..] == s
  {
    var s := [c] + t;
    assert s[0] == c;
  }

  /** What stands before the digits of the year in a slug key. */
  function Head(q: Query): string
    requires q.BySlug?
  {
    q.slug + q.term + Sign(q.year)
  }

  lemma SuffixOfMore(x: string, m: nat)
    ensures DigitSuffix(x + FormatNat(m)) == DigitSuffix(x) + |FormatNat(m)|
  {
    hide DigitSuffix;
    var a := FormatNat(m);
    var s := x + a;
    FormatNatRoundTrip(m);
    assert forall i :: 0 <= i < |a| ==> s[|x| + i] == a[i];
    assert forall i :: 0 <= i < |x| ==> s[i] == x[i];
  }

  /** A text before a number, told apart from another one that ends in no digit:
      whatever digits it ends in are read as part of the number. */
  lemma TextBeforeYear(x: string, m: nat, y: string, n: nat)
    requires DigitSuffix(y) == 0
    ensures var k := |x| - DigitSuffix(x);
            x + FormatNat(m) == y + FormatNat(n) <==> x[..k] == y && x[k..] + FormatNat(m) == FormatNat(n)
  {
    hide DigitSuffix, FormatNat;
    var k := |x| - DigitSuffix(x);
    SuffixOfMore(x, m);
    SuffixOfMore(y, n);
    SplitAt(x, k, FormatNat(m));
    if x + FormatNat(m) == y + FormatNat(n) {
      SameSuffix(x[..k], x[k..] + FormatNat(m), y, FormatNat(n));
    }
  }

  lemma SplitAt(x: string, k: nat, z: string)
    requires k <= |x|
    ensures x + z == x[..k] + (x[k..] + z) && |x[k..] + z| == |x| - k + |z|
  {
  }

  /** When two slug queries share a key, for terms of any length and any years: if
      what stands before the second year ends in no digit, exactly when the first
      has the same there up to the digits at its end, and these digits and its year
      run together to the second year. */
  lemma SlugKeysExact(q: Query, r: Query)
    requires q.BySlug? && r.BySlug? && DigitSuffix(Head(r)) == 0
    ensures var x := Head(q);
            var k := |x| - DigitSuffix(x);
            Key(q) == Key(r) <==> x[..k] == Head(r) && x[k..] + FormatNat(Size(q.year)) == FormatNat(Size(r.year))
    ensures DigitSuffix(Head(q)) == 0 ==>
              (Key(q) == Key(r) <==> Head(q) == Head(r) && Size(q.year) == Size(r.year))
  {
    hide DigitSuffix, FormatNat, FormatInt, Head;
    var x, y := Head(q), Head(r);
    SlugKeyText(q);
    SlugKeyText(r);
    TextBeforeYear(x, Size(q.year), y, Size(r.year));
    if Key(q) == Key(r) {
      SamePrefix("courseBySlugYearAndTerm", x + FormatNat(Size(q.year)),
                 "courseBySlugYearAndTerm", y + FormatNat(Size(r.year)));
    }
    if DigitSuffix(x) == 0 {
      assert x[..|x|] == x && x[|x|..] + FormatNat(Size(q.year)) == FormatNat(Size(q.year));
      if FormatNat(Size(q.year)) == FormatNat(Size(r.year)) {
        SameNumber(Size(q.year), Size(r.year));
      }
    }
  }

  lemma SlugKeyText(q: Query)
    requires q.BySlug?
    ensures Key(q) == "courseBySlugYearAndTerm" + (Head(q) + FormatNat(Size(q.year)))
  {
    hide FormatNat, FormatInt;
    SignAndSize(q.year);
    assert q.slug + q.term + FormatInt(q.year) == Head(q) + FormatNat(Size(q.year));
  }

  lemma LetterHead(r: Query)
    requires r.BySlug? && IsLetter(r.term)
    ensures DigitSuffix(Head(r)) == 0 && Head(r) != ""
    ensures r.year >= 0 ==> Head(r) == r.slug + r.term && Head(r)[|Head(r)| - 1] == r.term[0]
    ensures r.year < 0 ==> Head(r)[|Head(r)| - 1] == '-' && Head(r)[..|Head(r)| - 1] == r.slug + r.term
  {
    var y := r.slug + r.term;
    assert y[|y| - 1] == r.term[0];
  }

  lemma LetterSlugKeys(q: Query, r: Query)
    requires q.BySlug? && r.BySlug? && IsLetter(q.term) && IsLetter(r.term) && Key(q) == Key(r)
    ensures q == r
  {
    hide DigitSuffix, FormatNat, FormatInt, Head, Key;
    LetterHead(q);
    LetterHead(r);
    SlugKeysExact(q, r);
    assert q.year < 0 <==> r.year < 0;
    SameSuffix(q.slug, q.term, r.slug, r.term);
  }

  /** Keys name their queries: no two queries with letter terms, of the same kind
      or of different kinds, share a key. */
  lemma KeysAreInjective(q: Query, r: Query)
    requires IsLetter(q.term) && IsLetter(r.term) && Key(q) == Key(r)
    ensures q == r
  {
    hide Key;
    FamiliesAreApart(q, r);
    if q.BySlug? {
      LetterSlugKeys(q, r);
    } else if q.Administered? {
      AdministeredKeys(q, r);
    } else {
      ListKeysExact(q, r);
    }
  }

  /** No query reads the key that a site admin's list is filled under. */
  lemma AdminFillIsNeverRead(user: nat, q: Query)
    ensures Key(q) != AdminFillKey(user)
  {
    hide FormatNat, FormatInt;
    FormatNatRoundTrip(user);
    var prefix := "coursesByUserID";
    var k, l := Key(q), AdminFillKey(user);
    assert l[0] == 'c' && l[6] == 's';
    assert q.BySlug? ==> k[6] == 'B';
    assert q.Public? || q.PublicAndLoggedIn? ==> k[0] == 'p';
    if q.Administered? {
      assert k[|prefix| + |FormatNat(q.userID)|] == '-';
      assert forall i :: 0 <= i < |FormatNat(user)| ==> l[|prefix| + i] == FormatNat(user)[i];
      assert forall i :: |prefix| <= i < |l| ==> l[i] == FormatNat(user)[i - |prefix|] && IsDigit(l[i]);
    }
  }

  // ---------------------------------------------------------------- Runs

  /** What a cached value was computed for. */
  datatype Cached = Answer(query: Query) | AdminList(userID: nat)

  datatype Step = Fill(query: Query) | AdminFill(userID: nat) | Drop(key: string) | Clear

  function Next(cache: map<string, Cached>, step: Step): map<string, Cached> {
    match step
    case Fill(q) => cache[Key(q) := Answer(q)]
    case AdminFill(user) => cache[AdminFillKey(user) := AdminList(user)]
    case Drop(key) => cache - {key}
    case Clear => map[]
  }

  function Run(steps: seq<Step>): map<string, Cached> {
    if steps == [] then map[] else Next(Run(steps[..|steps| - 1]), steps[|steps| - 1])
  }

  lemma {:induction false} EntriesStandUnderTheirKeys(steps: seq<Step>, key: string)
    requires key in Run(steps)
    ensures key == match Run(steps)[key] case Answer(q) => Key(q) case AdminList(user) => AdminFillKey(user)
    ensures Run(steps)[key].Answer? ==> Fill(Run(steps)[key].query) in steps
  {
    var n := |steps| - 1;
    if key in Run(steps[..n]) {
      EntriesStandUnderTheirKeys(steps[..n], key);
    }
    assert steps[n] in steps && forall x :: x in steps[..n] ==> x in steps;
  }

  /** What the cache holds right after a step, key by key. */
  lemma StepExactly(steps: seq<Step>, step: Step, key: string)
    ensures var before, after := Run(steps), Run(steps + [step]);
            match step
            case Fill(q) =>
              && Key(q) in after && after[Key(q)] == Answer(q)
              && (key != Key(q) ==> Holds(after, key, before))
            case AdminFill(user) =>
              && AdminFillKey(user) in after && after[AdminFillKey(user)] == AdminList(user)
              && (key != AdminFillKey(user) ==> Holds(after, key, before))
            case Drop(k) => k !in after && (key != k ==> Holds(after, key, before))
            case Clear => key !in after
  {
    hide Key, AdminFillKey;
    assert (steps + [step])[..|steps|] == steps;
  }

  /** Both hold the same under a key. */
  predicate Holds(a: map<string, Cached>, key: string, b: map<string, Cached>) {
    (key in a <==> key in b) && (key in a && key in b ==> a[key] == b[key])
  }

  /** A slug query is filled only where a course row is found, and rows have letter
      terms. The list queries are filled for whatever term is asked, with an empty
      list if need be. */
  ghost predicate SlugFillsHaveLetters(steps: seq<Step>) {
    forall r :: Fill(r) in steps && r.BySlug? ==> IsLetter(r.term)
  }

  ghost predicate ListFillsArePlain(steps: seq<Step>) {
    forall r :: Fill(r) in steps && r.IsList() ==> !StartsInDigit(r.term)
  }

  lemma HitAnswersSomeQuery(steps: seq<Step>, q: Query) returns (r: Query)
    requires Key(q) in Run(steps)
    ensures Run(steps)[Key(q)] == Answer(r) && Fill(r) in steps && Key(q) == Key(r)
    ensures q.BySlug? == r.BySlug? && q.Public? == r.Public? && q.Administered? == r.Administered?
  {
    hide Key, Run;
    EntriesStandUnderTheirKeys(steps, Key(q));
    match Run(steps)[Key(q)]
    case Answer(query) => r := query; FamiliesAreApart(q, r);
    case AdminList(user) => AdminFillIsNeverRead(user, q);
  }

  /** Over any run, a hit of a query for administered courses is right. */
  lemma AdministeredHitIsRight(steps: seq<Step>, q: Query)
    requires q.Administered? && Key(q) in Run(steps)
    ensures Run(steps)[Key(q)] == Answer(q)
  {
    hide Key, Run;
    var r := HitAnswersSomeQuery(steps, q);
    AdministeredKeys(q, r);
  }

  /** Over any run, a hit of a slug query is right if and only if its term is a letter. */
  lemma SlugHitIsRight(steps: seq<Step>, q: Query)
    requires SlugFillsHaveLetters(steps) && q.BySlug? && Key(q) in Run(steps)
    ensures Run(steps)[Key(q)] == Answer(q) <==> IsLetter(q.term)
  {
    hide Key, Run;
    var r := HitAnswersSomeQuery(steps, q);
    if IsLetter(q.term) {
      LetterSlugKeys(q, r);
    }
  }

  /** Over any run, a hit of a list query answers a query of its kind that was
      filled; another one only if one of the two terms starts in a digit. With
      fills whose terms do not, it is right if and only if its own does not. */
  lemma ListHitIsRight(steps: seq<Step>, q: Query)
    requires q.IsList() && Key(q) in Run(steps)
    ensures exists r :: && Run(steps)[Key(q)] == Answer(r) && Fill(r) in steps
                        && r.IsList() && r.Public? == q.Public?
                        && (r == q || StartsInDigit(q.term) || StartsInDigit(r.term))
    ensures ListFillsArePlain(steps) ==> (Run(steps)[Key(q)] == Answer(q) <==> !StartsInDigit(q.term))
  {
    hide Key, Run, StartsInDigit;
    var r := HitAnswersSomeQuery(steps, q);
    ListKeysExact(q, r);
  }

  /** When a hit answers the query asked. */
  predicate Tellable(q: Query) {
    match q
    case BySlug(_, term, _) => IsLetter(term)
    case Administered(_, _, _) => true
    case _ => !StartsInDigit(q.term)
  }

  /** Main result: over any run of fills, drops and clears, where slug queries are
      filled for letter terms and list queries for terms that start in no digit, a
      hit of any query holds the answer to exactly this query if and only if its
      own term is of that sort. */
  lemma HitAnswersTheQuery(steps: seq<Step>, q: Query)
    requires SlugFillsHaveLetters(steps) && ListFillsArePlain(steps) && Key(q) in Run(steps)
    ensures Run(steps)[Key(q)] == Answer(q) <==> Tellable(q)
  {
    hide Key, Run;
    match q
    case BySlug(_, _, _) => SlugHitIsRight(steps, q);
    case Administered(_, _, _) => AdministeredHitIsRight(steps, q);
    case _ => ListHitIsRight(steps, q);
  }

  /** The course a slug query hits: the term is the last letter of slug and term run
      together, and a hyphen at their end is taken for the sign of the year. */
  function SlugHit(q: Query): Query
    requires q.BySlug? && |q.slug + q.term| > 0
  {
    var x := q.slug + q.term;
    if q.year > 0 && |x| > 1 && x[|x| - 1] == '-' then BySlug(x[..|x| - 2], x[|x| - 2..|x| - 1], -q.year)
    else BySlug(x[..|x| - 1], x[|x| - 1..], q.year)
  }

  /** What a slug query hits, over any run, if slug and term end in no digit; an
      empty term and a term of more letters hit another course. */
  lemma SlugHitExact(steps: seq<Step>, q: Query)
    requires SlugFillsHaveLetters(steps) && Key(q) in Run(steps)
    requires q.BySlug? && DigitSuffix(q.slug + q.term) == 0
    ensures |q.slug + q.term| > 0 && Run(steps)[Key(q)] == Answer(SlugHit(q))
    ensures SlugHit(q) == q <==> IsLetter(q.term)
  {
    hide Key, Run, DigitSuffix;
    var r := HitAnswersSomeQuery(steps, q);
    LetterHead(r);
    HeadEndsInNoDigit(q);
    SlugKeysExact(q, r);
    SlugHitIsRight(steps, q);
    HitFromHead(q, r);
  }

  lemma HeadEndsInNoDigit(q: Query)
    requires q.BySlug? && DigitSuffix(q.slug + q.term) == 0
    ensures DigitSuffix(Head(q)) == 0
  {
    if q.year < 0 {
      var x := Head(q);
      assert x[|x| - 1] == '-';
    } else {
      assert Head(q) == q.slug + q.term;
    }
  }

  lemma HitFromHead(q: Query, r: Query)
    requires q.BySlug? && r.BySlug? && IsLetter(r.term) && Head(q) == Head(r) && Size(q.year) == Size(r.year)
    ensures |q.slug + q.term| > 0 && SlugHit(q) == r
  {
    hide DigitSuffix, Head;
    var x, y := q.slug + q.term, r.slug + r.term;
    LetterHead(r);
    HeadBySign(q);
    assert |r.term| == 1 && y[..|y| - 1] == r.slug && y[|y| - 1..] == r.term;
    if q.year >= 0 && r.year < 0 {
      assert x == Head(r) && x[..|x| - 1] == y;
      assert x[..|x| - 2] == y[..|y| - 1] && x[|x| - 2..|x| - 1] == y[|y| - 1..];
    } else {
      assert x == y;
    }
  }

  lemma HeadBySign(q: Query)
    requires q.BySlug?
    ensures q.year >= 0 ==> Head(q) == q.slug + q.term
    ensures q.year < 0 ==> |Head(q)| > 0 && Head(q)[|Head(q)| - 1] == '-' && Head(q)[..|Head(q)| - 1] == q.slug + q.term
  {
  }

  // ------------------------------------------------------ Hits gone wrong

  lemma OneFill(r: Query)
    ensures Run([Fill(r)]) == map[Key(r) := Answer(r)]
  {
    hide Key;
    assert [Fill(r)][..0] == [];
  }

  /** A slug query with a longer term is answered with another course. */
  lemma LongTermHitsAnotherCourse(year: int)
    ensures var q, r := BySlug("eidi", "WS", year), BySlug("eidiW", "S", year);
            && SlugFillsHaveLetters([Fill(r)]) && Key(q) in Run([Fill(r)])
            && Run([Fill(r)])[Key(q)] == Answer(r) != Answer(q)
  {
    hide FormatInt, Run;
    var q, r := BySlug("eidi", "WS", year), BySlug("eidiW", "S", year);
    assert "eidi" + "WS" == "eidiW" + "S";
    assert Key(q) == Key(r);
    OneFill(r);
  }

  /** A list asked for a term that starts in a digit is served for a year and a
      letter term that were never asked. */
  lemma DigitTermFillsAnotherList()
    ensures var q, r := Public(2024, "W"), Public(202, "4W");
            && IsLetter(q.term) && Key(q) in Run([Fill(r)])
            && Run([Fill(r)])[Key(q)] == Answer(r) != Answer(q)
  {
    hide Run, Key;
    var q, r := Public(2024, "W"), Public(202, "4W");
    SameKeyFor2024();
    OneFill(r);
  }

  lemma SameKeyFor2024()
    ensures Key(Public(2024, "W")) == Key(Public(202, "4W"))
  {
    hide FormatNat;
    assert FormatNat(2024) == FormatNat(202) + [DigitChar(4)] by { LastDigit(202, 4); }
    assert DigitChar(4) == '4';
    assert FormatNat(2024) + "W" == FormatNat(202) + "4W";
  }

  lemma LastDigit(n: nat, d: nat)
    requires n > 0 && d < 10
    ensures FormatNat(10 * n + d) == FormatNat(n) + [DigitChar(d)]
  {
  }
}
