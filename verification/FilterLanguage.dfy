/**
 The filter language of the search index: conditions joined by AND and OR, where
 AND binds tighter, with parentheses; its text, a reader of that text, and the
 meaning of a filter on one index row.
 */
module FilterLanguage {
  import opened Basics
  import opened Decimal

  datatype Value = Num(n: int) | Str(s: string)

  /** One document of an index, attribute by attribute. */
  type Row = map<string, Value>

  datatype Condition =
    | Equal(field: string, value: Value)
    | Less(field: string, bound: int)
    | Greater(field: string, bound: int)
    | In(field: string, ids: seq<nat>)

  datatype Disjunction = Last(only: Conjunction) | Or(first: Conjunction, rest: Disjunction)
  datatype Conjunction = Final(last: Atom) | And(head: Atom, tail: Conjunction)
  datatype Atom = Group(inner: Disjunction) | Test(condition: Condition)

  // ------------------------------------------------------------ Meaning

  predicate Holds(c: Condition, row: Row) {
    c.field in row &&
    match c
    case Equal(f, v) => row[f] == v
    case Less(f, n) => row[f].Num? && row[f].n < n
    case Greater(f, n) => row[f].Num? && row[f].n > n
    case In(f, ids) => row[f].Num? && row[f].n >= 0 && row[f].n in ids
  }

  predicate AcceptsAny(d: Disjunction, row: Row) {
    match d
    case Last(c) => AcceptsAll(c, row)
    case Or(c, rest) => AcceptsAll(c, row) || AcceptsAny(rest, row)
  }

  predicate AcceptsAll(c: Conjunction, row: Row) {
    match c
    case Final(a) => AcceptsAtom(a, row)
    case And(a, rest) => AcceptsAtom(a, row) && AcceptsAll(rest, row)
  }

  predicate AcceptsAtom(a: Atom, row: Row) {
    match a
    case Group(d) => AcceptsAny(d, row)
    case Test(c) => Holds(c, row)
  }

  // --------------------------------------------------------------- Text

  function ValueText(v: Value): string {
    match v
    case Num(n) => FormatInt(n)
    case Str(s) => "\"" + s + "\""
  }

  /** Numbers separated by commas. */
  function IdsText(ids: seq<nat>): string {
    if ids == [] then ""
    else if |ids| == 1 then FormatNat(ids[0])
    else FormatNat(ids[0]) + "," + IdsText(ids[1..])
  }

  function ConditionText(c: Condition): string {
    match c
    case Equal(f, v) => f + " = " + ValueText(v)
    case Less(f, n) => f + " < " + FormatInt(n)
    case Greater(f, n) => f + " > " + FormatInt(n)
    case In(f, ids) => f + " IN " + ("[" + IdsText(ids) + "]")
  }

  function AnyText(d: Disjunction): string {
    match d
    case Last(c) => AllText(c)
    case Or(c, rest) => AllText(c) + " OR " + AnyText(rest)
  }

  function AllText(c: Conjunction): string {
    match c
    case Final(a) => AtomText(a)
    case And(a, rest) => AtomText(a) + " AND " + AllText(rest)
  }

  function AtomText(a: Atom): string {
    match a
    case Group(d) => "(" + AnyText(d) + ")"
    case Test(c) => ConditionText(c)
  }

  // ------------------------------------------------------------- Tokens

  datatype Token = LParen | RParen | LBracket | RBracket | Comma | EqSign | LtSign | GtSign
                 | Word(w: string) | Quoted(q: string)

  predicate IsWordChar(c: char) {
    IsDigit(c) || 'a' <= c <= 'z' || 'A' <= c <= 'Z' || c == '_' || c == '-'
  }

  predicate IsWord(s: string) {
    |s| > 0 && forall i :: 0 <= i < |s| ==> IsWordChar(s[i])
  }

  predicate IsQuotable(s: string) {
    '"' !in s && '\\' !in s
  }

  predicate IsQuotedChar(c: char) {
    c != '"' && c != '\\'
  }

  function Prepend(ts: seq<Token>, more: Option<seq<Token>>): Option<seq<Token>> {
    match more
    case None => None
    case Some(us) => Some(ts + us)
  }

  function Sign(c: char): Option<Token> {
    match c
    case '(' => Some(LParen)
    case ')' => Some(RParen)
    case '[' => Some(LBracket)
    case ']' => Some(RBracket)
    case ',' => Some(Comma)
    case '=' => Some(EqSign)
    case '<' => Some(LtSign)
    case '>' => Some(GtSign)
    case _ => None
  }

  function Lex(s: string): Option<seq<Token>>
    decreases |s|
  {
    if s == [] then Some([])
    else if s[0] == ' ' then Lex(s[1..])
    else if Sign(s[0]).Some? then Prepend([Sign(s[0]).value], Lex(s[1..]))
    else if s[0] == '"' then
      var n := RunLength(s[1..], IsQuotedChar);
      if 1 + n < |s| && s[1 + n] == '"' then Prepend([Quoted(s[1..1 + n])], Lex(s[n + 2..])) else None
    else if RunLength(s, IsWordChar) > 0 then
      var n := RunLength(s, IsWordChar);
      Prepend([Word(s[..n])], Lex(s[n..]))
    else None
  }

  // ------------------------------------------------------------- Reader

  function ReadNumber(w: string): Option<int> {
    if IsNumeral(w) then Some(NumeralValue(w))
    else if |w| > 1 && w[0] == '-' && IsNumeral(w[1..]) then
      var n: int := 0 - NumeralValue(w[1..]);
      Some(n)
    else None
  }

  /** The ids up to the closing bracket, and what follows it. */
  function ReadIds(ts: seq<Token>): (r: Option<(seq<nat>, seq<Token>)>)
    ensures r.Some? ==> |r.value.1| < |ts|
  {
    if |ts| >= 2 && ts[0].Word? && IsNumeral(ts[0].w) then
      var id := NumeralValue(ts[0].w);
      if ts[1] == RBracket then Some(([id], ts[2..]))
      else if ts[1] == Comma then
        match ReadIds(ts[2..])
        case None => None
        case Some((ids, rest)) => Some(([id] + ids, rest))
      else None
    else None
  }

  function ReadCondition(ts: seq<Token>): (r: Option<(Condition, seq<Token>)>)
    ensures r.Some? ==> |r.value.1| < |ts|
  {
    if |ts| < 3 || !ts[0].Word? then None
    else
      var f := ts[0].w;
      if ts[1] == EqSign && ts[2].Quoted? then Some((Equal(f, Str(ts[2].q)), ts[3..]))
      else if ts[1] == Word("IN") && ts[2] == LBracket then
        if |ts| > 3 && ts[3] == RBracket then Some((In(f, []), ts[4..]))
        else
          match ReadIds(ts[3..])
          case None => None
          case Some((ids, rest)) => Some((In(f, ids), rest))
      else if ts[2].Word? && ReadNumber(ts[2].w).Some? then
        var n := ReadNumber(ts[2].w).value;
        if ts[1] == EqSign then Some((Equal(f, Num(n)), ts[3..]))
        else if ts[1] == LtSign then Some((Less(f, n), ts[3..]))
        else if ts[1] == GtSign then Some((Greater(f, n), ts[3..]))
        else None
      else None
  }

  function ReadAny(ts: seq<Token>): (r: Option<(Disjunction, seq<Token>)>)
    ensures r.Some? ==> |r.value.1| < |ts|
    decreases |ts|, 2
  {
    match ReadAll(ts)
    case None => None
    case Some((c, rest)) =>
      if rest != [] && rest[0] == Word("OR") then
        match ReadAny(rest[1..])
        case None => None
        case Some((d, rest')) => Some((Or(c, d), rest'))
      else Some((Last(c), rest))
  }

  function ReadAll(ts: seq<Token>): (r: Option<(Conjunction, seq<Token>)>)
    ensures r.Some? ==> |r.value.1| < |ts|
    decreases |ts|, 1
  {
    match ReadAtom(ts)
    case None => None
    case Some((a, rest)) =>
      if rest != [] && rest[0] == Word("AND") then
        match ReadAll(rest[1..])
        case None => None
        case Some((c, rest')) => Some((And(a, c), rest'))
      else Some((Final(a), rest))
  }

  function ReadAtom(ts: seq<Token>): (r: Option<(Atom, seq<Token>)>)
    ensures r.Some? ==> |r.value.1| < |ts|
    decreases |ts|, 0
  {
    if ts != [] && ts[0] == LParen then
      match ReadAny(ts[1..])
      case None => None
      case Some((d, rest)) => if rest != [] && rest[0] == RParen then Some((Group(d), rest[1..])) else None
    else
      match ReadCondition(ts)
      case None => None
      case Some((c, rest)) => Some((Test(c), rest))
  }

  function Read(text: string): Option<Disjunction> {
    match Lex(text)
    case None => None
    case Some(ts) =>
      match ReadAny(ts)
      case None => None
      case Some((d, rest)) => if rest == [] then Some(d) else None
  }

  /** What a filter text says of a row: nothing is filtered by the empty text,
      and a text that cannot be read has no answer. */
  function Verdict(text: string, row: Row): Option<bool> {
    if text == "" then Some(true)
    else
      match Read(text)
      case None => None
      case Some(d) => Some(AcceptsAny(d, row))
  }

  // --------------------------------------------------------- Round trip

  predicate WellFormed(c: Condition) {
    IsWord(c.field) && (c.Equal? && c.value.Str? ==> IsQuotable(c.value.s))
  }

  predicate WellFormedAny(d: Disjunction) {
    match d
    case Last(c) => WellFormedAll(c)
    case Or(c, rest) => WellFormedAll(c) && WellFormedAny(rest)
  }

  predicate WellFormedAll(c: Conjunction) {
    match c
    case Final(a) => WellFormedAtom(a)
    case And(a, rest) => WellFormedAtom(a) && WellFormedAll(rest)
  }

  predicate WellFormedAtom(a: Atom) {
    match a
    case Group(d) => WellFormedAny(d)
    case Test(c) => WellFormed(c)
  }

  function ValueTokens(v: Value): seq<Token> {
    match v
    case Num(n) => [Word(FormatInt(n))]
    case Str(s) => [Quoted(s)]
  }

  function IdsTokens(ids: seq<nat>): seq<Token> {
    if ids == [] then []
    else if |ids| == 1 then [Word(FormatNat(ids[0]))]
    else [Word(FormatNat(ids[0])), Comma] + IdsTokens(ids[1..])
  }

  function ConditionTokens(c: Condition): seq<Token> {
    match c
    case Equal(f, v) => [Word(f), EqSign] + ValueTokens(v)
    case Less(f, n) => [Word(f), LtSign, Word(FormatInt(n))]
    case Greater(f, n) => [Word(f), GtSign, Word(FormatInt(n))]
    case In(f, ids) => [Word(f), Word("IN"), LBracket] + IdsTokens(ids) + [RBracket]
  }

  function AnyTokens(d: Disjunction): seq<Token> {
    match d
    case Last(c) => AllTokens(c)
    case Or(c, rest) => AllTokens(c) + [Word("OR")] + AnyTokens(rest)
  }

  function AllTokens(c: Conjunction): seq<Token> {
    match c
    case Final(a) => AtomTokens(a)
    case And(a, rest) => AtomTokens(a) + [Word("AND")] + AllTokens(rest)
  }

  function AtomTokens(a: Atom): seq<Token> {
    match a
    case Group(d) => [LParen] + AnyTokens(d) + [RParen]
    case Test(c) => ConditionTokens(c)
  }

  /** A word may end here: the text is over or goes on with another character. */
  predicate Bounded(rest: string) {
    rest == [] || !IsWordChar(rest[0])
  }

  lemma WordRunIs(w: string, rest: string)
    requires IsWord(w) && Bounded(rest)
    ensures RunLength(w + rest, IsWordChar) == |w|
  {
    hide RunLength;
    var s := w + rest;
    assert forall i :: 0 <= i < |w| ==> s[i] == w[i];
    assert rest != [] ==> s[|w|] == rest[0];
  }

  lemma LexWord(w: string, rest: string)
    requires IsWord(w) && Bounded(rest)
    ensures Lex(w + rest) == Prepend([Word(w)], Lex(rest))
  {
    hide RunLength, Prepend;
    WordRunIs(w, rest);
    var s := w + rest;
    assert s[..|w|] == w && s[|w|..] == rest;
    assert s[0] == w[0] && IsWordChar(s[0]);
  }

  lemma LexSign(c: char, rest: string)
    requires Sign(c).Some?
    ensures Lex([c] + rest) == Prepend([Sign(c).value], Lex(rest))
  {
    assert ([c] + rest)[1..] == rest;
  }

  lemma LexSpace(rest: string)
    ensures Lex(" " + rest) == Lex(rest)
  {
    assert (" " + rest)[1..] == rest;
  }

  lemma QuoteRunIs(q: string, rest: string)
    requires IsQuotable(q)
    ensures RunLength(q + "\"" + rest, IsQuotedChar) == |q|
  {
    hide RunLength;
    var s := q + "\"" + rest;
    assert forall i :: 0 <= i < |q| ==> s[i] == q[i] && q[i] in q;
    assert s[|q|] == '"';
  }

  lemma LexQuoted(q: string, rest: string)
    requires IsQuotable(q)
    ensures Lex("\"" + q + "\"" + rest) == Prepend([Quoted(q)], Lex(rest))
  {
    hide RunLength, Prepend, IsQuotable;
    var s := "\"" + q + "\"" + rest;
    assert s[1..] == q + "\"" + rest;
    assert RunLength(s[1..], IsQuotedChar) == |q| by { QuoteRunIs(q, rest); }
    assert s[1..1 + |q|] == q && s[|q| + 2..] == rest;
  }

  /** A keyword between spaces. */
  lemma LexKeyword(w: string, rest: string)
    requires IsWord(w)
    ensures Lex(" " + w + " " + rest) == Prepend([Word(w)], Lex(rest))
  {
    LexSpace(w + (" " + rest));
    assert " " + w + " " + rest == " " + (w + (" " + rest));
    LexWord(w, " " + rest);
    LexSpace(rest);
  }

  lemma LexOperator(c: char, rest: string)
    requires Sign(c).Some?
    ensures Lex(" " + [c] + " " + rest) == Prepend([Sign(c).value], Lex(rest))
  {
    assert " " + [c] + " " + rest == " " + ([c] + (" " + rest));
    LexSpace([c] + (" " + rest));
    LexSign(c, " " + rest);
    LexSpace(rest);
  }

  lemma NumbersAreWords(n: int)
    ensures n >= 0 ==> IsWord(FormatNat(n))
    ensures IsWord(FormatInt(n))
    ensures n >= 0 ==> IsNumeral(FormatNat(n)) && NumeralValue(FormatNat(n)) == n
    ensures ReadNumber(FormatInt(n)) == Some(n)
  {
    hide FormatNat;
    var m := if n < 0 then -n else n;
    FormatNatRoundTrip(m);
    NumeralIsWord(FormatNat(m));
    if n < 0 {
      NegatedIsWord(FormatNat(m));
      assert ("-" + FormatNat(m))[1..] == FormatNat(m);
    } else {
      assert FormatNat(m)[0] != '-';
    }
  }

  lemma NumeralIsWord(x: string)
    requires IsNumeral(x)
    ensures IsWord(x)
  {
  }

  lemma NegatedIsWord(x: string)
    requires IsNumeral(x)
    ensures IsWord("-" + x)
  {
  }

  lemma PrependTwice(a: seq<Token>, b: seq<Token>, more: Option<seq<Token>>)
    ensures Prepend(a, Prepend(b, more)) == Prepend(a + b, more)
  {
    if more.Some? {
      assert a + (b + more.value) == (a + b) + more.value;
    }
  }

  lemma PrependNothing(more: Option<seq<Token>>)
    ensures Prepend([], more) == more
  {
    if more.Some? {
      assert [] + more.value == more.value;
    }
  }

  lemma {:induction false} LexIds(ids: seq<nat>, rest: string)
    requires Bounded(rest)
    ensures Lex(IdsText(ids) + rest) == Prepend(IdsTokens(ids), Lex(rest))
  {
    hide Lex, Prepend, FormatNat, IsWord, IsNumeral, NumeralValue;
    if ids == [] {
      assert IdsText(ids) + rest == rest;
      PrependNothing(Lex(rest));
    } else {
      var word := FormatNat(ids[0]);
      NumbersAreWords(ids[0]);
      if |ids| == 1 {
        LexWord(word, rest);
      } else {
        var more := IdsText(ids[1..]) + rest;
        assert IdsText(ids) + rest == word + ([','] + more);
        LexWord(word, [','] + more);
        LexSign(',', more);
        LexIds(ids[1..], rest);
        PrependTwice([Comma], IdsTokens(ids[1..]), Lex(rest));
        PrependTwice([Word(word)], [Comma] + IdsTokens(ids[1..]), Lex(rest));
        assert [Word(word)] + ([Comma] + IdsTokens(ids[1..])) == IdsTokens(ids);
      }
    }
  }

  lemma LexCondition(c: Condition, rest: string)
    requires WellFormed(c) && Bounded(rest)
    ensures Lex(ConditionText(c) + rest) == Prepend(ConditionTokens(c), Lex(rest))
  {
    hide Lex, Prepend, FormatInt, IsWord, IsQuotable, IdsText, ValueText;
    match c
    case Equal(f, v) => LexEqual(f, v, rest);
    case Less(f, n) => LexComparison(f, '<', n, rest);
      assert ConditionText(c) + rest == f + (" " + ['<'] + " " + (FormatInt(n) + rest));
    case Greater(f, n) => LexComparison(f, '>', n, rest);
      assert ConditionText(c) + rest == f + (" " + ['>'] + " " + (FormatInt(n) + rest));
    case In(f, ids) => LexIn(f, ids, rest);
  }

  lemma LexEqual(f: string, v: Value, rest: string)
    requires WellFormed(Equal(f, v)) && Bounded(rest)
    ensures Lex(ConditionText(Equal(f, v)) + rest) == Prepend(ConditionTokens(Equal(f, v)), Lex(rest))
  {
    hide Lex, Prepend, IsWord, ValueText, ValueTokens;
    var tail := ValueText(v) + rest;
    assert ConditionText(Equal(f, v)) + rest == f + (" " + ['='] + " " + tail);
    LexWord(f, " " + ['='] + " " + tail);
    LexOperator('=', tail);
    LexValue(v, rest);
    PrependTwice([EqSign], ValueTokens(v), Lex(rest));
    PrependTwice([Word(f)], [EqSign] + ValueTokens(v), Lex(rest));
    assert [Word(f)] + ([EqSign] + ValueTokens(v)) == ConditionTokens(Equal(f, v));
  }

  lemma LexValue(v: Value, rest: string)
    requires (v.Str? ==> IsQuotable(v.s)) && Bounded(rest)
    ensures Lex(ValueText(v) + rest) == Prepend(ValueTokens(v), Lex(rest))
  {
    hide Lex, Prepend, FormatInt, IsWord, IsQuotable;
    match v
    case Num(n) => NumbersAreWords(n); LexWord(FormatInt(n), rest);
    case Str(q) => LexQuoted(q, rest);
  }

  lemma LexIn(f: string, ids: seq<nat>, rest: string)
    requires IsWord(f)
    ensures Lex(ConditionText(In(f, ids)) + rest) == Prepend(ConditionTokens(In(f, ids)), Lex(rest))
  {
    hide Lex, Prepend;
    var close := [']'] + rest;
    var list := ['['] + (IdsText(ids) + close);
    assert ConditionText(In(f, ids)) + rest == f + (" " + "IN" + " " + list);
    LexWord(f, " " + "IN" + " " + list);
    LexKeyword("IN", list);
    LexSign('[', IdsText(ids) + close);
    LexIds(ids, close);
    LexSign(']', rest);
    var inner := IdsTokens(ids) + [RBracket];
    PrependTwice(IdsTokens(ids), [RBracket], Lex(rest));
    PrependTwice([LBracket], inner, Lex(rest));
    PrependTwice([Word("IN")], [LBracket] + inner, Lex(rest));
    PrependTwice([Word(f)], [Word("IN")] + ([LBracket] + inner), Lex(rest));
    assert [Word(f)] + ([Word("IN")] + ([LBracket] + inner)) == ConditionTokens(In(f, ids));
  }

  lemma LexComparison(f: string, sign: char, n: int, rest: string)
    requires IsWord(f) && Bounded(rest) && Sign(sign).Some?
    ensures Lex(f + (" " + [sign] + " " + (FormatInt(n) + rest))) ==
            Prepend([Word(f), Sign(sign).value, Word(FormatInt(n))], Lex(rest))
  {
    hide Lex, Prepend;
    LexWord(f, " " + [sign] + " " + (FormatInt(n) + rest));
    LexOperator(sign, FormatInt(n) + rest);
    NumbersAreWords(n);
    LexWord(FormatInt(n), rest);
    PrependTwice([Sign(sign).value], [Word(FormatInt(n))], Lex(rest));
    PrependTwice([Word(f)], [Sign(sign).value] + [Word(FormatInt(n))], Lex(rest));
    assert [Word(f)] + ([Sign(sign).value] + [Word(FormatInt(n))]) == [Word(f), Sign(sign).value, Word(FormatInt(n))];
  }

  lemma {:induction false} LexAny(d: Disjunction, rest: string)
    requires WellFormedAny(d) && Bounded(rest)
    ensures Lex(AnyText(d) + rest) == Prepend(AnyTokens(d), Lex(rest))
  {
    hide Lex, Prepend;
    match d
    case Last(c) => LexAll(c, rest);
    case Or(c, more) =>
      var tail := AnyText(more) + rest;
      assert AnyText(d) + rest == AllText(c) + (" " + "OR" + " " + tail);
      LexAll(c, " " + "OR" + " " + tail);
      LexKeyword("OR", tail);
      LexAny(more, rest);
      PrependTwice([Word("OR")], AnyTokens(more), Lex(rest));
      PrependTwice(AllTokens(c), [Word("OR")] + AnyTokens(more), Lex(rest));
      assert AllTokens(c) + ([Word("OR")] + AnyTokens(more)) == AnyTokens(d);
  }

  lemma {:induction false} LexAll(c: Conjunction, rest: string)
    requires WellFormedAll(c) && Bounded(rest)
    ensures Lex(AllText(c) + rest) == Prepend(AllTokens(c), Lex(rest))
  {
    hide Lex, Prepend;
    match c
    case Final(a) => LexAtom(a, rest);
    case And(a, more) =>
      var tail := AllText(more) + rest;
      assert AllText(c) + rest == AtomText(a) + (" " + "AND" + " " + tail);
      LexAtom(a, " " + "AND" + " " + tail);
      LexKeyword("AND", tail);
      LexAll(more, rest);
      PrependTwice([Word("AND")], AllTokens(more), Lex(rest));
      PrependTwice(AtomTokens(a), [Word("AND")] + AllTokens(more), Lex(rest));
      assert AtomTokens(a) + ([Word("AND")] + AllTokens(more)) == AllTokens(c);
  }

  lemma {:induction false} LexAtom(a: Atom, rest: string)
    requires WellFormedAtom(a) && Bounded(rest)
    ensures Lex(AtomText(a) + rest) == Prepend(AtomTokens(a), Lex(rest))
  {
    hide Lex, Prepend;
    match a
    case Test(c) => LexCondition(c, rest);
    case Group(d) =>
      assert AtomText(a) + rest == ['('] + (AnyText(d) + ([')'] + rest));
      LexSign('(', AnyText(d) + ([')'] + rest));
      LexAny(d, [')'] + rest);
      LexSign(')', rest);
      PrependTwice(AnyTokens(d), [RParen], Lex(rest));
      PrependTwice([LParen], AnyTokens(d) + [RParen], Lex(rest));
      assert [LParen] + (AnyTokens(d) + [RParen]) == AtomTokens(a);
  }

  // ---------------------------------------------- Tokens back to filters

  /** No further condition follows, at either level. */
  predicate Stops(rest: seq<Token>) {
    rest == [] || (rest[0] != Word("OR") && rest[0] != Word("AND"))
  }

  lemma {:induction false} ReadIdsTokens(ids: seq<nat>, rest: seq<Token>)
    requires ids != []
    ensures ReadIds(IdsTokens(ids) + ([RBracket] + rest)) == Some((ids, rest))
  {
    hide IdsTokens, ReadIds;
    var ts := IdsTokens(ids) + ([RBracket] + rest);
    IdsTokensSplit(ids);
    if |ids| == 1 {
      assert ts == [Word(FormatNat(ids[0])), RBracket] + rest;
      ReadLastId(ids[0], rest);
      assert ids == [ids[0]];
    } else {
      var tail := IdsTokens(ids[1..]) + ([RBracket] + rest);
      assert ts == [Word(FormatNat(ids[0])), Comma] + tail;
      ReadIdsTokens(ids[1..], rest);
      ReadOneId(ids[0], tail);
      assert ids == [ids[0]] + ids[1..];
    }
  }

  lemma IdsTokensSplit(ids: seq<nat>)
    requires ids != []
    ensures IdsTokens(ids) == if |ids| == 1 then [Word(FormatNat(ids[0]))]
                              else [Word(FormatNat(ids[0])), Comma] + IdsTokens(ids[1..])
  {
    hide FormatNat;
  }

  lemma ReadLastId(id: nat, rest: seq<Token>)
    ensures ReadIds([Word(FormatNat(id)), RBracket] + rest) == Some(([id], rest))
  {
    hide FormatNat, FormatInt, IsWord, IsNumeral, NumeralValue, ReadNumber;
    NumbersAreWords(id);
    assert ([Word(FormatNat(id)), RBracket] + rest)[2..] == rest;
  }

  lemma ReadOneId(id: nat, tail: seq<Token>)
    ensures ReadIds([Word(FormatNat(id)), Comma] + tail) ==
            match ReadIds(tail)
            case None => None
            case Some((ids, rest)) => Some(([id] + ids, rest))
  {
    hide FormatNat, FormatInt, IsWord, IsNumeral, NumeralValue, ReadNumber;
    NumbersAreWords(id);
    assert ([Word(FormatNat(id)), Comma] + tail)[2..] == tail;
  }

  lemma ReadInTokens(f: string, ids: seq<nat>, rest: seq<Token>)
    ensures ReadCondition(ConditionTokens(In(f, ids)) + rest) == Some((In(f, ids), rest))
  {
    hide IsNumeral, NumeralValue, ReadNumber, FormatNat, ReadIds;
    var ts := ConditionTokens(In(f, ids)) + rest;
    if ids == [] {
      assert ts[4..] == rest;
    } else {
      assert ts[3..] == IdsTokens(ids) + ([RBracket] + rest);
      ReadIdsTokens(ids, rest);
      assert ts[3] == Word(FormatNat(ids[0]));
    }
  }

  lemma ReadConditionTokens(c: Condition, rest: seq<Token>)
    ensures ReadCondition(ConditionTokens(c) + rest) == Some((c, rest))
  {
    hide IsNumeral, NumeralValue, ReadNumber, FormatInt;
    if c.In? {
      ReadInTokens(c.field, c.ids, rest);
    } else {
      var ts := ConditionTokens(c) + rest;
      assert ts[3..] == rest;
      if c.Less? || c.Greater? {
        NumbersAreWords(c.bound);
      } else if c.value.Num? {
        NumbersAreWords(c.value.n);
      }
    }
  }

  lemma {:induction false} ReadAnyTokens(d: Disjunction, rest: seq<Token>)
    requires Stops(rest)
    ensures ReadAny(AnyTokens(d) + rest) == Some((d, rest))
  {
    var ts := AnyTokens(d) + rest;
    match d
    case Last(c) => ReadAllTokens(c, rest);
    case Or(c, more) =>
      var tail := [Word("OR")] + (AnyTokens(more) + rest);
      assert ts == AllTokens(c) + tail;
      assert tail[1..] == AnyTokens(more) + rest;
      ReadAllTokens(c, tail);
      ReadAnyTokens(more, rest);
  }

  lemma {:induction false} ReadAllTokens(c: Conjunction, rest: seq<Token>)
    requires rest == [] || rest[0] != Word("AND")
    ensures ReadAll(AllTokens(c) + rest) == Some((c, rest))
  {
    var ts := AllTokens(c) + rest;
    match c
    case Final(a) => ReadAtomTokens(a, rest);
    case And(a, more) =>
      var tail := [Word("AND")] + (AllTokens(more) + rest);
      assert ts == AtomTokens(a) + tail;
      assert tail[1..] == AllTokens(more) + rest;
      ReadAtomTokens(a, tail);
      ReadAllTokens(more, rest);
  }

  lemma {:induction false} ReadAtomTokens(a: Atom, rest: seq<Token>)
    ensures ReadAtom(AtomTokens(a) + rest) == Some((a, rest))
  {
    var ts := AtomTokens(a) + rest;
    match a
    case Test(c) =>
      ReadConditionTokens(c, rest);
    case Group(d) =>
      var tail := [RParen] + rest;
      assert ts[1..] == AnyTokens(d) + tail;
      ReadAnyTokens(d, tail);
      assert tail[1..] == rest;
  }

  /** Reading the text of a filter gives the filter back, with AND tighter than
      OR and without parentheses that the text does not have. */
  lemma ReadText(d: Disjunction)
    requires WellFormedAny(d)
    ensures Read(AnyText(d)) == Some(d)
  {
    hide Lex, ReadAny;
    LexAny(d, "");
    assert AnyText(d) + "" == AnyText(d);
    assert Lex("") == Some([]) by { LexNothing(); }
    assert AnyTokens(d) + [] == AnyTokens(d);
    ReadAnyTokens(d, []);
  }

  lemma LexNothing()
    ensures Lex("") == Some([])
  {
  }

  /** A filter's text is never empty. */
  lemma TextIsNotEmpty(d: Disjunction)
    ensures AnyText(d) != ""
  {
    var c := if d.Last? then d.only else d.first;
    var a := if c.Final? then c.last else c.head;
    assert |AtomText(a)| >= 2;
    assert |AllText(c)| >= |AtomText(a)|;
    assert |AnyText(d)| >= |AllText(c)|;
  }

  /** What the text says of a row is what the filter means on it. */
  lemma VerdictOfText(d: Disjunction, row: Row)
    requires WellFormedAny(d)
    ensures Verdict(AnyText(d), row) == Some(AcceptsAny(d, row))
  {
    ReadText(d);
    TextIsNotEmpty(d);
  }
}
