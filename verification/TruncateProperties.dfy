/**
 What truncation promises (tools/truncate.go): a cut at a token boundary that
 keeps the wanted number of visible characters, balanced output, and the exact
 inputs on which the scanner reports unbalanced tags or runs off its match.
 */
module TruncateProperties {
  import opened Basics
  import opened Truncate

  // ------------------------------------------------------------- Tokens

  /** `width` is the byte width of the first rune of a text token. */
  datatype Token = Chars(length: nat, visible: bool, width: nat) | Element(tag: Tag)
  {
    function Length(): nat { if Chars? then length else tag.length }
    predicate Visible() { Chars? && visible }
    predicate Wide() { Chars? && width > 1 }
  }

  /** A '<' that starts no match of `TagExpr`. */
  predicate IsStray(buf: string, at: nat)
    requires at <= |buf|
  {
    at < |buf| && buf[at] == '<' && MatchTag(buf[at..]).None?
  }

  function FirstToken(isVisible: int -> bool, buf: string, at: nat): (t: Token)
    requires at < |buf| && !IsStray(buf, at)
    ensures 1 <= t.Length() <= |buf| - at
  {
    if buf[at] == '<' then Element(MatchTag(buf[at..]).value)
    else
      var t := NextText(isVisible, buf[at..]);
      Chars(t.length, t.visible, DecodeRune(buf[at..]).size)
  }

  /** The buffer as tags and text, up to the first '<' between them that starts no
      tag, or to its end; whatever the budget and the tags say. */
  function Tokens(isVisible: int -> bool, buf: string, at: nat): seq<Token>
    requires at <= |buf|
    decreases |buf| - at
  {
    if at == |buf| || IsStray(buf, at) then []
    else
      var t := FirstToken(isVisible, buf, at);
      [t] + Tokens(isVisible, buf, at + t.Length())
  }

  /** Where the tokens end. */
  lemma {:induction false} EndOfTokens(isVisible: int -> bool, buf: string, at: nat)
    requires at <= |buf|
    ensures var q := at + Length(Tokens(isVisible, buf, at));
            q <= |buf| && (q < |buf| ==> IsStray(buf, q))
    decreases |buf| - at
  {
    hide FirstToken, IsStray, Length;
    if at < |buf| && !IsStray(buf, at) {
      var t := FirstToken(isVisible, buf, at);
      EndOfTokens(isVisible, buf, at + t.Length());
      LengthOfCons(t, Tokens(isVisible, buf, at + t.Length()));
    } else {
      assert Length([]) == 0 by { NoLength(); }
    }
  }

  lemma NoLength()
    ensures Length([]) == 0
  {
  }

  lemma LengthOfCons(t: Token, ts: seq<Token>)
    ensures Length([t] + ts) == t.Length() + Length(ts)
  {
    assert ([t] + ts)[1..] == ts;
  }

  /** The tokens hold enough visible characters, or are the whole buffer. */
  predicate Suffices(isVisible: int -> bool, buf: string, at: nat, room: nat)
    requires at <= |buf|
  {
    var ts := Tokens(isVisible, buf, at);
    VisibleCount(ts) >= room || at + Length(ts) == |buf|
  }

  function Length(ts: seq<Token>): nat {
    if ts == [] then 0 else ts[0].Length() + Length(ts[1..])
  }

  function VisibleCount(ts: seq<Token>): nat {
    if ts == [] then 0 else (if ts[0].Visible() then 1 else 0) + VisibleCount(ts[1..])
  }

  function RunTags(ts: seq<Token>, open: seq<string>): Option<seq<string>> {
    if ts == [] then Some(open)
    else if ts[0].Chars? then RunTags(ts[1..], open)
    else
      match Step(open, ts[0].tag)
      case None => None
      case Some(open') => RunTags(ts[1..], open')
  }

  /** How many tokens it takes to collect `room` visible characters. */
  function Needed(ts: seq<Token>, room: nat): (k: nat)
    ensures k <= |ts|
  {
    if ts == [] || room == 0 then 0
    else 1 + Needed(ts[1..], if ts[0].Visible() then room - 1 else room)
  }

  function Min(a: nat, b: nat): nat {
    if a < b then a else b
  }

  predicate EndsWide(ts: seq<Token>) {
    ts != [] && ts[|ts| - 1].Wide()
  }

  /** The needed tokens are the shortest prefix with enough visible characters,
      or all tokens if there are not enough. */
  lemma {:induction false} NeededIsShortest(ts: seq<Token>, room: nat)
    ensures VisibleCount(ts[..Needed(ts, room)]) == Min(room, VisibleCount(ts))
    ensures forall j :: 0 <= j < Needed(ts, room) ==> VisibleCount(ts[..j]) < room
    ensures VisibleCount(ts) < room ==> Needed(ts, room) == |ts|
  {
    if ts != [] && room > 0 {
      var room' := if ts[0].Visible() then room - 1 else room;
      var k := Needed(ts, room);
      NeededIsShortest(ts[1..], room');
      assert ts[..k][1..] == ts[1..][..k - 1];
      forall j | 0 <= j < k ensures VisibleCount(ts[..j]) < room {
        if j > 0 {
          assert ts[..j][1..] == ts[1..][..j - 1];
        }
      }
    }
  }

  // --------------------------------------------------- The walk, by tokens

  /** How far the tokens bring a scan: to its end, or to their end with the room
      and the open tags then left. */
  datatype Progress = Ended(outcome: Outcome) | OutOfTokens(at: nat, room: nat, open: seq<string>)

  function ByTokens(ts: seq<Token>, at: nat, room: nat, open: seq<string>): Progress {
    var kept := ts[..Needed(ts, room)];
    match RunTags(kept, open)
    case None => Ended(Unbalanced)
    case Some(open') =>
      if VisibleCount(ts) >= room then Ended(Cut(at + Length(kept), open'))
      else OutOfTokens(at + Length(kept), room - VisibleCount(ts), open')
  }

  lemma ByTokensCons(t: Token, ts: seq<Token>, at: nat, room: nat, open: seq<string>)
    requires room > 0
    ensures t.Element? && Step(open, t.tag).None? ==> ByTokens([t] + ts, at, room, open) == Ended(Unbalanced)
    ensures t.Element? && Step(open, t.tag).Some? ==>
              ByTokens([t] + ts, at, room, open) == ByTokens(ts, at + t.Length(), room, Step(open, t.tag).value)
    ensures t.Chars? ==>
              ByTokens([t] + ts, at, room, open) ==
              ByTokens(ts, at + t.Length(), if t.Visible() then room - 1 else room, open)
  {
    var all := [t] + ts;
    var room' := if t.Visible() then room - 1 else room;
    assert all[1..] == ts;
    var k := Needed(ts, room');
    assert all[..k + 1] == [t] + ts[..k];
    assert all[..k + 1][1..] == ts[..k];
    assert VisibleCount(all) == (if t.Visible() then 1 else 0) + VisibleCount(ts);
  }

  lemma NoTokensNeeded(ts: seq<Token>, at: nat, room: nat, open: seq<string>)
    requires ts == [] || room == 0
    ensures ByTokens(ts, at, room, open) == if room == 0 then Ended(Cut(at, open)) else OutOfTokens(at, room, open)
  {
    assert ts[..0] == [];
  }

  /** What the scan does once the tokens before `at` are used up: at the end of the
      buffer it fails if the last of them is wide; at a '<' that starts no tag it
      cuts behind it if it is the last byte, fails if no tag follows anywhere, and
      else goes on at `at` plus the length of the first tag that follows. */
  ghost predicate GoesOn(isVisible: int -> bool, buf: string, wide: bool, at: nat, room: nat,
                         open: seq<string>, w: Outcome)
    requires at <= |buf|
  {
    if at == |buf| then w == if wide then Panic else Cut(|buf|, open)
    else if at == |buf| - 1 then w == Cut(|buf|, open)
    else
      && (NoTagFrom(buf, at) ==> w == Panic)
      && forall p :: at <= p <= |buf| && IsFirstTagFrom(buf, at, p) ==>
                       var tag := MatchTag(buf[p..]).value;
                       match Step(open, tag)
                       case None => w == Unbalanced
                       case Some(open') => w == Walk(isVisible, buf, at + tag.length, room, open')
  }

  predicate NoTagFrom(buf: string, at: nat) {
    forall p :: at <= p <= |buf| ==> MatchTag(buf[p..]).None?
  }

  predicate IsFirstTagFrom(buf: string, at: nat, p: nat)
    requires at <= p <= |buf|
  {
    MatchTag(buf[p..]).Some? && forall j :: at <= j < p ==> MatchTag(buf[j..]).None?
  }

  /** One of the two cases applies. */
  lemma {:induction false} TagOrNone(buf: string, at: nat)
    requires at <= |buf|
    ensures NoTagFrom(buf, at) || exists p :: at <= p <= |buf| && IsFirstTagFrom(buf, at, p)
    decreases |buf| - at
  {
    hide MatchTag;
    if MatchTag(buf[at..]).Some? {
      assert IsFirstTagFrom(buf, at, at);
    } else if at < |buf| {
      TagOrNone(buf, at + 1);
      if !NoTagFrom(buf, at + 1) {
        var p :| at + 1 <= p <= |buf| && IsFirstTagFrom(buf, at + 1, p);
        assert IsFirstTagFrom(buf, at, p);
      }
    }
  }

  lemma FindTagIsFirst(buf: string, at: nat)
    requires at <= |buf|
    ensures NoTagFrom(buf, at) ==> FindTag(buf[at..]).None?
    ensures forall p :: at <= p <= |buf| && IsFirstTagFrom(buf, at, p) ==> FindTag(buf[at..]) == MatchTag(buf[p..])
  {
    hide MatchTag, FindTag;
    var s := buf[at..];
    FindTagIsLeftmost(s);
    assert forall i :: 0 <= i <= |s| ==> s[i..] == buf[at + i..];
    forall p | at <= p <= |buf| && IsFirstTagFrom(buf, at, p) ensures FindTag(s) == MatchTag(buf[p..]) {
      assert s[p - at..] == buf[p..];
      var i :| 0 <= i < |s| && MatchTag(s[i..]) == FindTag(s) && forall j :: 0 <= j < i ==> MatchTag(s[j..]).None?;
      assert MatchTag(buf[at + i..]).Some? && at + i == p;
    }
  }

  lemma StrayGoesOn(isVisible: int -> bool, buf: string, wide: bool, at: nat, room: nat, open: seq<string>)
    requires at < |buf| && IsStray(buf, at) && room > 0
    ensures GoesOn(isVisible, buf, wide, at, room, open, Walk(isVisible, buf, at, room, open))
  {
    hide MatchTag, FindTag, Step, NoTagFrom, Walk;
    FindTagIsFirst(buf, at);
    WalkAtBracket(isVisible, buf, at, room, open);
  }

  lemma WalkAtBracket(isVisible: int -> bool, buf: string, at: nat, room: nat, open: seq<string>)
    requires at < |buf| && buf[at] == '<' && room > 0
    ensures Walk(isVisible, buf, at, room, open) == WalkTag(isVisible, buf, at, room, open)
  {
    hide WalkTag;
  }

  lemma FindTagAtMatch(s: string)
    requires MatchTag(s).Some?
    ensures FindTag(s) == MatchTag(s)
  {
  }

  ghost predicate FollowsTokens(isVisible: int -> bool, buf: string, wide: bool, p: Progress, w: Outcome) {
    match p
    case Ended(outcome) => w == outcome
    case OutOfTokens(q, room, open) => q <= |buf| && GoesOn(isVisible, buf, wide, q, room, open, w)
  }

  /** One token of the scan, with room left for it. */
  lemma WalkOneToken(isVisible: int -> bool, buf: string, at: nat, room: nat, open: seq<string>)
    requires at < |buf| && !IsStray(buf, at) && room > 0
    ensures var t := FirstToken(isVisible, buf, at);
            var next, room' := at + t.Length(), if t.Visible() then room - 1 else room;
            var w := Walk(isVisible, buf, at, room, open);
            && (t.Chars? ==> w == if room' > 0 && next == |buf| && t.Wide() then Panic
                                  else Walk(isVisible, buf, next, room', open))
            && (t.Element? ==> w == match Step(open, t.tag)
                                    case None => Unbalanced
                                    case Some(open') => Walk(isVisible, buf, next, room, open'))
  {
    hide NextText, DecodeRune, FindTag, MatchTag, Step;
    if buf[at] == '<' {
      LoneBracketIsNoTag(buf, at);
      FindTagAtMatch(buf[at..]);
      WalkAtBracket(isVisible, buf, at, room, open);
    }
  }

  lemma WideEnd(t: Token, ts: seq<Token>)
    ensures EndsWide([t] + ts) == if ts == [] then t.Wide() else EndsWide(ts)
  {
  }

  /** The scan from behind the last token. */
  lemma WalkPastTokens(isVisible: int -> bool, buf: string, wide: bool, at: nat, room: nat,
                         open: seq<string>, w: Outcome)
    requires at <= |buf| && Tokens(isVisible, buf, at) == []
    requires w == if room > 0 && at == |buf| && wide then Panic else Walk(isVisible, buf, at, room, open)
    ensures FollowsTokens(isVisible, buf, wide, ByTokens([], at, room, open), w)
  {
    hide ByTokens, FirstToken, WalkTag, MatchTag, NoTagFrom, IsFirstTagFrom;
    NoTokensNeeded([], at, room, open);
    if room > 0 && at < |buf| {
      StrayGoesOn(isVisible, buf, wide, at, room, open);
    }
  }

  /** On every buffer the scan does what its tokens say, and what the '<' behind
      them says if they do not suffice. */
  lemma {:induction false} WalkByTokens(isVisible: int -> bool, buf: string, at: nat, room: nat, open: seq<string>)
    requires at <= |buf|
    ensures var ts := Tokens(isVisible, buf, at);
            FollowsTokens(isVisible, buf, EndsWide(ts), ByTokens(ts, at, room, open),
                          Walk(isVisible, buf, at, room, open))
    decreases |buf| - at
  {
    hide ByTokens, FirstToken, Step, GoesOn, EndsWide, Walk, IsStray;
    var ts := Tokens(isVisible, buf, at);
    if room == 0 {
      NoTokensNeeded(ts, at, room, open);
      assert Walk(isVisible, buf, at, room, open) == Cut(at, open) by { NoRoom(isVisible, buf, at, open); }
    } else if ts == [] {
      WalkPastTokens(isVisible, buf, false, at, room, open, Walk(isVisible, buf, at, room, open));
      assert !EndsWide(ts) by { NoneIsWide(); }
    } else {
      var t := FirstToken(isVisible, buf, at);
      var next := at + t.Length();
      var rest := Tokens(isVisible, buf, next);
      var room' := if t.Visible() then room - 1 else room;
      WalkOneToken(isVisible, buf, at, room, open);
      ByTokensCons(t, rest, at, room, open);
      WideEnd(t, rest);
      if t.Element? && Step(open, t.tag).None? {
        return;
      }
      var open' := if t.Element? then Step(open, t.tag).value else open;
      if rest == [] {
        WalkPastTokens(isVisible, buf, t.Wide(), next, room', open', Walk(isVisible, buf, at, room, open));
      } else {
        WalkByTokens(isVisible, buf, next, room', open');
      }
    }
  }

  lemma NoneIsWide()
    ensures !EndsWide([])
  {
  }

  lemma NoRoom(isVisible: int -> bool, buf: string, at: nat, open: seq<string>)
    requires at <= |buf|
    ensures Walk(isVisible, buf, at, 0, open) == Cut(at, open)
  {
  }

  lemma LoneBracketIsNoTag(buf: string, at: nat)
    requires at < |buf| && MatchTag(buf[at..]).Some?
    ensures at + 3 <= |buf|
  {
  }

  /** The whole call where the tokens suffice. The kept prefix ends at a token
      boundary and holds min(maxlen, all) visible characters, no shorter prefix
      does; the error is reported exactly when a kept end tag does not fit; and the
      scanner fails exactly when the limit is not reached and the last rune is wide. */
  lemma TruncationExact(isVisible: int -> bool, buf: string, maxlen: nat, ellipsis: string)
    requires maxlen > 0 && buf != [] && Suffices(isVisible, buf, 0, maxlen)
    ensures var ts := Tokens(isVisible, buf, 0);
            var kept := ts[..Needed(ts, maxlen)];
            var res := Truncated(isVisible, buf, maxlen, ellipsis);
            && VisibleCount(kept) == Min(maxlen, VisibleCount(ts))
            && (forall j :: 0 <= j < |kept| ==> VisibleCount(ts[..j]) < maxlen)
            && (res == ErrUnbalancedTags <==> RunTags(kept, []).None?)
            && (res == IndexOutOfRange <==>
                RunTags(kept, []).Some? && VisibleCount(ts) < maxlen && EndsWide(ts))
            && (res.Output? ==>
                && Length(kept) <= |buf|
                && RunTags(kept, []).Some?
                && res.text == buf[..Length(kept)] + ellipsis + Closers(RunTags(kept, []).value))
  {
    hide Tokens, Walk, Length, RunTags, VisibleCount, EndsWide, NoTagFrom, IsFirstTagFrom, Closers;
    var ts := Tokens(isVisible, buf, 0);
    NeededIsShortest(ts, maxlen);
    EndOfTokens(isVisible, buf, 0);
    WalkByTokens(isVisible, buf, 0, maxlen, []);
    KeptAll(ts, maxlen);
  }

  lemma KeptAll(ts: seq<Token>, room: nat)
    ensures VisibleCount(ts) < room ==> ts[..Needed(ts, room)] == ts
  {
    NeededIsShortest(ts, room);
  }

  /** The whole call where the tokens do not suffice: there is a '<' at `q` that
      starts no tag, before the limit. Unless a tag before it is unbalanced, the
      whole buffer is kept if it is the last byte; the scanner fails if no tag
      follows it; and else goes on at `q` plus the length of the tag that follows,
      with that tag read, wherever it stands. */
  lemma StrayBracketExact(isVisible: int -> bool, buf: string, maxlen: nat, ellipsis: string)
    requires maxlen > 0 && buf != [] && !Suffices(isVisible, buf, 0, maxlen)
    ensures var ts := Tokens(isVisible, buf, 0);
            var q := Length(ts);
            var res := Truncated(isVisible, buf, maxlen, ellipsis);
            && q < |buf| && IsStray(buf, q) && VisibleCount(ts) < maxlen
            && match RunTags(ts, [])
               case None => res == ErrUnbalancedTags
               case Some(open) =>
                 if q == |buf| - 1 then res == Output(buf + ellipsis + Closers(open))
                 else
                   && (NoTagFrom(buf, q) ==> res == IndexOutOfRange)
                   && forall p :: q <= p <= |buf| && IsFirstTagFrom(buf, q, p) ==>
                                    var tag := MatchTag(buf[p..]).value;
                                    match Step(open, tag)
                                    case None => res == ErrUnbalancedTags
                                    case Some(open') =>
                                      res == Assemble(buf, Walk(isVisible, buf, q + tag.length,
                                                                maxlen - VisibleCount(ts), open'), ellipsis)
  {
    hide Tokens, Walk, Length, RunTags, VisibleCount, EndsWide, NoTagFrom, IsFirstTagFrom, Closers, IsStray, Step,
      MatchTag, Needed;
    var ts := Tokens(isVisible, buf, 0);
    EndOfTokens(isVisible, buf, 0);
    WalkByTokens(isVisible, buf, 0, maxlen, []);
    KeptAll(ts, maxlen);
    assert buf[..|buf|] == buf;
  }

  // ----------------------------------------------------- Balanced output

  /** Reads every tag of a text, byte by byte; `None` if a '<' starts no tag or
      an end tag does not fit. */
  function ReadTags(s: string, open: seq<string>): Option<seq<string>>
    decreases |s|
  {
    if s == [] then Some(open)
    else if s[0] != '<' then ReadTags(s[1..], open)
    else
      match MatchTag(s)
      case None => None
      case Some(tag) =>
        match Step(open, tag)
        case None => None
        case Some(open') => ReadTags(s[tag.length..], open')
  }

  predicate Balanced(s: string) {
    ReadTags(s, []) == Some([])
  }

  predicate Closable(open: seq<string>) {
    forall i :: 0 <= i < |open| ==>
                  && open[i] != []
                  && open[i] !in VOID_ELEMENTS
                  && forall j :: 0 <= j < |open[i]| ==> IsAlnum(open[i][j])
  }

  /** Both runs are settled by the bytes up to the one that ends them. */
  lemma RunsAreLocal(s: string, t: string, k: nat, n: nat)
    requires k + n < |s| && k + n < |t| && forall i :: k <= i <= k + n ==> s[i] == t[i]
    ensures RunLength(s[k..], IsAlnum) == n ==> RunLength(t[k..], IsAlnum) == n
    ensures RunLength(s[k..], IsTagText) == n ==> RunLength(t[k..], IsTagText) == n
  {
    hide RunLength;
    assert forall i :: 0 <= i <= n ==> s[k..][i] == t[k..][i];
  }

  /** A tag is recognised by its own bytes, whatever follows. */
  lemma MatchTagIsLocal(s: string, t: string)
    requires MatchTag(s).Some? && MatchTag(s).value.length <= |t|
    requires forall i :: 0 <= i < MatchTag(s).value.length ==> s[i] == t[i]
    ensures MatchTag(t) == MatchTag(s)
  {
    hide MatchTag, RunLength;
    var k, n, tail := RunsOfTag(s);
    RunsAreLocal(s, t, k, n);
    RunsAreLocal(s, t, k + n, tail);
    assert s[k..k + n] == t[k..k + n];
    TagOfRuns(t, k, n, tail);
  }

  lemma RunsOfTag(s: string) returns (k: nat, n: nat, tail: nat)
    requires MatchTag(s).Some?
    ensures |s| > 1 && s[0] == '<' && k == (if s[1] == '/' then 2 else 1) && 0 < n && k + n + tail < |s|
    ensures n == RunLength(s[k..], IsAlnum) && tail == RunLength(s[k + n..], IsTagText) && s[k + n + tail] == '>'
    ensures MatchTag(s) == Some(Tag(k == 2, s[k..k + n], k + n + tail + 1))
  {
    hide RunLength;
    k := if s[1] == '/' then 2 else 1;
    n := RunLength(s[k..], IsAlnum);
    tail := RunLength(s[k + n..], IsTagText);
  }

  lemma TagOfRuns(t: string, k: nat, n: nat, tail: nat)
    requires |t| > 1 && t[0] == '<' && k == (if t[1] == '/' then 2 else 1) && 0 < n && k + n + tail < |t|
    requires n == RunLength(t[k..], IsAlnum) && tail == RunLength(t[k + n..], IsTagText) && t[k + n + tail] == '>'
    ensures MatchTag(t) == Some(Tag(k == 2, t[k..k + n], k + n + tail + 1))
  {
    hide RunLength;
  }

  lemma {:induction false} ReadPlain(s: string, n: nat, open: seq<string>)
    requires n <= |s| && forall i :: 0 <= i < n ==> s[i] != '<'
    ensures ReadTags(s, open) == ReadTags(s[n..], open)
    decreases n
  {
    if n > 0 {
      ReadPlain(s[1..], n - 1, open);
      assert s[1..][n - 1..] == s[n..];
    }
  }

  lemma StepKeepsClosable(s: string, open: seq<string>)
    requires MatchTag(s).Some? && Closable(open) && Step(open, MatchTag(s).value).Some?
    ensures Closable(Step(open, MatchTag(s).value).value)
  {
    var m := MatchTag(s).value;
    var k := if |s| > 1 && s[1] == '/' then 2 else 1;
    assert forall j :: 0 <= j < |m.name| ==> m.name[j] == s[k..][j];
  }

  /** Reading one tag that stands at `at`, cut out of the buffer at `end`. */
  lemma ReadOneTag(buf: string, at: nat, end: nat, open: seq<string>, rest: string)
    requires at <= end <= |buf| && MatchTag(buf[at..]).Some?
    requires at + MatchTag(buf[at..]).value.length <= end
    requires Closable(open) && Step(open, MatchTag(buf[at..]).value).Some?
    ensures var tag := MatchTag(buf[at..]).value;
            var open' := Step(open, tag).value;
            && Closable(open')
            && ReadTags(buf[at..end] + rest, open) == ReadTags(buf[at + tag.length..end] + rest, open')
  {
    hide MatchTag, Step, Closable;
    var tag := MatchTag(buf[at..]).value;
    var s := buf[at..end] + rest;
    StepKeepsClosable(buf[at..], open);
    MatchTagIsLocal(buf[at..], s);
    assert s[tag.length..] == buf[at + tag.length..end] + rest;
  }

  lemma ReadOneText(isVisible: int -> bool, buf: string, at: nat, end: nat, open: seq<string>, rest: string)
    requires at < |buf| && end <= |buf| && buf[at] != '<'
    requires at + NextText(isVisible, buf[at..]).length <= end
    ensures var t := NextText(isVisible, buf[at..]);
            ReadTags(buf[at..end] + rest, open) == ReadTags(buf[at + t.length..end] + rest, open)
  {
    hide NextText, ReadTags;
    var t := NextText(isVisible, buf[at..]);
    var s := buf[at..end] + rest;
    assert forall i :: 0 <= i < t.length ==> s[i] == buf[at..][i];
    ReadPlain(s, t.length, open);
    assert s[t.length..] == buf[at + t.length..end] + rest;
  }

  /** The kept prefix reads to exactly the tags the scan left open. */
  lemma {:induction false} ReadKeptPrefix(isVisible: int -> bool, buf: string, at: nat, room: nat, open: seq<string>,
                                          rest: string)
    requires at <= |buf| && Suffices(isVisible, buf, at, room) && Closable(open)
    requires Walk(isVisible, buf, at, room, open).Cut?
    ensures var w := Walk(isVisible, buf, at, room, open);
            Closable(w.open) &&
            ReadTags(buf[at..w.at] + rest, open) == ReadTags(rest, w.open)
    decreases |buf| - at
  {
    hide NextText, DecodeRune, FindTag, MatchTag, Step, Closable, ReadTags, FirstToken, Suffices, Walk;
    var w := Walk(isVisible, buf, at, room, open);
    if room == 0 || at == |buf| {
      NothingToWalk(isVisible, buf, at, room, open);
      assert buf[at..w.at] + rest == rest;
    } else {
      SufficesNext(isVisible, buf, at, room);
      WalkOneToken(isVisible, buf, at, room, open);
      var t := FirstToken(isVisible, buf, at);
      TokenAt(isVisible, buf, at);
      if t.Element? {
        StepKeepsClosable(buf[at..], open);
        ReadKeptPrefix(isVisible, buf, at + t.Length(), room, Step(open, t.tag).value, rest);
        ReadOneTag(buf, at, w.at, open, rest);
      } else {
        ReadKeptPrefix(isVisible, buf, at + t.Length(), if t.Visible() then room - 1 else room, open, rest);
        ReadOneText(isVisible, buf, at, w.at, open, rest);
      }
    }
  }

  lemma NothingToWalk(isVisible: int -> bool, buf: string, at: nat, room: nat, open: seq<string>)
    requires at <= |buf| && (room == 0 || at == |buf|)
    ensures Walk(isVisible, buf, at, room, open) == Cut(at, open)
  {
  }

  lemma TokenAt(isVisible: int -> bool, buf: string, at: nat)
    requires at < |buf| && !IsStray(buf, at)
    ensures var t := FirstToken(isVisible, buf, at);
            && (t.Element? ==> MatchTag(buf[at..]) == Some(t.tag))
            && (t.Chars? ==> buf[at] != '<' && t.length == NextText(isVisible, buf[at..]).length)
  {
  }

  /** Tokens that suffice leave tokens that suffice for what is left. */
  lemma SufficesNext(isVisible: int -> bool, buf: string, at: nat, room: nat)
    requires at < |buf| && room > 0 && Suffices(isVisible, buf, at, room)
    ensures !IsStray(buf, at)
    ensures var t := FirstToken(isVisible, buf, at);
            Suffices(isVisible, buf, at + t.Length(), if t.Visible() then room - 1 else room)
  {
    hide FirstToken, IsStray;
    if !IsStray(buf, at) {
      var t := FirstToken(isVisible, buf, at);
      assert Tokens(isVisible, buf, at)[1..] == Tokens(isVisible, buf, at + t.Length());
    }
  }

  /** The closing tags close exactly the open ones. */
  lemma {:induction false} ReadClosers(open: seq<string>)
    requires Closable(open)
    ensures ReadTags(Closers(open), open) == Some([])
  {
    hide MatchTag, Closers, VOID_ELEMENTS;
    if open == [] {
      NothingToClose();
    } else {
      var name := open[|open| - 1];
      var outer := open[..|open| - 1];
      ClosersOf(open);
      var s := "</" + name + ">" + Closers(outer);
      CloserMatches(name, Closers(outer));
      assert s[|name| + 3..] == Closers(outer);
      ReadClosers(outer);
    }
  }

  lemma NothingToClose()
    ensures Closers([]) == ""
  {
  }

  lemma ClosersOf(open: seq<string>)
    requires open != []
    ensures Closers(open) == "</" + open[|open| - 1] + ">" + Closers(open[..|open| - 1])
  {
  }

  lemma CloserMatches(name: string, rest: string)
    requires name != [] && forall j :: 0 <= j < |name| ==> IsAlnum(name[j])
    ensures MatchTag("</" + name + ">" + rest) == Some(Tag(true, name, |name| + 3))
  {
    hide RunLength;
    var s := "</" + name + ">" + rest;
    assert s[2..][|name|] == '>';
    assert forall i :: 0 <= i < |name| ==> s[2..][i] == name[i];
    RunLengthIs(s[2..], IsAlnum, |name|);
    RunLengthIs(s[2 + |name|..], IsTagText, 0);
    assert s[2..2 + |name|] == name;
  }

  /** Truncated HTML is balanced HTML: every tag in the output, including those
      of the ellipsis and the closers, is opened and closed in order. */
  lemma OutputIsBalanced(isVisible: int -> bool, buf: string, maxlen: nat, ellipsis: string)
    requires Suffices(isVisible, buf, 0, maxlen) && '<' !in ellipsis
    requires Truncated(isVisible, buf, maxlen, ellipsis).Output?
    ensures Balanced(Truncated(isVisible, buf, maxlen, ellipsis).text)
  {
    hide Walk, Suffices, ReadTags, Closers, VOID_ELEMENTS;
    if buf == [] || maxlen == 0 {
      EmptyIsBalanced();
    } else {
      var w := Walk(isVisible, buf, 0, maxlen, []);
      var closers := Closers(w.open);
      ReadKeptPrefix(isVisible, buf, 0, maxlen, [], ellipsis + closers);
      assert buf[..w.at] + ellipsis + closers == buf[0..w.at] + (ellipsis + closers);
      ReadPlain(ellipsis + closers, |ellipsis|, w.open);
      assert (ellipsis + closers)[|ellipsis|..] == closers;
      ReadClosers(w.open);
    }
  }

  lemma EmptyIsBalanced()
    ensures Balanced("")
  {
  }

  /** Reading the tokens leaves what they leave open, whatever is cut off behind them. */
  lemma {:induction false} ReadTokens(isVisible: int -> bool, buf: string, at: nat, end: nat, open: seq<string>,
                                      rest: string)
    requires at <= |buf| && Closable(open) && RunTags(Tokens(isVisible, buf, at), open).Some?
    requires at + Length(Tokens(isVisible, buf, at)) <= end <= |buf|
    ensures var ts := Tokens(isVisible, buf, at);
            ReadTags(buf[at..end] + rest, open)
            == ReadTags(buf[at + Length(ts)..end] + rest, RunTags(ts, open).value)
    decreases |buf| - at
  {
    hide NextText, DecodeRune, MatchTag, Step, Closable, ReadTags, FirstToken, IsStray, RunTags, Length;
    var ts := Tokens(isVisible, buf, at);
    if at == |buf| || IsStray(buf, at) {
      NoTagsRun(open);
    } else {
      var t := FirstToken(isVisible, buf, at);
      var next := at + t.Length();
      TokenAt(isVisible, buf, at);
      LengthOfCons(t, Tokens(isVisible, buf, next));
      TagsOfCons(t, Tokens(isVisible, buf, next), open);
      if t.Element? {
        ReadOneTag(buf, at, end, open, rest);
        ReadTokens(isVisible, buf, next, end, Step(open, t.tag).value, rest);
      } else {
        ReadOneText(isVisible, buf, at, end, open, rest);
        ReadTokens(isVisible, buf, next, end, open, rest);
      }
    }
  }

  lemma NoTagsRun(open: seq<string>)
    ensures Length([]) == 0 && RunTags([], open) == Some(open)
  {
  }

  lemma TagsOfCons(t: Token, ts: seq<Token>, open: seq<string>)
    ensures t.Chars? ==> RunTags([t] + ts, open) == RunTags(ts, open)
    ensures t.Element? && RunTags([t] + ts, open).Some? ==>
              Step(open, t.tag).Some? && RunTags([t] + ts, open) == RunTags(ts, Step(open, t.tag).value)
  {
    hide Step;
    assert ([t] + ts)[1..] == ts;
  }

  /** Where the cut lies if the tokens do not suffice: behind the '<' that ends
      them, and behind the byte after it if there is one. */
  lemma StrayIsKept(isVisible: int -> bool, buf: string, maxlen: nat)
    requires maxlen > 0 && buf != [] && !Suffices(isVisible, buf, 0, maxlen)
    requires Walk(isVisible, buf, 0, maxlen, []).Cut?
    ensures var ts := Tokens(isVisible, buf, 0);
            var end := Walk(isVisible, buf, 0, maxlen, []).at;
            && RunTags(ts, []).Some? && Length(ts) < end <= |buf|
            && (Length(ts) < |buf| - 1 ==> Length(ts) + 1 < end)
  {
    hide Tokens, Length, RunTags, VisibleCount, EndsWide, NoTagFrom, IsFirstTagFrom, IsStray, Step, MatchTag, Needed,
      WalkTag;
    var ts := Tokens(isVisible, buf, 0);
    EndOfTokens(isVisible, buf, 0);
    WalkByTokens(isVisible, buf, 0, maxlen, []);
    KeptAll(ts, maxlen);
    TagOrNone(buf, Length(ts));
    if Length(ts) < |buf| - 1 && !NoTagFrom(buf, Length(ts)) {
      var p :| Length(ts) <= p <= |buf| && IsFirstTagFrom(buf, Length(ts), p);
      TagHasLength(buf, Length(ts), p);
    }
  }

  lemma TagHasLength(buf: string, at: nat, p: nat)
    requires at <= p <= |buf| && IsFirstTagFrom(buf, at, p)
    ensures MatchTag(buf[p..]).Some? && MatchTag(buf[p..]).value.length >= 3
  {
    hide MatchTag;
  }

  /** Outputs that keep a '<' that starts no tag in the buffer. Whether they are
      balanced is settled from that '<' on, with the tags then open; they are not if
      it starts no tag in the output either, and so never if the byte behind it can
      begin no tag name. */
  lemma StrayOutputIsUnbalanced(isVisible: int -> bool, buf: string, maxlen: nat, ellipsis: string)
    requires maxlen > 0 && buf != [] && !Suffices(isVisible, buf, 0, maxlen)
    requires Truncated(isVisible, buf, maxlen, ellipsis).Output?
    ensures var ts := Tokens(isVisible, buf, 0);
            var q := Length(ts);
            var text := Truncated(isVisible, buf, maxlen, ellipsis).text;
            && q < |buf| && q < |text| && text[..q + 1] == buf[..q + 1] && RunTags(ts, []).Some?
            && (Balanced(text) <==> ReadTags(text[q..], RunTags(ts, []).value) == Some([]))
            && (MatchTag(text[q..]).None? ==> !Balanced(text))
            && (q < |buf| - 1 && !IsAlnum(buf[q + 1]) && buf[q + 1] != '/' ==> !Balanced(text))
  {
    hide Tokens, Length, RunTags, Walk, Closers, IsStray, MatchTag, ReadTags, Suffices;
    var ts := Tokens(isVisible, buf, 0);
    var q := Length(ts);
    var w := Walk(isVisible, buf, 0, maxlen, []);
    var rest := ellipsis + Closers(w.open);
    var text := buf[..w.at] + ellipsis + Closers(w.open);
    StrayIsKept(isVisible, buf, maxlen);
    EndOfTokens(isVisible, buf, 0);
    ReadTokens(isVisible, buf, 0, w.at, [], rest);
    assert text == buf[0..w.at] + rest;
    assert text[q..] == buf[q..w.at] + rest;
    assert buf[q] == '<' by { StrayIsBracket(buf, q); }
    StrayEndsReading(text[q..], RunTags(ts, []).value);
    if q < |buf| - 1 && !IsAlnum(buf[q + 1]) && buf[q + 1] != '/' {
      assert text[q..][1] == buf[q + 1];
      NoNameNoTag(text[q..]);
    }
  }

  lemma StrayIsBracket(buf: string, at: nat)
    requires at <= |buf| && IsStray(buf, at)
    ensures at < |buf| && buf[at] == '<'
  {
    hide MatchTag;
  }

  lemma StrayEndsReading(s: string, open: seq<string>)
    requires s != [] && s[0] == '<'
    ensures MatchTag(s).None? ==> ReadTags(s, open).None?
  {
    hide MatchTag;
  }

  lemma NoNameNoTag(s: string)
    requires |s| > 1 && s[0] == '<' && !IsAlnum(s[1]) && s[1] != '/'
    ensures MatchTag(s).None?
  {
    assert s[1..][0] == s[1];
  }

  // ------------------------------------------- Inputs outside the promise

  lemma OneByteText(isVisible: int -> bool, buf: string, at: nat)
    requires at < |buf| && buf[at] as int < 0x80 && buf[at] != '&'
    ensures NextText(isVisible, buf[at..]) == Text(1, isVisible(buf[at] as int))
    ensures DecodeRune(buf[at..]).size == 1
  {
  }

  /** A text shorter than the limit that ends in a two-byte rune. */
  lemma WideLastRuneFails(isVisible: int -> bool, ellipsis: string)
    ensures Truncated(isVisible, "caf\U{00C3}\U{00A9}", 10, ellipsis) == IndexOutOfRange
  {
    var buf := "caf\U{00C3}\U{00A9}";
    OneByteText(isVisible, buf, 0);
    OneByteText(isVisible, buf, 1);
    OneByteText(isVisible, buf, 2);
    assert buf[3..] == "\U{00C3}\U{00A9}";
    assert DecodeRune(buf[3..]).size == 2;
    assert forall room: nat, open :: room > 1 ==> Walk(isVisible, buf, 3, room, open) == Panic;
    assert forall room: nat, open :: room > 2 ==> Walk(isVisible, buf, 2, room, open) == Panic;
    assert forall room: nat, open :: room > 3 ==> Walk(isVisible, buf, 1, room, open) == Panic;
  }

  /** A '<' that starts no tag, with no tag after it. */
  lemma StrayBracketFails(isVisible: int -> bool, ellipsis: string)
    ensures Truncated(isVisible, "a<3 b", 10, ellipsis) == IndexOutOfRange
  {
    hide Truncated, MatchTag, NextText, DecodeRune;
    var buf := "a<3 b";
    OneByteText(isVisible, buf, 0);
    ThreeIsNoTag();
    var a := FirstToken(isVisible, buf, 0);
    assert Tokens(isVisible, buf, 1) == [];
    assert Tokens(isVisible, buf, 0) == [a];
    assert [a][1..] == [];
    assert Length([a]) == 1 && VisibleCount([a]) <= 1 && RunTags([a], []) == Some([]);
    StrayBracketExact(isVisible, buf, 10, ellipsis);
  }

  lemma ThreeIsNoTag()
    ensures IsStray("a<3 b", 1) && NoTagFrom("a<3 b", 1)
  {
    var s := "a<3 b"[1..];
    assert s[1..] == "3 b" && s[2..] == " b";
    assert RunLength(s[1..], IsAlnum) == 1 && RunLength(s[2..], IsTagText) == 2;
    assert MatchTag(s) == None;
  }

  lemma NoTagHere(s: string)
    requires |s| > 1 && (s[0] != '<' || (!IsAlnum(s[1]) && s[1] != '/'))
    ensures FindTag(s) == FindTag(s[1..])
  {
    assert s[0] == '<' ==> s[1..][0] == s[1];
  }

  lemma BoldTag(buf: string, at: nat, open: seq<string>)
    requires at + 3 <= |buf| && buf[at..at + 3] == "<b>"
    ensures MatchTag(buf[at..]) == Some(Tag(false, "b", 3))
    ensures Step(open, Tag(false, "b", 3)) == Some(open + ["b"])
  {
    var s := buf[at..];
    assert forall i :: 0 <= i < 3 ==> s[i] == buf[at..at + 3][i];
    assert s[1..][0] == 'b' && s[1..][1] == '>' && s[2..][0] == '>';
    assert RunLength(s[1..], IsAlnum) == 1 && RunLength(s[2..], IsTagText) == 0;
    assert s[1..2] == "b";
  }

  lemma FindsTheLaterTag()
    ensures var buf := "<  <b>";
            FindTag(buf[0..]) == FindTag(buf[3..]) == Some(Tag(false, "b", 3))
  {
    hide MatchTag, Step;
    var buf := "<  <b>";
    BoldTag(buf, 3, []);
    NoTagHere(buf);
    NoTagHere(buf[1..]);
    NoTagHere(buf[1..][1..]);
    assert buf[1..][1..][1..] == buf[3..] && buf[0..] == buf;
  }

  /** A '<' that starts no tag, with a tag after it: the pointer moves by the
      length of the later match, so that the one tag is read and pushed twice. */
  lemma StrayBracketUnbalances(isVisible: int -> bool)
    ensures var buf := "<  <b>";
            && Scanned(isVisible, buf, 10) == Cut(6, ["b", "b"]) && ReadTags(buf[3..], []) == Some(["b"])
            && Truncated(isVisible, buf, 10, "") == Output("<  <b></b></b>") && !Balanced("<  <b></b></b>")
  {
    hide FindTag, NextText, DecodeRune, Step, MatchTag, Closers;
    var buf := "<  <b>";
    var none: seq<string> := [];
    FindsTheLaterTag();
    BoldTag(buf, 3, none);
    BoldTag(buf, 3, ["b"]);
    assert none + ["b"] == ["b"] && buf[3..][3..] == "";
    assert Walk(isVisible, buf, 3, 10, ["b"]) == WalkTag(isVisible, buf, 3, 10, ["b"]) == Cut(6, ["b", "b"]);
    assert Walk(isVisible, buf, 0, 10, []) == WalkTag(isVisible, buf, 0, 10, []) == Cut(6, ["b", "b"]);
    CloseBoldTwice();
    SpaceIsNoTag();
  }

  lemma CloseBoldTwice()
    ensures "<  <b>"[..6] + "" + Closers(["b", "b"]) == "<  <b></b></b>"
  {
    hide Closers;
    ClosersOf(["b", "b"]);
    ClosersOf(["b"]);
    NothingToClose();
    assert ["b", "b"][..1] == ["b"] && ["b"][..0] == [];
    assert Closers(["b"]) == "</b>";
    assert Closers(["b", "b"]) == "</b></b>";
  }

  lemma SpaceIsNoTag()
    ensures !Balanced("<  <b></b></b>")
  {
    var s := "<  <b></b></b>";
    assert s[1..][0] == ' ';
    assert MatchTag(s).None?;
  }
}
