/**
 What the scanner of tools/truncate.go recognises, told without its functions: the
 texts that `EntityExpr` and `TagExpr` match, the characters that count as visible,
 and the names that open nothing.
 */
module TruncateSyntax {
  import opened Basics
  import opened Truncate
  import opened TruncateProperties

  predicate IsLetterOrDigit(c: char) {
    c in UPPER || c in LOWER || c in DIGITS
  }

  predicate IsName(name: string) {
    name != "" && forall c :: c in name ==> IsLetterOrDigit(c)
  }

  lemma NamesAreAlnum(name: string)
    ensures IsName(name) <==> name != "" && forall i :: 0 <= i < |name| ==> IsAlnum(name[i])
  {
    hide IsLetterOrDigit, IsAlnum;
    forall c: char ensures IsAlnum(c) <==> IsLetterOrDigit(c) {
      AlnumExactly(c);
    }
  }

  lemma AlnumExactly(c: char)
    ensures IsAlnum(c) <==> IsLetterOrDigit(c)
  {
    InUpper(c);
    InLower(c);
    InDigits(c);
  }

  lemma InUpper(c: char)
    ensures c in UPPER <==> 'A' <= c <= 'Z'
  {
    if 'A' <= c <= 'Z' {
      assert UPPER[c as int - 'A' as int] == c;
    }
  }

  lemma InLower(c: char)
    ensures c in LOWER <==> 'a' <= c <= 'z'
  {
    if 'a' <= c <= 'z' {
      assert LOWER[c as int - 'a' as int] == c;
    }
  }

  lemma InDigits(c: char)
    ensures c in DIGITS <==> '0' <= c <= '9'
  {
    if '0' <= c <= '9' {
      assert DIGITS[c as int - '0' as int] == c;
    }
  }

  // -------------------------------------------------------------- Entities

  ghost predicate IsEntity(e: string) {
    exists name: string :: IsName(name) && (e == "&" + name + ";" || e == "&#" + name + ";")
  }

  /** An entity has one length, that of the text "&name;" or "&#name;" at the start. */
  lemma EntityExactly(s: string, n: nat)
    requires n > 0
    ensures EntityLength(s) == n <==> n <= |s| && IsEntity(s[..n])
  {
    hide EntityLength, IsName, IsLetterOrDigit;
    if EntityLength(s) == n {
      EntityIsFound(s);
    }
    if n <= |s| && IsEntity(s[..n]) {
      var name: string :| IsName(name) && (s[..n] == "&" + name + ";" || s[..n] == "&#" + name + ";");
      if s[..n] == "&" + name + ";" {
        PlainEntity(s, name);
      } else {
        NumericEntity(s, name);
      }
    }
  }

  lemma EntityIsFound(s: string)
    requires EntityLength(s) > 0
    ensures IsEntity(s[..EntityLength(s)])
  {
    hide RunLength, IsName, IsLetterOrDigit;
    var n := EntityLength(s);
    var k := if |s| > 1 && s[1] == '#' then 2 else 1;
    var name := s[k..n - 1];
    assert |name| == RunLength(s[k..], IsAlnum);
    assert forall i :: 0 <= i < |name| ==> name[i] == s[k..][i];
    NamesAreAlnum(name);
    assert s[..n] == s[..k] + name + ";";
    assert k == 1 ==> s[..k] == "&";
    assert k == 2 ==> s[..k] == "&#";
  }

  lemma PlainEntity(s: string, name: string)
    requires IsName(name) && |name| + 2 <= |s| && s[..|name| + 2] == "&" + name + ";"
    ensures EntityLength(s) == |name| + 2
  {
    hide RunLength, IsName, IsLetterOrDigit;
    NamesAreAlnum(name);
    var e := "&" + name + ";";
    assert forall i :: 0 <= i < |e| ==> s[i] == e[i];
    assert s[0] == '&' && s[1] == name[0] && s[|name| + 1] == ';';
    assert forall i :: 0 <= i < |name| ==> s[1..][i] == name[i];
    RunLengthIs(s[1..], IsAlnum, |name|);
  }

  lemma NumericEntity(s: string, name: string)
    requires IsName(name) && |name| + 3 <= |s| && s[..|name| + 3] == "&#" + name + ";"
    ensures EntityLength(s) == |name| + 3
  {
    hide RunLength, IsName, IsLetterOrDigit;
    NamesAreAlnum(name);
    var e := "&#" + name + ";";
    assert forall i :: 0 <= i < |e| ==> s[i] == e[i];
    assert s[0] == '&' && s[1] == '#' && s[|name| + 2] == ';';
    assert forall i :: 0 <= i < |name| ==> s[2..][i] == name[i];
    RunLengthIs(s[2..], IsAlnum, |name|);
  }

  // ------------------------------------------------------------------ Tags

  /** A tag: its name ends where letters and digits end, and no '>' and no line
      break comes before its own '>'. */
  ghost predicate IsTag(t: string, closing: bool, name: string) {
    exists tail: string ::
      && IsName(name) && t == "<" + (if closing then "/" else "") + name + tail + ">"
      && (tail != "" ==> !IsLetterOrDigit(tail[0])) && '>' !in tail && '\n' !in tail
  }

  /** A tag is matched exactly when its text stands at the start. */
  lemma TagExactly(s: string, tag: Tag)
    ensures MatchTag(s) == Some(tag) <==> tag.length <= |s| && IsTag(s[..tag.length], tag.closing, tag.name)
  {
    hide MatchTag, IsName, IsLetterOrDigit;
    if MatchTag(s) == Some(tag) {
      TagIsFound(s);
    }
    if tag.length <= |s| && IsTag(s[..tag.length], tag.closing, tag.name) {
      var tail: string :|
        && IsName(tag.name)
        && s[..tag.length] == "<" + (if tag.closing then "/" else "") + tag.name + tail + ">"
        && (tail != "" ==> !IsLetterOrDigit(tail[0])) && '>' !in tail && '\n' !in tail;
      FindTagText(s, tag, tail);
    }
  }

  lemma TagIsFound(s: string)
    requires MatchTag(s).Some?
    ensures var tag := MatchTag(s).value;
            tag.length <= |s| && IsTag(s[..tag.length], tag.closing, tag.name)
  {
    hide IsName, MatchTag, RunLength, IsLetterOrDigit, IsAlnum;
    var tag := MatchTag(s).value;
    var k, n, t := RunsOfTag(s);
    var name, tail := s[k..k + n], s[k + n..k + n + t];
    Slices(s, k, n, t);
    NamesAreAlnum(name);
    assert forall i :: 0 <= i < t ==> IsTagText(tail[i]);
    if t > 0 {
      AlnumExactly(tail[0]);
    }
    assert s[..tag.length] == s[..k] + name + tail + ">";
    assert s[..k] == "<" + (if tag.closing then "/" else "");
    TagOfPieces(s[..tag.length], tag.closing, name, tail);
  }

  lemma TagOfPieces(t: string, closing: bool, name: string, tail: string)
    requires IsName(name) && t == "<" + (if closing then "/" else "") + name + tail + ">"
    requires (tail != "" ==> !IsLetterOrDigit(tail[0])) && '>' !in tail && '\n' !in tail
    ensures IsTag(t, closing, name)
  {
    hide IsName, IsLetterOrDigit;
  }

  lemma FindTagText(s: string, tag: Tag, tail: string)
    requires IsName(tag.name) && tag.length <= |s|
    requires s[..tag.length] == "<" + (if tag.closing then "/" else "") + tag.name + tail + ">"
    requires (tail != "" ==> !IsLetterOrDigit(tail[0])) && '>' !in tail && '\n' !in tail
    ensures MatchTag(s) == Some(tag)
  {
    hide RunLength, IsName, MatchTag, IsLetterOrDigit, IsTagText, IsAlnum;
    var opening := "<" + (if tag.closing then "/" else "");
    var k, n, t := |opening|, |tag.name|, |tail|;
    NamesAreAlnum(tag.name);
    TextPieces(s, opening, tag.name, tail, tag.length);
    assert s[0] == '<' && (tag.closing ==> s[1] == '/') by {
      assert s[0] == opening[0] && (tag.closing ==> s[1] == opening[1]);
    }
    assert !tag.closing ==> s[1] == tag.name[0] != '/' by { SlashIsNoName(tag.name); }
    NameEnds(tail);
    RunOfText(s[k..], tag.name, IsAlnum);
    RunOfText(s[k + n..], tail, IsTagText);
    TagOfRuns(s, k, n, t);
  }

  /** A run that is known as a text. */
  lemma RunOfText(s: string, text: string, kind: char -> bool)
    requires |text| < |s| && forall i :: 0 <= i < |text| ==> s[i] == text[i]
    requires (forall i :: 0 <= i < |text| ==> kind(text[i])) && !kind(s[|text|])
    ensures RunLength(s, kind) == |text|
  {
    hide RunLength;
    RunLengthIs(s, kind, |text|);
  }

  /** Two slices side by side, and where they stand. */
  lemma Slices(s: string, k: nat, n: nat, t: nat)
    requires k + n + t < |s|
    ensures s[k..k + n] == s[k..][..n] && s[k + n..k + n + t] == s[k + n..][..t]
    ensures s[k..][n] == s[k + n] && (t > 0 ==> s[k + n..k + n + t][0] == s[k + n])
  {
  }

  /** The pieces of a text that stands at the start of another. */
  lemma TextPieces(s: string, opening: string, name: string, tail: string, length: nat)
    requires length <= |s| && s[..length] == opening + name + tail + ">"
    ensures var k, n, t := |opening|, |name|, |tail|;
            && length == k + n + t + 1 && s[k + n + t] == '>' && s[k..k + n] == name
            && (forall i :: 0 <= i < k ==> s[i] == opening[i])
            && (forall i :: 0 <= i < n ==> s[k..][i] == name[i])
            && (forall i :: 0 <= i < t ==> s[k + n..][i] == tail[i])
            && s[k + n..][t] == '>' && s[k..][n] == (if t > 0 then tail[0] else '>')
  {
    var text := opening + name + tail + ">";
    assert forall i :: 0 <= i < length ==> s[i] == text[i];
    assert forall i :: 0 <= i < |name| ==> s[|opening| + i] == text[|opening| + i] == name[i];
    assert forall i :: 0 <= i < |tail| ==> s[|opening| + |name| + i] == tail[i];
  }

  lemma SlashIsNoName(name: string)
    requires name != "" && forall i :: 0 <= i < |name| ==> IsAlnum(name[i])
    ensures name[0] != '/'
  {
  }

  lemma NameEnds(tail: string)
    requires (tail != "" ==> !IsLetterOrDigit(tail[0])) && '>' !in tail && '\n' !in tail
    ensures !IsAlnum(if tail != "" then tail[0] else '>') && !IsTagText('>')
    ensures forall i :: 0 <= i < |tail| ==> IsTagText(tail[i])
  {
    hide IsLetterOrDigit;
    if tail != "" {
      AlnumExactly(tail[0]);
    }
    assert forall i :: 0 <= i < |tail| ==> tail[i] in tail;
  }

  // ------------------------------------------------------- Text characters

  ghost predicate StartsEntity(s: string) {
    exists n: nat :: 0 < n <= |s| && IsEntity(s[..n])
  }

  /** One text token: an entity counts as one visible character whatever it stands
      for; a '&' of no entity is visible; any other character is as visible as it
      prints, and has the width of its octets. */
  lemma TextExactly(isVisible: int -> bool, s: string)
    requires s != []
    ensures forall n: nat :: 0 < n <= |s| && IsEntity(s[..n]) ==> NextText(isVisible, s) == Text(n, true)
    ensures !StartsEntity(s) && s[0] == '&' ==> NextText(isVisible, s) == Text(1, true)
    ensures !StartsEntity(s) && s[0] != '&' ==>
              forall code :: IsScalar(code) && EncodeRune(code) <= s ==>
                               NextText(isVisible, s) == Text(|EncodeRune(code)|, isVisible(code))
    ensures !StartsEntity(s) && (forall code :: IsScalar(code) ==> !(EncodeRune(code) <= s)) ==>
              NextText(isVisible, s) == Text(1, isVisible(RUNE_ERROR))
  {
    hide EntityLength, IsEntity, DecodeRune, EncodeRune;
    forall n: nat | 0 < n <= |s| && IsEntity(s[..n]) ensures EntityLength(s) == n {
      EntityExactly(s, n);
    }
    if EntityLength(s) > 0 {
      EntityExactly(s, EntityLength(s));
      assert StartsEntity(s);
    }
    forall code | IsScalar(code) ensures EncodeRune(code) <= s <==> DecodeRune(s) == Rune(code, |EncodeRune(code)|) {
      DecodedExactly(s, code);
    }
    var r := DecodeRune(s);
    DecodedExactly(s, 0);
    if r != Rune(RUNE_ERROR, 1) {
      assert EncodeRune(r.code) <= s;
    }
  }

  // ------------------------------------------------------ Entities and cuts

  /** This token stands at this place. */
  predicate StandsAt(isVisible: int -> bool, buf: string, p: nat, t: Token) {
    p < |buf| && !IsStray(buf, p) && t == FirstToken(isVisible, buf, p)
  }

  /** The `j`-th token is the one at its place. */
  lemma {:induction false} TokenPlace(isVisible: int -> bool, buf: string, at: nat, ts: seq<Token>, j: nat)
    requires at <= |buf| && ts == Tokens(isVisible, buf, at) && j < |ts|
    ensures StandsAt(isVisible, buf, at + Length(ts[..j]), ts[j])
    ensures Length(ts[..j + 1]) == Length(ts[..j]) + ts[j].Length()
    decreases j
  {
    hide FirstToken, IsStray, Length, Tokens;
    TokensSplit(isVisible, buf, at);
    var t := FirstToken(isVisible, buf, at);
    var next := at + t.Length();
    var rest := Tokens(isVisible, buf, next);
    assert ts[..j + 1] == [t] + rest[..j];
    LengthOfCons(t, rest[..j]);
    if j == 0 {
      assert ts[..0] == [] && rest[..0] == [];
      NoLength();
    } else {
      TokenPlace(isVisible, buf, next, rest, j - 1);
      assert ts[..j] == [t] + rest[..j - 1];
      LengthOfCons(t, rest[..j - 1]);
    }
  }

  lemma TokensSplit(isVisible: int -> bool, buf: string, at: nat)
    requires at <= |buf| && Tokens(isVisible, buf, at) != []
    ensures at < |buf| && !IsStray(buf, at)
    ensures var t := FirstToken(isVisible, buf, at);
            Tokens(isVisible, buf, at) == [t] + Tokens(isVisible, buf, at + t.Length())
  {
    hide FirstToken, IsStray;
  }

  lemma {:induction false} LengthGrows(ts: seq<Token>, j: nat, k: nat)
    requires j <= k <= |ts|
    ensures Length(ts[..j]) <= Length(ts[..k])
    decreases j
  {
    if j > 0 {
      LengthGrows(ts[1..], j - 1, k - 1);
      assert ts[..j][1..] == ts[1..][..j - 1] && ts[..k][1..] == ts[1..][..k - 1];
    } else {
      assert ts[..j] == [];
    }
  }

  /** Whatever tokens are kept, none of them is part of an entity only. */
  lemma TokensKeepEntities(isVisible: int -> bool, buf: string, at: nat, j: nat, k: nat, n: nat)
    requires at <= |buf| && j < |Tokens(isVisible, buf, at)| && k <= |Tokens(isVisible, buf, at)|
    requires var p := at + Length(Tokens(isVisible, buf, at)[..j]); 0 < n && p + n <= |buf| && IsEntity(buf[p..p + n])
    ensures var ts := Tokens(isVisible, buf, at);
            Length(ts[..k]) <= Length(ts[..j]) || Length(ts[..k]) >= Length(ts[..j]) + n
  {
    hide Tokens, Length, FirstToken, IsStray, IsEntity, EntityLength;
    var ts := Tokens(isVisible, buf, at);
    var p := at + Length(ts[..j]);
    TokenPlace(isVisible, buf, at, ts, j);
    assert buf[p..][..n] == buf[p..p + n];
    EntityExactly(buf[p..], n);
    EntityToken(isVisible, buf, p);
    if k <= j {
      LengthGrows(ts, k, j);
    } else {
      LengthGrows(ts, j + 1, k);
    }
  }

  lemma EntityToken(isVisible: int -> bool, buf: string, p: nat)
    requires p < |buf| && !IsStray(buf, p) && EntityLength(buf[p..]) > 0
    ensures FirstToken(isVisible, buf, p).Length() == EntityLength(buf[p..])
    ensures FirstToken(isVisible, buf, p).Visible()
  {
    hide EntityLength, MatchTag;
    assert buf[p..][0] == buf[p];
  }

  /** Main result: on every buffer, from any place the scan comes to, its cut never
      falls inside an entity that starts one of the tokens there. With the tokens
      from the start of the buffer, no entity before the first stray '<' is cut. */
  lemma NoEntityIsCut(isVisible: int -> bool, buf: string, at: nat, room: nat, open: seq<string>, j: nat, n: nat)
    requires at <= |buf| && j < |Tokens(isVisible, buf, at)|
    requires var p := at + Length(Tokens(isVisible, buf, at)[..j]); 0 < n && p + n <= |buf| && IsEntity(buf[p..p + n])
    requires Walk(isVisible, buf, at, room, open).Cut?
    ensures var p := at + Length(Tokens(isVisible, buf, at)[..j]);
            var end := Walk(isVisible, buf, at, room, open).at;
            end <= p || p + n <= end
  {
    hide Tokens, Length, Walk, RunTags, VisibleCount, EndsWide, IsEntity, IsStray, NoTagFrom, IsFirstTagFrom, MatchTag,
      Needed, Step;
    var ts := Tokens(isVisible, buf, at);
    WalkByTokens(isVisible, buf, at, room, open);
    TokensKeepEntities(isVisible, buf, at, j, Needed(ts, room), n);
    TokensKeepEntities(isVisible, buf, at, j, |ts|, n);
    LengthGrows(ts, j, |ts|);
    TokenPlace(isVisible, buf, at, ts, j);
    LengthGrows(ts, j + 1, |ts|);
    assert ts[..|ts|] == ts;
    if VisibleCount(ts) < room {
      CutBehindTokens(isVisible, buf, at, room, open);
    }
  }

  /** A scan that needs more than the tokens hold cuts behind them all. */
  lemma CutBehindTokens(isVisible: int -> bool, buf: string, at: nat, room: nat, open: seq<string>)
    requires at <= |buf| && Walk(isVisible, buf, at, room, open).Cut?
    requires VisibleCount(Tokens(isVisible, buf, at)) < room
    ensures Walk(isVisible, buf, at, room, open).at >= at + Length(Tokens(isVisible, buf, at))
  {
    hide Tokens, Length, RunTags, VisibleCount, EndsWide, IsStray, NoTagFrom, IsFirstTagFrom, MatchTag, Needed, Step,
      WalkTag;
    var ts := Tokens(isVisible, buf, at);
    WalkByTokens(isVisible, buf, at, room, open);
    KeptAll(ts, room);
    EndOfTokens(isVisible, buf, at);
    var q := at + Length(ts);
    TagOrNone(buf, q);
    if q < |buf| - 1 && !NoTagFrom(buf, q) {
      var p :| q <= p <= |buf| && IsFirstTagFrom(buf, q, p);
      TagHasLength(buf, q, p);
    }
  }

  // ------------------------------------------------------ Limits below one

  /** Nothing is kept of no text or with limit 0, not even the ellipsis. With a limit
      below 0 the first character is kept, and the ellipsis. */
  lemma SmallLimits(isVisible: int -> bool, buf: string, maxlen: int, ellipsis: string)
    ensures buf == "" || maxlen == 0 ==> Truncated(isVisible, buf, maxlen, ellipsis) == Output("")
    ensures buf != "" && maxlen < 0 ==>
              forall code :: IsScalar(code) && EncodeRune(code) <= buf ==>
                               Truncated(isVisible, buf, maxlen, ellipsis) == Output(EncodeRune(code) + ellipsis)
  {
    hide DecodeRune, EncodeRune;
    if buf != "" && maxlen < 0 {
      forall code | IsScalar(code) && EncodeRune(code) <= buf
        ensures Truncated(isVisible, buf, maxlen, ellipsis) == Output(EncodeRune(code) + ellipsis)
      {
        DecodedExactly(buf, code);
        assert buf[..|EncodeRune(code)|] == EncodeRune(code);
        NothingToClose();
        assert EncodeRune(code) + ellipsis + "" == EncodeRune(code) + ellipsis;
      }
    }
  }

  // ------------------------------------------------------------- Tag names

  const VOID_NAMES: set<string> :=
    {"area", "base", "br", "col", "embed", "hr", "img", "input", "keygen", "link", "meta", "param", "source", "track",
     "wbr"}

  /** A tag of these names leaves the open tags alone; any other start tag is
      opened innermost, and any other end tag closes the innermost one of its name
      or is an error. */
  lemma StepExactly(stack: seq<string>, tag: Tag)
    ensures tag.name in VOID_NAMES ==> Step(stack, tag) == Some(stack)
    ensures tag.name !in VOID_NAMES && !tag.closing ==> Step(stack, tag) == Some(stack + [tag.name])
    ensures tag.name !in VOID_NAMES && tag.closing ==>
              forall rest :: Step(stack, tag) == Some(rest) <==> stack == rest + [tag.name]
  {
    assert tag.name in VOID_NAMES <==> tag.name in VOID_ELEMENTS;
  }
}
