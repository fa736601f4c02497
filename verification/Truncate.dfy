/**
 HTML truncation (tools/truncate.go): the byte scanner with its tag stack, a
 one-token-at-a-time reading of the same scan, and the properties of the cut.

 A buffer is a string whose characters stand for bytes. A character above 255
 is no byte; it is decoded like the invalid byte 0xFF.
 */
module Truncate {
  import opened Basics

  // ---------------------------------------------------------------- UTF-8

  datatype Rune = Rune(code: int, size: nat)

  const RUNE_ERROR := 0xFFFD

  predicate Continuation(c: char) {
    0x80 <= c as int <= 0xBF
  }

  /** `utf8.DecodeRune`: the first rune of the buffer and its width, following
      the byte ranges of section 4 of RFC 3629; invalid input has width 1. */
  function DecodeRune(s: string): (r: Rune)
    ensures s == [] ==> r.size == 0
    ensures s != [] ==> 1 <= r.size <= 4 && r.size <= |s|
    ensures s != [] && s[0] as int < 0x80 ==> r == Rune(s[0] as int, 1)
    ensures forall i :: 1 <= i < r.size ==> Continuation(s[i])
  {
    if s == [] then Rune(RUNE_ERROR, 0)
    else
      var b0 := s[0] as int;
      if b0 < 0x80 then Rune(b0, 1)
      else if 0xC2 <= b0 <= 0xDF && |s| >= 2 && Continuation(s[1]) then
        Rune((b0 - 0xC0) * 64 + (s[1] as int - 0x80), 2)
      else if 0xE0 <= b0 <= 0xEF && |s| >= 3 && Continuation(s[1]) && Continuation(s[2])
              && (b0 == 0xE0 ==> s[1] as int >= 0xA0) && (b0 == 0xED ==> s[1] as int <= 0x9F) then
        Rune((b0 - 0xE0) * 4096 + (s[1] as int - 0x80) * 64 + (s[2] as int - 0x80), 3)
      else if 0xF0 <= b0 <= 0xF4 && |s| >= 4 && Continuation(s[1]) && Continuation(s[2]) && Continuation(s[3])
              && (b0 == 0xF0 ==> s[1] as int >= 0x90) && (b0 == 0xF4 ==> s[1] as int <= 0x8F) then
        Rune((b0 - 0xF0) * 262144 + (s[1] as int - 0x80) * 4096 + (s[2] as int - 0x80) * 64 + (s[3] as int - 0x80), 4)
      else Rune(RUNE_ERROR, 1)
  }

  // Section 3 of RFC 3629: the octets of a character number.

  predicate IsScalar(code: int) {
    0 <= code < 0xD800 || 0xE000 <= code < 0x11_0000
  }

  function Octet(n: nat): char
    requires n < 0x100
  {
    n as char
  }

  function EncodeRune(code: int): (s: string)
    requires IsScalar(code)
    ensures 1 <= |s| <= 4
  {
    if code < 0x80 then [Octet(code)]
    else if code < 0x800 then [Octet(0xC0 + code / 64), Octet(0x80 + code % 64)]
    else if code < 0x1_0000 then [Octet(0xE0 + code / 4096), Octet(0x80 + code / 64 % 64), Octet(0x80 + code % 64)]
    else [Octet(0xF0 + code / 262144), Octet(0x80 + code / 4096 % 64), Octet(0x80 + code / 64 % 64),
          Octet(0x80 + code % 64)]
  }

  /** The quotients and remainders that the octets carry. */
  lemma Sextets(code: nat)
    ensures code == code / 64 * 64 + code % 64
    ensures code / 64 == code / 4096 * 64 + code / 64 % 64
    ensures code / 4096 == code / 262144 * 64 + code / 4096 % 64
  {
  }

  lemma LongerRuneStart(code: int, rest: string)
    requires IsScalar(code) && code >= 0x80
    ensures var s := EncodeRune(code) + rest;
            && 0xC2 <= s[0] as int <= 0xF4 && |s| >= |EncodeRune(code)| > 1
            && s[0] == EncodeRune(code)[0]
            && forall i :: 1 <= i < |EncodeRune(code)| ==> s[i] == EncodeRune(code)[i]
  {
  }

  /** Decoding undoes encoding, whatever follows. */
  lemma DecodeUndoesEncode(code: int, rest: string)
    requires IsScalar(code)
    ensures DecodeRune(EncodeRune(code) + rest) == Rune(code, |EncodeRune(code)|)
  {
    Sextets(code);
    if code >= 0x80 {
      LongerRuneStart(code, rest);
      if code < 0x800 {
        TwoOctets(code, EncodeRune(code) + rest);
      } else if code < 0x1_0000 {
        ThreeOctets(code, EncodeRune(code) + rest);
      } else {
        FourOctets(code, EncodeRune(code) + rest);
      }
    }
  }

  lemma TwoOctets(code: int, s: string)
    requires 0x80 <= code < 0x800 && |s| >= 2
    requires s[0] as int == 0xC0 + code / 64 && s[1] as int == 0x80 + code % 64
    ensures DecodeRune(s) == Rune(code, 2)
  {
  }

  lemma ThreeOctets(code: int, s: string)
    requires 0x800 <= code < 0x1_0000 && IsScalar(code) && |s| >= 3
    requires s[0] as int == 0xE0 + code / 4096
    requires s[1] as int == 0x80 + code / 64 % 64 && s[2] as int == 0x80 + code % 64
    ensures DecodeRune(s) == Rune(code, 3)
  {
    Sextets(code);
  }

  lemma FourOctets(code: int, s: string)
    requires 0x1_0000 <= code < 0x11_0000 && |s| >= 4
    requires s[0] as int == 0xF0 + code / 262144 && s[1] as int == 0x80 + code / 4096 % 64
    requires s[2] as int == 0x80 + code / 64 % 64 && s[3] as int == 0x80 + code % 64
    ensures DecodeRune(s) == Rune(code, 4)
  {
    Sextets(code);
  }

  /** What is decoded is the character whose octets stand there; a byte that starts
      no character's octets is decoded alone, as an error. */
  lemma DecodedExactly(s: string, code: int)
    requires s != [] && IsScalar(code)
    ensures EncodeRune(code) <= s <==> DecodeRune(s) == Rune(code, |EncodeRune(code)|)
    ensures DecodeRune(s) != Rune(RUNE_ERROR, 1) ==>
              var r := DecodeRune(s); IsScalar(r.code) && EncodeRune(r.code) == s[..r.size]
  {
    hide DecodeRune, EncodeRune;
    var e, r := EncodeRune(code), DecodeRune(s);
    if e <= s {
      assert s == e + s[|e|..];
      DecodeUndoesEncode(code, s[|e|..]);
    }
    if r != Rune(RUNE_ERROR, 1) {
      DecodedOctets(s);
    } else if r.code == code {
      ErrorHasThreeOctets();
    }
  }

  lemma ErrorHasThreeOctets()
    ensures IsScalar(RUNE_ERROR) && |EncodeRune(RUNE_ERROR)| == 3
  {
  }

  lemma DecodedOctets(s: string)
    requires s != [] && DecodeRune(s) != Rune(RUNE_ERROR, 1)
    ensures IsScalar(DecodeRune(s).code) && EncodeRune(DecodeRune(s).code) == s[..DecodeRune(s).size]
  {
    var r := DecodeRune(s);
    if r.size == 2 {
      OctetsOfTwo(s[0] as int - 0xC0, s[1] as int - 0x80, s);
    } else if r.size == 3 {
      OctetsOfThree(s[0] as int - 0xE0, s[1] as int - 0x80, s[2] as int - 0x80, s);
    } else if r.size == 4 {
      OctetsOfFour(s[0] as int - 0xF0, s[1] as int - 0x80, s[2] as int - 0x80, s[3] as int - 0x80, s);
    }
  }

  lemma OctetsOfTwo(a: int, b: int, s: string)
    requires 2 <= a < 32 && 0 <= b < 64 && |s| >= 2 && s[0] as int == 0xC0 + a && s[1] as int == 0x80 + b
    ensures IsScalar(a * 64 + b) && EncodeRune(a * 64 + b) == s[..2]
  {
  }

  lemma OctetsOfThree(a: int, b: int, c: int, s: string)
    requires 0 <= a < 16 && 0 <= b < 64 && 0 <= c < 64 && (a == 0 ==> b >= 0x20) && (a == 13 ==> b < 0x20)
    requires |s| >= 3 && s[0] as int == 0xE0 + a && s[1] as int == 0x80 + b && s[2] as int == 0x80 + c
    ensures var code := a * 4096 + b * 64 + c; IsScalar(code) && EncodeRune(code) == s[..3]
  {
    var code := a * 4096 + b * 64 + c;
    assert code / 64 == a * 64 + b && code / 4096 == a;
  }

  lemma OctetsOfFour(a: int, b: int, c: int, d: int, s: string)
    requires 0 <= a < 5 && 0 <= b < 64 && 0 <= c < 64 && 0 <= d < 64 && (a == 0 ==> b >= 0x10) && (a == 4 ==> b < 0x10)
    requires |s| >= 4 && s[0] as int == 0xF0 + a && s[1] as int == 0x80 + b
    requires s[2] as int == 0x80 + c && s[3] as int == 0x80 + d
    ensures var code := a * 262144 + b * 4096 + c * 64 + d; IsScalar(code) && EncodeRune(code) == s[..4]
  {
    var code := a * 262144 + b * 4096 + c * 64 + d;
    assert code / 64 == a * 4096 + b * 64 + c && code / 4096 == a * 64 + b && code / 262144 == a;
  }

  // ------------------------------------------------- The two expressions

  predicate IsAlnum(c: char) {
    'A' <= c <= 'Z' || 'a' <= c <= 'z' || '0' <= c <= '9'
  }

  /** Length of the match of `EntityExpr` at the start of the buffer, 0 if none. */
  function EntityLength(s: string): (n: nat)
    ensures n <= |s|
    ensures n > 0 ==> n >= 3 && s[0] == '&' && forall i :: 0 <= i < n ==> s[i] != '<'
    ensures n > 0 ==> s[n - 1] == ';'
  {
    if s == [] || s[0] != '&' then 0
    else
      var k := if |s| > 1 && s[1] == '#' then 2 else 1;
      var n := RunLength(s[k..], IsAlnum);
      assert forall i :: k <= i < k + n ==> s[i] == s[k..][i - k];
      if n > 0 && k + n < |s| && s[k + n] == ';' then k + n + 1 else 0
  }

  /** The bytes that the lazy part of `TagExpr` runs over. */
  predicate IsTagText(c: char) {
    c != '>' && c != '\n'
  }

  datatype Tag = Tag(closing: bool, name: string, length: nat)

  /** The match of `TagExpr` that starts at the first byte, if there is one. */
  function MatchTag(s: string): (m: Option<Tag>)
    ensures m.Some? ==> s != [] && s[0] == '<'
    ensures m.Some? ==> 3 <= m.value.length <= |s| && |m.value.name| > 0
  {
    if s == [] || s[0] != '<' then None
    else
      var k := if |s| > 1 && s[1] == '/' then 2 else 1;
      var n := RunLength(s[k..], IsAlnum);
      var t := RunLength(s[k + n..], IsTagText);
      if n > 0 && k + n + t < |s| && s[k + n + t] == '>'
      then Some(Tag(k == 2, s[k..k + n], k + n + t + 1))
      else None
  }

  /** `TagExpr.FindSubmatch`: the leftmost match anywhere in the buffer. */
  function FindTag(s: string): (m: Option<Tag>)
    ensures m.Some? ==> 3 <= m.value.length <= |s| && |m.value.name| > 0
    ensures (forall i :: 0 <= i < |s| ==> s[i] != '<') ==> m == None
  {
    if s == [] then None
    else if MatchTag(s).Some? then MatchTag(s)
    else FindTag(s[1..])
  }

  /** The match found is that of the first position where a tag matches; there is
      none exactly if a tag matches nowhere. */
  lemma {:induction false} FindTagIsLeftmost(s: string)
    ensures FindTag(s).None? <==> forall i :: 0 <= i <= |s| ==> MatchTag(s[i..]).None?
    ensures FindTag(s).Some? ==>
              exists i :: 0 <= i < |s| && MatchTag(s[i..]) == FindTag(s) &&
                forall j :: 0 <= j < i ==> MatchTag(s[j..]).None?
  {
    hide MatchTag, FindTag;
    assert s[0..] == s;
    FindTagStep(s);
    if s != [] && MatchTag(s).None? {
      var t := s[1..];
      FindTagIsLeftmost(t);
      forall i | 1 <= i <= |s| ensures s[i..] == t[i - 1..] {
      }
      if FindTag(s).Some? {
        var i :| 0 <= i < |t| && MatchTag(t[i..]) == FindTag(t) && forall j :: 0 <= j < i ==> MatchTag(t[j..]).None?;
        assert MatchTag(s[i + 1..]) == FindTag(s);
      } else {
        forall i | 0 <= i <= |s| ensures MatchTag(s[i..]).None? {
          assert i > 0 ==> s[i..] == t[i - 1..];
        }
      }
    }
  }

  lemma FindTagStep(s: string)
    ensures s == [] ==> FindTag(s).None? && MatchTag(s).None?
    ensures s != [] ==> FindTag(s) == if MatchTag(s).Some? then MatchTag(s) else FindTag(s[1..])
  {
  }

  // ------------------------------------------------------- The tag stack

  const VOID_ELEMENTS: seq<string> := [
    "area", "base", "br", "col", "embed", "hr",
    "img", "input", "keygen", "link", "meta",
    "param", "source", "track", "wbr"
  ]

  /** What one tag does to the stack of open tags; `None` is the unbalanced case. */
  function Step(stack: seq<string>, tag: Tag): Option<seq<string>> {
    if tag.name in VOID_ELEMENTS then Some(stack)
    else if !tag.closing then Some(stack + [tag.name])
    else if stack == [] || stack[|stack| - 1] != tag.name then None
    else Some(stack[..|stack| - 1])
  }

  /** Closing tags for the stack, innermost first. */
  function Closers(stack: seq<string>): string {
    if stack == [] then ""
    else "</" + stack[|stack| - 1] + ">" + Closers(stack[..|stack| - 1])
  }

  // ------------------------------------------------- One token at a time

  /** How a scan ends: a cut of the buffer at `at` with some tags open, the
      unbalanced error, or an index out of range on an empty match. */
  datatype Outcome = Cut(at: nat, open: seq<string>) | Unbalanced | Panic

  datatype Text = Text(length: nat, visible: bool)

  /** The text token at the start: an entity (visible), or one rune. */
  function NextText(isVisible: int -> bool, s: string): (t: Text)
    requires s != []
    ensures 1 <= t.length <= |s|
    ensures s[0] != '<' ==> forall i :: 0 <= i < t.length ==> s[i] != '<'
  {
    var e := EntityLength(s);
    if e > 0 then Text(e, true)
    else
      var r := DecodeRune(s);
      Text(r.size, s[0] == '&' || isVisible(r.code))
  }

  /** The rest of the scan from `at` as a recursion over tokens. `room` is the
      number of visible characters still wanted; `open` holds the open tags. */
  function Walk(isVisible: int -> bool, buf: string, at: nat, room: nat, open: seq<string>): (o: Outcome)
    requires at <= |buf|
    ensures o.Cut? ==> at <= o.at <= |buf|
    decreases |buf| - at
  {
    if at == |buf| || room == 0 then Cut(at, open)
    else if buf[at] == '<' then WalkTag(isVisible, buf, at, room, open)
    else
      var t := NextText(isVisible, buf[at..]);
      var room' := if t.visible then room - 1 else room;
      if room' > 0 && at + t.length == |buf| && DecodeRune(buf[at..]).size > 1 then Panic
      else Walk(isVisible, buf, at + t.length, room', open)
  }

  function WalkTag(isVisible: int -> bool, buf: string, at: nat, room: nat, open: seq<string>): (o: Outcome)
    requires at < |buf| && buf[at] == '<'
    ensures o.Cut? ==> at <= o.at <= |buf|
    decreases |buf| - at, 0
  {
    if at == |buf| - 1 then Cut(|buf|, open)
    else
      match FindTag(buf[at..])
      case None => Panic
      case Some(tag) =>
        match Step(open, tag)
        case None => Unbalanced
        case Some(open') => Walk(isVisible, buf, at + tag.length, room, open')
  }

  // ------------------------------------------------------ The whole call

  datatype Result = Output(text: string) | ErrUnbalancedTags | IndexOutOfRange

  function Assemble(buf: string, o: Outcome, ellipsis: string): Result
    requires o.Cut? ==> o.at <= |buf|
  {
    match o
    case Cut(n, open) => Output(buf[..n] + ellipsis + Closers(open))
    case Unbalanced => ErrUnbalancedTags
    case Panic => IndexOutOfRange
  }

  /** The outcome of the scan; a negative limit stops it before it starts, and
      the rune under the pointer is kept all the same. */
  function Scanned(isVisible: int -> bool, buf: string, maxlen: int): (o: Outcome)
    ensures o.Cut? ==> o.at <= |buf|
  {
    if maxlen >= 0 then Walk(isVisible, buf, 0, maxlen, []) else Cut(DecodeRune(buf).size, [])
  }

  function Truncated(isVisible: int -> bool, buf: string, maxlen: int, ellipsis: string): Result {
    if buf == [] || maxlen == 0 then Output("")
    else Assemble(buf, Scanned(isVisible, buf, maxlen), ellipsis)
  }

  // ------------------------------------------------ The scanner's loops

  /** What the text loop leaves behind: `w` is the outcome from where it began,
      `at` the last byte position it looked at. */
  ghost predicate TextScanned(isVisible: int -> bool, buf: string, w: Outcome, open: seq<string>,
                              at: nat, room: int, atEntity: bool)
  {
    && at < |buf|
    && var next := at + DecodeRune(buf[at..]).size;
    && (room == 0 ==> w == Cut(next, open))
    && (room > 0 && atEntity ==> next == at + 1 && w == Walk(isVisible, buf, next, room, open))
    && (room > 0 && !atEntity && buf[at] == '<' ==> w == Walk(isVisible, buf, at, room, open))
    && (room > 0 && !atEntity && buf[at] != '<' ==>
          next == |buf| && w == if next - at > 1 then Panic else Cut(|buf|, open))
  }

  lemma EntityScanned(isVisible: int -> bool, buf: string, at: nat, room: nat, open: seq<string>)
    requires at < |buf| && room > 0 && EntityLength(buf[at..]) > 0
    ensures var last := at + EntityLength(buf[at..]) - 1;
            TextScanned(isVisible, buf, Walk(isVisible, buf, at, room, open), open, last, room - 1, true)
  {
    hide DecodeRune, EntityLength, FindTag, IsAlnum, WalkTag;
    var last := at + EntityLength(buf[at..]) - 1;
    assert buf[last] == buf[at..][last - at] == ';';
    assert buf[last..][0] == ';';
    assert DecodeRune(buf[at..]).size == 1;
  }

  lemma RuneScanned(isVisible: int -> bool, buf: string, at: nat, room: nat, open: seq<string>)
    requires at < |buf| && room > 0 && buf[at] != '<' && EntityLength(buf[at..]) == 0
    ensures var r := DecodeRune(buf[at..]);
            var room' := if buf[at] == '&' || isVisible(r.code) then room - 1 else room;
            var w := Walk(isVisible, buf, at, room, open);
            if room' == 0 || at + r.size == |buf|
            then TextScanned(isVisible, buf, w, open, at, room', false)
            else w == Walk(isVisible, buf, at + r.size, room', open)
  {
    hide DecodeRune, EntityLength, FindTag, IsAlnum, WalkTag;
  }

  /** The loop that moves to the nearest tag and counts visible characters. */
  method ScanText(isVisible: int -> bool, buf: string, bufPtr: nat, visible0: int, maxlen: int,
                  ghost open: seq<string>)
    returns (offset: nat, visible: int, atLimit: bool, atEntity: bool)
    requires bufPtr < |buf| && visible0 < maxlen
    ensures visible0 <= visible <= maxlen && (atLimit <==> visible == maxlen)
    ensures TextScanned(isVisible, buf, Walk(isVisible, buf, bufPtr, maxlen - visible0, open), open,
                        bufPtr + offset, maxlen - visible, atEntity)
  {
    hide Walk, DecodeRune, EntityLength;
    visible, offset, atLimit, atEntity := visible0, 0, false, false;
    ghost var w := Walk(isVisible, buf, bufPtr, maxlen - visible0, open);
    var localOffset := 0;
    while bufPtr + localOffset < |buf|
      invariant bufPtr + localOffset <= |buf| && visible0 <= visible < maxlen
      invariant !atLimit && !atEntity
      invariant bufPtr + localOffset < |buf| ==>
                  w == Walk(isVisible, buf, bufPtr + localOffset, maxlen - visible, open)
      invariant bufPtr + localOffset == |buf| ==>
                  && TextScanned(isVisible, buf, w, open, bufPtr + offset, maxlen - visible, false)
                  && buf[bufPtr + offset] != '<'
      decreases |buf| - localOffset
    {
      var runeValue := DecodeRune(buf[bufPtr + localOffset..]);
      offset := localOffset;
      if buf[bufPtr + localOffset] == '<' {
        break;
      }
      if EntityLength(buf[bufPtr + localOffset..]) == 0 {
        RuneScanned(isVisible, buf, bufPtr + localOffset, maxlen - visible, open);
      }
      if buf[bufPtr + localOffset] == '&' {
        var loc := EntityLength(buf[bufPtr + localOffset..]);
        if loc > 0 {
          EntityScanned(isVisible, buf, bufPtr + localOffset, maxlen - visible, open);
          atEntity := true;
          offset := offset + loc - 1;
        }
        visible := visible + 1;
      } else if isVisible(runeValue.code) {
        visible := visible + 1;
      }
      if visible >= maxlen {
        atLimit := true;
        break;
      }
      if atEntity {
        break;
      }
      localOffset := localOffset + runeValue.size;
    }
  }

  /** How the scan goes on after the text loop. */
  lemma AfterText(isVisible: int -> bool, buf: string, w: Outcome, open: seq<string>,
                  at: nat, room: nat, atEntity: bool)
    requires TextScanned(isVisible, buf, w, open, at, room, atEntity)
    ensures at < |buf|
    ensures room == 0 || at == |buf| - 1 ==> w == Cut(at + DecodeRune(buf[at..]).size, open)
    ensures room > 0 && at < |buf| - 1 && atEntity ==> w == Walk(isVisible, buf, at + 1, room, open)
    ensures room > 0 && at < |buf| - 1 && !atEntity ==>
              match FindTag(buf[at..])
              case None => w == Panic
              case Some(tag) =>
                match Step(open, tag)
                case None => w == Unbalanced
                case Some(open') => w == Walk(isVisible, buf, at + tag.length, room, open')
  {
    hide DecodeRune, FindTag, Step, EntityLength;
    if room > 0 && !atEntity && buf[at] != '<' {
      var last := buf[at..];
      assert last[0] == buf[at];
      assert forall i :: 1 <= i < |last| ==> Continuation(last[i]);
      assert FindTag(last) == None;
    } else if room > 0 && !atEntity {
      assert w == WalkTag(isVisible, buf, at, room, open);
    }
  }

  /** What the scanner does with a tag: skip it if void, push it, or pop it. */
  method ApplyTag(tagStack: seq<string>, tag: Tag) returns (next: Option<seq<string>>)
    ensures next == Step(tagStack, tag)
  {
    var isVoidElement := false;
    for i := 0 to |VOID_ELEMENTS|
      invariant isVoidElement <==> tag.name in VOID_ELEMENTS[..i]
    {
      if tag.name == VOID_ELEMENTS[i] {
        isVoidElement := true;
        break;
      }
    }
    if isVoidElement {
      return Some(tagStack);
    }
    if !tag.closing {
      return Some(tagStack + [tag.name]);
    }
    if |tagStack| == 0 || tagStack[|tagStack| - 1] != tag.name {
      return None;
    }
    return Some(tagStack[..|tagStack| - 1]);
  }

  /** The loop that closes the tags still open. */
  method CloseTags(text: string, tagStack: seq<string>) returns (output: string)
    ensures output == text + Closers(tagStack)
  {
    output := text;
    var i := |tagStack| - 1;
    assert tagStack[..i + 1] == tagStack;
    while i >= 0
      invariant -1 <= i < |tagStack|
      invariant output + Closers(tagStack[..i + 1]) == text + Closers(tagStack)
    {
      assert tagStack[..i + 1][..i] == tagStack[..i];
      var closer := "</" + tagStack[i] + ">";
      assert output + Closers(tagStack[..i + 1]) == (output + closer) + Closers(tagStack[..i]);
      output := output + closer;
      i := i - 1;
    }
  }

  /** The outcome when the scanner's loop guard fails. */
  lemma StopOfScan(isVisible: int -> bool, buf: string, maxlen: int)
    ensures maxlen < 0 ==> Scanned(isVisible, buf, maxlen) == Cut(DecodeRune(buf[0..]).size, [])
    ensures forall room, open :: Walk(isVisible, buf, |buf|, room, open) == Cut(|buf|, open)
    ensures DecodeRune(buf[|buf|..]).size == 0
  {
    assert buf[0..] == buf;
  }

  /** The scanner: for every buffer, limit and ellipsis its nested loops end,
      and end the way the token-by-token reading does. */
  method TruncateHtml(isVisible: int -> bool, buf: string, maxlen: int, ellipsis: string) returns (res: Result)
    ensures res == Truncated(isVisible, buf, maxlen, ellipsis)
  {
    hide Walk, DecodeRune, FindTag, Step, TextScanned;
    if |buf| == 0 || maxlen == 0 {
      return Output("");
    }
    var tagStack: seq<string> := [];
    var visible, bufPtr := 0, 0;
    ghost var target := Scanned(isVisible, buf, maxlen);
    while bufPtr < |buf| && visible < maxlen
      invariant bufPtr <= |buf| && visible >= 0
      invariant maxlen < 0 ==> bufPtr == 0 && tagStack == [] && visible == 0
      invariant maxlen > 0 ==> visible < maxlen
      invariant maxlen > 0 ==> target == Walk(isVisible, buf, bufPtr, maxlen - visible, tagStack)
      decreases |buf| - bufPtr
    {
      var offset, atLimit, atEntity;
      offset, visible, atLimit, atEntity := ScanText(isVisible, buf, bufPtr, visible, maxlen, tagStack);
      bufPtr := bufPtr + offset;
      AfterText(isVisible, buf, target, tagStack, bufPtr, maxlen - visible, atEntity);
      if atLimit || bufPtr >= |buf| - 1 {
        break;
      }
      if atEntity {
        bufPtr := bufPtr + 1;
        continue;
      }

      var matches := FindTag(buf[bufPtr..]);
      if matches.None? {
        return IndexOutOfRange;
      }
      var tag := matches.value;
      bufPtr := bufPtr + tag.length;
      var next := ApplyTag(tagStack, tag);
      if next.None? {
        return ErrUnbalancedTags;
      }
      tagStack := next.value;
    }

    StopOfScan(isVisible, buf, maxlen);
    bufPtr := bufPtr + DecodeRune(buf[bufPtr..]).size;
    var output := CloseTags(buf[..bufPtr] + ellipsis, tagStack);
    res := Output(output);
  }
}
