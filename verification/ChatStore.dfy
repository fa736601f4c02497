/**
 The chat store (model/chat.go, dao/chat.go): what may be posted and how often,
 which message a reply may answer, and what readers are shown.
 */
module ChatStore {
  import opened Basics
  import Truncate

  /** A row of the chats table; deletion only marks it. */
  datatype Chat = Chat(id: nat, user: nat, message: string, stream: nat, admin: bool, created: int, visible: bool,
                       replyTo: Option<int>, deleted: bool)

  /** A message as it arrives. */
  datatype Draft = Draft(user: nat, message: string, stream: nat, admin: bool, visible: bool, replyTo: Option<int>)

  datatype Error = ErrMessageTooLong | ErrMessageNoText | ErrCooledDown | ErrReplyToNoMsg | ErrReplyToWrongStream
                 | ErrReplyToReply

  const MAX_MESSAGE_LENGTH := 1000

  /** Times are in seconds. */
  const COOL_DOWN := 120
  const COOL_DOWN_MESSAGES := 5

  // ------------------------------------------------------------------ Text

  /** `unicode.IsSpace`. */
  predicate IsSpace(c: char) {
    || '\t' <= c <= '\r' || c == ' ' || c == '\U{85}' || c == '\U{A0}' || c == '\U{1680}'
    || '\U{2000}' <= c <= '\U{200A}' || c == '\U{2028}' || c == '\U{2029}' || c == '\U{202F}' || c == '\U{205F}'
    || c == '\U{3000}'
  }

  function TrimLeft(s: string): string {
    if s != [] && IsSpace(s[0]) then TrimLeft(s[1..]) else s
  }

  function TrimRight(s: string): string {
    if s != [] && IsSpace(s[|s| - 1]) then TrimRight(s[..|s| - 1]) else s
  }

  function TrimSpace(s: string): string {
    TrimRight(TrimLeft(s))
  }

  /** The length in bytes of the UTF-8 form. */
  function ByteLength(s: string): nat {
    if s == [] then 0
    else
      var c := s[|s| - 1] as int;
      ByteLength(s[..|s| - 1]) + (if c < 0x80 then 1 else if c < 0x800 then 2 else if c < 0x1_0000 then 3 else 4)
  }

  // --------------------------------------------------------------- Queries

  /** The message with this id, unless it is deleted. */
  function Find(chats: seq<Chat>, id: int): (c: Option<Chat>)
    ensures c.Some? ==> c.value in chats && c.value.id == id && !c.value.deleted
    ensures c.None? ==> forall x :: x in chats && x.id == id ==> x.deleted
  {
    if chats == [] then None
    else
      var last := chats[|chats| - 1];
      if last.id == id && !last.deleted then Some(last) else Find(chats[..|chats| - 1], id)
  }

  /** The messages the limiter counts: also those sent as an admin, and in any stream. */
  function Recent(chats: seq<Chat>, user: nat, since: int): nat {
    |Filter(chats, (c: Chat) => !c.deleted && c.user == user && c.created > since)|
  }

  // ------------------------------------------------------------------ Calls

  /** The checks before a message is stored, in the order they are made. */
  function Refusal(chats: seq<Chat>, d: Draft, now: int): Option<Error> {
    var text := TrimSpace(d.message);
    if ByteLength(text) > MAX_MESSAGE_LENGTH then Some(ErrMessageTooLong)
    else if text == "" then Some(ErrMessageNoText)
    else if !d.admin && Recent(chats, d.user, now - COOL_DOWN) >= COOL_DOWN_MESSAGES then Some(ErrCooledDown)
    else if d.replyTo.None? then None
    else
      match Find(chats, d.replyTo.value)
      case None => Some(ErrReplyToNoMsg)
      case Some(parent) =>
        if parent.stream != d.stream then Some(ErrReplyToWrongStream)
        else if parent.replyTo.Some? then Some(ErrReplyToReply)
        else None
  }

  function Row(d: Draft, id: nat, created: int): Chat {
    Chat(id, d.user, TrimSpace(d.message), d.stream, d.admin, created, d.visible, d.replyTo, false)
  }

  function Delete(chats: seq<Chat>, id: int): seq<Chat> {
    seq(|chats|, k requires 0 <= k < |chats| =>
      if chats[k].id == id || chats[k].replyTo == Some(id) then chats[k].(deleted := true) else chats[k])
  }

  function Show(chats: seq<Chat>, id: int, visible: bool): seq<Chat> {
    seq(|chats|, k requires 0 <= k < |chats| =>
      if chats[k].id == id && !chats[k].deleted then chats[k].(visible := visible) else chats[k])
  }

  /** One call. A message is checked at one time and stamped at another, not earlier. */
  datatype Step =
    | Add(draft: Draft, now: int, created: int)
    | DeleteChat(id: int)
    | ApproveChat(id: int)
    | RetractChat(id: int)

  predicate StampedAfterCheck(steps: seq<Step>) {
    forall k :: 0 <= k < |steps| && steps[k].Add? ==> steps[k].now <= steps[k].created
  }

  function Next(chats: seq<Chat>, step: Step): seq<Chat> {
    match step
    case Add(d, now, created) =>
      if Refusal(chats, d, now).Some? then chats else chats + [Row(d, |chats| + 1, created)]
    case DeleteChat(id) => Delete(chats, id)
    case ApproveChat(id) => Show(chats, id, true)
    case RetractChat(id) => Show(chats, id, false)
  }

  function Run(steps: seq<Step>): seq<Chat>
    decreases |steps|
  {
    if steps == [] then [] else Next(Run(steps[..|steps| - 1]), steps[|steps| - 1])
  }

  // ------------------------------------------------------------- Rate limit

  /** Sent by this user without admin rights in the window (a, a + 2 min]. */
  predicate InWindow(c: Chat, user: nat, a: int) {
    !c.admin && c.user == user && a < c.created <= a + 2 * 60
  }

  function LiveInWindow(chats: seq<Chat>, user: nat, a: int): nat {
    |Filter(chats, (c: Chat) => !c.deleted && InWindow(c, user, a))|
  }

  function SentInWindow(chats: seq<Chat>, user: nat, a: int): nat {
    |Filter(chats, (c: Chat) => InWindow(c, user, a))|
  }

  function DeletedInWindow(chats: seq<Chat>, user: nat, a: int): nat {
    |Filter(chats, (c: Chat) => c.deleted && InWindow(c, user, a))|
  }

  lemma {:induction false} FilterWeaker(s: seq<Chat>, p: Chat -> bool, q: Chat -> bool)
    requires forall c :: c in s && p(c) ==> q(c)
    ensures |Filter(s, p)| <= |Filter(s, q)|
  {
    if s != [] {
      FilterWeaker(s[..|s| - 1], p, q);
    }
  }

  /** Changing rows so that no more of them are kept. */
  lemma {:induction false} FilterOfChanged(s: seq<Chat>, t: seq<Chat>, p: Chat -> bool)
    requires |s| == |t| && forall k :: 0 <= k < |s| ==> p(t[k]) ==> p(s[k])
    ensures |Filter(t, p)| <= |Filter(s, p)|
    decreases |s|
  {
    if s != [] {
      FilterOfChanged(s[..|s| - 1], t[..|t| - 1], p);
    }
  }

  lemma WindowAfterAdd(chats: seq<Chat>, d: Draft, now: int, created: int, user: nat, a: int)
    requires now <= created && Refusal(chats, d, now).None?
    requires LiveInWindow(chats, user, a) <= 5
    ensures LiveInWindow(chats + [Row(d, |chats| + 1, created)], user, a) <= 5
  {
    hide TrimSpace, ByteLength, Find;
    var c := Row(d, |chats| + 1, created);
    var next := chats + [c];
    assert next[..|next| - 1] == chats && next[|next| - 1] == c;
    if InWindow(c, user, a) {
      FilterWeaker(chats, (c: Chat) => !c.deleted && InWindow(c, user, a),
                   (c: Chat) => !c.deleted && c.user == d.user && c.created > now - COOL_DOWN);
    }
  }

  /** Main result: in every run, with any interleaved deletions, a user has at most
      5 live non-admin messages in any two-minute window, open at its start. Time
      may even run backwards between calls. */
  lemma {:induction false} RateLimit(steps: seq<Step>, user: nat, a: int)
    requires StampedAfterCheck(steps)
    ensures LiveInWindow(Run(steps), user, a) <= 5
    decreases |steps|
  {
    hide Refusal, Row, LiveInWindow, Delete, Show;
    if steps == [] {
      EmptyWindow(user, a);
    } else {
      var n := |steps| - 1;
      var chats := Run(steps[..n]);
      RateLimit(steps[..n], user, a);
      if steps[n].Add? {
        if Refusal(chats, steps[n].draft, steps[n].now).None? {
          WindowAfterAdd(chats, steps[n].draft, steps[n].now, steps[n].created, user, a);
        }
      } else {
        OtherStepsEmptyWindow(chats, steps[n], user, a);
      }
    }
  }

  lemma EmptyWindow(user: nat, a: int)
    ensures LiveInWindow([], user, a) == 0
  {
  }

  lemma OtherStepsEmptyWindow(chats: seq<Chat>, step: Step, user: nat, a: int)
    requires !step.Add?
    ensures LiveInWindow(Next(chats, step), user, a) <= LiveInWindow(chats, user, a)
  {
    hide Filter, Refusal;
    FilterOfChanged(chats, Next(chats, step), (c: Chat) => !c.deleted && InWindow(c, user, a));
  }

  lemma {:induction false} SentIsLiveAndDeleted(chats: seq<Chat>, user: nat, a: int)
    ensures SentInWindow(chats, user, a) == LiveInWindow(chats, user, a) + DeletedInWindow(chats, user, a)
    decreases |chats|
  {
    if chats != [] {
      SentIsLiveAndDeleted(chats[..|chats| - 1], user, a);
    }
  }

  /** Of all messages sent in a window, deleted ones included, at most 5 are more
      than the deleted ones; so without deletions at most 5 are sent. */
  lemma SentRate(steps: seq<Step>, user: nat, a: int)
    requires StampedAfterCheck(steps)
    ensures SentInWindow(Run(steps), user, a) <= 5 + DeletedInWindow(Run(steps), user, a)
    ensures (forall k :: 0 <= k < |steps| ==> !steps[k].DeleteChat?) ==>
              SentInWindow(Run(steps), user, a) <= 5
  {
    hide Run, LiveInWindow, SentInWindow, DeletedInWindow;
    RateLimit(steps, user, a);
    SentIsLiveAndDeleted(Run(steps), user, a);
    if forall k :: 0 <= k < |steps| ==> !steps[k].DeleteChat? {
      NoneDeleted(steps);
      NoneToCount(Run(steps), user, a);
    }
  }

  lemma {:induction false} NoneToCount(chats: seq<Chat>, user: nat, a: int)
    requires forall c :: c in chats ==> !c.deleted
    ensures DeletedInWindow(chats, user, a) == 0
  {
    if chats != [] {
      NoneToCount(chats[..|chats| - 1], user, a);
    }
  }

  lemma {:induction false} NoneDeleted(steps: seq<Step>)
    requires forall k :: 0 <= k < |steps| ==> !steps[k].DeleteChat?
    ensures forall c :: c in Run(steps) ==> !c.deleted
    decreases |steps|
  {
    hide Refusal;
    if steps != [] {
      NoneDeleted(steps[..|steps| - 1]);
    }
  }

  // ----------------------------------------------------------- Reply forest

  /** A live reply answers a live top-level message of the same stream. */
  predicate Answers(chats: seq<Chat>, c: Chat, parent: Chat) {
    && parent in chats && !parent.deleted && parent.replyTo.None?
    && c.replyTo == Some(parent.id) && parent.stream == c.stream
  }

  predicate HasParent(chats: seq<Chat>, c: Chat) {
    exists parent :: parent in chats && Answers(chats, c, parent)
  }

  predicate Numbered(chats: seq<Chat>) {
    forall k :: 0 <= k < |chats| ==> chats[k].id == k + 1
  }

  predicate Forest(chats: seq<Chat>) {
    forall c :: c in chats && !c.deleted && c.replyTo.Some? ==> HasParent(chats, c)
  }

  lemma AddKeepsForest(chats: seq<Chat>, c: Chat)
    requires Forest(chats)
    requires c.replyTo.Some? ==> Find(chats, c.replyTo.value).Some?
                                 && Answers(chats, c, Find(chats, c.replyTo.value).value)
    ensures Forest(chats + [c])
  {
    hide Find, HasParent;
    forall x | x in chats + [c] && !x.deleted && x.replyTo.Some? ensures HasParent(chats + [c], x) {
      if x in chats {
        ParentAmongMore(chats, [c], x);
      } else {
        assert HasParent(chats, c) by { ParentIs(chats, c, Find(chats, c.replyTo.value).value); }
        ParentAmongMore(chats, [c], c);
      }
    }
  }

  lemma ParentIs(chats: seq<Chat>, c: Chat, parent: Chat)
    requires Answers(chats, c, parent)
    ensures HasParent(chats, c)
  {
  }

  lemma ParentAmongMore(chats: seq<Chat>, more: seq<Chat>, c: Chat)
    requires HasParent(chats, c)
    ensures HasParent(chats + more, c)
  {
    var parent :| parent in chats && Answers(chats, c, parent);
    ParentIs(chats + more, c, parent);
  }

  /** Rows change, but only in visibility, or by a deletion that also covers the replies. */
  predicate Thinned(s: seq<Chat>, t: seq<Chat>) {
    && |s| == |t|
    && (forall k :: 0 <= k < |s| ==> t[k] == s[k].(visible := t[k].visible, deleted := t[k].deleted))
    && (forall k :: 0 <= k < |s| && s[k].deleted ==> t[k].deleted)
    && (forall k, m ::
          && 0 <= k < |s| && 0 <= m < |s| && s[k].replyTo == Some(s[m].id)
          && s[m].replyTo.None? && !s[m].deleted && t[m].deleted ==>
          t[k].deleted)
  }

  lemma ThinnedKeepsForest(s: seq<Chat>, t: seq<Chat>)
    requires Forest(s) && Thinned(s, t)
    ensures Forest(t)
  {
    forall c | c in t && !c.deleted && c.replyTo.Some? ensures HasParent(t, c) {
      var k :| 0 <= k < |t| && t[k] == c;
      assert s[k] in s && HasParent(s, s[k]);
      var parent :| parent in s && Answers(s, s[k], parent);
      var m :| 0 <= m < |s| && s[m] == parent;
      ParentIs(t, c, t[m]);
    }
  }

  lemma StepKeepsForest(chats: seq<Chat>, step: Step)
    requires Forest(chats) && Numbered(chats)
    ensures Forest(Next(chats, step)) && Numbered(Next(chats, step))
  {
    hide Forest, Thinned, Answers, Refusal, Delete, Show;
    if step.Add? {
      if Refusal(chats, step.draft, step.now).None? {
        var c := Row(step.draft, |chats| + 1, step.created);
        FoundAnswers(chats, step.draft, step.now, c);
        AddKeepsForest(chats, c);
      }
    } else {
      OtherStepsThin(chats, step);
      ThinnedKeepsForest(chats, Next(chats, step));
    }
  }

  /** In every reachable store each live reply points to a live top-level message
      of its own stream; ids are the positions. */
  lemma {:induction false} RunKeepsForest(steps: seq<Step>)
    ensures Forest(Run(steps)) && Numbered(Run(steps))
    decreases |steps|
  {
    hide Forest, Numbered, Next;
    if steps == [] {
      NoForest();
    } else {
      RunKeepsForest(steps[..|steps| - 1]);
      StepKeepsForest(Run(steps[..|steps| - 1]), steps[|steps| - 1]);
    }
  }

  lemma OtherStepsThin(chats: seq<Chat>, step: Step)
    requires !step.Add? && Numbered(chats)
    ensures Thinned(chats, Next(chats, step)) && Numbered(Next(chats, step))
  {
    hide Refusal;
  }

  lemma NoForest()
    ensures Forest([]) && Numbered([])
  {
  }

  lemma FoundAnswers(chats: seq<Chat>, d: Draft, now: int, c: Chat)
    requires Refusal(chats, d, now).None? && c.replyTo == d.replyTo && c.stream == d.stream
    ensures c.replyTo.Some? ==> Find(chats, c.replyTo.value).Some?
                                && Answers(chats, c, Find(chats, c.replyTo.value).value)
  {
  }

  /** Where a user's messages since some time stand, also those sent as an admin and
      those in other streams, but no deleted ones. */
  function RecentOnes(chats: seq<Chat>, user: nat, since: int): set<nat> {
    set k: nat | k < |chats| && !chats[k].deleted && chats[k].user == user && chats[k].created > since
  }

  lemma {:induction false} RecentCounts(chats: seq<Chat>, user: nat, since: int)
    ensures Recent(chats, user, since) == |RecentOnes(chats, user, since)|
    decreases |chats|
  {
    hide Filter;
    var keep := (c: Chat) => !c.deleted && c.user == user && c.created > since;
    if chats == [] {
      FilterNone(chats, keep);
      assert RecentOnes(chats, user, since) == {};
    } else {
      var n := |chats| - 1;
      RecentCounts(chats[..n], user, since);
      FilterOfMore(chats, keep);
      var before := RecentOnes(chats[..n], user, since);
      assert RecentOnes(chats, user, since) == if keep(chats[n]) then before + {n} else before;
    }
  }

  /** The text fits: 1 to 1000 bytes are left of it when trimmed. */
  predicate TextFits(d: Draft) {
    0 < ByteLength(TrimSpace(d.message)) <= 1000
  }

  /** Five messages in the last two minutes, and no admin. */
  predicate CooledDown(chats: seq<Chat>, d: Draft, now: int) {
    !d.admin && |RecentOnes(chats, d.user, now - 2 * 60)| >= 5
  }

  predicate IsLive(chats: seq<Chat>, id: Option<int>, c: Chat) {
    c in chats && !c.deleted && Some(c.id) == id
  }

  /** When a message is taken, and for what reason it is refused. A message is taken
      exactly if its text fits, its author is not cooled down, and what it answers,
      if anything, is a live top-level message of the same stream. */
  lemma TakenExactly(chats: seq<Chat>, d: Draft, now: int)
    requires Numbered(chats)
    ensures var r := Refusal(chats, d, now);
            var passes := TextFits(d) && !CooledDown(chats, d, now);
            && (r == Some(ErrMessageTooLong) <==> ByteLength(TrimSpace(d.message)) > 1000)
            && (r == Some(ErrMessageNoText) <==> TrimSpace(d.message) == "")
            && (r == Some(ErrCooledDown) <==> TextFits(d) && CooledDown(chats, d, now))
            && (r == Some(ErrReplyToNoMsg) <==>
                passes && d.replyTo.Some? && forall c :: !IsLive(chats, d.replyTo, c))
            && (r == Some(ErrReplyToWrongStream) <==>
                passes && exists c :: IsLive(chats, d.replyTo, c) && c.stream != d.stream)
            && (r == Some(ErrReplyToReply) <==>
                passes && exists c :: IsLive(chats, d.replyTo, c) && c.stream == d.stream && c.replyTo.Some?)
            && (r == None <==>
                passes && (d.replyTo.Some? ==>
                             exists c :: IsLive(chats, d.replyTo, c) && c.stream == d.stream && c.replyTo.None?))
  {
    hide TrimSpace, Recent, RecentOnes, Find, ByteLength;
    EmptyHasNoBytes(TrimSpace(d.message));
    RecentCounts(chats, d.user, now - 2 * 60);
    if d.replyTo.Some? {
      var found := Find(chats, d.replyTo.value);
      if found.Some? {
        assert IsLive(chats, d.replyTo, found.value);
      }
      assert forall c :: IsLive(chats, d.replyTo, c) ==> found == Some(c);
    }
  }

  /** The byte length is that of the UTF-8 form, character by character. */
  lemma ByteLengthIsUtf8(s: string, c: char)
    requires Truncate.IsScalar(c as int)
    ensures ByteLength("") == 0
    ensures ByteLength(s + [c]) == ByteLength(s) + |Truncate.EncodeRune(c as int)|
  {
    hide Truncate.Octet;
    assert (s + [c])[..|s|] == s;
  }

  /** The code points of white space in the Unicode character database. */
  const WHITE_SPACE: set<int> :=
    {0x09, 0x0A, 0x0B, 0x0C, 0x0D, 0x20, 0x85, 0xA0, 0x1680, 0x2000, 0x2001, 0x2002, 0x2003, 0x2004, 0x2005, 0x2006,
     0x2007, 0x2008, 0x2009, 0x200A, 0x2028, 0x2029, 0x202F, 0x205F, 0x3000}

  lemma SpacesExactly(c: char)
    ensures IsSpace(c) <==> c as int in WHITE_SPACE
  {
  }

  /** Trimming takes away spaces at both ends, and all of them. */
  lemma {:induction false} TrimmedExactly(s: string)
    ensures exists i, j ::
              && 0 <= i <= j <= |s| && TrimSpace(s) == s[i..j]
              && (forall k :: 0 <= k < |s| && !(i <= k < j) ==> IsSpace(s[k]))
              && (i < j ==> !IsSpace(s[i]) && !IsSpace(s[j - 1]))
  {
    hide IsSpace;
    var i := LeftTrimmed(s);
    var j := RightTrimmed(s[i..]);
    assert TrimSpace(s) == s[i..i + j];
    forall k | 0 <= k < |s| && !(i <= k < i + j) ensures IsSpace(s[k]) {
      if i + j <= k {
        assert s[k] == s[i..][k - i];
      }
    }
    assert 0 <= i <= i + j <= |s|;
  }

  lemma {:induction false} LeftTrimmed(s: string) returns (i: nat)
    ensures i <= |s| && TrimLeft(s) == s[i..]
    ensures (forall k :: 0 <= k < i ==> IsSpace(s[k])) && (i < |s| ==> !IsSpace(s[i]))
  {
    hide IsSpace;
    if s != [] && IsSpace(s[0]) {
      i := LeftTrimmed(s[1..]);
      assert forall k :: 0 < k <= i ==> s[k] == s[1..][k - 1];
      i := i + 1;
    } else {
      i := 0;
    }
  }

  lemma {:induction false} RightTrimmed(s: string) returns (j: nat)
    ensures j <= |s| && TrimRight(s) == s[..j]
    ensures (forall k :: j <= k < |s| ==> IsSpace(s[k])) && (j > 0 ==> !IsSpace(s[j - 1]))
  {
    hide IsSpace;
    if s != [] && IsSpace(s[|s| - 1]) {
      j := RightTrimmed(s[..|s| - 1]);
    } else {
      j := |s|;
    }
  }

  // ----------------------------------------------------------------- Views

  /** A top-level message with the replies shown below it. */
  datatype Thread = Thread(top: Chat, replies: seq<Chat>)

  /** A reader who sees all, or one who sees what is visible or their own. */
  datatype Reader = Everything | VisibleOrOwn(user: nat)

  predicate ShownTo(reader: Reader, c: Chat) {
    reader.Everything? || c.visible || c.user == reader.user
  }

  /** Live top-level messages of a stream. */
  function Tops(chats: seq<Chat>, stream: nat, reader: Reader): seq<Chat> {
    Filter(chats, (c: Chat) => !c.deleted && c.stream == stream && c.replyTo.None? && ShownTo(reader, c))
  }

  /** Live replies to a message. */
  function Replies(chats: seq<Chat>, id: nat, reader: Reader): seq<Chat> {
    Filter(chats, (c: Chat) => !c.deleted && c.replyTo == Some(id) && ShownTo(reader, c))
  }

  function Threads(chats: seq<Chat>, tops: seq<Chat>, reader: Reader): (r: seq<Thread>)
    ensures |r| == |tops|
    decreases |tops|
  {
    if tops == [] then []
    else
      var top := tops[|tops| - 1];
      Threads(chats, tops[..|tops| - 1], reader) + [Thread(top, Replies(chats, top.id, reader))]
  }

  /** `GetVisibleChats` and `GetAllChats`: the condition is part of both queries. */
  function View(chats: seq<Chat>, stream: nat, reader: Reader): seq<Thread> {
    Threads(chats, Tops(chats, stream, reader), reader)
  }

  function OnlyShown(reader: Reader, s: seq<Chat>): seq<Chat> {
    Filter(s, (c: Chat) => ShownTo(reader, c))
  }

  /** The reference: a finished view, filtered at both levels. */
  function FilterView(threads: seq<Thread>, reader: Reader): seq<Thread>
    decreases |threads|
  {
    if threads == [] then []
    else
      var t := threads[|threads| - 1];
      FilterView(threads[..|threads| - 1], reader)
      + (if ShownTo(reader, t.top) then [Thread(t.top, OnlyShown(reader, t.replies))] else [])
  }

  lemma {:induction false} FilterTwice(s: seq<Chat>, p: Chat -> bool, q: Chat -> bool, both: Chat -> bool)
    requires forall c :: c in s ==> (both(c) <==> p(c) && q(c))
    ensures Filter(s, both) == Filter(Filter(s, p), q)
  {
    if s != [] {
      var front, last := s[..|s| - 1], s[|s| - 1];
      FilterTwice(front, p, q, both);
      var kept := Filter(front, p);
      if p(last) {
        assert (kept + [last])[..|kept|] == kept;
      } else {
        assert kept + [] == kept;
      }
    }
  }

  lemma TopsFiltered(chats: seq<Chat>, stream: nat, reader: Reader)
    ensures Tops(chats, stream, reader) == OnlyShown(reader, Tops(chats, stream, Everything))
  {
    hide Filter;
    FilterTwice(chats, (c: Chat) => !c.deleted && c.stream == stream && c.replyTo.None? && ShownTo(Everything, c),
                (c: Chat) => ShownTo(reader, c),
                (c: Chat) => !c.deleted && c.stream == stream && c.replyTo.None? && ShownTo(reader, c));
  }

  lemma RepliesFiltered(chats: seq<Chat>, id: nat, reader: Reader)
    ensures Replies(chats, id, reader) == OnlyShown(reader, Replies(chats, id, Everything))
  {
    hide Filter;
    FilterTwice(chats, (c: Chat) => !c.deleted && c.replyTo == Some(id) && ShownTo(Everything, c),
                (c: Chat) => ShownTo(reader, c),
                (c: Chat) => !c.deleted && c.replyTo == Some(id) && ShownTo(reader, c));
  }

  /** Main result: a reader who is no admin is shown exactly the full view,
      filtered at both levels by "visible or own". */
  lemma VisibleIsFilteredAll(chats: seq<Chat>, stream: nat, user: nat)
    ensures View(chats, stream, VisibleOrOwn(user)) == FilterView(View(chats, stream, Everything), VisibleOrOwn(user))
  {
    hide Threads, Tops, OnlyShown, FilterView;
    TopsFiltered(chats, stream, VisibleOrOwn(user));
    ThreadsFiltered(chats, Tops(chats, stream, Everything), VisibleOrOwn(user));
  }

  lemma {:induction false} ThreadsFiltered(chats: seq<Chat>, tops: seq<Chat>, reader: Reader)
    ensures Threads(chats, OnlyShown(reader, tops), reader) == FilterView(Threads(chats, tops, Everything), reader)
    decreases |tops|
  {
    hide Replies, ShownTo;
    if tops != [] {
      var front, last := tops[..|tops| - 1], tops[|tops| - 1];
      ThreadsFiltered(chats, front, reader);
      RepliesFiltered(chats, last.id, reader);
      var all := Threads(chats, tops, Everything);
      assert all[..|all| - 1] == Threads(chats, front, Everything);
      var kept := OnlyShown(reader, front);
      if ShownTo(reader, last) {
        assert OnlyShown(reader, tops) == kept + [last];
        assert (kept + [last])[..|kept|] == kept;
      } else {
        assert OnlyShown(reader, tops) == kept;
      }
    }
  }

  // ---------------------------------------------------------------- Coverage

  /** All messages of a view, thread by thread. */
  function Shown(threads: seq<Thread>): seq<Chat>
    decreases |threads|
  {
    if threads == [] then []
    else
      var t := threads[|threads| - 1];
      Shown(threads[..|threads| - 1]) + [t.top] + t.replies
  }

  /** A message a reader is to see: for a reply, its top-level message is shown too. */
  ghost predicate DueTo(chats: seq<Chat>, stream: nat, reader: Reader, c: Chat) {
    && c in chats && !c.deleted && c.stream == stream && ShownTo(reader, c)
    && (c.replyTo.Some? ==> exists parent :: parent in chats && Answers(chats, c, parent) && ShownTo(reader, parent))
  }

  lemma {:induction false} FilterOnce(s: seq<Chat>, keep: Chat -> bool, c: Chat)
    requires Numbered(s)
    ensures multiset(Filter(s, keep))[c] == if c in s && keep(c) then 1 else 0
    decreases |s|
  {
    if s != [] {
      var n := |s| - 1;
      FilterOnce(s[..n], keep, c);
      assert s == s[..n] + [s[n]];
    }
  }

  /** How many of these messages a message answers. */
  function ParentsAmong(tops: seq<Chat>, c: Chat): nat
    decreases |tops|
  {
    if tops == [] then 0
    else
      var n := |tops| - 1;
      ParentsAmong(tops[..n], c) + (if c.replyTo == Some(tops[n].id) then 1 else 0)
  }

  lemma ParentsOfMore(tops: seq<Chat>, t: Chat, c: Chat)
    ensures ParentsAmong(tops + [t], c) == ParentsAmong(tops, c) + (if c.replyTo == Some(t.id) then 1 else 0)
  {
    assert (tops + [t])[..|tops|] == tops;
  }

  lemma {:induction false} ParentsKept(s: seq<Chat>, keep: Chat -> bool, c: Chat, p: int)
    requires Numbered(s) && c.replyTo == Some(p)
    ensures ParentsAmong(Filter(s, keep), c) == if 1 <= p <= |s| && keep(s[p - 1]) then 1 else 0
    decreases |s|
  {
    hide ParentsAmong, Filter;
    if s != [] {
      var n := |s| - 1;
      ParentsKept(s[..n], keep, c, p);
      FilterOfMore(s, keep);
      if keep(s[n]) {
        ParentsOfMore(Filter(s[..n], keep), s[n], c);
      }
      assert s[n].id == n + 1;
    } else {
      NoParents([], c);
      assert Filter(s, keep) == [] by { FilterNone(s, keep); }
    }
  }

  lemma {:induction false} NoParents(tops: seq<Chat>, c: Chat)
    requires tops == [] || c.replyTo.None?
    ensures ParentsAmong(tops, c) == 0
    decreases |tops|
  {
    if tops != [] {
      NoParents(tops[..|tops| - 1], c);
    }
  }

  predicate LiveAndShown(chats: seq<Chat>, reader: Reader, c: Chat) {
    c in chats && !c.deleted && ShownTo(reader, c)
  }

  lemma RepliesOnce(chats: seq<Chat>, id: nat, reader: Reader, c: Chat)
    requires Numbered(chats)
    ensures multiset(Replies(chats, id, reader))[c] ==
            if LiveAndShown(chats, reader, c) && c.replyTo == Some(id) then 1 else 0
  {
    hide Filter;
    FilterOnce(chats, (x: Chat) => !x.deleted && x.replyTo == Some(id) && ShownTo(reader, x), c);
  }

  lemma ShownOfMore(chats: seq<Chat>, tops: seq<Chat>, reader: Reader)
    requires tops != []
    ensures var n := |tops| - 1;
            Shown(Threads(chats, tops, reader))
            == Shown(Threads(chats, tops[..n], reader)) + [tops[n]] + Replies(chats, tops[n].id, reader)
  {
    hide Replies;
    var all := Threads(chats, tops, reader);
    assert all[..|all| - 1] == Threads(chats, tops[..|tops| - 1], reader);
  }

  lemma {:induction false} ShownCount(chats: seq<Chat>, tops: seq<Chat>, reader: Reader, c: Chat)
    requires Numbered(chats)
    ensures multiset(Shown(Threads(chats, tops, reader)))[c] ==
            multiset(tops)[c] + (if LiveAndShown(chats, reader, c) then ParentsAmong(tops, c) else 0)
    decreases |tops|
  {
    hide Replies, LiveAndShown, Threads, Shown, ParentsAmong;
    if tops != [] {
      var n := |tops| - 1;
      ShownCount(chats, tops[..n], reader, c);
      RepliesOnce(chats, tops[n].id, reader, c);
      ShownOfMore(chats, tops, reader);
      ParentsOfMore(tops[..n], tops[n], c);
      assert tops == tops[..n] + [tops[n]];
    } else {
      NoneShown(chats, reader, c);
    }
  }

  lemma NoneShown(chats: seq<Chat>, reader: Reader, c: Chat)
    ensures Shown(Threads(chats, [], reader)) == [] && ParentsAmong([], c) == 0
  {
  }

  /** Main result: in every reachable store a view shows exactly the messages due
      to its reader, each once. */
  lemma ViewShowsDueOnce(steps: seq<Step>, stream: nat, reader: Reader, c: Chat)
    ensures multiset(Shown(View(Run(steps), stream, reader)))[c] ==
            if DueTo(Run(steps), stream, reader, c) then 1 else 0
  {
    hide Run;
    RunKeepsForest(steps);
    CountIsDue(Run(steps), stream, reader, c);
  }

  lemma CountIsDue(chats: seq<Chat>, stream: nat, reader: Reader, c: Chat)
    requires Forest(chats) && Numbered(chats)
    ensures multiset(Shown(View(chats, stream, reader)))[c] == if DueTo(chats, stream, reader, c) then 1 else 0
  {
    hide Filter, Threads, Shown, ParentsAmong, HasParent;
    var keep := (x: Chat) => !x.deleted && x.stream == stream && x.replyTo.None? && ShownTo(reader, x);
    ShownCount(chats, Tops(chats, stream, reader), reader, c);
    FilterOnce(chats, keep, c);
    if c.replyTo.Some? {
      ParentsKept(chats, keep, c, c.replyTo.value);
      if LiveAndShown(chats, reader, c) {
        ParentByNumber(chats, c);
      }
    } else {
      NoParents(Tops(chats, stream, reader), c);
    }
  }

  lemma ParentByNumber(chats: seq<Chat>, c: Chat)
    requires Forest(chats) && Numbered(chats) && c in chats && !c.deleted && c.replyTo.Some?
    ensures 1 <= c.replyTo.value <= |chats|
    ensures Answers(chats, c, chats[c.replyTo.value - 1])
    ensures forall parent :: parent in chats && Answers(chats, c, parent) ==> parent == chats[c.replyTo.value - 1]
  {
    var parent :| parent in chats && Answers(chats, c, parent);
  }

  // ---------------------------------------------- What calls do to a view

  /** A view without the message, its thread if it opens one. */
  function Without(threads: seq<Thread>, id: int): seq<Thread>
    decreases |threads|
  {
    if threads == [] then []
    else
      var t := threads[|threads| - 1];
      Without(threads[..|threads| - 1], id)
      + (if t.top.id == id then [] else [Thread(t.top, OtherThan(id, t.replies))])
  }

  function OtherThan(id: int, s: seq<Chat>): seq<Chat> {
    Filter(s, (c: Chat) => c.id != id)
  }

  /** A view in which only the visibility of the message is another. */
  function Marked(threads: seq<Thread>, id: int, visible: bool): seq<Thread> {
    seq(|threads|, k requires 0 <= k < |threads| =>
      Thread(Mark(threads[k].top, id, visible), MarkAll(threads[k].replies, id, visible)))
  }

  function Mark(c: Chat, id: int, visible: bool): Chat {
    if c.id == id && !c.deleted then c.(visible := visible) else c
  }

  function MarkAll(s: seq<Chat>, id: int, visible: bool): seq<Chat> {
    seq(|s|, k requires 0 <= k < |s| => Mark(s[k], id, visible))
  }

  /** Rows that drop out of a query, and rows that stay as they are. */
  lemma {:induction false} FilterOfThinned(s: seq<Chat>, t: seq<Chat>, keep: Chat -> bool, left: Chat -> bool)
    requires |s| == |t|
    requires forall k :: 0 <= k < |s| ==> (keep(t[k]) <==> keep(s[k]) && left(s[k])) && (keep(t[k]) ==> t[k] == s[k])
    ensures Filter(t, keep) == Filter(Filter(s, keep), left)
    decreases |s|
  {
    hide Filter;
    if s == [] {
      FilterNone(s, keep);
      FilterNone(s, left);
    } else {
      var n := |s| - 1;
      FilterOfThinned(s[..n], t[..n], keep, left);
      FilterOfMore(s, keep);
      FilterOfMore(t, keep);
      if keep(s[n]) {
        var kept := Filter(s[..n], keep);
        FilterOfMore(kept + [s[n]], left);
        assert (kept + [s[n]])[..|kept|] == kept;
      }
    }
  }

  lemma {:induction false} FilterOfMarked(s: seq<Chat>, keep: Chat -> bool, id: int, visible: bool)
    requires forall c :: keep(Mark(c, id, visible)) == keep(c)
    ensures Filter(MarkAll(s, id, visible), keep) == MarkAll(Filter(s, keep), id, visible)
    decreases |s|
  {
    hide Filter, Mark;
    if s == [] {
      FilterNone(s, keep);
      FilterNone(MarkAll(s, id, visible), keep);
      assert MarkAll(s, id, visible) == [];
    } else {
      var n := |s| - 1;
      FilterOfMarked(s[..n], keep, id, visible);
      assert MarkAll(s, id, visible)[..n] == MarkAll(s[..n], id, visible);
      FilterOfMore(s, keep);
      FilterOfMore(MarkAll(s, id, visible), keep);
    }
  }

  lemma DeletedRows(chats: seq<Chat>, stream: nat, reader: Reader, id: int)
    ensures Tops(Delete(chats, id), stream, reader) == OtherThan(id, Tops(chats, stream, reader))
    ensures forall top: nat :: top != id ==>
                                 Replies(Delete(chats, id), top, reader) == OtherThan(id, Replies(chats, top, reader))
  {
    hide Filter;
    FilterOfThinned(chats, Delete(chats, id),
                    (c: Chat) => !c.deleted && c.stream == stream && c.replyTo.None? && ShownTo(reader, c),
                    (c: Chat) => c.id != id);
    forall top: nat | top != id
      ensures Replies(Delete(chats, id), top, reader) == OtherThan(id, Replies(chats, top, reader))
    {
      FilterOfThinned(chats, Delete(chats, id), (c: Chat) => !c.deleted && c.replyTo == Some(top) && ShownTo(reader, c),
                      (c: Chat) => c.id != id);
    }
  }

  lemma {:induction false} DeletedThreads(chats: seq<Chat>, tops: seq<Chat>, reader: Reader, id: int)
    ensures Threads(Delete(chats, id), OtherThan(id, tops), reader) == Without(Threads(chats, tops, reader), id)
    decreases |tops|
  {
    hide Filter, Replies, Delete, Threads, Without, OtherThan;
    if tops == [] {
      NoThreads(chats, reader, id);
    } else {
      var n := |tops| - 1;
      DeletedThreads(chats, tops[..n], reader, id);
      DeletedRows(chats, 0, reader, id);
      ThreadsOfMore(chats, tops[..n], tops[n], reader);
      assert tops[..n] + [tops[n]] == tops;
      WithoutInMore(Threads(chats, tops[..n], reader), Thread(tops[n], Replies(chats, tops[n].id, reader)), id);
      OtherInMore(tops[..n], tops[n], id);
      if tops[n].id != id {
        ThreadsOfMore(Delete(chats, id), OtherThan(id, tops[..n]), tops[n], reader);
      }
    }
  }

  lemma NoThreads(chats: seq<Chat>, reader: Reader, id: int)
    ensures OtherThan(id, []) == [] && Threads(chats, [], reader) == [] == Threads(Delete(chats, id), [], reader)
    ensures Without([], id) == []
  {
  }

  lemma ThreadsOfMore(chats: seq<Chat>, tops: seq<Chat>, top: Chat, reader: Reader)
    ensures Threads(chats, tops + [top], reader)
         == Threads(chats, tops, reader) + [Thread(top, Replies(chats, top.id, reader))]
  {
    hide Replies;
    assert (tops + [top])[..|tops|] == tops;
  }

  lemma WithoutInMore(threads: seq<Thread>, t: Thread, id: int)
    ensures Without(threads + [t], id) ==
            if t.top.id == id then Without(threads, id)
            else Without(threads, id) + [Thread(t.top, OtherThan(id, t.replies))]
  {
    hide OtherThan;
    assert (threads + [t])[..|threads|] == threads;
  }

  lemma OtherInMore(s: seq<Chat>, c: Chat, id: int)
    ensures OtherThan(id, s + [c]) == if c.id == id then OtherThan(id, s) else OtherThan(id, s) + [c]
  {
    hide Filter;
    assert (s + [c])[..|s|] == s;
    FilterOfMore(s + [c], (x: Chat) => x.id != id);
  }

  /** A deletion takes the message and its thread out of every view, and nothing else. */
  lemma DeletionInViews(chats: seq<Chat>, stream: nat, reader: Reader, id: int)
    ensures View(Delete(chats, id), stream, reader) == Without(View(chats, stream, reader), id)
  {
    hide Threads, Delete, OtherThan, Tops;
    DeletedRows(chats, stream, reader, id);
    DeletedThreads(chats, Tops(chats, stream, reader), reader, id);
  }

  lemma {:induction false} MarkedThreads(chats: seq<Chat>, tops: seq<Chat>, id: int, visible: bool)
    ensures Threads(MarkAll(chats, id, visible), MarkAll(tops, id, visible), Everything)
         == Marked(Threads(chats, tops, Everything), id, visible)
    decreases |tops|
  {
    hide Replies, MarkAll;
    if tops != [] {
      var n := |tops| - 1;
      MarkedThreads(chats, tops[..n], id, visible);
      MarkedSplits(tops, id, visible);
      MarkedReplies(chats, tops[n].id, id, visible);
    } else {
      NothingMarked(id, visible);
    }
  }

  lemma NothingMarked(id: int, visible: bool)
    ensures MarkAll([], id, visible) == []
  {
  }

  lemma MarkedSplits(s: seq<Chat>, id: int, visible: bool)
    requires s != []
    ensures var n := |s| - 1;
            var all := MarkAll(s, id, visible);
            |all| == |s| && all[..n] == MarkAll(s[..n], id, visible) && all[n] == Mark(s[n], id, visible)
            && all[n].id == s[n].id
  {
  }

  lemma MarkedReplies(chats: seq<Chat>, top: nat, id: int, visible: bool)
    ensures Replies(MarkAll(chats, id, visible), top, Everything)
         == MarkAll(Replies(chats, top, Everything), id, visible)
  {
    hide Filter, MarkAll;
    FilterOfMarked(chats, (c: Chat) => !c.deleted && c.replyTo == Some(top) && ShownTo(Everything, c), id, visible);
  }

  lemma MarkedTops(chats: seq<Chat>, stream: nat, id: int, visible: bool)
    ensures Tops(MarkAll(chats, id, visible), stream, Everything)
         == MarkAll(Tops(chats, stream, Everything), id, visible)
  {
    hide Filter, MarkAll;
    FilterOfMarked(chats, (c: Chat) => !c.deleted && c.stream == stream && c.replyTo.None? && ShownTo(Everything, c),
                   id, visible);
  }

  /** Approving or retracting changes the flag of this message in the full view and
      nothing else; and the view of any user is what that leaves to see. */
  lemma VisibilityInViews(chats: seq<Chat>, stream: nat, user: nat, id: int, visible: bool)
    ensures var marked := Marked(View(chats, stream, Everything), id, visible);
            && View(Show(chats, id, visible), stream, Everything) == marked
            && View(Show(chats, id, visible), stream, VisibleOrOwn(user)) == FilterView(marked, VisibleOrOwn(user))
  {
    hide Threads, Tops, FilterView, Marked;
    assert Show(chats, id, visible) == MarkAll(chats, id, visible);
    MarkedTops(chats, stream, id, visible);
    MarkedThreads(chats, Tops(chats, stream, Everything), id, visible);
    VisibleIsFilteredAll(Show(chats, id, visible), stream, user);
  }

  /** A retracted message is shown to its author only. */
  lemma RetractedIsHidden(chats: seq<Chat>, stream: nat, user: nat, id: int, c: Chat)
    requires Forest(chats) && Numbered(chats)
    requires c.id == id && c.user != user
    ensures c !in Shown(View(Show(chats, id, false), stream, VisibleOrOwn(user)))
  {
    hide Shown, View, Forest;
    StepKeepsForest(chats, RetractChat(id));
    CountIsDue(Show(chats, id, false), stream, VisibleOrOwn(user), c);
    assert !DueTo(Show(chats, id, false), stream, VisibleOrOwn(user), c);
  }

  /** A view with one more reply below the message it answers. */
  function WithReply(threads: seq<Thread>, c: Chat): seq<Thread> {
    seq(|threads|, k requires 0 <= k < |threads| =>
      if c.replyTo == Some(threads[k].top.id) then Thread(threads[k].top, threads[k].replies + [c]) else threads[k])
  }

  /** A message new to the store, with the next number, and a parent if it is a reply. */
  predicate Fits(chats: seq<Chat>, c: Chat) {
    && Forest(chats) && Numbered(chats) && c.id == |chats| + 1 && !c.deleted
    && (c.replyTo.Some? ==> HasParent(chats, c))
  }

  lemma RowsAfterPost(chats: seq<Chat>, c: Chat, stream: nat, reader: Reader)
    requires !c.deleted
    ensures Tops(chats + [c], stream, reader) ==
            if c.replyTo.None? && c.stream == stream && ShownTo(reader, c) then Tops(chats, stream, reader) + [c]
            else Tops(chats, stream, reader)
    ensures forall top: nat ::
              Replies(chats + [c], top, reader) ==
              if c.replyTo == Some(top) && ShownTo(reader, c) then Replies(chats, top, reader) + [c]
              else Replies(chats, top, reader)
  {
    hide Filter;
    assert (chats + [c])[..|chats|] == chats;
    FilterOfMore(chats + [c], (x: Chat) => !x.deleted && x.stream == stream && x.replyTo.None? && ShownTo(reader, x));
    forall top: nat
      ensures Replies(chats + [c], top, reader) ==
              if c.replyTo == Some(top) && ShownTo(reader, c) then Replies(chats, top, reader) + [c]
              else Replies(chats, top, reader)
    {
      FilterOfMore(chats + [c], (x: Chat) => !x.deleted && x.replyTo == Some(top) && ShownTo(reader, x));
    }
  }

  lemma {:induction false} ThreadsAfterPost(chats: seq<Chat>, tops: seq<Chat>, c: Chat)
    requires !c.deleted
    ensures Threads(chats + [c], tops, Everything) == WithReply(Threads(chats, tops, Everything), c)
    decreases |tops|
  {
    hide Replies, Tops;
    if tops != [] {
      var n := |tops| - 1;
      ThreadsAfterPost(chats, tops[..n], c);
      RowsAfterPost(chats, c, 0, Everything);
    }
  }

  lemma NobodyAnswersYet(chats: seq<Chat>, id: nat, reader: Reader)
    requires Forest(chats) && Numbered(chats) && id == |chats| + 1
    ensures Replies(chats, id, reader) == []
  {
    hide Filter;
    forall c | c in chats ensures !(!c.deleted && c.replyTo == Some(id) && ShownTo(reader, c)) {
      if !c.deleted && c.replyTo.Some? {
        ParentByNumber(chats, c);
      }
    }
    FilterNone(chats, (c: Chat) => !c.deleted && c.replyTo == Some(id) && ShownTo(reader, c));
  }

  lemma {:induction false} NoReplyAdded(threads: seq<Thread>, c: Chat)
    requires forall k :: 0 <= k < |threads| ==> c.replyTo != Some(threads[k].top.id)
    ensures WithReply(threads, c) == threads
  {
  }

  lemma {:induction false} ThreadTops(chats: seq<Chat>, tops: seq<Chat>, reader: Reader)
    ensures |Threads(chats, tops, reader)| == |tops|
    ensures forall k :: 0 <= k < |tops| ==> Threads(chats, tops, reader)[k].top == tops[k]
    decreases |tops|
  {
    hide Replies;
    if tops != [] {
      ThreadTops(chats, tops[..|tops| - 1], reader);
    }
  }

  /** The full view of the message's stream gains it, as a thread of its own or as the
      last reply below its parent; the full views of other streams stay. */
  lemma PostInViews(chats: seq<Chat>, c: Chat, stream: nat)
    requires Fits(chats, c)
    ensures var before := View(chats, stream, Everything);
            View(chats + [c], stream, Everything) ==
            if c.stream != stream then before
            else if c.replyTo.None? then before + [Thread(c, [])]
            else WithReply(before, c)
  {
    hide Replies, Tops, Threads, HasParent, Forest, Numbered;
    var tops := Tops(chats, stream, Everything);
    RowsAfterPost(chats, c, stream, Everything);
    ThreadsAfterPost(chats, tops, c);
    ThreadTops(chats, tops, Everything);
    if c.replyTo.None? {
      NoReplyAdded(Threads(chats, tops, Everything), c);
      if c.stream == stream {
        ThreadsOfMore(chats + [c], tops, c, Everything);
        NobodyAnswersYet(chats, c.id, Everything);
      }
    } else if c.stream != stream {
      OtherStreamsParents(chats, c, stream);
      NoReplyAdded(Threads(chats, tops, Everything), c);
    }
  }

  lemma OtherStreamsParents(chats: seq<Chat>, c: Chat, stream: nat)
    requires Numbered(chats) && HasParent(chats, c) && c.stream != stream
    ensures forall k :: 0 <= k < |Tops(chats, stream, Everything)| ==>
                          c.replyTo != Some(Tops(chats, stream, Everything)[k].id)
  {
    hide Filter;
    var tops := Tops(chats, stream, Everything);
    var parent :| parent in chats && Answers(chats, c, parent);
    forall k | 0 <= k < |tops| ensures c.replyTo != Some(tops[k].id) {
      assert tops[k] in tops && tops[k] in chats;
    }
  }

  /** Who sees a message just posted: its author and, if it is visible, everybody; a
      reply only where its parent is seen, too. */
  lemma PostSeenBy(chats: seq<Chat>, c: Chat, user: nat)
    requires Fits(chats, c)
    ensures c in Shown(View(chats + [c], c.stream, VisibleOrOwn(user))) <==>
              && (c.visible || c.user == user)
              && (c.replyTo.Some? ==>
                    exists parent :: && parent in chats && parent.replyTo.None? && !parent.deleted
                                     && Some(parent.id) == c.replyTo && (parent.visible || parent.user == user))
  {
    hide Shown, View, HasParent;
    var more := chats + [c];
    assert Forest(more) by { FittingKeepsForest(chats, c); }
    assert Numbered(more);
    CountIsDue(more, c.stream, VisibleOrOwn(user), c);
    if c.replyTo.Some? {
      ParentAmong(chats, c);
      ParentByNumber(more, c);
      ParentIsOld(chats, c);
    }
  }

  /** The message a draft answers is live and visible to the user, or their own. */
  predicate ShowsParent(chats: seq<Chat>, d: Draft, user: nat) {
    exists parent :: && parent in chats && parent.replyTo.None? && !parent.deleted
                     && Some(parent.id) == d.replyTo && (parent.visible || parent.user == user)
  }

  lemma RowFits(chats: seq<Chat>, d: Draft, now: int, created: int)
    requires Forest(chats) && Numbered(chats) && Refusal(chats, d, now).None?
    ensures Fits(chats, Row(d, |chats| + 1, created))
    ensures Row(d, |chats| + 1, created) ==
            Chat(|chats| + 1, d.user, TrimSpace(d.message), d.stream, d.admin, created, d.visible, d.replyTo, false)
  {
    hide Forest, Numbered, TrimSpace, Recent, Find;
    var c := Row(d, |chats| + 1, created);
    FoundAnswers(chats, d, now, c);
    if c.replyTo.Some? {
      ParentIs(chats, c, Find(chats, c.replyTo.value).value);
    }
  }

  lemma FittingKeepsForest(chats: seq<Chat>, c: Chat)
    requires Fits(chats, c)
    ensures Forest(chats + [c])
  {
    hide HasParent;
    forall x | x in chats + [c] && !x.deleted && x.replyTo.Some? ensures HasParent(chats + [c], x) {
      ParentAmongMore(chats, [c], x);
    }
  }

  lemma ParentAmong(chats: seq<Chat>, c: Chat)
    requires HasParent(chats, c)
    ensures HasParent(chats + [c], c)
  {
    ParentAmongMore(chats, [c], c);
  }

  lemma ParentIsOld(chats: seq<Chat>, c: Chat)
    requires Numbered(chats) && HasParent(chats, c) && c.id == |chats| + 1
    ensures 1 <= c.replyTo.value <= |chats|
    ensures Answers(chats, c, chats[c.replyTo.value - 1])
    ensures forall p :: p in chats && Some(p.id) == c.replyTo ==> p == chats[c.replyTo.value - 1]
  {
    var parent :| parent in chats && Answers(chats, c, parent);
  }

  // ------------------------------------------------- Deletions make room

  function Posted(d: Draft, n: nat): seq<Chat> {
    seq(n, (k: nat) => Row(d, k + 1, 0))
  }

  lemma {:induction false} FilterJoined(s: seq<Chat>, t: seq<Chat>, keep: Chat -> bool)
    ensures Filter(s + t, keep) == Filter(s, keep) + Filter(t, keep)
    decreases |t|
  {
    hide Filter;
    if t == [] {
      assert s + t == s;
      FilterNone(t, keep);
    } else {
      var n := |t| - 1;
      FilterJoined(s, t[..n], keep);
      assert (s + t)[..|s + t| - 1] == s + t[..n];
      FilterOfMore(s + t, keep);
      FilterOfMore(t, keep);
    }
  }

  lemma {:induction false} RunPosts(d: Draft, n: nat)
    requires !d.admin && d.replyTo.None? && Refusal([], d, 0).None? && n <= 5
    ensures Run(seq(n, k => Add(d, 0, 0))) == Posted(d, n)
    ensures Refusal(Posted(d, n), d, 0) == if n < COOL_DOWN_MESSAGES then None else Some(ErrCooledDown)
  {
    hide TrimSpace, ByteLength, Filter;
    FilterAll(Posted(d, n), (c: Chat) => !c.deleted && c.user == d.user && c.created > 0 - COOL_DOWN);
    if n > 0 {
      RunPosts(d, n - 1);
      assert seq(n, k => Add(d, 0, 0))[..n - 1] == seq(n - 1, k => Add(d, 0, 0));
      assert Posted(d, n) == Posted(d, n - 1) + [Row(d, n, 0)];
    }
  }

  /** Deletions make room: five messages fill the window and the next is refused;
      with one of them deleted it is taken, so six were sent in the window. */
  lemma DeletionMakesRoom(d: Draft)
    requires !d.admin && d.replyTo.None? && Refusal([], d, 0).None?
    ensures var five := seq(5, k => Add(d, 0, 0));
            && Next(Run(five), Add(d, 0, 0)) == Run(five)
            && SentInWindow(Next(Next(Run(five), Step.DeleteChat(1)), Add(d, 0, 0)), d.user, -1) == 6
  {
    hide TrimSpace, ByteLength, Filter, Run;
    RunPosts(d, 5);
    var left := Delete(Posted(d, 5), 1);
    var first, rest := [Row(d, 1, 0).(deleted := true)], Posted(d, 5)[1..];
    assert left == first + rest;
    var counted := (c: Chat) => !c.deleted && c.user == d.user && c.created > 0 - COOL_DOWN;
    FilterJoined(first, rest, counted);
    FilterAll(rest, counted);
    FilterNone(first, counted);
    FilterAll(left + [Row(d, 6, 0)], (c: Chat) => InWindow(c, d.user, -1));
  }

  // -------------------------------------------------------------- The object

  class ChatDao {
    var chats: seq<Chat>

    ghost predicate Valid()
      reads this
    {
      Forest(chats) && Numbered(chats)
    }

    constructor ()
      ensures Valid() && chats == []
    {
      chats := [];
    }

    /** A refused message leaves the table as it is. A taken one is a new row with the
        trimmed text and all else as drafted; the full view of its stream gains just
        this message, and users see it as its draft's visibility says. */
    method AddMessage(d: Draft, now: int, created: int) returns (error: Option<Error>)
      requires Valid()
      modifies this
      ensures Valid()
      ensures error == Refusal(old(chats), d, now)
      ensures chats == Next(old(chats), Add(d, now, created))
      ensures error.Some? ==> chats == old(chats)
      ensures error.None? ==>
                && |chats| == |old(chats)| + 1 && chats[..|old(chats)|] == old(chats)
                && chats[|old(chats)|] == Chat(|chats|, d.user, TrimSpace(d.message), d.stream, d.admin, created,
                                               d.visible, d.replyTo, false)
      ensures error.None? ==>
                forall stream :: var before := View(old(chats), stream, Everything);
                                 View(chats, stream, Everything) ==
                                 if stream != d.stream then before
                                 else if d.replyTo.None? then before + [Thread(chats[|old(chats)|], [])]
                                 else WithReply(before, chats[|old(chats)|])
      ensures error.None? ==>
                forall user :: chats[|old(chats)|] in Shown(View(chats, d.stream, VisibleOrOwn(user))) <==>
                                 && (d.visible || user == d.user)
                                 && (d.replyTo.Some? ==> ShowsParent(old(chats), d, user))
    {
      hide Forest, Numbered, Refusal, Row, View, Shown, WithReply, HasParent;
      error := BeforeCreate(d, now);
      StepKeepsForest(chats, Add(d, now, created));
      if error.Some? {
        return;
      }
      var c := Row(d, |chats| + 1, created);
      RowFits(chats, d, now, created);
      assert (chats + [c])[..|chats|] == chats;
      forall stream ensures View(chats + [c], stream, Everything) ==
                            if stream != d.stream then View(chats, stream, Everything)
                            else if d.replyTo.None? then View(chats, stream, Everything) + [Thread(c, [])]
                            else WithReply(View(chats, stream, Everything), c)
      {
        PostInViews(chats, c, stream);
      }
      forall user
        ensures c in Shown(View(chats + [c], d.stream, VisibleOrOwn(user))) <==>
                  (d.visible || user == d.user) && (d.replyTo.Some? ==> ShowsParent(chats, d, user))
      {
        PostSeenBy(chats, c, user);
      }
      chats := chats + [c];
    }

    method BeforeCreate(d: Draft, now: int) returns (error: Option<Error>)
      ensures error == Refusal(chats, d, now)
    {
      var message := TrimSpace(d.message);
      if ByteLength(message) > MAX_MESSAGE_LENGTH {
        return Some(ErrMessageTooLong);
      }
      if ByteLength(message) == 0 {
        EmptyHasNoBytes(message);
        return Some(ErrMessageNoText);
      }
      if !d.admin {
        var recentMessages := Recent(chats, d.user, now - COOL_DOWN);
        if recentMessages >= COOL_DOWN_MESSAGES {
          return Some(ErrCooledDown);
        }
      }
      if d.replyTo.None? {
        return None;
      }
      var replyTo := Find(chats, d.replyTo.value);
      if replyTo.None? {
        return Some(ErrReplyToNoMsg);
      }
      if replyTo.value.stream != d.stream {
        return Some(ErrReplyToWrongStream);
      }
      if replyTo.value.replyTo.Some? {
        return Some(ErrReplyToReply);
      }
      return None;
    }

    /** Every view loses the message and its thread, and nothing else. */
    method DeleteChat(id: int)
      requires Valid()
      modifies this
      ensures Valid()
      ensures chats == Next(old(chats), Step.DeleteChat(id))
      ensures forall stream, reader :: View(chats, stream, reader) == Without(View(old(chats), stream, reader), id)
    {
      hide Forest, Numbered, View, Without;
      StepKeepsForest(chats, Step.DeleteChat(id));
      forall stream, reader
        ensures View(Delete(chats, id), stream, reader) == Without(View(chats, stream, reader), id) {
        DeletionInViews(chats, stream, reader, id);
      }
      chats := Delete(chats, id);
    }

    /** The full view marks the message visible; users see it where nothing else hides it. */
    method ApproveChat(id: int)
      requires Valid()
      modifies this
      ensures Valid()
      ensures chats == Next(old(chats), Step.ApproveChat(id))
      ensures forall stream :: View(chats, stream, Everything) == Marked(View(old(chats), stream, Everything), id, true)
    {
      hide Forest, Numbered, View, Marked;
      StepKeepsForest(chats, Step.ApproveChat(id));
      forall stream
        ensures View(Show(chats, id, true), stream, Everything) == Marked(View(chats, stream, Everything), id, true) {
        VisibilityInViews(chats, stream, 0, id, true);
      }
      chats := Show(chats, id, true);
    }

    /** The full view marks the message hidden; of the users only its author sees it. */
    method RetractChat(id: int)
      requires Valid()
      modifies this
      ensures Valid()
      ensures chats == Next(old(chats), Step.RetractChat(id))
      ensures forall stream ::
                View(chats, stream, Everything) == Marked(View(old(chats), stream, Everything), id, false)
      ensures forall stream, user, c: Chat :: c.id == id && c.user != user ==>
              c !in Shown(View(chats, stream, VisibleOrOwn(user)))
    {
      hide Forest, Numbered, View, Marked, Shown;
      StepKeepsForest(chats, Step.RetractChat(id));
      forall stream
        ensures View(Show(chats, id, false), stream, Everything) == Marked(View(chats, stream, Everything), id, false) {
        VisibilityInViews(chats, stream, 0, id, false);
      }
      forall stream, user, c: Chat | c.id == id && c.user != user
        ensures c !in Shown(View(Show(chats, id, false), stream, VisibleOrOwn(user)))
      {
        RetractedIsHidden(chats, stream, user, id, c);
      }
      chats := Show(chats, id, false);
    }

    /** Every live message of the stream, once. */
    method GetAllChats(stream: nat) returns (r: seq<Thread>)
      requires Valid()
      ensures r == View(chats, stream, Everything)
      ensures forall c :: multiset(Shown(r))[c] == if c in chats && !c.deleted && c.stream == stream then 1 else 0
    {
      hide View, Shown, Forest, Numbered;
      r := View(chats, stream, Everything);
      forall c ensures multiset(Shown(r))[c] == if c in chats && !c.deleted && c.stream == stream then 1 else 0 {
        CountIsDue(chats, stream, Everything, c);
        AllAreDue(chats, stream, c);
      }
    }

    /** The full view filtered at both levels: every message due to the user, once. */
    method GetVisibleChats(user: nat, stream: nat) returns (r: seq<Thread>)
      requires Valid()
      ensures r == FilterView(View(chats, stream, Everything), VisibleOrOwn(user))
      ensures forall c :: multiset(Shown(r))[c] == if DueTo(chats, stream, VisibleOrOwn(user), c) then 1 else 0
    {
      hide View, FilterView, Shown, Forest, Numbered, DueTo;
      VisibleIsFilteredAll(chats, stream, user);
      r := View(chats, stream, VisibleOrOwn(user));
      forall c ensures multiset(Shown(r))[c] == if DueTo(chats, stream, VisibleOrOwn(user), c) then 1 else 0 {
        CountIsDue(chats, stream, VisibleOrOwn(user), c);
      }
    }
  }

  lemma AllAreDue(chats: seq<Chat>, stream: nat, c: Chat)
    requires Forest(chats)
    ensures DueTo(chats, stream, Everything, c) <==> c in chats && !c.deleted && c.stream == stream
  {
    if c in chats && !c.deleted && c.replyTo.Some? {
      assert HasParent(chats, c);
    }
  }

  lemma EmptyHasNoBytes(s: string)
    ensures ByteLength(s) == 0 <==> s == ""
  {
  }
}
