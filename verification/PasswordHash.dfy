/**
 Stored passwords (model/user.go): the text of a hash with its parameters, the
 reader that overwrites the global parameters, and runs of password changes and
 comparisons over any users.
 */
module PasswordHash {
  import opened Basics
  import opened Decimal
  import Base64

  type Bytes = seq<Base64.Byte>

  datatype Params = Params(memory: nat, iterations: nat, parallelism: nat, saltLength: nat, keyLength: nat)
  {
    /** What the fields can hold. */
    predicate Fits() {
      memory < 0x1_0000_0000 && iterations < 0x1_0000_0000 && parallelism < 0x100
    }

    /** What the key derivation takes without a panic: it has no key of length 0. */
    predicate Accepted() {
      1 <= iterations && 1 <= parallelism && 1 <= keyLength
    }

    predicate Usable() {
      Fits() && Accepted()
    }
  }

  const DEFAULT_PARAMS := Params(64 * 1024, 3, 2, 16, 32)
  const ARGON2_VERSION: nat := 19
  const MIN_LENGTH := 8

  /** The arguments of the key derivation function. */
  datatype KeyInput = KeyInput(password: string, salt: Bytes, iterations: nat, memory: nat, parallelism: nat,
                               keyLength: nat)

  type KeyFunction = KeyInput -> Bytes

  function KeyOf(p: Params, password: string, salt: Bytes): KeyInput {
    KeyInput(password, salt, p.iterations, p.memory, p.parallelism, p.keyLength)
  }

  // --------------------------------------------------------------- Text

  function ParamsText(p: Params): string {
    "m=" + FormatNat(p.memory) + ",t=" + FormatNat(p.iterations) + ",p=" + FormatNat(p.parallelism)
  }

  /** The stored form of a hash. */
  function Encoded(p: Params, salt: Bytes, hash: Bytes): string {
    "$argon2id$v=" + FormatNat(ARGON2_VERSION) + "$" + ParamsText(p) + "$"
    + Base64.Encode(salt) + "$" + Base64.Encode(hash)
  }

  /** `strings.Split(s, "$")`. */
  function Split(s: string): (parts: seq<string>)
    ensures |parts| > 0
    decreases |s|
  {
    var n := RunLength(s, IsNoDollar);
    if n == |s| then [s] else [s[..n]] + Split(s[n + 1..])
  }

  predicate IsNoDollar(c: char) {
    c != '$'
  }

  // ------------------------------------------------------------ Scanning

  function SkipBlanks(s: string): string {
    if s != [] && (s[0] == ' ' || s[0] == '\t') then SkipBlanks(s[1..]) else s
  }

  /** A literal piece of a scan format, and what follows it. */
  function ScanLiteral(s: string, literal: string): Option<string> {
    if literal <= s then Some(s[|literal|..]) else None
  }

  /** `%d` into an unsigned field that holds numbers below `limit`. */
  function ScanUint(s: string, limit: nat): Option<(nat, string)> {
    var t := SkipBlanks(s);
    var n := RunLength(t, IsDigit);
    if n > 0 && NumeralValue(t[..n]) < limit then Some((NumeralValue(t[..n]), t[n..])) else None
  }

  /** `%d` into the version: a sign is allowed, and a rest is not looked at. */
  function ScanVersion(s: string): Option<int> {
    match ScanLiteral(s, "v=")
    case None => None
    case Some(rest) =>
      var t := SkipBlanks(rest);
      var unsigned := if t != [] && (t[0] == '+' || t[0] == '-') then t[1..] else t;
      var n := RunLength(unsigned, IsDigit);
      if n == 0 || NumeralValue(unsigned[..n]) >= 0x8000_0000_0000_0000 then None
      else Some(if t[0] == '-' then 0 - NumeralValue(unsigned[..n]) else NumeralValue(unsigned[..n]))
  }

  /** `"m=%d,t=%d,p=%d"`: each field is overwritten as soon as it is read. */
  function ScanParams(p: Params, s: string): (Params, bool) {
    match ScanField(s, "m=", 0x1_0000_0000)
    case None => (p, false)
    case Some((m, s1)) =>
      var p1 := p.(memory := m);
      match ScanField(s1, ",t=", 0x1_0000_0000)
      case None => (p1, false)
      case Some((t, s2)) =>
        var p2 := p1.(iterations := t);
        match ScanField(s2, ",p=", 0x100)
        case None => (p2, false)
        case Some((par, _)) => (p2.(parallelism := par), true)
  }

  function ScanField(s: string, literal: string, limit: nat): (r: Option<(nat, string)>)
    ensures r.Some? ==> r.value.0 < limit
  {
    match ScanLiteral(s, literal)
    case None => None
    case Some(rest) => ScanUint(rest, limit)
  }

  // ------------------------------------------------------------- Reading

  datatype Decoded = Parts(salt: Bytes, hash: Bytes) | ErrInvalidHash | ErrIncompatibleVersion | ErrScan | ErrBase64

  /** `decodeHash`: the parts, and the global parameters it leaves behind. */
  function DecodeHash(p: Params, encoded: string): (Params, Decoded) {
    var vals := Split(encoded);
    if |vals| != 6 then (p, ErrInvalidHash)
    else
      var version := ScanVersion(vals[2]);
      if version.None? then (p, ErrScan)
      else if version.value != ARGON2_VERSION then (p, ErrIncompatibleVersion)
      else
        var (p1, ok) := ScanParams(p, vals[3]);
        if !ok then (p1, ErrScan)
        else
          match Base64.Decode(vals[4])
          case None => (p1, ErrBase64)
          case Some(salt) =>
            var p2 := p1.(saltLength := |salt|);
            match Base64.Decode(vals[5])
            case None => (p2, ErrBase64)
            case Some(hash) => (p2.(keyLength := |hash|), Parts(salt, hash))
  }

  // --------------------------------------------------------- The two calls

  datatype SetResult = Stored(hash: string) | ErrTooShort | ErrRandom | SetPanic

  /** `SetPassword`; `salt` is what the random source yields, if anything. */
  function SetResultOf(kdf: KeyFunction, p: Params, password: string, salt: Option<Bytes>): SetResult {
    if |password| < MIN_LENGTH then ErrTooShort
    else if salt.None? then ErrRandom
    else if !p.Accepted() then SetPanic
    else Stored(Encoded(p, salt.value, kdf(KeyOf(p, password, salt.value))))
  }

  datatype CompareResult = Match(same: bool) | CompareError(error: Decoded) | ComparePanic

  /** `ComparePasswordAndHash`: the answer, and the global parameters left behind. */
  function Compare(kdf: KeyFunction, p: Params, stored: string, password: string): (Params, CompareResult) {
    if stored == "" then (p, Match(false))
    else
      var (p', decoded) := DecodeHash(p, stored);
      if !decoded.Parts? then (p', CompareError(decoded))
      else if !p'.Accepted() then (p', ComparePanic)
      else (p', Match(decoded.hash == kdf(KeyOf(p', password, decoded.salt))))
  }

  // ------------------------------------------------------------ Round trip

  lemma SplitOne(a: string, rest: string)
    requires '$' !in a
    ensures Split(a + "$" + rest) == [a] + Split(rest)
    ensures Split(a) == [a]
  {
    var s := a + "$" + rest;
    RunLengthIs(s, IsNoDollar, |a|);
    RunLengthIs(a, IsNoDollar, |a|);
    assert s[..|a|] == a && s[|a| + 1..] == rest && a[..|a|] == a;
  }

  lemma NumeralsHoldNoDollar(n: nat)
    ensures '$' !in FormatNat(n)
  {
    FormatNatRoundTrip(n);
  }

  /** A text of six parts with the stored version and parameters. */
  function TextOf(p: Params, salt: string, hash: string): string {
    var v, q := "v=" + FormatNat(ARGON2_VERSION), ParamsText(p);
    "" + "$" + ("argon2id" + "$" + (v + "$" + (q + "$" + (salt + "$" + hash))))
  }

  lemma PartsOfText(p: Params, salt: string, hash: string)
    requires '$' !in salt && '$' !in hash
    ensures Split(TextOf(p, salt, hash)) ==
            ["", "argon2id", "v=" + FormatNat(ARGON2_VERSION), ParamsText(p), salt, hash]
  {
    hide Split, FormatNat;
    NumeralsHoldNoDollar(ARGON2_VERSION);
    NumeralsHoldNoDollar(p.memory);
    NumeralsHoldNoDollar(p.iterations);
    NumeralsHoldNoDollar(p.parallelism);
    var v, q := "v=" + FormatNat(ARGON2_VERSION), ParamsText(p);
    assert '$' !in v && '$' !in q;
    SplitOne(hash, "");
    SplitOne(salt, hash);
    SplitOne(q, salt + "$" + hash);
    SplitOne(v, q + "$" + (salt + "$" + hash));
    SplitOne("argon2id", v + "$" + (q + "$" + (salt + "$" + hash)));
    SplitOne("", "argon2id" + "$" + (v + "$" + (q + "$" + (salt + "$" + hash))));
  }

  lemma EncodedParts(p: Params, salt: Bytes, hash: Bytes)
    ensures Split(Encoded(p, salt, hash)) ==
            ["", "argon2id", "v=" + FormatNat(ARGON2_VERSION), ParamsText(p), Base64.Encode(salt), Base64.Encode(hash)]
  {
    hide Split, FormatNat, Encoded, ParamsText;
    Base64.RoundTrip(salt);
    Base64.RoundTrip(hash);
    PartsOfText(p, Base64.Encode(salt), Base64.Encode(hash));
    EncodedGrouped(p, salt, hash);
  }

  lemma EncodedGrouped(p: Params, salt: Bytes, hash: Bytes)
    ensures Encoded(p, salt, hash) == TextOf(p, Base64.Encode(salt), Base64.Encode(hash))
  {
    hide FormatNat, ParamsText;
    var n, q, s, h := FormatNat(ARGON2_VERSION), ParamsText(p), Base64.Encode(salt), Base64.Encode(hash);
    assert "$argon2id$v=" == "$" + ("argon2id" + "$" + "v=");
    assert "" + "$" == "$";
    Regroup("$", "argon2id", "v=", n, q, s, h);
  }

  lemma Regroup(d: string, name: string, v: string, n: string, q: string, s: string, h: string)
    ensures (d + (name + d + v)) + n + d + q + d + s + d + h
         == d + (name + d + ((v + n) + d + (q + d + (s + d + h))))
  {
    assert (d + (name + d + v)) + n == d + (name + d + (v + n));
  }

  /** A printed number is scanned up to whatever ends its digits. */
  lemma ScanPrinted(n: nat, rest: string, limit: nat)
    requires n < limit && (rest == [] || !IsDigit(rest[0]))
    ensures ScanUint(FormatNat(n) + rest, limit) == Some((n, rest))
    ensures SkipBlanks(FormatNat(n) + rest) == FormatNat(n) + rest
    ensures RunLength(FormatNat(n) + rest, IsDigit) == |FormatNat(n)|
  {
    var x := FormatNat(n);
    var s := x + rest;
    FormatNatRoundTrip(n);
    assert s[0] == x[0];
    RunLengthIs(s, IsDigit, |x|);
    assert s[..|x|] == x && s[|x|..] == rest;
  }

  lemma ScanFieldPrinted(literal: string, n: nat, rest: string, limit: nat)
    requires n < limit && (rest == [] || !IsDigit(rest[0]))
    ensures ScanField(literal + (FormatNat(n) + rest), literal, limit) == Some((n, rest))
  {
    ScanPrinted(n, rest, limit);
    var s := literal + (FormatNat(n) + rest);
    assert s[..|literal|] == literal && s[|literal|..] == FormatNat(n) + rest;
  }

  lemma ScanPrintedParams(q: Params, p: Params)
    requires p.Fits()
    ensures ScanParams(q, ParamsText(p)) ==
            (q.(memory := p.memory, iterations := p.iterations, parallelism := p.parallelism), true)
  {
    hide ScanField, FormatNat;
    var m, t, r := FormatNat(p.memory), FormatNat(p.iterations), FormatNat(p.parallelism);
    var tail := ",p=" + (r + "");
    var middle := ",t=" + (t + tail);
    assert ParamsText(p) == "m=" + (m + middle);
    ScanFieldPrinted("m=", p.memory, middle, 0x1_0000_0000);
    ScanFieldPrinted(",t=", p.iterations, tail, 0x1_0000_0000);
    ScanFieldPrinted(",p=", p.parallelism, "", 0x100);
  }

  lemma ScanPrintedVersion()
    ensures ScanVersion("v=" + FormatNat(ARGON2_VERSION)) == Some(ARGON2_VERSION)
  {
    var x := FormatNat(ARGON2_VERSION);
    FormatNatRoundTrip(ARGON2_VERSION);
    assert x + "" == x;
    ScanPrinted(ARGON2_VERSION, "", 100);
    assert ("v=" + x)[2..] == x && ("v=" + x)[..2] == "v=";
    assert IsDigit(x[0]) && x[..|x|] == x;
  }

  /** Reading undoes printing, and sets all five global parameters, whatever they
      were: three from the text, two from the lengths of the parts. */
  lemma DecodeUndoesEncode(q: Params, p: Params, salt: Bytes, hash: Bytes)
    requires p.Fits()
    ensures DecodeHash(q, Encoded(p, salt, hash)) ==
            (Params(p.memory, p.iterations, p.parallelism, |salt|, |hash|), Parts(salt, hash))
  {
    hide Split, Encoded, ScanParams, ScanVersion, ParamsText, FormatNat;
    EncodedParts(p, salt, hash);
    ScanPrintedVersion();
    ScanPrintedParams(q, p);
    Base64.RoundTrip(salt);
    Base64.RoundTrip(hash);
  }

  /** A text that breaks off leaves the fields read so far overwritten. */
  lemma ScanOverwritesAsItReads(q: Params, m: nat, t: nat, rest: string)
    requires m < 0x1_0000_0000 && t < 0x1_0000_0000 && (rest == [] || !IsDigit(rest[0]))
    ensures !(",t=" <= rest) ==> ScanParams(q, "m=" + (FormatNat(m) + rest)) == (q.(memory := m), false)
    ensures !(",p=" <= rest) ==>
              ScanParams(q, "m=" + (FormatNat(m) + (",t=" + (FormatNat(t) + rest))))
              == (q.(memory := m, iterations := t), false)
  {
    hide FormatNat, ScanUint;
    ScanFieldPrinted("m=", m, rest, 0x1_0000_0000);
    ScanFieldPrinted("m=", m, ",t=" + (FormatNat(t) + rest), 0x1_0000_0000);
    ScanFieldPrinted(",t=", t, rest, 0x1_0000_0000);
  }

  /** Parts that are no Base64: three parameters are overwritten before the salt is
      read, and the salt length before the hash is. */
  lemma BrokenPartsOverwrite(q: Params, p: Params, salt: string, hash: string)
    requires p.Fits() && '$' !in salt && '$' !in hash
    ensures var three := q.(memory := p.memory, iterations := p.iterations, parallelism := p.parallelism);
            && (Base64.Decode(salt).None? ==> DecodeHash(q, TextOf(p, salt, hash)) == (three, ErrBase64))
            && (Base64.Decode(salt).Some? && Base64.Decode(hash).None? ==>
                  DecodeHash(q, TextOf(p, salt, hash))
                  == (three.(saltLength := |Base64.Decode(salt).value|), ErrBase64))
  {
    hide Split, ScanParams, ScanVersion, ParamsText, FormatNat, TextOf;
    PartsOfText(p, salt, hash);
    ScanPrintedVersion();
    ScanPrintedParams(q, p);
  }

  predicate AreBlanks(s: string) {
    forall i :: 0 <= i < |s| ==> s[i] == ' ' || s[i] == '\t'
  }

  lemma {:induction false} BlanksSkipped(blanks: string, s: string)
    requires AreBlanks(blanks)
    ensures SkipBlanks(blanks + s) == SkipBlanks(s)
  {
    if blanks == [] {
      assert blanks + s == s;
    } else {
      BlanksSkipped(blanks[1..], s);
      assert (blanks + s)[1..] == blanks[1..] + s;
    }
  }

  /** What the scanner lets pass: blanks before a number, a sign before the version,
      and anything behind the version. */
  lemma ScanTolerates(blanks: string, n: nat, rest: string, limit: nat)
    requires AreBlanks(blanks) && n < limit && (rest == [] || !IsDigit(rest[0]))
    ensures ScanUint(blanks + (FormatNat(n) + rest), limit) == Some((n, rest))
    ensures n < 0x8000_0000_0000_0000 ==>
              && ScanVersion("v=" + (blanks + (FormatNat(n) + rest))) == Some(n)
              && ScanVersion("v=" + (blanks + ("+" + (FormatNat(n) + rest)))) == Some(n)
              && ScanVersion("v=" + (blanks + ("-" + (FormatNat(n) + rest)))) == Some(0 - n)
  {
    hide FormatNat, SkipBlanks, RunLength;
    var x := FormatNat(n) + rest;
    FormatNatRoundTrip(n);
    BlanksSkipped(blanks, x);
    ScanPrinted(n, rest, limit);
    assert x[0] == FormatNat(n)[0] && x[..|FormatNat(n)|] == FormatNat(n);
    VersionText(blanks + x);
    VersionText(blanks + ("+" + x));
    VersionText(blanks + ("-" + x));
    BlanksSkipped(blanks, "+" + x);
    BlanksSkipped(blanks, "-" + x);
    NoBlankAhead("+" + x);
    NoBlankAhead("-" + x);
    assert ("+" + x)[1..] == x && ("-" + x)[1..] == x;
  }

  lemma VersionText(s: string)
    ensures ScanLiteral("v=" + s, "v=") == Some(s)
  {
    assert ("v=" + s)[2..] == s;
  }

  lemma NoBlankAhead(s: string)
    requires s != [] && s[0] != ' ' && s[0] != '\t'
    ensures SkipBlanks(s) == s
  {
  }

  // ------------------------------------------------- The shared parameters

  /** A comparison depends on the stored text and the password only: whatever the
      global parameters are before, the answer is the same, also for texts that
      cannot be read; and if the text can be read, the parameters left behind are
      the same too. */
  lemma CompareIgnoresGlobals(kdf: KeyFunction, p: Params, q: Params, stored: string, password: string)
    ensures Compare(kdf, p, stored, password).1 == Compare(kdf, q, stored, password).1
    ensures DecodeHash(p, stored).1.Parts? ==> DecodeHash(p, stored).0 == DecodeHash(q, stored).0
  {
    hide DecodeHash;
    DecodeIgnoresGlobals(p, q, stored);
  }

  lemma DecodeIgnoresGlobals(p: Params, q: Params, stored: string)
    ensures DecodeHash(p, stored).1 == DecodeHash(q, stored).1
    ensures DecodeHash(p, stored).1.Parts? ==> DecodeHash(p, stored).0 == DecodeHash(q, stored).0
  {
    hide Split, ScanVersion, ScanParams;
    var vals := Split(stored);
    if |vals| == 6 {
      ScanIgnoresGlobals(p, q, vals[3]);
    }
  }

  lemma ScanIgnoresGlobals(p: Params, q: Params, s: string)
    ensures ScanParams(p, s).1 == ScanParams(q, s).1
    ensures ScanParams(p, s).1 ==>
              ScanParams(p, s).0.(saltLength := 0, keyLength := 0)
              == ScanParams(q, s).0.(saltLength := 0, keyLength := 0)
  {
    hide ScanField;
  }

  ghost predicate KeyLengthKept(kdf: KeyFunction) {
    forall x: KeyInput :: |kdf(x)| == x.keyLength
  }

  /** When setting a password works: a password of 8 bytes or more, a salt from the
      random source, and parameters that the key derivation takes. */
  lemma SetExactly(kdf: KeyFunction, p: Params, password: string, salt: Option<Bytes>)
    ensures var r := SetResultOf(kdf, p, password, salt);
            && (r == ErrTooShort <==> |password| < 8)
            && (r == ErrRandom <==> |password| >= 8 && salt.None?)
            && (r == SetPanic <==>
                |password| >= 8 && salt.Some? && (p.iterations == 0 || p.parallelism == 0 || p.keyLength == 0))
  {
  }

  /** What a comparison answers for texts that hold no readable hash: no match for a
      user without a password, and an error for a text of other than six parts or
      with another version; the parameters stay in each of these cases. */
  lemma UnreadableExactly(kdf: KeyFunction, p: Params, stored: string, password: string)
    ensures stored == "" ==> Compare(kdf, p, stored, password) == (p, Match(false))
    ensures stored != "" && |Split(stored)| != 6 ==>
              Compare(kdf, p, stored, password) == (p, CompareError(ErrInvalidHash))
    ensures stored != "" && |Split(stored)| == 6 && ScanVersion(Split(stored)[2]).Some?
            && ScanVersion(Split(stored)[2]).value != 19 ==>
              Compare(kdf, p, stored, password) == (p, CompareError(ErrIncompatibleVersion))
  {
    hide Split, ScanVersion, ScanParams;
  }

  /** What was set is stored with its salt and the key derived with the parameters
      then in force; it compares equal, and only what derives the same key does. */
  lemma SetThenCompare(kdf: KeyFunction, p: Params, q: Params, password: string, salt: Bytes, other: string)
    requires p.Usable() && |salt| == p.saltLength && KeyLengthKept(kdf)
    requires |password| >= 8
    ensures var outcome := SetResultOf(kdf, p, password, Some(salt));
            var key := (word: string) =>
              kdf(KeyInput(word, salt, p.iterations, p.memory, p.parallelism, p.keyLength));
            && outcome.Stored?
            && DecodeHash(q, outcome.hash) == (p, Parts(salt, key(password)))
            && Compare(kdf, q, outcome.hash, password) == (p, Match(true))
            && (Compare(kdf, q, outcome.hash, other).1 == Match(true) <==> key(other) == key(password))
  {
    hide DecodeHash, Encoded;
    var hash := kdf(KeyOf(p, password, salt));
    DecodeUndoesEncode(q, p, salt, hash);
    EncodedIsNotEmpty(p, salt, hash);
  }

  lemma EncodedIsNotEmpty(p: Params, salt: Bytes, hash: Bytes)
    ensures Encoded(p, salt, hash) != ""
  {
    hide FormatNat, ParamsText;
    assert |Encoded(p, salt, hash)| >= |"$argon2id$v="|;
  }

  // ---------------------------------------------------------------- Runs

  datatype Step =
    | SetPassword(user: nat, password: string, salt: Option<Bytes>)
    | ComparePassword(user: nat, password: string)

  datatype State = State(globals: Params, stored: map<nat, string>)

  function StoredOf(s: State, user: nat): string {
    if user in s.stored then s.stored[user] else ""
  }

  /** One call of any user. The random source fills as many bytes as it is asked for. */
  function Next(kdf: KeyFunction, s: State, step: Step): State {
    match step
    case SetPassword(user, password, salt) =>
      var r := SetResultOf(kdf, s.globals, password, salt);
      if r.Stored? then s.(stored := s.stored[user := r.hash]) else s
    case ComparePassword(user, password) =>
      s.(globals := Compare(kdf, s.globals, StoredOf(s, user), password).0)
  }

  function Run(kdf: KeyFunction, s: State, steps: seq<Step>): State {
    if steps == [] then s else Next(kdf, Run(kdf, s, steps[..|steps| - 1]), steps[|steps| - 1])
  }

  /** Salts come in the length asked for. */
  ghost predicate SaltsFit(kdf: KeyFunction, s: State, steps: seq<Step>) {
    forall k :: 0 <= k < |steps| && steps[k].SetPassword? && steps[k].salt.Some? ==>
                  |steps[k].salt.value| == Run(kdf, s, steps[..k]).globals.saltLength
  }

  /** A stored text that `SetPassword` can have written, or none. */
  ghost predicate Sound(stored: string) {
    stored == "" ||
    exists p: Params, salt: Bytes, hash: Bytes :: p.Usable() && |hash| >= 1 && stored == Encoded(p, salt, hash)
  }

  ghost predicate SoundState(s: State) {
    s.globals.Usable() && forall u :: u in s.stored ==> Sound(s.stored[u])
  }

  /** The call ends in a panic of the key derivation. */
  predicate Panics(kdf: KeyFunction, s: State, step: Step) {
    match step
    case SetPassword(_, password, salt) => SetResultOf(kdf, s.globals, password, salt) == SetPanic
    case ComparePassword(user, password) => Compare(kdf, s.globals, StoredOf(s, user), password).1 == ComparePanic
  }

  /** A comparison that could read the stored text. */
  predicate Reads(kdf: KeyFunction, s: State, step: Step) {
    step.ComparePassword? ==> Compare(kdf, s.globals, StoredOf(s, step.user), step.password).1.Match?
  }

  lemma StepKeepsSound(kdf: KeyFunction, s: State, step: Step)
    requires SoundState(s) && KeyLengthKept(kdf)
    ensures SoundState(Next(kdf, s, step))
    ensures !Panics(kdf, s, step) && Reads(kdf, s, step)
  {
    hide DecodeHash, Encoded;
    if step.ComparePassword? && StoredOf(s, step.user) != "" {
      var p: Params, salt: Bytes, hash: Bytes :|
        p.Usable() && |hash| >= 1 && StoredOf(s, step.user) == Encoded(p, salt, hash);
      DecodeUndoesEncode(s.globals, p, salt, hash);
    }
  }

  /** From texts the program wrote, no step of any run panics or fails to read,
      and the parameters stay usable. */
  lemma {:induction false} RunKeepsSound(kdf: KeyFunction, s: State, steps: seq<Step>)
    requires SoundState(s) && KeyLengthKept(kdf)
    ensures SoundState(Run(kdf, s, steps))
    ensures forall k :: 0 <= k < |steps| ==>
                          var now := Run(kdf, s, steps[..k]);
                          !Panics(kdf, now, steps[k]) && Reads(kdf, now, steps[k])
    decreases |steps|
  {
    hide SoundState, Next, Panics, Reads, KeyLengthKept;
    if steps != [] {
      var n := |steps| - 1;
      var before := steps[..n];
      RunKeepsSound(kdf, s, before);
      StepKeepsSound(kdf, Run(kdf, s, before), steps[n]);
      forall k | 0 <= k <= n
        ensures var now := Run(kdf, s, steps[..k]);
                !Panics(kdf, now, steps[k]) && Reads(kdf, now, steps[k])
      {
        assert before[..n] == before;
        if k < n {
          assert before[..k] == steps[..k] && before[k] == steps[k];
        }
      }
    }
  }

  /** No later call of the run sets this user's password. */
  predicate Untouched(steps: seq<Step>, from: nat, user: nat) {
    forall k :: from <= k < |steps| ==> !(steps[k].SetPassword? && steps[k].user == user)
  }

  lemma {:induction false} UntouchedKeepsStored(kdf: KeyFunction, s: State, steps: seq<Step>, from: nat, user: nat)
    requires from <= |steps| && Untouched(steps, from, user)
    ensures StoredOf(Run(kdf, s, steps), user) == StoredOf(Run(kdf, s, steps[..from]), user)
    decreases |steps|
  {
    hide SetResultOf, Compare;
    if from == |steps| {
      assert steps[..from] == steps;
    } else {
      var n := |steps| - 1;
      assert steps[..n][..from] == steps[..from];
      UntouchedKeepsStored(kdf, s, steps[..n], from, user);
    }
  }

  /** Main result: in any run over any users, whatever other calls did to the
      global parameters in between, the password a user last set compares equal,
      with the key parameters in force when it was set. */
  lemma LastPasswordCompares(kdf: KeyFunction, s: State, steps: seq<Step>, k: nat)
    requires SoundState(s) && KeyLengthKept(kdf) && SaltsFit(kdf, s, steps)
    requires k < |steps| && steps[k].SetPassword? && |steps[k].password| >= 8 && steps[k].salt.Some?
    requires Untouched(steps, k + 1, steps[k].user)
    ensures var now := Run(kdf, s, steps);
            Compare(kdf, now.globals, StoredOf(now, steps[k].user), steps[k].password)
            == (Run(kdf, s, steps[..k]).globals, Match(true))
  {
    hide Compare, SetResultOf;
    var before, now := Run(kdf, s, steps[..k]), Run(kdf, s, steps);
    RunKeepsSound(kdf, s, steps[..k]);
    UntouchedKeepsStored(kdf, s, steps, k + 1, steps[k].user);
    assert steps[..k + 1][..k] == steps[..k];
    SetThenCompare(kdf, before.globals, now.globals, steps[k].password, steps[k].salt.value, "");
  }

  // ------------------------------------------- Texts from elsewhere

  /** Reading the text leaves parameters that the key derivation takes. */
  predicate Harmless(text: string) {
    text == "" || DecodeHash(DEFAULT_PARAMS, text).0.Usable()
  }

  /** What reading leaves usable does not depend on the parameters before it. */
  lemma ReadingKeepsUsable(p: Params, text: string)
    requires p.Usable()
    ensures DecodeHash(p, text).0.Usable() <==> DecodeHash(DEFAULT_PARAMS, text).0.Usable()
  {
    hide Split, ScanField, ScanVersion;
  }

  ghost predicate HarmlessState(s: State) {
    s.globals.Usable() && forall u :: u in s.stored ==> Harmless(s.stored[u])
  }

  /** Which texts of the stored form are harmless: those with iterations, with
      parallelism, and with a hash. */
  lemma EncodedIsHarmless(p: Params, salt: Bytes, hash: Bytes)
    requires p.Fits()
    ensures Harmless(Encoded(p, salt, hash)) <==> p.iterations >= 1 && p.parallelism >= 1 && |hash| >= 1
  {
    hide DecodeHash, Encoded;
    EncodedIsNotEmpty(p, salt, hash);
    DecodeUndoesEncode(DEFAULT_PARAMS, p, salt, hash);
  }

  lemma StepKeepsHarmless(kdf: KeyFunction, s: State, step: Step)
    requires HarmlessState(s) && KeyLengthKept(kdf)
    ensures HarmlessState(Next(kdf, s, step)) && !Panics(kdf, s, step)
  {
    hide DecodeHash, Encoded, Harmless;
    match step
    case SetPassword(_, password, salt) =>
      if salt.Some? {
        EncodedIsHarmless(s.globals, salt.value, kdf(KeyOf(s.globals, password, salt.value)));
      }
    case ComparePassword(user, _) =>
      if StoredOf(s, user) != "" {
        HarmlessReadKeepsUsable(s.globals, StoredOf(s, user));
      }
  }

  lemma HarmlessReadKeepsUsable(p: Params, text: string)
    requires p.Usable() && text != "" && Harmless(text)
    ensures DecodeHash(p, text).0.Usable()
  {
    hide DecodeHash;
    ReadingKeepsUsable(p, text);
  }

  lemma {:induction false} RunKeepsHarmless(kdf: KeyFunction, s: State, steps: seq<Step>)
    requires HarmlessState(s) && KeyLengthKept(kdf)
    ensures HarmlessState(Run(kdf, s, steps))
    decreases |steps|
  {
    hide HarmlessState, Next, KeyLengthKept;
    if steps != [] {
      RunKeepsHarmless(kdf, s, steps[..|steps| - 1]);
      StepKeepsHarmless(kdf, Run(kdf, s, steps[..|steps| - 1]), steps[|steps| - 1]);
    }
  }

  /** No step after any run of calls panics. */
  ghost predicate NeverPanics(kdf: KeyFunction, s: State) {
    forall steps, step :: !Panics(kdf, Run(kdf, s, steps), step)
  }

  /** Main result for stored texts of any origin: from usable parameters no run
      panics if and only if reading none of them leaves iterations, parallelism or
      the key length at zero, the guards of the key derivation. */
  lemma NeverPanicsExactly(kdf: KeyFunction, s: State)
    requires s.globals.Usable() && KeyLengthKept(kdf)
    ensures NeverPanics(kdf, s) <==> forall u :: u in s.stored ==> Harmless(s.stored[u])
  {
    hide Panics, Harmless, Run, KeyLengthKept;
    if forall u :: u in s.stored ==> Harmless(s.stored[u]) {
      forall steps, step ensures !Panics(kdf, Run(kdf, s, steps), step) {
        RunKeepsHarmless(kdf, s, steps);
        StepKeepsHarmless(kdf, Run(kdf, s, steps), step);
      }
    } else {
      var u :| u in s.stored && !Harmless(s.stored[u]);
      HarmfulTextPanics(kdf, s, u);
    }
  }

  /** One comparison with such a text panics, or the next password set does. */
  lemma HarmfulTextPanics(kdf: KeyFunction, s: State, u: nat)
    requires s.globals.Usable() && u in s.stored && !Harmless(s.stored[u])
    ensures !NeverPanics(kdf, s)
  {
    hide DecodeHash, Encoded;
    ReadingKeepsUsable(s.globals, s.stored[u]);
    var compare := ComparePassword(u, "");
    var after := Next(kdf, s, compare);
    assert [compare][..0] == [];
    assert Run(kdf, s, [compare]) == after;
    BoundsStay(s.globals, s.stored[u]);
    var set0 := SetPassword(u, "12345678", Some(seq(after.globals.saltLength, _ => 0)));
    assert Panics(kdf, after, set0);
    assert !(!Panics(kdf, Run(kdf, s, [compare]), set0));
  }

  /** Reading keeps the fields within their types; only zero can go wrong. */
  lemma BoundsStay(p: Params, text: string)
    requires p.Usable()
    ensures var q := DecodeHash(p, text).0; q.Usable() <==> q.Accepted()
  {
    hide Split, ScanField, ScanVersion;
  }

  /** A text whose reading leaves zero iterations. */
  lemma ZeroIterationsAreHarmful()
    ensures !Harmless("$argon2id$v=19$m=1,t=0,p=1$$AA")
  {
    hide Harmless, Encoded;
    SmallText(0, [0]);
    assert SmallPrefix(0) + "AA" == "$argon2id$v=19$m=1,t=0,p=1$$AA" by { ZeroPrefix(); }
    EncodedIsHarmless(Params(1, 0, 1, 0, 0), [], [0]);
  }

  /** A text with no hash, whose reading leaves key length zero. */
  lemma EmptyHashIsHarmful()
    ensures !Harmless("$argon2id$v=19$m=1,t=1,p=1$$")
  {
    hide Harmless, Encoded;
    SmallText(1, []);
    assert SmallPrefix(1) + "" == "$argon2id$v=19$m=1,t=1,p=1$$" by { OnePrefix(); }
    EncodedIsHarmless(Params(1, 1, 1, 0, 0), [], []);
  }

  function SmallPrefix(t: nat): string
    requires t < 10
  {
    "$argon2id$v=19$m=1,t=" + [DigitChar(t)] + ",p=1$$"
  }

  lemma ZeroPrefix()
    ensures SmallPrefix(0) == "$argon2id$v=19$m=1,t=0,p=1$$"
  {
    assert [DigitChar(0)] == "0";
  }

  lemma OnePrefix()
    ensures SmallPrefix(1) == "$argon2id$v=19$m=1,t=1,p=1$$"
  {
    assert [DigitChar(1)] == "1";
  }

  /** The stored form with small parameters, no salt, and the hash empty or one zero byte. */
  lemma SmallText(t: nat, hash: Bytes)
    requires t < 10 && (hash == [] || hash == [0])
    ensures Encoded(Params(1, t, 1, 0, 0), [], hash) == SmallPrefix(t) + (if hash == [] then "" else "AA")
  {
    hide Base64.Encode, FormatNat, ParamsText;
    SmallBase64();
    SmallNumbers();
    SmallParams(t);
    var rest := if hash == [] then "" else "AA";
    SmallVersion();
    SmallJoin("$argon2id$v=19$", "m=1,t=", [DigitChar(t)], ",p=1", "$", rest);
    SmallOpening();
  }

  lemma SmallNumbers()
    ensures FormatNat(ARGON2_VERSION) == "19" && FormatNat(1) == "1"
  {
    assert FormatNat(19) == FormatNat(1) + ['9'];
  }

  lemma SmallParams(t: nat)
    requires t < 10
    ensures ParamsText(Params(1, t, 1, 0, 0)) == "m=1,t=" + [DigitChar(t)] + ",p=1"
  {
    assert FormatNat(1) == "1" && FormatNat(t) == [DigitChar(t)];
  }

  lemma SmallVersion()
    ensures "$argon2id$v=" + "19" + "$" == "$argon2id$v=19$"
  {
  }

  lemma SmallOpening()
    ensures "$argon2id$v=19$" + "m=1,t=" == "$argon2id$v=19$m=1,t=" && ",p=1" + "$" + "$" == ",p=1$$"
  {
  }

  lemma SmallJoin(a: string, m: string, t: string, p: string, d: string, rest: string)
    ensures a + (m + t + p) + d + "" + d + rest == (a + m) + t + (p + d + d) + rest
  {
  }

  lemma SmallBase64()
    ensures Base64.Encode([]) == "" && Base64.Encode([0]) == "AA"
  {
  }

  // ------------------------------------------------------------ The calls

  class User {
    var password: string

    constructor ()
      ensures password == ""
    {
      password := "";
    }
  }

  /** The package with its global `p`. */
  class Argon {
    var p: Params

    constructor ()
      ensures p == Params(65536, 3, 2, 16, 32) && p.Usable()
    {
      p := DEFAULT_PARAMS;
    }

    method SetPassword(kdf: KeyFunction, u: User, password: string, salt: Option<Bytes>) returns (r: SetResult)
      modifies u
      ensures r == SetResultOf(kdf, p, password, salt)
      ensures u.password == if r.Stored? then r.hash else old(u.password)
    {
      if |password| < MIN_LENGTH {
        return ErrTooShort;
      }
      if salt.None? {
        return ErrRandom;
      }
      if !p.Accepted() {
        return SetPanic;
      }
      var hash := kdf(KeyInput(password, salt.value, p.iterations, p.memory, p.parallelism, p.keyLength));
      u.password := Encoded(p, salt.value, hash);
      r := Stored(u.password);
    }

    /** `decodeHash` with its writes to the global fields. */
    method DecodeInPlace(encoded: string) returns (r: Decoded)
      modifies this
      ensures (p, r) == DecodeHash(old(p), encoded)
    {
      var vals := Split(encoded);
      if |vals| != 6 {
        return ErrInvalidHash;
      }
      var version := ScanVersion(vals[2]);
      if version.None? {
        return ErrScan;
      }
      if version.value != ARGON2_VERSION {
        return ErrIncompatibleVersion;
      }
      var ok;
      p, ok := ScanParams(p, vals[3]).0, ScanParams(p, vals[3]).1;
      if !ok {
        return ErrScan;
      }
      var salt := Base64.Decode(vals[4]);
      if salt.None? {
        return ErrBase64;
      }
      p := p.(saltLength := |salt.value|);
      var hash := Base64.Decode(vals[5]);
      if hash.None? {
        return ErrBase64;
      }
      p := p.(keyLength := |hash.value|);
      r := Parts(salt.value, hash.value);
    }

    /** The comparison leaves the user alone and overwrites the globals; its answer
        is the one any globals would give. */
    method ComparePasswordAndHash(kdf: KeyFunction, u: User, password: string) returns (r: CompareResult)
      modifies this
      ensures (p, r) == Compare(kdf, old(p), u.password, password)
      ensures forall q :: r == Compare(kdf, q, u.password, password).1
    {
      forall q ensures Compare(kdf, p, u.password, password).1 == Compare(kdf, q, u.password, password).1 {
        CompareIgnoresGlobals(kdf, p, q, u.password, password);
      }
      if u.password == "" {
        return Match(false);
      }
      var decoded := DecodeInPlace(u.password);
      if !decoded.Parts? {
        return CompareError(decoded);
      }
      if !p.Accepted() {
        return ComparePanic;
      }
      var otherHash := kdf(KeyInput(password, decoded.salt, p.iterations, p.memory, p.parallelism, p.keyLength));
      r := Match(decoded.hash == otherHash);
    }
  }
}
