/** Unpadded Base64 with the standard alphabet (sections 3.2 and 4 of RFC 4648). */
module Base64 {
  import opened Basics

  type Byte = b: int | 0 <= b < 256

  function EncodeSextet(n: nat): (c: char)
    requires n < 64
  {
    if n < 26 then 'A' + n as char
    else if n < 52 then 'a' + (n - 26) as char
    else if n < 62 then '0' + (n - 52) as char
    else if n == 62 then '+' else '/'
  }

  function DecodeSextet(c: char): (r: Option<nat>)
    ensures r.Some? ==> r.value < 64
  {
    if 'A' <= c <= 'Z' then Some(c as int - 'A' as int)
    else if 'a' <= c <= 'z' then Some(c as int - 'a' as int + 26)
    else if '0' <= c <= '9' then Some(c as int - '0' as int + 52)
    else if c == '+' then Some(62)
    else if c == '/' then Some(63)
    else None
  }

  lemma SextetRoundTrip(n: nat)
    requires n < 64
    ensures DecodeSextet(EncodeSextet(n)) == Some(n)
  {
  }

  function Encode(b: seq<Byte>): string {
    if |b| == 0 then ""
    else if |b| == 1 then [EncodeSextet(b[0] / 4), EncodeSextet(b[0] % 4 * 16)]
    else if |b| == 2 then
      [EncodeSextet(b[0] / 4), EncodeSextet(b[0] % 4 * 16 + b[1] / 16), EncodeSextet(b[1] % 16 * 4)]
    else
      [EncodeSextet(b[0] / 4), EncodeSextet(b[0] % 4 * 16 + b[1] / 16),
       EncodeSextet(b[1] % 16 * 4 + b[2] / 64), EncodeSextet(b[2] % 64)] + Encode(b[3..])
  }

  /** The values of the characters, if all are in the alphabet. */
  function Sextets(s: string): (r: Option<seq<nat>>)
    ensures r.Some? ==> |r.value| == |s| && forall i :: 0 <= i < |s| ==> r.value[i] < 64
  {
    if s == [] then Some([])
    else
      match (DecodeSextet(s[0]), Sextets(s[1..]))
      case (Some(n), Some(rest)) => Some([n] + rest)
      case _ => None
  }

  /** Groups of four; a rest of two or three is cut without a look at its spare
      bits, a rest of one is an error. */
  function Bytes(q: seq<nat>): Option<seq<Byte>>
    requires forall i :: 0 <= i < |q| ==> q[i] < 64
  {
    if |q| == 0 then Some([])
    else if |q| == 1 then None
    else
      var b0: Byte := q[0] * 4 + q[1] / 16;
      if |q| == 2 then Some([b0])
      else
        var b1: Byte := q[1] % 16 * 16 + q[2] / 4;
        if |q| == 3 then Some([b0, b1])
        else
          var b2: Byte := q[2] % 4 * 64 + q[3];
          match Bytes(q[4..])
          case None => None
          case Some(rest) => Some([b0, b1, b2] + rest)
  }

  function WithoutLineBreaks(s: string): string {
    if s == [] then []
    else (if s[0] == '\n' || s[0] == '\r' then [] else [s[0]]) + WithoutLineBreaks(s[1..])
  }

  /** `RawStdEncoding.DecodeString`. */
  function Decode(s: string): Option<seq<Byte>> {
    match Sextets(WithoutLineBreaks(s))
    case None => None
    case Some(q) => Bytes(q)
  }

  function Split3(b: seq<Byte>): (q: seq<nat>)
    requires |b| >= 3
    ensures forall i :: 0 <= i < |q| ==> q[i] < 64
  {
    [b[0] / 4, b[0] % 4 * 16 + b[1] / 16, b[1] % 16 * 4 + b[2] / 64, b[2] % 64]
  }

  /** The sextets of an encoding. */
  function SextetsOf(b: seq<Byte>): (q: seq<nat>)
    ensures forall i :: 0 <= i < |q| ==> q[i] < 64
  {
    if |b| == 0 then []
    else if |b| == 1 then [b[0] / 4, b[0] % 4 * 16]
    else if |b| == 2 then [b[0] / 4, b[0] % 4 * 16 + b[1] / 16, b[1] % 16 * 4]
    else Split3(b) + SextetsOf(b[3..])
  }

  lemma {:induction false} EncodeSpells(b: seq<Byte>)
    ensures |Encode(b)| == |SextetsOf(b)|
    ensures forall i :: 0 <= i < |Encode(b)| ==> Encode(b)[i] == EncodeSextet(SextetsOf(b)[i])
  {
    if |b| >= 3 {
      EncodeSpells(b[3..]);
      var head, tail := Split3(b), b[3..];
      forall i | 0 <= i < |Encode(b)| ensures Encode(b)[i] == EncodeSextet(SextetsOf(b)[i]) {
        if i >= 4 {
          assert Encode(b)[i] == Encode(tail)[i - 4] && SextetsOf(b)[i] == SextetsOf(tail)[i - 4];
        }
      }
    }
  }

  lemma {:induction false} SextetsOfSpelled(s: string, q: seq<nat>)
    requires |s| == |q| && forall i :: 0 <= i < |q| ==> q[i] < 64 && s[i] == EncodeSextet(q[i])
    ensures Sextets(s) == Some(q) && WithoutLineBreaks(s) == s
  {
    hide EncodeSextet, DecodeSextet;
    if s != [] {
      SextetRoundTrip(q[0]);
      SextetIsNoLineBreak(q[0]);
      SextetsOfSpelled(s[1..], q[1..]);
      assert q == [q[0]] + q[1..] && s == [s[0]] + s[1..];
    }
  }

  lemma SextetIsNoLineBreak(n: nat)
    requires n < 64
    ensures EncodeSextet(n) != '\n' && EncodeSextet(n) != '\r' && EncodeSextet(n) != '$'
  {
  }

  lemma {:induction false} BytesOfSextets(b: seq<Byte>)
    ensures Bytes(SextetsOf(b)) == Some(b)
  {
    if |b| >= 3 {
      var q := SextetsOf(b);
      BytesOfSextets(b[3..]);
      assert q[..4] == Split3(b) && q[4..] == SextetsOf(b[3..]);
      assert q[0] * 4 + q[1] / 16 == b[0];
      assert q[1] % 16 * 16 + q[2] / 4 == b[1];
      assert q[2] % 4 * 64 + q[3] == b[2];
      assert b == [b[0], b[1], b[2]] + b[3..];
    } else if |b| == 2 {
      assert b == [b[0], b[1]];
    } else if |b| == 1 {
      assert b == [b[0]];
    }
  }

  const ALPHABET := UPPER + LOWER + DIGITS + "+/"

  /** The value of a character is its place in the alphabet of section 4. */
  lemma AlphabetInOrder(n: nat)
    requires n < 64
    ensures |ALPHABET| == 64 && ALPHABET[n] == EncodeSextet(n)
  {
    hide UPPER, LOWER, DIGITS;
    AlphabetSizes();
    if n < 26 {
      UpperAt(n);
    } else if n < 52 {
      LowerAt(n - 26);
    } else if n < 62 {
      DigitAt(n - 52);
    }
  }

  lemma AlphabetSizes()
    ensures |UPPER| == |LOWER| == 26 && |DIGITS| == 10
  {
  }

  lemma UpperAt(n: nat)
    requires n < 26
    ensures |UPPER| == 26 && UPPER[n] == 'A' + n as char
  {
  }

  lemma LowerAt(n: nat)
    requires n < 26
    ensures |LOWER| == 26 && LOWER[n] == 'a' + n as char
  {
  }

  lemma DigitAt(n: nat)
    requires n < 10
    ensures |DIGITS| == 10 && DIGITS[n] == '0' + n as char
  {
  }

  lemma {:induction false} SextetsExist(s: string)
    ensures Sextets(s).Some? <==> forall i :: 0 <= i < |s| ==> DecodeSextet(s[i]).Some?
    ensures Sextets(s).Some? ==> forall i :: 0 <= i < |s| ==> EncodeSextet(Sextets(s).value[i]) == s[i]
  {
    if s != [] {
      SextetsExist(s[1..]);
      assert forall i :: 1 <= i < |s| ==> s[i] == s[1..][i - 1];
      SextetBack(s[0]);
    }
  }

  lemma SextetBack(c: char)
    ensures DecodeSextet(c).Some? ==> EncodeSextet(DecodeSextet(c).value) == c
  {
  }

  /** Groups are read back to the sextets they came from, but for the spare bits of
      the last one where the last group is not full. */
  lemma {:induction false} BytesKeepSextets(q: seq<nat>)
    requires forall i :: 0 <= i < |q| ==> q[i] < 64
    ensures Bytes(q).Some? <==> |q| % 4 != 1
    ensures Bytes(q).Some? ==>
              var back := SextetsOf(Bytes(q).value);
              && |back| == |q| && (forall i :: 0 <= i < |q| - 1 ==> back[i] == q[i])
              && (|q| % 4 == 0 ==> back == q)
  {
    hide Bytes, SextetsOf, Split3, GroupOf;
    if |q| >= 4 {
      var rest := q[4..];
      BytesKeepSextets(rest);
      BytesOfGroup(q);
      if Bytes(q).Some? {
        var b, tail := Bytes(q).value, Bytes(rest).value;
        GroupBack(q, tail);
        SextetsOfGroup(b);
        assert forall i :: 4 <= i < |q| ==> q[i] == rest[i - 4];
        assert q == q[..4] + rest;
      }
    } else {
      ShortGroup(q);
    }
  }

  /** The three bytes of a full group. */
  function GroupOf(q: seq<nat>): (b: seq<Byte>)
    requires |q| >= 4 && forall i :: 0 <= i < |q| ==> q[i] < 64
    ensures |b| == 3
  {
    [q[0] * 4 + q[1] / 16, q[1] % 16 * 16 + q[2] / 4, q[2] % 4 * 64 + q[3]]
  }

  lemma BytesOfGroup(q: seq<nat>)
    requires |q| >= 4 && forall i :: 0 <= i < |q| ==> q[i] < 64
    ensures Bytes(q).Some? <==> Bytes(q[4..]).Some?
    ensures Bytes(q).Some? ==> Bytes(q).value == GroupOf(q) + Bytes(q[4..]).value
  {
  }

  lemma GroupBack(q: seq<nat>, tail: seq<Byte>)
    requires |q| >= 4 && forall i :: 0 <= i < |q| ==> q[i] < 64
    ensures Split3(GroupOf(q) + tail) == q[..4] && (GroupOf(q) + tail)[3..] == tail
  {
    FullGroup(q[0], q[1], q[2], q[3]);
  }

  lemma SextetsOfGroup(b: seq<Byte>)
    requires |b| >= 3
    ensures SextetsOf(b) == Split3(b) + SextetsOf(b[3..])
  {
    hide Split3;
  }

  lemma ShortGroup(q: seq<nat>)
    requires |q| < 4 && forall i :: 0 <= i < |q| ==> q[i] < 64
    ensures Bytes(q).Some? <==> |q| != 1
    ensures Bytes(q).Some? ==>
              var back := SextetsOf(Bytes(q).value);
              && |back| == |q| && (forall i :: 0 <= i < |q| - 1 ==> back[i] == q[i])
              && (|q| == 0 ==> back == q)
  {
    hide Split3;
    if |q| == 2 {
      FullGroup(q[0], q[1], 0, 0);
    } else if |q| == 3 {
      FullGroup(q[0], q[1], q[2], 0);
    }
  }

  lemma FullGroup(a: nat, b: nat, c: nat, d: nat)
    requires a < 64 && b < 64 && c < 64 && d < 64
    ensures var x, y, z := a * 4 + b / 16, b % 16 * 16 + c / 4, c % 4 * 64 + d;
            x / 4 == a && x % 4 * 16 + y / 16 == b && y % 16 * 4 + z / 64 == c && z % 64 == d
  {
  }

  /** Which texts decode, and to what: line breaks aside, those of characters of the
      alphabet whose number is not one more than a multiple of four; and encoding the
      bytes again gives the same text, but for the spare bits of its last character. */
  lemma DecodeExactly(s: string)
    ensures var w := WithoutLineBreaks(s);
            && (Decode(s).Some? <==>
                (forall i :: 0 <= i < |w| ==> DecodeSextet(w[i]).Some?) && |w| % 4 != 1)
            && (Decode(s).Some? ==>
                  var back := Encode(Decode(s).value);
                  && |back| == |w| && (forall i :: 0 <= i < |w| - 1 ==> back[i] == w[i])
                  && (|w| % 4 == 0 ==> back == w))
  {
    hide Sextets, Bytes, Encode, SextetsOf, EncodeSextet, DecodeSextet, WithoutLineBreaks;
    var w := WithoutLineBreaks(s);
    SextetsExist(w);
    if Sextets(w).Some? {
      var q := Sextets(w).value;
      BytesKeepSextets(q);
      if Bytes(q).Some? {
        EncodeSpells(Bytes(q).value);
      }
    }
  }

  /** Line breaks are passed over anywhere in the text. */
  lemma {:induction false} LineBreaksAreIgnored(a: string, b: string)
    ensures Decode(a + "\n" + b) == Decode(a + b) == Decode(a + "\r" + b)
  {
    hide Sextets, Bytes;
    BreakInside(a, "\n", b);
    BreakInside(a, "\r", b);
  }

  lemma {:induction false} BreakInside(a: string, x: string, b: string)
    requires x == "\n" || x == "\r"
    ensures WithoutLineBreaks(a + x + b) == WithoutLineBreaks(a + b)
  {
    if a == [] {
      assert a + x + b == x + b && a + b == b && (x + b)[1..] == b;
    } else {
      BreakInside(a[1..], x, b);
      assert (a + x + b)[1..] == a[1..] + x + b && (a + b)[1..] == a[1..] + b;
    }
  }

  /** The test vectors of section 10 of RFC 4648 without their padding, and one that
      ends the alphabet. */
  lemma TestVectors()
    ensures Encode([]) == "" && Encode([102]) == "Zg" && Encode([102, 111]) == "Zm8"
    ensures Encode([102, 111, 111]) == "Zm9v" && Encode([102, 111, 111, 98]) == "Zm9vYg"
    ensures Encode([102, 111, 111, 98, 97]) == "Zm9vYmE" && Encode([102, 111, 111, 98, 97, 114]) == "Zm9vYmFy"
    ensures Encode([251, 240]) == "+/A"
  {
    assert [102, 111, 111, 98][3..] == [98];
    assert [102, 111, 111, 98, 97][3..] == [98, 97];
    assert [102, 111, 111, 98, 97, 114][3..] == [98, 97, 114];
  }

  /** Decoding undoes encoding, for every length; and an encoding holds no '$'. */
  lemma RoundTrip(b: seq<Byte>)
    ensures Decode(Encode(b)) == Some(b)
    ensures '$' !in Encode(b)
  {
    EncodeSpells(b);
    SextetsOfSpelled(Encode(b), SextetsOf(b));
    BytesOfSextets(b);
    forall i | 0 <= i < |Encode(b)| ensures Encode(b)[i] != '$' {
      SextetIsNoLineBreak(SextetsOf(b)[i]);
    }
  }
}
