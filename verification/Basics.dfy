/** Helpers shared by the models: options and decimal text. */
module Basics {

  const UPPER := "ABCDEFGHIJKLMNOPQRSTUVWXYZ"
  const LOWER := "abcdefghijklmnopqrstuvwxyz"
  const DIGITS := "0123456789"

  datatype Option<+T> = None | Some(value: T)

  /** Keeps the elements that satisfy the predicate, in order. */
  function Filter<T(!new)>(s: seq<T>, keep: T -> bool): (r: seq<T>)
    ensures forall x :: x in r <==> x in s && keep(x)
  {
    if s == [] then []
    else
      var last := s[|s| - 1];
      Filter(s[..|s| - 1], keep) + (if keep(last) then [last] else [])
  }

  lemma FilterOfMore<T(!new)>(s: seq<T>, keep: T -> bool)
    requires s != []
    ensures var n := |s| - 1;
            Filter(s, keep) == if keep(s[n]) then Filter(s[..n], keep) + [s[n]] else Filter(s[..n], keep)
  {
  }

  lemma {:induction false} FilterNone<T(!new)>(s: seq<T>, keep: T -> bool)
    requires forall x :: x in s ==> !keep(x)
    ensures Filter(s, keep) == []
  {
    if s != [] {
      FilterNone(s[..|s| - 1], keep);
    }
  }

  lemma {:induction false} FilterAll<T(!new)>(s: seq<T>, keep: T -> bool)
    requires forall x :: x in s ==> keep(x)
    ensures Filter(s, keep) == s
  {
    hide Filter;
    if s == [] {
      FilterNone(s, keep);
    } else {
      FilterOfMore(s, keep);
      FilterAll(s[..|s| - 1], keep);
    }
  }

  /** Length of the longest prefix of characters of a kind. */
  function RunLength(s: string, kind: char -> bool): (n: nat)
    ensures n <= |s|
    ensures forall i :: 0 <= i < n ==> kind(s[i])
    ensures n < |s| ==> !kind(s[n])
  {
    if s != [] && kind(s[0]) then 1 + RunLength(s[1..], kind) else 0
  }

  lemma RunLengthIs(s: string, kind: char -> bool, n: nat)
    requires n <= |s| && (forall i :: 0 <= i < n ==> kind(s[i])) && (n < |s| ==> !kind(s[n]))
    ensures RunLength(s, kind) == n
  {
    hide RunLength;
  }

  /** Joins pieces with a separator, as `strings.Join` does. */
  function Join(pieces: seq<string>, sep: string): string {
    if |pieces| == 0 then ""
    else if |pieces| == 1 then pieces[0]
    else pieces[0] + sep + Join(pieces[1..], sep)
  }
}

/** Decimal numerals, as printed by `%d` and `strconv.FormatUint`. */
module Decimal {

  predicate IsDigit(c: char) {
    '0' <= c <= '9'
  }

  predicate IsNumeral(s: string) {
    |s| > 0 && forall i :: 0 <= i < |s| ==> IsDigit(s[i])
  }

  function DigitChar(d: nat): (c: char)
    requires d < 10
    ensures IsDigit(c) && DigitValue(c) == d
  {
    '0' + d as char
  }

  function DigitValue(c: char): nat
    requires IsDigit(c)
  {
    c as int - '0' as int
  }

  function FormatNat(n: nat): string {
    if n < 10 then [DigitChar(n)] else FormatNat(n / 10) + [DigitChar(n % 10)]
  }

  function FormatInt(n: int): string {
    if n < 0 then "-" + FormatNat(-n) else FormatNat(n)
  }

  function NumeralValue(s: string): nat
    requires IsNumeral(s)
  {
    var low := DigitValue(s[|s| - 1]);
    if |s| == 1 then low else 10 * NumeralValue(s[..|s| - 1]) + low
  }

  /** A printed numeral reads back as the number it was printed from, and has no
      leading zero. */
  lemma {:induction false} FormatNatRoundTrip(n: nat)
    ensures IsNumeral(FormatNat(n)) && NumeralValue(FormatNat(n)) == n
    ensures FormatNat(n)[0] == '0' <==> n == 0
  {
    if n >= 10 {
      FormatNatRoundTrip(n / 10);
      var s := FormatNat(n);
      assert s[..|s| - 1] == FormatNat(n / 10);
    }
  }
}
