/** The few Python string built-ins the engine relies on: `str()` and `int()` of
    decimal integers, `sep.join(parts)` and `s.split(sep)` for a one-character
    separator. Only ASCII digits are modelled. */
module Text {

  predicate IsDigit(ch: char) { '0' <= ch <= '9' }

  predicate AllDigits(s: string) { forall i :: 0 <= i < |s| ==> IsDigit(s[i]) }

  function DigitChar(n: nat): (ch: char)
    requires n < 10
    ensures IsDigit(ch)
  {
    (('0' as int) + n) as char
  }

  function DigitValue(ch: char): (n: nat)
    requires IsDigit(ch)
    ensures n < 10 && DigitChar(n) == ch
  {
    (ch as int) - ('0' as int)
  }

  /** `str(n)` for `n >= 0`: no leading zeros, `"0"` for zero. */
  function NatToString(n: nat): (s: string)
    ensures 1 <= |s| && AllDigits(s)
    ensures |s| > 1 ==> s[0] != '0'
    decreases n
  {
    if n < 10 then [DigitChar(n)] else NatToString(n / 10) + [DigitChar(n % 10)]
  }

  /** `str(n)` for any integer: a minus sign before the digits of `|n|`. */
  function IntToString(n: int): string {
    if n < 0 then "-" + NatToString(-n) else NatToString(n)
  }

  /** The value `int(s)` gives to a string of decimal digits. */
  function DigitsValue(s: string): nat
    requires AllDigits(s)
  {
    if s == [] then 0 else DigitsValue(s[..|s| - 1]) * 10 + DigitValue(s[|s| - 1])
  }

  lemma {:induction false} NatToStringRoundTrip(n: nat)
    ensures DigitsValue(NatToString(n)) == n
    decreases n
  {
    if n >= 10 {
      var s := NatToString(n);
      assert s[..|s| - 1] == NatToString(n / 10);
      NatToStringRoundTrip(n / 10);
    }
  }

  /** `sep.join(parts)`. */
  function JoinWith(sep: string, parts: seq<string>): string {
    if parts == [] then ""
    else if |parts| == 1 then parts[0]
    else parts[0] + sep + JoinWith(sep, parts[1..])
  }

  lemma JoinCons(sep: string, parts: seq<string>)
    requires |parts| > 1
    ensures JoinWith(sep, parts) == parts[0] + (sep + JoinWith(sep, parts[1..]))
  {
  }

  /** Index of the first `ch` in `s`, or `|s|` when there is none. */
  function IndexOf(s: string, ch: char): (i: nat)
    ensures i <= |s|
    ensures i < |s| ==> s[i] == ch
    ensures forall j :: 0 <= j < i ==> s[j] != ch
  {
    if s == [] then 0 else if s[0] == ch then 0 else 1 + IndexOf(s[1..], ch)
  }

  lemma {:induction false} IndexOfAfter(a: string, ch: char, rest: string)
    requires ch !in a
    ensures IndexOf(a + [ch] + rest, ch) == |a|
    decreases |a|
  {
    if a != [] {
      assert (a + [ch] + rest)[1..] == a[1..] + [ch] + rest;
      IndexOfAfter(a[1..], ch, rest);
    }
  }

  /** `s.split(sep)`: the pieces between occurrences of `sep`; never empty, and
      `"".split(sep) == [""]`. */
  function Split(s: string, sep: char): (parts: seq<string>)
    ensures |parts| >= 1
    decreases |s|
  {
    var i := IndexOf(s, sep);
    if i == |s| then [s] else [s[..i]] + Split(s[i + 1..], sep)
  }

  lemma {:induction false} SplitJoin(sep: char, parts: seq<string>)
    requires |parts| >= 1
    requires forall p :: p in parts ==> sep !in p
    ensures Split(JoinWith([sep], parts), sep) == parts
    decreases |parts|
  {
    var s := JoinWith([sep], parts);
    if |parts| == 1 {
      assert sep !in s;
    } else {
      var rest := JoinWith([sep], parts[1..]);
      assert s == parts[0] + [sep] + rest;
      assert sep !in parts[0];
      IndexOfAfter(parts[0], sep, rest);
      assert s[..|parts[0]|] == parts[0];
      assert s[|parts[0]| + 1..] == rest;
      SplitJoin(sep, parts[1..]);
    }
  }

  /** A property every character of the separator and of the parts has, every
      character of the joined string has. */
  lemma {:induction false} JoinWithAll(sep: string, parts: seq<string>, P: char -> bool)
    requires forall i :: 0 <= i < |sep| ==> P(sep[i])
    requires forall k, i :: 0 <= k < |parts| && 0 <= i < |parts[k]| ==> P(parts[k][i])
    ensures forall i :: 0 <= i < |JoinWith(sep, parts)| ==> P(JoinWith(sep, parts)[i])
    decreases |parts|
  {
    if |parts| > 1 {
      JoinWithAll(sep, parts[1..], P);
      var rest := JoinWith(sep, parts[1..]);
      var s := JoinWith(sep, parts);
      assert s == parts[0] + sep + rest;
      forall i | 0 <= i < |s| ensures P(s[i]) {
        if i < |parts[0]| {
          assert s[i] == parts[0][i];
        } else if i < |parts[0]| + |sep| {
          assert s[i] == sep[i - |parts[0]|];
        } else {
          assert s[i] == rest[i - |parts[0]| - |sep|];
        }
      }
    } else if |parts| == 1 {
      assert JoinWith(sep, parts) == parts[0];
    }
  }
}
