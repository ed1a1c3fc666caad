/** Decimal rendering and parsing of numbers, and whitespace splitting, as the
    scripts use them through Python's `str.format`, `strftime`, `int()`,
    `str.isdigit()` and `str.split()`. */
module Text {

  predicate IsDigit(c: char) { '0' <= c <= '9' }

  /** Python's `str.isdigit()` on ASCII text: non-empty and every character a digit. */
  predicate IsDigitToken(s: string) { |s| > 0 && forall i :: 0 <= i < |s| ==> IsDigit(s[i]) }

  /** The ASCII characters that `str.split()` with no argument splits on: the
      blank, tab, line feed, vertical tab, form feed, carriage return and the
      four separators `\x1c`-`\x1f`. */
  predicate IsSpace(c: char) {
    c == ' ' || c == '\t' || c == '\n' || c == '\r' || c == '\U{000B}' || c == '\U{000C}' ||
    ('\U{001C}' <= c <= '\U{001F}')
  }

  /** Concatenation regrouped to the right. */
  lemma Regroup(x: string, y: string, z: string)
    ensures x + y + z == x + (y + z)
  {
  }

  predicate NoSpace(s: string) { forall i :: 0 <= i < |s| ==> !IsSpace(s[i]) }

  /** A run of digits holds no whitespace. */
  lemma DigitTokenNoSpace(s: string)
    requires IsDigitToken(s)
    ensures NoSpace(s)
  {
  }

  function DigitChar(d: nat): (c: char)
    requires d < 10
    ensures IsDigit(c)
  {
    ('0' as int + d) as char
  }

  function DigitValue(c: char): (d: nat)
    requires IsDigit(c)
    ensures d < 10 && DigitChar(d) == c
  {
    c as int - '0' as int
  }

  /** `str(n)` for a natural number: its decimal digits, most significant first. */
  function NatToString(n: nat): (s: string)
    ensures IsDigitToken(s)
    ensures n < 10 <==> |s| == 1
    decreases n
  {
    if n < 10 then [DigitChar(n)] else NatToString(n / 10) + [DigitChar(n % 10)]
  }

  /** `str(i)` for any integer: a minus sign in front of negative values. */
  function IntToString(i: int): string {
    if i < 0 then "-" + NatToString(-i) else NatToString(i)
  }

  /** `int(s)` of a string of digits (leading zeros allowed). */
  function ParseNat(s: string): nat
    requires forall i :: 0 <= i < |s| ==> IsDigit(s[i])
  {
    if |s| == 0 then 0 else ParseNat(s[..|s| - 1]) * 10 + DigitValue(s[|s| - 1])
  }

  /** `int(s)` of an optionally signed decimal string. */
  function ParseInt(s: string): int
    requires |s| > 0
    requires s[0] == '-' ==> IsDigitToken(s[1..])
    requires s[0] != '-' ==> IsDigitToken(s)
  {
    if s[0] == '-' then -(ParseNat(s[1..]) as int) else ParseNat(s)
  }

  /** Two-digit, zero-padded rendering of a field, as `%d`, `%m`, `%H`, `%M`, `%S` produce. */
  function Pad2(n: nat): (s: string)
    ensures IsDigitToken(s)
  {
    if n < 10 then "0" + NatToString(n) else NatToString(n)
  }

  lemma {:induction false} ParseNatToString(n: nat)
    ensures ParseNat(NatToString(n)) == n
    decreases n
  {
    if n >= 10 {
      var s := NatToString(n);
      assert s[..|s| - 1] == NatToString(n / 10);
      ParseNatToString(n / 10);
    }
  }

  lemma {:induction false} ParseIntToString(i: int)
    ensures IsIntText(IntToString(i)) && ParseInt(IntToString(i)) == i
  {
    var s := IntToString(i);
    if i < 0 {
      assert s[1..] == NatToString(-i);
      ParseNatToString(-i);
    } else {
      ParseNatToString(i);
    }
  }

  /** Text that `ParseInt` accepts. */
  predicate IsIntText(s: string) {
    |s| > 0 && (s[0] == '-' ==> IsDigitToken(s[1..])) && (s[0] != '-' ==> IsDigitToken(s))
  }

  lemma {:induction false} ParseNatLeadingZero(s: string)
    requires forall i :: 0 <= i < |s| ==> IsDigit(s[i])
    ensures ParseNat("0" + s) == ParseNat(s)
    decreases |s|
  {
    if |s| > 0 {
      assert ("0" + s)[..|"0" + s| - 1] == "0" + s[..|s| - 1];
      ParseNatLeadingZero(s[..|s| - 1]);
    }
  }

  /** Reading back a zero-padded field gives the field. */
  lemma ParsePad2(n: nat)
    ensures ParseNat(Pad2(n)) == n
  {
    ParseNatToString(n);
    if n < 10 { ParseNatLeadingZero(NatToString(n)); }
  }

  /** Decimal rendering is injective: distinct integers print differently. */
  lemma IntToStringInjective(a: int, b: int)
    requires IntToString(a) == IntToString(b)
    ensures a == b
  {
    ParseIntToString(a);
    ParseIntToString(b);
  }

  lemma NatToStringInjective(a: nat, b: nat)
    requires NatToString(a) == NatToString(b)
    ensures a == b
  {
    ParseNatToString(a);
    ParseNatToString(b);
  }

  lemma IntToStringNoSpace(i: int)
    ensures NoSpace(IntToString(i))
  {
  }

  // ---------------------------------------------------------------------------
  // str.split() without a separator

  /** Number of leading characters of `s` that are not whitespace. */
  function WordLength(s: string): (k: nat)
    ensures k <= |s|
    ensures forall i :: 0 <= i < k ==> !IsSpace(s[i])
    ensures k < |s| ==> IsSpace(s[k])
  {
    if |s| == 0 || IsSpace(s[0]) then 0 else 1 + WordLength(s[1..])
  }

  /** `s.split()`: the maximal runs of non-whitespace characters, in order. */
  function Split(s: string): (words: seq<string>)
    ensures forall w :: w in words ==> |w| > 0 && NoSpace(w)
    decreases |s|
  {
    if |s| == 0 then []
    else if IsSpace(s[0]) then Split(s[1..])
    else
      var k := WordLength(s);
      [s[..k]] + Split(s[k..])
  }

  lemma SplitLeadingSpace(c: char, rest: string)
    requires IsSpace(c)
    ensures Split([c] + rest) == Split(rest)
  {
    assert ([c] + rest)[1..] == rest;
  }

  /** A word followed by whitespace (or nothing) splits off as the first element. */
  lemma {:induction false} SplitWord(w: string, rest: string)
    requires |w| > 0 && NoSpace(w)
    requires |rest| > 0 ==> IsSpace(rest[0])
    ensures Split(w + rest) == [w] + Split(rest)
  {
    WordLengthOfWord(w, rest);
    assert (w + rest)[..|w|] == w;
    assert (w + rest)[|w|..] == rest;
  }

  lemma {:induction false} WordLengthOfWord(w: string, rest: string)
    requires NoSpace(w)
    requires |rest| > 0 ==> IsSpace(rest[0])
    ensures WordLength(w + rest) == |w|
    decreases |w|
  {
    if |w| > 0 {
      assert (w + rest)[1..] == w[1..] + rest;
      WordLengthOfWord(w[1..], rest);
    }
  }

  /** `[x for x in xs if x.isdigit()]`. */
  function DigitTokens(words: seq<string>): (r: seq<string>)
    ensures forall w :: w in r ==> IsDigitToken(w) && w in words
    ensures forall w :: w in words && IsDigitToken(w) ==> w in r
    ensures |r| <= |words|
  {
    if |words| == 0 then []
    else if IsDigitToken(words[0]) then [words[0]] + DigitTokens(words[1..])
    else DigitTokens(words[1..])
  }

  /** Filtering a concatenation filters each part and keeps them in order. */
  lemma {:induction false} DigitTokensAppend(a: seq<string>, b: seq<string>)
    ensures DigitTokens(a + b) == DigitTokens(a) + DigitTokens(b)
    decreases |a|
  {
    if |a| > 0 {
      assert (a + b)[0] == a[0] && (a + b)[1..] == a[1..] + b;
      DigitTokensAppend(a[1..], b);
      if IsDigitToken(a[0]) {
        assert [a[0]] + (DigitTokens(a[1..]) + DigitTokens(b)) == [a[0]] + DigitTokens(a[1..]) + DigitTokens(b);
      }
    } else {
      assert a + b == b;
    }
  }

  // ---------------------------------------------------------------------------
  // Leading tokens of a text separated by a single space

  /** A text made of `a`, a separator, and `b` fixes `a` when `a` has no
      occurrence of the separator's first character. */
  lemma {:induction false} SplitAtSeparator(a: string, b: string, a': string, b': string, sep: string)
    requires |sep| > 0
    requires forall i :: 0 <= i < |a| ==> a[i] != sep[0]
    requires forall i :: 0 <= i < |a'| ==> a'[i] != sep[0]
    requires a + sep + b == a' + sep + b'
    ensures a == a' && b == b'
  {
    var x, y := a + sep + b, a' + sep + b';
    assert x[|a|] == sep[0] && y[|a'|] == sep[0];
    assert |a| == |a'|;
    assert a == x[..|a|] == y[..|a|] == a';
    assert b == x[|a| + |sep|..] == y[|a| + |sep|..] == b';
  }

  /** Two texts with a common prefix are equal exactly when the rests are. */
  lemma StripPrefix(p: string, a: string, b: string)
    requires p + a == p + b
    ensures a == b
  {
    assert a == (p + a)[|p|..];
    assert b == (p + b)[|p|..];
  }

  /** Two texts with a common suffix are equal exactly when the fronts are. */
  lemma StripSuffix(a: string, b: string, q: string)
    requires a + q == b + q
    ensures a == b
  {
    assert |a| == |b|;
    assert a == (a + q)[..|a|];
    assert b == (b + q)[..|b|];
  }

  /** What follows the frame number in a capture's file name: the exposure in
      seconds and then `long` for a long exposure (`exposure > 1`), `short` otherwise. */
  function FrameSuffix(exposure: int, long: string, short: string): string {
    if exposure > 1 then "_LE_" + IntToString(exposure) + long else short
  }

  /** Within one branch, a frame's file name gives back its frame number, and
      a long exposure's name gives back the exposure. */
  lemma FrameNameInjective(p: string, long: string, short: string, i: nat, e: int, i': nat, e': int)
    requires (e > 1) == (e' > 1)
    requires p + NatToString(i) + FrameSuffix(e, long, short) == p + NatToString(i') + FrameSuffix(e', long, short)
    ensures i == i' && (e > 1 ==> e == e')
  {
    var a, a' := NatToString(i), NatToString(i');
    Regroup(p, a, FrameSuffix(e, long, short));
    Regroup(p, a', FrameSuffix(e', long, short));
    StripPrefix(p, a + FrameSuffix(e, long, short), a' + FrameSuffix(e', long, short));
    if e > 1 {
      var b, b' := IntToString(e) + long, IntToString(e') + long;
      Regroup("_LE_", IntToString(e), long);
      Regroup("_LE_", IntToString(e'), long);
      Regroup(a, "_LE_", b);
      Regroup(a', "_LE_", b');
      SplitAtSeparator(a, b, a', b', "_LE_");
      StripSuffix(IntToString(e), IntToString(e'), long);
      IntToStringInjective(e, e');
    } else {
      StripSuffix(a, a', short);
    }
    NatToStringInjective(i, i');
  }

  // ---------------------------------------------------------------------------
  // strftime time stamps

  /** A calendar date and wall-clock time, as `datetime.now()` returns it. */
  datatype DateTime = DateTime(year: nat, month: nat, day: nat, hour: nat, minute: nat, second: nat)

  /** `t.strftime("%d<d>%m<d>%Y_%H<c>%M<c>%S")`: day, month and year joined by
      `d`, then hour, minute and second joined by `c`. */
  function Strftime(t: DateTime, d: char, c: char): string {
    Pad2(t.day) + [d] + (Pad2(t.month) + [d] + (NatToString(t.year) + "_" +
      (Pad2(t.hour) + [c] + (Pad2(t.minute) + [c] + Pad2(t.second)))))
  }

  lemma DigitsOnly(s: string)
    requires IsDigitToken(s)
    ensures forall x :: x in s ==> IsDigit(x)
  {
  }

  /** A stamp holds nothing but digits and its separators. */
  lemma StrftimeChars(t: DateTime, d: char, c: char)
    ensures forall x :: x in Strftime(t, d, c) ==> IsDigit(x) || x == d || x == c || x == '_'
  {
    DigitsOnly(Pad2(t.day));
    DigitsOnly(Pad2(t.month));
    DigitsOnly(NatToString(t.year));
    DigitsOnly(Pad2(t.hour));
    DigitsOnly(Pad2(t.minute));
    DigitsOnly(Pad2(t.second));
  }

  /** With separators that are not digits, the stamp determines the date and time. */
  lemma StrftimeInjective(a: DateTime, b: DateTime, d: char, c: char)
    requires !IsDigit(d) && !IsDigit(c)
    requires Strftime(a, d, c) == Strftime(b, d, c)
    ensures a == b
  {
    var tail := Pad2(a.minute) + [c] + Pad2(a.second);
    var tail' := Pad2(b.minute) + [c] + Pad2(b.second);
    var time := Pad2(a.hour) + [c] + tail;
    var time' := Pad2(b.hour) + [c] + tail';
    var year := NatToString(a.year) + "_" + time;
    var year' := NatToString(b.year) + "_" + time';
    var date := Pad2(a.month) + [d] + year;
    var date' := Pad2(b.month) + [d] + year';
    SplitAtSeparator(Pad2(a.day), date, Pad2(b.day), date', [d]);
    SplitAtSeparator(Pad2(a.month), year, Pad2(b.month), year', [d]);
    SplitAtSeparator(NatToString(a.year), time, NatToString(b.year), time', "_");
    SplitAtSeparator(Pad2(a.hour), tail, Pad2(b.hour), tail', [c]);
    SplitAtSeparator(Pad2(a.minute), Pad2(a.second), Pad2(b.minute), Pad2(b.second), [c]);
    ParsePad2(a.day); ParsePad2(b.day);
    ParsePad2(a.month); ParsePad2(b.month);
    NatToStringInjective(a.year, b.year);
    ParsePad2(a.hour); ParsePad2(b.hour);
    ParsePad2(a.minute); ParsePad2(b.minute);
    ParsePad2(a.second); ParsePad2(b.second);
  }
}
