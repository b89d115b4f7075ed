/** Strings and numbers as the helper script and the facades see them:
    separator splitting and joining, decimal formatting of integers and
    Python 2's `int()` conversion of a string. */
module Text {

  datatype Option<+T> = None | Some(value: T)

  datatype Result<+T, +E> = Success(value: T) | Failure(error: E)

  /** The completion of an operation that yields no value. */
  datatype Outcome<+E> = Pass | Fail(error: E)

  // ---------------------------------------------------------------------
  // Joining and splitting on a one-character separator

  /** The parts with exactly one separator between neighbours. */
  function Join(parts: seq<string>, sep: char): string
  {
    if |parts| == 0 then ""
    else if |parts| == 1 then parts[0]
    else Join(parts[..|parts| - 1], sep) + [sep] + parts[|parts| - 1]
  }

  /** Position of the last occurrence of `c` in `s`, or -1. */
  function LastIndexOf(s: string, c: char): (i: int)
    ensures -1 <= i < |s|
    ensures 0 <= i ==> s[i] == c
    ensures forall j :: i < j < |s| ==> s[j] != c
  {
    if |s| == 0 then -1
    else if s[|s| - 1] == c then |s| - 1
    else LastIndexOf(s[..|s| - 1], c)
  }

  /** Position of the first occurrence of `c` in `s`, or -1. */
  function IndexOf(s: string, c: char): (i: int)
    ensures -1 <= i < |s|
    ensures 0 <= i ==> s[i] == c
    ensures forall j :: 0 <= j < |s| && (i < 0 || j < i) ==> s[j] != c
  {
    if |s| == 0 then -1
    else if s[0] == c then 0
    else
      var k := IndexOf(s[1..], c);
      if k < 0 then -1 else k + 1
  }

  /** Python's `s.split(sep)`: the maximal separator-free pieces, in
      order; an empty string gives one empty piece. */
  function Split(s: string, sep: char): (parts: seq<string>)
    ensures |parts| >= 1
    decreases |s|
  {
    var i := LastIndexOf(s, sep);
    if i < 0 then [s] else Split(s[..i], sep) + [s[i + 1..]]
  }

  /** The pieces hold no separator, and joining them gives the string
      back. */
  lemma {:induction false} SplitPieces(s: string, sep: char)
    ensures forall i :: 0 <= i < |Split(s, sep)| ==> sep !in Split(s, sep)[i]
    ensures Join(Split(s, sep), sep) == s
    decreases |s|
  {
    var i := LastIndexOf(s, sep);
    if i >= 0 {
      var init := Split(s[..i], sep);
      var last := s[i + 1..];
      var parts := init + [last];
      SplitPieces(s[..i], sep);
      assert forall k :: 0 <= k < |last| ==> last[k] == s[i + 1 + k];
      assert sep !in last;
      assert parts[..|parts| - 1] == init && parts[|parts| - 1] == last;
      assert s == s[..i] + [sep] + last;
    }
  }

  /** A string without the separator is a single piece. */
  lemma SplitWithout(s: string, sep: char)
    requires sep !in s
    ensures Split(s, sep) == [s]
  {
  }

  lemma EmptyPrefix(a: string)
    ensures "" + a == a
  {
  }

  lemma Associate(a: string, b: string, c: string)
    ensures a + b + c == a + (b + c)
  {
  }

  /** Joining one more part appends a separator (unless it is the first
      part) and the part. */
  lemma JoinSnoc(parts: seq<string>, i: nat, sep: char)
    requires i < |parts|
    ensures Join(parts[..i + 1], sep) == Join(parts[..i], sep) + ((if i > 0 then [sep] else []) + parts[i])
  {
    assert parts[..i + 1][..i] == parts[..i];
    Associate(Join(parts[..i], sep), if i > 0 then [sep] else [], parts[i]);
  }

  lemma {:induction false} LastIndexOfAfter(u: string, c: char, t: string)
    requires c !in t
    ensures LastIndexOf(u + [c] + t, c) == |u|
    decreases |t|
  {
    var s := u + [c] + t;
    if |t| > 0 {
      assert s[|s| - 1] == t[|t| - 1];
      assert s[..|s| - 1] == u + [c] + t[..|t| - 1];
      LastIndexOfAfter(u, c, t[..|t| - 1]);
    } else {
      assert s[|s| - 1] == c;
    }
  }

  /** Splitting undoes joining when no part holds the separator. */
  lemma {:induction false} SplitJoin(parts: seq<string>, sep: char)
    requires |parts| >= 1
    requires forall i :: 0 <= i < |parts| ==> sep !in parts[i]
    ensures Split(Join(parts, sep), sep) == parts
  {
    if |parts| > 1 {
      var init := parts[..|parts| - 1];
      var last := parts[|parts| - 1];
      var j := Join(init, sep);
      var s := Join(parts, sep);
      assert s == j + [sep] + last;
      assert sep !in last;
      SplitJoin(init, sep);
      LastIndexOfAfter(j, sep, last);
      assert s[..|j|] == j;
      assert s[|j| + 1..] == last;
      assert parts == init + [last];
    }
  }

  /** A separator splits a string into the pieces of either side. */
  lemma {:induction false} SplitAround(x: string, sep: char, y: string)
    ensures Split(x + [sep] + y, sep) == Split(x, sep) + Split(y, sep)
  {
    var px, py := Split(x, sep), Split(y, sep);
    SplitPieces(x, sep);
    SplitPieces(y, sep);
    var parts := px + py;
    assert forall i :: 0 <= i < |parts| ==> sep !in parts[i] by {
      forall i | 0 <= i < |parts| ensures sep !in parts[i] {
        if i < |px| { assert parts[i] == px[i]; } else { assert parts[i] == py[i - |px|]; }
      }
    }
    JoinAppend(px, py, sep);
    SplitJoin(parts, sep);
  }

  /** Joining two non-empty runs of parts puts one separator between them. */
  lemma {:induction false} JoinAppend(a: seq<string>, b: seq<string>, sep: char)
    requires |a| >= 1 && |b| >= 1
    ensures Join(a + b, sep) == Join(a, sep) + [sep] + Join(b, sep)
    decreases |b|
  {
    var ab := a + b;
    assert ab[..|ab| - 1] == a + b[..|b| - 1];
    if |b| > 1 {
      JoinAppend(a, b[..|b| - 1], sep);
    } else {
      assert ab[..|ab| - 1] == a;
    }
  }

  /** A join of two or more parts: the first part, a separator, and the
      join of the rest. */
  lemma JoinCons(parts: seq<string>, sep: char)
    requires |parts| >= 2
    ensures Join(parts, sep) == parts[0] + [sep] + Join(parts[1..], sep)
  {
    assert parts == [parts[0]] + parts[1..];
    JoinAppend([parts[0]], parts[1..], sep);
  }

  /** A join begins with its first part. */
  lemma {:induction false} JoinFirst(parts: seq<string>, sep: char)
    requires |parts| >= 1
    ensures |Join(parts, sep)| >= |parts[0]| && Join(parts, sep)[..|parts[0]|] == parts[0]
  {
    if |parts| > 1 {
      var init := parts[..|parts| - 1];
      JoinFirst(init, sep);
      assert init[0] == parts[0];
    }
  }

  /** A character other than the separator occurs in a join only if it
      occurs in one of the parts. */
  lemma {:induction false} JoinAvoids(parts: seq<string>, sep: char, c: char)
    requires c != sep
    requires forall i :: 0 <= i < |parts| ==> c !in parts[i]
    ensures c !in Join(parts, sep)
  {
    if |parts| > 1 {
      JoinAvoids(parts[..|parts| - 1], sep, c);
    }
  }

  // ---------------------------------------------------------------------
  // Decimal integers

  predicate IsDigit(c: char) { '0' <= c <= '9' }

  predicate AllDigits(s: string) { forall i :: 0 <= i < |s| ==> IsDigit(s[i]) }

  function DigitChar(d: nat): (c: char)
    requires d < 10
    ensures IsDigit(c) && c as int - '0' as int == d
  {
    ('0' as int + d) as char
  }

  /** The shortest decimal numeral of `n`. */
  function Digits(n: nat): (s: string)
    ensures |s| >= 1 && AllDigits(s)
    ensures 0 < n ==> s[0] != '0'
  {
    if n < 10 then [DigitChar(n)] else Digits(n / 10) + [DigitChar(n % 10)]
  }

  /** The value of a numeral, most significant digit first. */
  function DigitsValue(s: string): nat
    requires AllDigits(s)
  {
    if |s| == 0 then 0
    else DigitsValue(s[..|s| - 1]) * 10 + (s[|s| - 1] as int - '0' as int)
  }

  lemma {:induction false} DigitsValueOfDigits(n: nat)
    ensures DigitsValue(Digits(n)) == n
  {
    if n >= 10 {
      var s := Digits(n);
      assert s[..|s| - 1] == Digits(n / 10);
      DigitsValueOfDigits(n / 10);
    }
  }

  /** Python's `str(n)` and JavaScript's `'' + n` for an integer. */
  function IntToString(n: int): (s: string)
    ensures |s| >= 1
  {
    if n < 0 then "-" + Digits(-n) else Digits(n)
  }

  /** A sign and digits only: none of the separators the helper's
      parameter strings and output use. */
  lemma IntToStringChars(n: int)
    ensures forall i :: 0 <= i < |IntToString(n)| ==>
              IntToString(n)[i] == '-' || IsDigit(IntToString(n)[i])
    ensures ',' !in IntToString(n) && '=' !in IntToString(n)
    ensures '\t' !in IntToString(n) && '\n' !in IntToString(n)
  {
    var m: nat := if n < 0 then -n else n;
    assert AllDigits(Digits(m));
  }

  // ---------------------------------------------------------------------
  // Python 2 `int(s)`

  /** C's isspace: space, tab, newline, vertical tab, form feed, return. */
  predicate IsSpace(c: char) { c == ' ' || 9 <= c as int <= 13 }

  /** `s` without its leading white space. */
  function TrimStart(s: string): string
  {
    if |s| > 0 && IsSpace(s[0]) then TrimStart(s[1..]) else s
  }

  /** `s` without its trailing white space. */
  function TrimEnd(s: string): string
  {
    if |s| > 0 && IsSpace(s[|s| - 1]) then TrimEnd(s[..|s| - 1]) else s
  }

  /** Digits with optional trailing white space, read as a number. */
  function ParseUnsigned(u: string): Option<nat>
  {
    var d := TrimEnd(u);
    if |d| > 0 && AllDigits(d) then Some(DigitsValue(d)) else None
  }

  /** Python 2's `int(s)` in base 10: optional white space, an optional
      sign, optional white space again (CPython 2 reads the digits with a
      C routine that skips it), one or more decimal digits and optional
      trailing white space; anything else is a ValueError (None). */
  function ParseInt(s: string): Option<int>
  {
    var t := TrimStart(s);
    if |t| > 0 && (t[0] == '+' || t[0] == '-') then
      match ParseUnsigned(TrimStart(t[1..]))
      case None => None
      case Some(v) =>
        var w: int := v;
        Some(if t[0] == '-' then -w else w)
    else
      match ParseUnsigned(t)
      case None => None
      case Some(v) => Some(v)
  }

  lemma {:induction false} TrimEndSpaces(x: string, tail: string)
    requires |x| > 0 && !IsSpace(x[|x| - 1])
    requires forall i :: 0 <= i < |tail| ==> IsSpace(tail[i])
    ensures TrimEnd(x + tail) == x
    decreases |tail|
  {
    if |tail| > 0 {
      assert (x + tail)[..|x + tail| - 1] == x + tail[..|tail| - 1];
      TrimEndSpaces(x, tail[..|tail| - 1]);
    } else {
      assert x + tail == x;
    }
  }

  /** A string beginning with a character other than white space has no
      leading white space to trim. */
  lemma TrimStartKeeps(s: string)
    requires |s| > 0 && !IsSpace(s[0])
    ensures TrimStart(s) == s
  {
  }

  lemma ParseUnsignedOfNumeral(d: string, tail: string)
    requires |d| > 0 && AllDigits(d)
    requires forall i :: 0 <= i < |tail| ==> IsSpace(tail[i])
    ensures ParseUnsigned(d + tail) == Some(DigitsValue(d))
  {
    assert IsDigit(d[|d| - 1]);
    TrimEndSpaces(d, tail);
  }

  lemma ParseIntOfNumeral(d: string, tail: string)
    requires |d| > 0 && AllDigits(d)
    requires forall i :: 0 <= i < |tail| ==> IsSpace(tail[i])
    ensures ParseInt(d + tail) == Some(DigitsValue(d) as int)
  {
    var s := d + tail;
    assert s[0] == d[0] && IsDigit(d[0]);
    TrimStartKeeps(s);
    ParseUnsignedOfNumeral(d, tail);
  }

  /** A minus sign in front of such a number negates it. */
  lemma NegatedNumber(s: string, v: nat)
    requires |s| > 0 && !IsSpace(s[0])
    requires ParseUnsigned(s) == Some(v)
    ensures ParseInt("-" + s) == Some(-(v as int))
  {
    var m := "-" + s;
    assert m[0] == '-' && m[1..] == s;
    TrimStartKeeps(s);
    ParseIntMinus(m);
  }

  /** `int()` of a string that starts with `-`. */
  lemma ParseIntMinus(m: string)
    requires |m| > 0 && m[0] == '-'
    ensures ParseInt(m) == match ParseUnsigned(TrimStart(m[1..]))
                           case None => None
                           case Some(v) => Some(-(v as int))
  {
    TrimStartKeeps(m);
  }

  lemma ParseIntOfNegative(n: int, tail: string)
    requires n < 0
    requires forall i :: 0 <= i < |tail| ==> IsSpace(tail[i])
    ensures ParseInt(IntToString(n) + tail) == Some(n)
  {
    var d := Digits(-n);
    DigitsValueOfDigits(-n);
    ParseUnsignedOfNumeral(d, tail);
    assert (d + tail)[0] == d[0] && IsDigit(d[0]);
    NegatedNumber(d + tail, -n);
    assert IntToString(n) + tail == "-" + (d + tail);
  }

  /** Trailing white space is trimmed only after the last character
      that is not white space. */
  lemma {:induction false} TrimEndAfter(x: string, y: string)
    requires |y| > 0 && !IsSpace(y[0])
    ensures TrimEnd(x + y) == x + TrimEnd(y)
    decreases |y|
  {
    var xy := x + y;
    if IsSpace(y[|y| - 1]) {
      var y' := y[..|y| - 1];
      assert xy[..|xy| - 1] == x + y';
      TrimEndAfter(x, y');
    }
  }

  /** Digits, a newline and more text are no number: `int()` refuses a
      line break between two values. */
  lemma UnsignedRefusesLineBreak(d: string, rest: string)
    requires |d| > 0 && AllDigits(d)
    requires |rest| > 0 && !IsSpace(rest[0])
    ensures ParseUnsigned(d + "\n" + rest) == None
  {
    TrimEndAfter(d + "\n", rest);
    var u := TrimEnd(d + "\n" + rest);
    assert u[|d|] == '\n' && !IsDigit(u[|d|]);
  }

  /** Digits, a newline and more text, with or without a leading minus
      sign, are refused by `int()`. */
  lemma ParseIntRefusesLineBreak(d: string, rest: string)
    requires |d| > 0 && AllDigits(d)
    requires |rest| > 0 && !IsSpace(rest[0])
    ensures ParseInt(d + "\n" + rest) == None
    ensures ParseInt("-" + (d + "\n" + rest)) == None
  {
    var u := d + "\n" + rest;
    assert u[0] == d[0] && IsDigit(d[0]);
    TrimStartKeeps(u);
    UnsignedRefusesLineBreak(d, rest);
    var t := "-" + u;
    assert t[0] == '-' && t[1..] == u;
    ParseIntMinus(t);
  }

  /** A printed integer, a newline and another value on the next line
      are refused by `int()`. */
  lemma ParseIntRefusesTwoLines(n: int, rest: string)
    requires |rest| > 0 && !IsSpace(rest[0])
    ensures ParseInt(IntToString(n) + "\n" + rest) == None
  {
    var m: nat := if n < 0 then -n else n;
    var d := Digits(m);
    ParseIntRefusesLineBreak(d, rest);
    if n < 0 {
      assert IntToString(n) + "\n" + rest == "-" + (d + "\n" + rest);
    }
  }

  /** `int()` reads back what `str()` wrote, also with trailing white
      space such as the newline ending a printed line. */
  lemma {:induction false} ParseIntOfIntToString(n: int, tail: string)
    requires forall i :: 0 <= i < |tail| ==> IsSpace(tail[i])
    ensures ParseInt(IntToString(n) + tail) == Some(n)
  {
    if n < 0 {
      ParseIntOfNegative(n, tail);
    } else {
      DigitsValueOfDigits(n);
      ParseIntOfNumeral(Digits(n), tail);
    }
  }
}
