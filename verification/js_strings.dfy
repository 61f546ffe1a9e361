/**
 * The JavaScript string built-ins both scripts rely on, over Dafny strings
 * (sequences of Unicode scalar values): String.prototype.trim,
 * String.prototype.split with a one-character separator, Array.prototype.join,
 * parseInt(_, 10), Number-to-String for integers and padStart(2, '0').
 */
module JsStrings {
  import opened Wrappers
  import opened Seqs

  /**
   * The characters String.prototype.trim removes (ECMAScript WhiteSpace and
   * LineTerminator): tab, line tabulation, form feed, space, no-break space,
   * byte order mark, the Zs category, line feed, carriage return, and the
   * line and paragraph separators. parseInt skips the same set.
   */
  predicate IsWhitespace(c: char)
  {
    || c == '\t' || c == '\n' || c == '\U{000B}' || c == '\U{000C}' || c == '\r'
    || c == ' ' || c == '\U{00A0}' || c == '\U{1680}'
    || ('\U{2000}' <= c <= '\U{200A}')
    || c == '\U{2028}' || c == '\U{2029}' || c == '\U{202F}' || c == '\U{205F}'
    || c == '\U{3000}' || c == '\U{FEFF}'
  }

  predicate AllWhitespace(s: string)
  {
    forall i :: 0 <= i < |s| ==> IsWhitespace(s[i])
  }

  /** Leading whitespace removed. */
  function TrimStart(s: string): string
  {
    if s != [] && IsWhitespace(s[0]) then TrimStart(s[1..]) else s
  }

  /** TrimStart leaves the suffix of s after its longest all-whitespace prefix. */
  lemma {:induction false} TrimStartFacts(s: string)
    ensures var r := TrimStart(s);
      && |r| <= |s| && r == s[|s| - |r|..]
      && AllWhitespace(s[..|s| - |r|])
      && (r == [] || !IsWhitespace(r[0]))
  {
    if s != [] && IsWhitespace(s[0]) {
      TrimStartFacts(s[1..]);
      var r := TrimStart(s[1..]);
      assert s[..|s| - |r|] == [s[0]] + s[1..][..|s| - 1 - |r|];
    }
  }

  /** Trailing whitespace removed. */
  function TrimEnd(s: string): string
  {
    if s != [] && IsWhitespace(s[|s| - 1]) then TrimEnd(s[..|s| - 1]) else s
  }

  /** TrimEnd leaves the prefix of s before its longest all-whitespace suffix. */
  lemma {:induction false} TrimEndFacts(s: string)
    ensures var r := TrimEnd(s);
      && |r| <= |s| && r == s[..|r|]
      && AllWhitespace(s[|r|..])
      && (r == [] || !IsWhitespace(r[|r| - 1]))
  {
    if s != [] && IsWhitespace(s[|s| - 1]) {
      TrimEndFacts(s[..|s| - 1]);
      var r := TrimEnd(s[..|s| - 1]);
      assert s[|r|..] == s[..|s| - 1][|r|..] + [s[|s| - 1]];
    }
  }

  /** String.prototype.trim. */
  function Trim(s: string): (r: string)
    ensures |r| <= |s|
    ensures r == [] || (!IsWhitespace(r[0]) && !IsWhitespace(r[|r| - 1]))
    ensures r == [] <==> AllWhitespace(s)
  {
    var t := TrimStart(s);
    var r := TrimEnd(t);
    TrimStartFacts(s);
    TrimEndFacts(t);
    assert r == [] ==> s == s[..|s| - |t|] + t[|r|..];
    assert r != [] ==> r[0] == t[0];
    assert t != [] ==> t[0] == s[|s| - |t|];
    r
  }

  /** Trim keeps a contiguous part of its input and removes only whitespace around it. */
  lemma {:induction false} TrimIsInfix(s: string)
    ensures exists k :: (0 <= k <= |s| - |Trim(s)| && Trim(s) == s[k..k + |Trim(s)|]
                         && AllWhitespace(s[..k]) && AllWhitespace(s[k + |Trim(s)|..]))
  {
    var t := TrimStart(s);
    var r := TrimEnd(t);
    TrimStartFacts(s);
    TrimEndFacts(t);
    var k := |s| - |t|;
    assert r == s[k..k + |r|];
    assert s[k + |r|..] == t[|r|..];
  }

  /** Trimming twice is trimming once. */
  lemma {:induction false} TrimIdempotent(s: string)
    ensures Trim(Trim(s)) == Trim(s)
  {
    TrimOfTrimmed(Trim(s));
  }

  /** A string with no whitespace at either end is its own trim. */
  lemma {:induction false} TrimOfTrimmed(s: string)
    requires s == [] || (!IsWhitespace(s[0]) && !IsWhitespace(s[|s| - 1]))
    ensures Trim(s) == s
  {
  }

  /**
   * String.prototype.split with a one-character separator: the pieces
   * between separators, so there is always at least one piece ("" gives [""]).
   */
  function Split(s: string, sep: char): (r: seq<string>)
    ensures |r| >= 1
  {
    if s == [] then [""]
    else
      var rest := Split(s[1..], sep);
      if s[0] == sep then [""] + rest else [[s[0]] + rest[0]] + rest[1..]
  }

  /** No piece of a split holds the separator. */
  lemma {:induction false} SplitPieces(s: string, sep: char)
    ensures forall i :: 0 <= i < |Split(s, sep)| ==> sep !in Split(s, sep)[i]
  {
    if s != [] {
      SplitPieces(s[1..], sep);
      var rest := Split(s[1..], sep);
      if s[0] != sep {
        assert sep !in [s[0]] + rest[0];
      }
    }
  }

  /** The truthiness of a string: every string but "" is truthy. */
  predicate IsNonEmpty(s: string)
  {
    s != []
  }

  /** Array.prototype.join with separator sep. */
  function Join(parts: seq<string>, sep: string): (r: string)
    ensures |parts| >= 1 ==> parts[0] <= r
    ensures |parts| >= 1 ==> |r| >= |parts[0]| + (|parts| - 1) * |sep|
  {
    if |parts| == 0 then ""
    else if |parts| == 1 then parts[0]
    else parts[0] + sep + Join(parts[1..], sep)
  }

  /** Number of occurrences of c in s. */
  function Occurrences(s: string, c: char): nat
  {
    if s == [] then 0 else (if s[0] == c then 1 else 0) + Occurrences(s[1..], c)
  }

  /** Joining the pieces back with the separator gives the original string. */
  lemma {:induction false} JoinSplit(s: string, sep: char)
    ensures Join(Split(s, sep), [sep]) == s
  {
    if s != [] {
      JoinSplit(s[1..], sep);
      var rest := Split(s[1..], sep);
      if s[0] != sep {
        var r := Split(s, sep);
        if |rest| == 1 {
          assert r == [[s[0]] + rest[0]];
        } else {
          assert r[1..] == rest[1..];
          assert Join(rest, [sep]) == rest[0] + [sep] + Join(rest[1..], [sep]);
        }
      }
    }
  }

  /** There is one more piece than there are separators. */
  lemma {:induction false} SplitCount(s: string, sep: char)
    ensures |Split(s, sep)| == Occurrences(s, sep) + 1
  {
    if s != [] {
      SplitCount(s[1..], sep);
    }
  }

  /** Splitting a concatenation around a separator splits each side. */
  lemma {:induction false} SplitConcat(a: string, sep: char, b: string)
    ensures Split(a + [sep] + b, sep) == Split(a, sep) + Split(b, sep)
  {
    if a == [] {
      var s := a + [sep] + b;
      assert s == [sep] + b;
      assert s[0] == sep && s[1..] == b;
      assert Split(s, sep) == [""] + Split(b, sep);
      assert Split(a, sep) == [""];
    } else {
      SplitConcat(a[1..], sep, b);
      SplitConcatStep(a, sep, b);
    }
  }

  /** The step of SplitConcat: from the tail of a to a. */
  lemma SplitConcatStep(a: string, sep: char, b: string)
    requires a != []
    requires Split(a[1..] + [sep] + b, sep) == Split(a[1..], sep) + Split(b, sep)
    ensures Split(a + [sep] + b, sep) == Split(a, sep) + Split(b, sep)
  {
    var s := a + [sep] + b;
    ConsConcat(a, [sep]);
    ConsConcat(a + [sep], b);
    ConcatAssoc(a[1..], [sep], b);
    if a[0] == sep {
      SplitAtSeparator(s, a, sep, Split(b, sep));
    } else {
      SplitAtOther(s, a, sep, Split(b, sep));
    }
  }

  /** Both texts start with the separator and their tails split alike up to a suffix. */
  lemma SplitAtSeparator(s: string, a: string, sep: char, more: seq<string>)
    requires s != [] && a != [] && s[0] == sep && a[0] == sep
    requires Split(s[1..], sep) == Split(a[1..], sep) + more
    ensures Split(s, sep) == Split(a, sep) + more
  {
    var rest := Split(a[1..], sep);
    assert Split(s, sep) == [""] + (rest + more);
    assert Split(a, sep) == [""] + rest;
    ConcatAssoc([""], rest, more);
  }

  /** Both texts start with the same character other than the separator. */
  lemma SplitAtOther(s: string, a: string, sep: char, more: seq<string>)
    requires s != [] && a != [] && s[0] == a[0] && a[0] != sep
    requires Split(s[1..], sep) == Split(a[1..], sep) + more
    ensures Split(s, sep) == Split(a, sep) + more
  {
    var rest := Split(a[1..], sep);
    var restAll := Split(s[1..], sep);
    ConsConcat(rest, more);
    var head := [[a[0]] + rest[0]];
    assert Split(s, sep) == head + restAll[1..];
    assert Split(a, sep) == head + rest[1..];
    ConcatAssoc(head, rest[1..], more);
  }

  /** Splitting a string that holds no separator gives the string itself. */
  lemma {:induction false} SplitNoSeparator(s: string, sep: char)
    requires sep !in s
    ensures Split(s, sep) == [s]
  {
    if s != [] {
      SplitNoSeparator(s[1..], sep);
      assert s == [s[0]] + s[1..];
    }
  }

  /** Splitting is the inverse of joining pieces that hold no separator. */
  lemma {:induction false} SplitJoin(parts: seq<string>, sep: char)
    requires |parts| >= 1
    requires forall i :: 0 <= i < |parts| ==> sep !in parts[i]
    ensures Split(Join(parts, [sep]), sep) == parts
  {
    if |parts| == 1 {
      SplitNoSeparator(parts[0], sep);
    } else {
      SplitJoin(parts[1..], sep);
      SplitConcat(parts[0], sep, Join(parts[1..], [sep]));
      SplitNoSeparator(parts[0], sep);
    }
  }

  predicate IsDigit(c: char)
  {
    '0' <= c <= '9'
  }

  function DigitValue(c: char): (d: nat)
    requires IsDigit(c)
    ensures d < 10
  {
    (c as int) - ('0' as int)
  }

  function DigitChar(d: nat): (c: char)
    requires d < 10
    ensures IsDigit(c) && DigitValue(c) == d
  {
    (('0' as int) + d) as char
  }

  /** The longest prefix of s made of decimal digits. */
  function DigitRun(s: string): (r: string)
    ensures |r| <= |s| && r == s[..|r|]
    ensures forall i :: 0 <= i < |r| ==> IsDigit(r[i])
    ensures |r| < |s| ==> !IsDigit(s[|r|])
  {
    if s != [] && IsDigit(s[0]) then [s[0]] + DigitRun(s[1..]) else []
  }

  /** The value of a string of decimal digits, most significant first. */
  function DigitsValue(ds: string): nat
    requires forall i :: 0 <= i < |ds| ==> IsDigit(ds[i])
  {
    if ds == [] then 0 else 10 * DigitsValue(ds[..|ds| - 1]) + DigitValue(ds[|ds| - 1])
  }

  /**
   * parseInt(s, 10): skip leading whitespace, read an optional sign, then the
   * longest run of decimal digits; None stands for NaN (no digit at all).
   * Anything after the digits is ignored.
   */
  function ParseInt(s: string): (r: Option<int>)
    ensures var u := Unsigned(TrimStart(s)); r.None? <==> u == [] || !IsDigit(u[0])
    ensures r.Some? && r.value < 0 ==> TrimStart(s) != [] && TrimStart(s)[0] == '-'
  {
    var t := TrimStart(s);
    var negative := t != [] && t[0] == '-';
    var ds := DigitRun(Unsigned(t));
    if ds == [] then None
    else
      var v: int := DigitsValue(ds);
      Some(if negative then -v else v)
  }

  /** s without one leading sign character. */
  function Unsigned(s: string): string
  {
    if s != [] && (s[0] == '-' || s[0] == '+') then s[1..] else s
  }

  /** The decimal digits of n, most significant first, without leading zeros. */
  function NatToString(n: nat): (r: string)
    ensures |r| >= 1
    ensures forall i :: 0 <= i < |r| ==> IsDigit(r[i])
    ensures |r| > 1 ==> r[0] != '0'
  {
    if n < 10 then [DigitChar(n)] else NatToString(n / 10) + [DigitChar(n % 10)]
  }

  /** String(n) for an integer-valued Number: an optional minus sign, then the digits. */
  function IntToString(n: int): (r: string)
    ensures |r| >= 1
    ensures r[0] == '-' <==> n < 0
  {
    if n < 0 then "-" + NatToString(-n) else NatToString(n)
  }

  /** The digits of n denote n. */
  lemma {:induction false} NatToStringValue(n: nat)
    ensures DigitsValue(NatToString(n)) == n
  {
    if n >= 10 {
      NatToStringValue(n / 10);
      var r := NatToString(n);
      assert r[..|r| - 1] == NatToString(n / 10);
    }
  }

  /** The digit run of a digit string followed by a non-digit is that digit string. */
  lemma {:induction false} DigitRunPrefix(ds: string, rest: string)
    requires forall i :: 0 <= i < |ds| ==> IsDigit(ds[i])
    requires rest == [] || !IsDigit(rest[0])
    ensures DigitRun(ds + rest) == ds
  {
    if ds != [] {
      DigitRunPrefix(ds[1..], rest);
      assert (ds + rest)[1..] == ds[1..] + rest;
    }
  }

  /** parseInt reads back what String(n) wrote, whatever non-digit follows it. */
  lemma {:induction false} ParseIntToString(n: int, rest: string)
    requires rest == [] || !IsDigit(rest[0])
    ensures ParseInt(IntToString(n) + rest) == Some(n)
  {
    if n < 0 {
      var m: nat := -n;
      assert IntToString(n) + rest == ['-'] + (NatToString(m) + rest) by {
        ConcatAssoc(['-'], NatToString(m), rest);
      }
      ParseNegative(m, rest);
    } else {
      assert IntToString(n) == NatToString(n);
      ParseNonNegative(n, rest);
    }
  }

  /** parseInt of the digits of m followed by a non-digit. */
  lemma {:induction false} ParseNonNegative(m: nat, rest: string)
    requires rest == [] || !IsDigit(rest[0])
    ensures ParseInt(NatToString(m) + rest) == Some(m as int)
  {
    var digits := NatToString(m);
    var s := digits + rest;
    assert TrimStart(s) == s by { TrimStartKeeps(s); }
    assert Unsigned(s) == s;
    assert DigitRun(s) == digits by { DigitRunPrefix(digits, rest); }
    assert DigitsValue(digits) == m by { NatToStringValue(m); }
  }

  /** parseInt of a minus sign, the digits of m, then a non-digit. */
  lemma {:induction false} ParseNegative(m: nat, rest: string)
    requires rest == [] || !IsDigit(rest[0])
    ensures ParseInt(['-'] + (NatToString(m) + rest)) == Some(-(m as int))
  {
    var digits := NatToString(m);
    var s := ['-'] + (digits + rest);
    assert TrimStart(s) == s && Unsigned(s) == digits + rest by { UnsignedAfterSign(digits + rest); }
    assert DigitRun(digits + rest) == digits by { DigitRunPrefix(digits, rest); }
    assert DigitsValue(digits) == m by { NatToStringValue(m); }
  }

  /** A string that starts with something other than whitespace is not trimmed. */
  lemma {:induction false} TrimStartKeeps(s: string)
    requires s != [] && (IsDigit(s[0]) || s[0] == '-')
    ensures TrimStart(s) == s
  {
  }

  /** A string that starts with a minus sign is not trimmed and loses exactly that sign. */
  lemma {:induction false} UnsignedAfterSign(t: string)
    ensures TrimStart(['-'] + t) == ['-'] + t
    ensures Unsigned(['-'] + t) == t
  {
  }

  /** padStart(2, '0'): left-pad with zeros to length 2; longer strings are unchanged. */
  function PadStart2(s: string): (r: string)
    decreases 2 - |s|
    ensures |s| >= 2 ==> r == s
    ensures |s| < 2 ==> |r| == 2 && r[2 - |s|..] == s
    ensures forall i :: 0 <= i < |r| - |s| ==> r[i] == '0'
  {
    if |s| >= 2 then s else PadStart2("0" + s)
  }

  /** A one- or two-digit number pads to exactly two digits that read back as the number. */
  lemma {:induction false} PadStart2Digits(n: nat)
    requires n < 100
    ensures var r := PadStart2(NatToString(n));
      |r| == 2 && IsDigit(r[0]) && IsDigit(r[1]) && DigitsValue(r) == n
  {
    NatToStringValue(n);
    var r := PadStart2(NatToString(n));
    if n < 10 {
      assert r == ['0', DigitChar(n)];
      assert r[..1] == "0";
    } else {
      assert n / 10 < 10;
      assert r == NatToString(n);
    }
  }
}
