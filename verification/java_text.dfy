/**
  The few `java.lang.String` and `java.lang.Integer` operations the cluster tooling relies on,
  with their Java semantics written out: `split` with a one-character literal delimiter
  (trailing empty fields dropped), `trim` (every character up to U+0020 is blank),
  `Integer.parseInt` (optional sign, 32-bit range) and decimal printing of an `int`.
*/
module JavaText {
  import opened Wrappers

  const MaxInt: int := 0x7fff_ffff
  const MinInt: int := -0x8000_0000

  predicate StartsWith(s: string, prefix: string) {
    |prefix| <= |s| && s[..|prefix|] == prefix
  }

  /** Java's `indexOf(c)`, except that an absent character yields `|s|` instead of -1. */
  function FirstIndex(s: string, c: char): (i: nat)
    ensures i <= |s|
    ensures i < |s| <==> c in s
    ensures i < |s| ==> s[i] == c
    ensures c !in s[..i]
  {
    if |s| == 0 then 0
    else if s[0] == c then 0
    else
      var j := FirstIndex(s[1..], c);
      assert s[..j + 1] == [s[0]] + s[1..][..j];
      1 + j
  }

  /** The first occurrence of c in `a + c + b`, when `a` holds none, is right after `a`. */
  lemma {:induction false} FirstIndexAfter(a: string, b: string, c: char)
    requires c !in a
    ensures FirstIndex(a + [c] + b, c) == |a|
  {
    if |a| > 0 {
      assert (a + [c] + b)[1..] == a[1..] + [c] + b;
      FirstIndexAfter(a[1..], b, c);
    }
  }

  // ---------------------------------------------------------------------------
  // String.split
  // ---------------------------------------------------------------------------

  /** All fields of `s` between occurrences of `d`, empty ones included. */
  function Fields(s: string, d: char): (r: seq<string>)
    ensures |r| >= 1
    ensures forall i :: 0 <= i < |r| ==> d !in r[i]
  {
    if |s| == 0 then [""]
    else
      var rest := Fields(s[1..], d);
      if s[0] == d then [""] + rest else [[s[0]] + rest[0]] + rest[1..]
  }

  /** Glues fields back together with the delimiter between them. */
  function Join(fs: seq<string>, d: char): string
    requires |fs| >= 1
  {
    if |fs| == 1 then fs[0] else fs[0] + [d] + Join(fs[1..], d)
  }

  /** Splitting into fields loses nothing: joining the fields gives the string back. */
  lemma {:induction false} JoinFields(s: string, d: char)
    ensures Join(Fields(s, d), d) == s
  {
    if |s| > 0 {
      var rest := Fields(s[1..], d);
      JoinFields(s[1..], d);
      if s[0] == d {
        assert Fields(s, d)[1..] == rest;
      } else {
        var fs := Fields(s, d);
        if |rest| > 1 {
          assert fs[1..] == rest[1..];
          assert Join(rest, d) == rest[0] + [d] + Join(rest[1..], d);
        }
        assert s == [s[0]] + s[1..];
      }
    }
  }

  /** Fields of a string that starts with a delimiter-free field `a` and a delimiter. */
  lemma {:induction false} FieldsAfterFirst(a: string, b: string, d: char)
    requires d !in a
    ensures Fields(a + [d] + b, d) == [a] + Fields(b, d)
  {
    if |a| == 0 {
      assert a + [d] + b == [d] + b;
      assert ([d] + b)[1..] == b;
    } else {
      assert (a + [d] + b)[1..] == a[1..] + [d] + b;
      FieldsAfterFirst(a[1..], b, d);
      assert [a[0]] + a[1..] == a;
    }
  }

  /** Appending a delimiter and a delimiter-free part adds exactly that part as a last field. */
  lemma {:induction false} FieldsAppend(a: string, b: string, d: char)
    requires d !in b
    ensures Fields(a + [d] + b, d) == Fields(a, d) + [b]
  {
    if |a| == 0 {
      assert a + [d] + b == [d] + b;
      assert ([d] + b)[1..] == b;
      FieldsOfPlain(b, d);
    } else {
      assert (a + [d] + b)[1..] == a[1..] + [d] + b;
      FieldsAppend(a[1..], b, d);
    }
  }

  /** A delimiter-free string is a single field. */
  lemma {:induction false} FieldsOfPlain(s: string, d: char)
    requires d !in s
    ensures Fields(s, d) == [s]
  {
    if |s| > 0 {
      FieldsOfPlain(s[1..], d);
      assert [s[0]] + s[1..] == s;
    }
  }

  /** The first field is the text before the first delimiter. */
  lemma {:induction false} FieldsHead(s: string, d: char)
    ensures Fields(s, d)[0] == s[..FirstIndex(s, d)]
  {
    if |s| > 0 && s[0] != d {
      FieldsHead(s[1..], d);
      assert s[..FirstIndex(s, d)] == [s[0]] + s[1..][..FirstIndex(s[1..], d)];
    }
  }

  predicate AllEmpty(fs: seq<string>) {
    forall i :: 0 <= i < |fs| ==> fs[i] == ""
  }

  predicate OnlyChar(s: string, d: char) {
    forall i :: 0 <= i < |s| ==> s[i] == d
  }

  /** Every field is empty exactly when the string is made of delimiters only. */
  lemma {:induction false} FieldsAllEmpty(s: string, d: char)
    ensures AllEmpty(Fields(s, d)) <==> OnlyChar(s, d)
  {
    if |s| > 0 {
      FieldsAllEmpty(s[1..], d);
      var rest := Fields(s[1..], d);
      if s[0] == d {
        assert Fields(s, d) == [""] + rest;
        assert AllEmpty(Fields(s, d)) <==> AllEmpty(rest) by {
          if AllEmpty(rest) {
            forall i | 1 <= i < |Fields(s, d)| ensures Fields(s, d)[i] == "" {
              assert Fields(s, d)[i] == rest[i - 1];
            }
          }
          if AllEmpty(Fields(s, d)) {
            forall i | 0 <= i < |rest| ensures rest[i] == "" {
              assert rest[i] == Fields(s, d)[i + 1];
            }
          }
        }
        if OnlyChar(s[1..], d) {
          assert OnlyChar(s, d) by {
            forall i | 0 < i < |s| ensures s[i] == d {
              assert s[i] == s[1..][i - 1];
            }
          }
        }
        if OnlyChar(s, d) {
          assert OnlyChar(s[1..], d) by {
            forall i | 0 <= i < |s| - 1 ensures s[1..][i] == d {
              assert s[1..][i] == s[i + 1];
            }
          }
        }
      } else {
        assert Fields(s, d)[0] != "";
      }
    }
  }

  /** Java drops the trailing empty strings of a split. */
  function DropTrailingEmpty(fs: seq<string>): (r: seq<string>)
    ensures r <= fs
    ensures |r| > 0 ==> r[|r| - 1] != ""
    ensures forall i :: |r| <= i < |fs| ==> fs[i] == ""
  {
    if |fs| == 0 then []
    else if fs[|fs| - 1] == "" then DropTrailingEmpty(fs[..|fs| - 1])
    else fs
  }

  /**
    `s.split(d)` for a one-character literal delimiter: no occurrence gives `[s]`,
    otherwise the fields with the trailing empty ones removed.
  */
  function Split(s: string, d: char): (r: seq<string>)
    ensures forall i :: 0 <= i < |r| ==> d !in r[i]
    ensures d !in s ==> r == [s]
    ensures d in s ==> r <= Fields(s, d) && AllEmpty(Fields(s, d)[|r|..])
  {
    if d !in s then [s] else DropTrailingEmpty(Fields(s, d))
  }

  /** A split comes back empty exactly when the string consists of delimiters only (and is not empty). */
  lemma SplitEmptyIff(s: string, d: char)
    ensures |Split(s, d)| == 0 <==> (s != "" && OnlyChar(s, d))
  {
    FieldsAllEmpty(s, d);
    if d in s {
      var fs := Fields(s, d);
      var r := Split(s, d);
      if |r| == 0 {
        assert fs[|r|..] == fs;
      } else {
        assert r[|r| - 1] == fs[|r| - 1];
      }
    }
  }

  /** When the split is not empty its first element is the text before the first delimiter. */
  lemma SplitHead(s: string, d: char)
    requires |Split(s, d)| > 0
    ensures Split(s, d)[0] == s[..FirstIndex(s, d)]
  {
    if d in s {
      FieldsHead(s, d);
    } else {
      assert s[..FirstIndex(s, d)] == s;
    }
  }

  /** `a + d + b` with delimiter-free parts and a non-empty `b` splits into exactly `[a, b]`. */
  lemma SplitPair(a: string, b: string, d: char)
    requires d !in a && d !in b && b != ""
    ensures Split(a + [d] + b, d) == [a, b]
  {
    FieldsAfterFirst(a, b, d);
    FieldsOfPlain(b, d);
    assert (a + [d] + b)[|a|] == d;
  }

  /** The last element of splitting `a + d + b` is `b`, when `b` is non-empty and free of `d`. */
  lemma SplitLast(a: string, b: string, d: char)
    requires d !in b && b != ""
    ensures |Split(a + [d] + b, d)| > 0 && Split(a + [d] + b, d)[|Split(a + [d] + b, d)| - 1] == b
  {
    var s := a + [d] + b;
    assert s[|a|] == d;
    FieldsAppend(a, b, d);
    var fs := Fields(s, d);
    assert DropTrailingEmpty(fs) == fs;
  }

  /** A string starting with a prefix that is not made of `d` alone is not made of `d` alone. */
  lemma PrefixNotOnlyChar(s: string, prefix: string, d: char)
    requires StartsWith(s, prefix) && !OnlyChar(prefix, d)
    ensures !OnlyChar(s, d)
  {
    var i :| 0 <= i < |prefix| && prefix[i] != d;
    assert s[i] == prefix[i];
  }

  // ---------------------------------------------------------------------------
  // String.trim
  // ---------------------------------------------------------------------------

  /** `String.trim` treats every character up to U+0020 as blank. */
  predicate IsTrimmable(c: char) {
    c <= ' '
  }

  function TrimStart(s: string): (r: string)
    ensures |r| <= |s| && r == s[|s| - |r|..]
    ensures r == "" || !IsTrimmable(r[0])
    ensures forall i :: 0 <= i < |s| - |r| ==> IsTrimmable(s[i])
  {
    if |s| > 0 && IsTrimmable(s[0]) then TrimStart(s[1..]) else s
  }

  function TrimEnd(s: string): (r: string)
    ensures |r| <= |s| && r == s[..|r|]
    ensures r == "" || !IsTrimmable(r[|r| - 1])
    ensures forall i :: |r| <= i < |s| ==> IsTrimmable(s[i])
  {
    if |s| > 0 && IsTrimmable(s[|s| - 1]) then TrimEnd(s[..|s| - 1]) else s
  }

  /** `s.trim()`: the longest middle part that neither starts nor ends with a blank. */
  function Trim(s: string): (r: string)
    ensures r == "" || (!IsTrimmable(r[0]) && !IsTrimmable(r[|r| - 1]))
  {
    TrimEnd(TrimStart(s))
  }

  /** A string with no blank at either end is its own trim; hence trimming is idempotent. */
  lemma TrimUntouched(s: string)
    requires s == "" || (!IsTrimmable(s[0]) && !IsTrimmable(s[|s| - 1]))
    ensures Trim(s) == s
  {
  }

  lemma TrimIdempotent(s: string)
    ensures Trim(Trim(s)) == Trim(s)
  {
    TrimUntouched(Trim(s));
  }

  /** Trimming removes exactly the blank characters at the two ends. */
  lemma TrimIsMiddle(s: string)
    ensures exists i, j :: (0 <= i <= j <= |s| && Trim(s) == s[i..j]
      && (forall k :: 0 <= k < i ==> IsTrimmable(s[k]))
      && (forall k :: j <= k < |s| ==> IsTrimmable(s[k])))
  {
    var t := TrimStart(s);
    var i := |s| - |t|;
    var j := i + |Trim(s)|;
    assert Trim(s) == s[i..j];
    forall k | j <= k < |s| ensures IsTrimmable(s[k]) {
      assert s[k] == t[k - i];
    }
  }

  predicate AllTrimmable(s: string) {
    forall i :: 0 <= i < |s| ==> IsTrimmable(s[i])
  }

  /** A string trims to nothing exactly when every character is blank. */
  lemma TrimEmptyIff(s: string)
    ensures Trim(s) == "" <==> AllTrimmable(s)
  {
    var t := TrimStart(s);
    if t != "" {
      assert !IsTrimmable(t[0]);
      assert !IsTrimmable(s[|s| - |t|]);
    }
  }

  // ---------------------------------------------------------------------------
  // Integer.parseInt and Integer.toString
  // ---------------------------------------------------------------------------

  predicate IsDigit(c: char) {
    '0' <= c <= '9'
  }

  predicate AllDigits(s: string) {
    forall i :: 0 <= i < |s| ==> IsDigit(s[i])
  }

  /** The value of a string of decimal digits, read most significant digit first. */
  function DigitsValue(s: string): nat
    requires AllDigits(s)
  {
    if |s| == 0 then 0 else DigitsValue(s[..|s| - 1]) * 10 + (s[|s| - 1] as int - '0' as int)
  }

  function DigitChar(n: nat): (c: char)
    requires n < 10
    ensures IsDigit(c) && c as int - '0' as int == n
  {
    ('0' as int + n) as char
  }

  /** The decimal text of a non-negative number, as `StringBuilder.append(int)` writes it. */
  function Decimal(n: nat): (r: string)
    ensures |r| >= 1 && AllDigits(r)
  {
    if n < 10 then [DigitChar(n)] else Decimal(n / 10) + [DigitChar(n % 10)]
  }

  lemma {:induction false} DecimalValue(n: nat)
    ensures DigitsValue(Decimal(n)) == n
  {
    if n >= 10 {
      DecimalValue(n / 10);
      var r := Decimal(n);
      assert r[..|r| - 1] == Decimal(n / 10);
    }
  }

  /**
    `Integer.parseInt(s)`: an optional `-` or `+` sign followed by at least one decimal
    digit, with a value inside the 32-bit range; anything else is a NumberFormatException (`None`).
  */
  function ParseInt(s: string): (r: Option<int>)
    ensures r.Some? ==> MinInt <= r.value <= MaxInt
    ensures r.Some? ==> |s| > 0 && (s[0] == '-' || s[0] == '+' || IsDigit(s[0]))
  {
    if |s| == 0 then None
    else if s[0] == '-' || s[0] == '+' then
      if |s| == 1 || !AllDigits(s[1..]) then None
      else
        var v: int := if s[0] == '-' then -(DigitsValue(s[1..]) as int) else DigitsValue(s[1..]);
        if v < MinInt || v > MaxInt then None else Some(v)
    else if AllDigits(s) && DigitsValue(s) <= MaxInt then Some(DigitsValue(s))
    else None
  }

  /** Printing a number and parsing it back yields the number. */
  lemma ParseDecimal(n: nat)
    requires n <= MaxInt
    ensures ParseInt(Decimal(n)) == Some(n)
  {
    DecimalValue(n);
  }

  /** A string holding a digit-free character other than a leading sign never parses. */
  lemma ParseIntRejectsNonDigit(s: string, i: nat)
    requires 0 < i < |s| && !IsDigit(s[i])
    ensures ParseInt(s) == None
  {
    if s[0] == '-' || s[0] == '+' {
      assert s[1..][i - 1] == s[i];
    }
  }

  // ---------------------------------------------------------------------------
  // equalsIgnoreCase
  // ---------------------------------------------------------------------------

  function LowerAscii(c: char): char {
    if 'A' <= c <= 'Z' then (c as int + 32) as char else c
  }

  /** `a.equalsIgnoreCase(b)` with ASCII case folding. */
  predicate EqualsIgnoreCase(a: string, b: string) {
    |a| == |b| && forall i :: 0 <= i < |a| ==> LowerAscii(a[i]) == LowerAscii(b[i])
  }

  /** Null-safe rendering used by `StringBuilder.append`: a null reference prints as "null". */
  function Text(s: Option<string>): string {
    match s
    case Some(v) => v
    case None => "null"
  }

  /** Splitting joined delimiter-free fields gives the fields back. */
  lemma {:induction false} FieldsOfJoin(fs: seq<string>, d: char)
    requires |fs| >= 1 && forall i :: 0 <= i < |fs| ==> d !in fs[i]
    ensures Fields(Join(fs, d), d) == fs
  {
    if |fs| == 1 {
      FieldsOfPlain(fs[0], d);
    } else {
      FieldsOfJoin(fs[1..], d);
      FieldsAfterFirst(fs[0], Join(fs[1..], d), d);
    }
  }
}
