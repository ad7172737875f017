/**
 * Explicit models of the JavaScript string operations the core relies on:
 * String.prototype.trim, String.prototype.split on a character class,
 * Number.prototype.toString for naturals, and parseInt(s, 10).
 */
module Text {
  import opened Types
  import Seqs

  predicate IsDigit(c: char) { '0' <= c <= '9' }

  /** The characters of the regular-expression class [a-z]. */
  predicate IsLower(c: char) { 'a' <= c <= 'z' }

  /** ECMAScript WhiteSpace and LineTerminator code points, which trim and parseInt skip. */
  predicate IsWhitespace(c: char)
  {
    || c == '\t' || c == '\n' || c == '\U{000B}' || c == '\U{000C}' || c == '\r' || c == ' '
    || c == '\U{00A0}' || c == '\U{1680}' || ('\U{2000}' <= c <= '\U{200A}')
    || c == '\U{2028}' || c == '\U{2029}' || c == '\U{202F}' || c == '\U{205F}'
    || c == '\U{3000}' || c == '\U{FEFF}'
  }

  /** Every character is whitespace. */
  predicate AllWhitespace(s: string) { forall i :: 0 <= i < |s| ==> IsWhitespace(s[i]) }

  /** Every character is a decimal digit. */
  predicate AllDigits(s: string) { forall i :: 0 <= i < |s| ==> IsDigit(s[i]) }

  /** Drops the leading whitespace. */
  function TrimStart(s: string): (r: string)
    ensures |r| <= |s|
  {
    if s != [] && IsWhitespace(s[0]) then TrimStart(s[1..]) else s
  }

  /** TrimStart keeps a suffix of s, drops only whitespace, and stops at the first other character. */
  lemma {:induction false} TrimStartShape(s: string)
    ensures TrimStart(s) == s[|s| - |TrimStart(s)|..]
    ensures forall i :: 0 <= i < |s| - |TrimStart(s)| ==> IsWhitespace(s[i])
    ensures TrimStart(s) == [] || !IsWhitespace(TrimStart(s)[0])
    decreases |s|
  {
    if s != [] && IsWhitespace(s[0]) {
      TrimStartShape(s[1..]);
      forall i | 0 <= i < |s| - |TrimStart(s)| ensures IsWhitespace(s[i]) {
        if i > 0 {
          assert s[i] == s[1..][i - 1];
        }
      }
    }
  }

  /** Drops the trailing whitespace. */
  function TrimEnd(s: string): (r: string)
    ensures |r| <= |s|
  {
    if s != [] && IsWhitespace(s[|s| - 1]) then TrimEnd(s[..|s| - 1]) else s
  }

  /** TrimEnd keeps a prefix of s, drops only whitespace, and stops at the last other character. */
  lemma {:induction false} TrimEndShape(s: string)
    ensures TrimEnd(s) == s[..|TrimEnd(s)|]
    ensures forall i :: |TrimEnd(s)| <= i < |s| ==> IsWhitespace(s[i])
    ensures TrimEnd(s) == [] || !IsWhitespace(TrimEnd(s)[|TrimEnd(s)| - 1])
    decreases |s|
  {
    if s != [] && IsWhitespace(s[|s| - 1]) {
      TrimEndShape(s[..|s| - 1]);
      forall i | |TrimEnd(s)| <= i < |s| ensures IsWhitespace(s[i]) {
        if i < |s| - 1 {
          assert s[i] == s[..|s| - 1][i];
        }
      }
    }
  }

  /** How many whitespace characters trim removes at the start of s. */
  function Leading(s: string): nat { |s| - |TrimStart(s)| }

  lemma SliceOfSlice(s: string, k: nat, m: nat)
    requires k + m <= |s|
    ensures s[k..][..m] == s[k..k + m]
  {
  }

  /** String.prototype.trim: drops the whitespace at both ends. */
  function Trim(s: string): string
  {
    TrimEnd(TrimStart(s))
  }

  /**
   * What trim leaves is the infix of s that starts at the first and ends at
   * the last non-whitespace character; everything around it is whitespace.
   */
  lemma TrimShape(s: string)
    ensures Leading(s) + |Trim(s)| <= |s| && Trim(s) == s[Leading(s)..Leading(s) + |Trim(s)|]
    ensures forall i :: 0 <= i < Leading(s) ==> IsWhitespace(s[i])
    ensures forall i :: Leading(s) + |Trim(s)| <= i < |s| ==> IsWhitespace(s[i])
    ensures Trim(s) == [] || (!IsWhitespace(Trim(s)[0]) && !IsWhitespace(Trim(s)[|Trim(s)| - 1]))
  {
    var t := TrimStart(s);
    var r := TrimEnd(t);
    var k := |s| - |t|;
    TrimStartShape(s);
    TrimEndShape(t);
    SliceOfSlice(s, k, |r|);
    assert forall i :: k + |r| <= i < |s| ==> s[i] == t[i - k];
    assert r != [] ==> r[0] == t[0];
  }

  /** Trimming the start of x + [c]: c joins what is left of x, or stands alone when x was blank. */
  lemma {:induction false} TrimStartAppend(x: string, c: char)
    ensures TrimStart(x + [c]) ==
      if TrimStart(x) != [] then TrimStart(x) + [c]
      else if IsWhitespace(c) then []
      else [c]
    decreases |x|
  {
    if x == [] {
      assert [c][1..] == [];
    } else {
      assert (x + [c])[0] == x[0];
      assert (x + [c])[1..] == x[1..] + [c];
      TrimStartAppend(x[1..], c);
    }
  }

  /** A trailing whitespace character does not change the trimmed text. */
  lemma TrimAppendWhitespace(x: string, w: char)
    requires IsWhitespace(w)
    ensures Trim(x + [w]) == Trim(x)
  {
    TrimStartAppend(x, w);
    var t := TrimStart(x);
    if t != [] {
      assert (t + [w])[..|t|] == t;
    }
  }

  /** Blank after trimming exactly when every character is whitespace. */
  lemma TrimEmptyIffBlank(s: string)
    ensures Trim(s) == [] <==> forall i :: 0 <= i < |s| ==> IsWhitespace(s[i])
  {
    TrimShape(s);
  }

  /**
   * String.prototype.split on every character satisfying isSep: the maximal
   * runs between separators, including the empty ones.
   */
  function Split(s: string, isSep: char -> bool): (parts: seq<string>)
    ensures |parts| >= 1
  {
    if s == [] then [""]
    else if isSep(s[0]) then [""] + Split(s[1..], isSep)
    else
      var rest := Split(s[1..], isSep);
      [[s[0]] + rest[0]] + rest[1..]
  }

  /** Every character of every part comes from s and is not a separator. */
  lemma {:induction false} SplitChars(s: string, isSep: char -> bool)
    ensures forall i, j :: 0 <= i < |Split(s, isSep)| && 0 <= j < |Split(s, isSep)[i]| ==>
      Split(s, isSep)[i][j] in s && !isSep(Split(s, isSep)[i][j])
    decreases |s|
  {
    if s != [] {
      SplitChars(s[1..], isSep);
      var rest := Split(s[1..], isSep);
      var parts := Split(s, isSep);
      forall i, j | 0 <= i < |parts| && 0 <= j < |parts[i]| ensures parts[i][j] in s && !isSep(parts[i][j]) {
        if isSep(s[0]) {
          assert parts[i][j] == rest[i - 1][j];
        } else if i == 0 {
          if j > 0 { assert parts[i][j] == rest[0][j - 1]; }
        } else {
          assert parts[i][j] == rest[i][j];
        }
      }
    }
  }

  /** Without a separator there is a single part: s itself. */
  lemma {:induction false} SplitNoSeparator(s: string, isSep: char -> bool)
    requires forall k :: 0 <= k < |s| ==> !isSep(s[k])
    ensures Split(s, isSep) == [s]
    decreases |s|
  {
    if s != [] {
      SplitNoSeparator(s[1..], isSep);
      assert [s[0]] + s[1..] == s;
    }
  }

  /** Splitting at a separator splits the two sides independently. */
  lemma {:induction false} SplitAtSeparator(a: string, c: char, b: string, isSep: char -> bool)
    requires isSep(c)
    ensures Split(a + [c] + b, isSep) == Split(a, isSep) + Split(b, isSep)
    decreases |a|
  {
    if a == [] {
      assert a + [c] + b == [c] + b;
      assert ([c] + b)[1..] == b;
    } else {
      assert (a + [c] + b)[0] == a[0];
      assert (a + [c] + b)[1..] == a[1..] + [c] + b;
      SplitAtSeparator(a[1..], c, b, isSep);
    }
  }

  /** Appending a non-separator extends the last part. */
  lemma {:induction false} SplitAppendChar(a: string, c: char, isSep: char -> bool)
    requires !isSep(c)
    ensures var p := Split(a, isSep);
      Split(a + [c], isSep) == p[..|p| - 1] + [p[|p| - 1] + [c]]
    decreases |a|
  {
    if a == [] {
      assert a + [c] == [c] && [c][1..] == [];
      var empty: string := [];
      assert Split(empty, isSep) == [""];
      assert [c] + empty == [c];
      assert Split([c], isSep) == [[c]];
    } else {
      assert (a + [c])[0] == a[0];
      assert (a + [c])[1..] == a[1..] + [c];
      SplitAppendChar(a[1..], c, isSep);
      var p' := Split(a[1..], isSep);
      if isSep(a[0]) {
        AppendToLastAfterHead("", p', c);
      } else {
        AppendToLastAfterMerge(a[0], p', c);
      }
    }
  }

  /** Extending the last part commutes with putting a new part in front. */
  lemma AppendToLastAfterHead(h: string, p: seq<string>, c: char)
    requires |p| >= 1
    ensures var q := [h] + p;
      [h] + (p[..|p| - 1] + [p[|p| - 1] + [c]]) == q[..|q| - 1] + [q[|q| - 1] + [c]]
  {
    var q := [h] + p;
    assert q[..|q| - 1] == [h] + p[..|p| - 1];
  }

  /** Extending the last part commutes with prefixing the first part by x. */
  lemma AppendToLastAfterMerge(x: char, p: seq<string>, c: char)
    requires |p| >= 1
    ensures var q, r := [[x] + p[0]] + p[1..], p[..|p| - 1] + [p[|p| - 1] + [c]];
      [[x] + r[0]] + r[1..] == q[..|q| - 1] + [q[|q| - 1] + [c]]
  {
    var n := |p|;
    var q, r := [[x] + p[0]] + p[1..], p[..n - 1] + [p[n - 1] + [c]];
    if n == 1 {
      assert [x] + (p[0] + [c]) == [x] + p[0] + [c];
    } else {
      assert r[1..] == p[1..n - 1] + [p[n - 1] + [c]];
      assert q[..n - 1] == [[x] + p[0]] + p[1..n - 1];
    }
  }

  /** The separators of s, in order. */
  function Separators(s: string, isSep: char -> bool): string
  {
    Seqs.Filter(s, isSep)
  }

  /** Puts the i-th separator back between the i-th and (i+1)-th part. */
  function Interleave(parts: seq<string>, seps: string): string
    requires |parts| == |seps| + 1
  {
    if seps == [] then parts[0]
    else parts[0] + [seps[0]] + Interleave(parts[1..], seps[1..])
  }

  /** Split loses nothing: there is one part more than separators, and re-inserting them gives s back. */
  lemma {:induction false} SplitJoin(s: string, isSep: char -> bool)
    ensures |Split(s, isSep)| == |Separators(s, isSep)| + 1
    ensures Interleave(Split(s, isSep), Separators(s, isSep)) == s
    decreases |s|
  {
    if s != [] {
      SplitJoin(s[1..], isSep);
      var rest := Split(s[1..], isSep);
      var seps := Separators(s[1..], isSep);
      assert s == [s[0]] + s[1..];
      if isSep(s[0]) {
        assert Separators(s, isSep) == [s[0]] + seps;
        InterleaveEmptyHead(s[0], rest, seps);
      } else {
        assert Separators(s, isSep) == seps;
        InterleaveMergeHead(s[0], rest, seps);
      }
    }
  }

  /** An empty first part followed by separator x contributes just x. */
  lemma InterleaveEmptyHead(x: char, parts: seq<string>, seps: string)
    requires |parts| == |seps| + 1
    ensures Interleave([""] + parts, [x] + seps) == [x] + Interleave(parts, seps)
  {
    assert ([""] + parts)[1..] == parts && ([x] + seps)[1..] == seps;
  }

  /** Prefixing the first part by x prefixes the interleaving by x. */
  lemma InterleaveMergeHead(x: char, parts: seq<string>, seps: string)
    requires |parts| == |seps| + 1
    ensures Interleave([[x] + parts[0]] + parts[1..], seps) == [x] + Interleave(parts, seps)
  {
    var merged := [[x] + parts[0]] + parts[1..];
    assert merged[1..] == parts[1..];
  }

  /** The digit character for d. */
  function DigitChar(d: nat): (c: char)
    requires d < 10
    ensures IsDigit(c) && DigitValue(c) == d
  {
    ['0', '1', '2', '3', '4', '5', '6', '7', '8', '9'][d]
  }

  function DigitValue(c: char): (d: nat)
    requires IsDigit(c)
    ensures d < 10
  {
    (c as int - '0' as int) as nat
  }

  /** The decimal value of a string of digits, read most significant first. */
  function DigitsValue(ds: string): (v: nat)
    requires forall i :: 0 <= i < |ds| ==> IsDigit(ds[i])
  {
    if ds == [] then 0 else DigitsValue(ds[..|ds| - 1]) * 10 + DigitValue(ds[|ds| - 1])
  }

  /** Number.prototype.toString for a natural: decimal digits without a leading zero. */
  function NatToString(n: nat): (s: string)
    ensures |s| >= 1
    ensures forall i :: 0 <= i < |s| ==> IsDigit(s[i])
    ensures s[0] == '0' ==> n == 0 && s == "0"
  {
    if n < 10 then [DigitChar(n)] else NatToString(n / 10) + [DigitChar(n % 10)]
  }

  /** Reading back the digits written by NatToString gives the number. */
  lemma {:induction false} DigitsOfNat(n: nat)
    ensures DigitsValue(NatToString(n)) == n
  {
    if n >= 10 {
      DigitsOfNat(n / 10);
      var s := NatToString(n);
      assert s[..|s| - 1] == NatToString(n / 10);
    }
  }

  /** NatToString is injective, so distinct numbers give distinct keys. */
  lemma NatToStringInjective(m: nat, n: nat)
    requires NatToString(m) == NatToString(n)
    ensures m == n
  {
    DigitsOfNat(m);
    DigitsOfNat(n);
  }

  /** The longest prefix of s made of digits. */
  function DigitPrefix(s: string): (ds: string)
    ensures |ds| <= |s| && ds == s[..|ds|]
    ensures forall i :: 0 <= i < |ds| ==> IsDigit(ds[i])
    ensures |ds| < |s| ==> !IsDigit(s[|ds|])
  {
    if s != [] && IsDigit(s[0]) then [s[0]] + DigitPrefix(s[1..]) else []
  }

  /**
   * parseInt(s, 10): skip leading whitespace, read an optional sign and the
   * longest run of decimal digits after it; None stands for NaN (no digit).
   */
  function ParseInt(s: string): Option<int>
  {
    SignedValue(TrimStart(s))
  }

  /** parseInt after the leading whitespace: an optional sign, then the leading digit run. */
  function SignedValue(t: string): Option<int>
  {
    var negative := |t| > 0 && t[0] == '-';
    var body := if |t| > 0 && (t[0] == '-' || t[0] == '+') then t[1..] else t;
    var ds := DigitPrefix(body);
    var magnitude: int := DigitsValue(ds);
    if ds == [] then None
    else if negative then Some(-magnitude)
    else Some(magnitude)
  }

  /** The digit prefix of a digit run followed by a non-digit is that run. */
  lemma {:induction false} DigitPrefixOfRun(ds: string, rest: string)
    requires forall i :: 0 <= i < |ds| ==> IsDigit(ds[i])
    requires rest == [] || !IsDigit(rest[0])
    ensures DigitPrefix(ds + rest) == ds
    decreases |ds|
  {
    if ds == [] {
      assert ds + rest == rest;
    } else {
      assert (ds + rest)[0] == ds[0];
      assert (ds + rest)[1..] == ds[1..] + rest;
      DigitPrefixOfRun(ds[1..], rest);
    }
  }

  /** Whitespace in front of a string that does not start with whitespace is exactly what TrimStart drops. */
  lemma {:induction false} TrimStartPrefix(ws: string, t: string)
    requires AllWhitespace(ws)
    requires t == [] || !IsWhitespace(t[0])
    ensures TrimStart(ws + t) == t
    decreases |ws|
  {
    if ws == [] {
      assert ws + t == t;
    } else {
      assert (ws + t)[0] == ws[0];
      assert (ws + t)[1..] == ws[1..] + t;
      TrimStartPrefix(ws[1..], t);
    }
  }

  /**
   * Leading whitespace, an optional sign and a digit run, followed by anything
   * but a digit, parse to the run's value, negated after '-'
   * (" +12abc" gives 12, "-7;" gives -7).
   */
  lemma ParseIntLeadingDigits(ws: string, sign: string, ds: string, rest: string)
    requires AllWhitespace(ws)
    requires sign == "" || sign == "+" || sign == "-"
    requires ds != [] && AllDigits(ds)
    requires rest == [] || !IsDigit(rest[0])
    ensures ParseInt(ws + sign + ds + rest).Some?
    ensures ParseInt(ws + sign + ds + rest).value == if sign == "-" then -(DigitsValue(ds) as int) else DigitsValue(ds)
  {
    SignedText(ws, sign, ds, rest);
    if |sign| == 0 {
      ParseIntUnsignedRun(ws, ds, rest);
    } else {
      ParseIntSignedRun(ws, sign[0], ds, rest);
    }
  }

  /** Whitespace, then a digit run and anything but a digit. */
  lemma ParseIntUnsignedRun(ws: string, ds: string, rest: string)
    requires AllWhitespace(ws)
    requires ds != [] && AllDigits(ds)
    requires rest == [] || !IsDigit(rest[0])
    ensures ParseInt(ws + (ds + rest)).Some? && ParseInt(ws + (ds + rest)).value == DigitsValue(ds)
  {
    assert (ds + rest)[0] == ds[0];
    ParseIntSkipsWhitespace(ws, ds + rest);
    SignedValueUnsigned(ds, rest);
  }

  /** Whitespace, then one sign, a digit run and anything but a digit. */
  lemma ParseIntSignedRun(ws: string, c: char, ds: string, rest: string)
    requires AllWhitespace(ws)
    requires c == '+' || c == '-'
    requires ds != [] && AllDigits(ds)
    requires rest == [] || !IsDigit(rest[0])
    ensures ParseInt(ws + ([c] + (ds + rest))).Some?
    ensures ParseInt(ws + ([c] + (ds + rest))).value == if c == '-' then -(DigitsValue(ds) as int) else DigitsValue(ds)
  {
    ParseIntSkipsWhitespace(ws, [c] + (ds + rest));
    SignedValueSigned(c, ds, rest);
  }

  /** parseInt skips leading whitespace. */
  lemma ParseIntSkipsWhitespace(ws: string, t: string)
    requires AllWhitespace(ws)
    requires t == [] || !IsWhitespace(t[0])
    ensures ParseInt(ws + t) == SignedValue(t)
  {
    TrimStartPrefix(ws, t);
  }

  /** A digit run followed by anything but a digit reads as the run's value ("12abc" gives 12). */
  lemma SignedValueUnsigned(ds: string, rest: string)
    requires ds != [] && AllDigits(ds)
    requires rest == [] || !IsDigit(rest[0])
    ensures SignedValue(ds + rest).Some? && SignedValue(ds + rest).value == DigitsValue(ds)
  {
    var s := ds + rest;
    assert s[0] == ds[0];
    DigitPrefixOfRun(ds, rest);
  }

  /** One sign before a digit run: '-' negates, '+' keeps the value. */
  lemma SignedValueSigned(c: char, ds: string, rest: string)
    requires c == '+' || c == '-'
    requires ds != [] && AllDigits(ds)
    requires rest == [] || !IsDigit(rest[0])
    ensures SignedValue([c] + (ds + rest)).Some?
    ensures SignedValue([c] + (ds + rest)).value == if c == '-' then -(DigitsValue(ds) as int) else DigitsValue(ds)
  {
    var s := [c] + (ds + rest);
    assert s[0] == c && s[1..] == ds + rest;
    DigitPrefixOfRun(ds, rest);
  }

  /** An Option holding x is Some(x). */
  lemma SomeOfValue(o: Option<int>, x: int)
    requires o.Some? && o.value == x
    ensures o == Some(x)
  {
  }

  /** How ws + sign + ds + rest regroups around an empty or one-character sign. */
  lemma SignedText(ws: string, sign: string, ds: string, rest: string)
    requires |sign| <= 1 && ds != []
    ensures |sign| == 0 ==> ws + sign + ds + rest == ws + (ds + rest)
    ensures |sign| == 1 ==> ws + sign + ds + rest == ws + ([sign[0]] + (ds + rest)) && (sign == "-" <==> sign[0] == '-')
  {
    if |sign| == 1 {
      assert sign == [sign[0]];
    }
  }

  /** parseInt reads back the decimal form of every natural. */
  lemma ParseIntOfNat(n: nat)
    ensures ParseInt(NatToString(n)) == Some(n)
  {
    var ds := NatToString(n);
    ParseIntUnsignedRun("", ds, "");
    assert "" + (ds + "") == ds;
    DigitsOfNat(n);
  }

  /** parseInt reads back a minus sign followed by the decimal form of a natural. */
  lemma ParseIntOfNegative(n: nat)
    ensures ParseInt("-" + NatToString(n)) == Some(-(n as int))
  {
    var ds := NatToString(n);
    ParseIntSignedRun("", '-', ds, "");
    assert "" + (['-'] + (ds + "")) == "-" + ds;
    DigitsOfNat(n);
    SomeOfValue(ParseInt("-" + ds), -(n as int));
  }

  /** After the leading whitespace: a digit, or one sign followed by a digit. */
  predicate DigitAfterSign(t: string)
  {
    || (|t| > 0 && IsDigit(t[0]))
    || (|t| > 1 && (t[0] == '+' || t[0] == '-') && IsDigit(t[1]))
  }

  /**
   * parseInt is NaN exactly when no digit follows the leading whitespace and at
   * most one sign ("", "abc", "a1", "-x1" and "--1" are NaN, " -1" is not).
   */
  lemma ParseIntNaN(s: string)
    ensures ParseInt(s) == None <==> !DigitAfterSign(TrimStart(s))
  {
    var t := TrimStart(s);
    var body := if |t| > 0 && (t[0] == '-' || t[0] == '+') then t[1..] else t;
    assert DigitPrefix(body) == [] <==> body == [] || !IsDigit(body[0]);
  }
}
