/**
 * The JavaScript string built-ins that the PID parser of run.js relies on:
 * toLowerCase, includes, split on a single character, trim, split on runs of
 * white space, parseInt with radix 10, and the decimal text of an integer
 * (Number.prototype.toString).
 */
module JsString {
  import opened Basics

  // ---------------------------------------------------------------------
  // Characters

  /** ECMAScript WhiteSpace and LineTerminator code points: the set that
      trim, the regular expression class \s and parseInt all skip. */
  const WhiteSpaceChars: set<char> := {
    '\t', '\n', '\U{000B}', '\U{000C}', '\r', ' ', '\U{00A0}', '\U{1680}',
    '\U{2000}', '\U{2001}', '\U{2002}', '\U{2003}', '\U{2004}', '\U{2005}',
    '\U{2006}', '\U{2007}', '\U{2008}', '\U{2009}', '\U{200A}',
    '\U{2028}', '\U{2029}', '\U{202F}', '\U{205F}', '\U{3000}', '\U{FEFF}'
  }

  predicate IsWhiteSpace(c: char) {
    c in WhiteSpaceChars
  }

  predicate IsDigit(c: char) {
    '0' <= c <= '9'
  }

  predicate IsUpper(c: char) {
    'A' <= c <= 'Z'
  }

  /** Case folding of one character, restricted to the ASCII letters. */
  function LowerChar(c: char): (d: char)
    ensures !IsUpper(d)
    ensures IsUpper(c) ==> d as int == c as int + 32
    ensures !IsUpper(c) ==> d == c
  {
    if IsUpper(c) then (c as int + 32) as char else c
  }

  /** String.prototype.toLowerCase on ASCII letters. */
  function ToLowerCase(s: string): (r: string)
    ensures |r| == |s|
    ensures forall i :: 0 <= i < |s| ==> r[i] == LowerChar(s[i])
    ensures forall i :: 0 <= i < |r| ==> !IsUpper(r[i])
  {
    seq(|s|, i requires 0 <= i < |s| => LowerChar(s[i]))
  }

  lemma {:induction false} ToLowerCaseIdempotent(s: string)
    ensures ToLowerCase(ToLowerCase(s)) == ToLowerCase(s)
  {
  }

  // ---------------------------------------------------------------------
  // String.prototype.includes

  /** t occurs in s starting at position i. */
  predicate OccursAt(s: string, t: string, i: int) {
    0 <= i && i + |t| <= |s| && s[i..i + |t|] == t
  }

  /** String.prototype.includes: does t occur somewhere in s? The empty
      string occurs everywhere, and nothing longer than s occurs in s. */
  function Includes(s: string, t: string): (b: bool)
    ensures t == [] ==> b
    ensures b ==> |t| <= |s|
    decreases |s|
  {
    t <= s || (s != [] && Includes(s[1..], t))
  }

  /** includes is exactly "there is a position where t occurs"; in particular
      the empty string occurs in every string. */
  lemma {:induction false} IncludesIff(s: string, t: string)
    ensures Includes(s, t) <==> exists i :: OccursAt(s, t, i)
  {
    if Includes(s, t) {
      IncludesOccurs(s, t);
    }
    if exists i :: OccursAt(s, t, i) {
      var i :| OccursAt(s, t, i);
      OccursIncludes(s, t, i);
    }
  }

  /** What includes finds occurs at some position. */
  lemma {:induction false} IncludesOccurs(s: string, t: string)
    requires Includes(s, t)
    ensures exists i :: OccursAt(s, t, i)
    decreases |s|
  {
    if t <= s {
      assert OccursAt(s, t, 0);
    } else {
      IncludesOccurs(s[1..], t);
      var i :| OccursAt(s[1..], t, i);
      SliceShift(s, i + 1, |t|);
      assert OccursAt(s, t, i + 1);
    }
  }

  /** An occurrence at any position is found by includes. */
  lemma {:induction false} OccursIncludes(s: string, t: string, i: int)
    requires OccursAt(s, t, i)
    ensures Includes(s, t)
    decreases i
  {
    if i == 0 {
      assert t <= s;
    } else {
      SliceShift(s, i, |t|);
      assert OccursAt(s[1..], t, i - 1);
      OccursIncludes(s[1..], t, i - 1);
    }
  }

  /** A slice of s[1..] is the slice of s one position further on. */
  lemma {:induction false} SliceShift(s: string, i: nat, n: nat)
    requires 1 <= i && i + n <= |s|
    ensures s[1..][i - 1..i - 1 + n] == s[i..i + n]
  {
    var a, b := s[1..][i - 1..i - 1 + n], s[i..i + n];
    forall j | 0 <= j < n
      ensures a[j] == b[j]
    {
      assert a[j] == s[1..][i - 1 + j] == s[i + j];
    }
  }

  // ---------------------------------------------------------------------
  // String.prototype.split with a one-character separator

  /** Position of the first sep in s, or |s| when there is none. */
  function Find(s: string, sep: char): (i: nat)
    ensures i <= |s|
  {
    if s == [] || s[0] == sep then 0 else 1 + Find(s[1..], sep)
  }

  /** Find stops at a separator, and only at the first one. */
  lemma {:induction false} FindSpec(s: string, sep: char)
    ensures Find(s, sep) < |s| ==> s[Find(s, sep)] == sep
    ensures forall k :: 0 <= k < Find(s, sep) ==> s[k] != sep
    decreases |s|
  {
    if s != [] && s[0] != sep {
      FindSpec(s[1..], sep);
      assert forall k :: 1 <= k < |s| ==> s[k] == s[1..][k - 1];
    }
  }

  /** The first separator of s is the one at i when none comes before it. */
  lemma {:induction false} FindPrefix(s: string, sep: char, i: nat)
    requires i < |s| && s[i] == sep
    requires forall k :: 0 <= k < i ==> s[k] != sep
    ensures Find(s, sep) == i
    decreases i
  {
    if i > 0 {
      assert forall k :: 0 <= k < i - 1 ==> s[1..][k] == s[k + 1];
      FindPrefix(s[1..], sep, i - 1);
    }
  }

  /** Without a separator, Find runs to the end. */
  lemma {:induction false} FindNone(s: string, sep: char)
    requires forall k :: 0 <= k < |s| ==> s[k] != sep
    ensures Find(s, sep) == |s|
    decreases |s|
  {
    if s != [] {
      assert forall k :: 0 <= k < |s| - 1 ==> s[1..][k] == s[k + 1];
      FindNone(s[1..], sep);
    }
  }

  /** s.split(sep) for a one-character separator. */
  function Split(s: string, sep: char): (parts: seq<string>)
    ensures |parts| >= 1
    ensures |parts| == 1 ==> parts[0] == s
    decreases |s|
  {
    var i := Find(s, sep);
    if i == |s| then [s] else [s[..i]] + Split(s[i + 1..], sep)
  }

  /** No piece holds the separator. */
  lemma {:induction false} SplitNoSeparator(s: string, sep: char)
    ensures forall k :: 0 <= k < |Split(s, sep)| ==> sep !in Split(s, sep)[k]
    decreases |s|
  {
    var i := Find(s, sep);
    FindSpec(s, sep);
    assert forall k :: 0 <= k < i ==> s[..i][k] == s[k];
    if i < |s| {
      SplitNoSeparator(s[i + 1..], sep);
    }
  }

  /** parts.join(sep): the inverse of Split. */
  function Join(parts: seq<string>, sep: char): string
    requires |parts| >= 1
  {
    if |parts| == 1 then parts[0] else parts[0] + [sep] + Join(parts[1..], sep)
  }

  /** Joining the pieces back with the separator restores the text. */
  lemma {:induction false} JoinSplit(s: string, sep: char)
    ensures Join(Split(s, sep), sep) == s
    decreases |s|
  {
    var i := Find(s, sep);
    if i < |s| {
      var rest := Split(s[i + 1..], sep);
      assert Split(s, sep) == [s[..i]] + rest;
      JoinCons(s[..i], rest, sep);
      JoinSplit(s[i + 1..], sep);
      FindSpec(s, sep);
      Around(s, i);
    }
  }

  /** Joining a first piece in front of the others. */
  lemma JoinCons(head: string, rest: seq<string>, sep: char)
    requires |rest| >= 1
    ensures Join([head] + rest, sep) == head + [sep] + Join(rest, sep)
  {
    assert ([head] + rest)[1..] == rest;
  }

  /** A text is the part before position i, its character at i, and the
      part after. */
  lemma Around(s: string, i: nat)
    requires i < |s|
    ensures s[..i] + [s[i]] + s[i + 1..] == s
  {
  }

  /** Splitting joined separator-free pieces gives the pieces back. */
  lemma {:induction false} SplitJoin(parts: seq<string>, sep: char)
    requires |parts| >= 1
    requires forall k :: 0 <= k < |parts| ==> sep !in parts[k]
    ensures Split(Join(parts, sep), sep) == parts
    decreases |parts|
  {
    var p := parts[0];
    assert forall k :: 0 <= k < |p| ==> p[k] in p;
    if |parts| > 1 {
      var s := Join(parts, sep);
      var rest := Join(parts[1..], sep);
      assert s == p + [sep] + rest;
      assert forall k :: 0 <= k < |p| ==> s[k] == p[k];
      SplitAt(s, sep, |p|);
      assert s[..|p|] == p;
      assert s[|p| + 1..] == rest;
      SplitJoin(parts[1..], sep);
      assert parts == [p] + parts[1..];
    } else {
      SplitFree(p, sep);
    }
  }

  /** Where the first separator of s sits at i, the first piece ends at i. */
  lemma {:induction false} SplitAt(s: string, sep: char, i: nat)
    requires i < |s| && s[i] == sep
    requires forall k :: 0 <= k < i ==> s[k] != sep
    ensures Split(s, sep) == [s[..i]] + Split(s[i + 1..], sep)
  {
    FindPrefix(s, sep, i);
  }

  /** A text without the separator is a single piece. */
  lemma {:induction false} SplitFree(s: string, sep: char)
    requires forall k :: 0 <= k < |s| ==> s[k] != sep
    ensures Split(s, sep) == [s]
  {
    FindNone(s, sep);
  }

  /** A separator between two texts separates their pieces:
      (a + sep + b).split(sep) is a.split(sep) followed by b.split(sep). */
  lemma {:induction false} SplitConcat(a: string, b: string, sep: char)
    ensures Split(a + [sep] + b, sep) == Split(a, sep) + Split(b, sep)
    decreases |a|, 1
  {
    FindSpec(a, sep);
    var i := Find(a, sep);
    if i == |a| {
      SplitConcatFree(a, b, sep);
    } else {
      SplitConcatAt(a, b, sep, i);
    }
  }

  /** SplitConcat when a holds no separator: a is the first piece. */
  lemma {:induction false} SplitConcatFree(a: string, b: string, sep: char)
    requires forall k :: 0 <= k < |a| ==> a[k] != sep
    ensures Split(a + [sep] + b, sep) == Split(a, sep) + Split(b, sep)
  {
    var s := a + [sep] + b;
    assert s[..|a|] == a && s[|a| + 1..] == b;
    assert forall k :: 0 <= k < |a| ==> s[k] == a[k];
    SplitFree(a, sep);
    SplitAt(s, sep, |a|);
  }

  /** SplitConcat when the first separator of a is at i: the pieces of a
      before it lead, and the rest of a is split on with b. */
  lemma {:induction false} SplitConcatAt(a: string, b: string, sep: char, i: nat)
    requires i < |a| && a[i] == sep
    requires forall k :: 0 <= k < i ==> a[k] != sep
    ensures Split(a + [sep] + b, sep) == Split(a, sep) + Split(b, sep)
    decreases |a|, 0
  {
    var s := a + [sep] + b;
    var a' := a[i + 1..];
    ConcatAssoc(a, [sep], b);
    SliceConcat(a, [sep] + b, i);
    SliceConcat(a, [sep] + b, i + 1);
    ConcatAssoc(a', [sep], b);
    assert s[i + 1..] == a' + [sep] + b;
    assert forall k :: 0 <= k <= i ==> s[k] == a[k];
    SplitAt(a, sep, i);
    SplitAt(s, sep, i);
    SplitConcat(a', b, sep);
    ConcatAssoc([a[..i]], Split(a', sep), Split(b, sep));
  }

  /** The number of pieces is one more than the number of separators. */
  lemma {:induction false} SplitCount(s: string, sep: char)
    ensures |Split(s, sep)| == multiset(s)[sep] + 1
    decreases |s|
  {
    var i := Find(s, sep);
    FindSpec(s, sep);
    if i == |s| {
      SplitFree(s, sep);
      assert sep !in s;
    } else {
      SplitAt(s, sep, i);
      SplitCount(s[i + 1..], sep);
      MultisetAround(s, i);
      assert forall k :: 0 <= k < i ==> s[..i][k] == s[k];
      assert sep !in s[..i];
    }
  }

  /** Cutting s around position i splits its multiset the same way. */
  lemma {:induction false} MultisetAround(s: string, i: nat)
    requires i < |s|
    ensures multiset(s) == multiset(s[..i]) + multiset{s[i]} + multiset(s[i + 1..])
  {
    assert s == s[..i] + [s[i]] + s[i + 1..];
  }

  // ---------------------------------------------------------------------
  // String.prototype.trim

  /** Every character of s is white space. */
  predicate IsBlank(s: string) {
    forall k :: 0 <= k < |s| ==> IsWhiteSpace(s[k])
  }

  /** s with its leading white space removed. */
  function TrimStart(s: string): (r: string)
    ensures |r| <= |s| && r == s[|s| - |r|..]
    ensures forall k :: 0 <= k < |s| - |r| ==> IsWhiteSpace(s[k])
    ensures r != [] ==> !IsWhiteSpace(r[0])
  {
    if s != [] && IsWhiteSpace(s[0]) then
      var r := TrimStart(s[1..]);
      assert forall k :: 1 <= k < |s| ==> s[k] == s[1..][k - 1];
      r
    else s
  }

  /** s with its trailing white space removed. */
  function TrimEnd(s: string): (r: string)
    ensures |r| <= |s| && r == s[..|r|]
    ensures forall k :: |r| <= k < |s| ==> IsWhiteSpace(s[k])
    ensures r != [] ==> !IsWhiteSpace(r[|r| - 1])
  {
    if s != [] && IsWhiteSpace(s[|s| - 1]) then
      var r := TrimEnd(s[..|s| - 1]);
      assert forall k :: 0 <= k < |s| - 1 ==> s[k] == s[..|s| - 1][k];
      r
    else s
  }

  /** String.prototype.trim: the middle part of s, between white space at
      either end, which itself neither starts nor ends with white space. */
  function Trim(s: string): (r: string)
    ensures exists lead :: (0 <= lead && lead + |r| <= |s| && r == s[lead..lead + |r|]
      && IsBlank(s[..lead]) && IsBlank(s[lead + |r|..]))
    ensures r != [] ==> !IsWhiteSpace(r[0]) && !IsWhiteSpace(r[|r| - 1])
  {
    var t := TrimStart(s);
    var r := TrimEnd(t);
    TrimMiddle(s, t, r);
    var lead := |s| - |t|;
    assert r == s[lead..lead + |r|] && IsBlank(s[..lead]) && IsBlank(s[lead + |r|..]);
    r
  }

  /** The middle t[..|r|] of the suffix t of s, restated as a slice of s
      with blank slices on either side. */
  lemma {:induction false} TrimMiddle(s: string, t: string, r: string)
    requires |t| <= |s| && t == s[|s| - |t|..]
    requires |r| <= |t| && r == t[..|r|]
    requires forall k :: 0 <= k < |s| - |t| ==> IsWhiteSpace(s[k])
    requires forall k :: |r| <= k < |t| ==> IsWhiteSpace(t[k])
    ensures r == s[|s| - |t|..|s| - |t| + |r|]
    ensures IsBlank(s[..|s| - |t|]) && IsBlank(s[|s| - |t| + |r|..])
  {
    var lead := |s| - |t|;
    assert forall k :: 0 <= k < lead ==> s[..lead][k] == s[k];
    var tail := s[lead + |r|..];
    assert forall j :: 0 <= j < |tail| ==> tail[j] == t[|r| + j];
    assert forall k :: 0 <= k < |r| ==> r[k] == s[lead + k];
  }

  /** A string trims to "" exactly when it is blank: this is what makes
      `line.trim()` falsy. */
  lemma {:induction false} TrimEmptyIff(s: string)
    ensures Trim(s) == [] <==> IsBlank(s)
  {
    var t := TrimStart(s);
    var lead := |s| - |t|;
    var r := TrimEnd(t);
    assert Trim(s) == r;
    if r == [] {
      forall k | 0 <= k < |s|
        ensures IsWhiteSpace(s[k])
      {
        if k >= lead {
          assert s[k] == t[k - lead];
        }
      }
    } else {
      assert t[0] == s[lead];
      assert !IsWhiteSpace(s[lead]);
    }
  }


  /** Removing white space in front of text that does not start with white
      space leaves that text. */
  lemma {:induction false} TrimStartBlankPrefix(lead: string, x: string)
    requires IsBlank(lead)
    requires x == [] || !IsWhiteSpace(x[0])
    ensures TrimStart(lead + x) == x
    decreases |lead|
  {
    if lead == [] {
      assert lead + x == x;
    } else {
      assert (lead + x)[0] == lead[0];
      assert (lead + x)[1..] == lead[1..] + x;
      TrimStartBlankPrefix(lead[1..], x);
    }
  }

  // ---------------------------------------------------------------------
  // String.prototype.split(/\s+/)

  /** The text before the first white-space character of s. */
  function FirstToken(s: string): (r: string)
    ensures |r| <= |s| && r == s[..|r|]
    ensures forall k :: 0 <= k < |r| ==> !IsWhiteSpace(r[k])
    ensures |r| < |s| ==> IsWhiteSpace(s[|r|])
  {
    if s == [] || IsWhiteSpace(s[0]) then [] else [s[0]] + FirstToken(s[1..])
  }

  /** The three properties of FirstToken pin it down. */
  lemma {:induction false} FirstTokenUnique(s: string, r: string)
    requires |r| <= |s| && r == s[..|r|]
    requires forall k :: 0 <= k < |r| ==> !IsWhiteSpace(r[k])
    requires |r| < |s| ==> IsWhiteSpace(s[|r|])
    ensures FirstToken(s) == r
  {
    if r != [] {
      assert r[0] == s[0];
      assert r[1..] == s[1..][..|r| - 1];
      FirstTokenUnique(s[1..], r[1..]);
      assert r == [s[0]] + r[1..];
    }
  }

  /** s.split(/\s+/): the pieces between runs of white space (a leading or
      trailing run yields an empty first or last piece). */
  function SplitWhiteSpace(s: string): (parts: seq<string>)
    ensures |parts| >= 1
    ensures parts[0] == FirstToken(s)
    ensures forall k, i :: 0 <= k < |parts| && 0 <= i < |parts[k]| ==> !IsWhiteSpace(parts[k][i])
    decreases |s|
  {
    var tok := FirstToken(s);
    if |tok| == |s| then [s]
    else [tok] + SplitWhiteSpace(TrimStart(s[|tok|..]))
  }

  // ---------------------------------------------------------------------
  // parseInt(s, 10)

  predicate AllDigits(s: string) {
    forall k :: 0 <= k < |s| ==> IsDigit(s[k])
  }

  lemma {:induction false} DigitIsNotWhiteSpace(c: char)
    requires IsDigit(c) || c == '-' || c == '+'
    ensures !IsWhiteSpace(c)
  {
  }

  /** The longest run of decimal digits at the start of s. */
  function DigitPrefix(s: string): (r: string)
    ensures |r| <= |s| && r == s[..|r|] && AllDigits(r)
    ensures |r| < |s| ==> !IsDigit(s[|r|])
  {
    if s == [] || !IsDigit(s[0]) then [] else [s[0]] + DigitPrefix(s[1..])
  }

  function DigitValue(c: char): nat
    requires IsDigit(c)
  {
    c as int - '0' as int
  }

  /** The number a string of digits denotes, most significant digit first. */
  function DigitsValue(d: string): nat
    requires AllDigits(d)
  {
    if d == [] then 0 else DigitsValue(d[..|d| - 1]) * 10 + DigitValue(d[|d| - 1])
  }

  /** The value of the leading digits of s, or None (NaN) when s does not
      start with a digit. */
  function LeadingNumber(s: string): Option<int> {
    var d := DigitPrefix(s);
    if d == [] then None else Some(DigitsValue(d))
  }

  /** parseInt(s, 10): skip leading white space, take an optional sign, then
      the longest run of decimal digits; None stands for NaN, the answer
      when that run is empty. A number needs a digit somewhere in s. */
  function ParseInt(s: string): (r: Option<int>)
    ensures r.Some? ==> exists k :: 0 <= k < |s| && IsDigit(s[k])
  {
    var u := TrimStart(s);
    DigitInSuffix(s, u);
    ParseSigned(u)
  }

  /** parseInt once leading white space is skipped: an optional sign, then
      the longest run of decimal digits. */
  function ParseSigned(u: string): (r: Option<int>)
    ensures r.Some? ==> exists k :: 0 <= k < |u| && IsDigit(u[k])
  {
    LeadingDigitIn(u, u, 0);
    if u != [] && u[0] == '-' then
      LeadingDigitIn(u, u, 1);
      match LeadingNumber(u[1..])
      case None => None
      case Some(v) => Some(-v)
    else if u != [] && u[0] == '+' then
      LeadingDigitIn(u, u, 1);
      LeadingNumber(u[1..])
    else LeadingNumber(u)
  }

  /** A digit of a suffix u of s is a digit of s. */
  lemma {:induction false} DigitInSuffix(s: string, u: string)
    requires |u| <= |s| && u == s[|s| - |u|..]
    ensures (exists k :: 0 <= k < |u| && IsDigit(u[k])) ==> exists k :: 0 <= k < |s| && IsDigit(s[k])
  {
    if exists k :: 0 <= k < |u| && IsDigit(u[k]) {
      var k :| 0 <= k < |u| && IsDigit(u[k]);
      assert s[|s| - |u| + k] == u[k];
    }
  }

  /** Leading digits of a suffix u of s, read from position j of u on, are
      digits of s. */
  lemma {:induction false} LeadingDigitIn(s: string, u: string, j: nat)
    requires |u| <= |s| && u == s[|s| - |u|..] && j <= |u|
    ensures LeadingNumber(u[j..]).Some? ==> exists k :: 0 <= k < |s| && IsDigit(s[k])
  {
    if LeadingNumber(u[j..]).Some? {
      var d := DigitPrefix(u[j..]);
      assert d[0] == u[j..][0] == s[|s| - |u| + j];
      assert IsDigit(s[|s| - |u| + j]);
    }
  }

  // ---------------------------------------------------------------------
  // Number.prototype.toString for integer values

  function DigitChar(n: nat): (c: char)
    requires n < 10
    ensures IsDigit(c) && DigitValue(c) == n
  {
    ('0' as int + n) as char
  }

  /** The shortest decimal text of n: no leading zero except in "0". */
  function DecimalDigits(n: nat): (r: string)
    ensures r != [] && AllDigits(r)
    ensures r[0] == '0' <==> n == 0
    ensures n == 0 ==> |r| == 1
  {
    if n < 10 then [DigitChar(n)] else DecimalDigits(n / 10) + [DigitChar(n % 10)]
  }

  /** The decimal text of an integer: a minus sign exactly for negatives,
      then the digits without leading zeros ("0" for zero, never "-0"). */
  function NumberToString(n: int): (r: string)
    ensures r != []
    ensures forall k :: 0 <= k < |r| ==> IsDigit(r[k]) || (k == 0 && r[k] == '-')
    ensures r[0] == '-' <==> n < 0
    ensures r[0] == '0' <==> n == 0
    ensures n == 0 ==> |r| == 1
    ensures n < 0 ==> |r| >= 2 && r[1] != '0'
  {
    if n < 0 then "-" + DecimalDigits(-n) else DecimalDigits(n)
  }

  /** The decimal text of an integer holds no white space. */
  lemma {:induction false} NumberToStringIsToken(n: int)
    ensures forall k :: 0 <= k < |NumberToString(n)| ==> !IsWhiteSpace(NumberToString(n)[k])
  {
    var r := NumberToString(n);
    forall k | 0 <= k < |r|
      ensures !IsWhiteSpace(r[k])
    {
      DigitIsNotWhiteSpace(r[k]);
    }
  }

  lemma {:induction false} DigitsValueOfDecimal(n: nat)
    ensures DigitsValue(DecimalDigits(n)) == n
  {
    if n >= 10 {
      DigitsValueOfDecimal(n / 10);
      var d := DecimalDigits(n);
      assert d[..|d| - 1] == DecimalDigits(n / 10);
    }
  }

  lemma {:induction false} DigitPrefixOfDigits(d: string, suffix: string)
    requires AllDigits(d)
    requires suffix == [] || !IsDigit(suffix[0])
    ensures DigitPrefix(d + suffix) == d
  {
    if d != [] {
      assert (d + suffix)[1..] == d[1..] + suffix;
      DigitPrefixOfDigits(d[1..], suffix);
    } else {
      assert d + suffix == suffix;
    }
  }

  /** The leading digits of the decimal text of n, followed by anything
      that does not start with a digit, denote n. */
  lemma {:induction false} LeadingNumberOfDecimal(n: nat, suffix: string)
    requires suffix == [] || !IsDigit(suffix[0])
    ensures LeadingNumber(DecimalDigits(n) + suffix) == Some(n)
  {
    DigitPrefixOfDigits(DecimalDigits(n), suffix);
    DigitsValueOfDecimal(n);
  }

  /** parseInt of a text that starts with a minus sign is the negated
      value of the digits after it. */
  lemma {:induction false} ParseIntNegative(d: string)
    ensures ParseInt("-" + d) == if LeadingNumber(d).Some? then Some(-LeadingNumber(d).value) else None
  {
    var s := "-" + d;
    DigitIsNotWhiteSpace('-');
    assert s[0] == '-' && s[1..] == d;
    ParseIntUnspaced(s);
  }

  /** parseInt of a text that starts with a plus sign is the value of the
      digits after it, or NaN when no digit follows. */
  lemma {:induction false} ParseIntPlus(d: string)
    ensures ParseInt("+" + d) == LeadingNumber(d)
  {
    var s := "+" + d;
    DigitIsNotWhiteSpace('+');
    assert s[0] == '+' && s[1..] == d;
    ParseIntUnspaced(s);
  }

  /** parseInt skips leading white space: the rest of the text decides. */
  lemma {:induction false} ParseIntSkipsWhiteSpace(w: string, x: string)
    requires IsBlank(w) && (x == [] || !IsWhiteSpace(x[0]))
    ensures ParseInt(w + x) == ParseInt(x)
  {
    TrimStartBlankPrefix(w, x);
    ParseIntUnspaced(x);
  }

  /** parseInt of a text that starts with a digit is the value of its
      leading digits. */
  lemma {:induction false} ParseIntUnsigned(s: string)
    requires s != [] && IsDigit(s[0])
    ensures ParseInt(s) == LeadingNumber(s)
  {
    DigitIsNotWhiteSpace(s[0]);
  }

  /** parseInt reads back a minus sign followed by the decimal text of m. */
  lemma {:induction false} ParseIntOfMinusDecimal(m: nat, suffix: string)
    requires suffix == [] || !IsDigit(suffix[0])
    ensures ParseInt("-" + (DecimalDigits(m) + suffix)) == Some(-(m as int))
  {
    LeadingNumberOfDecimal(m, suffix);
    ParseIntMinusNumber(DecimalDigits(m) + suffix, m);
  }

  lemma {:induction false} ParseIntMinusNumber(d: string, v: nat)
    requires LeadingNumber(d) == Some(v)
    ensures ParseInt("-" + d) == Some(-(v as int))
  {
    var s := "-" + d;
    DigitIsNotWhiteSpace('-');
    assert s[0] == '-' && s[1..] == d;
    ParseIntUnspaced(s);
    assert ParseSigned(s) == Some(-(v as int));
  }

  /** Text that does not start with white space goes to the sign and digit
      step unchanged. */
  lemma {:induction false} ParseIntUnspaced(u: string)
    requires u == [] || !IsWhiteSpace(u[0])
    ensures ParseInt(u) == ParseSigned(u)
  {
    assert TrimStart(u) == u;
  }

  /** parseInt reads back the decimal text of m. */
  lemma {:induction false} ParseIntOfDecimal(m: nat, suffix: string)
    requires suffix == [] || !IsDigit(suffix[0])
    ensures ParseInt(DecimalDigits(m) + suffix) == Some(m)
  {
    var d := DecimalDigits(m);
    LeadingNumberOfDecimal(m, suffix);
    assert (d + suffix)[0] == d[0];
    ParseIntUnsigned(d + suffix);
  }

  /** parseInt reads back the decimal text of any integer, also when the text
      is followed by anything that does not start with a digit
      ("123abc" gives 123, "-5" gives -5). */
  lemma {:induction false} ParseIntOfNumberToString(n: int, suffix: string)
    requires suffix == [] || !IsDigit(suffix[0])
    ensures ParseInt(NumberToString(n) + suffix) == Some(n)
  {
    if n < 0 {
      ParseIntOfNegativeText(n, suffix);
    } else {
      ParseIntOfDecimal(n, suffix);
      assert NumberToString(n) == DecimalDigits(n);
    }
  }

  /** parseInt reads back the decimal text of any integer. */
  lemma {:induction false} ParseIntOfText(n: int)
    ensures ParseInt(NumberToString(n)) == Some(n)
  {
    ParseIntOfNumberToString(n, "");
    assert NumberToString(n) + "" == NumberToString(n);
  }

  /** The negative case: the text is a minus sign and the digits of -n. */
  lemma {:induction false} ParseIntOfNegativeText(n: int, suffix: string)
    requires n < 0
    requires suffix == [] || !IsDigit(suffix[0])
    ensures ParseInt(NumberToString(n) + suffix) == Some(n)
  {
    var m: nat := -n;
    NegativeText(n, m, suffix);
    ParseIntOfMinusDecimal(m, suffix);
  }

  lemma NegativeText(n: int, m: nat, suffix: string)
    requires n < 0 && m == -n
    ensures NumberToString(n) + suffix == "-" + (DecimalDigits(m) + suffix)
  {
    ConcatAssoc("-", DecimalDigits(m), suffix);
  }

  /** A token that starts with neither white space, a sign nor a digit is
      NaN: the header word "PID" of a process listing, for one. */
  lemma {:induction false} ParseIntNoDigit(s: string)
    requires s == [] || (!IsWhiteSpace(s[0]) && !IsDigit(s[0]) && s[0] != '-' && s[0] != '+')
    ensures ParseInt(s) == None
  {
  }

  /** A sign with no digit right after it is NaN: "-" and the rule "-----"
      under a listing's header, for two. */
  lemma {:induction false} ParseIntSignWithoutDigit(s: string)
    requires |s| >= 1 && (s[0] == '-' || s[0] == '+')
    requires |s| == 1 || !IsDigit(s[1])
    ensures ParseInt(s) == None
  {
    DigitIsNotWhiteSpace(s[0]);
    assert TrimStart(s) == s;
    assert DigitPrefix(s[1..]) == [];
  }
}
