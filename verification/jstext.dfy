/** The JavaScript string primitives the application leans on, over
    `string` = `seq<char>`: `trim`, `includes`, `split` on one character,
    `replace` of one character or of a character class, `/\s+/` runs,
    `toLowerCase` (ASCII letters only) and the ordinal string order that
    `<`/`<=` on strings use (and that stands in for `localeCompare`). */
module JsText {

  /** The characters `String.prototype.trim` strips and `\s` matches:
      ECMAScript WhiteSpace plus LineTerminator. */
  predicate IsSpace(c: char) {
    || c == '\t' || c == '\n' || c == '\U{000B}' || c == '\U{000C}' || c == '\r'
    || c == ' ' || c == '\U{00A0}' || c == '\U{1680}'
    || ('\U{2000}' <= c <= '\U{200A}')
    || c == '\U{2028}' || c == '\U{2029}' || c == '\U{202F}' || c == '\U{205F}'
    || c == '\U{3000}' || c == '\U{FEFF}'
  }

  /** `\d`: the ASCII digits only. */
  predicate IsDigit(c: char) {
    '0' <= c <= '9'
  }

  predicate AllSpace(s: string) {
    forall i :: 0 <= i < |s| ==> IsSpace(s[i])
  }

  predicate AllDigits(s: string) {
    forall i :: 0 <= i < |s| ==> IsDigit(s[i])
  }

  /** Neither the first nor the last character is white space. */
  predicate NoEdgeSpace(s: string) {
    |s| == 0 || (!IsSpace(s[0]) && !IsSpace(s[|s| - 1]))
  }

  // ---------------------------------------------------------------------
  // trim
  // ---------------------------------------------------------------------

  /** How many white-space characters `s` starts with. */
  function LeadSpace(s: string): (n: nat)
    ensures n <= |s|
    ensures forall i :: 0 <= i < n ==> IsSpace(s[i])
    ensures n < |s| ==> !IsSpace(s[n])
  {
    if |s| > 0 && IsSpace(s[0]) then 1 + LeadSpace(s[1..]) else 0
  }

  /** How many white-space characters `s` ends with. */
  function TrailSpace(s: string): (n: nat)
    ensures n <= |s|
    ensures forall i :: |s| - n <= i < |s| ==> IsSpace(s[i])
    ensures n < |s| ==> !IsSpace(s[|s| - n - 1])
  {
    if |s| > 0 && IsSpace(s[|s| - 1]) then 1 + TrailSpace(s[..|s| - 1]) else 0
  }

  function TrimStart(s: string): (r: string)
    ensures |r| <= |s| && r == s[|s| - |r|..]
    ensures AllSpace(s[..|s| - |r|])
    ensures |r| > 0 ==> !IsSpace(r[0])
    ensures |s| > 0 && IsSpace(s[0]) ==> |r| < |s|
    ensures r == "" <==> AllSpace(s)
  {
    s[LeadSpace(s)..]
  }

  function TrimEnd(s: string): (r: string)
    ensures |r| <= |s| && r == s[..|r|]
    ensures AllSpace(s[|r|..])
    ensures |r| > 0 ==> !IsSpace(r[|r| - 1])
    ensures r == "" <==> AllSpace(s)
  {
    s[..|s| - TrailSpace(s)]
  }

  /** `String.prototype.trim`: what is left after stripping white space at
      both ends (`TrimRemovesOnlySpace`: an infix of `s` with only white
      space around it). */
  function Trim(s: string): (r: string)
    ensures NoEdgeSpace(r)
    ensures |r| <= |s|
    ensures r == "" <==> AllSpace(s)
  {
    var t := TrimStart(s);
    var r := TrimEnd(t);
    assert r == "" <==> t == "" by {
      assert |t| > 0 ==> !AllSpace(t);
    }
    assert |r| > 0 ==> r[0] == t[0];
    r
  }

  /** The trimmed text is the infix of `s` that starts where the
      start-trim does. */
  lemma TrimIsInfix(s: string)
    ensures var k := |s| - |TrimStart(s)|;
      k + |Trim(s)| <= |s| && Trim(s) == s[k..k + |Trim(s)|]
  {
    TrimUnfold(s);
    PrefixOfSuffix(s, TrimStart(s), Trim(s));
  }

  /** What trimming removes is white space only: a white-space prefix and a
      white-space suffix around the infix `TrimIsInfix` gives. */
  lemma TrimRemovesOnlySpace(s: string)
    ensures var k := |s| - |TrimStart(s)|;
      k + |Trim(s)| <= |s| && AllSpace(s[..k]) && AllSpace(s[k + |Trim(s)|..])
  {
    TrimUnfold(s);
    SuffixOfSuffix(s, TrimStart(s), |Trim(s)|);
  }

  /** `Trim` is the end-trim of the start-trim, with what `TrimEnd`
      promises about it. */
  lemma TrimUnfold(s: string)
    ensures |Trim(s)| <= |TrimStart(s)| && Trim(s) == TrimStart(s)[..|Trim(s)|]
    ensures AllSpace(TrimStart(s)[|Trim(s)|..])
  {
    assert Trim(s) == TrimEnd(TrimStart(s));
  }

  /** A prefix `r` of a suffix `t` of `s` is an infix of `s`. */
  lemma PrefixOfSuffix<T>(s: seq<T>, t: seq<T>, r: seq<T>)
    requires |t| <= |s| && t == s[|s| - |t|..]
    requires |r| <= |t| && r == t[..|r|]
    ensures r == s[|s| - |t|..|s| - |t| + |r|]
  {
  }

  /** A suffix of a suffix `t` of `s` is a suffix of `s`. */
  lemma SuffixOfSuffix<T>(s: seq<T>, t: seq<T>, j: nat)
    requires |t| <= |s| && t == s[|s| - |t|..] && j <= |t|
    ensures s[|s| - |t| + j..] == t[j..]
  {
  }

  /** A string without white space at either end is its own trim. */
  lemma TrimNoEdgeSpace(s: string)
    requires NoEdgeSpace(s)
    ensures Trim(s) == s
  {
  }

  /** Trimming twice is trimming once. */
  lemma TrimIdempotent(s: string)
    ensures Trim(Trim(s)) == Trim(s)
  {
    TrimNoEdgeSpace(Trim(s));
  }

  /** `!s || !s.trim()`: empty or only white space. */
  predicate IsBlank(s: string) {
    Trim(s) == ""
  }

  // ---------------------------------------------------------------------
  // includes / startsWith
  // ---------------------------------------------------------------------

  predicate StartsWith(s: string, p: string) {
    |p| <= |s| && s[..|p|] == p
  }

  predicate OccursAt(s: string, sub: string, i: int) {
    0 <= i && i + |sub| <= |s| && s[i..i + |sub|] == sub
  }

  /** `String.prototype.includes`. */
  predicate Includes(s: string, sub: string) {
    exists i | 0 <= i <= |s| :: OccursAt(s, sub, i)
  }

  lemma IncludesEmpty(s: string)
    ensures Includes(s, "")
  {
    assert OccursAt(s, "", 0);
  }

  /** `c` occurs in `s` exactly when the one-character string does. */
  lemma IncludesChar(s: string, c: char)
    ensures Includes(s, [c]) <==> c in s
  {
    if c in s {
      var i :| 0 <= i < |s| && s[i] == c;
      assert s[i..i + 1] == [c];
      assert OccursAt(s, [c], i);
    }
    if Includes(s, [c]) {
      var i :| 0 <= i <= |s| && OccursAt(s, [c], i);
      assert s[i] == s[i..i + 1][0] == c;
    }
  }

  // ---------------------------------------------------------------------
  // toLowerCase (ASCII)
  // ---------------------------------------------------------------------

  function LowerChar(c: char): char {
    if 'A' <= c <= 'Z' then (c as int + 32) as char else c
  }

  function Lower(s: string): (r: string)
    ensures |r| == |s|
    ensures forall i :: 0 <= i < |s| ==> r[i] == LowerChar(s[i])
  {
    seq(|s|, i requires 0 <= i < |s| => LowerChar(s[i]))
  }

  lemma LowerEmpty()
    ensures Lower("") == ""
  {
  }

  // ---------------------------------------------------------------------
  // Ordinal string order
  // ---------------------------------------------------------------------

  /** `a <= b` on JavaScript strings: `a` is a prefix of `b` or is smaller at
      the first character where they differ. */
  predicate LexLe(a: string, b: string) {
    |a| == 0 || (|b| > 0 && (a[0] < b[0] || (a[0] == b[0] && LexLe(a[1..], b[1..]))))
  }

  lemma {:induction false} LexLeRefl(a: string)
    ensures LexLe(a, a)
  {
    if |a| > 0 {
      LexLeRefl(a[1..]);
    }
  }

  lemma {:induction false} LexLeTotal(a: string, b: string)
    ensures LexLe(a, b) || LexLe(b, a)
  {
    if |a| > 0 && |b| > 0 && a[0] == b[0] {
      LexLeTotal(a[1..], b[1..]);
    }
  }

  lemma {:induction false} LexLeAntisym(a: string, b: string)
    requires LexLe(a, b) && LexLe(b, a)
    ensures a == b
  {
    if |a| > 0 && |b| > 0 {
      LexLeAntisym(a[1..], b[1..]);
      assert a == [a[0]] + a[1..] && b == [b[0]] + b[1..];
    }
  }

  lemma {:induction false} LexLeTrans(a: string, b: string, c: string)
    requires LexLe(a, b) && LexLe(b, c)
    ensures LexLe(a, c)
  {
    if |a| > 0 && |b| > 0 && |c| > 0 && a[0] == b[0] && b[0] == c[0] {
      LexLeTrans(a[1..], b[1..], c[1..]);
    }
  }

  /** `a.localeCompare(b)`, approximated by the ordinal order: -1, 0 or 1. */
  function Compare(a: string, b: string): (r: int)
    ensures r == 0 <==> a == b
    ensures r < 0 <==> !LexLe(b, a)
    ensures r > 0 <==> !LexLe(a, b)
    ensures -1 <= r <= 1
  {
    LexLeRefl(a);
    LexLeTotal(a, b);
    if a == b then 0
    else if LexLe(a, b) then
      assert !LexLe(b, a) by { if LexLe(b, a) { LexLeAntisym(a, b); } }
      -1
    else 1
  }

  // ---------------------------------------------------------------------
  // Character replacement and filtering
  // ---------------------------------------------------------------------

  /** `s.replace(/c/g, '')`. */
  function RemoveAll(s: string, c: char): (r: string)
    ensures c !in r
    ensures |r| <= |s|
    ensures forall i :: 0 <= i < |s| && s[i] != c ==> s[i] in r
    ensures forall x :: x in r ==> x in s
  {
    if |s| == 0 then ""
    else if s[0] == c then RemoveAll(s[1..], c)
    else [s[0]] + RemoveAll(s[1..], c)
  }

  lemma {:induction false} RemoveAllAbsent(s: string, c: char)
    requires c !in s
    ensures RemoveAll(s, c) == s
  {
    if |s| > 0 {
      RemoveAllAbsent(s[1..], c);
      assert s == [s[0]] + s[1..];
    }
  }

  lemma {:induction false} RemoveAllAppend(a: string, b: string, c: char)
    ensures RemoveAll(a + b, c) == RemoveAll(a, c) + RemoveAll(b, c)
  {
    if |a| == 0 {
      assert a + b == b;
    } else {
      assert (a + b)[1..] == a[1..] + b;
      RemoveAllAppend(a[1..], b, c);
    }
  }

  /** `s.replace(c, d)` with a one-character string pattern: only the first
      occurrence is replaced. */
  function ReplaceFirst(s: string, c: char, d: char): (r: string)
    ensures |r| == |s|
    ensures c !in s ==> r == s
  {
    if |s| == 0 then ""
    else if s[0] == c then [d] + s[1..]
    else [s[0]] + ReplaceFirst(s[1..], c, d)
  }

  /** Keeps the characters satisfying `keep`: `s.replace(/[^...]/g, '')`. */
  function KeepOnly(s: string, keep: char -> bool): (r: string)
    ensures |r| <= |s|
    ensures forall i :: 0 <= i < |r| ==> keep(r[i]) && r[i] in s
    ensures forall i :: 0 <= i < |s| && keep(s[i]) ==> s[i] in r
  {
    if |s| == 0 then ""
    else if keep(s[0]) then [s[0]] + KeepOnly(s[1..], keep)
    else KeepOnly(s[1..], keep)
  }

  lemma {:induction false} KeepOnlyAll(s: string, keep: char -> bool)
    requires forall i :: 0 <= i < |s| ==> keep(s[i])
    ensures KeepOnly(s, keep) == s
  {
    if |s| > 0 {
      KeepOnlyAll(s[1..], keep);
      assert s == [s[0]] + s[1..];
    }
  }

  function CountChar(s: string, c: char): nat {
    if |s| == 0 then 0 else (if s[0] == c then 1 else 0) + CountChar(s[1..], c)
  }

  lemma {:induction false} CountCharZero(s: string, c: char)
    ensures CountChar(s, c) == 0 <==> c !in s
  {
    if |s| > 0 {
      CountCharZero(s[1..], c);
    }
  }

  // ---------------------------------------------------------------------
  // split on one character
  // ---------------------------------------------------------------------

  function IndexOfChar(s: string, c: char): (k: nat)
    requires c in s
    ensures k < |s| && s[k] == c && c !in s[..k]
  {
    if s[0] == c then 0 else 1 + IndexOfChar(s[1..], c)
  }

  /** Glues parts back together with `c` between neighbours (`Array.prototype.join`). */
  function Join(parts: seq<string>, c: char): string {
    if |parts| == 0 then ""
    else if |parts| == 1 then parts[0]
    else parts[0] + [c] + Join(parts[1..], c)
  }

  /** `s.split(c)`: the pieces between occurrences of `c`; there is one more
      piece than there are separators and no piece contains `c`
      (`SplitJoin` gives the round trip back to `s`). */
  function Split(s: string, c: char): (parts: seq<string>)
    ensures |parts| == CountChar(s, c) + 1
    ensures forall i :: 0 <= i < |parts| ==> c !in parts[i]
    decreases |s|
  {
    if c !in s then
      CountCharZero(s, c);
      [s]
    else
      var k := IndexOfChar(s, c);
      var rest := Split(s[k + 1..], c);
      CountCharSplit(s, k, c);
      [s[..k]] + rest
  }

  /** Joining the pieces of a split with the separator gives the string back. */
  lemma {:induction false} SplitJoin(s: string, c: char)
    ensures Join(Split(s, c), c) == s
    decreases |s|
  {
    if c in s {
      var k := IndexOfChar(s, c);
      SplitJoin(s[k + 1..], c);
      var rest := Split(s[k + 1..], c);
      assert Split(s, c) == [s[..k]] + rest;
      assert |rest| >= 1;
      assert ([s[..k]] + rest)[1..] == rest;
      assert s == s[..k] + [c] + s[k + 1..];
    }
  }

  lemma CountCharSplit(s: string, k: nat, c: char)
    requires k < |s| && s[k] == c && c !in s[..k]
    ensures CountChar(s, c) == 1 + CountChar(s[k + 1..], c)
  {
    CountCharAppend(s[..k], s[k..], c);
    CountCharZero(s[..k], c);
    assert s[..k] + s[k..] == s;
    assert s[k..][1..] == s[k + 1..];
  }

  lemma {:induction false} CountCharAppend(a: string, b: string, c: char)
    ensures CountChar(a + b, c) == CountChar(a, c) + CountChar(b, c)
  {
    if |a| > 0 {
      assert (a + b)[1..] == a[1..] + b;
      CountCharAppend(a[1..], b, c);
    } else {
      assert a + b == b;
    }
  }

  /** The first occurrence of `c` is the one with no `c` before it. */
  lemma {:induction false} IndexOfCharAt(s: string, c: char, k: nat)
    requires k < |s| && s[k] == c && c !in s[..k]
    ensures IndexOfChar(s, c) == k
  {
    if k > 0 {
      assert s[0] in s[..k];
      assert s[1..][k - 1] == c;
      assert s[1..][..k - 1] == s[1..k];
      assert forall x :: x in s[1..k] ==> x in s[..k];
      IndexOfCharAt(s[1..], c, k - 1);
    }
  }

  /** Splitting `a + c + b` where `a` has no `c` yields `a` and then the split of `b`. */
  lemma SplitCons(a: string, b: string, c: char)
    requires c !in a
    ensures Split(a + [c] + b, c) == [a] + Split(b, c)
  {
    var s := a + [c] + b;
    assert s[|a|] == c;
    assert s[..|a|] == a;
    IndexOfCharAt(s, c, |a|);
    assert s[|a| + 1..] == b;
  }

  lemma SplitNone(s: string, c: char)
    requires c !in s
    ensures Split(s, c) == [s]
  {
  }

  // ---------------------------------------------------------------------
  // `/\s+/g` runs
  // ---------------------------------------------------------------------

  /** `s.replace(/\s+/g, ' ')`: every maximal run of white space becomes one space. */
  function CollapseSpaces(s: string): (r: string)
    ensures |r| <= |s|
    ensures |s| > 0 && !IsSpace(s[0]) ==> |r| > 0 && r[0] == s[0]
    ensures |s| > 0 ==> |r| > 0
    ensures SingleSpaced(r)
    decreases |s|
  {
    if |s| == 0 then ""
    else if IsSpace(s[0]) then
      var t := TrimStart(s);
      var rest := CollapseSpaces(t);
      var r := " " + rest;
      assert forall i :: 1 <= i < |r| ==> r[i] == rest[i - 1];
      r
    else
      var rest := CollapseSpaces(s[1..]);
      var r := [s[0]] + rest;
      assert forall i :: 1 <= i < |r| ==> r[i] == rest[i - 1];
      r
  }

  /** A string ending in a non-space character still ends in one after the
      runs are collapsed. */
  lemma {:induction false} CollapseLastNonSpace(s: string)
    requires |s| > 0 && !IsSpace(s[|s| - 1])
    ensures var r := CollapseSpaces(s); |r| > 0 && !IsSpace(r[|r| - 1])
    decreases |s|
  {
    if IsSpace(s[0]) {
      var t := TrimStart(s);
      assert t[|t| - 1] == s[|s| - 1];
      CollapseLastNonSpace(t);
    } else if |s| > 1 {
      CollapseLastNonSpace(s[1..]);
    }
  }

  /** Every white-space character is a plain space, and no two are adjacent. */
  predicate SingleSpaced(s: string) {
    && (forall i :: 0 <= i < |s| && IsSpace(s[i]) ==> s[i] == ' ')
    && (forall i :: 0 < i < |s| && IsSpace(s[i - 1]) ==> !IsSpace(s[i]))
  }

  lemma TrimStartNoLead(s: string)
    requires |s| == 0 || !IsSpace(s[0])
    ensures TrimStart(s) == s
  {
  }

  lemma SingleSpacedTail(s: string)
    requires |s| > 0 && SingleSpaced(s)
    ensures SingleSpaced(s[1..])
    ensures IsSpace(s[0]) ==> s[0] == ' ' && (|s| == 1 || !IsSpace(s[1]))
  {
    if IsSpace(s[0]) && |s| > 1 {
      assert IsSpace(s[1 - 1]);
    }
  }

  /** A single-spaced string has no run to collapse. */
  lemma {:induction false} CollapseSingleSpaced(s: string)
    requires SingleSpaced(s)
    ensures CollapseSpaces(s) == s
    decreases |s|
  {
    if |s| > 0 {
      SingleSpacedTail(s);
      CollapseSingleSpaced(s[1..]);
      if IsSpace(s[0]) {
        TrimStartNoLead(s[1..]);
        assert TrimStart(s) == s[1..];
        assert s == " " + s[1..];
      } else {
        assert s == [s[0]] + s[1..];
      }
    }
  }

  // ---------------------------------------------------------------------
  // Brazilian amounts
  // ---------------------------------------------------------------------

  /** Replacing the first `c` when the text before it has none. */
  lemma {:induction false} ReplaceFirstAt(a: string, b: string, c: char, d: char)
    requires c !in a
    ensures ReplaceFirst(a + [c] + b, c, d) == a + [d] + b
  {
    if |a| > 0 {
      assert (a + [c] + b)[1..] == a[1..] + [c] + b;
      ReplaceFirstAt(a[1..], b, c, d);
    } else {
      assert a + [c] + b == [c] + b;
    }
  }

  /** Removing the dots from digits and dots that start with a digit leaves
      a non-empty digit string. */
  lemma {:induction false} RemoveDotsDigits(a: string)
    requires forall i :: 0 <= i < |a| ==> IsDigit(a[i]) || a[i] == '.'
    ensures AllDigits(RemoveAll(a, '.'))
    ensures |a| > 0 && IsDigit(a[0]) ==> RemoveAll(a, '.') != ""
  {
    if |a| > 0 {
      RemoveDotsDigits(a[1..]);
    }
  }

  /** The cleaning of a Brazilian amount: the dots go and the comma becomes
      the decimal point. */
  lemma CleanBrazilian(a: string, f: string)
    requires forall i :: 0 <= i < |a| ==> IsDigit(a[i]) || a[i] == '.'
    requires AllDigits(f)
    ensures ReplaceFirst(RemoveAll(a + "," + f, '.'), ',', '.') == RemoveAll(a, '.') + "." + f
  {
    var d := RemoveAll(a, '.');
    var tail := [','] + f;
    assert a + "," + f == a + tail;
    RemoveAllAppend(a, tail, '.');
    RemoveAllAppend([','], f, '.');
    assert '.' !in f;
    RemoveAllAbsent(f, '.');
    RemoveAllAbsent([','], '.');
    assert RemoveAll(a + "," + f, '.') == d + [','] + f;
    RemoveDotsDigits(a);
    assert ',' !in d;
    ReplaceFirstAt(d, f, ',', '.');
    assert d + ['.'] + f == d + "." + f;
  }
}
