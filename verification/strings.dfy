/** The handful of Python string operations the vault code relies on:
    ASCII lower-casing, str(int), strip, split, join and substring search. */
module Strings {
  import opened Wrappers

  /** str.lower() on the ASCII letters; other characters are kept. */
  function LowerChar(c: char): char {
    if 'A' <= c <= 'Z' then (c as int + 32) as char else c
  }

  function Lower(s: string): (r: string)
    ensures |r| == |s|
    ensures forall i :: 0 <= i < |s| ==> r[i] == LowerChar(s[i])
  {
    if s == [] then [] else [LowerChar(s[0])] + Lower(s[1..])
  }

  lemma {:induction false} LowerIdempotent(s: string)
    ensures Lower(Lower(s)) == Lower(s)
  {
    var l := Lower(s);
    assert forall i :: 0 <= i < |l| ==> Lower(l)[i] == l[i];
  }

  predicate IsDigit(c: char) { '0' <= c <= '9' }

  predicate DigitsIn(s: string) { forall i :: 0 <= i < |s| ==> IsDigit(s[i]) }

  /** strftime("%Y%m%d_%H%M%S_%f"): eight digits, six, and six. */
  predicate StampShape(stamp: string) {
    && |stamp| == 22
    && DigitsIn(stamp[..8]) && stamp[8] == '_'
    && DigitsIn(stamp[9..15]) && stamp[15] == '_'
    && DigitsIn(stamp[16..])
  }

  function DigitChar(d: nat): (c: char)
    requires d < 10
    ensures IsDigit(c) && c as int - '0' as int == d
  {
    (d + '0' as int) as char
  }

  /** str(n) for a non-negative integer: its decimal digits, no leading zero. */
  function NatToString(n: nat): (r: string)
    ensures |r| >= 1 && forall i :: 0 <= i < |r| ==> IsDigit(r[i])
    ensures n >= 10 <==> |r| >= 2
    decreases n
  {
    if n < 10 then [DigitChar(n)] else NatToString(n / 10) + [DigitChar(n % 10)]
  }

  /** Different counters always render differently, which is what makes
      every "first free name" search terminate. */
  lemma {:induction false} NatToStringInjective(n: nat, m: nat)
    requires NatToString(n) == NatToString(m)
    ensures n == m
    decreases n
  {
    var s, t := NatToString(n), NatToString(m);
    if n < 10 {
      assert m < 10;
      assert DigitChar(n) == s[0] == t[0] == DigitChar(m);
    } else {
      assert m >= 10;
      assert NatToString(n / 10) == s[..|s| - 1] == t[..|t| - 1] == NatToString(m / 10);
      NatToStringInjective(n / 10, m / 10);
      assert DigitChar(n % 10) == s[|s| - 1] == t[|t| - 1] == DigitChar(m % 10);
    }
  }

  /** The value of a string of decimal digits, most significant first. */
  function DigitsValue(s: string): nat
    requires forall i :: 0 <= i < |s| ==> IsDigit(s[i])
  {
    if s == [] then 0 else DigitsValue(s[..|s| - 1]) * 10 + DigitValue(s[|s| - 1])
  }

  function DigitValue(c: char): (d: nat)
    requires IsDigit(c)
    ensures d < 10
  {
    c as int - '0' as int
  }

  predicate AllDigits(s: string) { s != [] && forall i :: 0 <= i < |s| ==> IsDigit(s[i]) }

  /** int(s) on an unsigned decimal numeral; None where int() would raise. */
  function ParseNat(s: string): (r: Option<nat>)
    ensures r.Some? <==> AllDigits(s)
  {
    if AllDigits(s) then Some(DigitsValue(s)) else None
  }

  /** int(str(n)) == n */
  lemma {:induction false} ParseNatToString(n: nat)
    ensures ParseNat(NatToString(n)) == Some(n)
    decreases n
  {
    var s := NatToString(n);
    if n < 10 {
      assert s[..|s| - 1] == [];
      assert DigitsValue(s) == DigitValue(s[0]);
    } else {
      ParseNatToString(n / 10);
      assert s[..|s| - 1] == NatToString(n / 10);
      assert DigitValue(s[|s| - 1]) == n % 10;
    }
  }

  /** str(i) for any integer. */
  function IntToString(i: int): (r: string)
    ensures |r| >= 1
  {
    if i < 0 then "-" + NatToString(-i) else NatToString(i)
  }

  /** int(s) on an optionally '-'-signed decimal numeral; None where the
      text is no such numeral. */
  function ParseInt(s: string): Option<int> {
    if |s| > 0 && s[0] == '-' then
      match ParseNat(s[1..])
      case Some(n) => Some(0 - n)
      case None => None
    else
      match ParseNat(s)
      case Some(n) => Some(n as int)
      case None => None
  }

  /** int(str(i)) == i */
  lemma ParseIntToString(i: int)
    ensures ParseInt(IntToString(i)) == Some(i)
  {
    ParseNatToString(if i < 0 then -i else i);
    var s := IntToString(i);
    if i < 0 {
      assert s[1..] == NatToString(-i);
    } else {
      assert IsDigit(s[0]);
    }
  }

  /** The characters str.isspace() accepts in the Latin-1 range. */
  predicate IsSpace(c: char) {
    c == ' ' || c == '\t' || c == '\n' || c == '\r' || c == '\U{0B}' || c == '\U{0C}'
    || ('\U{1C}' <= c <= '\U{1F}') || c == '\U{85}' || c == '\U{A0}'
  }

  /** s.lstrip(chars) for the characters satisfying `drop`. */
  function LStripBy(s: string, drop: char -> bool): (r: string)
    ensures |r| <= |s| && r == s[|s| - |r|..]
    ensures r == [] || !drop(r[0])
    ensures forall i :: 0 <= i < |s| - |r| ==> drop(s[i])
  {
    if s != [] && drop(s[0]) then
      var t := s[1..];
      assert forall k :: 0 <= k < |t| ==> t[k] == s[k + 1];
      LStripBy(t, drop)
    else s
  }

  /** s.rstrip(chars) for the characters satisfying `drop`. */
  function RStripBy(s: string, drop: char -> bool): (r: string)
    ensures |r| <= |s| && r == s[..|r|]
    ensures r == [] || !drop(r[|r| - 1])
    ensures forall i :: |r| <= i < |s| ==> drop(s[i])
  {
    if s != [] && drop(s[|s| - 1]) then RStripBy(s[..|s| - 1], drop) else s
  }

  function StripBy(s: string, drop: char -> bool): string {
    LStripBy(RStripBy(s, drop), drop)
  }

  /** s.strip() */
  function Strip(s: string): string { StripBy(s, IsSpace) }

  /** s.rstrip() */
  function RStrip(s: string): string { RStripBy(s, IsSpace) }

  /** Text with no whitespace at either end is its own strip(). */
  lemma StripUnchanged(s: string)
    requires s != [] && !IsSpace(s[0]) && !IsSpace(s[|s| - 1])
    ensures Strip(s) == s
  {
    assert RStripBy(s, IsSpace) == s;
    assert LStripBy(s, IsSpace) == s;
  }

  /** The characters of s that satisfy `keep`, in order. */
  function Keep(s: string, keep: char -> bool): (r: string)
    ensures |r| <= |s|
    ensures forall i :: 0 <= i < |r| ==> keep(r[i])
  {
    if s == [] then []
    else if keep(s[0]) then [s[0]] + Keep(s[1..], keep)
    else Keep(s[1..], keep)
  }

  /** Nothing is dropped from text whose every character is kept. */
  lemma {:induction false} KeepAll(s: string, keep: char -> bool)
    requires forall i :: 0 <= i < |s| ==> keep(s[i])
    ensures Keep(s, keep) == s
  {
    if s != [] {
      KeepAll(s[1..], keep);
      assert s == [s[0]] + s[1..];
    }
  }

  /** Nothing is kept exactly when no character qualifies. */
  lemma {:induction false} KeepEmpty(s: string, keep: char -> bool)
    ensures Keep(s, keep) == [] <==> forall i :: 0 <= i < |s| ==> !keep(s[i])
  {
    if s != [] {
      KeepEmpty(s[1..], keep);
      assert forall i :: 1 <= i < |s| ==> s[i] == s[1..][i - 1];
    }
  }

  predicate StartsWith(s: string, p: string) { |p| <= |s| && s[..|p|] == p }

  predicate EndsWith(s: string, p: string) { |p| <= |s| && s[|s| - |p|..] == p }

  lemma ConcatAssoc(a: string, b: string, c: string)
    ensures a + b + c == a + (b + c)
  {
  }

  /** A text built as p + a + b + q starts with p and ends with q. */
  lemma Affixes(p: string, a: string, b: string, q: string)
    ensures StartsWith(p + a + b + q, p) && EndsWith(p + a + b + q, q)
  {
    var t := p + a + b + q;
    assert t[..|p|] == p;
    assert t[|t| - |q|..] == q;
  }

  predicate OccursAt(s: string, pat: string, i: nat) {
    i + |pat| <= |s| && s[i..i + |pat|] == pat
  }

  /** The first index at or after k where pat occurs (str.find from k). */
  function FindFrom(s: string, pat: string, k: nat): (r: Option<nat>)
    ensures r.Some? ==> k <= r.value && OccursAt(s, pat, r.value)
    ensures r.Some? ==> forall j :: k <= j < r.value ==> !OccursAt(s, pat, j)
    ensures r.None? ==> forall j :: k <= j ==> !OccursAt(s, pat, j)
    decreases |s| - k
  {
    if k + |pat| > |s| then None
    else if OccursAt(s, pat, k) then Some(k)
    else FindFrom(s, pat, k + 1)
  }

  function Find(s: string, pat: string): Option<nat> { FindFrom(s, pat, 0) }

  /** pat in s */
  predicate Contains(s: string, pat: string) { Find(s, pat).Some? }

  lemma ContainsMeansOccurs(s: string, pat: string)
    ensures Contains(s, pat) <==> exists i: nat :: OccursAt(s, pat, i)
  {
  }

  /** The first occurrence is the one Find reports. */
  lemma FindIs(s: string, pat: string, i: nat)
    requires OccursAt(s, pat, i)
    requires forall j :: 0 <= j < i ==> !OccursAt(s, pat, j)
    ensures Find(s, pat) == Some(i)
  {
  }

  /** Where pat occurs nowhere, Find reports nothing. */
  lemma FindNone(s: string, pat: string)
    requires forall j: nat :: !OccursAt(s, pat, j)
    ensures Find(s, pat) == None
  {
  }

  /** A window that lies inside s is unaffected by what follows s. */
  lemma OccursInPrefix(s: string, t: string, pat: string, j: nat)
    requires j + |pat| <= |s|
    ensures OccursAt(s + t, pat, j) <==> OccursAt(s, pat, j)
  {
    assert (s + t)[j..j + |pat|] == s[j..j + |pat|];
  }

  /** A window of s is the same window, shifted, of a + s. */
  lemma OccursShifted(a: string, s: string, pat: string, j: nat)
    ensures OccursAt(s, pat, j) <==> OccursAt(a + s, pat, |a| + j)
  {
    if j + |pat| <= |s| {
      assert (a + s)[|a| + j..|a| + j + |pat|] == s[j..j + |pat|];
    }
  }

  /** Text appended after a match does not move the first match. */
  lemma FindExtend(s: string, t: string, pat: string)
    requires Find(s, pat).Some?
    ensures Find(s + t, pat) == Find(s, pat)
  {
    var i := Find(s, pat).value;
    OccursInPrefix(s, t, pat, i);
    forall j | 0 <= j < i ensures !OccursAt(s + t, pat, j) {
      OccursInPrefix(s, t, pat, j);
    }
    FindIs(s + t, pat, i);
  }

  /** sep.join(parts) */
  function Join(parts: seq<string>, sep: string): string {
    if parts == [] then ""
    else if |parts| == 1 then parts[0]
    else parts[0] + sep + Join(parts[1..], sep)
  }

  /** s.split(sep) for a one-character separator. */
  function Split(s: string, sep: char): (r: seq<string>)
    ensures |r| >= 1
    ensures forall k :: 0 <= k < |r| ==> sep !in r[k]
    decreases |s|
  {
    if sep !in s then [s]
    else
      var i := IndexOfChar(s, sep);
      [s[..i]] + Split(s[i + 1..], sep)
  }

  /** The first index of c in s. */
  function IndexOfChar(s: string, c: char): (i: nat)
    requires c in s
    ensures i < |s| && s[i] == c && c !in s[..i]
  {
    if s[0] == c then 0 else 1 + IndexOfChar(s[1..], c)
  }

  /** The first c is at i when s[i] is c and no c comes before it. */
  lemma IndexOfCharIs(s: string, c: char, i: nat)
    requires i < |s| && s[i] == c && c !in s[..i]
    ensures IndexOfChar(s, c) == i
  {
    var j := IndexOfChar(s, c);
    assert s[j] == c && s[i] == c;
  }

  /** Text before the first c (all of it when there is none). */
  function CutAt(s: string, c: char): (r: string)
    ensures c !in r && StartsWith(s, r)
    ensures c !in s ==> r == s
  {
    if c in s then s[..IndexOfChar(s, c)] else s
  }

  /** Cutting at the first c of head + [c] + tail leaves the head. */
  lemma CutAtFirst(head: string, c: char, tail: string)
    requires c !in head
    ensures CutAt(head + [c] + tail, c) == head
  {
    IndexOfCharIs(head + [c] + tail, c, |head|);
  }

  /** Joining the pieces with the separator gives back the original text. */
  lemma {:induction false} SplitJoin(s: string, sep: char)
    ensures Join(Split(s, sep), [sep]) == s
    decreases |s|
  {
    if sep in s {
      var i := IndexOfChar(s, sep);
      var rest := Split(s[i + 1..], sep);
      SplitJoin(s[i + 1..], sep);
      SplitStep(s, sep);
      JoinCons(s[..i], rest, [sep]);
      assert s == s[..i] + [sep] + s[i + 1..];
    }
  }

  lemma SplitStep(s: string, sep: char)
    requires sep in s
    ensures var i := IndexOfChar(s, sep); Split(s, sep) == [s[..i]] + Split(s[i + 1..], sep)
  {
  }

  lemma JoinCons(first: string, rest: seq<string>, sep: string)
    requires rest != []
    ensures Join([first] + rest, sep) == first + sep + Join(rest, sep)
  {
    assert ([first] + rest)[1..] == rest;
  }

  /** Joining one more piece adds the separator and the piece. */
  lemma {:induction false} JoinSnoc(parts: seq<string>, last: string, sep: string)
    requires parts != []
    ensures Join(parts + [last], sep) == Join(parts, sep) + sep + last
    decreases |parts|
  {
    if |parts| > 1 {
      assert (parts + [last])[1..] == parts[1..] + [last];
      JoinSnoc(parts[1..], last, sep);
    }
  }

  /** Splitting joined pieces that hold no separator gives the pieces back. */
  lemma {:induction false} JoinSplit(parts: seq<string>, sep: char)
    requires parts != []
    requires forall k :: 0 <= k < |parts| ==> sep !in parts[k]
    ensures Split(Join(parts, [sep]), sep) == parts
    decreases |parts|
  {
    if |parts| > 1 {
      var s := Join(parts, [sep]);
      var tail := Join(parts[1..], [sep]);
      assert s == parts[0] + [sep] + tail;
      assert s[..|parts[0]|] == parts[0];
      assert s[|parts[0]| + 1..] == tail;
      IndexOfCharIs(s, sep, |parts[0]|);
      JoinSplit(parts[1..], sep);
      assert Split(s, sep) == [parts[0]] + Split(tail, sep);
    }
  }

  /** Python's `a <= b` on strings: character by character, a proper
      prefix before the longer string. */
  predicate LexLe(a: string, b: string) {
    a == [] || (b != [] && (a[0] < b[0] || (a[0] == b[0] && LexLe(a[1..], b[1..]))))
  }

  lemma {:induction false} LexLeRefl(a: string)
    ensures LexLe(a, a)
  {
    if a != [] { LexLeRefl(a[1..]); }
  }

  lemma {:induction false} LexLeTotal(a: string, b: string)
    ensures LexLe(a, b) || LexLe(b, a)
  {
    if a != [] && b != [] && a[0] == b[0] { LexLeTotal(a[1..], b[1..]); }
  }

  lemma {:induction false} LexLeTrans(a: string, b: string, c: string)
    requires LexLe(a, b) && LexLe(b, c)
    ensures LexLe(a, c)
  {
    if a != [] && a[0] == b[0] && b[0] == c[0] { LexLeTrans(a[1..], b[1..], c[1..]); }
  }

  lemma {:induction false} LexLeAntisym(a: string, b: string)
    requires LexLe(a, b) && LexLe(b, a)
    ensures a == b
  {
    if a != [] {
      LexLeAntisym(a[1..], b[1..]);
      assert a == [a[0]] + a[1..] && b == [b[0]] + b[1..];
    }
  }

  /** s.replace(pat, ""): the occurrences found scanning left to right,
      each search resuming after the previous match, are removed. */
  function RemoveAll(s: string, pat: string): (r: string)
    requires pat != []
    ensures |r| <= |s|
    decreases |s|
  {
    if |s| < |pat| then s
    else if s[..|pat|] == pat then RemoveAll(s[|pat|..], pat)
    else [s[0]] + RemoveAll(s[1..], pat)
  }

  lemma SliceShift(s: string, i: nat, n: nat)
    requires i + 1 + n <= |s|
    ensures s[1..][i..i + n] == s[i + 1..i + 1 + n]
  {
    var a, b := s[1..][i..i + n], s[i + 1..i + 1 + n];
    forall k | 0 <= k < n ensures a[k] == b[k] {
      assert s[1..][i + k] == s[i + 1 + k];
    }
  }

  /** Text followed by one occurrence of the pattern, which nowhere else
      occurs, loses exactly that occurrence. */
  lemma {:induction false} RemoveTrailing(x: string, pat: string)
    requires pat != []
    requires forall i :: 0 <= i < |x| ==> !OccursAt(x + pat, pat, i)
    ensures RemoveAll(x + pat, pat) == x
    decreases |x|
  {
    if x == [] {
      assert [] + pat == pat;
      assert RemoveAll(pat, pat) == RemoveAll([], pat);
    } else {
      var s, y := x + pat, x[1..];
      assert !OccursAt(s, pat, 0);
      assert s[1..] == y + pat;
      forall i | 0 <= i < |y| ensures !OccursAt(y + pat, pat, i) {
        var j: nat := i + 1;
        assert j < |x| && !OccursAt(s, pat, j);
        if i + |pat| <= |y + pat| {
          SliceShift(s, i, |pat|);
        }
      }
      RemoveTrailing(y, pat);
      assert RemoveAll(s, pat) == [s[0]] + RemoveAll(s[1..], pat);
      assert x == [x[0]] + y;
    }
  }
}
