/** POSIX path manipulation as Python's os.path does it (basename, dirname,
    splitext, join), on paths written as strings. */
module Paths {
  import opened Strings

  /** The last index of c in s, or -1 (str.rfind for one character). */
  function RFindChar(s: string, c: char): (i: int)
    ensures -1 <= i < |s|
    ensures i >= 0 ==> s[i] == c
    ensures forall k :: i < k < |s| ==> s[k] != c
  {
    if s == [] then -1
    else if s[|s| - 1] == c then |s| - 1
    else RFindChar(s[..|s| - 1], c)
  }

  /** os.path.basename: everything after the last '/'. */
  function Basename(p: string): (r: string)
    ensures '/' !in r && EndsWith(p, r)
    ensures '/' !in p ==> r == p
  {
    var i := RFindChar(p, '/');
    NoCharAfter(p, '/', i);
    p[i + 1..]
  }

  lemma NoCharAfter(s: string, c: char, i: int)
    requires -1 <= i < |s|
    requires forall k :: i < k < |s| ==> s[k] != c
    ensures c !in s[i + 1..] && EndsWith(s, s[i + 1..])
  {
    var t := s[i + 1..];
    forall k | 0 <= k < |t| ensures t[k] != c { assert t[k] == s[i + 1 + k]; }
  }

  /** os.path.dirname: everything before the last '/', trailing slashes
      removed unless the head is made only of slashes. */
  function Dirname(p: string): string {
    var head := p[..RFindChar(p, '/') + 1];
    if head != [] && exists k :: 0 <= k < |head| && head[k] != '/'
    then RStripBy(head, c => c == '/')
    else head
  }

  /** os.path.splitext: the extension starts at the last '.' of the last
      component, provided that component has something other than dots
      before it. */
  function SplitExt(p: string): (r: (string, string))
    ensures r.0 + r.1 == p
  {
    var sep := RFindChar(p, '/');
    var dot := RFindChar(p, '.');
    if dot > sep && !AllDots(p[sep + 1..dot])
    then (p[..dot], p[dot..])
    else (p, "")
  }

  predicate AllDots(s: string) { forall k :: 0 <= k < |s| ==> s[k] == '.' }

  /** An extension is empty or a single '.' followed by neither '.' nor '/'. */
  lemma ExtShape(p: string)
    ensures var e := Ext(p); e == [] || (e[0] == '.' && '/' !in e && '.' !in e[1..])
  {
    var sep := RFindChar(p, '/');
    var dot := RFindChar(p, '.');
    if dot > sep && !AllDots(p[sep + 1..dot]) {
      var e := p[dot..];
      forall k | 0 <= k < |e| ensures e[k] != '/' && (k > 0 ==> e[k] != '.') {
        assert e[k] == p[dot + k];
      }
    }
  }

  function Root(p: string): string { SplitExt(p).0 }

  function Ext(p: string): string { SplitExt(p).1 }

  /** os.path.join(a, b) */
  function Join(a: string, b: string): (r: string)
    ensures EndsWith(r, b)
  {
    if StartsWith(b, "/") then b
    else if a == [] || EndsWith(a, "/") then a + b
    else a + "/" + b
  }

  /** Joining a directory with a plain name and taking the basename gives the name back. */
  lemma BasenameOfJoin(dir: string, name: string)
    requires name != [] && '/' !in name
    ensures Basename(Join(dir, name)) == name
  {
    var j := Join(dir, name);
    var i := RFindChar(j, '/');
    assert j[|j| - |name|..] == name;
    assert forall k :: |j| - |name| <= k < |j| ==> j[k] == name[k - (|j| - |name|)];
    if |j| > |name| {
      assert j[|j| - |name| - 1] == '/';
    }
  }

  /** A name without a '/' splits into a stem and an extension that are
      both free of '/'. */
  lemma SplitExtOfName(name: string)
    requires '/' !in name
    ensures '/' !in Root(name) && '/' !in Ext(name)
  {
    var r := SplitExt(name);
    assert name == r.0 + r.1;
    assert forall k :: 0 <= k < |r.0| ==> r.0[k] == name[k];
  }

  /** Text appended to a name that does not start with '/' ends up at the
      end of the joined path. */
  lemma JoinAppend(dir: string, name: string, more: string)
    requires name != [] && name[0] != '/'
    ensures Join(dir, name + more) == Join(dir, name) + more
  {
    NotRooted(name);
    assert (name + more)[0] == name[0];
    NotRooted(name + more);
    if dir == [] || EndsWith(dir, "/") {
      assert dir + (name + more) == (dir + name) + more;
    } else {
      assert dir + "/" + (name + more) == (dir + "/" + name) + more;
    }
  }

  /** A name that does not start with '/' is joined below the directory. */
  lemma NotRooted(name: string)
    requires name != [] && name[0] != '/'
    ensures !StartsWith(name, "/")
  {
    assert name[..1] != "/" by { assert name[..1][0] == name[0]; }
  }
  /** The last occurrence is where the character occurs with none after. */
  lemma RFindCharIs(s: string, c: char, i: nat)
    requires i < |s| && s[i] == c
    requires forall k :: i < k < |s| ==> s[k] != c
    ensures RFindChar(s, c) == i
  {
  }

  /** With no occurrence from `from` on, the last one lies before it. */
  lemma RFindCharBefore(s: string, c: char, from: nat)
    requires forall k :: from <= k < |s| ==> s[k] != c
    ensures RFindChar(s, c) < from
  {
  }

  /** A file's extension is that of its last path component. */
  lemma ExtOfBasename(p: string)
    ensures Ext(Basename(p)) == Ext(p)
  {
    var i := RFindChar(p, '/');
    var b := p[i + 1..];
    assert Basename(p) == b;
    var d := RFindChar(p, '.');
    if d > i {
      ComponentDot(p, i, d);
    } else {
      NoCharAfter(p, '/', i);
      RFindCharBefore(b, '/', 0);
      forall k | 0 <= k < |b| ensures b[k] != '.' {
        assert b[k] == p[k + i + 1];
      }
      RFindCharBefore(b, '.', 0);
    }
  }

  /** When the last dot follows the last slash, the last component splits at the same dot. */
  lemma ComponentDot(p: string, i: int, d: int)
    requires i == RFindChar(p, '/') && d == RFindChar(p, '.') && i < d
    ensures Ext(p[i + 1..]) == Ext(p)
  {
    var b, e := p[i + 1..], d - i - 1;
    ComponentSplit(p, i, d);
    ExtFrom(b, -1, e);
    ExtFrom(p, i, d);
  }

  /** The last component has no slash, its last dot where p has it, and
      the same text on either side of that dot. */
  lemma ComponentSplit(p: string, i: int, d: int)
    requires i == RFindChar(p, '/') && d == RFindChar(p, '.') && i < d
    ensures var b, e := p[i + 1..], d - i - 1;
      && RFindChar(b, '/') == -1 && RFindChar(b, '.') == e
      && b[0..e] == p[i + 1..d] && b[e..] == p[d..]
  {
    LastComponent(p, i, d);
    SlicesAgree(p, i + 1, d);
  }

  lemma LastComponent(p: string, i: int, d: nat)
    requires -1 <= i < d < |p| && p[d] == '.'
    requires forall k :: i < k < |p| ==> p[k] != '/'
    requires forall k :: d < k < |p| ==> p[k] != '.'
    ensures var b, e := p[i + 1..], d - i - 1; RFindChar(b, '/') == -1 && RFindChar(b, '.') == e
  {
    var b, e := p[i + 1..], d - i - 1;
    forall k | 0 <= k < |b| ensures b[k] != '/' && (e < k ==> b[k] != '.') {
      assert b[k] == p[k + i + 1];
    }
    assert b[e] == p[e + i + 1];
    RFindCharBefore(b, '/', 0);
    RFindCharIs(b, '.', e);
  }

  /** Dropping a prefix of p shifts the positions of every slice of what is left. */
  lemma SlicesAgree(p: string, j: nat, d: nat)
    requires j <= d <= |p|
    ensures p[j..][0..d - j] == p[j..d] && p[j..][d - j..] == p[d..]
  {
    var b := p[j..];
    var x, y := b[0..d - j], p[j..d];
    forall k | 0 <= k < |x| ensures x[k] == y[k] {
      assert x[k] == b[k] == p[k + j];
    }
    var u, v := b[d - j..], p[d..];
    forall k | 0 <= k < |u| ensures u[k] == v[k] {
      assert u[k] == b[k + d - j] == p[k + d];
    }
  }

  /** Ext once the last slash and the last dot are known, the dot coming after the slash. */
  lemma ExtFrom(p: string, sep: int, dot: int)
    requires RFindChar(p, '/') == sep && RFindChar(p, '.') == dot && sep < dot
    ensures Ext(p) == if AllDots(p[sep + 1..dot]) then "" else p[dot..]
  {
  }

  /** The extension starts at the last dot when that dot comes after the
      last slash and the component does not start with dots only. */
  lemma ExtAt(p: string, start: nat, dot: nat)
    requires RFindChar(p, '.') == dot && RFindChar(p, '/') < start < dot
    requires p[start] != '.'
    ensures Ext(p) == p[dot..]
  {
    var sep := RFindChar(p, '/');
    assert p[sep + 1..dot][start - sep - 1] == p[start];
  }

  /** A path ending in a stem without dots or slashes and then an
      extension-shaped suffix has that suffix as its extension. */
  lemma ExtOfSuffix(j: string, stem: string, e: string)
    requires stem != [] && '.' !in stem && '/' !in stem
    requires e != [] && e[0] == '.' && '/' !in e && '.' !in e[1..]
    requires EndsWith(j, stem + e)
    ensures Ext(j) == e
  {
    var start := |j| - |stem| - |e|;
    var dot := |j| - |e|;
    SuffixDot(j, stem, e);
    SuffixSlash(j, stem, e);
    SuffixStart(j, stem, e);
    ExtAt(j, start, dot);
  }

  lemma SuffixStart(j: string, stem: string, e: string)
    requires stem != [] && '.' !in stem
    requires EndsWith(j, stem + e)
    ensures j[|j| - |stem| - |e|] != '.'
    ensures j[|j| - |e|..] == e
  {
    var start := |j| - |stem| - |e|;
    assert j[start..] == stem + e;
    assert j[start] == (stem + e)[0] == stem[0];
    assert j[|j| - |e|..] == (stem + e)[|stem|..];
  }

  lemma SuffixDot(j: string, stem: string, e: string)
    requires e != [] && e[0] == '.' && '.' !in e[1..]
    requires EndsWith(j, stem + e)
    ensures RFindChar(j, '.') == |j| - |e|
  {
    var dot := |j| - |e|;
    assert j[dot..] == e;
    forall k | dot < k < |j| ensures j[k] != '.' {
      assert j[k] == e[k - dot] == e[1..][k - dot - 1];
    }
    RFindCharIs(j, '.', dot);
  }

  lemma SuffixSlash(j: string, stem: string, e: string)
    requires '/' !in stem && '/' !in e
    requires EndsWith(j, stem + e)
    ensures RFindChar(j, '/') < |j| - |stem| - |e|
  {
    var start := |j| - |stem| - |e|;
    var name := stem + e;
    assert '/' !in name;
    assert j[start..] == name;
    forall k | start <= k < |j| ensures j[k] != '/' {
      assert j[k] == name[k - start];
    }
    RFindCharBefore(j, '/', start);
  }

  /** The same, joined below any directory. */
  lemma ExtOfStemAndExt(dir: string, stem: string, e: string)
    requires stem != [] && '.' !in stem && '/' !in stem
    requires e != [] && e[0] == '.' && '/' !in e && '.' !in e[1..]
    ensures Ext(Join(dir, stem + e)) == e
  {
    ExtOfSuffix(Join(dir, stem + e), stem, e);
  }
}
