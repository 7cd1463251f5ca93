/**
 Virtual paths.  The string functions follow the private path helpers of the Windows shell.  The
 engines of this project work on component lists instead; the lemmas here show that on paths
 without empty components the two views agree, operation by operation.
*/
module Paths {

  type Path = seq<string>

  // ---------------------------------------------------------------------------------------------
  // The string helpers
  // ---------------------------------------------------------------------------------------------

  function ForwardSlashes(s: string): (r: string)
    ensures |r| == |s|
  {
    if s == "" then "" else [if s[0] == '\\' then '/' else s[0]] + ForwardSlashes(s[1..])
  }

  function TrimStart(s: string): (r: string)
    ensures r != "" ==> r[0] != '/'
  {
    if s != "" && s[0] == '/' then TrimStart(s[1..]) else s
  }

  function TrimEnd(s: string): (r: string)
    ensures r != "" ==> r[|r| - 1] != '/'
  {
    if s != "" && s[|s| - 1] == '/' then TrimEnd(s[..|s| - 1]) else s
  }

  function NormalizeVirtualPath(path: string): string {
    TrimEnd(TrimStart(ForwardSlashes(path)))
  }

  /** The index of the last slash, or -1. */
  function LastSlash(s: string): (k: int)
    ensures -1 <= k < |s|
    ensures k >= 0 ==> s[k] == '/'
    ensures forall j :: k < j < |s| ==> s[j] != '/'
  {
    if s == "" then -1 else if s[|s| - 1] == '/' then |s| - 1 else LastSlash(s[..|s| - 1])
  }

  function ParentPath(path: string): string {
    var normalized := NormalizeVirtualPath(path);
    if LastSlash(normalized) < 0 then "" else normalized[..LastSlash(normalized)]
  }

  function FileName(path: string): string {
    var normalized := NormalizeVirtualPath(path);
    if LastSlash(normalized) < 0 then normalized else normalized[LastSlash(normalized) + 1..]
  }

  predicate PathContainsOrEquals(ancestor: string, path: string) {
    var a := NormalizeVirtualPath(ancestor);
    var p := NormalizeVirtualPath(path);
    a == p || a + "/" <= p
  }

  function SlashCount(s: string): nat {
    if s == "" then 0 else (if s[0] == '/' then 1 else 0) + SlashCount(s[1..])
  }

  // ---------------------------------------------------------------------------------------------
  // Component lists
  // ---------------------------------------------------------------------------------------------

  function Join(p: Path): string {
    if p == [] then "" else if |p| == 1 then p[0] else p[0] + "/" + Join(p[1..])
  }

  /** Splits at every slash, keeping empty components. */
  function Split(s: string): (p: Path)
    ensures p != []
  {
    if s == "" then [""]
    else if s[0] == '/' then [""] + Split(s[1..])
    else var rest := Split(s[1..]); [[s[0]] + rest[0]] + rest[1..]
  }

  predicate CleanComponent(c: string) {
    c != "" && forall i :: 0 <= i < |c| ==> c[i] != '/' && c[i] != '\\'
  }

  /** What a path looks like when no component is empty and the separators are forward slashes. */
  predicate Clean(p: Path) {
    p != [] && forall i :: 0 <= i < |p| ==> CleanComponent(p[i])
  }

  function Parent(p: Path): Path
    requires p != []
  {
    p[..|p| - 1]
  }

  /** p is a or lies under it. */
  predicate Covers(a: Path, p: Path) {
    a <= p
  }

  lemma CoversStep(a: Path, p: Path)
    requires p != []
    ensures Covers(a, p) <==> a == p || Covers(a, Parent(p))
  {
    if a <= p && |a| < |p| {
      assert a == p[..|a|] == Parent(p)[..|a|];
    }
  }

  lemma CoversTransitive(a: Path, b: Path, c: Path)
    requires Covers(a, b) && Covers(b, c)
    ensures Covers(a, c)
  {
  }

  predicate CoveredByAny(tops: set<Path>, p: Path) {
    exists m :: m in tops && Covers(m, p)
  }

  predicate RelatedToAny(paths: set<Path>, p: Path) {
    exists m :: m in paths && (Covers(m, p) || Covers(p, m))
  }

  // ---------------------------------------------------------------------------------------------
  // The two views agree
  // ---------------------------------------------------------------------------------------------

  lemma SplitLonger(c: char, s: string, head: string, others: Path)
    requires c != '/' && Split(s) == [head] + others
    ensures Split([c] + s) == [[c] + head] + others
  {
    assert ([c] + s)[1..] == s;
    assert ([head] + others)[1..] == others;
  }

  /** Text without a slash in front of the rest goes to the first component. */
  lemma {:induction false} SplitComponent(c: string, tail: string, others: Path)
    requires forall i :: 0 <= i < |c| ==> c[i] != '/'
    requires Split(tail) == [""] + others
    ensures Split(c + tail) == [c] + others
  {
    if c == "" {
      assert c + tail == tail;
    } else {
      SplitComponent(c[1..], tail, others);
      SplitLonger(c[0], c[1..] + tail, c[1..], others);
      assert [c[0]] + (c[1..] + tail) == c + tail;
      assert [c[0]] + c[1..] == c;
    }
  }

  lemma {:induction false} SplitPrefixed(c: string, below: string)
    requires forall i :: 0 <= i < |c| ==> c[i] != '/'
    ensures Split(c + ("/" + below)) == [c] + Split(below)
  {
    assert ("/" + below)[1..] == below;
    SplitComponent(c, "/" + below, Split(below));
  }

  /** Splitting undoes joining, so a clean path is determined by its text. */
  lemma {:induction false} SplitOfJoin(p: Path)
    requires p != []
    requires forall i, j :: 0 <= i < |p| && 0 <= j < |p[i]| ==> p[i][j] != '/'
    ensures Split(Join(p)) == p
  {
    if |p| == 1 {
      SplitComponent(p[0], "", []);
      assert p[0] + "" == p[0];
      assert [p[0]] + [] == p;
    } else {
      assert Join(p) == p[0] + ("/" + Join(p[1..]));
      SplitPrefixed(p[0], Join(p[1..]));
      assert forall i, j :: 0 <= i < |p[1..]| && 0 <= j < |p[1..][i]| ==> p[1..][i][j] == p[i + 1][j];
      SplitOfJoin(p[1..]);
    }
  }

  lemma {:induction false} JoinIsClean(p: Path)
    requires Clean(p)
    ensures Join(p) != "" && Join(p)[0] != '/' && Join(p)[|Join(p)| - 1] != '/'
    ensures forall i :: 0 <= i < |Join(p)| ==> Join(p)[i] != '\\'
  {
    if |p| > 1 {
      assert forall i :: 0 <= i < |p[1..]| ==> p[1..][i] == p[i + 1];
      JoinIsClean(p[1..]);
      assert Join(p) == p[0] + "/" + Join(p[1..]);
    } else {
      assert CleanComponent(p[0]);
    }
  }

  lemma {:induction false} ForwardSlashesKeeps(s: string)
    requires forall i :: 0 <= i < |s| ==> s[i] != '\\'
    ensures ForwardSlashes(s) == s
  {
    if s != "" {
      ForwardSlashesKeeps(s[1..]);
    }
  }

  lemma NormalizeKeepsClean(p: Path)
    requires Clean(p)
    ensures NormalizeVirtualPath(Join(p)) == Join(p)
  {
    JoinIsClean(p);
    ForwardSlashesKeeps(Join(p));
  }

  lemma {:induction false} JoinOfConcat(a: Path, b: Path)
    requires a != [] && b != []
    ensures Join(a + b) == Join(a) + "/" + Join(b)
  {
    if |a| == 1 {
      assert (a + b)[1..] == b;
    } else {
      JoinOfConcat(a[1..], b);
      assert (a + b)[1..] == a[1..] + b;
      assert Join(a + b) == a[0] + "/" + (Join(a[1..]) + "/" + Join(b));
      assert Join(a) == a[0] + "/" + Join(a[1..]);
    }
  }

  lemma PrefixIsContained(a: Path, p: Path)
    requires Clean(a) && Clean(p) && a <= p
    ensures Join(a) == Join(p) || Join(a) + "/" <= Join(p)
  {
    if |a| < |p| {
      assert p == a + p[|a|..];
      JoinOfConcat(a, p[|a|..]);
      assert Join(p) == Join(a) + "/" + Join(p[|a|..]);
    } else {
      assert a == p;
    }
  }

  lemma JoinFirst(a: Path, rest: string)
    requires |a| > 1
    ensures Join(a) + "/" + rest == a[0] + ("/" + (Join(a[1..]) + "/" + rest))
  {
  }

  lemma FirstOfConcat(a: Path, b: Path)
    requires a != []
    ensures [a[0]] + (a[1..] + b) == a + b
  {
  }

  lemma {:induction false} SplitAfter(a: Path, rest: string)
    requires Clean(a)
    ensures Split(Join(a) + "/" + rest) == a + Split(rest)
  {
    assert CleanComponent(a[0]);
    if |a| == 1 {
      SplitPrefixed(a[0], rest);
      assert a[0] + ("/" + rest) == Join(a) + "/" + rest;
      assert a == [a[0]];
    } else {
      assert forall i :: 0 <= i < |a[1..]| ==> a[1..][i] == a[i + 1];
      SplitAfter(a[1..], rest);
      JoinFirst(a, rest);
      SplitPrefixed(a[0], Join(a[1..]) + "/" + rest);
      FirstOfConcat(a, Split(rest));
    }
  }

  lemma AfterSlash(s: string, t: string) returns (rest: string)
    requires s + "/" <= t
    ensures t == s + "/" + rest
  {
    rest := t[|s| + 1..];
  }

  lemma ContainedIsPrefix(a: Path, p: Path)
    requires Clean(a) && Clean(p)
    requires Join(a) == Join(p) || Join(a) + "/" <= Join(p)
    ensures a <= p
  {
    SplitOfJoin(p);
    if Join(a) == Join(p) {
      SplitOfJoin(a);
    } else {
      var rest := AfterSlash(Join(a), Join(p));
      SplitAfter(a, rest);
      assert p == a + Split(rest);
    }
  }

  /** On clean paths the textual test for "at or under" is the prefix order on components. */
  lemma ContainsIsPrefix(a: Path, p: Path)
    requires Clean(a) && Clean(p)
    ensures PathContainsOrEquals(Join(a), Join(p)) <==> Covers(a, p)
  {
    NormalizeKeepsClean(a);
    NormalizeKeepsClean(p);
    if a <= p {
      PrefixIsContained(a, p);
    }
    if Join(a) == Join(p) || Join(a) + "/" <= Join(p) {
      ContainedIsPrefix(a, p);
    }
  }

  lemma {:induction false} LastSlashOfConcat(s: string, t: string)
    requires forall i :: 0 <= i < |t| ==> t[i] != '/'
    ensures LastSlash(s + "/" + t) == |s|
  {
    var whole := s + "/" + t;
    assert whole[|s|] == '/';
    assert forall j :: |s| < j < |whole| ==> whole[j] == t[j - |s| - 1];
    assert LastSlash(whole) >= |s|;
  }

  lemma CutAtLastSlash(front: string, last: string)
    requires forall i :: 0 <= i < |last| ==> last[i] != '/'
    ensures var whole := front + "/" + last;
            LastSlash(whole) == |front| && whole[..|front|] == front && whole[|front| + 1..] == last
  {
    LastSlashOfConcat(front, last);
  }

  lemma {:induction false} JoinSplitsLast(p: Path)
    requires |p| > 1
    ensures Join(p) == Join(Parent(p)) + "/" + p[|p| - 1]
  {
    assert p == Parent(p) + [p[|p| - 1]];
    JoinOfConcat(Parent(p), [p[|p| - 1]]);
  }

  /** On clean paths the textual parent and file name drop and keep the last component. */
  lemma {:induction false} ParentIsDrop(p: Path)
    requires Clean(p)
    ensures ParentPath(Join(p)) == Join(Parent(p))
    ensures FileName(Join(p)) == p[|p| - 1]
  {
    var text := Join(p);
    assert NormalizeVirtualPath(text) == text by { NormalizeKeepsClean(p); }
    assert CleanComponent(p[|p| - 1]);
    if |p| > 1 {
      var front := Join(Parent(p));
      assert text == front + "/" + p[|p| - 1] by { JoinSplitsLast(p); }
      CutAtLastSlash(front, p[|p| - 1]);
    } else {
      assert text == p[|p| - 1];
      assert LastSlash(text) < 0;
      assert Parent(p) == [];
    }
  }

  lemma {:induction false} SlashCountOfConcat(s: string, t: string)
    ensures SlashCount(s + t) == SlashCount(s) + SlashCount(t)
  {
    if s == "" {
      assert s + t == t;
    } else {
      SlashCountOfConcat(s[1..], t);
      assert (s + t)[1..] == s[1..] + t;
    }
  }

  lemma {:induction false} NoSlashes(s: string)
    requires forall i :: 0 <= i < |s| ==> s[i] != '/'
    ensures SlashCount(s) == 0
  {
    if s != "" {
      NoSlashes(s[1..]);
    }
  }

  /** Sorting by the number of slashes sorts clean paths by depth. */
  lemma {:induction false} SlashCountIsDepth(p: Path)
    requires Clean(p)
    ensures SlashCount(Join(p)) == |p| - 1
  {
    assert CleanComponent(p[0]);
    NoSlashes(p[0]);
    if |p| > 1 {
      assert forall i :: 0 <= i < |p[1..]| ==> p[1..][i] == p[i + 1];
      SlashCountIsDepth(p[1..]);
      SlashCountOfConcat(p[0] + "/", Join(p[1..]));
      SlashCountOfConcat(p[0], "/");
    }
  }

  /**
   The view fails on an empty component: the parent of "a//b" is the text "a/", which is not a
   normal form, and the parent of that is the root.
  */
  lemma EmptyComponentBreaksParents()
    ensures NormalizeVirtualPath("a//b") == "a//b"
    ensures ParentPath("a//b") == "a/" != NormalizeVirtualPath("a/")
    ensures ParentPath("a/") == ""
  {
    var s := "a//b";
    assert ForwardSlashes(s[3..]) == "b";
    assert ForwardSlashes(s[2..]) == "/b";
    assert ForwardSlashes(s[1..]) == "//b";
    assert ForwardSlashes(s) == s;
    LastSlashOfConcat("a/", "b");
    assert "a/" + "/" + "b" == s;
    assert ParentPath(s) == s[..2] == "a/";
    var t := "a/";
    assert ForwardSlashes(t[1..]) == "/";
    assert ForwardSlashes(t) == t;
    assert TrimEnd(t) == TrimEnd(t[..1]);
    assert t[..1] == "a";
  }

  // ---------------------------------------------------------------------------------------------
  // Ignored names
  // ---------------------------------------------------------------------------------------------

  function LowerAscii(s: string): (r: string)
    ensures |r| == |s|
  {
    if s == "" then "" else
      [if 'A' <= s[0] <= 'Z' then (s[0] as int + 32) as char else s[0]] + LowerAscii(s[1..])
  }

  predicate StartsWith(s: string, prefix: string) {
    prefix <= s
  }

  predicate EndsWith(s: string, suffix: string) {
    |suffix| <= |s| && s[|s| - |suffix|..] == suffix
  }

  predicate IsIgnoredName(name: string) {
    var folded := LowerAscii(name);
    || folded == ".ds_store"
    || folded == ".hashtree"
    || folded == ".trash"
    || folded == "$recycle.bin"
    || folded == "thumbs.db"
    || folded == "desktop.ini"
    || StartsWith(name, "._")
    || StartsWith(folded, ".trash-")
    || EndsWith(name, "~")
    || (StartsWith(name, "#") && EndsWith(name, "#"))
    || EndsWith(folded, ".sbak")
  }

  predicate Ignored(p: Path) {
    exists i :: 0 <= i < |p| && IsIgnoredName(p[i])
  }

  /** Everything under an ignored item is ignored. */
  lemma IgnoredBelow(a: Path, p: Path)
    requires Covers(a, p) && Ignored(a)
    ensures Ignored(p)
  {
    var i :| 0 <= i < |a| && IsIgnoredName(a[i]);
    assert p[i] == a[i];
  }

  /** One small letter is no ignored name. */
  lemma LetterIsKept(name: string)
    requires |name| == 1 && 'a' <= name[0] <= 'z'
    ensures !IsIgnoredName(name)
  {
    assert name[1..] == "";
    assert LowerAscii(name) == name;
  }

  /** Two paths at or above the same path are related. */
  lemma PrefixesAreRelated(a: Path, b: Path, p: Path)
    requires Covers(a, p) && Covers(b, p)
    ensures Covers(a, b) || Covers(b, a)
  {
    if |a| <= |b| {
      assert a == p[..|a|] == b[..|a|];
    } else {
      assert b == p[..|b|] == a[..|b|];
    }
  }
}
