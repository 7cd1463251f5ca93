/** The path helpers on texts as they arrive: with either kind of slash, and slashes around them. */
module PathTexts {
  import opened Paths

  predicate Slash(c: char) {
    c == '/' || c == '\\'
  }

  /** The same text, with either kind of slash for each slash. */
  predicate Writes(text: string, s: string) {
    && |text| == |s|
    && forall i :: 0 <= i < |s| ==> if s[i] == '/' then Slash(text[i]) else text[i] == s[i] && text[i] != '\\'
  }

  lemma {:induction false} WrittenForward(text: string, s: string)
    requires Writes(text, s)
    ensures ForwardSlashes(text) == s
  {
    if text != "" {
      assert forall i :: 0 <= i < |s[1..]| ==> s[1..][i] == s[i + 1] && text[1..][i] == text[i + 1];
      WrittenForward(text[1..], s[1..]);
    }
  }

  predicate Forward(s: string) {
    forall i :: 0 <= i < |s| ==> s[i] == '/'
  }

  lemma {:induction false} TrimsBefore(before: string, s: string)
    requires Forward(before) && (s == "" || s[0] != '/')
    ensures TrimStart(before + s) == s
  {
    if before == "" {
      assert before + s == s;
    } else {
      assert (before + s)[1..] == before[1..] + s;
      TrimsBefore(before[1..], s);
    }
  }

  lemma {:induction false} TrimsAfter(s: string, after: string)
    requires Forward(after) && (s == "" || s[|s| - 1] != '/')
    ensures TrimEnd(s + after) == s
  {
    if after == "" {
      assert s + after == s;
    } else {
      var n := |after| - 1;
      assert (s + after)[..|s + after| - 1] == s + after[..n];
      TrimsAfter(s, after[..n]);
    }
  }

  /** The text stands for p: p's components between slashes of either kind, with any slashes around them. */
  ghost predicate StandsFor(text: string, p: Path) {
    exists before, after :: Forward(before) && Forward(after) && Writes(text, before + Join(p) + after)
  }

  lemma NormalizesTo(text: string, p: Path)
    requires Clean(p) && StandsFor(text, p)
    ensures NormalizeVirtualPath(text) == Join(p)
  {
    var before, after :| Forward(before) && Forward(after) && Writes(text, before + Join(p) + after);
    WrittenForward(text, before + Join(p) + after);
    JoinIsClean(p);
    assert before + Join(p) + after == before + (Join(p) + after);
    TrimsBefore(before, Join(p) + after);
    TrimsAfter(Join(p), after);
  }

  /** However two paths are written, the helpers see their components. */
  lemma TextsAgree(ancestor: string, path: string, a: Path, p: Path)
    requires Clean(a) && Clean(p) && StandsFor(ancestor, a) && StandsFor(path, p)
    ensures PathContainsOrEquals(ancestor, path) <==> Covers(a, p)
    ensures ParentPath(path) == Join(Parent(p)) && FileName(path) == p[|p| - 1]
  {
    NormalizesTo(ancestor, a);
    NormalizesTo(path, p);
    NormalizeKeepsClean(a);
    NormalizeKeepsClean(p);
    ContainsIsPrefix(a, p);
    ParentIsDrop(p);
  }
}
