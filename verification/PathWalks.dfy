/** When walking up from a path in text form meets only texts in normal form. */
module PathWalks {
  import opened Paths

  predicate IsNormal(s: string) {
    NormalizeVirtualPath(s) == s
  }

  predicate DoubleSlashAt(s: string, k: int) {
    0 <= k && k + 1 < |s| && s[k] == '/' && s[k + 1] == '/'
  }

  ghost predicate HasDoubleSlash(s: string) {
    exists k :: DoubleSlashAt(s, k)
  }

  function Ancestor(s: string, n: nat): string {
    if n == 0 then s else ParentPath(Ancestor(s, n - 1))
  }

  lemma {:induction false} ForwardSlashesAt(s: string)
    ensures forall i :: 0 <= i < |s| ==> ForwardSlashes(s)[i] == if s[i] == '\\' then '/' else s[i]
  {
    if s != "" {
      ForwardSlashesAt(s[1..]);
    }
  }

  lemma {:induction false} TrimEndShortens(s: string)
    ensures |TrimEnd(s)| <= |s|
    ensures |TrimEnd(s)| == |s| ==> TrimEnd(s) == s
  {
    if s != "" && s[|s| - 1] == '/' {
      TrimEndShortens(s[..|s| - 1]);
    }
  }

  lemma {:induction false} TrimStartShortens(s: string)
    ensures |TrimStart(s)| <= |s|
    ensures |TrimStart(s)| == |s| ==> TrimStart(s) == s
  {
    if s != "" && s[0] == '/' {
      TrimStartShortens(s[1..]);
    }
  }

  /** A text is in normal form exactly when it has no backslash and no slash at either end. */
  lemma NormalIff(s: string)
    ensures IsNormal(s) <==>
            && (forall i :: 0 <= i < |s| ==> s[i] != '\\')
            && (s != "" ==> s[0] != '/' && s[|s| - 1] != '/')
  {
    ForwardSlashesAt(s);
    TrimStartShortens(ForwardSlashes(s));
    TrimEndShortens(TrimStart(ForwardSlashes(s)));
    if forall i :: 0 <= i < |s| ==> s[i] != '\\' {
      ForwardSlashesKeeps(s);
    }
  }

  /** One step up leaves normal form exactly when another slash stands before the last one. */
  lemma ParentIsNormalIff(s: string)
    requires IsNormal(s)
    ensures IsNormal(ParentPath(s)) <==> LastSlash(s) <= 0 || s[LastSlash(s) - 1] != '/'
    ensures ParentPath(s) == if LastSlash(s) < 0 then "" else s[..LastSlash(s)]
  {
    NormalIff(s);
    NormalIff(ParentPath(s));
  }

  lemma {:induction false} AncestorOfParent(s: string, n: nat)
    ensures Ancestor(s, n + 1) == Ancestor(ParentPath(s), n)
  {
    if n > 0 {
      AncestorOfParent(s, n - 1);
    }
  }

  lemma {:induction false} AncestorsAreNormal(s: string, n: nat)
    requires IsNormal(s) && !HasDoubleSlash(s)
    ensures IsNormal(Ancestor(s, n)) && !HasDoubleSlash(Ancestor(s, n))
  {
    if n > 0 {
      AncestorsAreNormal(s, n - 1);
      var t := Ancestor(s, n - 1);
      ParentIsNormalIff(t);
      var k := LastSlash(t);
      if k > 0 && t[k - 1] == '/' {
        assert DoubleSlashAt(t, k - 1);
      }
      if HasDoubleSlash(ParentPath(t)) {
        var i :| DoubleSlashAt(ParentPath(t), i);
        assert DoubleSlashAt(t, i);
      }
    }
  }

  lemma {:induction false} SomeAncestorIsNotNormal(s: string, k: nat) returns (n: nat)
    requires IsNormal(s) && DoubleSlashAt(s, k)
    ensures !IsNormal(Ancestor(s, n))
    decreases |s|
  {
    ParentIsNormalIff(s);
    var last := LastSlash(s);
    if s[last - 1] == '/' {
      n := 1;
      assert Ancestor(s, 0) == s;
    } else {
      assert DoubleSlashAt(ParentPath(s), k);
      n := SomeAncestorIsNotNormal(ParentPath(s), k);
      AncestorOfParent(s, n);
      n := n + 1;
    }
  }

  /**
   Walking up from a text in normal form meets only texts in normal form exactly when it has no
   empty component, that is, no two slashes in a row.
  */
  lemma AncestorsAreNormalIff(s: string)
    requires IsNormal(s)
    ensures (forall n: nat :: IsNormal(Ancestor(s, n))) <==> !HasDoubleSlash(s)
  {
    if HasDoubleSlash(s) {
      var k :| DoubleSlashAt(s, k);
      var n := SomeAncestorIsNotNormal(s, k);
    } else {
      forall n: nat ensures IsNormal(Ancestor(s, n)) {
        AncestorsAreNormal(s, n);
      }
    }
  }
}
