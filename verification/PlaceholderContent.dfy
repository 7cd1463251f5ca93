/** When the content of a placeholder agrees with the listing. */
module PlaceholderContent {
  import opened Paths
  import opened Listing
  import opened Wrappers
  import opened SyncRoot

  // ---------------------------------------------------------------------------------------------
  // Versions that name a content
  // ---------------------------------------------------------------------------------------------

  /** The code points the platform takes for white space. */
  const WHITE_SPACE: set<int> :=
    {0x9, 0xA, 0xB, 0xC, 0xD, 0x20, 0x85, 0xA0, 0x1680, 0x2000, 0x2001, 0x2002, 0x2003, 0x2004, 0x2005, 0x2006, 0x2007,
     0x2008, 0x2009, 0x200A, 0x2028, 0x2029, 0x202F, 0x205F, 0x3000}

  lemma WhiteSpaceIs(c: char)
    ensures IsWhiteSpace(c) <==> c as int in WHITE_SPACE
  {
  }

  predicate AllWhite(s: string) {
    forall i :: 0 <= i < |s| ==> IsWhiteSpace(s[i])
  }

  /** sha is core in lower case. */
  predicate LowerHex(core: string, sha: string) {
    && |sha| == |core| == 64
    && forall i :: 0 <= i < 64 ==>
         || ('0' <= core[i] <= '9' && sha[i] == core[i])
         || ('a' <= core[i] <= 'f' && sha[i] == core[i])
         || ('A' <= core[i] <= 'F' && sha[i] as int == core[i] as int + 32)
  }

  /** Between white space the version is 64 hexadecimal digits, sha in lower case. */
  ghost predicate NamesContent(version: string, sha: string) {
    exists before, core, after :: version == before + core + after && AllWhite(before) && AllWhite(after) && LowerHex(core, sha)
  }

  lemma {:induction false} LowerAt(s: string, i: nat)
    requires i < |s|
    ensures LowerAscii(s)[i] == if 'A' <= s[i] <= 'Z' then (s[i] as int + 32) as char else s[i]
  {
    if i > 0 {
      LowerAt(s[1..], i - 1);
    }
  }

  lemma LowerOfHex(core: string, sha: string)
    ensures LowerHex(core, sha) <==>
            |core| == 64 && (forall i :: 0 <= i < |core| ==> IsHexDigit(core[i])) && sha == LowerAscii(core)
  {
    forall i | 0 <= i < |core|
      ensures LowerAscii(core)[i] == if 'A' <= core[i] <= 'Z' then (core[i] as int + 32) as char else core[i]
    {
      LowerAt(core, i);
    }
  }

  lemma {:induction false} TrimLeavesCore(before: string, core: string, after: string)
    requires AllWhite(before) && AllWhite(after)
    requires core != "" && !IsWhiteSpace(core[0]) && !IsWhiteSpace(core[|core| - 1])
    ensures TrimWhiteSpace(before + core + after) == core
    decreases |before| + |after|
  {
    var s := before + core + after;
    if before != "" {
      assert s[0] == before[0] && s[1..] == before[1..] + core + after;
      TrimLeavesCore(before[1..], core, after);
    } else {
      assert s == core + after && s[0] == core[0];
      if after != "" {
        var n := |after| - 1;
        assert s[|s| - 1] == after[n] && s[..|s| - 1] == "" + core + after[..n];
        TrimLeavesCore("", core, after[..n]);
      } else {
        assert s == core;
      }
    }
  }

  lemma {:induction false} TrimSplits(s: string) returns (before: string, after: string)
    ensures AllWhite(before) && AllWhite(after) && s == before + TrimWhiteSpace(s) + after
  {
    if s == "" {
      before, after := "", "";
    } else if IsWhiteSpace(s[0]) {
      before, after := TrimSplits(s[1..]);
      before := [s[0]] + before;
    } else if IsWhiteSpace(s[|s| - 1]) {
      before, after := TrimSplits(s[..|s| - 1]);
      after := after + [s[|s| - 1]];
    } else {
      before, after := "", "";
    }
  }

  lemma HexIsNotWhite(core: string, sha: string)
    requires LowerHex(core, sha)
    ensures core != "" && !IsWhiteSpace(core[0]) && !IsWhiteSpace(core[|core| - 1])
  {
  }

  /** The content hash read off a version is the one the version names. */
  lemma VersionNamesContent(e: Entry, sha: string)
    ensures ContentShaFromVersion(e) == Some(sha) <==> !e.isDirectory && e.version.Some? && NamesContent(e.version.value, sha)
  {
    if !e.isDirectory && e.version.Some? {
      var version := e.version.value;
      var trimmed := TrimWhiteSpace(version);
      LowerOfHex(trimmed, sha);
      if ContentShaFromVersion(e) == Some(sha) {
        var before, after := TrimSplits(version);
        assert NamesContent(version, sha);
      }
      if NamesContent(version, sha) {
        var before, core, after :| version == before + core + after && AllWhite(before) && AllWhite(after) && LowerHex(core, sha);
        HexIsNotWhite(core, sha);
        TrimLeavesCore(before, core, after);
        assert version[|before|] == core[0];
      }
    }
  }

  // ---------------------------------------------------------------------------------------------
  // Content that agrees
  // ---------------------------------------------------------------------------------------------

  predicate HasContent(content: Content, size: int, sha: string) {
    content.size == size && content.sha == sha
  }

  /**
   What is known of the content does not contradict the listing.  A version that names a content is
   compared with a file that is online; any other version that is not blank says nothing; without
   one the provider is asked for the content, and a read that fails says nothing.
  */
  ghost predicate ContentAgrees(readable: Option<Content>, offline: bool, e: Entry, providerSha: Option<string>) {
    readable.Some? && !e.isDirectory ==>
      && (forall sha :: e.version.Some? && NamesContent(e.version.value, sha) && !offline ==> HasContent(readable.value, e.size, sha))
      && (Blank(e.version) && providerSha.Some? ==> HasContent(readable.value, e.size, providerSha.value))
  }

  lemma NamedIsNotBlank(version: string, sha: string)
    requires NamesContent(version, sha)
    ensures !Blank(Some(version))
  {
    var before, core, after :| version == before + core + after && AllWhite(before) && AllWhite(after) && LowerHex(core, sha);
    HexIsNotWhite(core, sha);
    assert version[|before|] == core[0];
  }

  /** A file placeholder is taken to differ exactly when its content does not agree. */
  lemma DiffersIff(item: Item, e: Entry, providerSha: Option<string>)
    requires item.CloudFile? && !e.isDirectory
    ensures PlaceholderDiffers(item, e, providerSha) <==> !ContentAgrees(item.readable, item.offline, e, providerSha)
  {
    forall sha ensures ContentShaFromVersion(e) == Some(sha) <==> e.version.Some? && NamesContent(e.version.value, sha) {
      VersionNamesContent(e, sha);
    }
    if e.version.Some? {
      forall sha | NamesContent(e.version.value, sha) ensures !Blank(e.version) {
        NamedIsNotBlank(e.version.value, sha);
      }
    }
  }
}
