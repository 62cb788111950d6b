/** The path handling both node services share: `NormalizePath`,
    `ConvertToWebPath` and the containment check `IsPathWithinRoot`. */
module Paths {
  import opened Common
  import opened Text
  import opened Host

  /** Turns a web-style relative path into a native one: null or empty gives
      the empty string; otherwise every `/` becomes the native separator and
      every character the platform calls invalid in a path is dropped. */
  function NormalizePath(path: Option<string>, p: Platform): (r: string)
    ensures path.None? || path == Some([]) ==> r == []
    ensures path.Some? ==> |r| <= |path.value|
    ensures forall i :: 0 <= i < |r| ==> r[i] !in p.invalidPathChars
    ensures p.separator != '/' ==> '/' !in r
    ensures path.Some? && p.separator != '/' && p.separator !in p.invalidPathChars ==>
      multiset(r)[p.separator] == multiset(path.value)['/'] + multiset(path.value)[p.separator]
  {
    if path.None? || path.value == [] then []
    else
      var replaced := Replace(path.value, '/', p.separator);
      ReplaceCounts(path.value, '/', p.separator);
      var r := RemoveChars(replaced, p.invalidPathChars);
      assert p.separator != '/' && '/' in r ==> multiset(r)['/'] > 0;
      r
  }

  /** Turns a native relative path into a web one: every native separator
      becomes `/`. */
  function ConvertToWebPath(path: string, p: Platform): (r: string)
    ensures |r| == |path|
    ensures p.separator != '/' ==> p.separator !in r
  {
    Replace(path, p.separator, '/')
  }

  /** The containment check: the canonical form of `fullPath` starts with the
      canonical form of `rootPath`, ignoring case. */
  function IsPathWithinRoot(fullPath: string, rootPath: string, p: Platform): (r: bool)
    ensures r <==> (|p.fullPath(rootPath)| <= |p.fullPath(fullPath)| &&
      forall i :: 0 <= i < |p.fullPath(rootPath)| ==> FoldCase(p.fullPath(fullPath)[i]) == FoldCase(p.fullPath(rootPath)[i]))
  {
    StartsWithIgnoreCase(p.fullPath(fullPath), p.fullPath(rootPath))
  }

  /** A web path with no invalid character and no native separator comes
      back unchanged from `NormalizePath` followed by `ConvertToWebPath`. */
  lemma WebPathRoundTrip(s: string, p: Platform)
    requires forall i :: 0 <= i < |s| ==> s[i] !in p.invalidPathChars
    requires p.separator !in p.invalidPathChars
    requires p.separator == '/' || p.separator !in s
    ensures ConvertToWebPath(NormalizePath(Some(s), p), p) == s
  {
    if s != [] {
      var replaced := Replace(s, '/', p.separator);
      RemoveCharsAbsent(replaced, p.invalidPathChars);
      assert NormalizePath(Some(s), p) == replaced;
      var back := Replace(replaced, p.separator, '/');
      forall i | 0 <= i < |s| ensures back[i] == s[i] {
        if s[i] != '/' {
          assert s[i] != p.separator by {
            if p.separator != '/' {
              assert s[i] in s;
            }
          }
        }
      }
      assert back == s;
    }
  }

  /** Normalizing twice is normalizing once. */
  lemma NormalizeIdempotent(path: Option<string>, p: Platform)
    requires p.separator !in p.invalidPathChars
    ensures NormalizePath(Some(NormalizePath(path, p)), p) == NormalizePath(path, p)
  {
    var r := NormalizePath(path, p);
    if r != [] {
      assert Replace(r, '/', p.separator) == r;
      RemoveCharsAbsent(r, p.invalidPathChars);
    }
  }

  /** Every root contains itself. */
  lemma RootIsWithinRoot(rootPath: string, p: Platform)
    ensures IsPathWithinRoot(rootPath, rootPath, p)
  {
  }

  /** Any path whose canonical form extends the root's canonical form is
      accepted, whatever follows the root: there is no check for a separator. */
  lemma CanonicalPrefixIsWithinRoot(fullPath: string, rootPath: string, p: Platform)
    requires p.fullPath(rootPath) <= p.fullPath(fullPath)
    ensures IsPathWithinRoot(fullPath, rootPath, p)
  {
  }

  /** So a sibling directory whose name extends the root's name passes. */
  lemma PrefixSiblingIsWithinRoot(p: Platform)
    requires p.fullPath("/data/logs") == "/data/logs"
    requires p.fullPath("/data/logs2") == "/data/logs2"
    ensures IsPathWithinRoot("/data/logs2", "/data/logs", p)
  {
    CanonicalPrefixIsWithinRoot("/data/logs2", "/data/logs", p);
  }

  /** The comparison ignores case. */
  lemma CaseIgnoredByContainment(p: Platform)
    requires p.fullPath("/d") == "/d"
    requires p.fullPath("/D/a") == "/D/a"
    ensures IsPathWithinRoot("/D/a", "/d", p)
  {
    assert FoldCase('d') == FoldCase('D');
  }

  /** A `..` that canonicalises outside the root is rejected; one that stays
      inside is accepted. */
  lemma ParentSegments(p: Platform)
    requires p.fullPath("/data/logs") == "/data/logs"
    requires p.fullPath("/data/logs/../../etc/passwd") == "/etc/passwd"
    requires p.fullPath("/data/logs/a/../b.log") == "/data/logs/b.log"
    ensures !IsPathWithinRoot("/data/logs/../../etc/passwd", "/data/logs", p)
    ensures IsPathWithinRoot("/data/logs/a/../b.log", "/data/logs", p)
  {
    assert FoldCase("/etc/passwd"[1]) != FoldCase("/data/logs"[1]);
  }
}
