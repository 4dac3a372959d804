/** The two value rules of the object mapping profile: the relative path shown
    for a stored file, and the storage tier of a newly registered company. */
module PathMapping {
  import opened Wrappers
  import opened Text

  const WebRoot: string := "wwwroot/"
  const Uploads: string := "/uploads/"

  /** The path with every backslash turned into a forward slash. */
  function ForwardSlashes(path: string): (r: string)
    ensures '\\' !in r
  {
    ReplaceCharRemoves(path, '\\', "/");
    ReplaceChar(path, '\\', "/")
  }

  /** GetRelativePath: null and "" are returned as they are; otherwise, after the
      slashes are normalised, the part after the first "wwwroot/" (with a leading
      "/"), else the part from the first "/uploads/", else the whole path. */
  function RelativePath(fullPath: Option<string>): (r: Option<string>)
    ensures fullPath.None? || fullPath.value == "" ==> r == fullPath
    ensures fullPath.Some? ==> r.Some?
  {
    match fullPath
    case None => None
    case Some(path) =>
      if path == "" then fullPath
      else
        var p := Replace(path, "\\", "/");
        var w := IndexOf(p, WebRoot);
        if w >= 0 then Some("/" + p[w + |WebRoot|..])
        else
          var u := IndexOf(p, Uploads);
          if u >= 0 then Some(p[u..]) else Some(p)
  }

  /** The one-character Replace of the mapping is ForwardSlashes. */
  lemma NormalisedPath(path: string)
    ensures Replace(path, "\\", "/") == ForwardSlashes(path)
  {
    ReplaceOneChar(path, '\\', "/");
  }

  /** No backslash survives in a mapped path. */
  lemma RelativePathNoBackslash(fullPath: Option<string>)
    requires fullPath.Some? && fullPath.value != ""
    ensures '\\' !in RelativePath(fullPath).value
  {
    var p := ForwardSlashes(fullPath.value);
    NormalisedPath(fullPath.value);
    var w := IndexOf(p, WebRoot);
    if w >= 0 {
      SuffixAbsent(p, w + |WebRoot|, '\\');
    } else {
      var u := IndexOf(p, Uploads);
      if u >= 0 {
        SuffixAbsent(p, u, '\\');
      }
    }
  }

  lemma SuffixAbsent(s: string, k: nat, c: char)
    requires k <= |s| && c !in s
    ensures c !in s[k..]
  {
  }

  /** When "wwwroot/" occurs, the result is "/" and what follows its first occurrence. */
  lemma RelativePathUnderWebRoot(path: string)
    requires path != "" && Contains(ForwardSlashes(path), WebRoot)
    ensures exists w :: (0 <= w && w + |WebRoot| <= |ForwardSlashes(path)| &&
      ForwardSlashes(path)[..w] + WebRoot + RelativePath(Some(path)).value[1..] == ForwardSlashes(path) &&
      !Contains(ForwardSlashes(path)[..w + |WebRoot| - 1], WebRoot))
    ensures RelativePath(Some(path)).value[..1] == "/"
  {
    var p := ForwardSlashes(path);
    var w := IndexOf(p, WebRoot);
    var r := RelativePath(Some(path)).value;
    WebRootResult(path);
    SplitAround(p, WebRoot, w);
    BeforeFirstOccurrence(p, WebRoot, w);
    assert p[..w] + WebRoot + r[1..] == p;
  }

  /** The value RelativePath computes when "wwwroot/" occurs. */
  lemma WebRootResult(path: string)
    requires path != "" && Contains(ForwardSlashes(path), WebRoot)
    ensures var p := ForwardSlashes(path);
      var w := IndexOf(p, WebRoot);
      0 <= w && w + |WebRoot| <= |p| &&
      RelativePath(Some(path)).value == "/" + p[w + |WebRoot|..] &&
      RelativePath(Some(path)).value[1..] == p[w + |WebRoot|..]
  {
    NormalisedPath(path);
  }

  /** A string is what comes before an occurrence, the occurrence, and what
      follows it. */
  lemma SplitAround(p: string, pat: string, w: int)
    requires OccursAt(p, pat, w)
    ensures p[..w] + pat + p[w + |pat|..] == p
  {
    assert p == p[..w] + p[w..w + |pat|] + p[w + |pat|..];
  }

  /** The first occurrence is not preceded by another complete one: the
      prefix ending one character short of its end does not contain it. */
  lemma BeforeFirstOccurrence(p: string, pat: string, w: int)
    requires |pat| > 0 && w >= 0 && w == IndexOf(p, pat)
    ensures !Contains(p[..w + |pat| - 1], pat)
  {
    var q := p[..w + |pat| - 1];
    forall i | 0 <= i <= |q|
      ensures !OccursAt(q, pat, i)
    {
      if i + |pat| <= |q| {
        assert i < w && !OccursAt(p, pat, i);
        assert q[i..i + |pat|] == p[i..i + |pat|];
      }
    }
  }

  /** Without "wwwroot/" but with "/uploads/", the result is the suffix of the
      normalised path that starts at the first "/uploads/". */
  lemma RelativePathUnderUploads(path: string)
    requires path != "" && !Contains(ForwardSlashes(path), WebRoot) && Contains(ForwardSlashes(path), Uploads)
    ensures StartsWith(RelativePath(Some(path)).value, Uploads)
    ensures EndsWith(ForwardSlashes(path), RelativePath(Some(path)).value)
  {
    var p := ForwardSlashes(path);
    NormalisedPath(path);
    var u := IndexOf(p, Uploads);
    var r := RelativePath(Some(path)).value;
    assert r == p[u..];
    assert r[..|Uploads|] == p[u..u + |Uploads|];
  }

  /** With neither marker, the result is the normalised path itself. */
  lemma RelativePathOtherwise(path: string)
    requires path != "" && !Contains(ForwardSlashes(path), WebRoot) && !Contains(ForwardSlashes(path), Uploads)
    ensures RelativePath(Some(path)) == Some(ForwardSlashes(path))
  {
    NormalisedPath(path);
  }

  /** The StorageTier rule of the registration mapping: blank, or "string" in any
      case once trimmed, becomes null; anything else is stored trimmed. */
  function StorageTier(tier: Option<string>): (r: Option<string>)
  {
    if tier.None? || IsBlank(tier.value) || Lower(Trim(tier.value)) == "string" then None
    else Some(Trim(tier.value))
  }

  /** A stored tier is trimmed, non-empty and never the placeholder "string". */
  lemma StorageTierShape(tier: Option<string>)
    ensures StorageTier(tier).Some? ==>
      var t := StorageTier(tier).value;
      t != "" && Trim(t) == t && Lower(t) != "string"
    ensures StorageTier(tier).None? <==>
      tier.None? || Trim(tier.value) == "" || Lower(Trim(tier.value)) == "string"
  {
    if tier.Some? {
      TrimEmptyIffBlank(tier.value);
      TrimIdempotent(tier.value);
    }
  }

  /** Mapping a tier that was already mapped changes nothing. */
  lemma StorageTierIdempotent(tier: Option<string>)
    ensures StorageTier(StorageTier(tier)) == StorageTier(tier)
  {
    if StorageTier(tier).Some? {
      var t := Trim(tier.value);
      TrimIdempotent(tier.value);
      TrimEmptyIffBlank(tier.value);
      TrimEmptyIffBlank(t);
    }
  }
}
