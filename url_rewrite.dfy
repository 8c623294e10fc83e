/**
 * The client-side URL rewrite of script.js: an address under `/fg` is shown as
 * `/the-office-games`, keeping its query string and fragment. Only the
 * decision is modelled; reading `window.location` and calling
 * `history.replaceState` are browser I/O.
 */
module UrlRewrite {
  import opened Wrappers

  const Target: string := "/the-office-games"

  /** No `/` directly follows another `/` in `p`. */
  predicate NoDoubleSlash(p: string) {
    forall i :: 0 <= i < |p| - 1 ==> !(p[i] == '/' && p[i + 1] == '/')
  }

  /** `p` with every character other than `/`, in order. */
  function NonSlash(p: string): string {
    if p == [] then [] else (if p[0] == '/' then [] else [p[0]]) + NonSlash(p[1..])
  }

  /**
   * `pathname.replace(/\/+/g, '/')`: every run of `/` becomes a single `/`.
   * The result keeps the first character, has no doubled slash and is never
   * longer than the input.
   */
  function Normalize(p: string): (r: string)
    ensures |r| <= |p|
    ensures |p| > 0 ==> |r| > 0 && r[0] == p[0]
    ensures NoDoubleSlash(r)
  {
    if p == [] then []
    else if |p| >= 2 && p[0] == '/' && p[1] == '/' then Normalize(p[1..])
    else [p[0]] + Normalize(p[1..])
  }

  /** A path without doubled slashes is returned unchanged, and only such a path is. */
  lemma {:induction false} NormalizeFixedPoint(p: string)
    ensures Normalize(p) == p <==> NoDoubleSlash(p)
  {
    if p != [] {
      if |p| >= 2 && p[0] == '/' && p[1] == '/' {
        assert |Normalize(p[1..])| < |p|;
      } else {
        NormalizeFixedPoint(p[1..]);
        assert NoDoubleSlash(p) ==> NoDoubleSlash(p[1..]) by {
          if NoDoubleSlash(p) {
            forall i | 0 <= i < |p[1..]| - 1 ensures !(p[1..][i] == '/' && p[1..][i + 1] == '/') {
              assert p[1..][i] == p[i + 1] && p[1..][i + 1] == p[i + 2];
            }
          }
        }
        if NoDoubleSlash(p[1..]) && |p| >= 2 {
          forall i | 0 <= i < |p| - 1 ensures !(p[i] == '/' && p[i + 1] == '/') {
            if i > 0 {
              assert p[i] == p[1..][i - 1] && p[i + 1] == p[1..][i];
            }
          }
        }
      }
    }
  }

  /**
   * The collapse stated character by character: `p[i]` is dropped exactly
   * when it is a `/` and the character before it is also a `/`, so each run of
   * slashes keeps its first slash only. `afterSlash` says whether the character
   * before `p` was a `/`.
   */
  function CollapseFrom(p: string, afterSlash: bool): string {
    if p == [] then []
    else if p[0] == '/' && afterSlash then CollapseFrom(p[1..], true)
    else [p[0]] + CollapseFrom(p[1..], p[0] == '/')
  }

  function Collapse(p: string): string {
    CollapseFrom(p, false)
  }

  /** After a non-slash character, or at the end, what came before no longer matters. */
  lemma CollapseFromFlag(p: string)
    requires p == [] || p[0] != '/'
    ensures CollapseFrom(p, true) == CollapseFrom(p, false)
  {
  }

  /**
   * `Normalize` (which drops the first slash of each adjacent pair) and
   * `Collapse` (which keeps the first slash of each run) give the same path;
   * on a path starting with `/`, collapsing after a slash is the normal form
   * without its leading `/`.
   */
  lemma {:induction false} NormalizeIsCollapseFrom(p: string)
    ensures Normalize(p) == CollapseFrom(p, false)
    ensures p != [] && p[0] == '/' ==> |Normalize(p)| > 0 && CollapseFrom(p, true) == Normalize(p)[1..]
  {
    if p != [] {
      var rest := p[1..];
      NormalizeIsCollapseFrom(rest);
      if rest == [] || rest[0] != '/' {
        CollapseFromFlag(rest);
      }
      if |p| >= 2 && p[0] == '/' && p[1] == '/' {
        assert Normalize(rest)[0] == '/';
        assert Normalize(rest) == [Normalize(rest)[0]] + Normalize(rest)[1..];
      } else {
        assert Normalize(p) == [p[0]] + Normalize(rest);
      }
    }
  }

  /** Every run of `/` in the path becomes exactly one `/`, and nothing else changes. */
  lemma NormalizeIsCollapse(p: string)
    ensures Normalize(p) == Collapse(p)
  {
    NormalizeIsCollapseFrom(p);
  }

  /** Normalizing twice changes nothing more than normalizing once. */
  lemma NormalizeIdempotent(p: string)
    ensures Normalize(Normalize(p)) == Normalize(p)
  {
    NormalizeFixedPoint(Normalize(p));
  }

  /** Collapsing slash runs keeps every other character, in order. */
  lemma {:induction false} NormalizeKeepsNonSlash(p: string)
    ensures NonSlash(Normalize(p)) == NonSlash(p)
  {
    if p != [] {
      NormalizeKeepsNonSlash(p[1..]);
      if |p| >= 2 && p[0] == '/' && p[1] == '/' {
      } else {
        var r := Normalize(p[1..]);
        assert ([p[0]] + r)[1..] == r;
      }
    }
  }

  /**
   * `/^\/fg(?:\/index\.html)?\/?$/.test(s)`, read as the regular expression is
   * written: the literal `/fg`, then optionally `/index.html`, then optionally
   * `/`, then the end of the string.
   */
  predicate MatchesFgPattern(s: string) {
    |s| >= 3 && s[..3] == "/fg" && OptionalTail(s[3..])
  }

  /** The part of the pattern after `/fg`: `(?:\/index\.html)?\/?$`. */
  predicate OptionalTail(t: string) {
    OptionalSlash(t) ||
    (|t| >= 11 && t[..11] == "/index.html" && OptionalSlash(t[11..]))
  }

  /** `\/?$`. */
  predicate OptionalSlash(t: string) {
    t == "" || t == "/"
  }

  /** The four paths the pattern accepts. */
  const FgPaths: set<string> := {"/fg", "/fg/", "/fg/index.html", "/fg/index.html/"}

  /** The pattern accepts exactly the four listed paths. */
  lemma MatchesFgPatternExactly(s: string)
    ensures MatchesFgPattern(s) <==> s in FgPaths
  {
    if MatchesFgPattern(s) {
      var t := s[3..];
      assert s == "/fg" + t;
      if !OptionalSlash(t) {
        assert t == "/index.html" + t[11..];
      }
    }
    if s == "/fg" || s == "/fg/" || s == "/fg/index.html" || s == "/fg/index.html/" {
      assert s[..3] == "/fg";
      if |s| > 4 {
        assert s[3..][..11] == "/index.html";
      }
    }
  }

  /**
   * The address the IIFE of script.js moves to, if any: `None` when the
   * normalized path is not one of the `/fg` forms, when it already is the
   * target path, or when the current address already equals the new one.
   * A browser without `search`/`hash` is modelled by passing `""`.
   */
  function Rewrite(pathname: string, search: string, hash: string): (r: Option<string>)
    ensures r.Some? <==> Normalize(pathname) in FgPaths
    ensures r.Some? ==> r.value == Target + search + hash
  {
    var normalized := Normalize(pathname);
    MatchesFgPatternExactly(normalized);
    var shouldRewrite := MatchesFgPattern(normalized);
    if shouldRewrite && normalized != Target then
      var newUrl := Target + search + hash;
      if pathname + search + hash != newUrl then Some(newUrl)
      else
        SameAddressIsTarget(pathname, search, hash);
        TargetIsNormal();
        None
    else
      None
  }

  /** Only the target path itself can give the target address for the same query and fragment. */
  lemma SameAddressIsTarget(pathname: string, search: string, hash: string)
    requires pathname + search + hash == Target + search + hash
    ensures pathname == Target
  {
    var a, b := pathname + search + hash, Target + search + hash;
    assert |pathname| == |Target|;
    assert a[..|pathname|] == pathname;
    assert b[..|Target|] == Target;
  }

  /** The guards of lines 17 and 21 never cancel a rewrite the pattern asked for:
    * the target path is not an `/fg` form, so the new address always differs. */
  lemma GuardsNeverBlock(pathname: string, search: string, hash: string)
    requires Normalize(pathname) in FgPaths
    ensures Normalize(pathname) != Target
    ensures pathname + search + hash != Target + search + hash
  {
    var normalized := Normalize(pathname);
    TargetNotFg();
    assert normalized != Target;
    if pathname + search + hash == Target + search + hash {
      SameAddressIsTarget(pathname, search, hash);
      TargetIsNormal();
      assert false;
    }
  }

  /** Once on the target address, running the rewrite again does nothing. */
  lemma RewriteSettles(search: string, hash: string)
    ensures Rewrite(Target, search, hash) == None
  {
    TargetIsNormal();
  }

  /** The target path is already normal and is not an `/fg` form. */
  lemma TargetIsNormal()
    ensures Normalize(Target) == Target
    ensures Target !in FgPaths
  {
    TargetNotFg();
    TargetHasNoDoubleSlash();
    NormalizeFixedPoint(Target);
  }

  lemma TargetNotFg()
    ensures Target !in FgPaths
  {
  }

  lemma TargetHasNoDoubleSlash()
    ensures NoDoubleSlash(Target)
  {
    assert forall i :: 1 <= i < |Target| ==> Target[i] != '/';
  }
}
