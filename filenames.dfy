/**
 * `urlToSafeFilename` / `url_to_safe_filename`: the name a documentation page is
 * stored under. A known path prefix is stripped, every `/` of what is left becomes
 * `__`, and `.md` is appended unless already present.
 */
module Filenames {
  import opened Common
  import opened Text
  import opened Engine

  /** The prefixes tried in order; the first one that occurs is stripped. */
  const Prefixes: seq<string> := ["/en/docs/claude-code/", "/docs/claude-code/", "/claude-code/"]

  /** Stripped when no prefix occurs (and, in TypeScript, when stripping left nothing). */
  const LooseMarker: string := "claude-code/"

  /** Index of the first prefix, from `k` on, that occurs in `u`. */
  function FirstPrefix(u: string, k: nat): (r: Option<nat>)
    requires k <= |Prefixes|
    ensures r.Some? ==> k <= r.value < |Prefixes| && Contains(u, Prefixes[r.value])
    ensures forall j | k <= j < (if r.Some? then r.value else |Prefixes|) :: !Contains(u, Prefixes[j])
    decreases |Prefixes| - k
  {
    if k == |Prefixes| then None
    else if Contains(u, Prefixes[k]) then Some(k)
    else FirstPrefix(u, k + 1)
  }

  /** The value of `path` after the loop over the prefixes. */
  function PrefixStripped(v: Variant, u: string): string
  {
    match FirstPrefix(u, 0)
    case Some(k) => (var seg := LastSegment(u, Prefixes[k]); if v.Python? || seg != [] then seg else u)
    case None => u
  }

  /**
   * The part of `u` the name is built from. Python strips the loose marker only
   * when no prefix occurred; TypeScript whenever the path is still the whole URL
   * path, and falls back to the whole URL path when a split leaves nothing.
   */
  function Remainder(v: Variant, u: string): string
  {
    var p := PrefixStripped(v, u);
    if v.Python? then
      if FirstPrefix(u, 0).None? && Contains(u, LooseMarker) then LastSegment(u, LooseMarker) else p
    else if p == u && Contains(u, LooseMarker) then
      var seg := LastSegment(u, LooseMarker); if seg != [] then seg else u
    else p
  }

  /** `name` with `.md` appended unless it already ends with it. */
  function WithMd(name: string): (r: string)
    ensures EndsWith(r, ".md")
  {
    if EndsWith(name, ".md") then name else name + ".md"
  }

  /** The file name built from the remainder `path`: `/` becomes `__`, then `.md` is added. */
  function NameOf(path: string): (r: string)
    ensures EndsWith(r, ".md")
  {
    if '/' !in path then WithMd(path) else WithMd(ReplaceAll(path, '/', "__"))
  }

  /** The stored file name of the page at URL path `u`. */
  function SafeFilename(v: Variant, u: string): (r: string)
    ensures EndsWith(r, ".md")
  {
    NameOf(Remainder(v, u))
  }

  /** The loop over the prefixes, with `break` at the first one found. */
  method StripKnownPrefix(v: Variant, urlPath: string) returns (path: string, found: bool)
    ensures path == PrefixStripped(v, urlPath) && found == FirstPrefix(urlPath, 0).Some?
  {
    path := urlPath;
    var i := 0;
    found := false;
    while i < |Prefixes| && !found
      invariant 0 <= i <= |Prefixes|
      invariant found ==> FirstPrefix(urlPath, 0).Some? && path == PrefixStripped(v, urlPath)
      invariant !found ==> path == urlPath && FirstPrefix(urlPath, 0) == FirstPrefix(urlPath, i)
    {
      if Contains(urlPath, Prefixes[i]) {
        assert FirstPrefix(urlPath, 0) == Some(i);
        var seg := LastSegment(urlPath, Prefixes[i]);
        path := if v.Python? || seg != [] then seg else urlPath;
        found := true;
      }
      i := i + 1;
    }
  }

  /** Both steps: the prefix loop, then the loose marker. */
  method StripPrefix(v: Variant, urlPath: string) returns (path: string)
    ensures path == Remainder(v, urlPath)
  {
    var found;
    path, found := StripKnownPrefix(v, urlPath);
    path := StripLooseMarker(v, urlPath, path, found);
  }

  /** The second step: the `for`/`else` branch in Python, the `path === urlPath` test in TypeScript. */
  method StripLooseMarker(v: Variant, urlPath: string, p: string, found: bool) returns (path: string)
    requires p == PrefixStripped(v, urlPath) && found == FirstPrefix(urlPath, 0).Some?
    ensures path == Remainder(v, urlPath)
  {
    path := p;
    if v.Python? {
      if !found && Contains(urlPath, LooseMarker) {
        path := LastSegment(urlPath, LooseMarker);
      }
    } else if path == urlPath && Contains(urlPath, LooseMarker) {
      var seg := LastSegment(urlPath, LooseMarker);
      path := if seg != [] then seg else urlPath;
    }
  }

  /** `urlToSafeFilename` / `url_to_safe_filename`. */
  method UrlToSafeFilename(v: Variant, urlPath: string) returns (name: string)
    ensures name == SafeFilename(v, urlPath)
  {
    var path := StripPrefix(v, urlPath);
    if '/' !in path {
      name := if EndsWith(path, ".md") then path else path + ".md";
    } else {
      name := ReplaceAll(path, '/', "__");
      if !EndsWith(name, ".md") {
        name := name + ".md";
      }
    }
  }

  /** A remainder the name can be built from without ambiguity. */
  predicate Tame(t: string)
  {
    t != [] && '_' !in t && '.' !in t && !Contains(t, DocsPrefix)
  }

  /** A page under the docs prefix is stored under what follows it, with `/` turned into `__`. */
  lemma DocsPageName(v: Variant, t: string)
    requires t != [] && !Contains(t, DocsPrefix)
    ensures SafeFilename(v, DocsPrefix + t) == WithMd(ReplaceAll(t, '/', "__"))
  {
    var u := DocsPrefix + t;
    LastSegmentAfterPrefix(DocsPrefix, t);
    assert DocsPrefix <= u;
    ContainsAt(u, Prefixes[0], 0);
    assert FirstPrefix(u, 0) == Some(0);
    assert Remainder(v, u) == t;
  }

  /** Under the docs prefix, different tame topics get different file names. */
  lemma DocsNamesInjective(v: Variant, t1: string, t2: string)
    requires Tame(t1) && Tame(t2)
    requires SafeFilename(v, DocsPrefix + t1) == SafeFilename(v, DocsPrefix + t2)
    ensures t1 == t2
  {
    DocsPageName(v, t1);
    DocsPageName(v, t2);
    var r1, r2 := ReplaceAll(t1, '/', "__"), ReplaceAll(t2, '/', "__");
    NoDotNoMd(t1, r1);
    NoDotNoMd(t2, r2);
    WithMdCancel(r1, r2);
    ReplaceAllInjective(t1, t2, '/', '_');
  }

  /** `/` becoming `__` brings no `.` in, so a name without dots does not end with `.md`. */
  lemma NoDotNoMd(t: string, r: string)
    requires '.' !in t && r == ReplaceAll(t, '/', "__")
    ensures !EndsWith(r, ".md")
  {
    assert '.' !in "__";
    assert '.' !in r;
    if |r| >= 3 {
      assert r[|r| - 3] in r;
      assert r[|r| - 3..][0] != ".md"[0];
    }
  }

  lemma WithMdCancel(r1: string, r2: string)
    requires !EndsWith(r1, ".md") && !EndsWith(r2, ".md") && WithMd(r1) == WithMd(r2)
    ensures r1 == r2
  {
    assert r1 + ".md" == r2 + ".md";
    assert r1 == (r1 + ".md")[..|r1|] && r2 == (r2 + ".md")[..|r2|];
  }

  /** Two-level paths keep both levels: `sdk/migration-guide` becomes `sdk__migration-guide.md`. */
  lemma MigrationGuideName(v: Variant)
    ensures SafeFilename(v, DocsPrefix + "sdk/migration-guide") == "sdk__migration-guide.md"
  {
    var t := "sdk/migration-guide";
    MigrationGuideFacts();
    DocsPageName(v, t);
    MigrationGuideReplaced();
  }

  lemma MigrationGuideFacts()
    ensures !Contains("sdk/migration-guide", DocsPrefix)
    ensures WithMd("sdk__migration-guide") == "sdk__migration-guide.md"
  {
    MigrationGuideShort();
    MigrationGuideMd();
  }

  lemma MigrationGuideShort()
    ensures !Contains("sdk/migration-guide", DocsPrefix)
  {
    if Contains("sdk/migration-guide", DocsPrefix) {
      ContainsLength("sdk/migration-guide", DocsPrefix);
    }
  }

  lemma MigrationGuideMd()
    ensures WithMd("sdk__migration-guide") == "sdk__migration-guide.md"
  {
    assert "sdk__migration-guide"[17] != '.';
  }

  lemma MigrationGuideReplaced()
    ensures ReplaceAll("sdk/migration-guide", '/', "__") == "sdk__migration-guide"
  {
    SplitFacts();
    ReplaceAllJoin("sdk", "migration-guide", '/', "__");
  }

  lemma SplitFacts()
    ensures "sdk" + (['/'] + "migration-guide") == "sdk/migration-guide"
    ensures "sdk" + ("__" + "migration-guide") == "sdk__migration-guide"
    ensures '/' !in "sdk" && '/' !in "migration-guide"
  {
    assert forall k | 0 <= k < |"sdk"| :: "sdk"[k] != '/';
    assert forall k | 0 <= k < |"migration-guide"| :: "migration-guide"[k] != '/';
  }

  /** Python stores the bare docs index under the name `.md`. */
  lemma PythonBareIndexName()
    ensures SafeFilename(Python, DocsPrefix) == ".md"
  {
    LastSegmentAfterPrefix(DocsPrefix, []);
    assert DocsPrefix + [] == DocsPrefix;
    ContainsAt(DocsPrefix, Prefixes[0], 0);
    assert FirstPrefix(DocsPrefix, 0) == Some(0);
  }

  /** A non-empty Python remainder is also TypeScript's. */
  lemma SameRemainderWhenNonEmpty(v: Variant, u: string)
    requires v.IsTypeScript() && Remainder(Python, u) != []
    ensures Remainder(v, u) == Remainder(Python, u)
  {
  }

  /** In TypeScript a non-empty URL path never leaves an empty remainder, and the remainder is a suffix. */
  lemma TypeScriptRemainderSuffix(v: Variant, u: string)
    requires v.IsTypeScript() && u != []
    ensures Remainder(v, u) != [] && EndsWith(u, Remainder(v, u))
  {
    var p := PrefixStripped(v, u);
    assert p == u || (p != [] && EndsWith(u, p));
    if p == u && Contains(u, LooseMarker) {
      var seg := LastSegment(u, LooseMarker);
      assert seg == [] || EndsWith(u, seg);
    }
  }

  /** A suffix ends with the same character as the whole. */
  lemma EndsWithLast(u: string, t: string)
    requires t != [] && EndsWith(u, t)
    ensures u != [] && t[|t| - 1] == u[|u| - 1]
  {
    assert u[|u| - |t|..][|t| - 1] == u[|u| - 1];
  }

  /** Every separator the name scan strips ends with `/`. */
  lemma SeparatorEndsWithSlash(sep: string)
    requires sep in Prefixes || sep == LooseMarker
    ensures sep != [] && sep[|sep| - 1] == '/'
  {
  }

  /** The separator Python splits on: the first prefix that occurs, or else the loose marker. */
  function Separator(u: string): string
  {
    match FirstPrefix(u, 0)
    case Some(k) => Prefixes[k]
    case None => LooseMarker
  }

  /** Python's remainder is empty only when the URL path ends with the stripped separator. */
  lemma EmptyRemainderEndsWithSlash(u: string)
    requires u != [] && Remainder(Python, u) == []
    ensures EndsWith(u, Separator(u))
    ensures u[|u| - 1] == '/'
  {
    var sep := Separator(u);
    assert Remainder(Python, u) == LastSegment(u, sep);
    LastSegmentEmpty(u, sep);
    SeparatorEndsWithSlash(sep);
    EndsWithLast(u, sep);
  }

  /** With an empty Python remainder, TypeScript builds the name from a suffix of `u` ending in `/`. */
  lemma LongerNameWhenEmpty(v: Variant, u: string)
    requires v.IsTypeScript() && u != [] && Remainder(Python, u) == []
    ensures var t := Remainder(v, u); t != [] && EndsWith(u, t) && t[|t| - 1] == '/'
    ensures EndsWith(SafeFilename(v, u), "__.md")
    ensures SafeFilename(v, u) != ".md"
  {
    var t := Remainder(v, u);
    TypeScriptRemainderSuffix(v, u);
    EmptyRemainderEndsWithSlash(u);
    EndsWithLast(u, t);
    SlashEndedName(t);
  }

  /** A remainder ending in `/` names a file ending in `__.md`, never the bare `.md`. */
  lemma SlashEndedName(t: string)
    requires t != [] && t[|t| - 1] == '/'
    ensures EndsWith(NameOf(t), "__.md")
    ensures NameOf(t) != ".md"
  {
    var r := ReplaceAll(t, '/', "__");
    ReplaceAllEnd(t, '/', "__");
    assert t == t[..|t| - 1] + ['/'];
    ReplaceAllSnoc(t[..|t| - 1], '/', '/', "__");
    var r0 := ReplaceAll(t[..|t| - 1], '/', "__");
    assert r == r0 + "__";
    assert '/' in t;
    assert r[|r| - 1] == '_';
    assert !EndsWith(r, ".md");
    assert NameOf(t) == r0 + "__.md";
  }

  /**
   * The TypeScript copies agree with Python except when Python's remainder is
   * empty; then Python's name is `.md` and TypeScript's is built from a longer path.
   */
  lemma VariantsAgreeUnlessEmptyRemainder(v: Variant, u: string)
    requires v.IsTypeScript()
    ensures SafeFilename(Python, u) != SafeFilename(v, u) <==> u != [] && Remainder(Python, u) == []
    ensures Remainder(Python, u) == [] ==> SafeFilename(Python, u) == ".md"
    ensures u != [] && Remainder(Python, u) == [] ==> EndsWith(SafeFilename(v, u), "__.md")
  {
    if Remainder(Python, u) != [] {
      SameRemainderWhenNonEmpty(v, u);
    } else if u != [] {
      LongerNameWhenEmpty(v, u);
    } else {
      assert FirstPrefix(u, 0).None? && !Contains(u, LooseMarker);
    }
  }
}
