/**
 * The build-artifact cleaner: expand the workspace patterns of `package.json`,
 * collect the files named like `.<hex>-<hex>.bun-build` in each workspace
 * directory, and report how many were removed per directory. Directory
 * listings are a `readdir` parameter returning `None` where reading throws.
 */
module CleanArtifacts {
  import opened Common
  import opened Text
  import opened Paths

  /** A directory entry as `readdir(..., { withFileTypes: true })` returns it. */
  datatype DirEntry = DirEntry(name: string, isDirectory: bool)

  const ArtifactSuffix: string := ".bun-build"

  predicate LowerHex(c: char)
  {
    '0' <= c <= '9' || 'a' <= c <= 'f'
  }

  /** `[a-f0-9]+`. */
  predicate HexRun(s: string)
  {
    s != [] && forall i | 0 <= i < |s| :: LowerHex(s[i])
  }

  /** `BUILD_ARTIFACT_PATTERN` as the shape it describes. */
  ghost predicate ArtifactShape(name: string)
  {
    exists h1: string, h2: string :: HexRun(h1) && HexRun(h2) && name == "." + h1 + "-" + h2 + ArtifactSuffix
  }

  /**
   * `BUILD_ARTIFACT_PATTERN.test(name)`: a leading `.`, the `.bun-build`
   * suffix, and between them two hex runs around the first `-`.
   */
  function IsArtifactName(name: string): (b: bool)
    ensures b ==> |name| >= 4 + |ArtifactSuffix| && name[0] == '.' && EndsWith(name, ArtifactSuffix)
  {
    if |name| < 1 + |ArtifactSuffix| || name[0] != '.' || !EndsWith(name, ArtifactSuffix) then false
    else
      var middle := name[1..|name| - |ArtifactSuffix|];
      var k := IndexOf(middle, '-');
      0 < k && HexRun(middle[..k]) && HexRun(middle[k + 1..])
  }

  /** The test accepts exactly the names of the artifact shape. */
  lemma ArtifactNameIff(name: string)
    ensures IsArtifactName(name) <==> ArtifactShape(name)
  {
    if IsArtifactName(name) {
      NameHasShape(name);
    }
    if ArtifactShape(name) {
      var h1: string, h2: string :| HexRun(h1) && HexRun(h2) && name == "." + h1 + "-" + h2 + ArtifactSuffix;
      ShapeAccepted(h1, h2);
    }
  }

  lemma NameHasShape(name: string)
    requires IsArtifactName(name)
    ensures ArtifactShape(name)
  {
    var middle := name[1..|name| - |ArtifactSuffix|];
    var k := IndexOf(middle, '-');
    var h1, h2 := middle[..k], middle[k + 1..];
    assert HexRun(h1) && HexRun(h2);
    assert middle == h1 + "-" + h2;
    assert name == "." + middle + ArtifactSuffix;
  }

  lemma ShapeAccepted(h1: string, h2: string)
    requires HexRun(h1) && HexRun(h2)
    ensures IsArtifactName("." + h1 + "-" + h2 + ArtifactSuffix)
  {
    var name := "." + h1 + "-" + h2 + ArtifactSuffix;
    var middle := h1 + "-" + h2;
    assert name == "." + middle + ArtifactSuffix;
    assert name[1..|name| - |ArtifactSuffix|] == middle;
    assert EndsWith(name, ArtifactSuffix);
    assert '-' !in h1 by {
      forall i | 0 <= i < |h1| ensures h1[i] != '-' { assert LowerHex(h1[i]); }
    }
    assert middle[..|h1|] == h1;
    assert IndexOf(middle, '-') == |h1|;
    assert middle[|h1| + 1..] == h2;
  }

  // ---------------------------------------------------------------------------
  // Workspace expansion and artifact discovery.

  /** `entries.filter(keep).map(e => join(base, e.name))`. */
  function JoinedWhere(base: string, entries: seq<DirEntry>, keep: DirEntry -> bool): (r: seq<string>)
    ensures |r| <= |entries|
    decreases |entries|
  {
    if entries == [] then []
    else (if keep(entries[0]) then [Join(base, entries[0].name)] else []) + JoinedWhere(base, entries[1..], keep)
  }

  /** The paths are exactly the kept entries joined to `base`. */
  lemma {:induction false} JoinedWhereMembers(base: string, entries: seq<DirEntry>, keep: DirEntry -> bool)
    ensures forall x :: x in JoinedWhere(base, entries, keep) <==>
      exists e | e in entries :: keep(e) && x == Join(base, e.name)
    decreases |entries|
  {
    if entries != [] {
      var e0 := entries[0];
      var head := if keep(e0) then [Join(base, e0.name)] else [];
      var rest := JoinedWhere(base, entries[1..], keep);
      JoinedWhereMembers(base, entries[1..], keep);
      assert JoinedWhere(base, entries, keep) == head + rest;
      forall x ensures x in head + rest <==> exists e | e in entries :: keep(e) && x == Join(base, e.name) {
        if x in head {
          assert e0 in entries;
        } else if x in rest {
          var e :| e in entries[1..] && keep(e) && x == Join(base, e.name);
          assert e in entries;
        }
        if exists e | e in entries :: keep(e) && x == Join(base, e.name) {
          var e :| e in entries && keep(e) && x == Join(base, e.name);
          if e != e0 {
            assert e in entries[1..];
          }
        }
      }
    }
  }

  predicate IsSubdir(e: DirEntry)
  {
    e.isDirectory
  }

  predicate IsArtifactEntry(e: DirEntry)
  {
    IsArtifactName(e.name)
  }

  /** The subdirectories of `base` in listing order, joined to it. */
  function SubdirPaths(base: string, entries: seq<DirEntry>): seq<string>
  {
    JoinedWhere(base, entries, IsSubdir)
  }

  /**
   * `expandWorkspacePattern`: a pattern without `*` is itself; a directory name
   * followed by `/` and `*` is the subdirectories of that directory (none when
   * it cannot be read); any other pattern with `*` is kept as written.
   */
  function ExpandWorkspacePattern(pattern: string, readdir: string -> Option<seq<DirEntry>>): (r: seq<string>)
    ensures '*' !in pattern ==> r == [pattern]
    ensures r != [pattern] ==>
      '*' in pattern && 0 <= IndexOf(pattern, '/') && pattern[IndexOf(pattern, '/') + 1..] == "*"
  {
    if '*' !in pattern then [pattern]
    else
      var slash := IndexOf(pattern, '/');
      if slash < 0 || pattern[slash + 1..] != "*" then [pattern]
      else
        match readdir(pattern[..slash])
        case None => []
        case Some(entries) => SubdirPaths(pattern[..slash], entries)
  }

  /** The matching entries of a listing, joined to `dir`. */
  function ArtifactPaths(dir: string, entries: seq<DirEntry>): seq<string>
  {
    JoinedWhere(dir, entries, IsArtifactEntry)
  }

  /** `findBuildArtifacts`: nothing when the directory cannot be read. */
  function FindBuildArtifacts(dir: string, readdir: string -> Option<seq<DirEntry>>): (r: seq<string>)
    ensures readdir(dir).None? ==> r == []
    ensures readdir(dir).Some? ==> |r| <= |readdir(dir).value|
  {
    match readdir(dir)
    case None => []
    case Some(entries) => ArtifactPaths(dir, entries)
  }

  /** `xs.map(f).flat()`. */
  function FlatMap(xs: seq<string>, f: string -> seq<string>): (r: seq<string>)
    ensures forall y :: y in r <==> exists x | x in xs :: y in f(x)
    decreases |xs|
  {
    if xs == [] then []
    else
      var rest := FlatMap(xs[1..], f);
      assert forall x :: x in xs <==> x == xs[0] || x in xs[1..];
      f(xs[0]) + rest
  }

  // ---------------------------------------------------------------------------
  // The per-directory report.

  /** `artifact.substring(0, artifact.lastIndexOf('/'))`: empty when there is no `/`. */
  function DirOf(artifact: string): string
  {
    var i := LastIndexOf(artifact, '/');
    if i < 0 then [] else artifact[..i]
  }

  /** `artifactsByDir`: a `Map` keeps its keys in insertion order, so a list of pairs. */
  type Tally = seq<(string, nat)>

  /** `map.set(dir, (map.get(dir) || 0) + 1)`. */
  function Bump(t: Tally, dir: string): (r: Tally)
    ensures r != [] && |r| <= |t| + 1
    decreases |t|
  {
    if t == [] then [(dir, 1)]
    else if t[0].0 == dir then [(dir, t[0].1 + 1)] + t[1..]
    else [t[0]] + Bump(t[1..], dir)
  }

  /** The tally after counting every artifact in order. */
  function TallyOf(artifacts: seq<string>): (t: Tally)
    ensures t == [] <==> artifacts == []
    ensures |t| <= |artifacts|
    decreases |artifacts|
  {
    if artifacts == [] then [] else Bump(TallyOf(artifacts[..|artifacts| - 1]), DirOf(artifacts[|artifacts| - 1]))
  }

  /** The count a tally holds for `dir` (`get(dir) || 0`). */
  function CountFor(t: Tally, dir: string): nat
    decreases |t|
  {
    if t == [] then 0 else if t[0].0 == dir then t[0].1 else CountFor(t[1..], dir)
  }

  /** The sum of all counts. */
  function Total(t: Tally): nat
    decreases |t|
  {
    if t == [] then 0 else t[0].1 + Total(t[1..])
  }

  /** The number of artifacts in `dir`. */
  function InDir(artifacts: seq<string>, dir: string): nat
    decreases |artifacts|
  {
    if artifacts == [] then 0
    else InDir(artifacts[..|artifacts| - 1], dir) + (if DirOf(artifacts[|artifacts| - 1]) == dir then 1 else 0)
  }

  /** The directories a tally has counted. */
  function Keys(t: Tally): set<string>
    decreases |t|
  {
    if t == [] then {} else {t[0].0} + Keys(t[1..])
  }

  /** No directory appears twice, as in a `Map`. */
  predicate DistinctDirs(t: Tally)
    decreases |t|
  {
    t == [] || (t[0].0 !in Keys(t[1..]) && DistinctDirs(t[1..]))
  }

  lemma {:induction false} BumpCounts(t: Tally, dir: string)
    requires DistinctDirs(t)
    ensures DistinctDirs(Bump(t, dir))
    ensures Keys(Bump(t, dir)) == Keys(t) + {dir}
    ensures Total(Bump(t, dir)) == Total(t) + 1
    ensures forall d :: CountFor(Bump(t, dir), d) == CountFor(t, d) + (if d == dir then 1 else 0)
    decreases |t|
  {
    if t != [] && t[0].0 != dir {
      BumpCounts(t[1..], dir);
      assert Bump(t, dir)[1..] == Bump(t[1..], dir);
    } else if t != [] {
      assert Bump(t, dir)[1..] == t[1..];
    }
  }

  /** The report counts every removed artifact once, under its own directory. */
  lemma {:induction false} TallyCounts(artifacts: seq<string>)
    ensures DistinctDirs(TallyOf(artifacts))
    ensures Keys(TallyOf(artifacts)) == set a | a in artifacts :: DirOf(a)
    ensures Total(TallyOf(artifacts)) == |artifacts|
    ensures forall d :: CountFor(TallyOf(artifacts), d) == InDir(artifacts, d)
    decreases |artifacts|
  {
    if artifacts != [] {
      var init, last := artifacts[..|artifacts| - 1], artifacts[|artifacts| - 1];
      TallyCounts(init);
      BumpCounts(TallyOf(init), DirOf(last));
      DirsOfSnoc(artifacts);
    }
  }

  lemma DirsOfSnoc(artifacts: seq<string>)
    requires artifacts != []
    ensures (set a | a in artifacts :: DirOf(a))
         == (set a | a in artifacts[..|artifacts| - 1] :: DirOf(a)) + {DirOf(artifacts[|artifacts| - 1])}
  {
    assert artifacts == artifacts[..|artifacts| - 1] + [artifacts[|artifacts| - 1]];
  }

  /** The loop that fills `artifactsByDir`. */
  method CountByDir(artifacts: seq<string>) returns (tally: Tally)
    ensures tally == TallyOf(artifacts)
  {
    tally := [];
    for i := 0 to |artifacts|
      invariant tally == TallyOf(artifacts[..i])
    {
      assert artifacts[..i + 1][..i] == artifacts[..i];
      tally := Bump(tally, DirOf(artifacts[i]));
    }
    assert artifacts[..|artifacts|] == artifacts;
  }

  /** `workspaceDirArrays.flat()`: every pattern expanded, in order. */
  function ScannedDirs(workspaces: seq<string>, readdir: string -> Option<seq<DirEntry>>): seq<string>
  {
    FlatMap(workspaces, Expander(readdir))
  }

  /** `expandWorkspacePattern` as a value, for the `map` over the patterns. */
  function Expander(readdir: string -> Option<seq<DirEntry>>): string -> seq<string>
  {
    p => ExpandWorkspacePattern(p, readdir)
  }

  /** `findBuildArtifacts` as a value, for the `map` over the directories. */
  function Finder(readdir: string -> Option<seq<DirEntry>>): string -> seq<string>
  {
    d => FindBuildArtifacts(d, readdir)
  }

  /** `artifactArrays.flat()`: the artifacts of every directory, in order. */
  function ArtifactsIn(dirs: seq<string>, readdir: string -> Option<seq<DirEntry>>): (r: seq<string>)
    ensures forall y :: y in r <==> exists d | d in dirs :: y in FindBuildArtifacts(d, readdir)
  {
    FlatMap(dirs, Finder(readdir))
  }

  /** Flattening distributes over concatenation. */
  lemma {:induction false} FlatMapAppend(xs: seq<string>, ys: seq<string>, f: string -> seq<string>)
    ensures FlatMap(xs + ys, f) == FlatMap(xs, f) + FlatMap(ys, f)
    decreases |xs|
  {
    if xs == [] {
      assert xs + ys == ys;
    } else {
      FlatMapAppend(xs[1..], ys, f);
      assert (xs + ys)[0] == xs[0] && (xs + ys)[1..] == xs[1..] + ys;
      calc {
        FlatMap(xs + ys, f);
        f(xs[0]) + FlatMap(xs[1..] + ys, f);
        f(xs[0]) + (FlatMap(xs[1..], f) + FlatMap(ys, f));
        (f(xs[0]) + FlatMap(xs[1..], f)) + FlatMap(ys, f);
      }
    }
  }

  /** What a run reports. */
  datatype CleanReport =
    | NoWorkspaces
    | NoArtifacts(scanned: seq<string>)
    | UnlinkFailed(scanned: seq<string>, artifacts: seq<string>)   // an `unlink` rejected: exit 1, no report
    | Removed(scanned: seq<string>, artifacts: seq<string>, byDir: Tally)

  /** No path is listed twice. */
  predicate Distinct(xs: seq<string>)
  {
    forall i, j | 0 <= i < j < |xs| :: xs[i] != xs[j]
  }

  /**
   * `main`: nothing is scanned without workspaces; otherwise every matching file
   * is removed and tallied. A path listed twice (overlapping or repeated
   * workspace patterns) is unlinked twice; the second `unlink` finds it gone and
   * rejects, so `main` rejects and the script exits 1 without the report.
   */
  function CleanSpec(workspaces: seq<string>, readdir: string -> Option<seq<DirEntry>>): (r: CleanReport)
    ensures r.NoWorkspaces? <==> workspaces == []
    ensures r.Removed? ==> r.artifacts != [] && Distinct(r.artifacts)
    ensures r.UnlinkFailed? ==> !Distinct(r.artifacts)
    ensures !r.NoWorkspaces? ==> r.scanned == ScannedDirs(workspaces, readdir)
    ensures r.Removed? || r.UnlinkFailed? ==> r.artifacts == ArtifactsIn(r.scanned, readdir)
  {
    if workspaces == [] then NoWorkspaces
    else
      var dirs := ScannedDirs(workspaces, readdir);
      var artifacts := ArtifactsIn(dirs, readdir);
      if artifacts == [] then NoArtifacts(dirs)
      else if !Distinct(artifacts) then UnlinkFailed(dirs, artifacts)
      else Removed(dirs, artifacts, TallyOf(artifacts))
  }

  lemma DistinctSnoc(xs: seq<string>, x: string)
    ensures Distinct(xs + [x]) <==> Distinct(xs) && x !in xs
  {
    var ys := xs + [x];
    assert forall i | 0 <= i < |xs| :: ys[i] == xs[i];
    if x in xs {
      var i :| 0 <= i < |xs| && xs[i] == x;
      assert ys[i] == ys[|xs|];
    }
  }

  /**
   * The unlinks, one per listed path, against the set of paths already removed:
   * a path removed before is gone, and its `unlink` fails.
   */
  method UnlinkAll(artifacts: seq<string>) returns (ok: bool, removed: set<string>)
    ensures ok <==> Distinct(artifacts)
    ensures removed == set a | a in artifacts
  {
    ok := true;
    removed := {};
    for i := 0 to |artifacts|
      invariant ok <==> Distinct(artifacts[..i])
      invariant removed == set a | a in artifacts[..i]
    {
      assert artifacts[..i + 1] == artifacts[..i] + [artifacts[i]];
      DistinctSnoc(artifacts[..i], artifacts[i]);
      if artifacts[i] in removed {
        ok := false;
      }
      removed := removed + {artifacts[i]};
    }
    assert artifacts[..|artifacts|] == artifacts;
  }

  method CleanBuildArtifacts(workspaces: seq<string>, readdir: string -> Option<seq<DirEntry>>)
    returns (report: CleanReport)
    ensures report == CleanSpec(workspaces, readdir)
  {
    if |workspaces| == 0 {
      return NoWorkspaces;
    }
    var dirs := ScannedDirs(workspaces, readdir);
    var artifacts := ArtifactsIn(dirs, readdir);
    if |artifacts| == 0 {
      return NoArtifacts(dirs);
    }
    var ok, _ := UnlinkAll(artifacts);
    if !ok {
      return UnlinkFailed(dirs, artifacts);
    }
    var byDir := CountByDir(artifacts);
    report := Removed(dirs, artifacts, byDir);
  }

  // ---------------------------------------------------------------------------
  // Properties of a run.

  /** A pattern without `*`, or with `*` anywhere but after a single leading directory, is kept. */
  lemma ExpandKeepsPlainPatterns(pattern: string, readdir: string -> Option<seq<DirEntry>>)
    requires '*' !in pattern || IndexOf(pattern, '/') < 0 || pattern[IndexOf(pattern, '/') + 1..] != "*"
    ensures ExpandWorkspacePattern(pattern, readdir) == [pattern]
  {
  }

  /** A directory name followed by `/` and `*` expands to exactly that directory's subdirectories. */
  lemma ExpandStar(base: string, readdir: string -> Option<seq<DirEntry>>)
    requires '/' !in base
    ensures var r := ExpandWorkspacePattern(base + "/*", readdir);
      && (readdir(base).None? ==> r == [])
      && (readdir(base).Some? ==>
            forall x :: x in r <==> exists e | e in readdir(base).value :: e.isDirectory && x == Join(base, e.name))
  {
    var p := base + "/*";
    assert p[|base|] == '/' && p[|base| + 1] == '*';
    assert '*' in p;
    assert p[..|base|] == base;
    assert IndexOf(p, '/') == |base|;
    assert p[|base| + 1..] == "*";
    if readdir(base).Some? {
      JoinedWhereMembers(base, readdir(base).value, IsSubdir);
    }
  }

  /** Everything removed is a matching file in a scanned directory. */
  lemma RemovesOnlyArtifacts(workspaces: seq<string>, readdir: string -> Option<seq<DirEntry>>)
    requires CleanSpec(workspaces, readdir).Removed?
    ensures var r := CleanSpec(workspaces, readdir);
      forall a | a in r.artifacts :: exists d, e | d in r.scanned && readdir(d).Some? && e in readdir(d).value ::
        IsArtifactName(e.name) && a == Join(d, e.name)
  {
    var r := CleanSpec(workspaces, readdir);
    forall a | a in r.artifacts
      ensures exists d, e | d in r.scanned && readdir(d).Some? && e in readdir(d).value ::
        IsArtifactName(e.name) && a == Join(d, e.name)
    {
      var d :| d in r.scanned && a in FindBuildArtifacts(d, readdir);
      JoinedWhereMembers(d, readdir(d).value, IsArtifactEntry);
      var e :| e in readdir(d).value && IsArtifactEntry(e) && a == Join(d, e.name);
    }
  }

  /** Every matching file in a scanned directory is removed. */
  lemma RemovesEveryArtifact(workspaces: seq<string>, readdir: string -> Option<seq<DirEntry>>)
    requires CleanSpec(workspaces, readdir).Removed?
    ensures var r := CleanSpec(workspaces, readdir);
      forall d, e | d in r.scanned && readdir(d).Some? && e in readdir(d).value && IsArtifactName(e.name) ::
        Join(d, e.name) in r.artifacts
  {
    var r := CleanSpec(workspaces, readdir);
    forall d, e | d in r.scanned && readdir(d).Some? && e in readdir(d).value && IsArtifactName(e.name)
      ensures Join(d, e.name) in r.artifacts
    {
      FoundInDir(d, readdir, e);
      ArtifactsInHas(r.scanned, readdir, d, Join(d, e.name));
    }
  }

  /** A matching entry of a readable directory is among that directory's artifacts. */
  lemma FoundInDir(d: string, readdir: string -> Option<seq<DirEntry>>, e: DirEntry)
    requires readdir(d).Some? && e in readdir(d).value && IsArtifactName(e.name)
    ensures Join(d, e.name) in FindBuildArtifacts(d, readdir)
  {
    JoinedWhereMembers(d, readdir(d).value, IsArtifactEntry);
    assert IsArtifactEntry(e);
  }

  lemma ArtifactsInHas(dirs: seq<string>, readdir: string -> Option<seq<DirEntry>>, d: string, y: string)
    requires d in dirs && y in FindBuildArtifacts(d, readdir)
    ensures y in ArtifactsIn(dirs, readdir)
  {
  }

  /** The report counts every removed file once, under its own directory. */
  lemma ReportCountsRemoved(workspaces: seq<string>, readdir: string -> Option<seq<DirEntry>>)
    requires CleanSpec(workspaces, readdir).Removed?
    ensures var r := CleanSpec(workspaces, readdir);
      && Total(r.byDir) == |r.artifacts|
      && DistinctDirs(r.byDir)
      && Keys(r.byDir) == (set a | a in r.artifacts :: DirOf(a))
      && (forall d :: CountFor(r.byDir, d) == InDir(r.artifacts, d))
  {
    TallyCounts(CleanSpec(workspaces, readdir).artifacts);
  }

  /**
   * A directory scanned twice that holds an artifact lists that artifact twice,
   * so the run fails instead of reporting.
   */
  lemma ScannedTwiceFails(dirs: seq<string>, readdir: string -> Option<seq<DirEntry>>, i: nat, j: nat)
    requires i < j < |dirs| && dirs[i] == dirs[j] && FindBuildArtifacts(dirs[i], readdir) != []
    ensures !Distinct(ArtifactsIn(dirs, readdir))
  {
    var g := Finder(readdir);
    var a := g(dirs[i]);
    var upto := dirs[..j];
    assert upto[i] == dirs[i];
    FlatMapAt(dirs, g, j);
    FlatMapAt(upto, g, i);
    var all := ArtifactsIn(dirs, readdir);
    var p := |FlatMap(upto[..i], g)|;
    assert all[p] == a[0];
    assert all[|FlatMap(upto, g)|] == a[0];
  }

  lemma FlatMapSingle(x: string, f: string -> seq<string>)
    ensures FlatMap([x], f) == f(x)
  {
    assert [x][1..] == [];
  }

  /** The flattening around the element at `i`. */
  lemma FlatMapAt(xs: seq<string>, f: string -> seq<string>, i: nat)
    requires i < |xs|
    ensures FlatMap(xs, f) == FlatMap(xs[..i], f) + (f(xs[i]) + FlatMap(xs[i + 1..], f))
  {
    assert xs == xs[..i] + xs[i..];
    FlatMapAppend(xs[..i], xs[i..], f);
    assert xs[i..][0] == xs[i] && xs[i..][1..] == xs[i + 1..];
  }

  /** A workspace pattern listed twice whose directories hold an artifact makes the run fail. */
  lemma RepeatedPatternFails(w: string, readdir: string -> Option<seq<DirEntry>>)
    requires ArtifactsIn(ExpandWorkspacePattern(w, readdir), readdir) != []
    ensures CleanSpec([w, w], readdir).UnlinkFailed?
  {
    var e := ExpandWorkspacePattern(w, readdir);
    var a := ArtifactsIn(e, readdir);
    assert [w, w] == [w] + [w];
    FlatMapAppend([w], [w], Expander(readdir));
    FlatMapSingle(w, Expander(readdir));
    assert ScannedDirs([w, w], readdir) == e + e;
    FlatMapAppend(e, e, Finder(readdir));
    assert ArtifactsIn(e + e, readdir) == a + a;
    assert (a + a)[0] == (a + a)[|a|];
  }

  /**
   * Overlapping patterns: the wildcard over `base` and the plain pattern for its
   * subdirectory `sub` both scan that subdirectory, so an artifact there is
   * unlinked twice and the run fails.
   */
  lemma OverlappingPatternsFail(base: string, sub: string, readdir: string -> Option<seq<DirEntry>>, artifact: DirEntry)
    requires '/' !in base && '*' !in base && '*' !in sub
    requires readdir(base).Some? && DirEntry(sub, true) in readdir(base).value
    requires readdir(Join(base, sub)).Some? && artifact in readdir(Join(base, sub)).value
    requires IsArtifactName(artifact.name)
    ensures CleanSpec([base + "/*", Join(base, sub)], readdir).UnlinkFailed?
  {
    var dir := Join(base, sub);
    var star := ExpandWorkspacePattern(base + "/*", readdir);
    ExpandStar(base, readdir);
    assert dir in star;
    var i :| 0 <= i < |star| && star[i] == dir;
    assert '*' !in dir;
    var h := Expander(readdir);
    assert [base + "/*", dir] == [base + "/*"] + [dir];
    FlatMapAppend([base + "/*"], [dir], h);
    FlatMapSingle(base + "/*", h);
    FlatMapSingle(dir, h);
    var dirs := ScannedDirs([base + "/*", dir], readdir);
    assert dirs == star + [dir];
    assert dirs[i] == dirs[|star|];
    FoundInDir(dir, readdir, artifact);
    ScannedTwiceFails(dirs, readdir, i, |star|);
  }
}
