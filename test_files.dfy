/**
 * The test-file hook: after a `Read` of a TypeScript source file, list the
 * sibling test files that exist (`<name>.test.ts`, `.test.tsx`, `.spec.ts`,
 * `.spec.tsx`). The file system is a `fileExists` parameter.
 */
module TestFiles {
  import opened Common
  import opened Text
  import opened Paths

  /** The fields of the hook input the hook reads; `filePath` is `None` when absent. */
  datatype ReadCall = ReadCall(toolName: string, filePath: Option<string>)

  const TestSuffixes: seq<string> := [".test.ts", ".test.tsx", ".spec.ts", ".spec.tsx"]

  /** A TypeScript source: `.ts` or `.tsx`, and not itself a test or spec file. */
  predicate IsTypeScriptFile(p: string): (b: bool)
    ensures b ==> NameWithoutExt(p) + ".ts" == p || NameWithoutExt(p) + ".tsx" == p
  {
    (EndsWith(p, ".ts") || EndsWith(p, ".tsx"))
    && !EndsWith(p, ".test.ts") && !EndsWith(p, ".test.tsx")
    && !EndsWith(p, ".spec.ts") && !EndsWith(p, ".spec.tsx")
  }

  /** `file.replace(/\.tsx?$/, '')`: one trailing `.ts` or `.tsx` removed. */
  function NameWithoutExt(file: string): (r: string)
    ensures EndsWith(file, ".ts") ==> r + ".ts" == file
    ensures EndsWith(file, ".tsx") ==> r + ".tsx" == file
    ensures !EndsWith(file, ".ts") && !EndsWith(file, ".tsx") ==> r == file
  {
    if EndsWith(file, ".tsx") then
      assert file[|file| - 1] == 'x';
      file[..|file| - 4]
    else if EndsWith(file, ".ts") then file[..|file| - 3]
    else file
  }

  /** One test pattern, the source's name without its extension plus `suffix`, joined to the source's directory. */
  function Candidate(filePath: string, suffix: string): string
  {
    Join(Dirname(filePath), NameWithoutExt(Basename(filePath)) + suffix)
  }

  /** `join(dir, stem + suffix)` for each of `suffixes`, in order. */
  function CandidatesFor(dir: string, stem: string, suffixes: seq<string>): (r: seq<string>)
    ensures |r| == |suffixes|
    ensures forall i | 0 <= i < |r| :: r[i] == Join(dir, stem + suffixes[i])
    decreases |suffixes|
  {
    if suffixes == [] then [] else [Join(dir, stem + suffixes[0])] + CandidatesFor(dir, stem, suffixes[1..])
  }

  /** `testPatterns` joined to the source's directory, in order. */
  function Candidates(filePath: string): (r: seq<string>)
    ensures |r| == |TestSuffixes|
    ensures forall i | 0 <= i < |r| :: r[i] == Candidate(filePath, TestSuffixes[i])
    ensures forall i | 0 <= i < |r| :: !IsTypeScriptFile(r[i])
  {
    assert forall i | 0 <= i < |TestSuffixes| :: !IsTypeScriptFile(Candidate(filePath, TestSuffixes[i])) by {
      forall i | 0 <= i < |TestSuffixes| {
        CandidateIsTest(filePath, TestSuffixes[i]);
      }
    }
    CandidatesFor(Dirname(filePath), NameWithoutExt(Basename(filePath)), TestSuffixes)
  }

  /** `xs` appears in `ys` in the same order, possibly with gaps. */
  predicate Subsequence(xs: seq<string>, ys: seq<string>)
    decreases |ys|
  {
    if xs == [] then true
    else if ys == [] then false
    else if xs[0] == ys[0] then Subsequence(xs[1..], ys[1..])
    else Subsequence(xs, ys[1..])
  }

  /** The candidates that exist, in candidate order. */
  function Existing(candidates: seq<string>, fileExists: string -> bool): (r: seq<string>)
    ensures forall x :: x in r <==> x in candidates && fileExists(x)
    ensures |r| <= |candidates|
    decreases |candidates|
  {
    if candidates == [] then []
    else
      var rest := Existing(candidates[1..], fileExists);
      assert forall x :: x in candidates <==> x == candidates[0] || x in candidates[1..];
      if fileExists(candidates[0]) then [candidates[0]] + rest else rest
  }

  lemma {:induction false} ExistingIsSubsequence(candidates: seq<string>, fileExists: string -> bool)
    ensures Subsequence(Existing(candidates, fileExists), candidates)
    decreases |candidates|
  {
    if candidates != [] {
      ExistingIsSubsequence(candidates[1..], fileExists);
      var rest := Existing(candidates[1..], fileExists);
      if fileExists(candidates[0]) {
        assert ([candidates[0]] + rest)[1..] == rest;
      } else if rest != [] {
        SubsequenceSkip(rest, candidates);
      }
    }
  }

  /** A subsequence of the tail is a subsequence of the whole. */
  lemma {:induction false} SubsequenceSkip(xs: seq<string>, ys: seq<string>)
    requires ys != [] && Subsequence(xs, ys[1..])
    ensures Subsequence(xs, ys)
    decreases |ys|, 0
  {
    if xs != [] && xs[0] == ys[0] {
      SubsequenceTail(xs, ys[1..]);
    }
  }

  /** Dropping the first element keeps a subsequence. */
  lemma {:induction false} SubsequenceTail(xs: seq<string>, ys: seq<string>)
    requires xs != [] && Subsequence(xs, ys)
    ensures Subsequence(xs[1..], ys)
    decreases |ys|, 1
  {
    assert ys != [];
    if xs[0] != ys[0] {
      SubsequenceTail(xs, ys[1..]);
    }
    SubsequenceSkip(xs[1..], ys);
  }

  /** The loop that pushes each existing candidate onto `foundTestFiles`. */
  method FindTestFiles(candidates: seq<string>, fileExists: string -> bool) returns (found: seq<string>)
    ensures found == Existing(candidates, fileExists)
  {
    found := [];
    for k := 0 to |candidates|
      invariant found + Existing(candidates[k..], fileExists) == Existing(candidates, fileExists)
    {
      var rest := Existing(candidates[k + 1..], fileExists);
      assert candidates[k..][1..] == candidates[k + 1..];
      if fileExists(candidates[k]) {
        AppendAssoc(found, [candidates[k]], rest);
        found := found + [candidates[k]];
      }
    }
  }

  /** One `→` line per found file. */
  function Bullets(found: seq<string>): string
    decreases |found|
  {
    if found == [] then [] else Bullets(found[..|found| - 1]) + "  → " + found[|found| - 1] + "\n"
  }

  /** The `additionalContext` text. */
  function Context(filePath: string, found: seq<string>): string
  {
    "<plugin-langs-suggestion>\n" + "Source file: " + filePath + "\n\n" + "Related test file(s):\n"
    + Bullets(found) + "</plugin-langs-suggestion>"
  }

  /** The loop that appends the suggestion text. */
  method BuildContext(filePath: string, found: seq<string>) returns (context: string)
    ensures context == Context(filePath, found)
  {
    context := "<plugin-langs-suggestion>\n";
    context := context + "Source file: " + filePath + "\n\n";
    context := context + "Related test file(s):\n";
    var header := context;
    for k := 0 to |found|
      invariant context == header + Bullets(found[..k])
    {
      assert found[..k + 1][..k] == found[..k];
      context := context + "  → " + found[k] + "\n";
    }
    assert found[..|found|] == found;
    context := context + "</plugin-langs-suggestion>";
  }

  /** Every found file has its own line in the bullet list. */
  lemma {:induction false} BulletsListEach(found: seq<string>)
    ensures forall f | f in found :: Contains(Bullets(found), "  → " + f + "\n")
    decreases |found|
  {
    if found != [] {
      var init, last := found[..|found| - 1], found[|found| - 1];
      BulletsListEach(init);
      forall f | f in found ensures Contains(Bullets(found), "  → " + f + "\n") {
        var line := "  → " + f + "\n";
        ContainsAt(line, line, 0);
        if f == last {
          ContainsInfix(Bullets(init), line, [], line);
          assert Bullets(init) + line + [] == Bullets(found);
        } else {
          assert f in init;
          ContainsInfix([], Bullets(init), "  → " + last + "\n", line);
          assert [] + Bullets(init) + ("  → " + last + "\n") == Bullets(found);
        }
      }
    }
  }

  /**
   * `main`: unreadable input exits 1; anything but a `Read` of a TypeScript
   * source exits 0 silently; otherwise the existing candidates are listed when
   * there is at least one.
   */
  method TestFileSuggest(call: Option<ReadCall>, fileExists: string -> bool)
    returns (exit: int, context: Option<string>)
    ensures call.None? ==> exit == 1 && context.None?
    ensures call.Some? ==> exit == 0
    ensures context.Some? <==>
      call.Some? && call.value.toolName == "Read" && call.value.filePath.Some?
      && IsTypeScriptFile(call.value.filePath.value)
      && Existing(Candidates(call.value.filePath.value), fileExists) != []
    ensures context.Some? ==>
      var fp := call.value.filePath.value;
      context.value == Context(fp, Existing(Candidates(fp), fileExists))
  {
    if call.None? {
      return 1, None;
    }
    if call.value.toolName != "Read" {
      return 0, None;
    }
    var filePath := call.value.filePath.GetOr("");
    if filePath == [] {
      return 0, None;
    }
    if !IsTypeScriptFile(filePath) {
      return 0, None;
    }
    var found := FindTestFiles(Candidates(filePath), fileExists);
    exit := 0;
    context := None;
    if |found| > 0 {
      var text := BuildContext(filePath, found);
      context := Some(text);
    }
  }

  // ---------------------------------------------------------------------------
  // Properties.

  /** A string ending in `a + b` ends in `b`. */
  lemma EndsWithSuffix(s: string, a: string, b: string)
    requires EndsWith(s, a + b)
    ensures EndsWith(s, b)
  {
    assert s[|s| - |b|..] == s[|s| - |a + b|..][|a|..];
  }

  /** A candidate ends in its test suffix. */
  lemma CandidateSuffix(filePath: string, suffix: string)
    requires suffix != []
    ensures EndsWith(Candidate(filePath, suffix), suffix)
  {
    EndsWithSuffix(Candidate(filePath, suffix), NameWithoutExt(Basename(filePath)), suffix);
  }

  /** A name ending in a test suffix is not a source. */
  lemma TestSuffixNotSource(c: string, suffix: string)
    requires suffix in TestSuffixes && EndsWith(c, suffix)
    ensures !IsTypeScriptFile(c)
  {
  }

  /** Every candidate is a test or spec file, so it is never itself taken for a source. */
  lemma CandidatesAreTests(filePath: string)
    ensures forall c | c in Candidates(filePath) :: !IsTypeScriptFile(c)
  {
    forall c | c in Candidates(filePath) ensures !IsTypeScriptFile(c) {
      var i :| 0 <= i < |TestSuffixes| && Candidates(filePath)[i] == c;
      CandidateIsTest(filePath, TestSuffixes[i]);
    }
  }

  /** A test suffix is a non-empty file name. */
  lemma SuffixFacts(suffix: string)
    requires suffix in TestSuffixes
    ensures suffix != [] && '/' !in suffix
  {
  }

  /** The candidate for a test suffix is not taken for a source. */
  lemma CandidateIsTest(filePath: string, suffix: string)
    requires suffix in TestSuffixes
    ensures !IsTypeScriptFile(Candidate(filePath, suffix))
  {
    CandidateSuffix(filePath, suffix);
    TestSuffixNotSource(Candidate(filePath, suffix), suffix);
  }

  /**
   * Each candidate sits in the source's directory and is the source's name with
   * the `.ts`/`.tsx` replaced by a test suffix.
   */
  lemma CandidatesAreSiblings(filePath: string)
    ensures forall suffix | suffix in TestSuffixes ::
      var c := Candidate(filePath, suffix);
      && Basename(c) == NameWithoutExt(Basename(filePath)) + suffix
      && Join(Dirname(filePath), Basename(c)) == c
  {
    forall suffix | suffix in TestSuffixes
      ensures var c := Candidate(filePath, suffix);
        && Basename(c) == NameWithoutExt(Basename(filePath)) + suffix
        && Join(Dirname(filePath), Basename(c)) == c
    {
      SuffixFacts(suffix);
      SiblingName(filePath, suffix);
    }
  }

  /** The base name of a candidate is the name that was joined. */
  lemma SiblingName(filePath: string, suffix: string)
    requires suffix != [] && '/' !in suffix
    ensures var c := Candidate(filePath, suffix);
      && Basename(c) == NameWithoutExt(Basename(filePath)) + suffix
      && Join(Dirname(filePath), Basename(c)) == c
  {
    var base := Basename(filePath);
    var stem := NameWithoutExt(base);
    assert '/' !in stem by {
      assert forall k | 0 <= k < |stem| :: stem[k] == base[k];
    }
    BasenameOfJoin(Dirname(filePath), stem + suffix);
  }

  /** What is reported is exactly the existing candidates, in candidate order. */
  lemma ReportedInOrder(filePath: string, fileExists: string -> bool)
    ensures var found := Existing(Candidates(filePath), fileExists);
      && Subsequence(found, Candidates(filePath))
      && (forall c | c in Candidates(filePath) :: c in found <==> fileExists(c))
      && (forall f | f in found :: Contains(Context(filePath, found), "  → " + f + "\n"))
  {
    var found := Existing(Candidates(filePath), fileExists);
    ExistingIsSubsequence(Candidates(filePath), fileExists);
    BulletsListEach(found);
    var pre := "<plugin-langs-suggestion>\n" + "Source file: " + filePath + "\n\n" + "Related test file(s):\n";
    forall f | f in found ensures Contains(Context(filePath, found), "  → " + f + "\n") {
      ContainsInfix(pre, Bullets(found), "</plugin-langs-suggestion>", "  → " + f + "\n");
      assert pre + Bullets(found) + "</plugin-langs-suggestion>" == Context(filePath, found);
    }
  }
}
