/**
 * The doc-writer hook: after a `Write`, `Edit` or `MultiEdit` that touched a
 * markdown file, suggest the documentation skill once per session, remembering
 * the suggestion in a session file under
 * `~/.local/cache/personal-configs-plugins/doc-writer/<normalised cwd>/`.
 */
module DocWriter {
  import opened Common
  import opened Text
  import opened Paths
  import opened SessionCache

  /**
   * The fields of the hook input the hook reads: `file_path` of a `Write` or
   * `Edit`, the `edits` array of a `MultiEdit` (`None` when absent or not an
   * array, an edit's path `None` when it has none), the working directory and
   * the session.
   */
  datatype ToolCall = ToolCall(
    toolName: string, filePath: Option<string>, edits: Option<seq<Option<string>>>,
    cwd: string, sessionId: string)

  const RelevantTools: seq<string> := ["Write", "Edit", "MultiEdit"]
  const CacheSubdir: string := ".local/cache/personal-configs-plugins/doc-writer"
  const SuggestedKey: string := "doc_writer_suggested"

  /** `toLowerCase` on the ASCII letters (what decides the `.md` test). */
  function LowerChar(c: char): char
  {
    if 'A' <= c <= 'Z' then (c as int + 32) as char else c
  }

  function Lower(s: string): (r: string)
    ensures |r| == |s| && forall i | 0 <= i < |s| :: r[i] == LowerChar(s[i])
  {
    seq(|s|, i requires 0 <= i < |s| => LowerChar(s[i]))
  }

  /** `path.toLowerCase().endsWith('.md')`. */
  predicate IsMarkdownPath(p: string): (b: bool)
    ensures EndsWith(p, ".md") ==> b
    ensures b ==> |p| >= 3 && p[|p| - 3] == '.'
  {
    EndsWith(Lower(p), ".md")
  }

  /** A path is markdown exactly when it ends in `.md` in any mix of case, so `README.MD` is. */
  lemma MarkdownSuffix(p: string)
    ensures IsMarkdownPath(p) <==>
      |p| >= 3 && p[|p| - 3] == '.' && p[|p| - 2] in "mM" && p[|p| - 1] in "dD"
  {
    var l := Lower(p);
    if |p| >= 3 {
      assert l[|l| - 3..] == [l[|p| - 3], l[|p| - 2], l[|p| - 1]];
    }
  }

  predicate IsMarkdownEdit(e: Option<string>)
  {
    e.Some? && IsMarkdownPath(e.value)
  }

  /** The path of the first edit that touches a markdown file. */
  function FirstMarkdown(edits: seq<Option<string>>): (r: Option<string>)
    ensures r.None? <==> forall i | 0 <= i < |edits| :: !IsMarkdownEdit(edits[i])
    ensures r.Some? ==> exists i | 0 <= i < |edits| ::
      edits[i] == r && IsMarkdownPath(r.value) && forall j | 0 <= j < i :: !IsMarkdownEdit(edits[j])
    decreases |edits|
  {
    if edits == [] then None
    else if IsMarkdownEdit(edits[0]) then edits[0]
    else
      var r := FirstMarkdown(edits[1..]);
      assert forall i | 1 <= i < |edits| :: edits[i] == edits[1..][i - 1];
      if r.Some? then
        var k :| 0 <= k < |edits[1..]| && edits[1..][k] == r && IsMarkdownPath(r.value)
                 && forall j | 0 <= j < k :: !IsMarkdownEdit(edits[1..][j]);
        assert edits[k + 1] == r;
        r
      else r
  }

  /** The markdown file the call touched, if any. */
  function MarkdownTarget(call: ToolCall): (r: Option<string>)
    ensures r.Some? ==> IsMarkdownPath(r.value)
  {
    if call.toolName == "Write" || call.toolName == "Edit" then
      if IsMarkdownEdit(call.filePath) then call.filePath else None
    else if call.toolName == "MultiEdit" && call.edits.Some? then
      FirstMarkdown(call.edits.value)
    else None
  }

  /** The markdown detection of `main`: flags set per tool, the `MultiEdit` scan stopping at the first hit. */
  method DetectMarkdown(call: ToolCall) returns (isMarkdownFile: bool, filePath: string)
    ensures isMarkdownFile <==> MarkdownTarget(call).Some?
    ensures isMarkdownFile ==> filePath == MarkdownTarget(call).value
  {
    isMarkdownFile := false;
    filePath := "";
    if call.toolName == "Write" || call.toolName == "Edit" {
      filePath := call.filePath.GetOr("");
      if call.filePath.Some? && IsMarkdownPath(call.filePath.value) {
        isMarkdownFile := true;
      }
    } else if call.toolName == "MultiEdit" {
      if call.edits.Some? {
        var edits := call.edits.value;
        var i := 0;
        while i < |edits|
          invariant 0 <= i <= |edits|
          invariant !isMarkdownFile
          invariant FirstMarkdown(edits) == FirstMarkdown(edits[i..])
          decreases |edits| - i
        {
          if edits[i].Some? && IsMarkdownPath(edits[i].value) {
            isMarkdownFile := true;
            filePath := edits[i].value;
            break;
          }
          assert edits[i..][1..] == edits[i + 1..];
          i := i + 1;
        }
      }
    }
  }

  /** The session file: `<home>/<cache subdir>/<normalised cwd>/<session id>.json`. */
  function SuggestionFile(home: string, cwd: string, sessionId: string): (r: string)
    ensures EndsWith(r, sessionId + ".json")
  {
    Join(Join(Join(home, CacheSubdir), NormalizePath(cwd)), sessionId + ".json")
  }

  /** The `additionalContext` text of the suggestion. */
  function Suggestion(filePath: string): string
  {
    "<plugin-doc-writer-suggestion>\n"
    + "Detected markdown file modification: " + filePath + "\n\n"
    + "ESSENTIAL SKILL:\n"
    + "  → doc-writer:writing-documentation\n\n"
    + "RECOMMENDED AGENT:\n"
    + "  → doc-writer:docs-reviewer\n"
    + "</plugin-doc-writer-suggestion>"
  }

  /** What the session file records after a suggestion. */
  function Marker(filePath: string, nowIso: string): Fields
  {
    map[SuggestedKey := Bool(true), "first_triggered" := Str(nowIso), "triggered_by" := Str(filePath)]
  }

  predicate AlreadySuggested(f: Fields)
  {
    SuggestedKey in f && Truthy(f[SuggestedKey])
  }

  /** Exit status, the suggestion printed (if any), and the cache files afterwards. */
  datatype Outcome = Outcome(exit: int, context: Option<string>, files: map<string, CacheFile>)

  /**
   * `main`: unreadable input exits 1; other tools and non-markdown edits exit 0
   * silently; a session file that does not parse throws (exit 1); a session
   * already marked exits 0 silently; otherwise the suggestion is printed and the
   * session file replaced by the marker.
   */
  function SuggestSpec(files: map<string, CacheFile>, call: Option<ToolCall>, home: string, nowIso: string): (o: Outcome)
    ensures o.exit == 0 || o.exit == 1
    ensures call.None? ==> o.exit == 1 && o.context.None? && o.files == files
    ensures o.context.Some? ==> call.Some? && call.value.toolName in RelevantTools && MarkdownTarget(call.value).Some?
    ensures o.context.None? ==> o.files == files
  {
    match call
    case None => Outcome(1, None, files)
    case Some(c) =>
      if c.toolName !in RelevantTools then Outcome(0, None, files)
      else
        match MarkdownTarget(c)
        case None => Outcome(0, None, files)
        case Some(fp) =>
          var path := SuggestionFile(home, c.cwd, c.sessionId);
          if path in files && files[path].Unparsable? then Outcome(1, None, files)
          else if path in files && AlreadySuggested(files[path].fields) then Outcome(0, None, files)
          else Outcome(0, Some(Suggestion(fp)), files[path := Parsed(Marker(fp, nowIso))])
  }

  /** The hook run against the cache files. */
  method DocWriterSuggest(store: CacheStore, call: Option<ToolCall>, home: string, nowIso: string)
    returns (exit: int, context: Option<string>)
    modifies store
    ensures Outcome(exit, context, store.files) == SuggestSpec(old(store.files), call, home, nowIso)
  {
    if call.None? {
      return 1, None;
    }
    var c := call.value;
    if c.toolName !in RelevantTools {
      return 0, None;
    }
    var isMarkdownFile, filePath := DetectMarkdown(c);
    context := None;
    if isMarkdownFile {
      var sessionFile := SuggestionFile(home, c.cwd, c.sessionId);
      if sessionFile in store.files {
        if store.files[sessionFile].Unparsable? {
          return 1, None;
        }
        if AlreadySuggested(store.files[sessionFile].fields) {
          return 0, None;
        }
      }
      context := Some(Suggestion(filePath));
      store.files := store.files[sessionFile := Parsed(Marker(filePath, nowIso))];
    }
    exit := 0;
  }

  // ---------------------------------------------------------------------------
  // Properties.

  /**
   * A suggestion is printed only for a `Write`, `Edit` or `MultiEdit` that
   * touched a markdown file, and it names that file.
   */
  lemma SuggestionNamesTheFile(files: map<string, CacheFile>, call: Option<ToolCall>, home: string, nowIso: string)
    ensures var o := SuggestSpec(files, call, home, nowIso);
      o.context.Some? ==>
        && call.Some? && call.value.toolName in RelevantTools
        && MarkdownTarget(call.value).Some?
        && Contains(o.context.value, MarkdownTarget(call.value).value)
  {
    var o := SuggestSpec(files, call, home, nowIso);
    if o.context.Some? {
      SuggestionContains(MarkdownTarget(call.value).value);
    }
  }

  /** The suggestion text quotes the file path. */
  lemma SuggestionContains(fp: string)
    ensures Contains(Suggestion(fp), fp)
  {
    var pre := "<plugin-doc-writer-suggestion>\n" + "Detected markdown file modification: ";
    var s := Suggestion(fp);
    var post := s[|pre| + |fp|..];
    assert s == pre + fp + post;
    ContainsAt(fp, fp, 0);
    ContainsInfix(pre, fp, post, fp);
  }

  /** Without a markdown edit nothing is printed and no file is written. */
  lemma NonMarkdownIsSilent(files: map<string, CacheFile>, c: ToolCall, home: string, nowIso: string)
    requires MarkdownTarget(c).None?
    ensures SuggestSpec(files, Some(c), home, nowIso) == Outcome(0, None, files)
  {
  }

  /** Only a printed suggestion writes, and the hook exits 0 or 1. */
  lemma WritesOnlyWithSuggestion(files: map<string, CacheFile>, call: Option<ToolCall>, home: string, nowIso: string)
    ensures var o := SuggestSpec(files, call, home, nowIso);
      (o.files != files ==> o.context.Some?) && (o.exit == 0 || o.exit == 1)
  {
  }

  /** A printed suggestion comes with the marker written to the session's file. */
  lemma SuggestionWritesMarker(files: map<string, CacheFile>, call: Option<ToolCall>, home: string, nowIso: string)
    ensures var o := SuggestSpec(files, call, home, nowIso);
      o.context.Some? ==>
        var path := SuggestionFile(home, call.value.cwd, call.value.sessionId);
        o.files == files[path := Parsed(Marker(MarkdownTarget(call.value).value, nowIso))]
  {
    var o := SuggestSpec(files, call, home, nowIso);
    if o.context.Some? {
      var c := call.value;
      var fp := MarkdownTarget(c).value;
      var path := SuggestionFile(home, c.cwd, c.sessionId);
      assert !(path in files && (files[path].Unparsable? || AlreadySuggested(files[path].fields)));
      assert o.files == files[path := Parsed(Marker(fp, nowIso))];
    }
  }

  /**
   * Once per session: after a suggestion, any later call in the same working
   * directory and session prints nothing and leaves the files alone.
   */
  lemma SuggestsOncePerSession(files: map<string, CacheFile>, first: ToolCall, second: ToolCall,
                               home: string, now1: string, now2: string)
    requires first.cwd == second.cwd && first.sessionId == second.sessionId
    requires SuggestSpec(files, Some(first), home, now1).context.Some?
    ensures var after := SuggestSpec(files, Some(first), home, now1).files;
      SuggestSpec(after, Some(second), home, now2) == Outcome(0, None, after)
  {
    var path := SuggestionFile(home, first.cwd, first.sessionId);
    SuggestionWritesMarker(files, Some(first), home, now1);
    var after := SuggestSpec(files, Some(first), home, now1).files;
    MarkerIsSuggested(MarkdownTarget(first).value, now1);
    assert after[path] == Parsed(Marker(MarkdownTarget(first).value, now1));
    MarkedSessionIsSilent(after, second, home, now2);
  }

  /** The marker records the suggestion. */
  lemma MarkerIsSuggested(filePath: string, nowIso: string)
    ensures AlreadySuggested(Marker(filePath, nowIso))
  {
  }

  /** A session whose file carries the marker gets no suggestion and no write. */
  lemma MarkedSessionIsSilent(files: map<string, CacheFile>, c: ToolCall, home: string, nowIso: string)
    requires var path := SuggestionFile(home, c.cwd, c.sessionId);
      path in files && files[path].Parsed? && AlreadySuggested(files[path].fields)
    ensures SuggestSpec(files, Some(c), home, nowIso) == Outcome(0, None, files)
  {
  }

}
