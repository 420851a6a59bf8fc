/**
 * `validateMarkdownContent` / `validate_markdown_content`: the plausibility check
 * a fetched page must pass before it is stored, and the changelog's length check.
 */
module Validator {
  import opened Text
  import opened Engine

  datatype ContentError =
    | LooksLikeHtml              // "Received HTML instead of markdown"
    | TooShort(length: nat)      // "Content too short (<length> bytes)", untrimmed length
    | NotMarkdown(found: nat)    // "Content doesn't appear to be markdown (<found> indicators found)"
    | ChangelogTooShort(fullLength: int)  // never produced: see ChangelogAlwaysLongEnough

  datatype Verdict = Accepted | Rejected(error: ContentError)

  /** The whitespace `trim()` (TypeScript) or `strip()` (Python) removes. */
  function Whitespace(v: Variant): set<char>
  {
    if v.Python? then PyWhitespace else JsWhitespace
  }

  /** The markers counted in each of the first 50 lines. */
  const Indicators: seq<string> := ["# ", "## ", "### ", "```", "- ", "* ", "1. ", "[", "**", "_", "> "]

  /** Lines of a page that are inspected. */
  const InspectedLines: nat := 50

  /** The first 100 characters, searched for `<html`. */
  function Head(content: string): string
  {
    if |content| <= 100 then content else content[..100]
  }

  /** The first rule: empty, a doctype, or an `<html` tag near the start. */
  predicate HtmlLike(content: string)
  {
    content == [] || "<!DOCTYPE" <= content || Contains(Head(content), "<html")
  }

  /** Indicators of `inds` that the trimmed line starts with or the line contains. */
  function Hits(line: string, trimmed: string, inds: seq<string>): nat
  {
    if inds == [] then 0
    else (if inds[0] <= trimmed || Contains(line, inds[0]) then 1 else 0) + Hits(line, trimmed, inds[1..])
  }

  /** One line's contribution to the indicator count. */
  function LineScore(v: Variant, line: string): nat
  {
    Hits(line, Trim(line, Whitespace(v)), Indicators)
  }

  /** The sum of the line scores of `lines`. */
  function Score(v: Variant, lines: seq<string>): nat
  {
    if lines == [] then 0 else LineScore(v, lines[0]) + Score(v, lines[1..])
  }

  /** The first `InspectedLines` lines of `content`. */
  function FirstLines(content: string): seq<string>
  {
    var lines := Lines(content);
    if |lines| <= InspectedLines then lines else lines[..InspectedLines]
  }

  /** The indicator count the third rule compares with 3. */
  function IndicatorCount(v: Variant, content: string): nat
  {
    Score(v, FirstLines(content))
  }

  /** The three rules, checked in order; the first that fails decides. */
  function ValidateMarkdown(v: Variant, content: string): (r: Verdict)
    ensures r == Accepted ==> !HtmlLike(content) && |content| >= 50
    ensures HtmlLike(content) ==> r == Rejected(LooksLikeHtml)
    ensures r.Rejected? && r.error.TooShort? ==> r.error.length == |content|
  {
    if HtmlLike(content) then Rejected(LooksLikeHtml)
    else if |Trim(content, Whitespace(v))| < 50 then Rejected(TooShort(|content|))
    else if IndicatorCount(v, content) < 3 then Rejected(NotMarkdown(IndicatorCount(v, content)))
    else Accepted
  }

  // ---------------------------------------------------------------------------
  // An independent count: indicators that simply occur in the line.

  /** Indicators of `inds` that occur in `line`. */
  function Occurring(line: string, inds: seq<string>): nat
  {
    if inds == [] then 0 else (if Contains(line, inds[0]) then 1 else 0) + Occurring(line, inds[1..])
  }

  function OccurrenceScore(lines: seq<string>): nat
  {
    if lines == [] then 0 else Occurring(lines[0], Indicators) + OccurrenceScore(lines[1..])
  }

  /** A trimmed line is part of the line, so the `startsWith` test adds nothing. */
  lemma {:induction false} HitsAreOccurrences(line: string, ws: set<char>, inds: seq<string>)
    ensures Hits(line, Trim(line, ws), inds) == Occurring(line, inds)
    decreases |inds|
  {
    if inds != [] {
      if inds[0] <= Trim(line, ws) {
        TrimIsInfix(line, ws);
        ContainsAt(Trim(line, ws), inds[0], 0);
        ContainsTransitive(line, Trim(line, ws), inds[0]);
      }
      HitsAreOccurrences(line, ws, inds[1..]);
    }
  }

  lemma {:induction false} ScoreIsOccurrenceScore(v: Variant, lines: seq<string>)
    ensures Score(v, lines) == OccurrenceScore(lines)
    decreases |lines|
  {
    if lines != [] {
      HitsAreOccurrences(lines[0], Whitespace(v), Indicators);
      ScoreIsOccurrenceScore(v, lines[1..]);
    }
  }

  /**
   * The validator accepts exactly the content that is not HTML-like, trims to at
   * least 50 characters, and whose first 50 lines hold at least 3 (line, indicator)
   * occurrences; the count is the same in all variants.
   */
  lemma AcceptedIff(v: Variant, content: string)
    ensures ValidateMarkdown(v, content) == Accepted <==>
      !HtmlLike(content) && |Trim(content, Whitespace(v))| >= 50 && OccurrenceScore(FirstLines(content)) >= 3
    ensures ValidateMarkdown(v, content).Rejected? && ValidateMarkdown(v, content).error.NotMarkdown? ==>
      ValidateMarkdown(v, content).error.found == OccurrenceScore(FirstLines(content))
  {
    ScoreIsOccurrenceScore(v, FirstLines(content));
  }

  /** HTML-like content is reported as HTML whatever its length or markers. */
  lemma HtmlCheckedFirst(v: Variant, content: string)
    requires content == [] || "<!DOCTYPE" <= content || Contains(Head(content), "<html")
    ensures ValidateMarkdown(v, content) == Rejected(LooksLikeHtml)
  {
  }

  /** Short content is reported as short even when it has no markdown markers. */
  lemma LengthCheckedSecond(v: Variant, content: string)
    requires !HtmlLike(content) && |Trim(content, Whitespace(v))| < 50
    ensures ValidateMarkdown(v, content) == Rejected(TooShort(|content|))
  {
  }

  lemma HeadingOccurrences(line: string)
    requires Contains(line, "### ")
    ensures Occurring(line, Indicators) >= 3
  {
    assert "### " == "#" + "## " && "## " == "#" + "# ";
    ContainsInfix("#", "## ", [], "## ");
    assert "#" + "## " + [] == "### ";
    ContainsTransitive(line, "### ", "## ");
    ContainsInfix("#", "# ", [], "# ");
    assert "#" + "# " + [] == "## ";
    ContainsTransitive(line, "## ", "# ");
    ContainsAt("### ", "### ", 0);
    ContainsTransitive(line, "### ", "### ");
    var i0 := Indicators;
    var i1 := i0[1..];
    var i2 := i1[1..];
    assert i0[0] == "# " && i1[0] == "## " && i2[0] == "### ";
    assert Occurring(line, i0) == 1 + Occurring(line, i1);
    assert Occurring(line, i1) == 1 + Occurring(line, i2);
    assert Occurring(line, i2) >= 1;
  }

  lemma {:induction false} OccurrenceScoreAtLeastHead(lines: seq<string>)
    requires lines != []
    ensures OccurrenceScore(lines) >= Occurring(lines[0], Indicators)
  {
  }

  /** A single `### ` heading among the inspected lines meets the marker rule. */
  lemma OneHeadingSuffices(v: Variant, content: string, i: nat)
    requires !HtmlLike(content) && |Trim(content, Whitespace(v))| >= 50
    requires i < |FirstLines(content)| && Contains(FirstLines(content)[i], "### ")
    ensures ValidateMarkdown(v, content) == Accepted
  {
    HeadingOccurrences(FirstLines(content)[i]);
    OccurrenceScoreAtLeast(FirstLines(content), i);
    AcceptedIff(v, content);
  }

  lemma {:induction false} OccurrenceScoreAtLeast(lines: seq<string>, i: nat)
    requires i < |lines|
    ensures OccurrenceScore(lines) >= Occurring(lines[i], Indicators)
    decreases i
  {
    if i > 0 {
      OccurrenceScoreAtLeast(lines[1..], i - 1);
    }
  }

  // ---------------------------------------------------------------------------
  // The changelog.

  /** The header put in front of the downloaded changelog. */
  const ChangelogHeader: string :=
    "# Claude Code Changelog\n\n"
    + "> **Source**: https://github.com/anthropics/claude-code/blob/main/CHANGELOG.md\n"
    + ">\n"
    + "> This is the official Claude Code release changelog from the Claude Code repository.\n\n"
    + "---\n\n"

  /** The changelog check: the header and the body, trimmed, must have at least 100 characters. */
  function CheckChangelog(v: Variant, body: string): (r: Verdict)
    ensures r == Accepted
  {
    ChangelogAlwaysLongEnough(v, body);
    var full := ChangelogHeader + body;
    if |Trim(full, Whitespace(v))| < 100 then Rejected(ChangelogTooShort(|full|)) else Accepted
  }

  /** The header alone survives trimming with 196 characters, so the check never fails. */
  lemma ChangelogAlwaysLongEnough(v: Variant, body: string)
    ensures |Trim(ChangelogHeader + body, Whitespace(v))| >= 196
  {
    var full := ChangelogHeader + body;
    HeaderFacts();
    assert full[0] == '#' && full[195] == '-';
    assert '#' !in Whitespace(v) && '-' !in Whitespace(v);
    TrimKeeps(full, Whitespace(v), 195);
  }

  lemma HeaderFacts()
    ensures |ChangelogHeader| == 198 && ChangelogHeader[0] == '#' && ChangelogHeader[195] == '-'
  {
  }
}
