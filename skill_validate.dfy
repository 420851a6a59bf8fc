/**
 * The skill validator: a skill directory is valid when its `SKILL.md` opens
 * with YAML frontmatter holding a hyphen-case `name:` and a `description:`
 * without angle brackets. Checks run in order and the first failure's message
 * is the answer. The regular expressions are modelled by the match JavaScript
 * computes for them: `/^---\n(.*?)\n---/s` for the frontmatter and
 * `/key\s*(.+)/` for a field value.
 */
module SkillValidate {
  import opened Common
  import opened Text
  import opened Paths

  datatype ValidationResult = ValidationResult(valid: bool, message: string)

  const SkillFile: string := "SKILL.md"
  const ValidMessage: string := "Skill is valid!"
  const UsageMessage: string := "Usage: bun quick_validate.ts <skill_directory>"
  const Fence: string := "\n---"

  function Invalid(message: string): ValidationResult
  {
    ValidationResult(false, message)
  }

  // ---------------------------------------------------------------------------
  // The frontmatter: `/^---\n(.*?)\n---/s`.

  /** `\n---` starts at index `j` of `s`. */
  predicate FenceAt(s: string, j: nat)
  {
    j <= |s| && Fence <= s[j..]
  }

  /** The first index at or after `i` where `\n---` starts: the lazy `(.*?)` stops there. */
  function FenceFrom(s: string, i: nat): (r: Option<nat>)
    requires i <= |s|
    ensures r.Some? ==> i <= r.value && FenceAt(s, r.value)
    ensures r.Some? ==> forall j | i <= j < r.value :: !FenceAt(s, j)
    ensures r.None? ==> forall j | i <= j :: !FenceAt(s, j)
    decreases |s| - i
  {
    if FenceAt(s, i) then Some(i)
    else if i == |s| then None
    else FenceFrom(s, i + 1)
  }

  /** The frontmatter text, when the content opens with `---\n` and a later line starts with `---`. */
  function Frontmatter(content: string): (r: Option<string>)
    ensures r.Some? ==> "---\n" + r.value + Fence <= content
    ensures r.Some? ==> forall j | 4 <= j < 4 + |r.value| :: !FenceAt(content, j)
    ensures r.None? <==> !("---\n" <= content) || forall j | 4 <= j :: !FenceAt(content, j)
  {
    if !("---\n" <= content) then None
    else
      match FenceFrom(content, 4)
      case None => None
      case Some(j) =>
        assert content[..j + 4] == "---\n" + content[4..j] + Fence;
        Some(content[4..j])
  }

  // ---------------------------------------------------------------------------
  // A field value: `/key\s*(.+)/`, where `\s` is JavaScript white space and `.`
  // any character but a line terminator.

  predicate IsLineTerminator(c: char)
  {
    c == '\n' || c == '\r' || c == '\U{2028}' || c == '\U{2029}'
  }

  /** Line terminators are white space to `\s` (and to `trim`). */
  lemma TerminatorIsSpace(c: char)
    requires IsLineTerminator(c)
    ensures c in JsWhitespace
  {
  }

  /** The end of the run of `.` characters starting at `i`. */
  function RunEnd(s: string, i: nat): (j: nat)
    requires i <= |s|
    ensures i <= j <= |s|
    ensures forall k | i <= k < j :: !IsLineTerminator(s[k])
    ensures j < |s| ==> IsLineTerminator(s[j])
    decreases |s| - i
  {
    if i == |s| || IsLineTerminator(s[i]) then i else RunEnd(s, i + 1)
  }

  /** The end of the run of `\s` characters starting at `i` (the greedy `\s*`). */
  function SpaceEnd(s: string, i: nat): (j: nat)
    requires i <= |s|
    ensures i <= j <= |s|
    ensures forall k | i <= k < j :: s[k] in JsWhitespace
    ensures j < |s| ==> s[j] !in JsWhitespace
    decreases |s| - i
  {
    if i == |s| || s[i] !in JsWhitespace then i else SpaceEnd(s, i + 1)
  }

  /** The last index in `[i, j)` that is not a line terminator: where `\s*` gives back to. */
  function LastNonTerminator(s: string, i: nat, j: nat): (r: Option<nat>)
    requires i <= j <= |s|
    ensures r.Some? ==> i <= r.value < j && !IsLineTerminator(s[r.value])
    ensures r.Some? ==> forall k | r.value < k < j :: IsLineTerminator(s[k])
    ensures r.None? ==> forall k | i <= k < j :: IsLineTerminator(s[k])
    decreases j - i
  {
    if j == i then None
    else if !IsLineTerminator(s[j - 1]) then Some(j - 1)
    else LastNonTerminator(s, i, j - 1)
  }

  /**
   * Where `\s*(.+)` matched at `q` puts its group: after the longest white-space
   * run when a `.` character follows it; otherwise, backtracking, at the last
   * white-space character of the run that `.` accepts. The group runs to the
   * next line terminator or the end.
   */
  function CaptureSpan(s: string, q: nat): (r: Option<(nat, nat)>)
    requires q <= |s|
    ensures r.Some? ==> q <= r.value.0 < r.value.1 <= |s|
    ensures r.Some? ==> forall k | q <= k < r.value.0 :: s[k] in JsWhitespace
    ensures r.Some? ==> forall k | r.value.0 <= k < r.value.1 :: !IsLineTerminator(s[k])
    ensures r.Some? ==> r.value.1 == |s| || IsLineTerminator(s[r.value.1])
  {
    var e := SpaceEnd(s, q);
    if e < |s| && !IsLineTerminator(s[e]) then Some((e, RunEnd(s, e)))
    else
      match LastNonTerminator(s, q, e)
      case None => None
      case Some(k) => Some((k, RunEnd(s, k)))
  }

  /** The text of the group of `\s*(.+)` matched at `q`. */
  function CaptureAt(s: string, q: nat): (r: Option<string>)
    requires q <= |s|
    ensures r.Some? ==> r.value != [] && forall k | 0 <= k < |r.value| :: !IsLineTerminator(r.value[k])
  {
    match CaptureSpan(s, q)
    case None => None
    case Some(span) => Some(s[span.0..span.1])
  }

  /** `key` occurs at index `i` of `s`. */
  predicate KeyAt(s: string, key: string, i: nat)
  {
    i + |key| <= |s| && s[i..i + |key|] == key
  }

  /** `key` occurs at `j` and `\s*(.+)` matches after it. */
  predicate MatchesAt(s: string, key: string, j: nat)
  {
    KeyAt(s, key, j) && CaptureAt(s, j + |key|).Some?
  }

  /** The leftmost occurrence of `key` at or after `p` where `\s*(.+)` matches. */
  function KeyMatch(s: string, key: string, p: nat): (r: Option<nat>)
    requires p <= |s|
    ensures r.Some? ==> p <= r.value && MatchesAt(s, key, r.value)
    ensures r.Some? ==> forall j | p <= j < r.value :: !MatchesAt(s, key, j)
    ensures r.None? ==> forall j | p <= j :: !MatchesAt(s, key, j)
    decreases |s| - p
  {
    if p + |key| > |s| || p == |s| then None
    else if MatchesAt(s, key, p) then Some(p)
    else KeyMatch(s, key, p + 1)
  }

  /** `s.match(/key\s*(.+)/)?.[1]`. */
  function Capture(s: string, key: string): (r: Option<string>)
    ensures r.Some? ==> r.value != [] && forall k | 0 <= k < |r.value| :: !IsLineTerminator(r.value[k])
  {
    match KeyMatch(s, key, 0)
    case None => None
    case Some(i) => CaptureAt(s, i + |key|)
  }

  // ---------------------------------------------------------------------------
  // The field rules.

  predicate IsNameChar(c: char)
  {
    'a' <= c <= 'z' || '0' <= c <= '9' || c == '-'
  }

  /** `/^[a-z0-9-]+$/.test(name)`. */
  predicate HyphenCase(name: string)
  {
    name != [] && forall k | 0 <= k < |name| :: IsNameChar(name[k])
  }

  /** Not `startsWith('-')`, not `endsWith('-')`, not `includes('--')`. */
  predicate HyphensWellPlaced(name: string)
  {
    !("-" <= name) && !EndsWith(name, "-") && !Contains(name, "--")
  }

  /** The first name rule that fails, as its message. */
  function NameProblem(name: string): (r: Option<string>)
    ensures r.Some? ==> |r.value| > |ValidMessage|
  {
    if !HyphenCase(name) then
      Some("Name '" + name + "' should be hyphen-case (lowercase letters, digits, and hyphens only)")
    else if !HyphensWellPlaced(name) then
      Some("Name '" + name + "' cannot start/end with hyphen or contain consecutive hyphens")
    else None
  }

  /** The description rule's message when it fails. */
  function DescriptionProblem(description: string): (r: Option<string>)
    ensures r.Some? ==> |r.value| > |ValidMessage|
  {
    if '<' in description || '>' in description then
      Some("Description cannot contain angle brackets (< or >)")
    else None
  }

  /** The name rules, applied to the trimmed value `name:` captures, when it captures one. */
  function NameIssue(frontmatter: string): (r: Option<string>)
    ensures r.Some? ==> r.value != ValidMessage
  {
    match Capture(frontmatter, "name:")
    case None => None
    case Some(c) => NameProblem(Trim(c, JsWhitespace))
  }

  /** The description rule, applied to the trimmed value `description:` captures, when it captures one. */
  function DescriptionIssue(frontmatter: string): (r: Option<string>)
    ensures r.Some? ==> r.value != ValidMessage
  {
    match Capture(frontmatter, "description:")
    case None => None
    case Some(c) => DescriptionProblem(Trim(c, JsWhitespace))
  }

  /** The name check, then the description check. */
  function CheckFields(frontmatter: string): ValidationResult
  {
    if NameIssue(frontmatter).Some? then Invalid(NameIssue(frontmatter).value)
    else if DescriptionIssue(frontmatter).Some? then Invalid(DescriptionIssue(frontmatter).value)
    else ValidationResult(true, ValidMessage)
  }

  /** The checks on the text of `SKILL.md`, in the order `validateSkill` makes them. */
  function ValidateContent(content: string): ValidationResult
  {
    if !("---" <= content) then Invalid("No YAML frontmatter found")
    else
      match Frontmatter(content)
      case None => Invalid("Invalid frontmatter format")
      case Some(fm) =>
        if !Contains(fm, "name:") then Invalid("Missing 'name' in frontmatter")
        else if !Contains(fm, "description:") then Invalid("Missing 'description' in frontmatter")
        else CheckFields(fm)
  }

  /** `validateSkill`: the files are a map from path to text. */
  function ValidateSkill(skillPath: string, files: map<string, string>): (r: ValidationResult)
    ensures Join(skillPath, SkillFile) !in files ==> r == Invalid("SKILL.md not found")
    ensures r.valid ==> Join(skillPath, SkillFile) in files && "---" <= files[Join(skillPath, SkillFile)]
  {
    var skillMd := Join(skillPath, SkillFile);
    if skillMd !in files then Invalid("SKILL.md not found")
    else ValidateContent(files[skillMd])
  }

  /** `main`: exactly one argument, the message printed, exit 0 only for a valid skill. */
  function QuickValidate(args: seq<string>, files: map<string, string>): (r: (int, string))
    ensures r.0 == 0 || r.0 == 1
    ensures |args| != 1 ==> r == (1, UsageMessage)
    ensures r.0 == 0 ==> |args| == 1 && ValidateSkill(args[0], files).valid
    ensures |args| == 1 ==> r.1 == ValidateSkill(args[0], files).message
  {
    if |args| != 1 then (1, UsageMessage)
    else
      var result := ValidateSkill(args[0], files);
      (if result.valid then 0 else 1, result.message)
  }

  // ---------------------------------------------------------------------------
  // Properties.

  /** The result is valid exactly when its message is `Skill is valid!`. */
  lemma ValidIffValidMessage(skillPath: string, files: map<string, string>)
    ensures ValidateSkill(skillPath, files).valid <==> ValidateSkill(skillPath, files).message == ValidMessage
  {
    var skillMd := Join(skillPath, SkillFile);
    if skillMd in files {
      ContentMessage(files[skillMd]);
    }
  }

  lemma ContentMessage(content: string)
    ensures ValidateContent(content).valid <==> ValidateContent(content).message == ValidMessage
  {
    var fm := Frontmatter(content);
    if fm.Some? && Contains(fm.value, "name:") && Contains(fm.value, "description:") {
      FieldsMessage(fm.value);
    }
  }

  lemma FieldsMessage(fm: string)
    ensures CheckFields(fm).valid <==> CheckFields(fm).message == ValidMessage
  {
  }

  /** `main` exits 0 exactly when it prints `Skill is valid!`. */
  lemma ExitZeroIffValid(args: seq<string>, files: map<string, string>)
    ensures QuickValidate(args, files).0 == 0 <==> QuickValidate(args, files).1 == ValidMessage
    ensures QuickValidate(args, files).0 == 0 ==> |args| == 1 && ValidateSkill(args[0], files).valid
    ensures QuickValidate(args, files).0 in {0, 1}
  {
    if |args| == 1 {
      ValidIffValidMessage(args[0], files);
    } else {
      assert |UsageMessage| != |ValidMessage|;
    }
  }

  /**
   * The regular expression `\s*(.+)` fails at `q` exactly when nothing but line
   * terminators follows `q`: any other character, white space or not, gives
   * `.+` something to match.
   */
  lemma CaptureNoneIff(s: string, q: nat)
    requires q <= |s|
    ensures CaptureAt(s, q).None? <==> forall k | q <= k < |s| :: IsLineTerminator(s[k])
  {
    var e := SpaceEnd(s, q);
    if forall k | q <= k < |s| :: IsLineTerminator(s[k]) {
      if e < |s| {
        TerminatorIsSpace(s[e]);
      }
      assert e == |s|;
    } else if CaptureAt(s, q).None? {
      if e < |s| {
        TerminatorIsSpace(s[e]);
      }
    }
  }

  /** After backtracking the group is the single white-space character `\s*` gave back. */
  lemma BacktrackCapturesOneChar(s: string, q: nat)
    requires q <= |s|
    requires var e := SpaceEnd(s, q); e == |s| || IsLineTerminator(s[e])
    ensures CaptureAt(s, q).Some? ==> |CaptureAt(s, q).value| == 1 && CaptureAt(s, q).value[0] in JsWhitespace
  {
    var e := SpaceEnd(s, q);
    var k := LastNonTerminator(s, q, e);
    if k.Some? {
      assert s[k.value] in JsWhitespace;
      assert RunEnd(s, k.value) == k.value + 1;
    }
  }

  /** A character that is not white space survives `trim` exactly when it was there. */
  lemma TrimKeepsChar(s: string, x: char)
    requires x !in JsWhitespace
    ensures x in Trim(s, JsWhitespace) <==> x in s
  {
    var i := LeadingSpace(s, JsWhitespace);
    if x in s {
      var k :| 0 <= k < |s| && s[k] == x;
      var e := ContentEnd(s, JsWhitespace);
      assert i <= k < e;
      assert Trim(s, JsWhitespace)[k - i] == x;
    }
  }

  /** `--` occurs in a string exactly when two hyphens are adjacent. */
  lemma DoubleHyphenIff(name: string)
    ensures Contains(name, "--") <==> exists k | 0 <= k < |name| - 1 :: name[k] == '-' && name[k + 1] == '-'
  {
    if Contains(name, "--") {
      var k := ContainsWitness(name, "--");
      assert name[k] == '-' && name[k + 1] == '-';
    }
    if exists k | 0 <= k < |name| - 1 :: name[k] == '-' && name[k + 1] == '-' {
      var k :| 0 <= k < |name| - 1 && name[k] == '-' && name[k + 1] == '-';
      assert "--" <= name[k..];
      ContainsAt(name, "--", k);
    }
  }

  /**
   * The two name rules together say: lower-case letters and digits in one or
   * more words, joined by single hyphens.
   */
  lemma NameRulesIff(name: string)
    ensures HyphenCase(name) && HyphensWellPlaced(name) <==>
      && name != []
      && (forall k | 0 <= k < |name| :: IsNameChar(name[k]))
      && (forall k | 0 <= k < |name| :: name[k] == '-' ==> 0 < k < |name| - 1 && name[k + 1] != '-')
  {
    DoubleHyphenIff(name);
    if name != [] {
      assert "-" <= name <==> name[0] == '-';
      assert EndsWith(name, "-") <==> name[|name| - 1] == '-';
    }
  }

  /** A name that passes is made of hyphen-case words. */
  lemma ValidName(fm: string)
    requires NameIssue(fm).None?
    ensures Capture(fm, "name:").Some? ==>
      var name := Trim(Capture(fm, "name:").value, JsWhitespace);
      HyphenCase(name) && HyphensWellPlaced(name)
  {
  }

  /** A description that passes has no angle brackets, trimmed or not. */
  lemma ValidDescription(fm: string)
    requires DescriptionIssue(fm).None?
    ensures Capture(fm, "description:").Some? ==>
      '<' !in Capture(fm, "description:").value && '>' !in Capture(fm, "description:").value
  {
    if Capture(fm, "description:").Some? {
      BracketsSurviveTrim(Capture(fm, "description:").value);
    }
  }

  /** Trimming cannot hide an angle bracket from the description rule. */
  lemma BracketsSurviveTrim(d: string)
    ensures DescriptionProblem(Trim(d, JsWhitespace)).None? <==> '<' !in d && '>' !in d
  {
    TrimKeepsChar(d, '<');
    TrimKeepsChar(d, '>');
  }

  /**
   * A valid skill has a `SKILL.md` opening with the shortest `---` fenced
   * frontmatter, which mentions both fields and passes the field rules.
   */
  lemma ValidSkillShape(skillPath: string, files: map<string, string>)
    requires ValidateSkill(skillPath, files).valid
    ensures Join(skillPath, SkillFile) in files
    ensures var content := files[Join(skillPath, SkillFile)];
      && Frontmatter(content).Some?
      && "---\n" + Frontmatter(content).value + Fence <= content
      && Contains(Frontmatter(content).value, "name:")
      && Contains(Frontmatter(content).value, "description:")
      && NameIssue(Frontmatter(content).value).None?
      && DescriptionIssue(Frontmatter(content).value).None?
  {
  }

  /** The checks come in order: a content without a fence is never blamed for its fields. */
  lemma EarlierCheckWins(content: string)
    ensures !("---" <= content) ==> ValidateContent(content).message == "No YAML frontmatter found"
    ensures Frontmatter(content).Some? && !Contains(Frontmatter(content).value, "name:") ==>
      ValidateContent(content).message == "Missing 'name' in frontmatter"
  {
    if Frontmatter(content).Some? {
      assert "---" <= content by {
        assert content[..3] == ("---\n" + Frontmatter(content).value + Fence)[..3];
      }
    }
  }
}
