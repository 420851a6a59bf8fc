/**
 * `getFallbackPages` / `get_fallback_pages`: the fixed list of 44 documentation
 * paths used whenever page discovery does not produce a list, and the proof that
 * the 44 paths are stored under 44 different file names in every variant.
 */
module Fallback {
  import opened Text
  import opened Engine
  import opened Filenames

  /** What follows the docs prefix in each fallback path, in the order of the source list. */
  const FallbackTopics: seq<string> :=
    [
      "overview", "quickstart", "setup", "cli-reference",
      "common-workflows", "interactive-mode", "settings", "model-config",
      "network-config", "terminal-config", "output-styles", "statusline",
      "hooks", "hooks-guide", "mcp", "skills",
      "slash-commands", "plugins", "plugins-reference", "plugin-marketplaces",
      "sub-agents", "memory", "checkpointing", "analytics",
      "monitoring-usage", "costs", "github-actions", "gitlab-ci-cd",
      "vs-code", "jetbrains", "devcontainer", "claude-code-on-the-web",
      "third-party-integrations", "amazon-bedrock", "google-vertex-ai", "llm-gateway",
      "iam", "security", "sandboxing", "data-usage",
      "legal-and-compliance", "headless", "troubleshooting", "sdk/migration-guide"
    ]

  /** The fallback paths: each topic under `/en/docs/claude-code/`. */
  function FallbackPages(): (r: seq<string>)
    ensures |r| == 44
    ensures forall i | 0 <= i < |r| :: r[i] == DocsPrefix + FallbackTopics[i]
  {
    seq(|FallbackTopics|, i requires 0 <= i < |FallbackTopics| => DocsPrefix + FallbackTopics[i])
  }

  /** A one-level topic: no `/`, `_` or `.`. */
  predicate Plain(t: string)
  {
    forall k | 0 <= k < |t| :: t[k] != '/' && t[k] != '_' && t[k] != '.'
  }

  lemma TopicsPlainA()
    ensures forall i | 0 <= i < 5 :: Plain(FallbackTopics[i])
  {
    assert Plain("overview");
    assert Plain("quickstart");
    assert Plain("setup");
    assert Plain("cli-reference");
    assert Plain("common-workflows");
  }

  lemma TopicsPlainF()
    ensures forall i | 5 <= i < 9 :: Plain(FallbackTopics[i])
  {
    assert Plain("interactive-mode");
    assert Plain("settings");
    assert Plain("model-config");
    assert Plain("network-config");
  }

  lemma TopicsPlainB()
    ensures forall i | 9 <= i < 18 :: Plain(FallbackTopics[i])
  {
    assert Plain("terminal-config");
    assert Plain("output-styles");
    assert Plain("statusline");
    assert Plain("hooks");
    assert Plain("hooks-guide");
    assert Plain("mcp");
    assert Plain("skills");
    assert Plain("slash-commands");
    assert Plain("plugins");
  }

  lemma TopicsPlainC()
    ensures forall i | 18 <= i < 27 :: Plain(FallbackTopics[i])
  {
    assert Plain("plugins-reference");
    assert Plain("plugin-marketplaces");
    assert Plain("sub-agents");
    assert Plain("memory");
    assert Plain("checkpointing");
    assert Plain("analytics");
    assert Plain("monitoring-usage");
    assert Plain("costs");
    assert Plain("github-actions");
  }

  lemma TopicsPlainD()
    ensures forall i | 27 <= i < 32 :: Plain(FallbackTopics[i])
  {
    assert Plain("gitlab-ci-cd");
    assert Plain("vs-code");
    assert Plain("jetbrains");
    assert Plain("devcontainer");
    assert Plain("claude-code-on-the-web");
  }

  lemma TopicsPlainG()
    ensures forall i | 32 <= i < 36 :: Plain(FallbackTopics[i])
  {
    assert Plain("third-party-integrations");
    assert Plain("amazon-bedrock");
    assert Plain("google-vertex-ai");
    assert Plain("llm-gateway");
  }

  lemma TopicsPlainE()
    ensures forall i | 36 <= i < 43 :: Plain(FallbackTopics[i])
  {
    assert Plain("iam");
    assert Plain("security");
    assert Plain("sandboxing");
    assert Plain("data-usage");
    assert Plain("legal-and-compliance");
    assert Plain("headless");
    assert Plain("troubleshooting");
  }

  /** Length, first and third character packed into one number; it tells the topics apart. */
  function Key(t: string): int
    requires |t| >= 3
  {
    |t| * 1000000 + (t[0] as int) * 1000 + t[2] as int
  }

  /** Position in `FallbackTopics` of the topic with key `k`. */
  function TopicIndex(k: int): int
  {
    if k == 8111101 then 0 else
    if k == 10113105 then 1 else
    if k == 5115116 then 2 else
    if k == 13099105 then 3 else
    if k == 16099109 then 4 else
    if k == 16105116 then 5 else
    if k == 8115116 then 6 else
    if k == 12109100 then 7 else
    if k == 14110116 then 8 else
    if k == 15116114 then 9 else
    if k == 13111116 then 10 else
    if k == 10115097 then 11 else
    if k == 5104111 then 12 else
    if k == 11104111 then 13 else
    if k == 3109112 then 14 else
    if k == 6115105 then 15 else
    if k == 14115097 then 16 else
    if k == 7112117 then 17 else
    if k == 17112117 then 18 else
    if k == 19112117 then 19 else
    if k == 10115098 then 20 else
    if k == 6109109 then 21 else
    if k == 13099101 then 22 else
    if k == 9097097 then 23 else
    if k == 16109110 then 24 else
    if k == 5099115 then 25 else
    if k == 14103116 then 26 else
    if k == 12103116 then 27 else
    if k == 7118045 then 28 else
    if k == 9106116 then 29 else
    if k == 12100118 then 30 else
    if k == 22099097 then 31 else
    if k == 24116105 then 32 else
    if k == 14097097 then 33 else
    if k == 16103111 then 34 else
    if k == 11108109 then 35 else
    if k == 3105109 then 36 else
    if k == 8115099 then 37 else
    if k == 10115110 then 38 else
    if k == 10100116 then 39 else
    if k == 20108103 then 40 else
    if k == 8104097 then 41 else
    if k == 15116111 then 42 else
    if k == 19115107 then 43 else
    -1
  }

  lemma KeysIndexA()
    ensures forall i | 0 <= i < 11 :: |FallbackTopics[i]| >= 3 && TopicIndex(Key(FallbackTopics[i])) == i
  {
  }

  lemma KeysIndexB()
    ensures forall i | 11 <= i < 22 :: |FallbackTopics[i]| >= 3 && TopicIndex(Key(FallbackTopics[i])) == i
  {
  }

  lemma KeysIndexC()
    ensures forall i | 22 <= i < 33 :: |FallbackTopics[i]| >= 3 && TopicIndex(Key(FallbackTopics[i])) == i
  {
  }

  lemma KeysIndexD()
    ensures forall i | 33 <= i < 44 :: |FallbackTopics[i]| >= 3 && TopicIndex(Key(FallbackTopics[i])) == i
  {
  }


  /** The 44 topics are pairwise different: `TopicIndex` recovers each topic's position from its key. */
  lemma TopicsDistinct()
    ensures forall i, j | 0 <= i < j < 44 :: FallbackTopics[i] != FallbackTopics[j]
  {
    KeysIndexA();
    KeysIndexB();
    KeysIndexC();
    KeysIndexD();
    forall i, j | 0 <= i < j < 44 ensures FallbackTopics[i] != FallbackTopics[j] {
      assert TopicIndex(Key(FallbackTopics[i])) != TopicIndex(Key(FallbackTopics[j]));
    }
  }

  /** Every topic can be stored without ambiguity. */
  lemma TopicsTame()
    ensures forall i | 0 <= i < 44 :: Tame(FallbackTopics[i])
  {
    TopicsPlainA();
    TopicsPlainF();
    TopicsPlainB();
    TopicsPlainC();
    TopicsPlainD();
    TopicsPlainG();
    TopicsPlainE();
    forall i | 0 <= i < 43 ensures Tame(FallbackTopics[i]) {
      var t := FallbackTopics[i];
      assert '_' !in t && '.' !in t && '/' !in t;
      if Contains(t, DocsPrefix) { ContainsFirstChar(t, DocsPrefix); }
    }
    SdkTopicTame();
  }

  lemma SdkTopicTame()
    ensures Tame(FallbackTopics[43])
  {
    var t := "sdk/migration-guide";
    assert FallbackTopics[43] == t;
    assert forall k | 0 <= k < |t| :: t[k] != '_' && t[k] != '.';
    MigrationGuideShort();
  }

  /** The 44 fallback pages are stored under 44 different file names. */
  lemma FallbackNamesDistinct(v: Variant)
    ensures forall i, j | 0 <= i < j < |FallbackPages()| ::
      SafeFilename(v, FallbackPages()[i]) != SafeFilename(v, FallbackPages()[j])
  {
    TopicsTame();
    TopicsDistinct();
    forall i, j | 0 <= i < j < |FallbackPages()|
      ensures SafeFilename(v, FallbackPages()[i]) != SafeFilename(v, FallbackPages()[j])
    {
      if SafeFilename(v, DocsPrefix + FallbackTopics[i]) == SafeFilename(v, DocsPrefix + FallbackTopics[j]) {
        DocsNamesInjective(v, FallbackTopics[i], FallbackTopics[j]);
      }
    }
  }
}
