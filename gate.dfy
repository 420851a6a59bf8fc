/**
 * The hook's entry point: sync only when the loaded skill is this one and the
 * mirror is stale (`shouldSync`, `checkIfSyncNeeded`, `main`). Dates are
 * milliseconds since the epoch; date parsing is a parameter returning `None`
 * where `new Date(...)` gives an invalid date.
 */
module Gate {
  import opened Common
  import opened Engine
  import opened Fetcher
  import opened Discovery
  import opened Manifests
  import opened Runs

  /** The fields of the hook's standard input that the gate reads. */
  datatype HookInput = HookInput(toolName: string, skill: Option<string>)

  const SkillName: string := "claude-code-knowledge"
  const QualifiedSkillName: string := "claude-code-knowledge:claude-code-knowledge"

  const HourMs: int := 1000 * 60 * 60
  const StaleHours: int := 3

  /** `shouldSync`: no input (unreadable JSON), another tool or another skill means no sync. */
  function ShouldSync(input: Option<HookInput>): (b: bool)
    ensures b ==> input.Some? && input.value.toolName == "Skill" && input.value.skill.Some?
    ensures b ==> input.value.skill.value == SkillName || input.value.skill.value == QualifiedSkillName
  {
    match input
    case None => false
    case Some(h) =>
      var skill := h.skill.GetOr("");
      h.toolName == "Skill" && (skill == SkillName || skill == QualifiedSkillName)
  }

  /** `lastUpdate.slice(0, 19)`. */
  function Prefix19(s: string): (r: string)
    ensures r <= s && |r| == if |s| < 19 then |s| else 19
  {
    if |s| <= 19 then s else s[..19]
  }

  /**
   * `checkIfSyncNeeded`: a missing or unreadable manifest, or a missing, empty
   * or `unknown` stamp, means a sync; an unparsable stamp gives `NaN` hours and
   * so no sync; otherwise whole hours elapsed (floored) of at least three.
   */
  function SyncNeeded(state: ManifestState, now: int, parseDate: string -> Option<int>): (b: bool)
    ensures !state.Saved? ==> b
    ensures state.Saved? && state.manifest.lastUpdated.None? ==> b
    ensures (state.Saved? && state.manifest.lastUpdated.Some? &&
      (state.manifest.lastUpdated.value == [] || state.manifest.lastUpdated.value == "unknown")) ==> b
    ensures (state.Saved? && state.manifest.lastUpdated.Some? &&
      state.manifest.lastUpdated.value != [] && state.manifest.lastUpdated.value != "unknown" &&
      parseDate(Prefix19(state.manifest.lastUpdated.value)).None?) ==> !b
  {
    match state
    case NoManifest => true
    case Corrupt => true
    case Saved(m) =>
      var last := m.lastUpdated.GetOr("");
      if last == [] || last == "unknown" then true
      else
        match parseDate(Prefix19(last))
        case None => false
        case Some(t) => (now - t) / HourMs >= StaleHours   // `/` on a positive divisor floors
  }

  /** Floored hours of at least three is the same as at least 10 800 000 milliseconds. */
  lemma StaleIffThreeHours(m: Manifest, now: int, parseDate: string -> Option<int>, t: int)
    requires m.lastUpdated.Some? && m.lastUpdated.value != [] && m.lastUpdated.value != "unknown"
    requires parseDate(Prefix19(m.lastUpdated.value)) == Some(t)
    ensures SyncNeeded(Saved(m), now, parseDate) <==> now - t >= 10800000
  {
    var d := now - t;
    if d >= 10800000 {
      assert d / HourMs >= 3 by {
        assert d == HourMs * (d / HourMs) + d % HourMs;
        assert d % HourMs < HourMs;
      }
    } else {
      assert d / HourMs < 3 by {
        assert d == HourMs * (d / HourMs) + d % HourMs;
        assert d % HourMs >= 0;
      }
    }
  }

  /**
   * A run that saved its manifest at a time that parses back to `t` keeps the
   * hook from syncing again until three hours have passed.
   */
  lemma FreshAfterSave(v: Variant, disk: map<string, string>, stored: ManifestState, net: Network,
                       parse: string -> Option<ParsedUrl>, hash: string -> string, stamp: string,
                       now: int, parseDate: string -> Option<int>, t: int)
    requires RunSpec(v, disk, stored, net, parse, hash, stamp).result != DiscoveryFailed
    requires stamp != [] && stamp != "unknown" && parseDate(Prefix19(stamp)) == Some(t)
    requires now - t < 10800000
    ensures !SyncNeeded(RunSpec(v, disk, stored, net, parse, hash, stamp).manifest, now, parseDate)
  {
    RunDiscovery(v, disk, stored, net, parse, hash, stamp);
    var r := RunSpec(v, disk, stored, net, parse, hash, stamp);
    var located := Locate(v, net.sitemaps, parse).value;
    SyncedAccounting(RunContext(v, stored, located, net, hash, stamp), disk, Discovered(v, net.listing, parse), located);
    StaleIffThreeHours(r.manifest.manifest, now, parseDate, t);
  }

  /**
   * The hook's `main`: when the gate is open and the mirror is stale, run a
   * sync; swallow every outcome and exit 0.
   */
  method SyncOnSkillLoad(mirror: DocsMirror, input: Option<HookInput>, now: int, parseDate: string -> Option<int>,
                         net: Network, parse: string -> Option<ParsedUrl>, hash: string -> string, stamp: string)
    returns (exit: int)
    modifies mirror
    ensures exit == 0
    ensures !ShouldSync(input) || !SyncNeeded(old(mirror.manifest), now, parseDate) ==>
      mirror.docs == old(mirror.docs) && mirror.manifest == old(mirror.manifest)
    ensures ShouldSync(input) && SyncNeeded(old(mirror.manifest), now, parseDate) ==>
      var r := RunSpec(HookTs, old(mirror.docs), old(mirror.manifest), net, parse, hash, stamp);
      mirror.docs == r.disk && mirror.manifest == r.manifest
  {
    if !ShouldSync(input) {
      return 0;
    }
    if !SyncNeeded(mirror.manifest, now, parseDate) {
      return 0;
    }
    var _ := mirror.Run(HookTs, net, parse, hash, stamp);
    return 0;
  }

  /** The two scripts' `main`: a run, then the exit status. */
  method FetchDocs(mirror: DocsMirror, v: Variant, net: Network, parse: string -> Option<ParsedUrl>,
                   hash: string -> string, stamp: string)
    returns (exit: int)
    requires !v.HookTs?
    modifies mirror
    ensures var r := RunSpec(v, old(mirror.docs), old(mirror.manifest), net, parse, hash, stamp);
      && mirror.docs == r.disk && mirror.manifest == r.manifest
      && (exit == 1 <==> r.result != Completed)
      && (exit == 0 || exit == 1)
  {
    ghost var r := RunSpec(v, mirror.docs, mirror.manifest, net, parse, hash, stamp);
    ExitRules(v, mirror.docs, mirror.manifest, net, parse, hash, stamp);
    var result := mirror.Run(v, net, parse, hash, stamp);
    if result == DiscoveryFailed {
      return 1;
    }
    var stats := mirror.manifest.manifest.stats.value;
    exit := if |stats.failedPages| > 0 && stats.successful == 0 then 1 else 0;
  }
}
