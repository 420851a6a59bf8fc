/**
 * The per-session cache shared by the marketplace plugins: one JSON object per
 * (plugin, working directory, session) under a common base directory, read,
 * replaced, merged with updates, and consulted for a time-gated trigger. The
 * files are modelled as a map from path to content; the clock and date
 * parsing are parameters.
 */
module SessionCache {
  import opened Common
  import opened Text
  import opened Paths

  /** The JSON values the hooks store: strings, booleans and `null`. */
  datatype Value = Str(s: string) | Bool(b: bool) | Null

  /** JavaScript truthiness of a stored value. */
  predicate Truthy(v: Value)
  {
    match v
    case Str(s) => s != []
    case Bool(b) => b
    case Null => false
  }

  /** A parsed cache object. */
  type Fields = map<string, Value>

  /** A cache file: its text parses as a JSON object, or it does not parse. */
  datatype CacheFile = Unparsable | Parsed(fields: Fields)

  const LastTriggered: string := "last_triggered"

  /** `normalizePath`: drop one leading `/`, then turn every `/` into `-`. */
  function NormalizePath(path: string): (r: string)
    ensures '/' !in r
    ensures '/' !in path ==> r == path
  {
    var rest := if path != [] && path[0] == '/' then path[1..] else path;
    ReplaceAll(rest, '/', "-")
  }

  /**
   * Distinct working directories can share a cache directory: a `/` inside the
   * path and a `-` in the same place normalise alike.
   */
  lemma NormalizePathCollides(a: string, b: string)
    requires '/' !in a && '/' !in b
    ensures NormalizePath("/" + a + "/" + b) == NormalizePath("/" + a + "-" + b) == a + "-" + b
    ensures "/" + a + "/" + b != "/" + a + "-" + b
  {
    AppendAssoc(a, "/", b);
    AppendAssoc(a, "-", b);
    AppendAssoc("/", a, "/" + b);
    AppendAssoc("/" + a, "/", b);
    AppendAssoc("/", a, "-" + b);
    AppendAssoc("/" + a, "-", b);
    NormalizeRooted(a + ("/" + b));
    NormalizeRooted(a + ("-" + b));
    ReplaceAllJoin(a, b, '/', "-");
    assert '/' !in a + ("-" + b);
    assert ("/" + (a + ("/" + b)))[|a| + 1] == '/';
    assert ("/" + (a + ("-" + b)))[|a| + 1] == '-';
  }

  /** A path with a leading `/` normalises as the rest of it. */
  lemma NormalizeRooted(rest: string)
    ensures NormalizePath("/" + rest) == ReplaceAll(rest, '/', "-")
  {
    assert ("/" + rest)[0] == '/';
    assert ("/" + rest)[1..] == rest;
  }

  /** `CACHE_BASE`: `~/.local/cache/<marketplace name>`. */
  function CacheBase(home: string, marketplace: string): (r: string)
    ensures marketplace != [] ==> EndsWith(r, marketplace)
  {
    Join(Join(home, ".local/cache"), marketplace)
  }

  /** `getPluginCacheDir`: `<base>/<plugin>/<normalised cwd>`. */
  function PluginCacheDir(base: string, plugin: string, cwd: string): (r: string)
    ensures NormalizePath(cwd) != [] ==> EndsWith(r, NormalizePath(cwd))
  {
    Join(Join(base, plugin), NormalizePath(cwd))
  }

  /** `getSessionCachePath`: `<plugin cache dir>/<session id>.json`. */
  function SessionCachePath(base: string, plugin: string, cwd: string, sessionId: string): (r: string)
    ensures EndsWith(r, sessionId + ".json")
  {
    Join(PluginCacheDir(base, plugin, cwd), sessionId + ".json")
  }

  /** The cache file of a session is named after the session. */
  lemma SessionFileName(base: string, plugin: string, cwd: string, sessionId: string)
    requires '/' !in sessionId
    ensures Basename(SessionCachePath(base, plugin, cwd, sessionId)) == sessionId + ".json"
  {
    BasenameOfJoin(PluginCacheDir(base, plugin, cwd), sessionId + ".json");
  }

  /** Two working directories that differ only by `/` against `-` share every session file. */
  lemma SessionPathsCollide(base: string, plugin: string, a: string, b: string, sessionId: string)
    requires '/' !in a && '/' !in b
    ensures SessionCachePath(base, plugin, "/" + a + "/" + b, sessionId)
         == SessionCachePath(base, plugin, "/" + a + "-" + b, sessionId)
  {
    NormalizePathCollides(a, b);
  }

  // ---------------------------------------------------------------------------
  // The cache contents, as functions of the files.

  /** `readSessionCache`: the object at `path`, `None` when the file is missing or does not parse. */
  function ReadCache(files: map<string, CacheFile>, path: string): (r: Option<Fields>)
    ensures r.None? <==> path !in files || files[path].Unparsable?
    ensures r.Some? ==> files[path] == Parsed(r.value)
  {
    if path in files && files[path].Parsed? then Some(files[path].fields) else None
  }

  /** `{ ...existing, ...updates }`: every key of either, the update's value winning. */
  function Merge(existing: Fields, updates: Fields): (r: Fields)
    ensures r.Keys == existing.Keys + updates.Keys
    ensures forall k | k in updates :: r[k] == updates[k]
    ensures forall k | k in existing && k !in updates :: r[k] == existing[k]
  {
    existing + updates
  }

  /** The files after `updateSessionCache`: a missing or unreadable cache counts as `{}`. */
  function Updated(files: map<string, CacheFile>, path: string, updates: Fields): map<string, CacheFile>
  {
    files[path := Parsed(Merge(ReadCache(files, path).GetOr(map[]), updates))]
  }

  /** `markTriggered`'s updates: the current time, then the caller's metadata over it. */
  function TriggerUpdates(metadata: Fields, nowIso: string): (r: Fields)
    ensures LastTriggered in r
    ensures LastTriggered !in metadata ==> r[LastTriggered] == Str(nowIso)
    ensures LastTriggered in metadata ==> r[LastTriggered] == metadata[LastTriggered]
    ensures forall k | k in metadata :: k in r && r[k] == metadata[k]
  {
    Merge(map[LastTriggered := Str(nowIso)], metadata)
  }

  /** The instant a truthy `last_triggered` denotes: `new Date(true)` is one millisecond. */
  function TriggerTime(v: Value, parseDate: string -> Option<int>): Option<int>
  {
    match v
    case Str(s) => parseDate(s)
    case Bool(b) => if b then Some(1) else None
    case Null => None
  }

  /**
   * `shouldTriggerBasedOnTime`: no cache or no truthy `last_triggered` triggers;
   * an unparsable date gives `NaN` minutes and never triggers; otherwise the
   * elapsed minutes must reach the delay.
   */
  function TriggerDue(cache: Option<Fields>, delayMinutes: real, now: int, parseDate: string -> Option<int>): (b: bool)
    ensures cache.None? ==> b
    ensures cache.Some? && (LastTriggered !in cache.value || !Truthy(cache.value[LastTriggered])) ==> b
    ensures (cache.Some? && LastTriggered in cache.value && Truthy(cache.value[LastTriggered]) &&
      TriggerTime(cache.value[LastTriggered], parseDate).None?) ==> !b
  {
    if cache.None? || LastTriggered !in cache.value || !Truthy(cache.value[LastTriggered]) then true
    else
      match TriggerTime(cache.value[LastTriggered], parseDate)
      case None => false
      case Some(t) => (now - t) as real / 60000.0 >= delayMinutes
  }

  // ---------------------------------------------------------------------------
  // Properties.

  /** An update is read back merged into the old object, and no other file changes. */
  lemma ReadAfterUpdate(files: map<string, CacheFile>, path: string, updates: Fields, other: string)
    ensures ReadCache(Updated(files, path, updates), path)
         == Some(Merge(ReadCache(files, path).GetOr(map[]), updates))
    ensures other != path ==> ReadCache(Updated(files, path, updates), other) == ReadCache(files, other)
    ensures path !in files || files[path].Unparsable? ==>
      ReadCache(Updated(files, path, updates), path) == Some(updates)
  {
    assert Merge(map[], updates) == updates;
  }

  /** Two updates in a row are one update with the second merged over the first. */
  lemma UpdateTwice(files: map<string, CacheFile>, path: string, u: Fields, w: Fields)
    ensures Updated(Updated(files, path, u), path, w) == Updated(files, path, Merge(u, w))
  {
    var e := ReadCache(files, path).GetOr(map[]);
    assert Merge(Merge(e, u), w) == Merge(e, Merge(u, w));
  }

  /** Updating with what is already stored changes nothing in the object. */
  lemma UpdateIdempotent(files: map<string, CacheFile>, path: string, u: Fields)
    ensures Updated(Updated(files, path, u), path, u) == Updated(files, path, u)
  {
    UpdateTwice(files, path, u, u);
    assert Merge(u, u) == u;
  }

  /** With a parsable date, the trigger is due exactly when `delay` minutes have passed. */
  lemma DueIffElapsed(cache: Fields, delayMinutes: real, now: int, parseDate: string -> Option<int>, t: int)
    requires LastTriggered in cache && Truthy(cache[LastTriggered])
    requires TriggerTime(cache[LastTriggered], parseDate) == Some(t)
    ensures TriggerDue(Some(cache), delayMinutes, now, parseDate) <==> (now - t) as real >= delayMinutes * 60000.0
  {
  }

  /**
   * Marking a trigger at a time that parses back to `t` holds the trigger off
   * until the delay has elapsed, unless the metadata brings its own stamp.
   */
  lemma QuietAfterMark(files: map<string, CacheFile>, path: string, metadata: Fields, nowIso: string,
                       parseDate: string -> Option<int>, t: int, later: int, delayMinutes: real)
    requires LastTriggered !in metadata && nowIso != [] && parseDate(nowIso) == Some(t)
    requires ((later - t) as real) < delayMinutes * 60000.0
    ensures !TriggerDue(ReadCache(Updated(files, path, TriggerUpdates(metadata, nowIso)), path), delayMinutes, later, parseDate)
  {
    var cache := ReadCache(Updated(files, path, TriggerUpdates(metadata, nowIso)), path);
    ReadAfterUpdate(files, path, TriggerUpdates(metadata, nowIso), path);
    assert cache.value[LastTriggered] == Str(nowIso);
    DueIffElapsed(cache.value, delayMinutes, later, parseDate, t);
  }

  /** Without a readable cache, or before any trigger was marked, the trigger is due. */
  lemma DueWithoutStamp(files: map<string, CacheFile>, path: string, delayMinutes: real, now: int,
                        parseDate: string -> Option<int>)
    requires ReadCache(files, path).Some? ==> LastTriggered !in ReadCache(files, path).value
    ensures TriggerDue(ReadCache(files, path), delayMinutes, now, parseDate)
  {
  }

  /**
   * The cache files under one base directory (`CACHE_BASE`). Every operation
   * names its file by plugin, working directory and session.
   */
  class CacheStore {
    const base: string
    var files: map<string, CacheFile>

    constructor (base: string, files: map<string, CacheFile>)
      ensures this.base == base && this.files == files
    {
      this.base := base;
      this.files := files;
    }

    /** `readSessionCache`. */
    function ReadSessionCache(plugin: string, cwd: string, sessionId: string): (r: Option<Fields>)
      reads this
      ensures r.None? <==> var p := SessionCachePath(base, plugin, cwd, sessionId);
        p !in files || files[p].Unparsable?
    {
      ReadCache(files, SessionCachePath(base, plugin, cwd, sessionId))
    }

    /** `writeSessionCache`: the session's file is replaced by `data`. */
    method WriteSessionCache(plugin: string, cwd: string, sessionId: string, data: Fields)
      modifies this
      ensures files == old(files)[SessionCachePath(base, plugin, cwd, sessionId) := Parsed(data)]
    {
      files := files[SessionCachePath(base, plugin, cwd, sessionId) := Parsed(data)];
    }

    /** `updateSessionCache`: read, merge the updates over it, write back. */
    method UpdateSessionCache(plugin: string, cwd: string, sessionId: string, updates: Fields)
      modifies this
      ensures files == Updated(old(files), SessionCachePath(base, plugin, cwd, sessionId), updates)
    {
      var existing := ReadSessionCache(plugin, cwd, sessionId);
      WriteSessionCache(plugin, cwd, sessionId, Merge(existing.GetOr(map[]), updates));
    }

    /** `shouldTriggerBasedOnTime`, with the current time passed in. */
    function ShouldTriggerBasedOnTime(plugin: string, cwd: string, sessionId: string, delayMinutes: real,
                                      now: int, parseDate: string -> Option<int>): (b: bool)
      reads this
      ensures ReadSessionCache(plugin, cwd, sessionId).None? ==> b
    {
      TriggerDue(ReadSessionCache(plugin, cwd, sessionId), delayMinutes, now, parseDate)
    }

    /** `markTriggered`: merge `last_triggered` (and any metadata over it) into the session's cache. */
    method MarkTriggered(plugin: string, cwd: string, sessionId: string, metadata: Fields, nowIso: string)
      modifies this
      ensures files == Updated(old(files), SessionCachePath(base, plugin, cwd, sessionId), TriggerUpdates(metadata, nowIso))
    {
      UpdateSessionCache(plugin, cwd, sessionId, TriggerUpdates(metadata, nowIso));
    }
  }
}
