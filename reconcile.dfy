/**
 * The manifest and the per-document reconcile step of `runFetch` / `main`:
 * compare the downloaded content with the previous manifest entry by hash,
 * write the file when needed, and build the new entry. The hash function
 * (SHA-256 in the source) is a parameter.
 */
module Manifests {
  import opened Common
  import opened Engine

  /** Where a manifest entry says its content came from. */
  datatype Origin =
    | PageOrigin(url: string, mdUrl: string)   // `${baseUrl}${pagePath}` and the same with `.md`
    | ChangelogOrigin                          // the fixed GitHub URLs and `source: claude-code-repository`

  /** One entry of the manifest's `files` map; `lastUpdated` is `None` when the key is absent. */
  datatype Entry = Entry(origin: Origin, hash: string, lastUpdated: Option<string>)

  /** The `fetch_metadata` block of a saved manifest. */
  datatype Stats = Stats(
    discovered: nat, successful: nat, failed: nat, failedPages: seq<string>,
    sitemapUrl: string, baseUrl: string, totalFiles: nat)

  /** A manifest: `lastUpdated` is the top-level `last_updated`, set on every save. */
  datatype Manifest = Manifest(files: map<string, Entry>, lastUpdated: Option<string>, stats: Option<Stats>)

  /** The manifest file on disk: absent, unreadable as JSON, or a manifest. */
  datatype ManifestState = NoManifest | Corrupt | Saved(manifest: Manifest)

  /** `loadManifest`: the previous `files`, empty when the file is absent or does not parse. */
  function PreviousFiles(s: ManifestState): (r: map<string, Entry>)
    ensures s.Saved? ==> r == s.manifest.files
    ensures !s.Saved? ==> r == map[]
  {
    if s.Saved? then s.manifest.files else map[]
  }

  /** `manifest.files[filename]?.hash || ""` / `.get("hash", "")`. */
  function OldHash(prev: map<string, Entry>, name: string): string
  {
    if name in prev then prev[name].hash else ""
  }

  /**
   * Whether the file is written: TypeScript when it is missing from disk or the
   * hash changed, Python when the hash changed, whatever is on disk.
   */
  predicate Writes(v: Variant, prev: map<string, Entry>, disk: map<string, string>, name: string,
                   content: string, hash: string -> string): (b: bool)
    ensures v.Python? ==> (b <==> hash(content) != OldHash(prev, name))
    ensures name !in prev && hash(content) != [] ==> b
    ensures name in prev && prev[name].hash == hash(content) && name in disk ==> !b
  {
    (v.IsTypeScript() && name !in disk) || hash(content) != OldHash(prev, name)
  }

  /**
   * The `last_updated` carried over when the file is not written. TypeScript's
   * `oldEntry.last_updated || now` also replaces an empty string; Python's
   * `.get("last_updated", now)` only a missing key.
   */
  function CarriedStamp(v: Variant, prev: map<string, Entry>, name: string, stamp: string): (r: Option<string>)
    ensures name in prev && prev[name].lastUpdated.Some? && (v.Python? || prev[name].lastUpdated.value != []) ==>
      r == prev[name].lastUpdated
    ensures name !in prev || prev[name].lastUpdated.None? ==> r == Some(stamp)
    ensures v.IsTypeScript() ==> (r.Some? && r.value != []) || r == Some(stamp)
  {
    if name !in prev || prev[name].lastUpdated.None? then Some(stamp)
    else if v.IsTypeScript() && prev[name].lastUpdated.value == [] then Some(stamp)
    else prev[name].lastUpdated
  }

  /** The new manifest entry for a document downloaded as `content`. */
  function NewEntry(v: Variant, prev: map<string, Entry>, disk: map<string, string>, name: string,
                    content: string, origin: Origin, hash: string -> string, stamp: string): (e: Entry)
    ensures e.hash == hash(content)   // written or not, the entry records the downloaded content's hash
    ensures e.origin == origin
    ensures v.IsTypeScript() && stamp != [] ==> e.lastUpdated.Some? && e.lastUpdated.value != []
  {
    if Writes(v, prev, disk, name, content, hash) then Entry(origin, hash(content), Some(stamp))
    else Entry(origin, OldHash(prev, name), CarriedStamp(v, prev, name, stamp))
  }

  /** The documents directory after the step. */
  function NewDisk(v: Variant, prev: map<string, Entry>, disk: map<string, string>, name: string,
                   content: string, hash: string -> string): (d: map<string, string>)
    ensures d.Keys == disk.Keys + {name} || d.Keys == disk.Keys
    ensures forall n | n in disk && n != name :: n in d && d[n] == disk[n]
    ensures v.IsTypeScript() ==> name in d
  {
    if Writes(v, prev, disk, name, content, hash) then disk[name := content] else disk
  }

  // ---------------------------------------------------------------------------
  // Properties of one step.

  /**
   * The file is written iff it is missing (TypeScript) or its hash changed;
   * otherwise the disk is untouched and the old hash and stamp are carried over.
   */
  lemma WriteIffChanged(v: Variant, prev: map<string, Entry>, disk: map<string, string>, name: string,
                        content: string, origin: Origin, hash: string -> string, stamp: string)
    ensures var d := NewDisk(v, prev, disk, name, content, hash);
      var e := NewEntry(v, prev, disk, name, content, origin, hash, stamp);
      && (d != disk ==> (v.IsTypeScript() && name !in disk) || hash(content) != OldHash(prev, name))
      && ((v.IsTypeScript() && name !in disk) || hash(content) != OldHash(prev, name) ==>
            d == disk[name := content] && e.lastUpdated == Some(stamp))
      && (!(v.IsTypeScript() && name !in disk) && hash(content) == OldHash(prev, name) ==>
            d == disk && e.hash == OldHash(prev, name) && e.lastUpdated == CarriedStamp(v, prev, name, stamp))
  {
  }

  /** Python does not look at the disk: a deleted file whose content is unchanged stays missing. */
  lemma PythonIgnoresDisk(prev: map<string, Entry>, disk: map<string, string>, name: string,
                          content: string, hash: string -> string)
    requires name !in disk && name in prev && hash(content) == prev[name].hash
    ensures name !in NewDisk(Python, prev, disk, name, content, hash)
  {
  }

  /**
   * Reconciling the same content against what the first step left behind does
   * not write again and keeps the hash and the stamp.
   */
  lemma ReconcileIdempotent(v: Variant, prev: map<string, Entry>, disk: map<string, string>, name: string,
                            content: string, origin: Origin, hash: string -> string, stamp: string, later: string)
    requires stamp != []
    requires name in prev ==> prev[name].lastUpdated.Some? && prev[name].lastUpdated.value != []
    ensures var e := NewEntry(v, prev, disk, name, content, origin, hash, stamp);
      var d := NewDisk(v, prev, disk, name, content, hash);
      var prev2 := prev[name := e];
      && !Writes(v, prev2, d, name, content, hash)
      && NewDisk(v, prev2, d, name, content, hash) == d
      && NewEntry(v, prev2, d, name, content, origin, hash, later) == e
  {
    var e := NewEntry(v, prev, disk, name, content, origin, hash, stamp);
    assert e.lastUpdated.Some? && e.lastUpdated.value != [];
  }
}
