/**
 * The three copies of the documentation-mirror engine: the skill-load hook
 * (TypeScript), the standalone fetch script (TypeScript) and its Python original.
 * They share the algorithm and differ in a few decisions, which the other
 * modules select on with `Variant`.
 */
module Engine {

  datatype Variant = HookTs | ScriptTs | Python {
    predicate IsTypeScript() { !Python? }
  }

  /** Attempts per document (`MAX_RETRIES`). */
  const MaxRetries: nat := 3

  /** Delay before the second attempt, in the variant's unit (ms for TypeScript, s for Python). */
  function RetryDelay(v: Variant): nat
  {
    if v.Python? then 2 else 2000
  }

  /** Upper bound on a retry delay, in the variant's unit. */
  function MaxRetryDelay(v: Variant): nat
  {
    if v.Python? then 30 else 30000
  }

  /** Default wait after a 429 without a `Retry-After` header, in seconds. */
  const DefaultRetryAfter: nat := 60

  /** Name of the manifest file inside the docs directory. */
  const ManifestFile: string := "docs_manifest.json"

  /** File name the changelog is stored under. */
  const ChangelogFile: string := "changelog.md"

  /** Name recorded in `failed_pages` for a failed changelog fetch. */
  const ChangelogName: string := "changelog"

  /** The locale-specific documentation path every page lives under. */
  const DocsPrefix: string := "/en/docs/claude-code/"
}
