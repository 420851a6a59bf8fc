/**
 * String operations shared by the TypeScript and Python sources: substring tests,
 * `split(sep)` followed by taking the last piece, global single-character replacement,
 * `trim`/`strip`, `split('\n')` and lexicographic sorting with de-duplication.
 * Strings are sequences of Unicode scalar values.
 */
module Text {

  /** `sub` occurs in `s` (JavaScript `includes`, Python `in`). */
  predicate Contains(s: string, sub: string)
    decreases |s|
  {
    sub <= s || (s != [] && Contains(s[1..], sub))
  }

  /** JavaScript `endsWith`, Python `endswith`. */
  predicate EndsWith(s: string, suffix: string)
  {
    |suffix| <= |s| && s[|s| - |suffix|..] == suffix
  }

  lemma {:induction false} ContainsAt(s: string, sub: string, i: nat)
    requires i <= |s| && sub <= s[i..]
    ensures Contains(s, sub)
  {
    if i > 0 {
      assert s[1..][i - 1..] == s[i..];
      ContainsAt(s[1..], sub, i - 1);
    }
  }

  lemma {:induction false} ContainsWitness(s: string, sub: string) returns (i: nat)
    requires Contains(s, sub)
    ensures i + |sub| <= |s| && s[i..i + |sub|] == sub
  {
    if sub <= s {
      i := 0;
    } else {
      var j := ContainsWitness(s[1..], sub);
      i := j + 1;
      assert s[i..i + |sub|] == s[1..][j..j + |sub|];
    }
  }

  lemma ContainsLength(s: string, sub: string)
    requires Contains(s, sub)
    ensures |sub| <= |s|
  {
    var i := ContainsWitness(s, sub);
  }

  /** An occurrence inside a part is an occurrence in the whole. */
  lemma ContainsInfix(a: string, s: string, b: string, sub: string)
    requires Contains(s, sub)
    ensures Contains(a + s + b, sub)
  {
    var i := ContainsWitness(s, sub);
    assert (a + s + b)[|a| + i..][..|sub|] == sub;
    ContainsAt(a + s + b, sub, |a| + i);
  }

  /** An occurrence of a non-empty `sub` starts at some character equal to `sub[0]`. */
  lemma ContainsFirstChar(s: string, sub: string)
    requires sub != [] && Contains(s, sub)
    ensures sub[0] in s
  {
    var i := ContainsWitness(s, sub);
    assert s[i] == sub[0];
  }

  /**
   * The last piece of `s.split(sep)` (JavaScript `split(sep).pop()`, Python
   * `split(sep)[-1]`): both scan left to right for non-overlapping occurrences
   * of `sep`, so the last piece is what follows the final match of that scan.
   */
  function LastSegment(s: string, sep: string): (r: string)
    requires sep != []
    ensures |r| <= |s| && r == s[|s| - |r|..]
    ensures !Contains(r, sep)
    ensures !Contains(s, sep) ==> r == s
    ensures Contains(s, sep) ==> |r| + |sep| <= |s|
    decreases |s|
  {
    if !Contains(s, sep) then s
    else if sep <= s then LastSegment(s[|sep|..], sep)
    else LastSegment(s[1..], sep)
  }

  /** A separator at the front is consumed by the scan, whatever follows. */
  lemma LastSegmentAfterPrefix(sep: string, t: string)
    requires sep != [] && !Contains(t, sep)
    ensures LastSegment(sep + t, sep) == t
  {
    assert sep <= sep + t;
    ContainsAt(sep + t, sep, 0);
    assert (sep + t)[|sep|..] == t;
  }

  /** Positions before `k` where no separator starts are skipped by the scan. */
  lemma {:induction false} LastSegmentSkip(s: string, sep: string, k: nat)
    requires sep != [] && k <= |s| && Contains(s[k..], sep)
    requires forall j | 0 <= j < k :: !(sep <= s[j..])
    ensures LastSegment(s, sep) == LastSegment(s[k..], sep)
    decreases k
  {
    if k > 0 {
      var i := ContainsWitness(s[k..], sep);
      assert s[k + i..][..|sep|] == s[k..][i..i + |sep|];
      ContainsAt(s, sep, k + i);
      assert !(sep <= s[0..]);
      assert s[1..][k - 1..] == s[k..];
      forall j | 0 <= j < k - 1 ensures !(sep <= s[1..][j..]) {
        assert s[1..][j..] == s[j + 1..];
      }
      LastSegmentSkip(s[1..], sep, k - 1);
    }
  }

  /** An empty last piece means `s` ends with the separator. */
  lemma {:induction false} LastSegmentEmpty(s: string, sep: string)
    requires sep != [] && s != [] && LastSegment(s, sep) == []
    ensures EndsWith(s, sep)
    decreases |s|
  {
    if sep <= s {
      if s[|sep|..] != [] {
        LastSegmentEmpty(s[|sep|..], sep);
      }
    } else {
      LastSegmentEmpty(s[1..], sep);
    }
  }

  /** Occurrence is transitive: an occurrence of `a` carries the occurrences inside `a`. */
  lemma ContainsTransitive(s: string, a: string, b: string)
    requires Contains(s, a) && Contains(a, b)
    ensures Contains(s, b)
  {
    var i := ContainsWitness(s, a);
    var j := ContainsWitness(a, b);
    assert forall k | 0 <= k < |b| :: s[i + j + k] == a[j + k] == b[k];
    assert b <= s[i + j..];
    ContainsAt(s, b, i + j);
  }

  /** Every occurrence of the character `c` replaced by `rep` (`s.replace(/c/g, rep)`). */
  function ReplaceAll(s: string, c: char, rep: string): (r: string)
    ensures c !in rep ==> c !in r
    ensures c !in s ==> r == s
    ensures forall x | x in r :: x in s || x in rep
    ensures |rep| >= 1 ==> |r| >= |s|
    decreases |s|
  {
    if s == [] then []
    else ReplaceAll(s[..|s| - 1], c, rep) + (if s[|s| - 1] == c then rep else [s[|s| - 1]])
  }

  /** What one character becomes under `ReplaceAll`. */
  function Piece(x: char, c: char, rep: string): string
  {
    if x == c then rep else [x]
  }

  lemma ReplaceAllSnoc(s: string, x: char, c: char, rep: string)
    ensures ReplaceAll(s + [x], c, rep) == ReplaceAll(s, c, rep) + Piece(x, c, rep)
  {
    assert (s + [x])[..|s|] == s;
  }

  lemma {:induction false} ReplaceAllAppend(a: string, b: string, c: char, rep: string)
    ensures ReplaceAll(a + b, c, rep) == ReplaceAll(a, c, rep) + ReplaceAll(b, c, rep)
    decreases |b|
  {
    if b == [] {
      assert a + b == a;
    } else {
      var b', x := b[..|b| - 1], b[|b| - 1];
      ReplaceAllAppend(a, b', c, rep);
      assert ReplaceAll(a + b, c, rep) == ReplaceAll(a + b', c, rep) + Piece(x, c, rep) by {
        assert (a + b)[..|a + b| - 1] == a + b';
        assert (a + b)[|a + b| - 1] == x;
      }
      assert ReplaceAll(b, c, rep) == ReplaceAll(b', c, rep) + Piece(x, c, rep);
      AppendAssoc(ReplaceAll(a, c, rep), ReplaceAll(b', c, rep), Piece(x, c, rep));
    }
  }

  lemma AppendAssoc<T>(x: seq<T>, y: seq<T>, z: seq<T>)
    ensures (x + y) + z == x + (y + z)
  {
  }

  /** Two pieces without `c` joined by one `c` are joined by `rep` instead. */
  lemma ReplaceAllJoin(a: string, b: string, c: char, rep: string)
    requires c !in a && c !in b
    ensures ReplaceAll(a + ([c] + b), c, rep) == a + (rep + b)
  {
    ReplaceAllAppend(a, [c] + b, c, rep);
    ReplaceAllAppend([c], b, c, rep);
    assert ReplaceAll([c], c, rep) == rep;
  }

  /** How the result of `ReplaceAll` ends. */
  lemma ReplaceAllEnd(s: string, c: char, rep: string)
    ensures s != [] && rep != [] ==>
      var r := ReplaceAll(s, c, rep);
      r != [] && r[|r| - 1] == (if s[|s| - 1] == c then rep[|rep| - 1] else s[|s| - 1])
    ensures s != [] ==> s[|s| - 1] in s
  {
  }

  /**
   * Replacing `c` by a two-character marker built from a character `m` that does
   * not occur in the inputs loses no information.
   */
  lemma {:induction false} ReplaceAllInjective(a: string, b: string, c: char, m: char)
    requires c != m && m !in a && m !in b
    requires ReplaceAll(a, c, [m, m]) == ReplaceAll(b, c, [m, m])
    ensures a == b
    decreases |a| + |b|
  {
    if a != [] && b != [] {
      var a', x := a[..|a| - 1], a[|a| - 1];
      var b', y := b[..|b| - 1], b[|b| - 1];
      ReplaceAllEnd(a, c, [m, m]);
      ReplaceAllEnd(b, c, [m, m]);
      assert x != m && y != m;
      assert (x == c) == (y == c);
      assert a == a' + [x] && b == b' + [y];
      ReplaceAllSnoc(a', x, c, [m, m]);
      ReplaceAllSnoc(b', y, c, [m, m]);
      AppendCancel(ReplaceAll(a', c, [m, m]), ReplaceAll(b', c, [m, m]), Piece(x, c, [m, m]), Piece(y, c, [m, m]));
      ReplaceAllInjective(a', b', c, m);
    }
  }

  /** Equal concatenations with equally long tails have equal heads and tails. */
  lemma AppendCancel(p: string, q: string, t: string, u: string)
    requires p + t == q + u && |t| == |u|
    ensures p == q && t == u
  {
    assert p == (p + t)[..|p|];
    assert q == (q + u)[..|q|];
    assert t == (p + t)[|p|..];
    assert u == (q + u)[|q|..];
  }


  /** JavaScript `String.prototype.trim` removes WhiteSpace and LineTerminator characters. */
  const JsWhitespace: set<char> :=
    {'\U{9}', '\U{A}', '\U{B}', '\U{C}', '\U{D}', '\U{20}', '\U{A0}', '\U{1680}',
     '\U{2000}', '\U{2001}', '\U{2002}', '\U{2003}', '\U{2004}', '\U{2005}', '\U{2006}', '\U{2007}',
     '\U{2008}', '\U{2009}', '\U{200A}', '\U{2028}', '\U{2029}', '\U{202F}', '\U{205F}', '\U{3000}',
     '\U{FEFF}'}

  /** Python `str.strip()` removes the characters for which `str.isspace()` holds. */
  const PyWhitespace: set<char> :=
    {'\U{9}', '\U{A}', '\U{B}', '\U{C}', '\U{D}', '\U{1C}', '\U{1D}', '\U{1E}',
     '\U{1F}', '\U{20}', '\U{85}', '\U{A0}', '\U{1680}', '\U{2000}', '\U{2001}', '\U{2002}',
     '\U{2003}', '\U{2004}', '\U{2005}', '\U{2006}', '\U{2007}', '\U{2008}', '\U{2009}', '\U{200A}',
     '\U{2028}', '\U{2029}', '\U{202F}', '\U{205F}', '\U{3000}'}

  /** Number of leading characters of `s` that are in `ws`. */
  function LeadingSpace(s: string, ws: set<char>): (n: nat)
    ensures n <= |s|
    ensures forall k | 0 <= k < n :: s[k] in ws
    ensures n < |s| ==> s[n] !in ws
    decreases |s|
  {
    if s == [] || s[0] !in ws then 0 else 1 + LeadingSpace(s[1..], ws)
  }

  /** Index just after the last character of `s` that is not in `ws` (0 when there is none). */
  function ContentEnd(s: string, ws: set<char>): (e: nat)
    ensures e <= |s|
    ensures forall k | e <= k < |s| :: s[k] in ws
    ensures e > 0 ==> s[e - 1] !in ws
    decreases |s|
  {
    if s == [] || s[|s| - 1] !in ws then |s| else ContentEnd(s[..|s| - 1], ws)
  }

  /** `s` without its leading and trailing characters from `ws`. */
  function Trim(s: string, ws: set<char>): (r: string)
    ensures |r| <= |s|
  {
    var i := LeadingSpace(s, ws);
    if i == |s| then [] else s[i..ContentEnd(s, ws)]
  }

  /** A trimmed string is a contiguous piece of the original. */
  lemma TrimIsInfix(s: string, ws: set<char>)
    ensures Contains(s, Trim(s, ws))
  {
    var i := LeadingSpace(s, ws);
    if i == |s| {
      assert Trim(s, ws) <= s;
    } else {
      var e := ContentEnd(s, ws);
      assert Trim(s, ws) <= s[i..];
      ContainsAt(s, Trim(s, ws), i);
    }
  }

  /** Trimming keeps everything from the first to the last character outside `ws`. */
  lemma TrimKeeps(s: string, ws: set<char>, k: nat)
    requires |s| > 0 && s[0] !in ws && k < |s| && s[k] !in ws
    ensures |Trim(s, ws)| >= k + 1
  {
    assert LeadingSpace(s, ws) == 0;
  }

  /** `s.split('\n')`: the pieces between newlines, always at least one. */
  function Lines(s: string): (r: seq<string>)
    ensures |r| >= 1
    ensures forall i | 0 <= i < |r| :: '\n' !in r[i]
    decreases |s|
  {
    if s == [] then [[]]
    else
      var rest := Lines(s[1..]);
      if s[0] == '\n' then [[]] + rest else [[s[0]] + rest[0]] + rest[1..]
  }

  /** `lines.join('\n')`. */
  function JoinLines(lines: seq<string>): string
  {
    if |lines| <= 1 then (if lines == [] then [] else lines[0])
    else lines[0] + "\n" + JoinLines(lines[1..])
  }

  /** Splitting on newlines and joining again gives back the text. */
  lemma {:induction false} JoinSplitLines(s: string)
    ensures JoinLines(Lines(s)) == s
    decreases |s|
  {
    if s != [] {
      var rest := Lines(s[1..]);
      JoinSplitLines(s[1..]);
      if s[0] == '\n' {
        assert Lines(s) == [[]] + rest;
        assert ([[]] + rest)[1..] == rest;
      } else {
        var l := [[s[0]] + rest[0]] + rest[1..];
        assert Lines(s) == l;
        if |rest| == 1 {
          assert JoinLines(l) == [s[0]] + rest[0];
        } else {
          assert l[1..] == rest[1..];
          assert JoinLines(rest) == rest[0] + "\n" + JoinLines(rest[1..]);
        }
      }
    }
  }

  /** Lexicographic order on strings by character code (`a < b`). */
  predicate Below(a: string, b: string)
    decreases |a|
  {
    if a == [] then b != []
    else if b == [] then false
    else if a[0] == b[0] then Below(a[1..], b[1..])
    else a[0] < b[0]
  }

  lemma {:induction false} BelowIrreflexive(a: string)
    ensures !Below(a, a)
    decreases |a|
  {
    if a != [] { BelowIrreflexive(a[1..]); }
  }

  lemma {:induction false} BelowTransitive(a: string, b: string, c: string)
    requires Below(a, b) && Below(b, c)
    ensures Below(a, c)
    decreases |a|
  {
    if a != [] && b != [] && c != [] && a[0] == b[0] && b[0] == c[0] {
      BelowTransitive(a[1..], b[1..], c[1..]);
    }
  }

  lemma {:induction false} BelowTotal(a: string, b: string)
    requires a != b
    ensures Below(a, b) || Below(b, a)
    decreases |a|
  {
    if a != [] && b != [] && a[0] == b[0] {
      assert a == [a[0]] + a[1..] && b == [b[0]] + b[1..];
      BelowTotal(a[1..], b[1..]);
    }
  }

  /** Strictly increasing, hence sorted and free of duplicates. */
  predicate StrictlySorted(xs: seq<string>)
  {
    forall i, j | 0 <= i < j < |xs| :: Below(xs[i], xs[j])
  }

  lemma StrictlySortedDistinct(xs: seq<string>)
    requires StrictlySorted(xs)
    ensures forall i, j | 0 <= i < j < |xs| :: xs[i] != xs[j]
  {
    forall i, j | 0 <= i < j < |xs| ensures xs[i] != xs[j] {
      BelowIrreflexive(xs[i]);
    }
  }

  /** Inserts `x` into a strictly sorted list unless it is already there. */
  function InsertSorted(x: string, xs: seq<string>): (r: seq<string>)
    requires StrictlySorted(xs)
    ensures StrictlySorted(r)
    ensures forall y :: y in r <==> y == x || y in xs
    decreases |xs|
  {
    if xs == [] then [x]
    else if x == xs[0] then xs
    else if Below(x, xs[0]) then
      assert forall j | 0 <= j < |xs| :: Below(x, xs[j]) by {
        forall j | 0 <= j < |xs| ensures Below(x, xs[j]) {
          if j > 0 { BelowTransitive(x, xs[0], xs[j]); }
        }
      }
      [x] + xs
    else
      BelowTotal(x, xs[0]);
      var rest := InsertSorted(x, xs[1..]);
      assert forall y | y in rest :: Below(xs[0], y) by {
        forall y | y in rest ensures Below(xs[0], y) {
          if y != x {
            var j :| 0 <= j < |xs[1..]| && xs[1..][j] == y;
            assert xs[j + 1] == y;
          }
        }
      }
      [xs[0]] + rest
  }

  /** `[...new Set(xs)].sort()` and Python `sorted(set(xs))`. */
  function SortedUnique(xs: seq<string>): (r: seq<string>)
    ensures StrictlySorted(r)
    ensures forall y :: y in r <==> y in xs
    decreases |xs|
  {
    if xs == [] then [] else InsertSorted(xs[|xs| - 1], SortedUnique(xs[..|xs| - 1]))
  }
}
