/**
 * String helpers shared by the C# library and its JavaScript port:
 * prefix tests, substring search, the two flavours of `Replace`,
 * the .NET null/empty/white-space tests and an ordinal string order.
 */
module Text {
  import opened Wrappers

  /** An octet. */
  type Byte = b: int | 0 <= b < 256

  predicate StartsWith(s: string, prefix: string) {
    |prefix| <= |s| && s[..|prefix|] == prefix
  }

  /** `pat` occurs in `s` starting at index `i`. */
  predicate OccursAt(s: string, pat: string, i: int) {
    0 <= i && i + |pat| <= |s| && s[i..i + |pat|] == pat
  }

  predicate Contains(s: string, pat: string) {
    exists i :: 0 <= i <= |s| && OccursAt(s, pat, i)
  }

  /** The first index at or after `from` where `pat` occurs. */
  function IndexOfFrom(s: string, pat: string, from: nat): (r: Option<nat>)
    decreases |s| - from
    ensures r.Some? ==> from <= r.value && OccursAt(s, pat, r.value)
    ensures r.Some? ==> forall j :: from <= j < r.value ==> !OccursAt(s, pat, j)
    ensures r.None? ==> forall j :: from <= j ==> !OccursAt(s, pat, j)
  {
    if from + |pat| > |s| then None
    else if s[from..from + |pat|] == pat then Some(from)
    else IndexOfFrom(s, pat, from + 1)
  }

  /** The first occurrence of `pat` in `s` (`String.prototype.indexOf`, `None` for -1). */
  function IndexOf(s: string, pat: string): (r: Option<nat>)
    ensures r.Some? ==> OccursAt(s, pat, r.value) && forall j :: 0 <= j < r.value ==> !OccursAt(s, pat, j)
    ensures r.None? <==> !Contains(s, pat)
  {
    IndexOfFrom(s, pat, 0)
  }

  /**
   * JavaScript's `s.replace(pat, rep)` with a string pattern: only the
   * first occurrence is replaced.
   */
  function ReplaceFirst(s: string, pat: string, rep: string): (r: string)
    ensures !Contains(s, pat) ==> r == s
    ensures Contains(s, pat) ==>
      exists i :: OccursAt(s, pat, i) && (forall j :: 0 <= j < i ==> !OccursAt(s, pat, j)) &&
        r == s[..i] + rep + s[i + |pat|..]
  {
    match IndexOf(s, pat)
    case None => s
    case Some(i) => s[..i] + rep + s[i + |pat|..]
  }

  /**
   * .NET's `s.Replace(pat, rep)`: every non-overlapping occurrence, found
   * left to right, is replaced. .NET rejects an empty `pat`; the callers
   * here always pass a braced token.
   */
  function ReplaceAll(s: string, pat: string, rep: string): (r: string)
    requires |pat| > 0
    decreases |s|
  {
    match IndexOf(s, pat)
    case None => s
    case Some(i) => s[..i] + rep + ReplaceAll(s[i + |pat|..], pat, rep)
  }

  /** The strings joined by a separator, with none before the first or after the last. */
  function Join(xs: seq<string>, sep: string): string
    decreases |xs|
  {
    if xs == [] then ""
    else if |xs| == 1 then xs[0]
    else xs[0] + sep + Join(xs[1..], sep)
  }

  lemma {:induction false} JoinSnoc(xs: seq<string>, x: string, sep: string)
    ensures Join(xs + [x], sep) == if xs == [] then x else Join(xs, sep) + sep + x
    decreases |xs|
  {
    if |xs| == 1 {
      assert (xs + [x])[1..] == [x];
    } else if |xs| > 1 {
      assert (xs + [x])[1..] == xs[1..] + [x];
      JoinSnoc(xs[1..], x, sep);
    }
  }

  /**
   * The text around the occurrences of `pat` that `Replace` finds, left to
   * right and without overlap: the part before the first occurrence, then
   * the pieces of what follows it.
   */
  function Pieces(s: string, pat: string): (ps: seq<string>)
    requires |pat| > 0
    ensures |ps| > 0
    ensures |ps| == 1 <==> !Contains(s, pat)
    ensures |ps| > 1 ==> IndexOf(s, pat) == Some(|ps[0]|)
    decreases |s|
  {
    match IndexOf(s, pat)
    case None => [s]
    case Some(i) => [s[..i]] + Pieces(s[i + |pat|..], pat)
  }

  /**
   * The scan goes on after the first occurrence: the later pieces are the
   * pieces of the text after it, so each later occurrence is the first one
   * after the previous occurrence ends.
   */
  lemma PiecesContinue(s: string, pat: string)
    requires |pat| > 0 && |Pieces(s, pat)| > 1
    ensures |Pieces(s, pat)[0]| + |pat| <= |s|
    ensures Pieces(s, pat)[1..] == Pieces(s[|Pieces(s, pat)[0]| + |pat|..], pat)
  {
    var i := IndexOf(s, pat).value;
    assert Pieces(s, pat) == [s[..i]] + Pieces(s[i + |pat|..], pat);
  }

  /** Putting the pattern back between the pieces gives the original text. */
  lemma {:induction false} PiecesJoin(s: string, pat: string)
    requires |pat| > 0
    ensures Join(Pieces(s, pat), pat) == s
    decreases |s|
  {
    match IndexOf(s, pat)
    case None =>
    case Some(i) =>
      var rest := s[i + |pat|..];
      PiecesJoin(rest, pat);
      var ps := Pieces(s, pat);
      assert ps == [s[..i]] + Pieces(rest, pat);
      assert ps[1..] == Pieces(rest, pat);
      assert Join(ps, pat) == s[..i] + pat + rest;
      assert s[..i] + pat + rest == s by {
        assert s[i..i + |pat|] == pat;
      }
  }

  /** No piece contains the pattern. */
  lemma {:induction false} PiecesFree(s: string, pat: string)
    requires |pat| > 0
    ensures forall k :: 0 <= k < |Pieces(s, pat)| ==> !Contains(Pieces(s, pat)[k], pat)
    decreases |s|
  {
    match IndexOf(s, pat)
    case None =>
    case Some(i) =>
      var rest := s[i + |pat|..];
      PiecesFree(rest, pat);
      BeforeFirstIsFree(s, pat, i);
      var ps := Pieces(s, pat);
      assert ps == [s[..i]] + Pieces(rest, pat);
      forall k | 0 <= k < |ps|
        ensures !Contains(ps[k], pat)
      {
        if k > 0 {
          assert ps[k] == Pieces(rest, pat)[k - 1];
        }
      }
  }

  /** The text before the first occurrence does not contain the pattern. */
  lemma BeforeFirstIsFree(s: string, pat: string, i: nat)
    requires |pat| > 0 && IndexOf(s, pat) == Some(i)
    ensures !Contains(s[..i], pat)
  {
    forall j | 0 <= j <= i
      ensures !OccursAt(s[..i], pat, j)
    {
      if j + |pat| <= i {
        assert s[..i][j..j + |pat|] == s[j..j + |pat|];
        assert !OccursAt(s, pat, j);
      }
    }
  }

  /** `Replace` puts `rep` in every place the pattern was: the pieces joined by `rep`. */
  lemma {:induction false} ReplaceAllPieces(s: string, pat: string, rep: string)
    requires |pat| > 0
    ensures ReplaceAll(s, pat, rep) == Join(Pieces(s, pat), rep)
    decreases |s|
  {
    match IndexOf(s, pat)
    case None =>
    case Some(i) =>
      var rest := s[i + |pat|..];
      ReplaceAllPieces(rest, pat, rep);
      var ps := Pieces(s, pat);
      assert ps == [s[..i]] + Pieces(rest, pat);
      assert ps[1..] == Pieces(rest, pat);
  }

  /** Replacing a pattern by itself changes nothing. */
  lemma {:induction false} ReplaceAllBySelf(s: string, pat: string)
    requires |pat| > 0
    ensures ReplaceAll(s, pat, pat) == s
    decreases |s|
  {
    match IndexOf(s, pat)
    case None =>
    case Some(i) =>
      ReplaceAllBySelf(s[i + |pat|..], pat);
      assert s[..i] + pat + s[i + |pat|..] == s;
  }

  /** Text without the pattern passes through `Replace` unchanged. */
  lemma ReplaceAllAbsent(s: string, pat: string, rep: string)
    requires |pat| > 0 && !Contains(s, pat)
    ensures ReplaceAll(s, pat, rep) == s
  {
  }

  /**
   * Where the pattern occurs only once, the JavaScript and the .NET
   * replacement agree.
   */
  lemma ReplaceFirstIsReplaceAllWhenUnique(s: string, pat: string, rep: string, i: nat)
    requires |pat| > 0 && OccursAt(s, pat, i)
    requires forall j :: 0 <= j && j != i ==> !OccursAt(s, pat, j)
    ensures ReplaceFirst(s, pat, rep) == ReplaceAll(s, pat, rep) == s[..i] + rep + s[i + |pat|..]
  {
    IndexOfUnique(s, pat, i);
    assert ReplaceFirst(s, pat, rep) == s[..i] + rep + s[i + |pat|..];
    NothingAfterUnique(s, pat, i);
    ReplaceAllLastOccurrence(s, pat, rep, i);
  }

  lemma IndexOfUnique(s: string, pat: string, i: nat)
    requires OccursAt(s, pat, i)
    requires forall j :: 0 <= j && j != i ==> !OccursAt(s, pat, j)
    ensures IndexOf(s, pat) == Some(i)
  {
  }

  lemma ReplaceAllLastOccurrence(s: string, pat: string, rep: string, i: nat)
    requires |pat| > 0 && IndexOf(s, pat) == Some(i) && !Contains(s[i + |pat|..], pat)
    ensures ReplaceAll(s, pat, rep) == s[..i] + rep + s[i + |pat|..]
  {
  }

  lemma NothingAfterUnique(s: string, pat: string, i: nat)
    requires |pat| > 0 && OccursAt(s, pat, i)
    requires forall j :: 0 <= j && j != i ==> !OccursAt(s, pat, j)
    ensures !Contains(s[i + |pat|..], pat)
  {
    var t := s[i + |pat|..];
    forall j | 0 <= j <= |t|
      ensures !OccursAt(t, pat, j)
    {
      OccursAtShift(s, pat, i + |pat|, j);
    }
  }

  /** An occurrence in a suffix is an occurrence in the whole string, shifted. */
  lemma OccursAtShift(s: string, pat: string, k: nat, j: int)
    requires k <= |s|
    ensures OccursAt(s[k..], pat, j) ==> OccursAt(s, pat, k + j)
  {
    if OccursAt(s[k..], pat, j) {
      assert s[k + j..k + j + |pat|] == s[k..][j..j + |pat|];
    }
  }

  /** `string.IsNullOrEmpty`. */
  predicate IsNullOrEmpty(s: Option<string>) {
    s.None? || s.value == ""
  }

  /** `char.IsWhiteSpace`: the Unicode space separators plus the listed controls. */
  predicate IsWhiteSpace(c: char) {
    c == ' ' || ('\t' <= c <= '\r') || c == '\U{85}' || c == '\U{A0}' || c == '\U{1680}' ||
    ('\U{2000}' <= c <= '\U{200A}') || c == '\U{2028}' || c == '\U{2029}' || c == '\U{202F}' ||
    c == '\U{205F}' || c == '\U{3000}'
  }

  /** `string.IsNullOrWhiteSpace`. */
  predicate IsNullOrWhiteSpace(s: Option<string>) {
    s.None? || forall i :: 0 <= i < |s.value| ==> IsWhiteSpace(s.value[i])
  }

  /** Lower-casing of the ASCII letters; other characters are kept. */
  function AsciiLower(s: string): (r: string)
    ensures |r| == |s|
    ensures forall i :: 0 <= i < |s| ==> r[i] == if 'A' <= s[i] <= 'Z' then (s[i] as int + 32) as char else s[i]
  {
    seq(|s|, i requires 0 <= i < |s| => if 'A' <= s[i] <= 'Z' then (s[i] as int + 32) as char else s[i])
  }

  /** Case-insensitive ASCII equality, as `HttpMethod` compares method names. */
  predicate EqualsIgnoreCase(a: string, b: string) {
    AsciiLower(a) == AsciiLower(b)
  }

  /** Ordinal lexicographic order on strings. */
  predicate LessEq(a: string, b: string)
    decreases |a|
  {
    if a == [] then true
    else if b == [] then false
    else if a[0] != b[0] then a[0] < b[0]
    else LessEq(a[1..], b[1..])
  }

  lemma {:induction false} LessEqReflexive(a: string)
    ensures LessEq(a, a)
    decreases |a|
  {
    if a != [] { LessEqReflexive(a[1..]); }
  }

  lemma {:induction false} LessEqTotal(a: string, b: string)
    ensures LessEq(a, b) || LessEq(b, a)
    decreases |a|
  {
    if a != [] && b != [] && a[0] == b[0] { LessEqTotal(a[1..], b[1..]); }
  }

  lemma {:induction false} LessEqTransitive(a: string, b: string, c: string)
    requires LessEq(a, b) && LessEq(b, c)
    ensures LessEq(a, c)
    decreases |a|
  {
    if a != [] && b != [] && c != [] && a[0] == b[0] && b[0] == c[0] {
      LessEqTransitive(a[1..], b[1..], c[1..]);
    }
  }

  lemma {:induction false} LessEqAntisymmetric(a: string, b: string)
    requires LessEq(a, b) && LessEq(b, a)
    ensures a == b
    decreases |a|
  {
    if a != [] && b != [] {
      LessEqAntisymmetric(a[1..], b[1..]);
      assert a == [a[0]] + a[1..] && b == [b[0]] + b[1..];
    }
  }
}
