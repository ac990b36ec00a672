/** Splitting a document into paragraphs with the pattern `\n\s*\n`, as
    `normalizeText(doc.content).split(/\n\s*\n/)` does (api/generate.js:151). */
module Paragraphs {
  import opened Wrappers
  import opened Text

  predicate SpaceBetween(s: string, lo: nat, hi: nat)
    requires lo <= hi <= |s|
  {
    forall k :: lo <= k < hi ==> IsSpace(s[k])
  }

  /** A text the pattern matches as a whole: LF, white space, LF. */
  predicate IsSeparator(sep: string) {
    |sep| >= 2 && sep[0] == '\n' && sep[|sep| - 1] == '\n' && AllSpace(sep)
  }

  /** Two line feeds with only white space between them. */
  ghost predicate HasBlankLine(p: string) {
    exists i, j :: 0 <= i < j < |p| && p[i] == '\n' && p[j] == '\n' && SpaceBetween(p, i + 1, j)
  }

  /** Where the greedy `\s*\n` that starts at `p` ends: the position of the
      last LF of the white-space run that starts at `p`, or -1 when that run
      holds no LF (the backtracking of `\s*` finds exactly this LF). */
  function LastNewline(s: string, p: nat): (r: int)
    requires p <= |s|
    ensures r == -1 || (p <= r < |s| && s[r] == '\n' && SpaceBetween(s, p, r))
    ensures forall q :: p <= q < |s| && s[q] == '\n' && SpaceBetween(s, p, q) ==> p <= q <= r
    decreases |s| - p
  {
    if p == |s| || !IsSpace(s[p]) then -1
    else
      var rest := LastNewline(s, p + 1);
      if rest >= 0 then rest else if s[p] == '\n' then p else -1
  }

  /** The pattern matches at position `k`. */
  predicate StartsSeparator(s: string, k: nat)
    requires k < |s|
  {
    s[k] == '\n' && LastNewline(s, k + 1) >= 0
  }

  /** The leftmost match at or after `i`, as (start, end). */
  function FindSeparator(s: string, i: nat): (r: Option<(nat, nat)>)
    requires i <= |s|
    ensures r.Some? ==> i <= r.value.0 && r.value.0 + 2 <= r.value.1 <= |s|
    ensures r.Some? ==> IsSeparator(s[r.value.0..r.value.1])
    ensures r.Some? ==> forall k :: i <= k < r.value.0 ==> !StartsSeparator(s, k)
    ensures r.None? ==> forall k :: i <= k < |s| ==> !StartsSeparator(s, k)
    decreases |s| - i
  {
    if i == |s| then None
    else if StartsSeparator(s, i) then
      var e := LastNewline(s, i + 1) + 1;
      assert forall k :: 0 <= k < e - i ==> s[i..e][k] == s[i + k];
      Some((i, e))
    else FindSeparator(s, i + 1)
  }

  /** The match found ends where the greedy `\s*\n` ends: at the last LF of
      the white-space run after its first LF. */
  lemma {:induction false} FindSeparatorEnd(s: string, i: nat)
    requires i <= |s|
    ensures var r := FindSeparator(s, i);
      r.Some? ==> r.value.0 + 1 <= |s| && r.value.1 == LastNewline(s, r.value.0 + 1) + 1
    decreases |s| - i
  {
    if i < |s| && !StartsSeparator(s, i) {
      FindSeparatorEnd(s, i + 1);
    }
  }

  /** `split(/\n\s*\n/)`: the texts between the leftmost matches. */
  function Split(s: string): (ps: seq<string>)
    ensures |ps| >= 1
    decreases |s|
  {
    match FindSeparator(s, 0)
    case None => [s]
    case Some((a, b)) => [s[..a]] + Split(s[b..])
  }

  /** The matched separators, in order. */
  function Separators(s: string): (ss: seq<string>)
    decreases |s|
  {
    match FindSeparator(s, 0)
    case None => []
    case Some((a, b)) => [s[a..b]] + Separators(s[b..])
  }

  /** ps[0] + ss[0] + ps[1] + ... + ps[n]. */
  function Interleave(ps: seq<string>, ss: seq<string>): string
    requires |ps| == |ss| + 1
    decreases |ss|
  {
    if ss == [] then ps[0] else ps[0] + ss[0] + Interleave(ps[1..], ss[1..])
  }

  /** The paragraphs and the separators between them put back together
      give the text, and every separator is LF, white space, LF. */
  lemma {:induction false} SplitRoundTrip(s: string)
    ensures |Split(s)| == |Separators(s)| + 1
    ensures Interleave(Split(s), Separators(s)) == s
    ensures forall i :: 0 <= i < |Separators(s)| ==> IsSeparator(Separators(s)[i])
    decreases |s|
  {
    match FindSeparator(s, 0)
    case None =>
    case Some((a, b)) =>
      SplitRoundTrip(s[b..]);
      assert Split(s)[1..] == Split(s[b..]);
      assert Separators(s)[1..] == Separators(s[b..]);
      assert s == s[..a] + s[a..b] + s[b..];
  }

  lemma NoBlankLineBefore(s: string, a: nat)
    requires a <= |s|
    requires forall k :: 0 <= k < a ==> !StartsSeparator(s, k)
    ensures !HasBlankLine(s[..a])
  {
    forall i, j | 0 <= i < j < a
      ensures !(s[..a][i] == '\n' && s[..a][j] == '\n' && SpaceBetween(s[..a], i + 1, j))
    {
      assert SpaceBetween(s[..a], i + 1, j) ==> SpaceBetween(s, i + 1, j);
      assert !StartsSeparator(s, i);
      if s[i] == '\n' {
        assert LastNewline(s, i + 1) < 0;
        assert !(s[j] == '\n' && SpaceBetween(s, i + 1, j));
      }
    }
  }

  /** No paragraph holds a blank line: the split finds every separator. */
  lemma {:induction false} SplitNoBlankLine(s: string)
    ensures forall i :: 0 <= i < |Split(s)| ==> !HasBlankLine(Split(s)[i])
    decreases |s|
  {
    match FindSeparator(s, 0)
    case None =>
      NoBlankLineBefore(s, |s|);
      assert s[..|s|] == s;
    case Some((a, b)) =>
      NoBlankLineBefore(s, a);
      SplitNoBlankLine(s[b..]);
      assert Split(s) == [s[..a]] + Split(s[b..]);
  }
}
