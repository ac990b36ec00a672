/** Text handling of the retrieval engine: white space, trimming, the
    normalisation applied to every loaded file and every query, joining, and
    the tokenizer that turns text into index terms (api/generate.js). */
module Text {

  /** A character that the pattern `\s` matches and `String.prototype.trim`
      removes: the ECMAScript WhiteSpace and LineTerminator code points. */
  predicate IsSpace(c: char) {
    || c == '\t' || c == '\n' || c == '\U{B}' || c == '\U{C}' || c == '\r' || c == ' '
    || c == '\U{A0}' || c == '\U{1680}' || ('\U{2000}' <= c <= '\U{200A}')
    || c == '\U{2028}' || c == '\U{2029}' || c == '\U{202F}' || c == '\U{205F}'
    || c == '\U{3000}' || c == '\U{FEFF}'
  }

  predicate AllSpace(s: string) {
    forall k :: 0 <= k < |s| ==> IsSpace(s[k])
  }

  predicate NoSpace(s: string) {
    forall k :: 0 <= k < |s| ==> !IsSpace(s[k])
  }

  /** Neither starts nor ends with white space. */
  predicate IsTrimmed(s: string) {
    s == [] || (!IsSpace(s[0]) && !IsSpace(s[|s| - 1]))
  }

  /** The number of white-space characters at the start of `s`. */
  function LeadingSpace(s: string): (n: nat)
    ensures n <= |s|
    ensures forall k :: 0 <= k < n ==> IsSpace(s[k])
    ensures n < |s| ==> !IsSpace(s[n])
    decreases |s|
  {
    if s == [] || !IsSpace(s[0]) then 0 else 1 + LeadingSpace(s[1..])
  }

  /** Where the white space at the end of `s` starts. */
  function TrailingStart(s: string): (m: nat)
    ensures m <= |s|
    ensures forall k :: m <= k < |s| ==> IsSpace(s[k])
    ensures m > 0 ==> !IsSpace(s[m - 1])
    decreases |s|
  {
    if s == [] || !IsSpace(s[|s| - 1]) then |s| else TrailingStart(s[..|s| - 1])
  }

  /** `String.prototype.trim`: the trimmed strings are exactly its fixed
      points, and it yields "" exactly on blank input. */
  function Trim(s: string): (r: string)
    ensures |r| <= |s| && IsTrimmed(r)
    ensures IsTrimmed(s) ==> r == s
    ensures r == [] <==> AllSpace(s)
  {
    var n := LeadingSpace(s);
    if n == |s| then [] else s[n..TrailingStart(s)]
  }

  /** What `trim` keeps: the slice from the first to the last character
      that is not white space; everything outside it is white space. */
  lemma TrimBounds(s: string)
    requires !AllSpace(s)
    ensures var i, j := LeadingSpace(s), TrailingStart(s);
      && i < j && Trim(s) == s[i..j]
      && !IsSpace(s[i]) && !IsSpace(s[j - 1])
      && (forall k :: 0 <= k < |s| && (k < i || j <= k) ==> IsSpace(s[k]))
  {
  }

  /** `replace(/\r\n/g, "\n")`: each CR LF pair, scanned from the left,
      becomes a single LF. */
  function ReplaceCrLf(s: string): (r: string)
    ensures |r| <= |s|
    decreases |s|
  {
    if |s| >= 2 && s[0] == '\r' && s[1] == '\n' then ['\n'] + ReplaceCrLf(s[2..])
    else if s == [] then []
    else [s[0]] + ReplaceCrLf(s[1..])
  }

  /** `replace(/\u00a0/g, " ")`: each no-break space becomes a space. */
  function ReplaceNbsp(s: string): (r: string)
    ensures |r| == |s| && '\U{A0}' !in r
    ensures forall k :: 0 <= k < |s| && s[k] == '\U{A0}' ==> r[k] == ' '
    ensures forall k :: 0 <= k < |s| && s[k] != '\U{A0}' ==> r[k] == s[k]
  {
    seq(|s|, k requires 0 <= k < |s| => if s[k] == '\U{A0}' then ' ' else s[k])
  }

  /** `normalizeText` (api/generate.js:57-62) on a string argument. */
  function NormalizeText(s: string): (r: string)
    ensures |r| <= |s| && IsTrimmed(r) && '\U{A0}' !in r
    ensures '\r' !in s && '\U{A0}' !in s ==> r == Trim(s)
  {
    var lines := ReplaceCrLf(s);
    var spaced := ReplaceNbsp(lines);
    ReplaceCrLfIdentity(s);
    ReplaceNbspIdentity(s);
    Trim(spaced)
  }

  /** A text without CR is left as it is. */
  lemma {:induction false} ReplaceCrLfIdentity(s: string)
    ensures '\r' !in s ==> ReplaceCrLf(s) == s
    decreases |s|
  {
    if '\r' !in s && s != [] {
      assert '\r' !in s[1..];
      ReplaceCrLfIdentity(s[1..]);
      assert s == [s[0]] + s[1..];
    }
  }

  lemma ReplaceNbspIdentity(s: string)
    ensures '\U{A0}' !in s ==> ReplaceNbsp(s) == s
  {
    if '\U{A0}' !in s {
      assert forall k :: 0 <= k < |s| ==> ReplaceNbsp(s)[k] == s[k];
    }
  }

  /** Replacing line endings works piece by piece, as long as the cut does
      not separate a CR from the LF that follows it. */
  lemma {:induction false} ReplaceCrLfConcat(a: string, b: string)
    requires !(a != [] && a[|a| - 1] == '\r' && b != [] && b[0] == '\n')
    ensures ReplaceCrLf(a + b) == ReplaceCrLf(a) + ReplaceCrLf(b)
    decreases |a|
  {
    if a == [] {
      assert a + b == b;
    } else if |a| >= 2 && a[0] == '\r' && a[1] == '\n' {
      ReplaceCrLfConcat(a[2..], b);
      ConcatPairStep(a, b);
    } else {
      ReplaceCrLfConcat(a[1..], b);
      ConcatOtherStep(a, b);
    }
  }

  lemma ConcatPairStep(a: string, b: string)
    requires |a| >= 2 && a[0] == '\r' && a[1] == '\n'
    requires ReplaceCrLf(a[2..] + b) == ReplaceCrLf(a[2..]) + ReplaceCrLf(b)
    ensures ReplaceCrLf(a + b) == ReplaceCrLf(a) + ReplaceCrLf(b)
  {
    var ab := a + b;
    assert ab[0] == '\r' && ab[1] == '\n';
    DropConcat(a, b, 2);
    PairCons(ab);
    PairCons(a);
    PrefixStep(ReplaceCrLf(ab), ReplaceCrLf(a[2..] + b), ReplaceCrLf(a), ReplaceCrLf(a[2..]), ReplaceCrLf(b), ['\n']);
  }

  lemma ConcatOtherStep(a: string, b: string)
    requires a != [] && !(|a| >= 2 && a[0] == '\r' && a[1] == '\n')
    requires !(a[|a| - 1] == '\r' && b != [] && b[0] == '\n')
    requires ReplaceCrLf(a[1..] + b) == ReplaceCrLf(a[1..]) + ReplaceCrLf(b)
    ensures ReplaceCrLf(a + b) == ReplaceCrLf(a) + ReplaceCrLf(b)
  {
    var ab := a + b;
    assert ab[0] == a[0];
    if |a| >= 2 {
      assert ab[1] == a[1];
    } else if b != [] {
      assert ab[1] == b[0] && a[0] == a[|a| - 1];
    }
    DropConcat(a, b, 1);
    OtherCons(ab);
    OtherCons(a);
    PrefixStep(ReplaceCrLf(ab), ReplaceCrLf(a[1..] + b), ReplaceCrLf(a), ReplaceCrLf(a[1..]), ReplaceCrLf(b), [a[0]]);
  }

  /** A CR LF pair at the front becomes one LF. */
  lemma PairCons(t: string)
    requires |t| >= 2 && t[0] == '\r' && t[1] == '\n'
    ensures ReplaceCrLf(t) == ['\n'] + ReplaceCrLf(t[2..])
  {
  }

  /** A text that does not start with CR LF keeps its first character. */
  lemma OtherCons(t: string)
    requires t != [] && !(|t| >= 2 && t[0] == '\r' && t[1] == '\n')
    ensures ReplaceCrLf(t) == [t[0]] + ReplaceCrLf(t[1..])
  {
  }

  lemma DropConcat<T>(a: seq<T>, b: seq<T>, n: nat)
    requires n <= |a|
    ensures (a + b)[n..] == a[n..] + b
  {
  }

  /** Two sequences with the same head, whose tails differ by a suffix,
      differ by that suffix. */
  lemma PrefixStep<T>(whole: seq<T>, rest: seq<T>, part: seq<T>, partRest: seq<T>, other: seq<T>, h: seq<T>)
    requires whole == h + rest && part == h + partRest && rest == partRest + other
    ensures whole == part + other
  {
  }

  /** Every CR LF pair becomes a single LF, and the text around it is
      replaced on its own. */
  lemma ReplaceCrLfPair(a: string, b: string)
    ensures ReplaceCrLf(a + "\r\n" + b) == ReplaceCrLf(a) + "\n" + ReplaceCrLf(b)
  {
    var t := ['\r', '\n'] + b;
    assert t[0] == '\r' && t[1] == '\n' && t[2..] == b;
    assert ReplaceCrLf(t) == ['\n'] + ReplaceCrLf(b);
    ReplaceCrLfConcat(a, t);
    assert a + "\r\n" + b == a + t;
  }

  /** Any other single character is kept. */
  lemma ReplaceCrLfChar(c: char)
    ensures ReplaceCrLf([c]) == [c]
  {
  }

  /** `Array.prototype.join(sep)` on strings. */
  function Join(xs: seq<string>, sep: string): string
    decreases |xs|
  {
    if |xs| == 0 then "" else if |xs| == 1 then xs[0] else xs[0] + sep + Join(xs[1..], sep)
  }

  function TotalLength(xs: seq<string>): nat
    decreases |xs|
  {
    if xs == [] then 0 else |xs[0]| + TotalLength(xs[1..])
  }

  /** A joined string holds every part plus one separator between each pair. */
  lemma {:induction false} JoinLength(xs: seq<string>, sep: string)
    requires xs != []
    ensures |Join(xs, sep)| == TotalLength(xs) + |sep| * (|xs| - 1)
    decreases |xs|
  {
    if |xs| > 1 {
      JoinLength(xs[1..], sep);
      assert |sep| * (|xs| - 1) == |sep| + |sep| * (|xs[1..]| - 1);
    }
  }

  /** Joining non-empty parts ends with the last character of the last part. */
  lemma {:induction false} JoinLast(xs: seq<string>, sep: string)
    requires xs != [] && xs[|xs| - 1] != []
    ensures Join(xs, sep) != [] && Join(xs, sep)[|Join(xs, sep)| - 1] == xs[|xs| - 1][|xs[|xs| - 1]| - 1]
    decreases |xs|
  {
    if |xs| > 1 {
      JoinLast(xs[1..], sep);
    }
  }

  // ---------------------------------------------------------------------
  // Splitting on runs of white space

  /** Length of the leading run of non-white-space characters. */
  function RunLength(s: string): (n: nat)
    ensures n <= |s|
    ensures forall k :: 0 <= k < n ==> !IsSpace(s[k])
    ensures n < |s| ==> IsSpace(s[n])
  {
    if s == [] || IsSpace(s[0]) then 0 else 1 + RunLength(s[1..])
  }

  /** `split(/\s+/)` followed by `filter(Boolean)`: the maximal runs of
      non-white-space characters, left to right. */
  function Words(s: string): (ws: seq<string>)
    ensures forall i :: 0 <= i < |ws| ==> ws[i] != [] && NoSpace(ws[i])
    decreases |s|
  {
    if s == [] then []
    else if IsSpace(s[0]) then Words(s[1..])
    else [s[..RunLength(s)]] + Words(s[RunLength(s)..])
  }

  lemma {:induction false} RunLengthBeforeSpace(x: string, z: string)
    requires z == [] || IsSpace(z[0])
    ensures RunLength(x + z) == RunLength(x)
    decreases |x|
  {
    if x != [] && !IsSpace(x[0]) {
      assert (x + z)[1..] == x[1..] + z;
      RunLengthBeforeSpace(x[1..], z);
    }
  }

  /** A white-space character splits the words of a text in two. */
  lemma {:induction false} WordsSplit(x: string, c: char, y: string)
    requires IsSpace(c)
    ensures Words(x + [c] + y) == Words(x) + Words(y)
    decreases |x|
  {
    var s := x + [c] + y;
    if x == [] {
      assert s[1..] == y;
    } else if IsSpace(x[0]) {
      assert s[1..] == x[1..] + [c] + y;
      WordsSplit(x[1..], c, y);
    } else {
      var n := RunLength(x);
      RunLengthBeforeSpace(x, [c] + y);
      assert s == x + ([c] + y);
      assert s[..n] == x[..n];
      assert s[n..] == x[n..] + [c] + y;
      WordsSplit(x[n..], c, y);
    }
  }

  lemma {:induction false} WordsDropLeading(sp: string, z: string)
    requires AllSpace(sp)
    ensures Words(sp + z) == Words(z)
    decreases |sp|
  {
    if sp != [] {
      var s := sp + z;
      assert s[0] == sp[0] && IsSpace(s[0]);
      assert s[1..] == sp[1..] + z;
      WordsDropLeading(sp[1..], z);
    } else {
      assert sp + z == z;
    }
  }

  lemma WordsDropTrailing(z: string, sp: string)
    requires AllSpace(sp)
    ensures Words(z + sp) == Words(z)
  {
    if sp == [] {
      assert z + sp == z;
    } else {
      assert z + sp == z + [sp[0]] + sp[1..];
      WordsSplit(z, sp[0], sp[1..]);
      WordsDropLeading(sp[1..], []);
      assert sp[1..] + [] == sp[1..];
    }
  }

  /** A single word is its own split. */
  lemma WordsOfWord(w: string)
    requires w != [] && NoSpace(w)
    ensures Words(w) == [w]
  {
    assert RunLength(w) == |w|;
    assert w[..|w|] == w;
    assert w[|w|..] == [];
  }

  /** Splitting undoes joining with a space: the split is the inverse of
      `join(" ")` on words. */
  lemma {:induction false} WordsJoinRoundTrip(ws: seq<string>)
    requires forall i :: 0 <= i < |ws| ==> ws[i] != [] && NoSpace(ws[i])
    ensures Words(Join(ws, " ")) == ws
    decreases |ws|
  {
    if |ws| == 1 {
      WordsOfWord(ws[0]);
    } else if |ws| > 1 {
      WordsJoinRoundTrip(ws[1..]);
      WordsSplit(ws[0], ' ', Join(ws[1..], " "));
      WordsOfWord(ws[0]);
      assert ws == [ws[0]] + ws[1..];
    }
  }

  /** Which white-space character separates two words does not matter. */
  lemma {:induction false} WordsSpaceInsensitive(x: string, y: string)
    requires |x| == |y|
    requires forall k :: 0 <= k < |x| ==> x[k] == y[k] || (IsSpace(x[k]) && IsSpace(y[k]))
    ensures Words(x) == Words(y)
    decreases |x|
  {
    if x != [] {
      if IsSpace(x[0]) {
        WordsSpaceInsensitive(x[1..], y[1..]);
      } else {
        RunLengthSame(x, y);
        var n := RunLength(x);
        assert x[..n] == y[..n];
        WordsSpaceInsensitive(x[n..], y[n..]);
      }
    }
  }

  lemma {:induction false} RunLengthSame(x: string, y: string)
    requires |x| == |y|
    requires forall k :: 0 <= k < |x| ==> x[k] == y[k] || (IsSpace(x[k]) && IsSpace(y[k]))
    ensures RunLength(x) == RunLength(y)
    decreases |x|
  {
    if x != [] && !IsSpace(x[0]) {
      RunLengthSame(x[1..], y[1..]);
    }
  }

  // ---------------------------------------------------------------------
  // Tokenizer

  const StopWords: set<string> := {
    "a", "an", "and", "are", "as", "at", "be", "by", "for", "from", "has",
    "have", "how", "i", "in", "is", "it", "its", "of", "on", "or", "our",
    "that", "the", "their", "this", "to", "was", "we", "were", "what",
    "when", "where", "who", "why", "with", "you", "your"
  }

  /** Lower-casing of the ASCII letters only. */
  function ToLowerAscii(c: char): char {
    if 'A' <= c <= 'Z' then (c as int + 32) as char else c
  }

  /** `toLowerCase` as far as the tokenizer can tell: the ASCII letters and
      the Kelvin sign, whose lower case is the letter k. Other characters
      lower to characters outside `[a-z0-9-]`, which the cleaning step turns
      into spaces either way (U+0130 is the exception; see README). */
  function ToLowerChar(c: char): char {
    if c == '\U{212A}' then 'k' else ToLowerAscii(c)
  }

  /** The character class `[a-z0-9-]`. */
  predicate IsTermChar(c: char) {
    ('a' <= c <= 'z') || ('0' <= c <= '9') || c == '-'
  }

  /** Lower-case, then `replace(/[^a-z0-9\s-]/g, " ")`, one character. */
  function CleanChar(c: char): (r: char)
    ensures IsTermChar(r) || IsSpace(r)
    ensures IsSpace(c) ==> r == c
    ensures IsTermChar(c) ==> r == c
    ensures 'A' <= c <= 'Z' ==> r == (c as int + 32) as char && 'a' <= r <= 'z'
    ensures c == '\U{212A}' ==> r == 'k'
    ensures !IsSpace(c) && !IsTermChar(c) && !('A' <= c <= 'Z') && c != '\U{212A}' ==> r == ' '
  {
    var l := ToLowerChar(c);
    if IsTermChar(l) || IsSpace(l) then l else ' '
  }

  function Clean(s: string): (r: string)
    ensures |r| == |s|
  {
    seq(|s|, k requires 0 <= k < |s| => CleanChar(s[k]))
  }

  lemma CleanConcat(a: string, b: string)
    ensures Clean(a + b) == Clean(a) + Clean(b)
  {
    assert forall k :: 0 <= k < |a + b| ==> Clean(a + b)[k] == (Clean(a) + Clean(b))[k];
  }

  /** The last two `filter`s of `tokenize`: long enough, not a stop word. */
  predicate IsKept(w: string) {
    |w| >= 2 && w !in StopWords
  }

  /** A token as the tokenizer promises it: at least two characters from
      `[a-z0-9-]`, not a stop word. */
  predicate IsToken(t: string) {
    |t| >= 2 && t !in StopWords && forall k :: 0 <= k < |t| ==> IsTermChar(t[k])
  }

  /** The three `filter`s of `tokenize` on the split words (the `trim` of
      each word changes nothing: a word holds no white space). */
  function KeepTerms(ws: seq<string>): (ts: seq<string>)
    ensures forall i :: 0 <= i < |ts| ==> IsKept(ts[i]) && ts[i] in ws
    decreases |ws|
  {
    if ws == [] then []
    else (if IsKept(ws[0]) then [ws[0]] else []) + KeepTerms(ws[1..])
  }

  /** `tokenize` (api/generate.js:64-74). */
  function Tokenize(text: string): seq<string> {
    KeepTerms(Words(Clean(NormalizeText(text))))
  }

  lemma {:induction false} KeepTermsConcat(a: seq<string>, b: seq<string>)
    ensures KeepTerms(a + b) == KeepTerms(a) + KeepTerms(b)
    decreases |a|
  {
    if a == [] {
      assert a + b == b;
    } else {
      assert (a + b)[0] == a[0];
      assert (a + b)[1..] == a[1..] + b;
      KeepTermsConcat(a[1..], b);
    }
  }

  lemma {:induction false} WordsOfCleanAreTerms(s: string)
    requires forall k :: 0 <= k < |s| ==> IsTermChar(s[k]) || IsSpace(s[k])
    ensures forall i, k :: 0 <= i < |Words(s)| && 0 <= k < |Words(s)[i]| ==> IsTermChar(Words(s)[i][k])
    decreases |s|
  {
    if s != [] {
      if IsSpace(s[0]) {
        WordsOfCleanAreTerms(s[1..]);
      } else {
        var n := RunLength(s);
        WordsOfCleanAreTerms(s[n..]);
        assert Words(s) == [s[..n]] + Words(s[n..]);
      }
    }
  }

  /** Every token is an index term: long enough, from the term alphabet,
      and not a stop word. */
  lemma TokensAreTerms(text: string)
    ensures forall i :: 0 <= i < |Tokenize(text)| ==> IsToken(Tokenize(text)[i])
  {
    var ws := Words(Clean(NormalizeText(text)));
    WordsOfCleanAreTerms(Clean(NormalizeText(text)));
    KeptWordsAreTokens(ws);
  }

  lemma {:induction false} KeptWordsAreTokens(ws: seq<string>)
    requires forall i, k :: 0 <= i < |ws| && 0 <= k < |ws[i]| ==> IsTermChar(ws[i][k])
    ensures forall i :: 0 <= i < |KeepTerms(ws)| ==> IsToken(KeepTerms(ws)[i])
    decreases |ws|
  {
    if ws != [] {
      assert forall i, k :: 0 <= i < |ws[1..]| && 0 <= k < |ws[1..][i]| ==> IsTermChar(ws[1..][i][k]) by {
        forall i, k | 0 <= i < |ws[1..]| && 0 <= k < |ws[1..][i]| ensures IsTermChar(ws[1..][i][k]) {
          assert ws[1..][i] == ws[i + 1];
        }
      }
      KeptWordsAreTokens(ws[1..]);
    }
  }

  lemma CleanCons(c: char, s: string)
    ensures Clean([c] + s) == [CleanChar(c)] + Clean(s)
  {
    CleanConcat([c], s);
  }

  lemma {:induction false} WordsIgnoreCrLf(p: string, x: string)
    ensures Words(p + Clean(ReplaceCrLf(x))) == Words(p + Clean(x))
    decreases |x|
  {
    if |x| >= 2 && x[0] == '\r' && x[1] == '\n' {
      var rest := x[2..];
      assert ReplaceCrLf(x) == ['\n'] + ReplaceCrLf(rest);
      WordsIgnoreCrLf([], rest);
      assert [] + Clean(ReplaceCrLf(rest)) == Clean(ReplaceCrLf(rest));
      assert [] + Clean(rest) == Clean(rest);
      assert x == ['\r'] + (['\n'] + rest);
      CrLfStep(p, rest, ReplaceCrLf(rest));
    } else if x != [] {
      var rest := x[1..];
      assert ReplaceCrLf(x) == [x[0]] + ReplaceCrLf(rest);
      WordsIgnoreCrLf(p + [CleanChar(x[0])], rest);
      assert x == [x[0]] + rest;
      OtherStep(p, x[0], rest, ReplaceCrLf(rest));
    }
  }

  lemma CrLfStep(p: string, rest: string, r: string)
    requires Words(Clean(r)) == Words(Clean(rest))
    ensures Words(p + Clean(['\n'] + r)) == Words(p + Clean(['\r'] + (['\n'] + rest)))
  {
    CleanCons('\n', r);
    assert p + Clean(['\n'] + r) == p + ['\n'] + Clean(r);
    WordsSplit(p, '\n', Clean(r));
    CleanCons('\r', ['\n'] + rest);
    CleanCons('\n', rest);
    assert p + Clean(['\r'] + (['\n'] + rest)) == p + ['\r'] + (['\n'] + Clean(rest));
    WordsSplit(p, '\r', ['\n'] + Clean(rest));
    WordsDropLeading(['\n'], Clean(rest));
  }

  lemma OtherStep(p: string, c: char, rest: string, r: string)
    requires Words(p + [CleanChar(c)] + Clean(r)) == Words(p + [CleanChar(c)] + Clean(rest))
    ensures Words(p + Clean([c] + r)) == Words(p + Clean([c] + rest))
  {
    CleanCons(c, r);
    CleanCons(c, rest);
    assert p + Clean([c] + r) == p + [CleanChar(c)] + Clean(r);
    assert p + Clean([c] + rest) == p + [CleanChar(c)] + Clean(rest);
  }

  lemma WordsIgnoreTrim(x: string)
    ensures Words(Clean(Trim(x))) == Words(Clean(x))
  {
    var n := LeadingSpace(x);
    if n == |x| {
      WordsIgnoreOutside(x, n, n);
    } else {
      TrimBounds(x);
      WordsIgnoreOutside(x, n, TrailingStart(x));
    }
  }

  lemma WordsIgnoreOutside(x: string, n: nat, m: nat)
    requires n <= m <= |x|
    requires forall k :: 0 <= k < n ==> IsSpace(x[k])
    requires forall k :: m <= k < |x| ==> IsSpace(x[k])
    ensures Words(Clean(x[n..m])) == Words(Clean(x))
  {
    assert x == x[..n] + (x[n..m] + x[m..]);
    WordsIgnoreEnds(x[..n], x[n..m], x[m..]);
  }

  lemma WordsIgnoreEnds(lead: string, r: string, tail: string)
    requires AllSpace(lead) && AllSpace(tail)
    ensures Words(Clean(lead + (r + tail))) == Words(Clean(r))
  {
    CleanConcat(lead, r + tail);
    CleanConcat(r, tail);
    assert AllSpace(Clean(lead));
    assert AllSpace(Clean(tail));
    WordsDropLeading(Clean(lead), Clean(r + tail));
    WordsDropTrailing(Clean(r), Clean(tail));
  }

  /** Normalising line endings, no-break spaces and the ends of the text
      changes no token. */
  lemma TokenizeIgnoresNormalization(text: string)
    ensures Tokenize(text) == KeepTerms(Words(Clean(text)))
  {
    var a := ReplaceCrLf(text);
    var b := ReplaceNbsp(a);
    WordsIgnoreTrim(b);
    WordsSpaceInsensitive(Clean(b), Clean(a));
    WordsIgnoreCrLf([], text);
    assert [] + Clean(a) == Clean(a);
    assert [] + Clean(text) == Clean(text);
  }

  /** Tokens keep their left-to-right order and their duplicates: the
      tokens of two texts joined by white space are the tokens of the first
      followed by those of the second. */
  lemma TokenizeConcat(a: string, c: char, b: string)
    requires IsSpace(c)
    ensures Tokenize(a + [c] + b) == Tokenize(a) + Tokenize(b)
  {
    TokenizeIgnoresNormalization(a + [c] + b);
    TokenizeIgnoresNormalization(a);
    TokenizeIgnoresNormalization(b);
    WordsOfCleanSplit(a, c, b);
    KeepTermsConcat(Words(Clean(a)), Words(Clean(b)));
  }

  lemma WordsOfCleanSplit(a: string, c: char, b: string)
    requires IsSpace(c)
    ensures Words(Clean(a + [c] + b)) == Words(Clean(a)) + Words(Clean(b))
  {
    CleanConcat(a + [c], b);
    CleanConcat(a, [c]);
    assert Clean([c]) == [c];
    WordsSplit(Clean(a), c, Clean(b));
  }

  lemma CleanOfTermChars(t: string)
    requires forall k :: 0 <= k < |t| ==> IsTermChar(t[k])
    ensures Clean(t) == t && NoSpace(t)
  {
    assert forall k :: 0 <= k < |t| ==> Clean(t)[k] == t[k];
  }

  /** An index term tokenizes to itself. */
  lemma TokenizeToken(t: string)
    requires IsToken(t)
    ensures Tokenize(t) == [t]
  {
    TokenizeIgnoresNormalization(t);
    CleanOfTermChars(t);
    WordsOfWord(t);
    assert KeepTerms([t]) == [t] by {
      assert IsKept(t);
      assert [t][1..] == [];
    }
  }

  /** Tokenizing index terms joined by spaces gives them back in order. */
  lemma {:induction false} TokenizeJoinRoundTrip(ts: seq<string>)
    requires forall i :: 0 <= i < |ts| ==> IsToken(ts[i])
    ensures Tokenize(Join(ts, " ")) == ts
    decreases |ts|
  {
    if |ts| == 0 {
      TokenizeEmpty();
    } else if |ts| == 1 {
      TokenizeToken(ts[0]);
    } else {
      TokenizeJoinRoundTrip(ts[1..]);
      TokenizeJoinStep(ts[0], ts[1..]);
      assert ts == [ts[0]] + ts[1..];
    }
  }

  lemma TokenizeEmpty()
    ensures Tokenize("") == []
  {
    assert NormalizeText("") == "";
    assert Words(Clean("")) == [];
  }

  lemma TokenizeJoinStep(t: string, ts: seq<string>)
    requires IsToken(t) && ts != []
    ensures Tokenize(Join([t] + ts, " ")) == [t] + Tokenize(Join(ts, " "))
  {
    var rest := Join(ts, " ");
    assert ([t] + ts)[1..] == ts;
    assert Join([t] + ts, " ") == t + [' '] + rest;
    TokenizeConcat(t, ' ', rest);
    TokenizeToken(t);
  }
}
