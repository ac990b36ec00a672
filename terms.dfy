/** Term counting: `termFreq` (api/generate.js:76-80). */
module Terms {

  /** A JavaScript `Map` from token to count: its keys in insertion order,
      and the count of each key. */
  datatype TermCounts = TermCounts(order: seq<string>, count: map<string, nat>)

  predicate NoDuplicates(s: seq<string>) {
    forall i, j :: 0 <= i < j < |s| ==> s[i] != s[j]
  }

  /** The distinct elements of `s`, in order of first occurrence. */
  function Dedup(s: seq<string>): (r: seq<string>)
    ensures forall x :: x in r <==> x in s
    ensures NoDuplicates(r)
    decreases |s|
  {
    if s == [] then []
    else
      var p := Dedup(s[..|s| - 1]);
      if s[|s| - 1] in s[..|s| - 1] then p else p + [s[|s| - 1]]
  }

  /** The count of every token seen, built one token at a time. */
  function CountMap(tokens: seq<string>): map<string, nat>
    decreases |tokens|
  {
    if tokens == [] then map[]
    else
      var m := CountMap(tokens[..|tokens| - 1]);
      var t := tokens[|tokens| - 1];
      m[t := (if t in m then m[t] else 0) + 1]
  }

  /** What `termFreq(tokens)` holds: every distinct token, in order of first
      occurrence, with its count. */
  function Counts(tokens: seq<string>): TermCounts {
    TermCounts(Dedup(tokens), CountMap(tokens))
  }

  /** `tf.get(t) || 0`. */
  function Get(tf: TermCounts, t: string): nat {
    if t in tf.count then tf.count[t] else 0
  }

  /** A count map as `termFreq` builds it: the insertion order lists each key
      once, and every key was seen at least once. */
  ghost predicate WellFormed(tf: TermCounts) {
    && NoDuplicates(tf.order)
    && (forall t :: t in tf.order <==> t in tf.count)
    && (forall t :: t in tf.count ==> tf.count[t] >= 1)
  }

  /** The counts are well formed, list exactly the tokens, and a lookup gives
      the number of occurrences (zero for a token that does not occur). */
  lemma CountsSpec(tokens: seq<string>)
    ensures WellFormed(Counts(tokens))
    ensures forall t :: t in Counts(tokens).order <==> t in tokens
    ensures forall t :: Get(Counts(tokens), t) == multiset(tokens)[t]
  {
    CountMapSpec(tokens);
  }

  lemma {:induction false} CountMapSpec(tokens: seq<string>)
    ensures forall t :: t in CountMap(tokens) <==> t in tokens
    ensures forall t :: t in CountMap(tokens) ==> CountMap(tokens)[t] == multiset(tokens)[t] >= 1
    ensures forall t :: t !in tokens ==> multiset(tokens)[t] == 0
    decreases |tokens|
  {
    if tokens != [] {
      var prefix := tokens[..|tokens| - 1];
      var last := tokens[|tokens| - 1];
      CountMapSpec(prefix);
      assert tokens == prefix + [last];
      assert multiset(tokens) == multiset(prefix) + multiset{last};
    }
  }

  lemma CountsSnoc(prefix: seq<string>, t: string)
    ensures Counts(prefix + [t]).order == if t in Counts(prefix).count then Counts(prefix).order else Counts(prefix).order + [t]
    ensures Counts(prefix + [t]).count == Counts(prefix).count[t := Get(Counts(prefix), t) + 1]
  {
    var s := prefix + [t];
    assert s[..|s| - 1] == prefix;
    CountMapKey(prefix, t);
  }

  lemma {:induction false} CountMapKey(tokens: seq<string>, t: string)
    ensures t in CountMap(tokens) <==> t in tokens
    decreases |tokens|
  {
    if tokens != [] {
      var prefix := tokens[..|tokens| - 1];
      CountMapKey(prefix, t);
      assert tokens == prefix + [tokens[|tokens| - 1]];
    }
  }

  /** `termFreq`: one pass over the tokens, updating the map in place. */
  method TermFreq(tokens: seq<string>) returns (tf: TermCounts)
    ensures tf == Counts(tokens)
  {
    var order: seq<string> := [];
    var count: map<string, nat> := map[];
    for i := 0 to |tokens|
      invariant TermCounts(order, count) == Counts(tokens[..i])
    {
      var t := tokens[i];
      CountsSnoc(tokens[..i], t);
      assert tokens[..i + 1] == tokens[..i] + [t];
      if t in count {
        count := count[t := count[t] + 1];
      } else {
        order := order + [t];
        count := count[t := 1];
      }
    }
    assert tokens[..|tokens|] == tokens;
    tf := TermCounts(order, count);
  }
}
