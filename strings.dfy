/** The string and list built-ins the pipeline relies on: `str.split()` with no
    argument, `" ".join(...)`, `s * n`, and `sorted(set(...))` over strings with
    Python's code-point order. */
module Strings {

  /** The characters `str.isspace()` accepts, which are the separators of `str.split()`. */
  predicate IsSpace(c: char) {
    || c == ' '
    || '\t' <= c <= '\r'
    || '\U{1C}' <= c <= '\U{1F}'
    || c == '\U{85}'
    || c == '\U{A0}'
    || c == '\U{1680}'
    || '\U{2000}' <= c <= '\U{200A}'
    || c == '\U{2028}'
    || c == '\U{2029}'
    || c == '\U{202F}'
    || c == '\U{205F}'
    || c == '\U{3000}'
  }

  /** No character of `t` is whitespace. */
  predicate Spaceless(t: string) {
    forall i :: 0 <= i < |t| ==> !IsSpace(t[i])
  }

  /** A token: what `str.split()` can return as one element. */
  predicate IsWord(t: string) {
    |t| > 0 && Spaceless(t)
  }

  predicate AllWords(ts: seq<string>) {
    forall i :: 0 <= i < |ts| ==> IsWord(ts[i])
  }

  /** The word read so far, emitted when a separator or the end is reached. */
  function Flush(word: string): seq<string> {
    if word == [] then [] else [word]
  }

  /** The words of `ts` written one after another. */
  function Concat(ts: seq<string>): string
    decreases |ts|
  {
    if ts == [] then "" else ts[0] + Concat(ts[1..])
  }

  /** The characters of `s` that are not whitespace, in order. */
  function NonSpace(s: string): string
    decreases |s|
  {
    if s == [] then "" else (if IsSpace(s[0]) then "" else [s[0]]) + NonSpace(s[1..])
  }

  /** `str.split()` scanning `s` with `word` already read. */
  function SplitFrom(s: string, word: string): (r: seq<string>)
    requires word == [] || IsWord(word)
    ensures AllWords(r)
    decreases |s|
  {
    if s == [] then Flush(word)
    else if IsSpace(s[0]) then Flush(word) + SplitFrom(s[1..], [])
    else SplitFrom(s[1..], word + [s[0]])
  }

  /** `s.split()`: the maximal runs of non-whitespace characters, in order. */
  function Split(s: string): (r: seq<string>)
    ensures AllWords(r)
  {
    SplitFrom(s, [])
  }

  /** The words read from `s` after `word`, written one after another, are `word` and the
      non-whitespace characters of `s`. */
  lemma {:induction false} SplitFromCharacters(s: string, word: string)
    requires word == [] || IsWord(word)
    ensures Concat(SplitFrom(s, word)) == word + NonSpace(s)
    decreases |s|
  {
    if s == [] {
      if word != [] { assert Flush(word)[1..] == []; }
    } else if IsSpace(s[0]) {
      var rest := SplitFrom(s[1..], []);
      SplitFromCharacters(s[1..], []);
      if word == [] { assert Flush(word) + rest == rest; }
      else { assert (Flush(word) + rest)[1..] == rest; }
    } else {
      SplitFromCharacters(s[1..], word + [s[0]]);
    }
  }

  /** Splitting loses only whitespace: the words are non-empty, hold no whitespace, and
      written one after another are exactly the non-whitespace characters of `s`, in order. */
  lemma SplitCharacters(s: string)
    ensures AllWords(Split(s))
    ensures Concat(Split(s)) == NonSpace(s)
  {
    SplitFromCharacters(s, []);
  }

  /** `" ".join(ts)`. */
  function Join(ts: seq<string>): string {
    if ts == [] then ""
    else if |ts| == 1 then ts[0]
    else ts[0] + " " + Join(ts[1..])
  }

  /** `[x] * n`: `n` copies of `x`, none when `n <= 0`. */
  function Repeat<T>(x: T, n: int): (r: seq<T>)
    ensures |r| == if n > 0 then n else 0
    ensures forall i :: 0 <= i < |r| ==> r[i] == x
  {
    if n <= 0 then [] else seq(n, _ => x)
  }

  /** `s * n` on strings. */
  function Times(s: string, n: int): string
    decreases n
  {
    if n <= 0 then "" else Times(s, n - 1) + s
  }

  lemma {:induction false} SplitFromSpaceless(t: string, word: string, rest: string)
    requires word == [] || IsWord(word)
    requires Spaceless(t)
    ensures SplitFrom(t + rest, word) == SplitFrom(rest, word + t)
    decreases |t|
  {
    if t == [] {
      assert t + rest == rest;
      assert word + t == word;
    } else {
      assert (t + rest)[0] == t[0];
      assert (t + rest)[1..] == t[1..] + rest;
      SplitFromSpaceless(t[1..], word + [t[0]], rest);
      assert word + [t[0]] + t[1..] == word + t;
    }
  }

  lemma {:induction false} SplitFromSeparator(a: string, c: char, b: string, word: string)
    requires IsSpace(c)
    requires word == [] || IsWord(word)
    ensures SplitFrom(a + [c] + b, word) == SplitFrom(a, word) + Split(b)
    decreases |a|
  {
    var s := a + [c] + b;
    if a == [] {
      assert s[0] == c && s[1..] == b;
    } else {
      assert s[0] == a[0] && s[1..] == a[1..] + [c] + b;
      if IsSpace(a[0]) {
        SplitFromSeparator(a[1..], c, b, []);
      } else {
        SplitFromSeparator(a[1..], c, b, word + [a[0]]);
      }
    }
  }

  /** A whitespace character separates: splitting `a c b` splits `a` and `b` apart. */
  lemma SplitSeparator(a: string, c: char, b: string)
    requires IsSpace(c)
    ensures Split(a + [c] + b) == Split(a) + Split(b)
  {
    SplitFromSeparator(a, c, b, []);
  }

  /** A string that is empty or ends in whitespace can be split apart from what follows it. */
  lemma SplitAfterSpace(a: string, b: string)
    requires a == [] || IsSpace(a[|a| - 1])
    ensures Split(a + b) == Split(a) + Split(b)
  {
    if a == [] {
      assert a + b == b;
    } else {
      var a', c := a[..|a| - 1], a[|a| - 1];
      assert a == a' + [c] + [];
      assert a + b == a' + [c] + b;
      SplitSeparator(a', c, []);
      SplitSeparator(a', c, b);
    }
  }

  lemma SplitWord(t: string)
    requires IsWord(t)
    ensures Split(t) == [t]
  {
    SplitFromSpaceless(t, [], []);
    assert t + [] == t;
    assert [] + t == t;
  }

  /** Splitting the space-joined words gives the words back. */
  lemma {:induction false} SplitJoin(ts: seq<string>)
    requires AllWords(ts)
    ensures Split(Join(ts)) == ts
    decreases |ts|
  {
    if ts == [] {
    } else if |ts| == 1 {
      SplitWord(ts[0]);
    } else {
      SplitSeparator(ts[0], ' ', Join(ts[1..]));
      SplitWord(ts[0]);
      SplitJoin(ts[1..]);
    }
  }

  // ---------------------------------------------------------------------------
  // String order and sorted(set(...))
  // ---------------------------------------------------------------------------

  /** Python's `a < b` on strings: lexicographic by code point, a proper prefix first. */
  predicate Less(a: string, b: string)
    ensures Less(a, b) ==> a != b
    ensures |a| < |b| && a == b[..|a|] ==> Less(a, b)
    decreases |a|
  {
    if a == [] then b != []
    else if b == [] then false
    else a[0] < b[0] || (a[0] == b[0] && Less(a[1..], b[1..]))
  }

  lemma {:induction false} LessIrreflexive(a: string)
    ensures !Less(a, a)
    decreases |a|
  {
    if a != [] {
      LessIrreflexive(a[1..]);
    }
  }

  lemma {:induction false} LessAsymmetric(a: string, b: string)
    requires Less(a, b)
    ensures !Less(b, a)
    decreases |a|
  {
    if a != [] && a[0] == b[0] {
      LessAsymmetric(a[1..], b[1..]);
    }
  }

  lemma {:induction false} LessTransitive(a: string, b: string, c: string)
    requires Less(a, b) && Less(b, c)
    ensures Less(a, c)
    decreases |a|
  {
    if a != [] && a[0] == b[0] && b[0] == c[0] {
      LessTransitive(a[1..], b[1..], c[1..]);
    }
  }

  lemma {:induction false} LessTotal(a: string, b: string)
    requires a != b
    ensures Less(a, b) || Less(b, a)
    decreases |a|
  {
    if a != [] && b != [] && a[0] == b[0] {
      assert a == [a[0]] + a[1..] && b == [b[0]] + b[1..];
      LessTotal(a[1..], b[1..]);
    }
  }

  predicate StrictlySorted(v: seq<string>) {
    forall i, j :: 0 <= i < j < |v| ==> Less(v[i], v[j])
  }

  lemma {:induction false} SortedCons(h: string, w: seq<string>)
    requires StrictlySorted(w)
    requires forall x :: x in w ==> Less(h, x)
    ensures StrictlySorted([h] + w)
  {
    var v := [h] + w;
    forall i, j | 0 <= i < j < |v|
      ensures Less(v[i], v[j])
    {
      assert v[j] == w[j - 1];
      if i > 0 {
        assert v[i] == w[i - 1];
      }
    }
  }

  lemma {:induction false} SortedHeadLeast(v: seq<string>, t: string)
    requires StrictlySorted(v) && v != []
    requires Less(t, v[0])
    ensures forall x :: x in v ==> Less(t, x)
  {
    forall x | x in v
      ensures Less(t, x)
    {
      var j :| 0 <= j < |v| && v[j] == x;
      if j > 0 {
        LessTransitive(t, v[0], x);
      }
    }
  }

  lemma {:induction false} SortedDistinct(v: seq<string>)
    requires StrictlySorted(v)
    ensures forall i, j :: 0 <= i < |v| && 0 <= j < |v| && i != j ==> v[i] != v[j]
  {
    forall i, j | 0 <= i < |v| && 0 <= j < |v| && i != j
      ensures v[i] != v[j]
    {
      if i < j {
        LessIrreflexive(v[i]);
      } else {
        LessIrreflexive(v[j]);
      }
    }
  }

  /** Inserts `t` into a strictly sorted list of distinct strings, unless it is already there. */
  function Insert(v: seq<string>, t: string): (r: seq<string>)
    requires StrictlySorted(v)
    ensures StrictlySorted(r)
    ensures forall x :: x in r <==> x in v || x == t
    decreases |v|
  {
    if v == [] then [t]
    else if t == v[0] then v
    else if Less(t, v[0]) then
      SortedHeadLeast(v, t);
      SortedCons(t, v);
      [t] + v
    else
      var rest := Insert(v[1..], t);
      LessTotal(t, v[0]);
      SortedHeadAbove(v, rest, t);
      SortedCons(v[0], rest);
      [v[0]] + rest
  }

  lemma {:induction false} SortedHeadAbove(v: seq<string>, rest: seq<string>, t: string)
    requires StrictlySorted(v) && v != []
    requires Less(v[0], t)
    requires forall x :: x in rest <==> x in v[1..] || x == t
    ensures forall x :: x in rest ==> Less(v[0], x)
  {
    forall x | x in rest
      ensures Less(v[0], x)
    {
      if x != t {
        var j :| 0 <= j < |v[1..]| && v[1..][j] == x;
        assert v[j + 1] == x;
      }
    }
  }

  /** `sorted(set(ts))`: the distinct elements of `ts`, in increasing order. */
  function SortedSet(ts: seq<string>): (v: seq<string>)
    ensures StrictlySorted(v)
    ensures forall x :: x in v <==> x in ts
    decreases |ts|
  {
    if ts == [] then [] else Insert(SortedSet(ts[1..]), ts[0])
  }

  lemma {:induction false} SortedTailExcludesHead(v: seq<string>)
    requires StrictlySorted(v) && v != []
    ensures v[0] !in v[1..]
    ensures forall x :: x in v[1..] ==> Less(v[0], x)
  {
    forall x | x in v[1..]
      ensures Less(v[0], x)
    {
      var j :| 0 <= j < |v[1..]| && v[1..][j] == x;
      assert v[j + 1] == x;
    }
    LessIrreflexive(v[0]);
  }

  /** Two strictly sorted lists with the same elements are the same list. */
  lemma {:induction false} SortedUnique(a: seq<string>, b: seq<string>)
    requires StrictlySorted(a) && StrictlySorted(b)
    requires forall x :: x in a <==> x in b
    ensures a == b
    decreases |a|
  {
    if a == [] {
      if b != [] {
        assert false;
      }
    } else if b == [] {
      SortedUnique(b, a);
    } else {
      SortedTailExcludesHead(a);
      SortedTailExcludesHead(b);
      var x, y := a[0], b[0];
      assert a == [x] + a[1..] && b == [y] + b[1..];
      if x != y {
        assert x in b && y in a;
        assert x in b[1..] && y in a[1..];
        LessAsymmetric(x, y);
        assert false;
      }
      forall z
        ensures z in a[1..] <==> z in b[1..]
      {
        assert z in a <==> z == x || z in a[1..];
        assert z in b <==> z == y || z in b[1..];
      }
      SortedUnique(a[1..], b[1..]);
    }
  }

  /** `sorted(set(ts))` depends only on which strings occur in `ts`, not on their order or repetition. */
  lemma SortedSetCanonical(ts: seq<string>, us: seq<string>)
    requires forall x :: x in ts <==> x in us
    ensures SortedSet(ts) == SortedSet(us)
  {
    SortedUnique(SortedSet(ts), SortedSet(us));
  }
}
