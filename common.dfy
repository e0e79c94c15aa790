/**
 * Small value types and string helpers shared by every module of the model:
 * Option/Result for the Go `(value, error)` returns, string concatenation and
 * joining, the `strings` predicates the source uses, and the notion of a
 * map-iteration order (Go leaves the order of `range` over a map unspecified).
 */
module Common {

  datatype Option<T> = None | Some(value: T)

  datatype Result<T, E> = Ok(value: T) | Err(error: E)

  /** Concatenation of a sequence of strings, left to right. */
  function Concat(parts: seq<string>): string
  {
    if parts == [] then "" else parts[0] + Concat(parts[1..])
  }

  lemma {:induction false} ConcatAppend(a: seq<string>, b: seq<string>)
    ensures Concat(a + b) == Concat(a) + Concat(b)
  {
    if a == [] {
      assert a + b == b;
    } else {
      assert (a + b)[1..] == a[1..] + b;
      ConcatAppend(a[1..], b);
    }
  }

  /** `strings.Join`: the parts with `sep` between consecutive ones. */
  function Join(parts: seq<string>, sep: string): string
  {
    if |parts| == 0 then ""
    else if |parts| == 1 then parts[0]
    else parts[0] + sep + Join(parts[1..], sep)
  }

  /** The image of a sequence under `f`, in the same order. */
  function Image<A, B>(s: seq<A>, f: A -> B): (r: seq<B>)
    ensures |r| == |s|
    ensures forall i | 0 <= i < |s| :: r[i] == f(s[i])
  {
    if s == [] then [] else [f(s[0])] + Image(s[1..], f)
  }

  lemma ImageAppend<A, B>(s: seq<A>, x: A, f: A -> B)
    ensures Image(s + [x], f) == Image(s, f) + [f(x)]
  {
  }

  /** `strings.HasPrefix`, `strings.HasSuffix`, `strings.TrimSuffix`, `strings.Contains`. */
  predicate HasPrefix(s: string, prefix: string)
  {
    |prefix| <= |s| && s[..|prefix|] == prefix
  }

  predicate HasSuffix(s: string, suffix: string)
  {
    |suffix| <= |s| && s[|s| - |suffix|..] == suffix
  }

  function TrimSuffix(s: string, suffix: string): string
  {
    if HasSuffix(s, suffix) then s[..|s| - |suffix|] else s
  }

  lemma PrefixOfAppend(a: string, b: string)
    ensures HasPrefix(a + b, a) && HasPrefix(a, a)
  {
    assert (a + b)[..|a|] == a;
    assert a[..|a|] == a;
  }

  /** A prefix of the middle part, after the same head, is a prefix of the whole. */
  lemma PrefixInside(h: string, w: string, p: string, c: string)
    requires HasPrefix(w, p)
    ensures HasPrefix(h + w + c, h + p)
  {
    var rest := w[|p|..];
    assert w == p + rest;
    assert h + w + c == (h + p) + (rest + c);
    PrefixOfAppend(h + p, rest + c);
  }

  lemma Assoc(a: string, b: string, c: string)
    ensures a + b + c == a + (b + c)
  {
  }

  lemma SuffixOfAppend(a: string, b: string)
    ensures HasSuffix(a + b, b)
  {
    assert (a + b)[|a + b| - |b|..] == b;
  }

  lemma PrefixTrans(a: string, b: string, c: string)
    requires HasPrefix(a, b) && HasPrefix(b, c)
    ensures HasPrefix(a, c)
  {
    assert a[..|c|] == b[..|b|][..|c|];
  }

  predicate Contains(s: string, sub: string)
    decreases |s|
  {
    HasPrefix(s, sub) || (|s| > 0 && Contains(s[1..], sub))
  }

  /**
   * `order` is one possible order in which Go's `range` visits the keys of a
   * map whose key set is `keys`: every key exactly once.
   */
  ghost predicate IsOrder<K>(order: seq<K>, keys: set<K>)
  {
    multiset(order) == multiset(keys)
  }

  /**
   * Whatever the iteration order, the multiset of produced pieces is the same:
   * the output of a `range` loop is determined up to a permutation.
   */
  lemma {:induction false} PermutedImage<A, B>(s1: seq<A>, s2: seq<A>, f: A -> B)
    requires multiset(s1) == multiset(s2)
    ensures multiset(Image(s1, f)) == multiset(Image(s2, f))
    decreases |s1|
  {
    if s1 == [] {
      assert |s2| == |multiset(s2)| == 0;
    } else {
      assert s1[0] in multiset(s2);
      var j :| 0 <= j < |s2| && s2[j] == s1[0];
      DropMatching(s1, s2, j);
      PermutedImage(s1[1..], s2[..j] + s2[j + 1..], f);
      ImageRemoveAt(s2, j, f);
      ImageRemoveAt(s1, 0, f);
      assert s1[..0] + s1[1..] == s1[1..];
    }
  }

  /** Removing the same element from two permutations of each other leaves permutations. */
  lemma DropMatching<A>(s1: seq<A>, s2: seq<A>, j: nat)
    requires multiset(s1) == multiset(s2) && |s1| > 0 && j < |s2| && s2[j] == s1[0]
    ensures multiset(s1[1..]) == multiset(s2[..j] + s2[j + 1..])
  {
    RemoveAt(s2, j);
    assert s1 == [s1[0]] + s1[1..];
    assert multiset(s1[1..]) == multiset(s1) - multiset{s1[0]};
  }

  lemma ImageRemoveAt<A, B>(s: seq<A>, j: nat, f: A -> B)
    requires j < |s|
    ensures multiset(Image(s, f)) == multiset(Image(s[..j] + s[j + 1..], f)) + multiset{f(s[j])}
  {
    var i := Image(s, f);
    RemoveAt(i, j);
    ImageConcat(s[..j], s[j + 1..], f);
    assert i[..j] == Image(s[..j], f);
    assert i[j + 1..] == Image(s[j + 1..], f);
  }

  lemma SplitAt<A>(s: seq<A>, j: nat)
    requires j < |s|
    ensures s[..j] + [s[j]] + s[j + 1..] == s
  {
  }

  lemma RemoveAt<A>(s: seq<A>, j: nat)
    requires j < |s|
    ensures multiset(s[..j] + s[j + 1..]) == multiset(s) - multiset{s[j]}
    ensures multiset(s) == multiset(s[..j] + s[j + 1..]) + multiset{s[j]}
  {
    assert s == s[..j] + [s[j]] + s[j + 1..];
  }

  lemma {:induction false} ImageConcat<A, B>(a: seq<A>, b: seq<A>, f: A -> B)
    ensures Image(a + b, f) == Image(a, f) + Image(b, f)
  {
    var l, r := Image(a + b, f), Image(a, f) + Image(b, f);
    assert |l| == |r|;
    forall i | 0 <= i < |l| ensures l[i] == r[i] {
      if i < |a| {
        assert (a + b)[i] == a[i];
      } else {
        assert (a + b)[i] == b[i - |a|];
      }
    }
  }

  /** The empty-order and one-more-key facts a `range` loop needs. */
  lemma OrderStep<K>(order: seq<K>, done: set<K>, k: K)
    requires multiset(order) == multiset(done)
    requires k !in done
    ensures multiset(order + [k]) == multiset(done + {k})
  {
  }

  /** The same step, stated for a loop that keeps the keys still to visit. */
  lemma OrderRest<K>(keys: set<K>, order: seq<K>, rest: set<K>, k: K)
    requires rest <= keys && k in rest
    requires IsOrder(order, keys - rest)
    ensures IsOrder(order + [k], keys - (rest - {k}))
  {
    assert keys - (rest - {k}) == (keys - rest) + {k};
    OrderStep(order, keys - rest, k);
  }

  /** A map that agrees with `src` on its keys and with `dst` elsewhere is `dst + src`. */
  lemma UnionByPoints<K, V>(dst: map<K, V>, src: map<K, V>, m: map<K, V>)
    requires forall k | k in src :: k in m && m[k] == src[k]
    requires forall k | k in dst && k !in src :: k in m && m[k] == dst[k]
    requires forall k | k in m :: k in dst || k in src
    ensures m == dst + src
  {
  }

  /** Cardinality is monotone under inclusion. */
  lemma {:induction false} SubsetCard<T>(a: set<T>, b: set<T>)
    requires a <= b
    ensures |a| <= |b|
    decreases |b|
  {
    if a != {} {
      var x :| x in a;
      SubsetCard(a - {x}, b - {x});
    }
  }
}
