/**
 * Order-preserving de-duplication, the shared idea behind "keep the first image
 * per normalized URL" and "keep each YouTube id once", and `Array.prototype.filter`.
 */
module Seqs {

  /** All but the last element. */
  function Init<T>(s: seq<T>): (r: seq<T>)
    requires s != []
    ensures |r| == |s| - 1
  {
    s[..|s| - 1]
  }

  /** Appending an element and dropping it again gives back the sequence. */
  lemma InitOfSnoc<T>(s: seq<T>, x: T)
    ensures Init(s + [x]) == s && (s + [x])[|s|] == x
  {
    assert (s + [x])[..|s|] == s;
  }

  /** A prefix one longer ends with the element at its old length. */
  lemma TakeSnoc<T>(s: seq<T>, i: nat)
    requires i < |s|
    ensures s[..i + 1] == s[..i] + [s[i]]
  {
  }

  /** `xs.map(f)`: `f` applied to each element, in order. */
  function Map<T, U>(xs: seq<T>, f: T --> U): (r: seq<U>)
    requires forall k :: 0 <= k < |xs| ==> f.requires(xs[k])
    ensures |r| == |xs| && forall k :: 0 <= k < |xs| ==> r[k] == f(xs[k])
  {
    seq(|xs|, k requires 0 <= k < |xs| => f(xs[k]))
  }

  /** Mapping one more element appends its image. */
  lemma MapSnoc<T, U>(xs: seq<T>, f: T --> U, i: nat)
    requires forall k :: 0 <= k < |xs| ==> f.requires(xs[k])
    requires i < |xs|
    ensures Map(xs[..i + 1], f) == Map(xs[..i], f) + [f(xs[i])]
  {
    assert forall k :: 0 <= k < i ==> xs[..i + 1][k] == xs[..i][k];
  }

  /** Mapping a concatenation maps each part. */
  lemma MapAppend<T, U>(a: seq<T>, b: seq<T>, f: T --> U)
    requires forall k :: 0 <= k < |a| ==> f.requires(a[k])
    requires forall k :: 0 <= k < |b| ==> f.requires(b[k])
    ensures Map(a + b, f) == Map(a, f) + Map(b, f)
  {
    assert forall k :: 0 <= k < |a| + |b| ==> f.requires((a + b)[k]);
  }

  /** `[].concat(...xss)`: the sequences of `xss` joined in order. */
  function Flatten<T>(xss: seq<seq<T>>): (r: seq<T>)
  {
    if xss == [] then [] else Flatten(Init(xss)) + xss[|xss| - 1]
  }

  /** Flattening one more sequence appends it. */
  lemma FlattenSnoc<T>(xss: seq<seq<T>>, xs: seq<T>)
    ensures Flatten(xss + [xs]) == Flatten(xss) + xs
  {
    InitOfSnoc(xss, xs);
  }

  /** `xs.filter(p)`. */
  function Filter<T>(xs: seq<T>, p: T -> bool): (r: seq<T>)
    ensures |r| <= |xs|
    ensures forall k :: 0 <= k < |r| ==> p(r[k])
  {
    if xs == [] then []
    else if p(xs[0]) then [xs[0]] + Filter(xs[1..], p)
    else Filter(xs[1..], p)
  }

  /** Every element satisfying `p` is kept. */
  lemma {:induction false} FilterKeeps<T>(xs: seq<T>, p: T -> bool, i: nat)
    requires i < |xs| && p(xs[i])
    ensures xs[i] in Filter(xs, p)
  {
    if i > 0 {
      FilterKeeps(xs[1..], p, i - 1);
    }
  }

  /** When every element satisfies `p`, filtering keeps them all. */
  lemma {:induction false} FilterAll<T>(xs: seq<T>, p: T -> bool)
    requires forall k :: 0 <= k < |xs| ==> p(xs[k])
    ensures Filter(xs, p) == xs
  {
    if xs != [] {
      FilterAll(xs[1..], p);
      assert [xs[0]] + xs[1..] == xs;
    }
  }

  /** Only elements of `xs` are kept. */
  lemma {:induction false} FilterSubset<T>(xs: seq<T>, p: T -> bool, x: T)
    requires x in Filter(xs, p)
    ensures x in xs
  {
    if xs != [] && x != xs[0] {
      FilterSubset(xs[1..], p, x);
    }
  }

  /** Filtering distributes over concatenation, so the kept elements stay in their order. */
  lemma {:induction false} FilterAppend<T>(a: seq<T>, b: seq<T>, p: T -> bool)
    ensures Filter(a + b, p) == Filter(a, p) + Filter(b, p)
  {
    if a == [] {
      assert a + b == b;
    } else {
      assert (a + b)[0] == a[0] && (a + b)[1..] == a[1..] + b;
      FilterAppend(a[1..], b, p);
    }
  }

  /** Keeps, in order, the first element of `xs` for each key not already in `seen`. */
  function DedupBy<T, K(==)>(xs: seq<T>, key: T -> K, seen: set<K>): (r: seq<T>)
    ensures |r| <= |xs|
  {
    if xs == [] then []
    else if key(xs[0]) in seen then DedupBy(xs[1..], key, seen)
    else [xs[0]] + DedupBy(xs[1..], key, seen + {key(xs[0])})
  }

  /** The de-duplication keeps only elements of the input, none of them with a key already seen. */
  lemma {:induction false} DedupFresh<T, K>(xs: seq<T>, key: T -> K, seen: set<K>)
    ensures forall i :: 0 <= i < |DedupBy(xs, key, seen)| ==> key(DedupBy(xs, key, seen)[i]) !in seen
    ensures forall y :: y in DedupBy(xs, key, seen) ==> y in xs
  {
    if xs != [] {
      if key(xs[0]) in seen {
        DedupFresh(xs[1..], key, seen);
      } else {
        DedupFresh(xs[1..], key, seen + {key(xs[0])});
      }
    }
  }

  /** One step of the de-duplication, as a loop that keeps a set of seen keys takes it. */
  lemma DedupCons<T, K>(x: T, r: seq<T>, key: T -> K, seen: set<K>)
    ensures DedupBy([x] + r, key, seen) == (if key(x) in seen then [] else [x]) + DedupBy(r, key, seen + {key(x)})
  {
    assert ([x] + r)[0] == x && ([x] + r)[1..] == r;
    if key(x) in seen {
      assert seen + {key(x)} == seen;
    }
  }

  /** The same step seen from a loop that has already emitted `acc` towards `target`. */
  lemma DedupStep<T, K>(acc: seq<T>, x: T, r: seq<T>, key: T -> K, seen: set<K>, target: seq<T>)
    requires acc + DedupBy([x] + r, key, seen) == target
    ensures (if key(x) in seen then acc else acc + [x]) + DedupBy(r, key, seen + {key(x)}) == target
  {
    DedupCons(x, r, key, seen);
    if key(x) !in seen {
      assert acc + ([x] + DedupBy(r, key, seen + {key(x)})) == acc + [x] + DedupBy(r, key, seen + {key(x)});
    }
  }

  /**
   * Appends to `acc` each element of `xs` whose key is not yet in `seen0`, adding the keys as
   * it goes; `later` is what will be de-duplicated after `xs`, towards `target`.
   */
  method DedupInto<T, K(==)>(acc: seq<T>, seen0: set<K>, xs: seq<T>, key: T -> K, ghost later: seq<T>, ghost target: seq<T>)
    returns (r: seq<T>, seen: set<K>)
    requires acc + DedupBy(xs + later, key, seen0) == target
    ensures r + DedupBy(later, key, seen) == target
  {
    r, seen := acc, seen0;
    var j := 0;
    while j < |xs|
      invariant 0 <= j <= |xs|
      invariant r + DedupBy(xs[j..] + later, key, seen) == target
    {
      var x := xs[j];
      assert xs[j..] + later == [x] + (xs[j + 1..] + later);
      DedupStep(r, x, xs[j + 1..] + later, key, seen, target);
      if key(x) !in seen {
        r := r + [x];
      }
      seen := seen + {key(x)};
      j := j + 1;
    }
    assert xs[j..] + later == later;
  }

  /** No two elements of `r` share a key. */
  ghost predicate KeysDistinct<T, K>(r: seq<T>, key: T -> K) {
    forall i, j :: 0 <= i < j < |r| ==> key(r[i]) != key(r[j])
  }

  /** Some element of `r` has key `k`. */
  ghost predicate HasKey<T, K>(r: seq<T>, key: T -> K, k: K) {
    exists j :: 0 <= j < |r| && key(r[j]) == k
  }

  /** No two kept elements share a key. */
  lemma {:induction false} DedupDistinct<T, K>(xs: seq<T>, key: T -> K, seen: set<K>)
    ensures KeysDistinct(DedupBy(xs, key, seen), key)
  {
    if xs != [] {
      if key(xs[0]) in seen {
        DedupDistinct(xs[1..], key, seen);
      } else {
        var s' := seen + {key(xs[0])};
        DedupDistinct(xs[1..], key, s');
        var rest := DedupBy(xs[1..], key, s');
        DedupFresh(xs[1..], key, s');
        var r := [xs[0]] + rest;
        forall i, j | 0 <= i < j < |r| ensures key(r[i]) != key(r[j]) {
          assert r[j] == rest[j - 1];
          assert key(rest[j - 1]) !in s';
          if i > 0 {
            assert r[i] == rest[i - 1];
          }
        }
      }
    }
  }

  /** Every key of the input that was not already seen is represented in the result. */
  lemma {:induction false} DedupCovers<T, K>(xs: seq<T>, key: T -> K, seen: set<K>, i: nat)
    requires i < |xs| && key(xs[i]) !in seen
    ensures HasKey(DedupBy(xs, key, seen), key, key(xs[i]))
  {
    var r := DedupBy(xs, key, seen);
    if key(xs[0]) in seen {
      assert xs[i] == xs[1..][i - 1];
      DedupCovers(xs[1..], key, seen, i - 1);
    } else if key(xs[i]) == key(xs[0]) {
      assert key(r[0]) == key(xs[i]);
    } else {
      var s' := seen + {key(xs[0])};
      var rest := DedupBy(xs[1..], key, s');
      assert r == [xs[0]] + rest;
      assert xs[i] == xs[1..][i - 1];
      DedupCovers(xs[1..], key, s', i - 1);
      var j :| 0 <= j < |rest| && key(rest[j]) == key(xs[i]);
      assert r[j + 1] == rest[j];
    }
  }

  /** The first element of each unseen key is kept: it is the one the result holds for that key. */
  lemma {:induction false} DedupKeepsFirst<T, K>(xs: seq<T>, key: T -> K, seen: set<K>, i: nat)
    requires i < |xs| && key(xs[i]) !in seen
    requires forall j :: 0 <= j < i ==> key(xs[j]) != key(xs[i])
    ensures xs[i] in DedupBy(xs, key, seen)
  {
    if i > 0 {
      var s' := if key(xs[0]) in seen then seen else seen + {key(xs[0])};
      assert xs[1..][i - 1] == xs[i];
      DedupKeepsFirst(xs[1..], key, s', i - 1);
    }
  }
}
