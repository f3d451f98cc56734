/**
 * Building a dictionary from a sequence of candidate entries, the two ways
 * the converter does it: `d[k] = v` for each entry in turn (a later entry for
 * the same key overwrites an earlier one), and `d.setdefault(k, v)` for each
 * entry in turn (the first entry for a key stays). A candidate that is `None`
 * stands for a line or pattern that did not match and leaves the dictionary
 * alone.
 */
module Assign {
  import opened Wrappers

  /** Whether candidate `e` is an entry for `key`. */
  predicate Sets<K(==), V>(e: Option<(K, V)>, key: K) {
    e.Some? && e.value.0 == key
  }

  /** `d[k] = v` for every entry, in order. */
  function AssignAll<K(==), V>(acc: map<K, V>, es: seq<Option<(K, V)>>): map<K, V>
    decreases |es|
  {
    if es == [] then acc
    else
      var d := AssignAll(acc, es[..|es| - 1]);
      match es[|es| - 1]
      case Some((k, v)) => d[k := v]
      case None => d
  }

  /** `d.setdefault(k, v)` for every entry, in order. */
  function SetDefaultAll<K(==), V>(acc: map<K, V>, es: seq<Option<(K, V)>>): map<K, V>
    decreases |es|
  {
    if es == [] then acc
    else
      var d := SetDefaultAll(acc, es[..|es| - 1]);
      match es[|es| - 1]
      case Some((k, v)) => if k in d then d else d[k := v]
      case None => d
  }

  /** One more entry: assign it to what the earlier ones built. */
  lemma AssignStep<K, V>(d: map<K, V>, es: seq<Option<(K, V)>>)
    requires es != [] && d == AssignAll(map[], es[..|es| - 1])
    ensures AssignAll(map[], es) == if es[|es| - 1].Some? then d[es[|es| - 1].value.0 := es[|es| - 1].value.1] else d
  {
  }

  /** One more entry under `setdefault`. */
  lemma SetDefaultStep<K, V>(acc: map<K, V>, d: map<K, V>, es: seq<Option<(K, V)>>)
    requires es != [] && d == SetDefaultAll(acc, es[..|es| - 1])
    ensures SetDefaultAll(acc, es) ==
              if es[|es| - 1].Some? && es[|es| - 1].value.0 !in d then d[es[|es| - 1].value.0 := es[|es| - 1].value.1] else d
  {
  }

  /** Assigning two runs of entries is assigning their concatenation. */
  lemma {:induction false} AssignConcat<K, V>(acc: map<K, V>, a: seq<Option<(K, V)>>, b: seq<Option<(K, V)>>)
    ensures AssignAll(acc, a + b) == AssignAll(AssignAll(acc, a), b)
    decreases |b|
  {
    if b == [] {
      assert a + b == a;
    } else {
      assert (a + b)[..|a + b| - 1] == a + b[..|b| - 1];
      AssignConcat(acc, a, b[..|b| - 1]);
    }
  }

  lemma {:induction false} SetDefaultConcat<K, V>(acc: map<K, V>, a: seq<Option<(K, V)>>, b: seq<Option<(K, V)>>)
    ensures SetDefaultAll(acc, a + b) == SetDefaultAll(SetDefaultAll(acc, a), b)
    decreases |b|
  {
    if b == [] {
      assert a + b == a;
    } else {
      assert (a + b)[..|a + b| - 1] == a + b[..|b| - 1];
      SetDefaultConcat(acc, a, b[..|b| - 1]);
    }
  }

  /** With assignment a key is present exactly when some entry sets it, and it holds the value of
      the last such entry. */
  lemma {:induction false} AssignLastWins<K, V>(es: seq<Option<(K, V)>>, key: K)
    ensures key in AssignAll(map[], es) <==> exists i :: 0 <= i < |es| && Sets(es[i], key)
    ensures forall i :: 0 <= i < |es| && Sets(es[i], key) && (forall j :: i < j < |es| ==> !Sets(es[j], key))
                        ==> key in AssignAll(map[], es) && AssignAll(map[], es)[key] == es[i].value.1
    decreases |es|
  {
    if es != [] {
      var init := es[..|es| - 1];
      var last := es[|es| - 1];
      AssignLastWins(init, key);
      assert forall i :: 0 <= i < |init| ==> init[i] == es[i];
      if !Sets(last, key) {
        assert key in AssignAll(map[], es) <==> key in AssignAll(map[], init);
        assert key in AssignAll(map[], init) ==> AssignAll(map[], es)[key] == AssignAll(map[], init)[key];
      }
    }
  }

  /** With `setdefault` a key is present exactly when some entry sets it, and it holds the value of
      the first such entry. */
  lemma {:induction false} SetDefaultFirstWins<K, V>(es: seq<Option<(K, V)>>, key: K)
    ensures key in SetDefaultAll(map[], es) <==> exists i :: 0 <= i < |es| && Sets(es[i], key)
    ensures forall i :: 0 <= i < |es| && Sets(es[i], key) && (forall j :: 0 <= j < i ==> !Sets(es[j], key))
                        ==> key in SetDefaultAll(map[], es) && SetDefaultAll(map[], es)[key] == es[i].value.1
    decreases |es|
  {
    if es != [] {
      var init := es[..|es| - 1];
      var last := es[|es| - 1];
      SetDefaultFirstWins(init, key);
      assert forall i :: 0 <= i < |init| ==> init[i] == es[i];
      if key in SetDefaultAll(map[], init) {
        assert SetDefaultAll(map[], es)[key] == SetDefaultAll(map[], init)[key];
      }
    }
  }

  /** An entry that matched nothing can be dropped, wherever it stands. */
  lemma AssignIgnoresNone<K, V>(a: seq<Option<(K, V)>>, b: seq<Option<(K, V)>>)
    ensures AssignAll(map[], a + [None] + b) == AssignAll(map[], a + b)
  {
    var none: seq<Option<(K, V)>> := [None];
    AssignConcat(map[], a + none, b);
    AssignConcat(map[], a, none);
    assert none[..0] == [];
    AssignConcat(map[], a, b);
  }

  /** Every key present was set by some entry, and every value came from one. */
  lemma {:induction false} AssignFrom<K, V>(acc: map<K, V>, es: seq<Option<(K, V)>>, key: K)
    requires key in AssignAll(acc, es)
    ensures (key in acc && AssignAll(acc, es)[key] == acc[key])
            || exists i :: 0 <= i < |es| && es[i] == Some((key, AssignAll(acc, es)[key]))
    decreases |es|
  {
    if es != [] {
      var init := es[..|es| - 1];
      var last := es[|es| - 1];
      if !Sets(last, key) {
        AssignFrom(acc, init, key);
        assert forall i :: 0 <= i < |init| ==> init[i] == es[i];
      } else {
        assert es[|es| - 1] == Some((key, AssignAll(acc, es)[key]));
      }
    }
  }

  /** Under `setdefault`, the first entry for a key decides it, whatever follows. */
  lemma SetDefaultFirstAt<K, V>(pre: seq<Option<(K, V)>>, e: Option<(K, V)>, post: seq<Option<(K, V)>>, key: K)
    requires forall k :: 0 <= k < |pre| ==> !Sets(pre[k], key)
    requires Sets(e, key)
    ensures key in SetDefaultAll(map[], pre + [e] + post)
    ensures SetDefaultAll(map[], pre + [e] + post)[key] == e.value.1
  {
    SetDefaultFirstWins(pre, key);
    var single: seq<Option<(K, V)>> := [e];
    SetDefaultConcat(map[], pre, single);
    assert single[..0] == [];
    var m := SetDefaultAll(map[], pre + single);
    SetDefaultConcat(map[], pre + single, post);
    SetDefaultKeeps(m, post, key);
  }

  /** Once a key is present, `setdefault` never changes it. */
  lemma {:induction false} SetDefaultKeeps<K, V>(acc: map<K, V>, es: seq<Option<(K, V)>>, key: K)
    requires key in acc
    ensures key in SetDefaultAll(acc, es) && SetDefaultAll(acc, es)[key] == acc[key]
    decreases |es|
  {
    if es != [] {
      SetDefaultKeeps(acc, es[..|es| - 1], key);
    }
  }

  /** A key that no entry sets keeps whatever the starting map held for it. */
  lemma {:induction false} AssignUnset<K, V>(acc: map<K, V>, es: seq<Option<(K, V)>>, key: K)
    requires forall i :: 0 <= i < |es| ==> !Sets(es[i], key)
    ensures key in AssignAll(acc, es) <==> key in acc
    ensures key in acc ==> AssignAll(acc, es)[key] == acc[key]
    decreases |es|
  {
    if es != [] {
      AssignUnset(acc, es[..|es| - 1], key);
    }
  }

  /** The last entry for a key decides it, whatever the starting map held. */
  lemma AssignLastAt<K, V>(acc: map<K, V>, es: seq<Option<(K, V)>>, i: nat, key: K)
    requires i < |es| && Sets(es[i], key)
    requires forall j :: i < j < |es| ==> !Sets(es[j], key)
    ensures key in AssignAll(acc, es) && AssignAll(acc, es)[key] == es[i].value.1
  {
    var pre := es[..i + 1];
    var post := es[i + 1..];
    assert es == pre + post;
    AssignConcat(acc, pre, post);
    assert pre[..i] == es[..i];
    AssignUnset(AssignAll(acc, pre), post, key);
  }

  /** The candidates of a run of items: those of each item in turn. */
  function FlatMap<A, B>(f: A -> seq<B>, xs: seq<A>): seq<B>
    decreases |xs|
  {
    if xs == [] then [] else FlatMap(f, xs[..|xs| - 1]) + f(xs[|xs| - 1])
  }

  lemma {:induction false} FlatMapConcat<A, B>(f: A -> seq<B>, a: seq<A>, b: seq<A>)
    ensures FlatMap(f, a + b) == FlatMap(f, a) + FlatMap(f, b)
    decreases |b|
  {
    if b == [] {
      assert a + b == a;
    } else {
      assert (a + b)[..|a + b| - 1] == a + b[..|b| - 1];
      FlatMapConcat(f, a, b[..|b| - 1]);
    }
  }

  /** The candidates of the items before item `l`, of item `l`, and of the items after it. */
  lemma FlatMapSplit<A, B>(f: A -> seq<B>, xs: seq<A>, l: nat)
    requires l < |xs|
    ensures FlatMap(f, xs) == FlatMap(f, xs[..l]) + f(xs[l]) + FlatMap(f, xs[l + 1..])
  {
    var pre, single, post := xs[..l], [xs[l]], xs[l + 1..];
    SplitAround(xs, l);
    FlatMapConcat(f, pre + single, post);
    FlatMapConcat(f, pre, single);
    FlatMapSingle(f, xs[l]);
    assert FlatMap(f, pre + single) == FlatMap(f, pre) + f(xs[l]);
  }

  lemma SplitAround<T>(xs: seq<T>, l: nat)
    requires l < |xs|
    ensures xs == xs[..l] + [xs[l]] + xs[l + 1..]
  {
  }

  lemma FlatMapSingle<A, B>(f: A -> seq<B>, x: A)
    ensures FlatMap(f, [x]) == f(x)
  {
    assert [x][..0] == [];
  }
}
