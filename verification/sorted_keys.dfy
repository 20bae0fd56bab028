/** The ascending key list `sorted(hist.keys())` of a histogram. */
module SortedKeys {

  /** `sorted(hist.keys())` is strictly ascending. */
  predicate StrictlyAscending(xs: seq<int>)
  {
    forall i, j | 0 <= i < j < |xs| :: xs[i] < xs[j]
  }

  /** A set without members is empty. */
  lemma EmptyIfNoMember(keys: set<int>)
    ensures (forall m :: m !in keys) ==> keys == {}
  {
    if forall m :: m !in keys {
      assert keys == {};
    }
  }

  /** A finite non-empty set of integers has a least element. */
  lemma {:induction false} MinExists(keys: set<int>)
    requires keys != {}
    ensures exists m | m in keys :: forall k | k in keys :: m <= k
    decreases |keys|
  {
    EmptyIfNoMember(keys);
    var x :| x in keys;
    var rest := keys - {x};
    var least := x;
    if rest != {} {
      MinExists(rest);
      var m :| m in rest && forall k | k in rest :: m <= k;
      least := if x < m then x else m;
    }
    forall k | k in keys ensures least <= k {
      if k != x {
        assert k in rest;
      }
    }
    assert least in keys;
  }

  /** The elements of a finite set of integers in ascending order. */
  function Sorted(keys: set<int>): (xs: seq<int>)
    ensures StrictlyAscending(xs)
    ensures |xs| == |keys|
    ensures forall k :: k in xs <==> k in keys
    decreases |keys|
  {
    if keys == {} then []
    else
      MinExists(keys);
      var m :| m in keys && forall k | k in keys :: m <= k;
      var rest := Sorted(keys - {m});
      PrependLeast(keys, m, rest);
      [m] + rest
  }

  /** The least key followed by the others in ascending order lists every key in
      ascending order. */
  lemma PrependLeast(keys: set<int>, m: int, rest: seq<int>)
    requires m in keys && forall k | k in keys :: m <= k
    requires StrictlyAscending(rest)
    requires |rest| == |keys - {m}|
    requires forall k :: k in rest <==> k in keys - {m}
    ensures StrictlyAscending([m] + rest)
    ensures |[m] + rest| == |keys|
    ensures forall k :: k in [m] + rest <==> k in keys
  {
    var xs := [m] + rest;
    forall i, j | 0 <= i < j < |xs| ensures xs[i] < xs[j] {
      assert xs[j] == rest[j - 1];
      assert rest[j - 1] in rest;
      if i > 0 {
        assert xs[i] == rest[i - 1];
      }
    }
    assert |keys - {m}| == |keys| - 1;
  }
}
