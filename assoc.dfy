/**
 * Building a map from a sequence of key/value pairs, as Rust's
 * `collect::<HashMap<_, _>>()` and JavaScript's `Object.fromEntries` do: pairs
 * are inserted in order, so for a repeated key the later pair wins.
 */
module Assoc {
  import opened Wrappers

  /** Insert the pairs in order into an empty map. */
  function Collect<K(==), V>(ps: seq<(K, V)>): map<K, V>
  {
    if |ps| == 0 then map[] else Collect(ps[..|ps| - 1])[ps[|ps| - 1].0 := ps[|ps| - 1].1]
  }

  /** `filter_map`: keep the values `f` produces, in order. */
  function FilterMap<X, Y>(xs: seq<X>, f: X -> Option<Y>): seq<Y>
  {
    if |xs| == 0 then []
    else FilterMap(xs[..|xs| - 1], f) + (if f(xs[|xs| - 1]).Some? then [f(xs[|xs| - 1]).value] else [])
  }

  /** `o` is a pair with key `k`. */
  predicate Keyed<K(==), V>(o: Option<(K, V)>, k: K)
  {
    o.Some? && o.value.0 == k
  }

  /**
   * The map collected from `filter_map`: a key is present exactly when some
   * element produces a pair with it, and its value is that of the last such element.
   */
  lemma {:induction false} CollectFilterMap<X, K, V>(xs: seq<X>, f: X -> Option<(K, V)>, k: K)
    ensures k in Collect(FilterMap(xs, f)) <==> exists i :: 0 <= i < |xs| && Keyed(f(xs[i]), k)
    ensures k in Collect(FilterMap(xs, f)) ==>
      exists i :: 0 <= i < |xs| && Keyed(f(xs[i]), k) && Collect(FilterMap(xs, f))[k] == f(xs[i]).value.1
        && forall j :: i < j < |xs| ==> !Keyed(f(xs[j]), k)
    decreases |xs|
  {
    if |xs| > 0 {
      var init, last := xs[..|xs| - 1], xs[|xs| - 1];
      CollectFilterMap(init, f, k);
      var ps := FilterMap(xs, f);
      if Keyed(f(last), k) {
        assert ps == FilterMap(init, f) + [f(last).value];
        assert ps[..|ps| - 1] == FilterMap(init, f);
        assert Collect(ps)[k] == f(xs[|xs| - 1]).value.1;
      } else {
        if f(last).Some? {
          assert ps == FilterMap(init, f) + [f(last).value];
          assert ps[..|ps| - 1] == FilterMap(init, f);
        } else {
          assert ps == FilterMap(init, f);
        }
        assert k in Collect(ps) <==> k in Collect(FilterMap(init, f));
        if k in Collect(ps) {
          var i :| 0 <= i < |init| && Keyed(f(init[i]), k) && Collect(FilterMap(init, f))[k] == f(init[i]).value.1
            && forall j :: i < j < |init| ==> !Keyed(f(init[j]), k);
          assert xs[i] == init[i];
          assert forall j :: i < j < |xs| ==> !Keyed(f(xs[j]), k) by {
            forall j | i < j < |xs| ensures !Keyed(f(xs[j]), k) {
              if j < |init| {
                assert xs[j] == init[j];
              }
            }
          }
        }
        assert (exists i :: 0 <= i < |xs| && Keyed(f(xs[i]), k)) ==> exists i :: 0 <= i < |init| && Keyed(f(init[i]), k) by {
          if exists i :: 0 <= i < |xs| && Keyed(f(xs[i]), k) {
            var i :| 0 <= i < |xs| && Keyed(f(xs[i]), k);
            assert i < |init| && xs[i] == init[i];
          }
        }
      }
    }
  }

  /** The keys inserted by pairs after everything in `a`: `b`'s win over `a`'s. */
  lemma {:induction false} CollectConcat<K, V>(a: seq<(K, V)>, b: seq<(K, V)>)
    ensures Collect(a + b).Keys == Collect(a).Keys + Collect(b).Keys
    ensures forall k :: k in Collect(a + b) ==>
      Collect(a + b)[k] == if k in Collect(b) then Collect(b)[k] else Collect(a)[k]
    decreases |b|
  {
    if |b| == 0 {
      assert a + b == a;
    } else {
      var init := b[..|b| - 1];
      assert (a + b)[..|a + b| - 1] == a + init;
      CollectConcat(a, init);
    }
  }

  /** `filter_map` works element by element: it maps a concatenation to a concatenation. */
  lemma {:induction false} FilterMapConcat<X, Y>(a: seq<X>, b: seq<X>, f: X -> Option<Y>)
    ensures FilterMap(a + b, f) == FilterMap(a, f) + FilterMap(b, f)
    decreases |b|
  {
    if |b| == 0 {
      assert a + b == a;
    } else {
      assert (a + b)[..|a + b| - 1] == a + b[..|b| - 1];
      FilterMapConcat(a, b[..|b| - 1], f);
    }
  }

  /** At most one value per element is kept, exactly one each when `f` never fails. */
  lemma {:induction false} FilterMapCount<X, Y>(xs: seq<X>, f: X -> Option<Y>)
    ensures |FilterMap(xs, f)| <= |xs|
    ensures |FilterMap(xs, f)| == |xs| <==> forall i :: 0 <= i < |xs| ==> f(xs[i]).Some?
    decreases |xs|
  {
    if |xs| > 0 {
      var init := xs[..|xs| - 1];
      FilterMapCount(init, f);
      assert forall i :: 0 <= i < |init| ==> init[i] == xs[i];
      if f(xs[|xs| - 1]).Some? && forall i :: 0 <= i < |init| ==> f(init[i]).Some? {
        assert forall i :: 0 <= i < |xs| ==> f(xs[i]).Some? by {
          forall i | 0 <= i < |xs| ensures f(xs[i]).Some? {
            if i < |init| {
              assert f(init[i]).Some?;
            }
          }
        }
      }
    }
  }

  /** Nothing is invented: every value kept is produced by some element, and every value produced is kept. */
  lemma {:induction false} FilterMapMembers<X, Y>(xs: seq<X>, f: X -> Option<Y>, y: Y)
    ensures y in FilterMap(xs, f) <==> exists i :: 0 <= i < |xs| && f(xs[i]) == Some(y)
    decreases |xs|
  {
    if |xs| > 0 {
      var init := xs[..|xs| - 1];
      FilterMapMembers(init, f, y);
      if y in FilterMap(init, f) {
        var i :| 0 <= i < |init| && f(init[i]) == Some(y);
        assert xs[i] == init[i];
      } else if f(xs[|xs| - 1]) != Some(y) {
        if exists i :: 0 <= i < |xs| && f(xs[i]) == Some(y) {
          var i :| 0 <= i < |xs| && f(xs[i]) == Some(y);
          assert i < |init| && xs[i] == init[i];
        }
      }
    }
  }
}
