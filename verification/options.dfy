/** Optional values: an unmatched capture group, a missing primary key. */
module Options {
  datatype Option<T> = None | Some(value: T)

  /** The values held by the `Some` entries of `xs`, in order. */
  function Somes<T>(xs: seq<Option<T>>): (ys: seq<T>)
    ensures |ys| <= |xs|
    decreases |xs|
  {
    if xs == [] then []
    else
      var last := xs[|xs| - 1];
      Somes(xs[..|xs| - 1]) + (if last.Some? then [last.value] else [])
  }

  /** Extending a prefix by one entry extends its values by that entry's value, if any. */
  lemma SomesSnoc<T>(xs: seq<Option<T>>, i: nat, j: nat)
    requires j == i + 1 && j <= |xs|
    ensures Somes(xs[..j]) == Somes(xs[..i]) + (if xs[i].Some? then [xs[i].value] else [])
  {
    assert xs[..j][..i] == xs[..i];
  }

  /**
    Every value of `Somes(xs)` comes from its own entry, in order, and every
    `Some` entry contributes: `origin[k]` is the position of the `k`-th value.
  */
  lemma {:induction false} SomesOrigins<T>(xs: seq<Option<T>>) returns (origin: seq<nat>)
    ensures |origin| == |Somes(xs)|
    ensures forall k :: 0 <= k < |origin| ==> origin[k] < |xs| && xs[origin[k]] == Some(Somes(xs)[k])
    ensures forall k, l :: 0 <= k < l < |origin| ==> origin[k] < origin[l]
    ensures forall j :: 0 <= j < |xs| && xs[j].Some? ==> j in origin
    decreases |xs|
  {
    if xs == [] {
      origin := [];
    } else {
      var n := |xs| - 1;
      var init := xs[..n];
      var before := SomesOrigins(init);
      var tail := if xs[n].Some? then [n] else [];
      origin := before + tail;
      assert Somes(xs) == Somes(init) + (if xs[n].Some? then [xs[n].value] else []);
      forall k | 0 <= k < |origin|
        ensures origin[k] < |xs| && xs[origin[k]] == Some(Somes(xs)[k])
      {
        if k < |before| {
          assert origin[k] == before[k] && xs[before[k]] == init[before[k]];
        }
      }
      forall j | 0 <= j < |xs| && xs[j].Some?
        ensures j in origin
      {
        if j < n {
          assert init[j] == xs[j];
          assert j in before;
        } else {
          assert origin[|origin| - 1] == n;
        }
      }
    }
  }

  /**
    The first present entry of `xs` from index `p` on: how a leftmost-match
    search reports the attempt at each position in turn.
  */
  function FirstSome<T>(xs: seq<Option<T>>, p: nat): (r: Option<T>)
    requires p <= |xs|
    ensures r.None? <==> forall q :: p <= q < |xs| ==> xs[q].None?
    ensures r.Some? ==> r in xs[p..]
    decreases |xs| - p
  {
    if p == |xs| then None
    else if xs[p].Some? then xs[p]
    else FirstSome(xs, p + 1)
  }

  /** The entry reported is the leftmost present one. */
  lemma {:induction false} FirstSomePosition<T>(xs: seq<Option<T>>, p: nat) returns (q: nat)
    requires p <= |xs| && FirstSome(xs, p).Some?
    ensures p <= q < |xs| && xs[q] == FirstSome(xs, p)
    ensures forall q' :: p <= q' < q ==> xs[q'].None?
    decreases |xs| - p
  {
    if xs[p].Some? {
      q := p;
    } else {
      q := FirstSomePosition(xs, p + 1);
    }
  }
}
