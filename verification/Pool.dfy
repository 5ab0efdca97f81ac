/** The session pool's round robin, over members whose connectivity changes between picks. */
module Pool {

  /** Which members are connected at the time of a pick. */
  type Connectivity = seq<bool>

  function Wrap(x: nat, n: nat): (r: nat)
    requires n > 0
    ensures r < n
  {
    x % n
  }

  lemma WrapOnce(x: nat, n: nat)
    requires n > 0 && x < n + n
    ensures Wrap(x, n) == if x < n then x else x - n
  {
    var q, r := x / n, x % n;
    assert x == n * q + r;
    MultipleAtLeast(n, q, 1);
    MultipleAtLeast(n, q, 2);
    assert q == 0 ==> n * q == 0;
  }

  lemma MultipleAtLeast(n: nat, q: nat, least: nat)
    ensures q >= least ==> n * q >= n * least
  {
    if q >= least {
      assert n * q == n * least + n * (q - least);
    }
  }

  /** The position `d` places after the cursor, going round. */
  function At(rr: nat, d: nat, n: nat): nat
    requires n > 0
  {
    Wrap(rr + d, n)
  }

  /** How many places after the cursor a member is. */
  function Distance(rr: nat, m: nat, n: nat): nat
    requires rr < n && m < n
  {
    if rr <= m then m - rr else m + n - rr
  }

  lemma DistanceAt(rr: nat, d: nat, m: nat, n: nat)
    requires rr < n && m < n && d < n
    ensures At(rr, d, n) < n
    ensures At(rr, d, n) == m <==> d == Distance(rr, m, n)
  {
    hide Wrap;
    WrapOnce(rr + d, n);
  }

  /** The number of places to the first connected member from the i-th place on; the size if there is none. */
  function PlacesToConnected(up: Connectivity, rr: nat, i: nat): (d: nat)
    requires rr < |up| && i <= |up|
    ensures i <= d <= |up|
    ensures d < |up| ==> up[At(rr, d, |up|)]
    ensures forall e :: i <= e < d ==> !up[At(rr, e, |up|)]
    decreases |up| - i
  {
    if i == |up| || up[At(rr, i, |up|)] then i else PlacesToConnected(up, rr, i + 1)
  }

  function Picked(up: Connectivity, rr: nat): (m: nat)
    requires rr < |up|
    ensures m < |up|
  {
    var d := PlacesToConnected(up, rr, 0);
    if d < |up| then At(rr, d, |up|) else 0
  }

  function Cursor(up: Connectivity, rr: nat): (r: nat)
    requires rr < |up|
    ensures r < |up|
  {
    var d := PlacesToConnected(up, rr, 0);
    if d < |up| then Wrap(At(rr, d, |up|) + 1, |up|) else rr
  }

  // ----- the pool

  class PooledClientManager {
    const size: nat
    var rr: nat

    ghost predicate Valid()
      reads this
    {
      rr < size
    }

    constructor (poolSize: nat)
      ensures Valid() && size >= 2 && size >= poolSize && rr == 0
    {
      size := if poolSize < 2 then 2 else poolSize;
      rr := 0;
    }

    method PickMember(up: Connectivity) returns (m: nat)
      requires Valid() && |up| == size
      modifies this
      ensures Valid() && m == Picked(up, old(rr)) && rr == Cursor(up, old(rr))
    {
      for i := 0 to |up|
        invariant rr == old(rr)
        invariant PlacesToConnected(up, rr, 0) == PlacesToConnected(up, rr, i)
      {
        var idx := (rr + i) % |up|;
        assert idx == At(rr, i, |up|);
        if up[idx] {
          rr := (idx + 1) % |up|;
          return idx;
        }
      }
      m := 0;
    }
  }

  // ----- one pick

  /** A disconnected member is given out only when no member is connected, and then it is the first. */
  lemma DisconnectedOnlyWhenNone(up: Connectivity, rr: nat)
    requires rr < |up| && !up[Picked(up, rr)]
    ensures Picked(up, rr) == 0 && Cursor(up, rr) == rr
    ensures forall m :: 0 <= m < |up| ==> !up[m]
  {
    forall m | 0 <= m < |up|
      ensures !up[m]
    {
      var d := Distance(rr, m, |up|);
      DistanceAt(rr, d, m, |up|);
      assert !up[At(rr, d, |up|)];
    }
  }

  /** A pick either gives out a connected member or moves the cursor closer to it. */
  lemma PickedOrCloser(up: Connectivity, rr: nat, m: nat)
    requires rr < |up| && m < |up| && up[m]
    ensures Picked(up, rr) == m || Distance(Cursor(up, rr), m, |up|) < Distance(rr, m, |up|)
  {
    hide Wrap;
    var n, d, own := |up|, PlacesToConnected(up, rr, 0), Distance(rr, m, |up|);
    DistanceAt(rr, own, m, n);
    assert d <= own;
    DistanceAt(rr, d, m, n);
    if d < own {
      WrapOnce(rr + d, n);
      WrapOnce(At(rr, d, n) + 1, n);
    }
  }

  // ----- runs

  /** The members given out by one pick after the other, each under its own connectivity. */
  function Picks(ups: seq<Connectivity>, rr: nat, n: nat): (ms: seq<nat>)
    requires rr < n && forall up :: up in ups ==> |up| == n
    ensures |ms| == |ups|
    decreases |ups|
  {
    if ups == [] then [] else [Picked(ups[0], rr)] + Picks(ups[1..], Cursor(ups[0], rr), n)
  }

  /** Starvation bound: a member that stays connected is picked by the time the cursor could have gone round. */
  lemma {:induction false} PickedWithinDistance(ups: seq<Connectivity>, rr: nat, n: nat, m: nat)
    requires rr < n && (forall up :: up in ups ==> |up| == n) && m < n
    requires forall up :: up in ups ==> up[m]
    requires |ups| > Distance(rr, m, n)
    ensures exists k :: 0 <= k <= Distance(rr, m, n) && Picks(ups, rr, n)[k] == m
    decreases |ups|
  {
    var up, ms := ups[0], Picks(ups, rr, n);
    assert up in ups;
    if Picked(up, rr) == m {
      assert ms[0] == m;
    } else {
      PickedOrCloser(up, rr, m);
      var later := Picks(ups[1..], Cursor(up, rr), n);
      PickedWithinDistance(ups[1..], Cursor(up, rr), n, m);
      var k :| 0 <= k <= Distance(Cursor(up, rr), m, n) && later[k] == m;
      assert ms[k + 1] == m;
    }
  }

  /** In any N picks, every member that stays connected is picked, whatever happens to the others. */
  lemma NoStarvation(ups: seq<Connectivity>, rr: nat, n: nat, m: nat)
    requires rr < n && (forall up :: up in ups ==> |up| == n) && m < n
    requires (forall up :: up in ups ==> up[m]) && |ups| >= n
    ensures m in Picks(ups, rr, n)[..n]
  {
    PickedWithinDistance(ups, rr, n, m);
    var k :| 0 <= k <= Distance(rr, m, n) && Picks(ups, rr, n)[k] == m;
    assert Picks(ups, rr, n)[..n][k] == m;
  }

  function Times(ms: seq<nat>, m: nat): nat {
    multiset(ms)[m]
  }

  lemma TimesOfCons(first: nat, later: seq<nat>, m: nat)
    ensures Times([first] + later, m) == Times(later, m) + if first == m then 1 else 0
  {
    assert multiset([first] + later) == multiset{first} + multiset(later);
  }

  /** With its own position connected, the pick is the member under the cursor. */
  lemma PickedUnderCursor(up: Connectivity, rr: nat)
    requires rr < |up| && up[rr]
    ensures Picked(up, rr) == rr && Cursor(up, rr) == if rr + 1 < |up| then rr + 1 else 0
  {
    hide Wrap;
    WrapOnce(rr, |up|);
    WrapOnce(rr + 1, |up|);
  }

  ghost predicate AllConnected(ups: seq<Connectivity>) {
    forall up, m :: up in ups && 0 <= m < |up| ==> up[m]
  }

  /** Those nearer the cursor have been picked as often as those further away, or once more. */
  lemma {:induction false} NearerFirst(ups: seq<Connectivity>, rr: nat, n: nat, a: nat, b: nat)
    requires rr < n && (forall up :: up in ups ==> |up| == n) && AllConnected(ups)
    requires a < n && b < n && Distance(rr, a, n) <= Distance(rr, b, n)
    ensures Times(Picks(ups, rr, n), b) <= Times(Picks(ups, rr, n), a) <= Times(Picks(ups, rr, n), b) + 1
    decreases |ups|
  {
    hide Wrap, Times, Picked, Cursor;
    if ups != [] {
      var up := ups[0];
      assert up in ups && up[rr];
      PickedUnderCursor(up, rr);
      var next := Cursor(up, rr);
      var later := Picks(ups[1..], next, n);
      TimesOfCons(rr, later, a);
      TimesOfCons(rr, later, b);
      if a == rr && b != rr {
        NearerFirst(ups[1..], next, n, b, a);
      } else {
        NearerFirst(ups[1..], next, n, a, b);
      }
    } else {
      NoPicks(a, b);
    }
  }

  lemma NoPicks(a: nat, b: nat)
    ensures Times([], a) == 0 == Times([], b)
  {
  }

  /** Fairness: with all members connected, over any run no member is picked twice more than another. */
  lemma Fair(ups: seq<Connectivity>, rr: nat, n: nat, a: nat, b: nat)
    requires rr < n && (forall up :: up in ups ==> |up| == n) && AllConnected(ups) && a < n && b < n
    ensures Times(Picks(ups, rr, n), a) <= Times(Picks(ups, rr, n), b) + 1
  {
    if Distance(rr, a, n) <= Distance(rr, b, n) {
      NearerFirst(ups, rr, n, a, b);
    } else {
      NearerFirst(ups, rr, n, b, a);
    }
  }
}
