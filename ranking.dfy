/** Ordering the normalised routes by duration and naming them `route1` ...
    `routeN` (main.py, lines 93-97). */
module Ranking {
  import opened Itinerary
  import Decimal

  predicate SortedByDuration(s: seq<Route>) {
    forall i, j :: 0 <= i < j < |s| ==> s[i].duration <= s[j].duration
  }

  /** The routes of `s` with duration `d`, in their order in `s`. */
  function WithDuration(s: seq<Route>, d: int): seq<Route>
  {
    if s == [] then [] else (if s[0].duration == d then [s[0]] else []) + WithDuration(s[1..], d)
  }

  /** Places `r` in front of the first route of `sorted` that is not shorter,
      so that `r` stays ahead of the routes it ties with. */
  function Insert(r: Route, sorted: seq<Route>): seq<Route>
  {
    if sorted == [] || r.duration <= sorted[0].duration then [r] + sorted
    else [sorted[0]] + Insert(r, sorted[1..])
  }

  /** `sorted(routes, key=lambda x: x['duration'])`: a stable sort, here an
      insertion sort; SortByDurationUnique shows that every stable sort gives
      this same sequence. */
  function SortByDuration(routes: seq<Route>): seq<Route>
  {
    if routes == [] then [] else Insert(routes[0], SortByDuration(routes[1..]))
  }

  lemma {:induction false} WithDurationConcat(a: seq<Route>, b: seq<Route>, d: int)
    ensures WithDuration(a + b, d) == WithDuration(a, d) + WithDuration(b, d)
  {
    if a != [] {
      var head := if a[0].duration == d then [a[0]] else [];
      assert (a + b)[0] == a[0] && (a + b)[1..] == a[1..] + b;
      calc {
        WithDuration(a + b, d);
        head + WithDuration(a[1..] + b, d);
        { WithDurationConcat(a[1..], b, d); }
        head + (WithDuration(a[1..], d) + WithDuration(b, d));
        (head + WithDuration(a[1..], d)) + WithDuration(b, d);
      }
    } else {
      assert a + b == b;
    }
  }

  lemma {:induction false} WithDurationMembers(s: seq<Route>, d: int)
    ensures forall r :: r in WithDuration(s, d) ==> r in s && r.duration == d
  {
    if s != [] {
      WithDurationMembers(s[1..], d);
    }
  }

  lemma {:induction false} InsertMultiset(r: Route, s: seq<Route>)
    ensures multiset(Insert(r, s)) == multiset(s) + multiset{r}
  {
    if s != [] && r.duration > s[0].duration {
      InsertMultiset(r, s[1..]);
      assert s == [s[0]] + s[1..];
    }
  }

  /** Inserting a route no shorter than `low` among routes no shorter than
      `low` leaves every route no shorter than `low`. */
  lemma {:induction false} InsertLowerBound(r: Route, s: seq<Route>, low: int)
    requires low <= r.duration && forall i :: 0 <= i < |s| ==> low <= s[i].duration
    ensures |Insert(r, s)| == |s| + 1
    ensures forall i :: 0 <= i < |Insert(r, s)| ==> low <= Insert(r, s)[i].duration
  {
    if s != [] && r.duration > s[0].duration {
      InsertLowerBound(r, s[1..], low);
    }
  }

  lemma {:induction false} InsertSorted(r: Route, s: seq<Route>)
    requires SortedByDuration(s)
    ensures SortedByDuration(Insert(r, s))
  {
    if s == [] || r.duration <= s[0].duration {
      assert Insert(r, s) == [r] + s;
    } else {
      var tail := Insert(r, s[1..]);
      InsertSorted(r, s[1..]);
      InsertLowerBound(r, s[1..], s[0].duration);
      var res := [s[0]] + tail;
      assert res == Insert(r, s);
      forall i, j | 0 <= i < j < |res| ensures res[i].duration <= res[j].duration {
        assert res[j] == tail[j - 1];
        if i > 0 {
          assert res[i] == tail[i - 1];
        }
      }
    }
  }

  lemma {:induction false} InsertStable(r: Route, s: seq<Route>, d: int)
    ensures WithDuration(Insert(r, s), d) == (if r.duration == d then [r] else []) + WithDuration(s, d)
  {
    if s == [] || r.duration <= s[0].duration {
      WithDurationConcat([r], s, d);
    } else {
      InsertStable(r, s[1..], d);
      WithDurationConcat([s[0]], Insert(r, s[1..]), d);
      WithDurationConcat([s[0]], s[1..], d);
      assert s == [s[0]] + s[1..];
    }
  }

  /** The sorted routes are non-decreasing in duration, a permutation of the
      input, and routes of equal duration keep their input order. */
  lemma {:induction false} SortByDurationCorrect(routes: seq<Route>)
    ensures SortedByDuration(SortByDuration(routes))
    ensures multiset(SortByDuration(routes)) == multiset(routes)
    ensures forall d :: WithDuration(SortByDuration(routes), d) == WithDuration(routes, d)
  {
    if routes != [] {
      SortByDurationCorrect(routes[1..]);
      InsertSorted(routes[0], SortByDuration(routes[1..]));
      InsertMultiset(routes[0], SortByDuration(routes[1..]));
      assert routes == [routes[0]] + routes[1..];
      forall d ensures WithDuration(SortByDuration(routes), d) == WithDuration(routes, d) {
        InsertStable(routes[0], SortByDuration(routes[1..]), d);
      }
    }
  }

  lemma NonEmptyClass(s: seq<Route>)
    ensures s != [] ==> WithDuration(s, s[0].duration) != []
  {
  }

  /** Every route of `s` with duration `d` appears in WithDuration(s, d). */
  lemma {:induction false} WithDurationComplete(s: seq<Route>, d: int, i: nat)
    requires i < |s| && s[i].duration == d
    ensures s[i] in WithDuration(s, d)
  {
    if i > 0 {
      WithDurationComplete(s[1..], d, i - 1);
    }
  }

  /** The `m`-th route of duration `d` sits at some position `p` of `s`, and
      the routes of that duration before `p` are the first `m` of the class. */
  lemma {:induction false} WithDurationPosition(s: seq<Route>, d: int, m: nat) returns (p: nat)
    requires m < |WithDuration(s, d)|
    ensures p < |s| && s[p] == WithDuration(s, d)[m] && s[p].duration == d
    ensures WithDuration(s[..p], d) == WithDuration(s, d)[..m]
  {
    var head := if s[0].duration == d then [s[0]] else [];
    if s[0].duration == d && m == 0 {
      p := 0;
    } else {
      var q := WithDurationPosition(s[1..], d, m - |head|);
      p := q + 1;
      assert s[..p][0] == s[0] && s[..p][1..] == s[1..][..q];
    }
  }

  /** In a duration-sorted sequence `s[k]` is the route of its duration that
      comes after exactly the ones in front of it in `s`. */
  lemma SortedClassIndex(s: seq<Route>, k: nat)
    requires k < |s|
    ensures var m := |WithDuration(s[..k], s[k].duration)|;
      && m < |WithDuration(s, s[k].duration)|
      && WithDuration(s, s[k].duration)[m] == s[k]
      && WithDuration(s, s[k].duration)[..m] == WithDuration(s[..k], s[k].duration)
  {
    var d := s[k].duration;
    assert s == s[..k] + s[k..];
    WithDurationConcat(s[..k], s[k..], d);
    assert WithDuration(s[k..], d) == [s[k]] + WithDuration(s[k + 1..], d) by {
      assert s[k..][0] == s[k] && s[k..][1..] == s[k + 1..];
    }
  }

  /** Two duration-sorted sequences that agree on the routes of every duration
      are the same sequence. */
  lemma {:induction false} SortedWithSameClassesEqual(t: seq<Route>, u: seq<Route>)
    requires SortedByDuration(t) && SortedByDuration(u)
    requires forall d :: WithDuration(t, d) == WithDuration(u, d)
    ensures t == u
    decreases |t|
  {
    if t == [] || u == [] {
      NonEmptyClass(t);
      NonEmptyClass(u);
    } else {
      var a, b := t[0].duration, u[0].duration;
      WithDurationMembers(t, b);
      WithDurationMembers(u, a);
      var x := WithDuration(u, a)[0];
      var y := WithDuration(t, b)[0];
      assert x in u && y in t;
      assert b <= a && a <= b;
      assert t[0] == WithDuration(t, a)[0] == WithDuration(u, a)[0] == u[0];
      forall d ensures WithDuration(t[1..], d) == WithDuration(u[1..], d) {
        var head := if a == d then [t[0]] else [];
        assert WithDuration(t, d) == head + WithDuration(t[1..], d);
        assert WithDuration(u, d) == head + WithDuration(u[1..], d);
        assert WithDuration(t[1..], d) == WithDuration(t, d)[|head|..];
      }
      SortedWithSameClassesEqual(t[1..], u[1..]);
      assert t == [t[0]] + t[1..] && u == [u[0]] + u[1..];
    }
  }

  /** Any sequence that is sorted by duration and keeps the input order of
      equal durations is SortByDuration of the input: the model's sort agrees
      with Python's stable `sorted`. */
  lemma SortByDurationUnique(routes: seq<Route>, t: seq<Route>)
    requires SortedByDuration(t)
    requires forall d :: WithDuration(t, d) == WithDuration(routes, d)
    ensures t == SortByDuration(routes)
  {
    SortByDurationCorrect(routes);
    SortedWithSameClassesEqual(t, SortByDuration(routes));
  }

  // ----------------------------------------------------------------- keys

  /** An item of `sorted_route_info`. */
  datatype Entry = Entry(key: string, route: Route)

  /** `f"route{index + 1}"`. */
  function RouteKey(index: nat): string
  {
    "route" + Decimal.NatToString(index + 1)
  }

  /** The OrderedDict built from the sorted routes, as its items in order. */
  function Rekey(routes: seq<Route>): seq<Entry>
  {
    seq(|routes|, i requires 0 <= i < |routes| => Entry(RouteKey(i), routes[i]))
  }

  lemma RouteKeysDistinct(i: nat, j: nat)
    requires i != j
    ensures RouteKey(i) != RouteKey(j)
  {
    var digitsI, digitsJ := Decimal.NatToString(i + 1), Decimal.NatToString(j + 1);
    assert RouteKey(i)[5..] == digitsI && RouteKey(j)[5..] == digitsJ;
    assert Decimal.DigitsValue(digitsI) != Decimal.DigitsValue(digitsJ);
  }

  /** The keys are `route1` ... `routeN` in the sorted order and pairwise
      distinct, so the OrderedDict keeps every route. */
  lemma RekeyCorrect(routes: seq<Route>)
    ensures |Rekey(routes)| == |routes|
    ensures forall i :: 0 <= i < |routes| ==>
      Rekey(routes)[i].route == routes[i] && Rekey(routes)[i].key == "route" + Decimal.NatToString(i + 1)
    ensures forall i, j :: 0 <= i < j < |routes| ==> Rekey(routes)[i].key != Rekey(routes)[j].key
  {
    forall i, j | 0 <= i < j < |routes| ensures Rekey(routes)[i].key != Rekey(routes)[j].key {
      RouteKeysDistinct(i, j);
    }
  }
}
