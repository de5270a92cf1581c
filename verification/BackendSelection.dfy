/**
 The order in which a request tries the backends of a pool: every backend once, healthy ones
 first, and over a full turn of the cursor each comes first as often as its weight says.
 */
module BackendSelection {
  import opened Text

  const MAX_WEIGHT: int := 10

  datatype Backend = Backend(url: Text, weight: Option<int>)
  datatype Rule = RoundRobin | Failover

  function WeightOf(b: Backend, rule: Rule): nat {
    if rule == Failover || b.weight.None? || b.weight.value < 1 then 1
    else if b.weight.value > MAX_WEIGHT then MAX_WEIGHT
    else b.weight.value
  }

  function Copies(b: Backend, n: nat): seq<Backend> { seq(n, i => b) }

  /** Each backend as often as its weight, in the pool's order. */
  function Expanded(pool: seq<Backend>, rule: Rule): seq<Backend> {
    if pool == [] then []
    else Expanded(pool[..|pool| - 1], rule) + Copies(pool[|pool| - 1], WeightOf(pool[|pool| - 1], rule))
  }

  function Rotated(list: seq<Backend>, rule: Rule, cursor: nat): seq<Backend> {
    if rule == Failover || list == [] then list else list[cursor % |list|..] + list[..cursor % |list|]
  }

  function Urls(list: seq<Backend>): set<Text> { set b | b in list :: b.url }

  // ----- what an order has to be

  predicate Distinct(list: seq<Backend>) { forall i, j :: 0 <= i < j < |list| ==> list[i].url != list[j].url }

  /** The first entry of each address with the wanted health, in the list's order. */
  function Picked(list: seq<Backend>, health: Text -> bool, wanted: bool): seq<Backend> {
    if list == [] then []
    else
      var n := |list| - 1;
      Picked(list[..n], health, wanted) +
      (if list[n].url !in Urls(list[..n]) && health(list[n].url) == wanted then [list[n]] else [])
  }

  function Order(pool: seq<Backend>, rule: Rule, cursor: nat, health: Text -> bool): seq<Backend> {
    var tried := Rotated(Expanded(pool, rule), rule, cursor);
    Picked(tried, health, true) + Picked(tried, health, false)
  }

  method SelectionOrder(pool: seq<Backend>, rule: Rule, cursor: nat, health: Text -> bool) returns (r: seq<Backend>)
    ensures r == Order(pool, rule, cursor, health)
    ensures Distinct(r) && Urls(r) == Urls(pool)
    ensures forall i, j :: 0 <= i < j < |r| && health(r[j].url) ==> health(r[i].url)
  {
    hide Order, Picked, Rotated, Expanded, Urls;
    var expanded := Expand(pool, rule);
    var healthy, unhealthy := Partition(Rotated(expanded, rule, cursor), health);
    r := healthy + unhealthy;
    OrderIsSound(pool, rule, cursor, health);
    OrderParts(pool, rule, cursor, health);
  }

  lemma OrderParts(pool: seq<Backend>, rule: Rule, cursor: nat, health: Text -> bool)
    ensures var tried := Rotated(Expanded(pool, rule), rule, cursor);
            Order(pool, rule, cursor, health) == Picked(tried, health, true) + Picked(tried, health, false)
  {
  }

  method Partition(tried: seq<Backend>, health: Text -> bool) returns (healthy: seq<Backend>, unhealthy: seq<Backend>)
    ensures healthy == Picked(tried, health, true) && unhealthy == Picked(tried, health, false)
  {
    var seen: set<Text> := {};
    healthy, unhealthy := [], [];
    for i := 0 to |tried|
      invariant seen == Urls(tried[..i])
      invariant healthy == Picked(tried[..i], health, true) && unhealthy == Picked(tried[..i], health, false)
    {
      hide Urls;
      UrlsNext(tried, i);
      assert tried[..i + 1][..i] == tried[..i];
      if tried[i].url in seen { continue; }
      seen := seen + {tried[i].url};
      if health(tried[i].url) { healthy := healthy + [tried[i]]; } else { unhealthy := unhealthy + [tried[i]]; }
    }
    assert tried[..|tried|] == tried;
  }

  method Expand(pool: seq<Backend>, rule: Rule) returns (r: seq<Backend>)
    ensures r == Expanded(pool, rule)
  {
    r := [];
    for k := 0 to |pool|
      invariant r == Expanded(pool[..k], rule)
    {
      assert pool[..k + 1][..k] == pool[..k];
      ghost var before := r;
      for i := 0 to WeightOf(pool[k], rule)
        invariant r == before + Copies(pool[k], i)
      {
        assert Copies(pool[k], i + 1) == Copies(pool[k], i) + [pool[k]];
        r := r + [pool[k]];
      }
    }
    assert pool[..|pool|] == pool;
  }

  lemma UrlsNext(list: seq<Backend>, i: nat)
    requires i < |list|
    ensures Urls(list[..i + 1]) == Urls(list[..i]) + {list[i].url}
  {
    assert list[..i + 1] == list[..i] + [list[i]];
    UrlsConcat(list[..i], [list[i]]);
    assert Urls([list[i]]) == {list[i].url};
  }

  lemma UrlsConcat(a: seq<Backend>, b: seq<Backend>)
    ensures Urls(a + b) == Urls(a) + Urls(b)
  {
    forall u | u in Urls(a) + Urls(b) ensures u in Urls(a + b) {
      if u in Urls(a) {
        var x :| x in a && x.url == u;
        assert x in a + b;
      } else {
        var x :| x in b && x.url == u;
        assert x in a + b;
      }
    }
  }

  lemma {:induction false} ExpandedUrls(pool: seq<Backend>, rule: Rule)
    ensures Urls(Expanded(pool, rule)) == Urls(pool)
  {
    if pool != [] {
      var n := |pool| - 1;
      var copies := Copies(pool[n], WeightOf(pool[n], rule));
      ExpandedUrls(pool[..n], rule);
      UrlsConcat(Expanded(pool[..n], rule), copies);
      assert copies[0] == pool[n];
      assert Urls(copies) == {pool[n].url};
      UrlsNext(pool, n);
      assert pool[..n + 1] == pool;
    }
  }

  lemma RotatedUrls(list: seq<Backend>, rule: Rule, cursor: nat)
    ensures Urls(Rotated(list, rule, cursor)) == Urls(list)
  {
    if rule == RoundRobin && list != [] {
      var k := cursor % |list|;
      UrlsConcat(list[k..], list[..k]);
      UrlsConcat(list[..k], list[k..]);
      assert list[..k] + list[k..] == list;
    }
  }

  /** What the picked entries are: one for each address of that health. */
  lemma {:induction false} PickedRight(list: seq<Backend>, health: Text -> bool, wanted: bool)
    ensures var p := Picked(list, health, wanted);
            Distinct(p) && (forall k :: 0 <= k < |p| ==> health(p[k].url) == wanted)
    ensures forall u :: u in Urls(Picked(list, health, wanted)) <==> u in Urls(list) && health(u) == wanted
  {
    if list != [] {
      var n := |list| - 1;
      var front := Picked(list[..n], health, wanted);
      PickedRight(list[..n], health, wanted);
      UrlsNext(list, n);
      assert list[..n + 1] == list;
      UrlsConcat(front, [list[n]]);
      assert Urls([list[n]]) == {list[n].url};
      forall k | 0 <= k < |front|
        ensures front[k].url in Urls(list[..n]) { assert front[k] in front; assert front[k].url in Urls(front); }
    }
  }

  lemma OrderIsSound(pool: seq<Backend>, rule: Rule, cursor: nat, health: Text -> bool)
    ensures var r := Order(pool, rule, cursor, health);
            && Distinct(r) && Urls(r) == Urls(pool)
            && (forall i, j :: 0 <= i < j < |r| && health(r[j].url) ==> health(r[i].url))
  {
    hide Picked, Expanded, Rotated;
    var tried := Rotated(Expanded(pool, rule), rule, cursor);
    ExpandedUrls(pool, rule);
    RotatedUrls(Expanded(pool, rule), rule, cursor);
    PickedRight(tried, health, true);
    PickedRight(tried, health, false);
    UrlsConcat(Picked(tried, health, true), Picked(tried, health, false));
  }

  // ----- fairness

  /** For how many of the n cursors after `from` the address is the first tried. */
  function TimesFirst(pool: seq<Backend>, health: Text -> bool, url: Text, from: nat, n: nat): nat {
    if n == 0 then 0
    else
      var order := Order(pool, RoundRobin, from + n - 1, health);
      TimesFirst(pool, health, url, from, n - 1) + (if order != [] && order[0].url == url then 1 else 0)
  }

  /** With every backend healthy the order begins where the rotation does. */
  lemma {:induction false} PickedHead(list: seq<Backend>, health: Text -> bool)
    requires list != [] && forall u :: u in Urls(list) ==> health(u)
    ensures Picked(list, health, true) != [] && Picked(list, health, true)[0] == list[0]
  {
    var n := |list| - 1;
    assert list[n].url in Urls(list);
    if n > 0 {
      PickedHead(list[..n], health);
    } else {
      assert list[..n] == [];
    }
  }

  function TotalWeight(pool: seq<Backend>, url: Text): nat {
    if pool == [] then 0
    else
      TotalWeight(pool[..|pool| - 1], url)
      + (if pool[|pool| - 1].url == url then WeightOf(pool[|pool| - 1], RoundRobin) else 0)
  }

  function Occurrences(list: seq<Backend>, url: Text): nat {
    if list == [] then 0 else Occurrences(list[..|list| - 1], url) + (if list[|list| - 1].url == url then 1 else 0)
  }

  lemma {:induction false} OccurrencesConcat(a: seq<Backend>, b: seq<Backend>, url: Text)
    ensures Occurrences(a + b, url) == Occurrences(a, url) + Occurrences(b, url)
  {
    if b == [] {
      assert a + b == a;
    } else {
      assert (a + b)[..|a + b| - 1] == a + b[..|b| - 1];
      OccurrencesConcat(a, b[..|b| - 1], url);
    }
  }

  lemma {:induction false} CopiesCount(b: Backend, n: nat, url: Text)
    ensures Occurrences(Copies(b, n), url) == if b.url == url then n else 0
  {
    if n > 0 {
      assert Copies(b, n)[..n - 1] == Copies(b, n - 1);
      CopiesCount(b, n - 1, url);
    }
  }

  lemma {:induction false} ExpandedCount(pool: seq<Backend>, url: Text)
    ensures Occurrences(Expanded(pool, RoundRobin), url) == TotalWeight(pool, url)
  {
    if pool != [] {
      var n := |pool| - 1;
      var w := WeightOf(pool[n], RoundRobin);
      ExpandedCount(pool[..n], url);
      OccurrencesConcat(Expanded(pool[..n], RoundRobin), Copies(pool[n], w), url);
      CopiesCount(pool[n], w, url);
    }
  }

  lemma FirstAt(list: seq<Backend>, cursor: nat)
    requires list != []
    ensures Rotated(list, RoundRobin, cursor) != []
            && Rotated(list, RoundRobin, cursor)[0] == list[cursor % |list|]
  {
  }

  /** The backends at n cursors in a row. */
  function Turn(list: seq<Backend>, from: nat, n: nat): seq<Backend>
    requires list != []
  {
    seq(n, i requires 0 <= i => list[(from + i) % |list|])
  }

  /** A full turn from anywhere is the list, rotated. */
  lemma FullTurn(list: seq<Backend>, from: nat)
    requires list != []
    ensures Turn(list, from, |list|) == list[from % |list|..] + list[..from % |list|]
  {
    var k, n := from % |list|, |list|;
    forall i | 0 <= i < n ensures Turn(list, from, n)[i] == list[if k + i < n then k + i else k + i - n] {
      assert from == from / n * n + k;
      Wraps(from / n, k, i, n);
    }
  }

  lemma Wraps(q: nat, k: nat, i: nat, n: nat)
    requires k < n && i < n
    ensures (q * n + k + i) % n == if k + i < n then k + i else k + i - n
  {
    if k + i < n {
      Remainder(q, k + i, n);
    } else {
      assert q * n + k + i == (q + 1) * n + (k + i - n);
      Remainder(q + 1, k + i - n, n);
    }
  }

  lemma Remainder(q: nat, r: nat, n: nat)
    requires r < n
    ensures (q * n + r) % n == r
  {
    var x := q * n + r;
    var d := x / n - q;
    assert d * n == r - x % n;
    assert d >= 1 ==> d * n >= n;
    assert d <= -1 ==> d * n + n <= 0;
  }

  lemma {:induction false} FirstIsOccurrence(pool: seq<Backend>, health: Text -> bool, url: Text, from: nat, n: nat)
    requires Expanded(pool, RoundRobin) != [] && forall u :: u in Urls(pool) ==> health(u)
    ensures TimesFirst(pool, health, url, from, n) == Occurrences(Turn(Expanded(pool, RoundRobin), from, n), url)
  {
    hide Rotated, Expanded, Picked, Urls;
    var list := Expanded(pool, RoundRobin);
    if n > 0 {
      FirstIsOccurrence(pool, health, url, from, n - 1);
      assert Turn(list, from, n)[..n - 1] == Turn(list, from, n - 1);
      FirstAt(list, from + n - 1);
      ExpandedUrls(pool, RoundRobin);
      RotatedUrls(list, RoundRobin, from + n - 1);
      PickedHead(Rotated(list, RoundRobin, from + n - 1), health);
    }
  }

  /**
   With the pool's backends healthy, over a full turn of the cursor from anywhere, an address is tried
   first as often as it weighs.
   */
  lemma WeightedShare(pool: seq<Backend>, health: Text -> bool, url: Text, from: nat)
    requires forall u :: u in Urls(pool) ==> health(u)
    ensures TimesFirst(pool, health, url, from, |Expanded(pool, RoundRobin)|) == TotalWeight(pool, url)
  {
    hide Expanded, TotalWeight, Turn, Urls, Order;
    var list := Expanded(pool, RoundRobin);
    ExpandedCount(pool, url);
    if list != [] {
      FirstIsOccurrence(pool, health, url, from, |list|);
      FullTurn(list, from);
      RotationCount(list, from % |list|, url);
    }
  }

  lemma RotationCount(list: seq<Backend>, k: nat, url: Text)
    requires k <= |list|
    ensures Occurrences(list[k..] + list[..k], url) == Occurrences(list, url)
  {
    hide Occurrences;
    OccurrencesConcat(list[k..], list[..k], url);
    OccurrencesConcat(list[..k], list[k..], url);
    assert list[..k] + list[k..] == list;
  }

  // ----- weights and order, written out

  /** No weight counts as one, and a weight is kept between one and ten; failing over ignores it. */
  lemma WeightsAre(b: Backend)
    ensures WeightOf(b, Failover) == 1
    ensures b.weight.None? ==> WeightOf(b, RoundRobin) == 1
    ensures b.weight.Some? ==>
              var w, n := b.weight.value, WeightOf(b, RoundRobin);
              (w <= 1 ==> n == 1) && (1 <= w <= 10 ==> n == w) && (w >= 10 ==> n == 10)
  {
  }

  predicate FirstPlace(list: seq<Backend>, k: nat) {
    k < |list| && forall m :: 0 <= m < k ==> list[m].url != list[k].url
  }

  /** Each picked entry stands where its address stands first, and they come in that order. */
  lemma {:induction false} PickedPlaces(list: seq<Backend>, health: Text -> bool, wanted: bool) returns (at: seq<nat>)
    ensures var p := Picked(list, health, wanted);
            && |at| == |p| && (forall k :: 0 <= k < |p| ==> FirstPlace(list, at[k]) && list[at[k]] == p[k])
            && (forall k, m :: 0 <= k < m < |p| ==> at[k] < at[m])
  {
    if list == [] {
      at := [];
    } else {
      var n := |list| - 1;
      at := PickedPlaces(list[..n], health, wanted);
      forall k | 0 <= k < |at| ensures FirstPlace(list, at[k]) {
        assert forall m :: 0 <= m <= at[k] ==> list[..n][m] == list[m];
      }
      if list[n].url !in Urls(list[..n]) && health(list[n].url) == wanted {
        forall m | 0 <= m < n ensures list[m].url != list[n].url { assert list[..n][m] in list[..n]; }
        at := at + [n];
      }
    }
  }

  /** Both stand where their addresses stand first, `x` earlier. */
  ghost predicate Precedes(list: seq<Backend>, x: Backend, y: Backend) {
    exists a: nat, b: nat :: a < b && FirstPlace(list, a) && FirstPlace(list, b) && list[a] == x && list[b] == y
  }

  /** Of two backends equally healthy, the one whose address comes first in the rotated list is tried first. */
  lemma OrderFollowsList(pool: seq<Backend>, rule: Rule, cursor: nat, health: Text -> bool, i: nat, j: nat)
    requires i < j < |Order(pool, rule, cursor, health)|
    requires health(Order(pool, rule, cursor, health)[i].url) == health(Order(pool, rule, cursor, health)[j].url)
    ensures var r := Order(pool, rule, cursor, health);
            Precedes(Rotated(Expanded(pool, rule), rule, cursor), r[i], r[j])
  {
    hide Expanded, Rotated, Picked;
    var list := Rotated(Expanded(pool, rule), rule, cursor);
    var up, down := Picked(list, health, true), Picked(list, health, false);
    PickedRight(list, health, true);
    PickedRight(list, health, false);
    var ups := PickedPlaces(list, health, true);
    var downs := PickedPlaces(list, health, false);
    assert Order(pool, rule, cursor, health) == up + down;
    var a, b := if i < |up| then ups[i] else downs[i - |up|], if j < |up| then ups[j] else downs[j - |up|];
    assert a < b;
    var r := Order(pool, rule, cursor, health);
    assert FirstPlace(list, a) && FirstPlace(list, b) && list[a] == r[i] && list[b] == r[j];
  }

  /** Failing over keeps the pool's own order, whatever the cursor. */
  lemma {:induction false} FailoverKeepsPool(pool: seq<Backend>, cursor: nat)
    ensures Rotated(Expanded(pool, Failover), Failover, cursor) == pool
  {
    if pool != [] {
      var n := |pool| - 1;
      FailoverKeepsPool(pool[..n], cursor);
      assert Copies(pool[n], 1) == [pool[n]];
      hide Copies, Picked;
      assert Expanded(pool[..n], Failover) == pool[..n];
    }
  }
}
