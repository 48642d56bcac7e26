/**
 * The read side of `PairingService`: `getIntents` (lib/sodax/pairing.ts:129-137),
 * every stored intent, most recent activity first, and `getStats`
 * (lib/sodax/pairing.ts:139-157), count, mean, maximum and minimum of the
 * slippage percentages of the filled intents.
 */
module Reports {
  import opened Wrappers
  import opened Intents
  import opened Correlation
  import opened Sorting

  /** The time of an intent's latest activity: its fill's, else its quote's, else 0. */
  function RecentTime(i: PairedIntent): int {
    if i.fill.Some? then i.fill.value.timestamp
    else if i.quote.Some? then i.quote.value.timestamp
    else 0
  }

  /** Sorting ascending on this key sorts descending on `RecentTime`. */
  function NegRecent(i: PairedIntent): int {
    -RecentTime(i)
  }

  /** The intents of the map in insertion order, as `Array.from(intents.values())` lists them. */
  function Stored(intents: map<IntentId, PairedIntent>, order: seq<IntentId>): (r: seq<PairedIntent>)
    ensures |r| <= |order|
    ensures (forall id :: id in intents ==> intents[id].intentId == id) ==>
      forall x :: x in r ==> x.intentId in intents && intents[x.intentId] == x
  {
    if order == [] then []
    else
      var first: IntentId := order[0];
      var head := if first in intents then [intents[first]] else [];
      head + Stored(intents, order[1..])
  }

  /** `getIntents`: all stored intents, latest activity first, ties in insertion order. */
  function ListIntents(st: Index): (r: seq<PairedIntent>)
    ensures multiset(r) == multiset(Stored(st.intents, st.order))
    ensures forall a, b :: 0 <= a < b < |r| ==> RecentTime(r[a]) >= RecentTime(r[b])
  {
    var r := SortBy(Stored(st.intents, st.order), NegRecent);
    assert forall a, b :: 0 <= a < b < |r| ==> NegRecent(r[a]) <= NegRecent(r[b]);
    r
  }

  /** Stored intents are listed once each, every listed intent is stored under its own id. */
  lemma {:induction false} StoredOnce(intents: map<IntentId, PairedIntent>, order: seq<IntentId>, id: IntentId)
    requires Distinct(order)
    requires forall x :: x in intents ==> intents[x].intentId == x
    requires id in intents
    ensures multiset(Stored(intents, order))[intents[id]] == if id in order then 1 else 0
  {
    if order != [] {
      var rest := order[1..];
      assert Distinct(rest) by {
        forall a, b | 0 <= a < b < |rest| ensures rest[a] != rest[b] {
          assert rest[a] == order[a + 1] && rest[b] == order[b + 1];
        }
      }
      StoredOnce(intents, rest, id);
      assert order == [order[0]] + rest;
      if order[0] in intents {
        assert intents[order[0]] == intents[id] <==> order[0] == id;
        if order[0] == id {
          assert id !in rest by {
            forall t | 0 <= t < |rest| ensures rest[t] != id {
              assert rest[t] == order[t + 1];
            }
          }
        }
      }
    }
  }

  /** Every stored intent carries its own id. */
  lemma OwnIds(st: Index)
    requires Inv(st)
    ensures forall x :: x in st.intents ==> st.intents[x].intentId == x
  {
    forall x | x in st.intents ensures st.intents[x].intentId == x {
      assert IntentOk(st, x);
    }
  }

  /** Under the service invariant, `getIntents` lists every stored intent exactly once. */
  lemma ListsEachOnce(st: Index)
    requires Inv(st)
    ensures forall id :: id in st.intents ==> multiset(ListIntents(st))[st.intents[id]] == 1
  {
    OwnIds(st);
    forall id | id in st.intents ensures multiset(ListIntents(st))[st.intents[id]] == 1 {
      StoredOnce(st.intents, st.order, id);
    }
  }

  /** Under the service invariant, `getIntents` lists only stored intents, each under its own id. */
  lemma ListsOnlyStored(st: Index)
    requires Inv(st)
    ensures forall x :: x in ListIntents(st) ==> x.intentId in st.intents && st.intents[x.intentId] == x
  {
    OwnIds(st);
    var s := Stored(st.intents, st.order);
    forall x | x in ListIntents(st) ensures x.intentId in st.intents && st.intents[x.intentId] == x {
      assert x in multiset(ListIntents(st));
      assert x in s;
    }
  }

  /** `getIntents` returns as many intents as are stored. */
  lemma ListsAll(st: Index)
    requires Inv(st)
    ensures |ListIntents(st)| == |st.intents|
  {
    var s := Stored(st.intents, st.order);
    assert |ListIntents(st)| == |s| by {
      assert |multiset(ListIntents(st))| == |multiset(s)|;
    }
    forall k | 0 <= k < |st.order| ensures st.order[k] in st.intents {
      assert st.order[k] in st.order;
    }
    StoredAll(st.intents, st.order);
    DistinctCard(st.order);
    assert forall id :: id in st.intents.Keys <==> id in (set id | id in st.order);
    assert st.intents.Keys == set id | id in st.order;
  }

  lemma {:induction false} StoredAll(intents: map<IntentId, PairedIntent>, order: seq<IntentId>)
    requires forall k :: 0 <= k < |order| ==> order[k] in intents
    ensures |Stored(intents, order)| == |order|
  {
    if order != [] {
      assert forall k :: 0 <= k < |order[1..]| ==> order[1..][k] == order[k + 1];
      StoredAll(intents, order[1..]);
      assert order[0] in intents;
    }
  }

  /** A sequence without repeats has as many elements as its set. */
  lemma {:induction false} DistinctCard(s: seq<IntentId>)
    requires Distinct(s)
    ensures |set id | id in s| == |s|
  {
    if s != [] {
      var rest := s[1..];
      assert Distinct(rest) by {
        forall a, b | 0 <= a < b < |rest| ensures rest[a] != rest[b] {
          assert rest[a] == s[a + 1] && rest[b] == s[b + 1];
        }
      }
      DistinctCard(rest);
      assert s[0] !in rest by {
        forall t | 0 <= t < |rest| ensures rest[t] != s[0] {
          assert rest[t] == s[t + 1];
        }
      }
      assert (set id | id in s) == (set id | id in rest) + {s[0]};
    }
  }

  // ---------------------------------------------------------------------
  // Statistics

  /** An intent counted by `getStats`: filled, with a slippage. */
  predicate Reported(i: PairedIntent) {
    i.status == Filled && i.slippage.Some?
  }

  /** The intent is reported, with percentage `v` when `v` is given. */
  predicate ReportedAs(i: PairedIntent, v: Option<real>) {
    Reported(i) && (v.None? || i.slippage.value.pct == v.value)
  }

  /** The positions of `xs` that hold an intent reported as `v`. */
  ghost function ReportedAt(xs: seq<PairedIntent>, v: Option<real>): set<int> {
    set k | 0 <= k < |xs| && ReportedAs(xs[k], v)
  }

  /**
   * The slippage percentages of the reported intents, in list order: one per
   * reported position, and each value as often as positions report it.
   */
  function FilledPcts(xs: seq<PairedIntent>): (r: seq<real>)
    ensures |r| == |ReportedAt(xs, None)|
    ensures forall v :: multiset(r)[v] == |ReportedAt(xs, Some(v))|
    ensures r == [] <==> forall i :: i in xs ==> !Reported(i)
    ensures forall v :: v in r <==> exists i :: i in xs && Reported(i) && i.slippage.value.pct == v
  {
    if xs == [] then []
    else
      var init, last := xs[..|xs| - 1], xs[|xs| - 1];
      var front := FilledPcts(init);
      var back := if Reported(last) then [last.slippage.value.pct] else [];
      SnocMembers(xs);
      PctsStep(xs, front, back);
      front + back
  }

  lemma SnocMembers(xs: seq<PairedIntent>)
    requires xs != []
    ensures forall i :: i in xs <==> i in xs[..|xs| - 1] || i == xs[|xs| - 1]
  {
    assert xs == xs[..|xs| - 1] + [xs[|xs| - 1]];
  }

  /** The counts of the front's percentages, plus the last intent's, are the counts of the whole list. */
  lemma PctsStep(xs: seq<PairedIntent>, front: seq<real>, back: seq<real>)
    requires xs != []
    requires back == if Reported(xs[|xs| - 1]) then [xs[|xs| - 1].slippage.value.pct] else []
    requires |front| == |ReportedAt(xs[..|xs| - 1], None)|
    requires forall v :: multiset(front)[v] == |ReportedAt(xs[..|xs| - 1], Some(v))|
    ensures |front + back| == |ReportedAt(xs, None)|
    ensures forall v :: multiset(front + back)[v] == |ReportedAt(xs, Some(v))|
  {
    ReportedAtSnoc(xs, None);
    forall v ensures multiset(front + back)[v] == |ReportedAt(xs, Some(v))| {
      ReportedAtSnoc(xs, Some(v));
      assert multiset(front + back)[v] == multiset(front)[v] + multiset(back)[v];
    }
  }

  /** The reported positions of a list are those of all but its last element, plus the last one's. */
  lemma ReportedAtSnoc(xs: seq<PairedIntent>, v: Option<real>)
    requires xs != []
    ensures |ReportedAt(xs, v)| ==
      |ReportedAt(xs[..|xs| - 1], v)| + if ReportedAs(xs[|xs| - 1], v) then 1 else 0
  {
    var n := |xs| - 1;
    var init := xs[..n];
    var last: set<int> := if ReportedAs(xs[n], v) then {n} else {};
    forall k | 0 <= k < n ensures init[k] == xs[k] {
    }
    assert ReportedAt(xs, v) == ReportedAt(init, v) + last;
    assert n !in ReportedAt(init, v);
  }

  /** The distinct intents of `xs` that are reported. */
  ghost function ReportedSet(xs: seq<PairedIntent>): set<PairedIntent> {
    set i | i in xs && Reported(i)
  }

  /** In a list without repeats there is one percentage per reported intent. */
  lemma {:induction false} PctsOfDistinct(xs: seq<PairedIntent>)
    requires forall a, b :: 0 <= a < b < |xs| ==> xs[a] != xs[b]
    ensures |FilledPcts(xs)| == |ReportedSet(xs)|
  {
    if xs != [] {
      var n := |xs| - 1;
      var init, last := xs[..n], xs[n];
      assert forall a, b :: 0 <= a < b < |init| ==> init[a] != init[b] by {
        forall a, b | 0 <= a < b < |init| ensures init[a] != init[b] {
          assert init[a] == xs[a] && init[b] == xs[b];
        }
      }
      PctsOfDistinct(init);
      assert last !in init by {
        forall t | 0 <= t < n ensures init[t] != last {
          assert init[t] == xs[t];
        }
      }
      assert |FilledPcts(xs)| == |FilledPcts(init)| + if Reported(last) then 1 else 0;
      ReportedSetSnoc(xs);
    }
  }

  lemma ReportedSetSnoc(xs: seq<PairedIntent>)
    requires xs != []
    ensures ReportedSet(xs) == ReportedSet(xs[..|xs| - 1]) + if Reported(xs[|xs| - 1]) then {xs[|xs| - 1]} else {}
  {
    SnocMembers(xs);
  }

  function Sum(xs: seq<real>): real {
    if xs == [] then 0.0 else xs[0] + Sum(xs[1..])
  }

  function MaxOf(xs: seq<real>): (r: real)
    requires xs != []
    ensures r in xs && forall v :: v in xs ==> v <= r
  {
    if |xs| == 1 then xs[0]
    else
      var m := MaxOf(xs[1..]);
      assert forall v :: v in xs ==> v == xs[0] || v in xs[1..];
      if xs[0] >= m then xs[0] else m
  }

  function MinOf(xs: seq<real>): (r: real)
    requires xs != []
    ensures r in xs && forall v :: v in xs ==> r <= v
  {
    if |xs| == 1 then xs[0]
    else
      var m := MinOf(xs[1..]);
      assert forall v :: v in xs ==> v == xs[0] || v in xs[1..];
      if xs[0] <= m then xs[0] else m
  }

  lemma {:induction false} SumBetween(xs: seq<real>, lo: real, hi: real)
    requires forall v :: v in xs ==> lo <= v <= hi
    ensures |xs| as real * lo <= Sum(xs) <= |xs| as real * hi
  {
    if xs != [] {
      var tail := xs[1..];
      var n := |tail| as real;
      forall v | v in tail ensures lo <= v <= hi {
        assert v in xs;
      }
      SumBetween(tail, lo, hi);
      assert xs[0] in xs;
      assert Sum(xs) == xs[0] + Sum(tail);
      assert |xs| as real == n + 1.0;
      OneMore(n, lo);
      OneMore(n, hi);
    }
  }

  lemma OneMore(n: real, c: real)
    ensures (n + 1.0) * c == n * c + c
  {
  }

  lemma MeanBetween(s: real, n: real, lo: real, hi: real)
    requires n > 0.0 && n * lo <= s <= n * hi
    ensures lo <= s / n <= hi
    ensures s / n * n == s
  {
    var q := s / n;
    assert q * n == s;
    CancelFactor(lo, q, n);
    CancelFactor(q, hi, n);
  }

  lemma CancelFactor(a: real, b: real, n: real)
    requires n > 0.0 && a * n <= b * n
    ensures a <= b
  {
    assert (b - a) * n >= 0.0;
  }

  datatype Stats = Stats(count: nat, avgPct: real, maxPct: real, minPct: real)

  /** Count, mean, largest and smallest of a non-empty list of percentages. */
  function Summary(pcts: seq<real>): (r: Stats)
    requires pcts != []
    ensures r.count == |pcts|
    ensures r.maxPct in pcts && r.minPct in pcts
    ensures forall v :: v in pcts ==> r.minPct <= v <= r.maxPct
    ensures r.minPct <= r.avgPct <= r.maxPct
    ensures r.avgPct * r.count as real == Sum(pcts)
  {
    var n := |pcts| as real;
    var hi, lo := MaxOf(pcts), MinOf(pcts);
    SumBetween(pcts, lo, hi);
    MeanBetween(Sum(pcts), n, lo, hi);
    Stats(|pcts|, Sum(pcts) / n, hi, lo)
  }

  /**
   * `getStats` over a list of intents: nothing when no intent is reported,
   * otherwise the summary of the reported intents' percentages.
   */
  function StatsOf(xs: seq<PairedIntent>): (r: Option<Stats>)
    ensures r.None? <==> forall i :: i in xs ==> !Reported(i)
    ensures r.Some? ==> r.value == Summary(FilledPcts(xs))
  {
    var pcts := FilledPcts(xs);
    if pcts == [] then None else Some(Summary(pcts))
  }

  /** The ids of the stored intents that `getStats` counts. */
  ghost function ReportedIds(st: Index): set<IntentId> {
    set id | id in st.intents && Reported(st.intents[id])
  }

  /** An element that occurs once is at no second position. */
  lemma OnceApart(xs: seq<PairedIntent>, a: int, b: int)
    requires 0 <= a < b < |xs| && multiset(xs)[xs[a]] <= 1
    ensures xs[a] != xs[b]
  {
    assert xs == xs[..b] + xs[b..];
    assert xs[..b][a] == xs[a] && xs[b..][0] == xs[b];
    assert xs[a] in multiset(xs[..b]);
  }

  /** Under the service invariant, `getIntents` repeats no intent. */
  lemma ListedOnce(st: Index)
    requires Inv(st)
    ensures forall a, b :: 0 <= a < b < |ListIntents(st)| ==> ListIntents(st)[a] != ListIntents(st)[b]
  {
    var l := ListIntents(st);
    ListsEachOnce(st);
    ListsOnlyStored(st);
    forall a, b | 0 <= a < b < |l| ensures l[a] != l[b] {
      var x := l[a];
      assert x in l;
      assert multiset(l)[st.intents[x.intentId]] == 1;
      OnceApart(l, a, b);
    }
  }

  /** The stored intents, walked in `order`, carry the ids of `order`. */
  lemma {:induction false} StoredIds(intents: map<IntentId, PairedIntent>, order: seq<IntentId>)
    requires forall id :: id in intents ==> intents[id].intentId == id
    ensures forall x :: x in Stored(intents, order) ==> x.intentId in order
  {
    if order != [] {
      var rest := order[1..];
      StoredIds(intents, rest);
      forall x | x in Stored(intents, order) ensures x.intentId in order {
        if x.intentId != order[0] {
          assert x in Stored(intents, rest);
          assert x.intentId in rest;
        }
      }
    }
  }

  /** The ids, listed in `order`, of stored intents that `getStats` counts. */
  ghost function ReportedIn(intents: map<IntentId, PairedIntent>, order: seq<IntentId>): set<IntentId> {
    set id | id in order && id in intents && Reported(intents[id])
  }

  /** Walking distinct ids, there are as many reported intents as ids of reported intents. */
  lemma {:induction false} StoredReportedCard(intents: map<IntentId, PairedIntent>, order: seq<IntentId>)
    requires Distinct(order)
    requires forall id :: id in intents ==> intents[id].intentId == id
    ensures |ReportedSet(Stored(intents, order))| == |ReportedIn(intents, order)|
  {
    if order != [] {
      DistinctTail(order);
      StoredReportedCard(intents, order[1..]);
      ReportedStep(intents, order);
    }
  }

  lemma DistinctTail(order: seq<IntentId>)
    requires order != [] && Distinct(order)
    ensures Distinct(order[1..]) && order[0] !in order[1..]
  {
    var rest := order[1..];
    forall a, b | 0 <= a < b < |rest| ensures rest[a] != rest[b] {
      assert rest[a] == order[a + 1] && rest[b] == order[b + 1];
    }
    forall t | 0 <= t < |rest| ensures rest[t] != order[0] {
      assert rest[t] == order[t + 1];
    }
  }

  /** The first id adds its intent, when reported, to both sides at once. */
  lemma ReportedStep(intents: map<IntentId, PairedIntent>, order: seq<IntentId>)
    requires order != [] && order[0] !in order[1..]
    requires forall id :: id in intents ==> intents[id].intentId == id
    ensures var x, rest := order[0], order[1..];
      if x in intents && Reported(intents[x]) then
        && ReportedSet(Stored(intents, order)) == {intents[x]} + ReportedSet(Stored(intents, rest))
        && intents[x] !in ReportedSet(Stored(intents, rest))
        && ReportedIn(intents, order) == {x} + ReportedIn(intents, rest)
        && x !in ReportedIn(intents, rest)
      else
        && ReportedSet(Stored(intents, order)) == ReportedSet(Stored(intents, rest))
        && ReportedIn(intents, order) == ReportedIn(intents, rest)
  {
    var x, rest := order[0], order[1..];
    var tail := Stored(intents, rest);
    StoredIds(intents, rest);
    assert forall id :: id in order <==> id == x || id in rest;
    assert forall i :: i in Stored(intents, order) <==> (x in intents && i == intents[x]) || i in tail;
  }

  /** Under the service invariant, `getStats` is `null` exactly when no stored intent is filled with a slippage. */
  lemma StatsNullIff(st: Index)
    requires Inv(st)
    ensures ServiceStats(st).None? <==> forall id :: id in st.intents ==> !Reported(st.intents[id])
  {
    ListsEachOnce(st);
    ListsOnlyStored(st);
    var l := ListIntents(st);
    forall id | id in st.intents ensures st.intents[id] in l {
      assert st.intents[id] in multiset(l);
    }
  }

  /** Under the service invariant, `getStats` counts the stored intents that are filled with a slippage. */
  lemma StatsCountsReported(st: Index)
    requires Inv(st)
    ensures ServiceStats(st).Some? ==> ServiceStats(st).value.count == |ReportedIds(st)|
  {
    var l := ListIntents(st);
    ListedOnce(st);
    PctsOfDistinct(l);
    ListedAsStored(st);
    StoredReportedCard(st.intents, st.order);
    ReportedInIds(st);
  }

  lemma ReportedInIds(st: Index)
    requires Inv(st)
    ensures ReportedIn(st.intents, st.order) == ReportedIds(st)
  {
    forall id ensures id in ReportedIn(st.intents, st.order) <==> id in ReportedIds(st) {
      assert id in st.intents <==> id in st.order;
    }
  }

  /** The list holds the same intents as the map, so the same reported ones. */
  lemma ListedAsStored(st: Index)
    requires Inv(st)
    ensures ReportedSet(ListIntents(st)) == ReportedSet(Stored(st.intents, st.order))
    ensures forall id :: id in st.intents ==> st.intents[id].intentId == id
  {
    OwnIds(st);
    var l, stored := ListIntents(st), Stored(st.intents, st.order);
    forall i ensures i in l <==> i in stored {
      assert i in l <==> i in multiset(l);
      assert i in stored <==> i in multiset(stored);
    }
  }

  /** `getStats` on the service state. */
  function ServiceStats(st: Index): (r: Option<Stats>)
    ensures r.None? <==> forall i :: i in ListIntents(st) ==> !Reported(i)
    ensures r.Some? ==> r.value.count > 0 && r.value.minPct <= r.value.avgPct <= r.value.maxPct
  {
    StatsOf(ListIntents(st))
  }
}
