/** The list of value bets shown after an analysis: every market whose expected value
    is positive, ordered by a sort key of that value, largest first.

    The sort key is a parameter: the analysis sorts on the expected value rounded for
    display, and the ordering facts below hold for any key, with the ones about the
    value itself needing only that the key is monotone. */
module ValueBets {
  import opened MarketAggregation
  import opened ExpectedValue

  /** The seven markets offered. */
  datatype Selection = HomeWin | Draw | AwayWin | Over | Under | BttsYes | BttsNo

  /** The smallest odd the analysis accepts for any market. */
  const MinOdd: real := 1.01

  /** The bookmaker's decimal odds for each market. */
  datatype Odds = Odds(
    homeWin: real, draw: real, awayWin: real,
    over25: real, under25: real,
    bttsYes: real, bttsNo: real)

  /** Odds as the analysis accepts them: none below the minimum. */
  predicate ValidOdds(o: Odds)
  {
    && o.homeWin >= MinOdd && o.draw >= MinOdd && o.awayWin >= MinOdd
    && o.over25 >= MinOdd && o.under25 >= MinOdd
    && o.bttsYes >= MinOdd && o.bttsNo >= MinOdd
  }

  function ProbabilityOf(m: Markets, s: Selection): real
  {
    match s
    case HomeWin => m.homeWin
    case Draw => m.draw
    case AwayWin => m.awayWin
    case Over => m.over25
    case Under => m.under25
    case BttsYes => m.bttsYes
    case BttsNo => m.bttsNo
  }

  function OddOf(o: Odds, s: Selection): real
  {
    match s
    case HomeWin => o.homeWin
    case Draw => o.draw
    case AwayWin => o.awayWin
    case Over => o.over25
    case Under => o.under25
    case BttsYes => o.bttsYes
    case BttsNo => o.bttsNo
  }

  /** One row of the result list: the market, its probability, its odd and its value. */
  datatype Bet = Bet(selection: Selection, probability: real, odd: real, ev: real)

  /** The bet on one market at the given odds: that market's probability and odd,
      valued so that at a positive odd it is worth taking exactly when the probability
      times the odd exceeds one, breaks even exactly when the product is one, and is
      worth nothing at a non-positive odd. */
  function Offer(m: Markets, o: Odds, s: Selection): (r: Bet)
    ensures r.selection == s
    ensures r.probability == ProbabilityOf(m, s) && r.odd == OddOf(o, s)
    ensures r.ev == Ev(r.probability, r.odd)
    ensures OddOf(o, s) > 0.0 ==> (r.ev > 0.0 <==> ProbabilityOf(m, s) * OddOf(o, s) > 1.0)
    ensures OddOf(o, s) > 0.0 ==> (r.ev == 0.0 <==> ProbabilityOf(m, s) * OddOf(o, s) == 1.0)
    ensures r.odd <= 0.0 ==> r.ev == 0.0
  {
    EvSign(ProbabilityOf(m, s), OddOf(o, s));
    Bet(s, ProbabilityOf(m, s), OddOf(o, s), Ev(ProbabilityOf(m, s), OddOf(o, s)))
  }

  /** Solver hint for Offer: Ev's sign facts instantiated at the market's pair, which
      the solver does not carry over to the products in Offer's contract unaided. */
  lemma EvSign(probability: real, odd: real)
    ensures odd > 0.0 ==> (Ev(probability, odd) > 0.0 <==> probability * odd > 1.0)
    ensures odd > 0.0 ==> (Ev(probability, odd) == 0.0 <==> probability * odd == 1.0)
  {
  }

  /** Every market's bet, in the order the analysis evaluates them: one bet per
      market, each the offer for its own market. */
  function Candidates(m: Markets, o: Odds): (r: seq<Bet>)
    ensures |r| == 7
    ensures InEvaluationOrder(r)
    ensures forall s :: Offer(m, o, s) in r
    ensures forall b :: b in r ==> b == Offer(m, o, b.selection)
  {
    [Offer(m, o, HomeWin), Offer(m, o, Draw), Offer(m, o, AwayWin),
     Offer(m, o, Over), Offer(m, o, Under),
     Offer(m, o, BttsYes), Offer(m, o, BttsNo)]
  }

  /** The bets of positive value, in their original order. */
  function PositiveEv(bets: seq<Bet>): (r: seq<Bet>)
    ensures forall b :: b in r <==> b in bets && b.ev > 0.0
    ensures |r| <= |bets|
  {
    if |bets| == 0 then []
    else
      var rest := PositiveEv(bets[1..]);
      assert forall b :: b in bets <==> b == bets[0] || b in bets[1..];
      if bets[0].ev > 0.0 then [bets[0]] + rest else rest
  }

  /** Sorted on the key of the value, largest first. */
  predicate Descending(bets: seq<Bet>, key: real -> real)
  {
    forall i, j :: 0 <= i < j < |bets| ==> key(bets[j].ev) <= key(bets[i].ev)
  }

  /** Puts b after every bet whose key is at least b's, so that of two bets with equal
      keys the one inserted later comes later. */
  function Insert(b: Bet, sorted: seq<Bet>, key: real -> real): (r: seq<Bet>)
    ensures multiset(r) == multiset(sorted) + multiset{b}
  {
    if |sorted| == 0 then [b]
    else
      assert sorted == [sorted[0]] + sorted[1..];
      if key(b.ev) <= key(sorted[0].ev) then [sorted[0]] + Insert(b, sorted[1..], key)
      else [b] + sorted
  }

  /** Inserting into a sorted list keeps it sorted. */
  lemma {:induction false} InsertKeepsDescending(b: Bet, sorted: seq<Bet>, key: real -> real)
    requires Descending(sorted, key)
    ensures Descending(Insert(b, sorted, key), key)
  {
    if |sorted| > 0 && key(b.ev) <= key(sorted[0].ev) {
      var rest := Insert(b, sorted[1..], key);
      assert Descending(sorted[1..], key);
      InsertKeepsDescending(b, sorted[1..], key);
      forall x | x in rest ensures x == b || x in sorted[1..] {
        assert x in multiset(rest);
      }
      InsertHead(sorted[0], rest, b, sorted, key);
    }
  }

  /** The stable sort on the key of the value, largest first. */
  function SortByKey(bets: seq<Bet>, key: real -> real): (r: seq<Bet>)
    ensures Descending(r, key)
    ensures multiset(r) == multiset(bets)
  {
    if |bets| == 0 then []
    else
      var last := |bets| - 1;
      assert bets == bets[..last] + [bets[last]];
      var sorted := SortByKey(bets[..last], key);
      InsertKeepsDescending(bets[last], sorted, key);
      Insert(bets[last], sorted, key)
  }

  /** The place of a market in the order the analysis evaluates them (app.py lists
      the markets in this order). */
  function Position(s: Selection): nat
  {
    match s
    case HomeWin => 0
    case Draw => 1
    case AwayWin => 2
    case Over => 3
    case Under => 4
    case BttsYes => 5
    case BttsNo => 6
  }

  /** Strictly in the order the markets are evaluated. */
  predicate InEvaluationOrder(bets: seq<Bet>)
  {
    forall i, j :: 0 <= i < j < |bets| ==> Position(bets[i].selection) < Position(bets[j].selection)
  }

  /** Bets whose keys tie appear in the order their markets are evaluated. */
  predicate TiesInEvaluationOrder(bets: seq<Bet>, key: real -> real)
  {
    forall i, j :: 0 <= i < j < |bets| && key(bets[i].ev) == key(bets[j].ev) ==>
      Position(bets[i].selection) < Position(bets[j].selection)
  }

  /** Filtering on positive value keeps the evaluation order. */
  lemma {:induction false} PositiveEvKeepsOrder(bets: seq<Bet>)
    requires InEvaluationOrder(bets)
    ensures InEvaluationOrder(PositiveEv(bets))
  {
    if |bets| > 0 {
      InOrderTail(bets);
      PositiveEvKeepsOrder(bets[1..]);
      if bets[0].ev > 0.0 {
        PrependInOrder(bets[0], PositiveEv(bets[1..]), bets[1..]);
      }
    }
  }

  /** Selecting one key value keeps the evaluation order. */
  lemma {:induction false} WithKeyKeepsOrder(bets: seq<Bet>, key: real -> real, v: real)
    requires InEvaluationOrder(bets)
    ensures InEvaluationOrder(WithKey(bets, key, v))
  {
    if |bets| > 0 {
      InOrderTail(bets);
      WithKeyKeepsOrder(bets[1..], key, v);
      WithKeyMembers(bets[1..], key, v);
      if key(bets[0].ev) == v {
        PrependInOrder(bets[0], WithKey(bets[1..], key, v), bets[1..]);
      }
    }
  }

  /** A list whose every key class is in evaluation order has its ties in that order. */
  lemma {:induction false} TiesFromClasses(bets: seq<Bet>, key: real -> real)
    requires forall v :: InEvaluationOrder(WithKey(bets, key, v))
    ensures TiesInEvaluationOrder(bets, key)
  {
    if |bets| > 0 {
      var head := bets[0];
      var tail := bets[1..];
      forall v ensures InEvaluationOrder(WithKey(tail, key, v)) {
        assert InEvaluationOrder(WithKey(bets, key, v));
        if key(head.ev) == v {
          assert WithKey(bets, key, v) == [head] + WithKey(tail, key, v);
          InOrderTail([head] + WithKey(tail, key, v));
          assert ([head] + WithKey(tail, key, v))[1..] == WithKey(tail, key, v);
        } else {
          assert WithKey(bets, key, v) == [] + WithKey(tail, key, v);
          assert [] + WithKey(tail, key, v) == WithKey(tail, key, v);
        }
      }
      TiesFromClasses(tail, key);
      var w := WithKey(tail, key, key(head.ev));
      assert WithKey(bets, key, key(head.ev)) == [head] + w;
      WithKeyMembers(tail, key, key(head.ev));
      HeadBeforeMembers(head, w);
      forall i, j | 0 <= i < j < |bets| && key(bets[i].ev) == key(bets[j].ev)
        ensures Position(bets[i].selection) < Position(bets[j].selection)
      {
        if i == 0 {
          assert bets[j] == tail[j - 1];
          assert bets[j] in w;
        } else {
          assert bets[i] == tail[i - 1] && bets[j] == tail[j - 1];
        }
      }
    }
  }

  /** Sorting a list in evaluation order leaves its ties in evaluation order. */
  lemma SortedTiesInOrder(bets: seq<Bet>, key: real -> real)
    requires InEvaluationOrder(bets)
    ensures TiesInEvaluationOrder(SortByKey(bets, key), key)
  {
    var r := SortByKey(bets, key);
    forall v ensures InEvaluationOrder(WithKey(r, key, v)) {
      SortIsStable(bets, key, v);
      WithKeyKeepsOrder(bets, key, v);
    }
    TiesFromClasses(r, key);
  }

  lemma InOrderTail(bets: seq<Bet>)
    requires |bets| > 0 && InEvaluationOrder(bets)
    ensures InEvaluationOrder(bets[1..])
  {
    forall i, j | 0 <= i < j < |bets[1..]|
      ensures Position(bets[1..][i].selection) < Position(bets[1..][j].selection)
    {
      assert bets[1..][i] == bets[i + 1] && bets[1..][j] == bets[j + 1];
    }
  }

  lemma HeadBeforeMembers(head: Bet, rest: seq<Bet>)
    requires InEvaluationOrder([head] + rest)
    ensures forall x :: x in rest ==> Position(head.selection) < Position(x.selection)
  {
    var r := [head] + rest;
    forall k | 0 <= k < |rest| ensures Position(head.selection) < Position(rest[k].selection) {
      assert r[0] == head && r[k + 1] == rest[k];
    }
  }

  lemma PrependInOrder(head: Bet, rest: seq<Bet>, pool: seq<Bet>)
    requires InEvaluationOrder(pool) && InEvaluationOrder(rest)
    requires forall x :: x in rest ==> x in pool
    requires forall k :: 0 <= k < |pool| ==> Position(head.selection) < Position(pool[k].selection)
    ensures InEvaluationOrder([head] + rest)
  {
    var r := [head] + rest;
    forall i, j | 0 <= i < j < |r| ensures Position(r[i].selection) < Position(r[j].selection) {
      if i > 0 {
        assert r[i] == rest[i - 1] && r[j] == rest[j - 1];
      } else {
        assert r[j] == rest[j - 1];
        assert r[j] in pool;
      }
    }
  }

  /** A bet is selected for key value v exactly when it is in the list with that key. */
  lemma {:induction false} WithKeyMembers(bets: seq<Bet>, key: real -> real, v: real)
    ensures forall x :: x in WithKey(bets, key, v) <==> x in bets && key(x.ev) == v
  {
    if |bets| > 0 {
      WithKeyMembers(bets[1..], key, v);
      assert forall x :: x in bets <==> x == bets[0] || x in bets[1..];
    }
  }

  /** The result list: the bets of positive value, sorted on the key of the value,
      largest first, bets with equal keys in the order their markets are evaluated. */
  function RankedBets(m: Markets, o: Odds, key: real -> real): (r: seq<Bet>)
    ensures Descending(r, key)
    ensures forall b :: b in r <==> b in Candidates(m, o) && b.ev > 0.0
    ensures multiset(r) == multiset(PositiveEv(Candidates(m, o)))
    ensures |r| <= 7
    ensures TiesInEvaluationOrder(r, key)
  {
    var chosen := PositiveEv(Candidates(m, o));
    PositiveEvKeepsOrder(Candidates(m, o));
    SortedTiesInOrder(chosen, key);
    var r := SortByKey(chosen, key);
    assert |r| == |multiset(r)| == |chosen|;
    assert forall b :: b in r <==> b in multiset(r);
    r
  }

  /** With accepted odds, a market is listed exactly when its probability times its
      odd exceeds one. */
  lemma RankedExactlyTheValueBets(m: Markets, o: Odds, key: real -> real, s: Selection)
    requires ValidOdds(o)
    ensures Offer(m, o, s) in RankedBets(m, o, key) <==> ProbabilityOf(m, s) * OddOf(o, s) > 1.0
  {
    assert Offer(m, o, s) in Candidates(m, o);
    assert OddOf(o, s) >= MinOdd;
  }

  /** Every listed bet is the offer for its own market at the given odds. */
  lemma RankedAreOffers(m: Markets, o: Odds, key: real -> real)
    ensures forall b :: b in RankedBets(m, o, key) ==> b == Offer(m, o, b.selection) && b.ev > 0.0
  {
  }

  /** Under a monotone key, a bet is listed below one of smaller value only when the
      key cannot tell their values apart. */
  lemma MonotoneKeyRespectsValue(bets: seq<Bet>, key: real -> real)
    requires forall x, y :: x <= y ==> key(x) <= key(y)
    requires Descending(bets, key)
    ensures forall i, j :: 0 <= i < j < |bets| ==>
              bets[j].ev <= bets[i].ev || key(bets[i].ev) == key(bets[j].ev)
  {
  }

  /** The bets with key value v, in their order of appearance. */
  function WithKey(bets: seq<Bet>, key: real -> real, v: real): seq<Bet>
  {
    if |bets| == 0 then []
    else (if key(bets[0].ev) == v then [bets[0]] else []) + WithKey(bets[1..], key, v)
  }

  /** The sort is stable: for every key value, the bets carrying it appear in the
      result in the order they had on input. */
  lemma {:induction false} SortIsStable(bets: seq<Bet>, key: real -> real, v: real)
    ensures WithKey(SortByKey(bets, key), key, v) == WithKey(bets, key, v)
  {
    if |bets| > 0 {
      var last := |bets| - 1;
      var prefix := bets[..last];
      assert bets == prefix + [bets[last]];
      SortIsStable(prefix, key, v);
      InsertIsStable(bets[last], SortByKey(prefix, key), key, v);
      WithKeyAppend(prefix, [bets[last]], key, v);
    }
  }

  lemma {:induction false} InsertIsStable(b: Bet, sorted: seq<Bet>, key: real -> real, v: real)
    requires Descending(sorted, key)
    ensures WithKey(Insert(b, sorted, key), key, v)
            == WithKey(sorted, key, v) + (if key(b.ev) == v then [b] else [])
  {
    if |sorted| == 0 {
      WithKeyAppend([b], [], key, v);
      assert [b] + [] == [b];
    } else if key(b.ev) <= key(sorted[0].ev) {
      DescendingTail(sorted, key);
      InsertIsStable(b, sorted[1..], key, v);
      StableAfterHead(b, sorted, key, v);
    } else {
      StableInFront(b, sorted, key, v);
    }
  }

  /** The step of InsertIsStable where b goes past the head. */
  lemma StableAfterHead(b: Bet, sorted: seq<Bet>, key: real -> real, v: real)
    requires |sorted| > 0 && key(b.ev) <= key(sorted[0].ev)
    requires WithKey(Insert(b, sorted[1..], key), key, v)
             == WithKey(sorted[1..], key, v) + (if key(b.ev) == v then [b] else [])
    ensures WithKey(Insert(b, sorted, key), key, v)
            == WithKey(sorted, key, v) + (if key(b.ev) == v then [b] else [])
  {
    var head := [sorted[0]];
    var tail := sorted[1..];
    var rest := Insert(b, tail, key);
    assert sorted == head + tail;
    WithKeyAppend(head, tail, key, v);
    assert Insert(b, sorted, key) == head + rest;
    WithKeyAppend(head, rest, key, v);
    assert WithKey(head + rest, key, v) == WithKey(head, key, v) + WithKey(rest, key, v);
    assert WithKey(sorted, key, v) == WithKey(head, key, v) + WithKey(tail, key, v);
  }

  /** The step of InsertIsStable where b goes in front of a sorted list. */
  lemma StableInFront(b: Bet, sorted: seq<Bet>, key: real -> real, v: real)
    requires Descending(sorted, key)
    requires |sorted| > 0 && key(b.ev) > key(sorted[0].ev)
    ensures WithKey(Insert(b, sorted, key), key, v)
            == WithKey(sorted, key, v) + (if key(b.ev) == v then [b] else [])
  {
    assert Insert(b, sorted, key) == [b] + sorted;
    NoneWithKey(sorted, key, key(b.ev));
    WithKeyAppend([b], sorted, key, v);
    WithKeyAppend([b], [], key, v);
    assert [b] + [] == [b];
  }

  lemma DescendingTail(sorted: seq<Bet>, key: real -> real)
    requires |sorted| > 0 && Descending(sorted, key)
    ensures Descending(sorted[1..], key)
  {
  }

  lemma {:induction false} NoneWithKey(sorted: seq<Bet>, key: real -> real, v: real)
    requires Descending(sorted, key)
    requires |sorted| > 0 ==> key(sorted[0].ev) < v
    ensures WithKey(sorted, key, v) == []
  {
    if |sorted| > 0 {
      assert Descending(sorted[1..], key);
      NoneWithKey(sorted[1..], key, v);
    }
  }

  lemma {:induction false} WithKeyAppend(a: seq<Bet>, b: seq<Bet>, key: real -> real, v: real)
    ensures WithKey(a + b, key, v) == WithKey(a, key, v) + WithKey(b, key, v)
  {
    if |a| == 0 {
      assert a + b == b;
    } else {
      assert (a + b)[0] == a[0];
      assert (a + b)[1..] == a[1..] + b;
      assert WithKey(a + b, key, v)
             == (if key(a[0].ev) == v then [a[0]] else []) + WithKey(a[1..] + b, key, v);
      assert WithKey(a, key, v)
             == (if key(a[0].ev) == v then [a[0]] else []) + WithKey(a[1..], key, v);
      WithKeyAppend(a[1..], b, key, v);
    }
  }

  /** A head no smaller than anything after it, in front of a sorted list, gives a sorted list. */
  lemma InsertHead(head: Bet, rest: seq<Bet>, b: Bet, sorted: seq<Bet>, key: real -> real)
    requires |sorted| > 0 && head == sorted[0]
    requires key(b.ev) <= key(head.ev)
    requires forall x :: x in rest ==> x == b || x in sorted[1..]
    requires Descending(sorted, key) && Descending(rest, key)
    ensures Descending([head] + rest, key)
  {
    forall k | 0 <= k < |sorted[1..]| ensures key(sorted[1..][k].ev) <= key(head.ev) {
      assert sorted[1..][k] == sorted[k + 1];
    }
    var r := [head] + rest;
    forall i, j | 0 <= i < j < |r| ensures key(r[j].ev) <= key(r[i].ev) {
      if i > 0 {
        assert r[i] == rest[i - 1] && r[j] == rest[j - 1];
      } else {
        assert r[j] in rest;
      }
    }
  }
}
