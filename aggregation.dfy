/** The per-UPC summary of the promo-period table: rows are grouped by UPC,
    each group keeps its first item name, the means of profit difference and
    lift, the sums of promo revenue and promo profit, and its row count; the
    groups come out in ascending UPC order.

    `Summarize` computes the summary the way a group-by does, in one pass that
    accumulates per-UPC totals in a map, then lists the UPCs in ascending
    order. `Group`, `Total` and `FirstIndex` define the same figures directly
    from the rows, and the lemmas below prove the two agree. */
module UpcAggregation {
  import opened PromoTables

  // ----- Reference definitions over the rows -----

  /** The numeric columns the summary aggregates. */
  datatype Column = ProfitDifference | Lift | PromoRevenue | PromoProfit

  function Value(r: PromoRow, c: Column): real {
    match c
    case ProfitDifference => r.profitDifference
    case Lift => r.lift
    case PromoRevenue => r.promoRevenue
    case PromoProfit => r.promoProfit
  }

  /** The distinct UPCs of the rows. */
  function Upcs(rows: seq<PromoRow>): set<int> {
    if rows == [] then {} else Upcs(rows[..|rows| - 1]) + {rows[|rows| - 1].upc}
  }

  lemma UpcsSnoc(rows: seq<PromoRow>)
    requires rows != []
    ensures Upcs(rows) == Upcs(rows[..|rows| - 1]) + {rows[|rows| - 1].upc}
  {
  }

  lemma {:induction false} UpcsHas(rows: seq<PromoRow>)
    ensures forall j :: 0 <= j < |rows| ==> rows[j].upc in Upcs(rows)
  {
    if rows != [] {
      var p := rows[..|rows| - 1];
      UpcsHas(p);
      assert forall j :: 0 <= j < |p| ==> p[j] == rows[j];
    }
  }

  /** The rows that carry UPC `u`, in input order. */
  function Group(rows: seq<PromoRow>, u: int): (g: seq<PromoRow>)
    ensures |g| <= |rows|
    ensures forall i :: 0 <= i < |g| ==> g[i].upc == u
  {
    if rows == [] then []
    else
      var r := rows[|rows| - 1];
      Group(rows[..|rows| - 1], u) + (if r.upc == u then [r] else [])
  }

  /** The sum of column `c` over the rows; an empty table sums to zero. */
  function Total(rows: seq<PromoRow>, c: Column): (t: real)
    ensures rows == [] ==> t == 0.0
  {
    if rows == [] then 0.0
    else Total(rows[..|rows| - 1], c) + Value(rows[|rows| - 1], c)
  }

  /** The sum of a concatenation is the sum of the sums. */
  lemma {:induction false} TotalAppend(a: seq<PromoRow>, b: seq<PromoRow>, c: Column)
    ensures Total(a + b, c) == Total(a, c) + Total(b, c)
  {
    if b == [] {
      assert a + b == a;
    } else {
      var q := b[..|b| - 1];
      assert (a + b)[..|a + b| - 1] == a + q;
      TotalAppend(a, q, c);
    }
  }

  /** The arithmetic mean of column `c` over a non-empty group: the value
      whose multiple by the group size is the column sum. */
  function Mean(g: seq<PromoRow>, c: Column): (m: real)
    requires |g| > 0
    ensures m * |g| as real == Total(g, c)
  {
    Total(g, c) / |g| as real
  }

  /** The position of the earliest row, in input order, that carries UPC `u`. */
  function FirstIndex(rows: seq<PromoRow>, u: int): (i: nat)
    requires u in Upcs(rows)
    ensures i < |rows| && rows[i].upc == u
    ensures forall j :: 0 <= j < i ==> rows[j].upc != u
  {
    var p := rows[..|rows| - 1];
    UpcsHas(p);
    assert forall j :: 0 <= j < |p| ==> p[j] == rows[j];
    if u in Upcs(p) then FirstIndex(p, u) else |rows| - 1
  }

  lemma {:induction false} GroupNonEmpty(rows: seq<PromoRow>, u: int)
    ensures |Group(rows, u)| > 0 <==> u in Upcs(rows)
  {
    if rows != [] {
      UpcsSnoc(rows);
      GroupNonEmpty(rows[..|rows| - 1], u);
    }
  }

  lemma {:induction false} GroupHeadIsFirst(rows: seq<PromoRow>, u: int)
    requires u in Upcs(rows)
    ensures |Group(rows, u)| > 0 && Group(rows, u)[0] == rows[FirstIndex(rows, u)]
  {
    UpcsSnoc(rows);
    var p := rows[..|rows| - 1];
    GroupNonEmpty(p, u);
    if u in Upcs(p) {
      GroupHeadIsFirst(p, u);
    }
  }

  lemma TotalSnoc(g: seq<PromoRow>, r: PromoRow, c: Column)
    ensures Total(g + [r], c) == Total(g, c) + Value(r, c)
  {
    assert (g + [r])[..|g|] == g;
  }

  // ----- The one-pass group-by -----

  /** What the group-by keeps for one UPC while it scans the rows. */
  datatype Acc = Acc(
    first: string,
    sumProfitDifference: real,
    sumLift: real,
    sumRevenue: real,
    sumProfit: real,
    count: nat)

  function Start(r: PromoRow): Acc {
    Acc(r.longDesc, r.profitDifference, r.lift, r.promoRevenue, r.promoProfit, 1)
  }

  function Add(a: Acc, r: PromoRow): Acc {
    Acc(a.first, a.sumProfitDifference + r.profitDifference, a.sumLift + r.lift,
        a.sumRevenue + r.promoRevenue, a.sumProfit + r.promoProfit, a.count + 1)
  }

  /** Scans the rows in input order, opening an accumulator at the first row
      of each UPC and adding every later row of that UPC to it. */
  function Accumulate(rows: seq<PromoRow>): (m: map<int, Acc>)
    ensures m.Keys == Upcs(rows)
    ensures forall u :: u in m ==> m[u].count > 0
  {
    if rows == [] then map[]
    else
      UpcsSnoc(rows);
      var m0 := Accumulate(rows[..|rows| - 1]);
      var r := rows[|rows| - 1];
      m0[r.upc := if r.upc in m0 then Add(m0[r.upc], r) else Start(r)]
  }

  /** The reference figures of the group of UPC `u`, in accumulator form. */
  function GroupAcc(rows: seq<PromoRow>, u: int): Acc
    requires u in Upcs(rows)
  {
    var g := Group(rows, u);
    Acc(rows[FirstIndex(rows, u)].longDesc, Total(g, ProfitDifference), Total(g, Lift),
        Total(g, PromoRevenue), Total(g, PromoProfit), |g|)
  }

  /** The accumulator of a UPC holds exactly the reference figures of its group. */
  lemma {:induction false} AccumulateIsGroup(rows: seq<PromoRow>, u: int)
    requires u in Upcs(rows)
    ensures |Group(rows, u)| > 0
    ensures Accumulate(rows)[u] == GroupAcc(rows, u)
  {
    var p := rows[..|rows| - 1];
    var r := rows[|rows| - 1];
    var m0 := Accumulate(p);
    var g0 := Group(p, u);
    GroupNonEmpty(p, u);
    if u in Upcs(p) {
      AccumulateIsGroup(p, u);
      assert FirstIndex(rows, u) == FirstIndex(p, u);
      assert rows[FirstIndex(p, u)] == p[FirstIndex(p, u)];
      if r.upc == u {
        assert Group(rows, u) == g0 + [r];
        assert Accumulate(rows)[u] == Add(m0[u], r);
        TotalSnoc(g0, r, ProfitDifference);
        TotalSnoc(g0, r, Lift);
        TotalSnoc(g0, r, PromoRevenue);
        TotalSnoc(g0, r, PromoProfit);
      } else {
        assert Group(rows, u) == g0 + [] == g0;
        assert Accumulate(rows)[u] == m0[u];
      }
    } else {
      assert r.upc == u;
      assert Accumulate(rows)[u] == Start(r);
      assert g0 == [];
      assert Group(rows, u) == [r];
      assert FirstIndex(rows, u) == |rows| - 1;
      assert g0 + [r] == [r];
      TotalSnoc(g0, r, ProfitDifference);
      TotalSnoc(g0, r, Lift);
      TotalSnoc(g0, r, PromoRevenue);
      TotalSnoc(g0, r, PromoProfit);
    }
  }

  // ----- Ascending UPC order -----

  predicate StrictlyAscending(ks: seq<int>) {
    forall i, j :: 0 <= i < j < |ks| ==> ks[i] < ks[j]
  }

  /** Inserts `k` into an ascending list of distinct keys, unless it is there. */
  function InsertKey(ks: seq<int>, k: int): (r: seq<int>)
    requires StrictlyAscending(ks)
    ensures StrictlyAscending(r)
    ensures forall x :: x in r <==> x in ks || x == k
    ensures |r| == if k in ks then |ks| else |ks| + 1
  {
    if ks == [] then [k]
    else if k < ks[0] then [k] + ks
    else if k == ks[0] then ks
    else
      var rest := InsertKey(ks[1..], k);
      assert forall j :: 0 <= j < |ks| - 1 ==> ks[1..][j] == ks[j + 1];
      assert forall j :: 0 <= j < |rest| ==> ks[0] < rest[j] by {
        forall j | 0 <= j < |rest| ensures ks[0] < rest[j] {
          assert rest[j] in rest;
        }
      }
      [ks[0]] + rest
  }

  /** The distinct UPCs of the rows, ascending. */
  function SortedUpcs(rows: seq<PromoRow>): (ks: seq<int>)
    ensures StrictlyAscending(ks)
    ensures forall u :: u in ks <==> u in Upcs(rows)
    ensures |ks| == |Upcs(rows)|
  {
    if rows == [] then []
    else
      var p := rows[..|rows| - 1];
      var u := rows[|rows| - 1].upc;
      UpcsSnoc(rows);
      assert u in Upcs(p) ==> Upcs(rows) == Upcs(p);
      assert u !in Upcs(p) ==> |Upcs(rows)| == |Upcs(p)| + 1;
      InsertKey(SortedUpcs(p), u)
  }

  // ----- The summary -----

  function Finish(u: int, a: Acc): UpcSummary
    requires a.count > 0
  {
    UpcSummary(u, a.first,
               a.sumProfitDifference / a.count as real, a.sumLift / a.count as real,
               a.sumRevenue, a.sumProfit, a.count)
  }

  /** One summary row per key, in the order of the keys. */
  function Finished(ks: seq<int>, m: map<int, Acc>): (out: seq<UpcSummary>)
    requires forall i :: 0 <= i < |ks| ==> ks[i] in m && m[ks[i]].count > 0
    ensures |out| == |ks|
    ensures forall i :: 0 <= i < |ks| ==> out[i].upc == ks[i]
    ensures forall i :: 0 <= i < |ks| ==> out[i] == Finish(ks[i], m[ks[i]])
  {
    if ks == [] then [] else [Finish(ks[0], m[ks[0]])] + Finished(ks[1..], m)
  }

  /** The summary table: one row per distinct UPC, in ascending UPC order. */
  function Summarize(rows: seq<PromoRow>): (out: seq<UpcSummary>)
    ensures |out| == |Upcs(rows)|
    ensures forall i, j :: 0 <= i < j < |out| ==> out[i].upc < out[j].upc
  {
    var m := Accumulate(rows);
    var ks := SortedUpcs(rows);
    Finished(ks, m)
  }

  lemma SummaryKeys(rows: seq<PromoRow>)
    ensures |Summarize(rows)| == |SortedUpcs(rows)|
    ensures forall i :: 0 <= i < |Summarize(rows)| ==> Summarize(rows)[i].upc == SortedUpcs(rows)[i]
  {
  }

  /** Every UPC of the rows has a summary row. */
  lemma RowUpcsInSummary(rows: seq<PromoRow>)
    ensures var out := Summarize(rows);
      forall j :: 0 <= j < |rows| ==> exists i :: 0 <= i < |out| && out[i].upc == rows[j].upc
  {
    var out := Summarize(rows);
    var ks := SortedUpcs(rows);
    SummaryKeys(rows);
    UpcsHas(rows);
    forall j | 0 <= j < |rows|
      ensures exists i :: 0 <= i < |out| && out[i].upc == rows[j].upc
    {
      assert rows[j].upc in ks;
      var i :| 0 <= i < |ks| && ks[i] == rows[j].upc;
      assert out[i].upc == rows[j].upc;
    }
  }

  /** Every summary row's UPC occurs in the rows. */
  lemma SummaryUpcsInRows(rows: seq<PromoRow>)
    ensures var out := Summarize(rows);
      forall i :: 0 <= i < |out| ==> exists j :: 0 <= j < |rows| && rows[j].upc == out[i].upc
  {
    var out := Summarize(rows);
    var ks := SortedUpcs(rows);
    SummaryKeys(rows);
    forall i | 0 <= i < |out|
      ensures exists j :: 0 <= j < |rows| && rows[j].upc == out[i].upc
    {
      assert ks[i] in ks;
      var j := FirstIndex(rows, ks[i]);
      assert rows[j].upc == out[i].upc;
    }
  }

  /** Every summary row holds the reference figures of its UPC's group: the
      count of its rows (at least one), the name of its earliest row, the
      means of profit difference and lift, and the sums of revenue and profit. */
  lemma SummaryRowIsGroup(rows: seq<PromoRow>, i: int)
    requires 0 <= i < |Summarize(rows)|
    ensures var s := Summarize(rows)[i];
      var g := Group(rows, s.upc);
      && s.upc in Upcs(rows)
      && s.promoCount == |g| >= 1
      && s.itemName == rows[FirstIndex(rows, s.upc)].longDesc
      && s.itemName == g[0].longDesc
      && s.avgProfit == Mean(g, ProfitDifference)
      && s.avgLift == Mean(g, Lift)
      && s.totalRevenue == Total(g, PromoRevenue)
      && s.totalProfit == Total(g, PromoProfit)
  {
    var ks := SortedUpcs(rows);
    assert Summarize(rows)[i] == Finish(ks[i], Accumulate(rows)[ks[i]]);
    AccumulateIsGroup(rows, ks[i]);
    GroupHeadIsFirst(rows, ks[i]);
  }

  // ----- Conservation of rows -----

  /** The sum of the promo counts of a summary table. */
  function SumCounts(ss: seq<UpcSummary>): nat {
    if ss == [] then 0 else SumCounts(ss[..|ss| - 1]) + ss[|ss| - 1].promoCount
  }

  /** The sum of the group sizes of a list of UPCs. */
  function GroupSizes(rows: seq<PromoRow>, ks: seq<int>): nat {
    if ks == [] then 0 else GroupSizes(rows, ks[..|ks| - 1]) + |Group(rows, ks[|ks| - 1])|
  }

  /** The number of rows whose UPC is one of `ks`. */
  function CountIn(rows: seq<PromoRow>, ks: seq<int>): nat {
    if rows == [] then 0
    else CountIn(rows[..|rows| - 1], ks) + (if rows[|rows| - 1].upc in ks then 1 else 0)
  }

  lemma {:induction false} CountInNoKeys(rows: seq<PromoRow>)
    ensures CountIn(rows, []) == 0
  {
    if rows != [] {
      CountInNoKeys(rows[..|rows| - 1]);
    }
  }

  lemma {:induction false} CountInAddKey(rows: seq<PromoRow>, ks: seq<int>, k: int)
    requires k !in ks
    ensures CountIn(rows, ks + [k]) == CountIn(rows, ks) + |Group(rows, k)|
  {
    if rows != [] {
      CountInAddKey(rows[..|rows| - 1], ks, k);
    }
  }

  lemma {:induction false} GroupSizesAreCount(rows: seq<PromoRow>, ks: seq<int>)
    requires StrictlyAscending(ks)
    ensures GroupSizes(rows, ks) == CountIn(rows, ks)
  {
    if ks == [] {
      CountInNoKeys(rows);
    } else {
      var p := ks[..|ks| - 1];
      var k := ks[|ks| - 1];
      GroupSizesAreCount(rows, p);
      assert k !in p;
      CountInAddKey(rows, p, k);
      assert p + [k] == ks;
    }
  }

  lemma {:induction false} CountInCovering(rows: seq<PromoRow>, ks: seq<int>)
    requires forall j :: 0 <= j < |rows| ==> rows[j].upc in ks
    ensures CountIn(rows, ks) == |rows|
  {
    if rows != [] {
      CountInCovering(rows[..|rows| - 1], ks);
    }
  }

  lemma {:induction false} SumCountsPointwise(rows: seq<PromoRow>, ss: seq<UpcSummary>, ks: seq<int>)
    requires |ss| == |ks|
    requires forall i :: 0 <= i < |ss| ==> ss[i].promoCount == |Group(rows, ks[i])|
    ensures SumCounts(ss) == GroupSizes(rows, ks)
  {
    if ss != [] {
      SumCountsPointwise(rows, ss[..|ss| - 1], ks[..|ks| - 1]);
    }
  }

  lemma SummaryCountsAreGroupSizes(rows: seq<PromoRow>)
    ensures SumCounts(Summarize(rows)) == GroupSizes(rows, SortedUpcs(rows))
  {
    var out := Summarize(rows);
    var ks := SortedUpcs(rows);
    forall i | 0 <= i < |out|
      ensures out[i].promoCount == |Group(rows, ks[i])|
    {
      assert out[i] == Finish(ks[i], Accumulate(rows)[ks[i]]);
      AccumulateIsGroup(rows, ks[i]);
    }
    SumCountsPointwise(rows, out, ks);
  }

  /** Every input row is counted in exactly one summary row. */
  lemma CountsCoverRows(rows: seq<PromoRow>)
    ensures SumCounts(Summarize(rows)) == |rows|
  {
    var ks := SortedUpcs(rows);
    SummaryCountsAreGroupSizes(rows);
    GroupSizesAreCount(rows, ks);
    UpcsHas(rows);
    CountInCovering(rows, ks);
  }

  // ----- Two promotions of one UPC -----

  /** Two promotions of the same UPC make one summary row that carries the
      first row's name, the halves of the summed profit differences and
      lifts, and the sums of revenue and profit. (With lifts 1.5 and 1.0,
      profit differences 300 and -100, revenues 1000 and 800 and profits 400
      and 100 this is the row 1.25, 100, 1800, 500, 2.) */
  lemma SameUpcPair(a: PromoRow, b: PromoRow)
    requires a.upc == b.upc
    ensures Summarize([a, b]) == [UpcSummary(a.upc, a.longDesc,
                                             (a.profitDifference + b.profitDifference) / 2.0,
                                             (a.lift + b.lift) / 2.0,
                                             a.promoRevenue + b.promoRevenue,
                                             a.promoProfit + b.promoProfit, 2)]
  {
    var rows := [a, b];
    var u := a.upc;
    PairGroup(a, b);
    var out := Summarize(rows);
    assert |out| == 1;
    SummaryRowIsGroup(rows, 0);
    assert out[0].upc == u;
    assert Total(rows, ProfitDifference) == a.profitDifference + b.profitDifference;
    assert Total(rows, Lift) == a.lift + b.lift;
    assert Total(rows, PromoRevenue) == a.promoRevenue + b.promoRevenue;
    assert Total(rows, PromoProfit) == a.promoProfit + b.promoProfit;
    assert out[0].itemName == a.longDesc;
    assert out[0].avgProfit == (a.profitDifference + b.profitDifference) / 2.0;
    assert out[0].avgLift == (a.lift + b.lift) / 2.0;
    assert out == [out[0]];
  }

  lemma PairGroup(a: PromoRow, b: PromoRow)
    requires a.upc == b.upc
    ensures Upcs([a, b]) == {a.upc}
    ensures Group([a, b], a.upc) == [a, b]
    ensures FirstIndex([a, b], a.upc) == 0
    ensures forall c: Column :: Total([a, b], c) == Value(a, c) + Value(b, c)
  {
    var rows := [a, b];
    var u := a.upc;
    assert rows[..1] == [a] && [a][..0] == [];
    assert Upcs([a]) == {u};
    assert Group([a], u) == [a];
    forall c: Column ensures Total(rows, c) == Value(a, c) + Value(b, c) {
      assert [] + [a] == [a] && [a] + [b] == rows;
      TotalSnoc([], a, c);
      TotalSnoc([a], b, c);
    }
  }
}
