/** The scatter chart's inputs: the slider that sets the minimum number of
    promotions, the summary rows it keeps, and the axis domains taken as the
    minimum and maximum average profit difference and average lift of the
    rows kept. */
module PromoFilter {
  import opened PromoTables
  import opened UpcAggregation

  /** The slider's upper end: the largest promo count of the summary. An
      empty summary has no largest count (the script fails converting it to
      an integer), which is `None` here. */
  function MaxCount(ss: seq<UpcSummary>): (m: Option<nat>)
    ensures m.None? <==> ss == []
    ensures m.Some? ==> forall i :: 0 <= i < |ss| ==> ss[i].promoCount <= m.value
    ensures m.Some? ==> exists i :: 0 <= i < |ss| && ss[i].promoCount == m.value
  {
    if ss == [] then None
    else
      var rest := MaxCount(ss[1..]);
      if rest.None? || ss[0].promoCount >= rest.value then Some(ss[0].promoCount) else rest
  }

  /** The summary rows promoted at least `minPromos` times, in their order. */
  function KeepFrequent(ss: seq<UpcSummary>, minPromos: int): (kept: seq<UpcSummary>)
    ensures |kept| <= |ss|
    ensures forall i :: 0 <= i < |kept| ==> kept[i].promoCount >= minPromos
  {
    if ss == [] then []
    else (if ss[0].promoCount >= minPromos then [ss[0]] else []) + KeepFrequent(ss[1..], minPromos)
  }

  /** Each summary row promoted often enough is kept as often as it occurs, every other row is dropped. */
  lemma {:induction false} KeepFrequentCounts(ss: seq<UpcSummary>, minPromos: int)
    ensures forall s :: multiset(KeepFrequent(ss, minPromos))[s]
                    == if s.promoCount >= minPromos then multiset(ss)[s] else 0
  {
    if ss != [] {
      KeepFrequentCounts(ss[1..], minPromos);
      assert ss == [ss[0]] + ss[1..];
    }
  }

  /** Filtering distributes over concatenation: kept rows stay in input order. */
  lemma {:induction false} KeepFrequentAppend(a: seq<UpcSummary>, b: seq<UpcSummary>, minPromos: int)
    ensures KeepFrequent(a + b, minPromos) == KeepFrequent(a, minPromos) + KeepFrequent(b, minPromos)
  {
    if a == [] {
      assert a + b == b;
    } else {
      var h := if a[0].promoCount >= minPromos then [a[0]] else [];
      assert (a + b)[0] == a[0];
      assert (a + b)[1..] == a[1..] + b;
      assert KeepFrequent(a + b, minPromos) == h + KeepFrequent(a[1..] + b, minPromos);
      assert KeepFrequent(a, minPromos) == h + KeepFrequent(a[1..], minPromos);
      KeepFrequentAppend(a[1..], b, minPromos);
      assert h + (KeepFrequent(a[1..], minPromos) + KeepFrequent(b, minPromos)) == (h + KeepFrequent(a[1..], minPromos)) + KeepFrequent(b, minPromos);
    }
  }

  predicate AscendingUpcs(ss: seq<UpcSummary>) {
    forall i, j :: 0 <= i < j < |ss| ==> ss[i].upc < ss[j].upc
  }

  lemma TailAscending(ss: seq<UpcSummary>)
    requires ss != [] && AscendingUpcs(ss)
    ensures AscendingUpcs(ss[1..])
  {
    var tail := ss[1..];
    forall i, j | 0 <= i < j < |tail| ensures tail[i].upc < tail[j].upc {
      assert tail[i] == ss[i + 1] && tail[j] == ss[j + 1];
    }
  }

  lemma ConsAscending(x: UpcSummary, rest: seq<UpcSummary>)
    requires AscendingUpcs(rest)
    requires forall j :: 0 <= j < |rest| ==> x.upc < rest[j].upc
    ensures AscendingUpcs([x] + rest)
  {
    var s := [x] + rest;
    forall i, j | 0 <= i < j < |s| ensures s[i].upc < s[j].upc {
      assert s[j] == rest[j - 1];
      if i > 0 {
        assert s[i] == rest[i - 1];
      }
    }
  }

  lemma HeadBelowKept(ss: seq<UpcSummary>, minPromos: int)
    requires ss != [] && AscendingUpcs(ss)
    ensures forall j :: 0 <= j < |KeepFrequent(ss[1..], minPromos)| ==>
      ss[0].upc < KeepFrequent(ss[1..], minPromos)[j].upc
  {
    var tail := ss[1..];
    var rest := KeepFrequent(tail, minPromos);
    KeepFrequentCounts(tail, minPromos);
    forall j | 0 <= j < |rest| ensures ss[0].upc < rest[j].upc {
      assert rest[j] in multiset(rest);
      assert rest[j] in multiset(tail);
      var k :| 0 <= k < |tail| && tail[k] == rest[j];
      assert ss[k + 1] == rest[j];
    }
  }

  /** Rows kept from a table in ascending UPC order are still in ascending UPC order. */
  lemma {:induction false} KeepFrequentAscending(ss: seq<UpcSummary>, minPromos: int)
    requires AscendingUpcs(ss)
    ensures AscendingUpcs(KeepFrequent(ss, minPromos))
  {
    if ss != [] {
      TailAscending(ss);
      KeepFrequentAscending(ss[1..], minPromos);
      HeadBelowKept(ss, minPromos);
      if ss[0].promoCount >= minPromos {
        ConsAscending(ss[0], KeepFrequent(ss[1..], minPromos));
      }
    }
  }

  /** At the slider's default of one every summary row is kept. */
  lemma {:induction false} KeepFrequentAtOne(ss: seq<UpcSummary>)
    requires forall i :: 0 <= i < |ss| ==> ss[i].promoCount >= 1
    ensures KeepFrequent(ss, 1) == ss
  {
    if ss != [] {
      KeepFrequentAtOne(ss[1..]);
    }
  }

  /** Any slider position between one and the largest count keeps a row. */
  lemma SliderKeepsSome(ss: seq<UpcSummary>, minPromos: int)
    requires MaxCount(ss).Some? && minPromos <= MaxCount(ss).value
    ensures |KeepFrequent(ss, minPromos)| > 0
  {
    var i :| 0 <= i < |ss| && ss[i].promoCount == MaxCount(ss).value;
    KeepFrequentCounts(ss, minPromos);
    assert ss[i] in multiset(ss);
    assert ss[i] in multiset(KeepFrequent(ss, minPromos));
  }

  // ----- The pipeline from promo rows -----

  /** A non-empty promo table gives a slider whose upper end is at least one. */
  lemma SliderDefined(rows: seq<PromoRow>)
    requires |rows| > 0
    ensures MaxCount(Summarize(rows)).Some? && MaxCount(Summarize(rows)).value >= 1
  {
    UpcsHas(rows);
    assert rows[0].upc in Upcs(rows);
    SummaryRowIsGroup(rows, 0);
  }

  /** At the default slider position the chart shows every UPC of the table. */
  lemma DefaultShowsAll(rows: seq<PromoRow>)
    ensures KeepFrequent(Summarize(rows), 1) == Summarize(rows)
  {
    var out := Summarize(rows);
    forall i | 0 <= i < |out| ensures out[i].promoCount >= 1 {
      SummaryRowIsGroup(rows, i);
    }
    KeepFrequentAtOne(out);
  }

  // ----- Axis domains -----

  /** The least of a non-empty list of numbers. */
  function MinOf(xs: seq<real>): (m: real)
    requires |xs| > 0
    ensures forall i :: 0 <= i < |xs| ==> m <= xs[i]
    ensures exists i :: 0 <= i < |xs| && xs[i] == m
  {
    if |xs| == 1 then xs[0]
    else
      var rest := MinOf(xs[1..]);
      if xs[0] <= rest then xs[0] else rest
  }

  /** The greatest of a non-empty list of numbers. */
  function MaxOf(xs: seq<real>): (m: real)
    requires |xs| > 0
    ensures forall i :: 0 <= i < |xs| ==> xs[i] <= m
    ensures exists i :: 0 <= i < |xs| && xs[i] == m
  {
    if |xs| == 1 then xs[0]
    else
      var rest := MaxOf(xs[1..]);
      if xs[0] >= rest then xs[0] else rest
  }

  function AvgProfits(ss: seq<UpcSummary>): (xs: seq<real>)
    ensures |xs| == |ss| && forall i :: 0 <= i < |ss| ==> xs[i] == ss[i].avgProfit
  {
    seq(|ss|, i requires 0 <= i < |ss| => ss[i].avgProfit)
  }

  function AvgLifts(ss: seq<UpcSummary>): (ys: seq<real>)
    ensures |ys| == |ss| && forall i :: 0 <= i < |ss| ==> ys[i] == ss[i].avgLift
  {
    seq(|ss|, i requires 0 <= i < |ss| => ss[i].avgLift)
  }

  /** The scatter chart's x domain (average profit difference) and y domain (average lift). */
  datatype AxisDomains = AxisDomains(xMin: real, xMax: real, yMin: real, yMax: real)

  /** The axis domains of the kept rows; an empty selection has none (its
      minimum and maximum are not numbers). Every kept row lies inside both
      domains and every bound is some kept row's value. */
  function Domains(kept: seq<UpcSummary>): (d: Option<AxisDomains>)
    ensures d.None? <==> kept == []
    ensures d.Some? ==> forall i :: 0 <= i < |kept| ==>
      && d.value.xMin <= kept[i].avgProfit <= d.value.xMax
      && d.value.yMin <= kept[i].avgLift <= d.value.yMax
    ensures d.Some? ==> exists i :: 0 <= i < |kept| && kept[i].avgProfit == d.value.xMin
    ensures d.Some? ==> exists i :: 0 <= i < |kept| && kept[i].avgProfit == d.value.xMax
    ensures d.Some? ==> exists i :: 0 <= i < |kept| && kept[i].avgLift == d.value.yMin
    ensures d.Some? ==> exists i :: 0 <= i < |kept| && kept[i].avgLift == d.value.yMax
  {
    if kept == [] then None
    else
      var xs := AvgProfits(kept);
      var ys := AvgLifts(kept);
      Some(AxisDomains(MinOf(xs), MaxOf(xs), MinOf(ys), MaxOf(ys)))
  }

  /** For a non-empty promo table and any slider position, the chart has rows and domains. */
  lemma SliderGivesDomains(rows: seq<PromoRow>, minPromos: int)
    requires |rows| > 0
    requires 1 <= minPromos
    requires MaxCount(Summarize(rows)).Some? && minPromos <= MaxCount(Summarize(rows)).value
    ensures |KeepFrequent(Summarize(rows), minPromos)| > 0
    ensures Domains(KeepFrequent(Summarize(rows), minPromos)).Some?
  {
    SliderKeepsSome(Summarize(rows), minPromos);
  }
}
