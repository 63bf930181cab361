/** The per-item view: the item selector's options (the distinct item names of
    the sales table, missing names dropped, in ascending order), the sales
    rows of the chosen item ordered by date, and the promo rows of the chosen
    item in table order. The selector yields no item when it has no options,
    and no row matches no item. */
module ItemSelection {
  import opened PromoTables

  // ----- Ordering of item names -----

  /** Python's ordering of strings: lexicographic by code point, a proper
      prefix before the longer string. */
  predicate NameLess(a: string, b: string) {
    if a == [] then b != []
    else if b == [] then false
    else a[0] < b[0] || (a[0] == b[0] && NameLess(a[1..], b[1..]))
  }

  lemma {:induction false} NameLessIrreflexive(a: string)
    ensures !NameLess(a, a)
  {
    if a != [] {
      NameLessIrreflexive(a[1..]);
    }
  }

  lemma {:induction false} NameLessTransitive(a: string, b: string, c: string)
    requires NameLess(a, b) && NameLess(b, c)
    ensures NameLess(a, c)
  {
    if a != [] && a[0] == b[0] && b[0] == c[0] {
      NameLessTransitive(a[1..], b[1..], c[1..]);
    }
  }

  lemma {:induction false} NameLessTotal(a: string, b: string)
    ensures a == b || NameLess(a, b) || NameLess(b, a)
  {
    if a != [] && b != [] && a[0] == b[0] {
      NameLessTotal(a[1..], b[1..]);
      if a[1..] == b[1..] {
        assert a == [a[0]] + a[1..] && b == [b[0]] + b[1..];
      }
    }
  }

  predicate AscendingNames(ns: seq<string>) {
    forall i, j :: 0 <= i < j < |ns| ==> NameLess(ns[i], ns[j])
  }

  /** Inserts `n` into an ascending list of distinct names, unless it is there. */
  function InsertName(ns: seq<string>, n: string): (r: seq<string>)
    requires AscendingNames(ns)
    ensures AscendingNames(r)
    ensures forall x :: x in r <==> x in ns || x == n
  {
    if ns == [] then [n]
    else if n == ns[0] then ns
    else if NameLess(n, ns[0]) then
      assert forall j :: 0 <= j < |ns| ==> NameLess(n, ns[j]) by {
        forall j | 0 <= j < |ns| ensures NameLess(n, ns[j]) {
          if j > 0 {
            NameLessTransitive(n, ns[0], ns[j]);
          }
        }
      }
      [n] + ns
    else
      NameLessTotal(n, ns[0]);
      var rest := InsertName(ns[1..], n);
      assert forall j :: 0 <= j < |rest| ==> NameLess(ns[0], rest[j]) by {
        forall j | 0 <= j < |rest| ensures NameLess(ns[0], rest[j]) {
          assert rest[j] in rest;
          if rest[j] != n {
            var k :| 0 <= k < |ns| - 1 && ns[1..][k] == rest[j];
            assert ns[k + 1] == rest[j];
          }
        }
      }
      var r := [ns[0]] + rest;
      assert forall i, j :: 0 < i < j < |r| ==> r[i] == rest[i - 1] && r[j] == rest[j - 1];
      r
  }

  // ----- The selector's options -----

  /** The selector's options: every name that some sales row carries, each
      once, in ascending order; rows without a name contribute nothing. */
  function ItemOptions(sales: seq<SalesRow>): (opts: seq<string>)
    ensures AscendingNames(opts)
    ensures forall j :: 0 <= j < |sales| && sales[j].longDesc.Some? ==> sales[j].longDesc.value in opts
    ensures forall i :: 0 <= i < |opts| ==> exists j :: 0 <= j < |sales| && sales[j].longDesc == Some(opts[i])
  {
    if sales == [] then []
    else
      var p := sales[..|sales| - 1];
      var last := sales[|sales| - 1];
      var prev := ItemOptions(p);
      assert forall j :: 0 <= j < |p| ==> p[j] == sales[j];
      match last.longDesc
      case None => prev
      case Some(n) =>
        var opts := InsertName(prev, n);
        assert forall i :: 0 <= i < |opts| ==> opts[i] in prev || opts[i] == n;
        opts
  }

  // ----- The chosen item's sales rows, by date -----

  /** Whether a sales row belongs to the chosen item; no item matches no row. */
  predicate SaleOf(r: SalesRow, item: Option<string>) {
    item.Some? && r.longDesc == item
  }

  /** The chosen item's sales rows, in table order. */
  function MatchingSales(sales: seq<SalesRow>, item: Option<string>): (ms: seq<SalesRow>)
    ensures forall r :: multiset(ms)[r] == if SaleOf(r, item) then multiset(sales)[r] else 0
  {
    if sales == [] then []
    else
      assert sales == [sales[0]] + sales[1..];
      (if SaleOf(sales[0], item) then [sales[0]] else []) + MatchingSales(sales[1..], item)
  }

  predicate SortedByDate(rs: seq<SalesRow>) {
    forall i, j :: 0 <= i < j < |rs| ==> rs[i].saleDate <= rs[j].saleDate
  }

  /** Inserts a row into a date-sorted list after the rows of an earlier or equal date. */
  function InsertByDate(rs: seq<SalesRow>, r: SalesRow): (out: seq<SalesRow>)
    requires SortedByDate(rs)
    ensures |out| == |rs| + 1
    ensures SortedByDate(out)
    ensures out[0] == r || (rs != [] && out[0] == rs[0])
  {
    if rs == [] then [r]
    else if r.saleDate < rs[0].saleDate then [r] + rs
    else
      var rest := InsertByDate(rs[1..], r);
      assert rs[0].saleDate <= rest[0].saleDate;
      var out := [rs[0]] + rest;
      assert forall j :: 0 < j < |out| ==> out[j] == rest[j - 1];
      out
  }

  lemma {:induction false} InsertByDateCounts(rs: seq<SalesRow>, r: SalesRow)
    requires SortedByDate(rs)
    ensures multiset(InsertByDate(rs, r)) == multiset(rs) + multiset{r}
  {
    if rs != [] && r.saleDate >= rs[0].saleDate {
      InsertByDateCounts(rs[1..], r);
      assert rs == [rs[0]] + rs[1..];
    }
  }

  /** The rows ordered by date. */
  function SortByDate(rs: seq<SalesRow>): (out: seq<SalesRow>)
    ensures SortedByDate(out)
    ensures multiset(out) == multiset(rs)
  {
    if rs == [] then []
    else
      var p := rs[..|rs| - 1];
      assert rs == p + [rs[|rs| - 1]];
      InsertByDateCounts(SortByDate(p), rs[|rs| - 1]);
      InsertByDate(SortByDate(p), rs[|rs| - 1])
  }

  /** The chosen item's sales rows ordered by date: exactly its rows, each as
      often as in the table, by non-decreasing date. */
  function ItemSales(sales: seq<SalesRow>, item: Option<string>): (out: seq<SalesRow>)
    ensures SortedByDate(out)
    ensures forall r :: multiset(out)[r] == if SaleOf(r, item) then multiset(sales)[r] else 0
  {
    SortByDate(MatchingSales(sales, item))
  }

  /** An item picked from the options has at least one sales row. */
  lemma OptionHasSales(sales: seq<SalesRow>, n: string)
    requires n in ItemOptions(sales)
    ensures |ItemSales(sales, Some(n))| > 0
  {
    var opts := ItemOptions(sales);
    var i :| 0 <= i < |opts| && opts[i] == n;
    var j :| 0 <= j < |sales| && sales[j].longDesc == Some(n);
    assert sales[j] in multiset(sales);
    assert sales[j] in multiset(ItemSales(sales, Some(n)));
  }

  // ----- The chosen item's promo rows -----

  /** The promo rows whose item name is the chosen one, in table order. */
  function ItemPromos(promos: seq<PromoRow>, item: Option<string>): (ps: seq<PromoRow>)
    ensures |ps| <= |promos|
    ensures forall i :: 0 <= i < |ps| ==> item == Some(ps[i].longDesc)
  {
    if promos == [] then []
    else
      (if item == Some(promos[0].longDesc) then [promos[0]] else []) + ItemPromos(promos[1..], item)
  }

  /** Selecting promo rows distributes over concatenation, so the rows keep their table order. */
  lemma {:induction false} ItemPromosAppend(a: seq<PromoRow>, b: seq<PromoRow>, item: Option<string>)
    ensures ItemPromos(a + b, item) == ItemPromos(a, item) + ItemPromos(b, item)
  {
    if a == [] {
      assert a + b == b;
    } else {
      var h := if item == Some(a[0].longDesc) then [a[0]] else [];
      assert (a + b)[0] == a[0];
      assert (a + b)[1..] == a[1..] + b;
      assert ItemPromos(a + b, item) == h + ItemPromos(a[1..] + b, item);
      assert ItemPromos(a, item) == h + ItemPromos(a[1..], item);
      ItemPromosAppend(a[1..], b, item);
      assert h + (ItemPromos(a[1..], item) + ItemPromos(b, item)) == (h + ItemPromos(a[1..], item)) + ItemPromos(b, item);
    }
  }

  /** Each promo row of the chosen item is kept as often as it occurs, every other row is dropped. */
  lemma {:induction false} ItemPromosCounts(promos: seq<PromoRow>, item: Option<string>)
    ensures forall r :: multiset(ItemPromos(promos, item))[r]
                    == if item == Some(r.longDesc) then multiset(promos)[r] else 0
  {
    if promos != [] {
      ItemPromosCounts(promos[1..], item);
      assert promos == [promos[0]] + promos[1..];
    }
  }

  /** The promo table of the chosen item is empty exactly when no promo row carries its name. */
  lemma ItemPromosEmpty(promos: seq<PromoRow>, item: Option<string>)
    ensures ItemPromos(promos, item) == [] <==> forall j :: 0 <= j < |promos| ==> item != Some(promos[j].longDesc)
  {
    ItemPromosCounts(promos, item);
    var out := ItemPromos(promos, item);
    if out != [] {
      assert out[0] in multiset(out);
      assert out[0] in multiset(promos);
    }
    if exists j :: 0 <= j < |promos| && item == Some(promos[j].longDesc) {
      var j :| 0 <= j < |promos| && item == Some(promos[j].longDesc);
      assert promos[j] in multiset(promos);
      assert promos[j] in multiset(out);
    }
  }
}
