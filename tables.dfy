/** The rows the dashboard reads once its two CSV files are parsed, and the
    per-UPC summary row it derives from them. Dates are day numbers, so that
    ordering by date is ordering on integers; money and lift are reals. */
module PromoTables {

  datatype Option<T> = None | Some(value: T)

  /** One row of the promo-period table: one promotion period of one item. */
  datatype PromoRow = PromoRow(
    upc: int,
    longDesc: string,
    salePeriod: int,
    promoStart: int,
    promoEnd: int,
    promoLength: int,
    promoRevenue: real,
    precedingNonPromoRevenue: real,
    lift: real,
    promoProfit: real,
    precedingNonPromoProfit: real,
    profitDifference: real)

  /** One row of the daily sales table. The item name may be missing. */
  datatype SalesRow = SalesRow(
    longDesc: Option<string>,
    saleDate: int,
    itemsSold: int,
    currPrice: real,
    regRetail: real)

  /** One row of the per-UPC summary that feeds the scatter chart. */
  datatype UpcSummary = UpcSummary(
    upc: int,
    itemName: string,
    avgProfit: real,
    avgLift: real,
    totalRevenue: real,
    totalProfit: real,
    promoCount: nat)
}
