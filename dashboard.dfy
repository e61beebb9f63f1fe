/** The tables behind the sales dashboard of `main.py`: the module-level
    aggregates of the overview sheet (weekday averages, weekly and monthly
    trends, product and promotion rankings, store-type shares, summary
    counts) and the three selector views (store, state, product family). */
module Dashboard {
  import opened Tables
  import opened Masks
  import Periods
  import Ordinal

  /** One transaction row of the concatenated sales data: the columns the
      dashboard reads. `onPromotion` is the number of promoted items. */
  datatype Row = Row(
    store: int, family: string, city: string, state: string, storeType: string,
    dayOfWeek: string, week: int, month: int, year: int,
    sales: real, onPromotion: int)

  /** Why a view has no cards: the selection matched no row, where the
      source's `.iloc[0]`, `.iloc[-1]` or `.index[0]` raises `IndexError`. */
  datatype Error = EmptySelection

  datatype Result<T> = Ok(value: T) | Err(error: Error)

  // ---------------------------------------------------------------------------
  // Columns

  function SalesOf(x: Row): real { x.sales }
  function FamilyOf(x: Row): string { x.family }
  function CityOf(x: Row): string { x.city }
  function StateOf(x: Row): string { x.state }
  function StoreOf(x: Row): int { x.store }
  function StoreTypeOf(x: Row): string { x.storeType }
  function DayOf(x: Row): string { x.dayOfWeek }
  function WeekOf(x: Row): int { x.week }
  function MonthOf(x: Row): int { x.month }
  function YearOf(x: Row): int { x.year }
  function WeekYear(x: Row): (int, int) { (x.week, x.year) }
  function MonthYear(x: Row): (int, int) { (x.month, x.year) }

  /** The `onpromotion` column after `.apply(bool)`: some item was on
      promotion. */
  function PromotedOf(x: Row): bool { x.onPromotion != 0 }

  /** `sales != 0`. */
  predicate Sold(x: Row) { x.sales != 0.0 }

  // ---------------------------------------------------------------------------
  // Overview sheet: average sales per day of the week (l.30)

  function WeekdayAverage(rows: seq<Row>): seq<Group<string>> {
    GroupMean(rows, DayOf, SalesOf)
  }

  /** Each weekday's average is the mean of that day's rows: there is at
      least one, and the average times their number is their total. */
  lemma WeekdayAverageIsMean(rows: seq<Row>, g: Group<string>)
    requires g in WeekdayAverage(rows)
    ensures CountIn(rows, DayOf, {g.key}) > 0
    ensures Times(g.value, CountIn(rows, DayOf, {g.key})) == SumIn(rows, DayOf, SalesOf, {g.key})
  {
  }

  /** Each weekday's average lies between the smallest and the largest sale
      of that day. */
  lemma WeekdayAverageWithinDay(rows: seq<Row>, g: Group<string>)
    requires g in WeekdayAverage(rows)
    ensures exists x :: x in rows && DayOf(x) == g.key && SalesOf(x) <= g.value
    ensures exists x :: x in rows && DayOf(x) == g.key && SalesOf(x) >= g.value
  {
    MeanWithinGroup(rows, DayOf, SalesOf, g);
  }

  // ---------------------------------------------------------------------------
  // Overview sheet: the weekly and monthly line charts (l.54-58, 95-99)

  /** The two lines of a trend chart: `avg_sales` per period and `max_sales`,
      the latter as intended (each period's own maximum). */
  datatype TrendChart = TrendChart(average: seq<Group<int>>, maximum: seq<Option<real>>)

  function WeeklyChart(rows: seq<Row>): TrendChart {
    TrendChart(Periods.Trend(rows, WeekYear, SalesOf), Periods.MaxColumn(rows, WeekYear, SalesOf))
  }

  function MonthlyChart(rows: seq<Row>): TrendChart {
    TrendChart(Periods.Trend(rows, MonthYear, SalesOf), Periods.MaxColumn(rows, MonthYear, SalesOf))
  }

  /** The weekly chart has one point per week present, in increasing week
      order; each point's average times the number of years with that week is
      the week's total sales, and the maximum line lies on or above it. */
  lemma WeeklyChartPoints(rows: seq<Row>, i: nat)
    requires i < |WeeklyChart(rows).average|
    ensures GroupKeys(WeeklyChart(rows).average) == KeySet(rows, WeekOf)
    ensures forall j :: i < j < |WeeklyChart(rows).average| ==> WeeklyChart(rows).average[i].key < WeeklyChart(rows).average[j].key
    ensures |Periods.YearsWith(rows, WeekYear, WeeklyChart(rows).average[i].key)| > 0
    ensures Times(WeeklyChart(rows).average[i].value, |Periods.YearsWith(rows, WeekYear, WeeklyChart(rows).average[i].key)|) ==
            SumIn(rows, WeekOf, SalesOf, {WeeklyChart(rows).average[i].key})
    ensures |WeeklyChart(rows).maximum| == |WeeklyChart(rows).average|
    ensures WeeklyChart(rows).maximum[i].Some? && WeeklyChart(rows).average[i].value <= WeeklyChart(rows).maximum[i].value
  {
    var t := Periods.Trend(rows, WeekYear, SalesOf);
    Periods.TrendPeriods(rows, WeekYear, SalesOf, WeekOf);
    Periods.TrendAscending(rows, WeekYear, SalesOf);
    Periods.TrendIsMeanOverYears(rows, WeekYear, SalesOf, WeekOf, t[i]);
    Periods.MaxColumnAboveMean(rows, WeekYear, SalesOf, i);
  }

  /** The same for the monthly chart. */
  lemma MonthlyChartPoints(rows: seq<Row>, i: nat)
    requires i < |MonthlyChart(rows).average|
    ensures GroupKeys(MonthlyChart(rows).average) == KeySet(rows, MonthOf)
    ensures forall j :: i < j < |MonthlyChart(rows).average| ==> MonthlyChart(rows).average[i].key < MonthlyChart(rows).average[j].key
    ensures |Periods.YearsWith(rows, MonthYear, MonthlyChart(rows).average[i].key)| > 0
    ensures Times(MonthlyChart(rows).average[i].value, |Periods.YearsWith(rows, MonthYear, MonthlyChart(rows).average[i].key)|) ==
            SumIn(rows, MonthOf, SalesOf, {MonthlyChart(rows).average[i].key})
    ensures |MonthlyChart(rows).maximum| == |MonthlyChart(rows).average|
    ensures MonthlyChart(rows).maximum[i].Some? && MonthlyChart(rows).average[i].value <= MonthlyChart(rows).maximum[i].value
  {
    var t := Periods.Trend(rows, MonthYear, SalesOf);
    Periods.TrendPeriods(rows, MonthYear, SalesOf, MonthOf);
    Periods.TrendAscending(rows, MonthYear, SalesOf);
    Periods.TrendIsMeanOverYears(rows, MonthYear, SalesOf, MonthOf, t[i]);
    Periods.MaxColumnAboveMean(rows, MonthYear, SalesOf, i);
  }

  // ---------------------------------------------------------------------------
  // Overview sheet: product families (l.136-139, 163)

  /** Family totals in ascending order (l.136-137). */
  function ProductTotals(rows: seq<Row>): seq<Group<string>> {
    SortedTotals(rows, FamilyOf, SalesOf)
  }

  /** The bar chart's ten best-selling families (l.139). */
  function TopProducts(rows: seq<Row>): seq<Group<string>> {
    TopN(rows, FamilyOf, SalesOf, 10)
  }

  /** The same totals re-sorted by decreasing total (l.163). */
  function ProductRanking(rows: seq<Row>): seq<Group<string>> {
    RankedTotals(rows, FamilyOf, SalesOf)
  }

  /** The family's place in the ranking (l.745). */
  function FamilyRank(rows: seq<Row>, family: string): Option<nat> {
    RankOf(ProductRanking(rows), family)
  }

  // ---------------------------------------------------------------------------
  // Overview sheet: families sold on promotion (l.166-173)

  function PromotedRows(rows: seq<Row>): seq<Row> {
    Select(rows, At(PromotedOf, true))
  }

  function PromotionTotals(rows: seq<Row>): seq<Group<string>> {
    SortedTotals(PromotedRows(rows), FamilyOf, SalesOf)
  }

  function TopPromoted(rows: seq<Row>): seq<Group<string>> {
    TopN(PromotedRows(rows), FamilyOf, SalesOf, 10)
  }

  /** The promotion ranking lists exactly the families having a promoted row,
      each with the sales of its promoted rows only; so does its top ten. */
  lemma PromotionTotalsArePromotedSales(rows: seq<Row>)
    ensures forall f :: f in GroupKeys(PromotionTotals(rows)) <==> (true, f) in KeySet(rows, Pair(PromotedOf, FamilyOf))
    ensures forall g :: g in PromotionTotals(rows) ==> g.value == SumIn(rows, Pair(PromotedOf, FamilyOf), SalesOf, {(true, g.key)})
    ensures forall g :: g in TopPromoted(rows) ==> g.value == SumIn(rows, Pair(PromotedOf, FamilyOf), SalesOf, {(true, g.key)})
  {
    forall f ensures f in KeySet(PromotedRows(rows), FamilyOf) <==> (true, f) in KeySet(rows, Pair(PromotedOf, FamilyOf)) {
      MaskKeys(rows, PromotedOf, true, FamilyOf, f);
    }
    MaskGroups(rows, PromotedOf, true, FamilyOf, SalesOf, PromotionTotals(rows));
    MaskGroups(rows, PromotedOf, true, FamilyOf, SalesOf, TopPromoted(rows));
  }

  // ---------------------------------------------------------------------------
  // Overview sheet: store types and summary counts (l.198, 241-336)

  /** The pie chart's sales per store type (l.198). */
  function StoreTypeTotals(rows: seq<Row>): seq<Group<string>> {
    GroupSum(rows, StoreTypeOf, SalesOf)
  }

  /** The store-type shares make up the total sales. */
  lemma StoreTypeSharesPartition(rows: seq<Row>)
    ensures Sum(StoreTypeTotals(rows), ValueOf) == Sum(rows, SalesOf)
  {
    GroupSumPartitions(rows, StoreTypeOf, SalesOf);
  }

  /** The counts of the summary cards. */
  datatype Counts = Counts(stores: nat, families: nat, years: nat, states: nat, cities: nat, months: nat)

  /** `nunique()` of store, family, year, state and city, and the number of
      (month, year) groups. */
  function Overview(rows: seq<Row>): Counts {
    Counts(DistinctCount(rows, StoreOf), DistinctCount(rows, FamilyOf), DistinctCount(rows, YearOf),
           DistinctCount(rows, StateOf), DistinctCount(rows, CityOf), DistinctCount(rows, MonthYear))
  }

  /** Every year present has at least one month of data, so there are at least
      as many months as years, and no more months than rows. */
  lemma OverviewMonthsCoverYears(rows: seq<Row>)
    ensures Overview(rows).years <= Overview(rows).months <= |rows|
  {
    CoarserKeyFewer(rows, MonthYear, YearOf, Periods.SecondOf);
  }

  // ---------------------------------------------------------------------------
  // Store view (l.571-642)

  function StoreRows(rows: seq<Row>, store: int): seq<Row> {
    Select(rows, At(StoreOf, store))
  }

  /** The store cards and charts: the number of families sold (with non-zero
      sales), the total sales, the store type read off the first row, the
      sales per (year, promoted) pair, and the pie chart's sales per family
      over the rows with non-zero sales. */
  datatype StoreCards = StoreCards(
    products: nat, totalSales: real, storeType: string,
    yearlySales: seq<Group<(int, bool)>>, productShares: seq<Group<string>>)

  function StoreView(rows: seq<Row>, store: int): Result<StoreCards> {
    var mask := StoreRows(rows, store);
    if mask == [] then Err(EmptySelection)
    else
      var sold := Select(mask, Sold);
      Ok(StoreCards(DistinctCount(sold, FamilyOf), Sum(mask, SalesOf), mask[0].storeType,
                    GroupSum(mask, Pair(YearOf, PromotedOf), SalesOf), GroupSum(sold, FamilyOf, SalesOf)))
  }

  /** The store view has cards exactly when the store has rows. */
  lemma StoreViewDefined(rows: seq<Row>, store: int)
    ensures StoreView(rows, store).Ok? <==> store in KeySet(rows, StoreOf)
  {
    MaskNonEmpty(rows, StoreOf, store);
  }

  /** The product card counts the pie chart's slices, which are the families
      the store sold with non-zero sales; the slices make up the store's
      sales. */
  lemma StoreViewProducts(rows: seq<Row>, store: int)
    requires StoreView(rows, store).Ok?
    ensures StoreView(rows, store).value.products == |GroupKeys(StoreView(rows, store).value.productShares)|
    ensures forall f :: f in GroupKeys(StoreView(rows, store).value.productShares) <==>
              exists x :: x in rows && StoreOf(x) == store && Sold(x) && FamilyOf(x) == f
    ensures Sum(StoreView(rows, store).value.productShares, ValueOf) == StoreView(rows, store).value.totalSales
  {
    var mask := StoreRows(rows, store);
    forall f ensures f in KeySet(Select(mask, Sold), FamilyOf) <==> exists x :: x in rows && StoreOf(x) == store && Sold(x) && FamilyOf(x) == f {
      MaskWhereKeys(rows, StoreOf, store, Sold, FamilyOf, f);
    }
    GroupSumPartitions(Select(mask, Sold), FamilyOf, SalesOf);
    SelectDropsZeros(mask, Sold, SalesOf);
  }

  /** The type card shows the store type of the store's first row. */
  lemma StoreViewType(rows: seq<Row>, store: int)
    requires StoreView(rows, store).Ok?
    ensures exists i :: 0 <= i < |rows| && StoreOf(rows[i]) == store && StoreView(rows, store).value.storeType == StoreTypeOf(rows[i]) &&
              forall j :: 0 <= j < i ==> StoreOf(rows[j]) != store
  {
    SelectFirst(rows, At(StoreOf, store));
  }

  /** The sales card is the store's total, and the yearly bars, one per
      (year, promoted) pair, make it up, each the store's sales in that year
      with that promotion status. */
  lemma StoreViewSales(rows: seq<Row>, store: int)
    requires StoreView(rows, store).Ok?
    ensures StoreView(rows, store).value.totalSales == SumIn(rows, StoreOf, SalesOf, {store})
    ensures Sum(StoreView(rows, store).value.yearlySales, ValueOf) == StoreView(rows, store).value.totalSales
    ensures forall g :: g in StoreView(rows, store).value.yearlySales ==>
              g.value == SumIn(rows, Pair(StoreOf, Pair(YearOf, PromotedOf)), SalesOf, {(store, g.key)})
  {
    var mask := StoreRows(rows, store);
    MaskTotal(rows, StoreOf, store, SalesOf);
    GroupSumPartitions(mask, Pair(YearOf, PromotedOf), SalesOf);
    MaskGroups(rows, StoreOf, store, Pair(YearOf, PromotedOf), SalesOf, GroupSum(mask, Pair(YearOf, PromotedOf), SalesOf));
  }

  /** The yearly bars have one bar per (year, promoted) pair occurring among
      the store's rows, and no other bar. */
  lemma StoreViewYearlyBars(rows: seq<Row>, store: int)
    requires StoreView(rows, store).Ok?
    ensures DistinctKeys(StoreView(rows, store).value.yearlySales)
    ensures forall k :: k in GroupKeys(StoreView(rows, store).value.yearlySales) <==>
              (store, k) in KeySet(rows, Pair(StoreOf, Pair(YearOf, PromotedOf)))
  {
    forall k ensures k in KeySet(StoreRows(rows, store), Pair(YearOf, PromotedOf)) <==> (store, k) in KeySet(rows, Pair(StoreOf, Pair(YearOf, PromotedOf))) {
      MaskKeys(rows, StoreOf, store, Pair(YearOf, PromotedOf), k);
    }
  }

  // ---------------------------------------------------------------------------
  // State view (l.660-728)

  function StateRows(rows: seq<Row>, state: string): seq<Row> {
    Select(rows, At(StateOf, state))
  }

  /** The state cards and bar chart: the best-selling family, the total
      sales, the most common store types, and the five best-selling stores. */
  datatype StateCards = StateCards(bestFamily: string, totalSales: real, commonStoreTypes: seq<string>, topStores: seq<Group<int>>)

  function StateView(rows: seq<Row>, state: string): Result<StateCards> {
    var mask := StateRows(rows, state);
    if mask == [] then Err(EmptySelection)
    else
      var categories := DescendingTotals(mask, FamilyOf, SalesOf);
      Ok(StateCards(categories[0].key, Sum(mask, SalesOf), Modes(mask, StoreTypeOf), TopN(mask, StoreOf, SalesOf, 5)))
  }

  /** The state view has cards exactly when the state has rows. */
  lemma StateViewDefined(rows: seq<Row>, state: string)
    ensures StateView(rows, state).Ok? <==> state in KeySet(rows, StateOf)
  {
    MaskNonEmpty(rows, StateOf, state);
  }

  /** The family shown as best sells in the state at least as much as any
      other family does there. */
  lemma StateBestFamily(rows: seq<Row>, state: string)
    requires StateView(rows, state).Ok?
    ensures (state, StateView(rows, state).value.bestFamily) in KeySet(rows, Pair(StateOf, FamilyOf))
    ensures forall x :: x in rows && StateOf(x) == state ==>
              SumIn(rows, Pair(StateOf, FamilyOf), SalesOf, {(state, FamilyOf(x))}) <=
              SumIn(rows, Pair(StateOf, FamilyOf), SalesOf, {(state, StateView(rows, state).value.bestFamily)})
  {
    MaskNonEmpty(rows, StateOf, state);
    MaskBestDescending(rows, StateOf, state, FamilyOf, SalesOf);
  }

  /** The sales card is the state's total. */
  lemma StateViewTotal(rows: seq<Row>, state: string)
    requires StateView(rows, state).Ok?
    ensures StateView(rows, state).value.totalSales == SumIn(rows, StateOf, SalesOf, {state})
  {
    MaskTotal(rows, StateOf, state, SalesOf);
  }

  /** Each of the top stores shows its sales in the state. */
  lemma StateTopStores(rows: seq<Row>, state: string)
    requires StateView(rows, state).Ok?
    ensures forall g :: g in StateView(rows, state).value.topStores ==>
              g.value == SumIn(rows, Pair(StateOf, StoreOf), SalesOf, {(state, g.key)})
  {
    StateTopStoresAreTopN(rows, state);
    MaskGroups(rows, StateOf, state, StoreOf, SalesOf, TopN(StateRows(rows, state), StoreOf, SalesOf, 5));
  }

  /** The store chart shows the state's five best-selling stores (all of
      them when it has fewer), in ascending order of sales, each once: every
      store of the state left off the chart sold there no more than every
      store shown. */
  lemma StateTopStoresAreBest(rows: seq<Row>, state: string)
    requires StateView(rows, state).Ok?
    ensures |StateView(rows, state).value.topStores| == Min(5, |KeySet(StateRows(rows, state), StoreOf)|)
    ensures Ascending(StateView(rows, state).value.topStores, ValueOf)
    ensures DistinctKeys(StateView(rows, state).value.topStores)
    ensures forall g :: g in StateView(rows, state).value.topStores ==> (state, g.key) in KeySet(rows, Pair(StateOf, StoreOf))
    ensures forall k, g :: (state, k) in KeySet(rows, Pair(StateOf, StoreOf)) && k !in GroupKeys(StateView(rows, state).value.topStores) && g in StateView(rows, state).value.topStores ==>
              SumIn(rows, Pair(StateOf, StoreOf), SalesOf, {(state, k)}) <= g.value
  {
    StateTopStoresAreTopN(rows, state);
    MaskTopN(rows, StateOf, state, StoreOf, SalesOf, 5);
  }

  /** Reads the store chart off the state cards: the top five of the state's
      rows. A step for the two lemmas above, which state what it means. */
  lemma StateTopStoresAreTopN(rows: seq<Row>, state: string)
    requires StateView(rows, state).Ok?
    ensures StateView(rows, state).value.topStores == TopN(StateRows(rows, state), StoreOf, SalesOf, 5)
  {
  }

  /** The store-type card lists store types of the state, each occurring
      among the state's rows at least as often as any other type. */
  lemma StateCommonStoreTypes(rows: seq<Row>, state: string)
    requires StateView(rows, state).Ok?
    ensures StateView(rows, state).value.commonStoreTypes != []
    ensures forall m, x :: m in StateView(rows, state).value.commonStoreTypes && x in rows && StateOf(x) == state ==>
              CountIn(StateRows(rows, state), StoreTypeOf, {StoreTypeOf(x)}) <= CountIn(StateRows(rows, state), StoreTypeOf, {m})
  {
    MaskNonEmpty(rows, StateOf, state);
    MaskModes(rows, StateOf, state, StoreTypeOf);
  }

  /** Every store type of maximal frequency in the state is on the card. */
  lemma StateCommonStoreTypesComplete(rows: seq<Row>, state: string)
    requires StateView(rows, state).Ok?
    ensures forall x :: x in rows && StateOf(x) == state && MostCommonIn(StateRows(rows, state), StoreTypeOf, x) ==>
              StoreTypeOf(x) in StateView(rows, state).value.commonStoreTypes
  {
    MaskModes(rows, StateOf, state, StoreTypeOf);
  }

  // ---------------------------------------------------------------------------
  // Product family view (l.745-814)

  function FamilyRows(rows: seq<Row>, family: string): seq<Row> {
    Select(rows, At(FamilyOf, family))
  }

  /** The family cards and bar chart: the state where it sold best, its total
      sales, its place in the product ranking written as an ordinal, and the
      ten cities where it sold best. */
  datatype FamilyCards = FamilyCards(bestState: string, totalSales: real, place: string, topCities: seq<Group<string>>)

  function FamilyView(rows: seq<Row>, family: string): Result<FamilyCards> {
    match FamilyRank(rows, family)
    case None => Err(EmptySelection)
    case Some(rank) =>
      RankBounds(rows, FamilyOf, SalesOf, family);
      MaskNonEmpty(rows, FamilyOf, family);
      var mask := FamilyRows(rows, family);
      var states := SortedTotals(mask, StateOf, SalesOf);
      Ok(FamilyCards(Last(states).key, Sum(mask, SalesOf), Ordinal.Format(rank), TopN(mask, CityOf, SalesOf, 10)))
  }

  /** The family view has cards exactly when the family has rows. */
  lemma FamilyViewDefined(rows: seq<Row>, family: string)
    ensures FamilyView(rows, family).Ok? <==> family in KeySet(rows, FamilyOf)
  {
    RankBounds(rows, FamilyOf, SalesOf, family);
  }

  /** The place card writes the family's rank, between 1 and the number of
      families, as digits and an English ordinal suffix. */
  lemma FamilyViewPlace(rows: seq<Row>, family: string)
    requires FamilyView(rows, family).Ok?
    ensures FamilyRank(rows, family).Some?
    ensures 1 <= FamilyRank(rows, family).value <= DistinctCount(rows, FamilyOf)
    ensures FamilyView(rows, family).value.place ==
              Ordinal.Decimal(FamilyRank(rows, family).value) + Ordinal.EnglishSuffix(FamilyRank(rows, family).value)
  {
    RankBounds(rows, FamilyOf, SalesOf, family);
  }

  /** The state shown as best is one where the family sold at least as much as
      in any other state. */
  lemma FamilyBestState(rows: seq<Row>, family: string)
    requires FamilyView(rows, family).Ok?
    ensures (family, FamilyView(rows, family).value.bestState) in KeySet(rows, Pair(FamilyOf, StateOf))
    ensures forall x :: x in rows && FamilyOf(x) == family ==>
              SumIn(rows, Pair(FamilyOf, StateOf), SalesOf, {(family, StateOf(x))}) <=
              SumIn(rows, Pair(FamilyOf, StateOf), SalesOf, {(family, FamilyView(rows, family).value.bestState)})
  {
    RankBounds(rows, FamilyOf, SalesOf, family);
    MaskBestAscending(rows, FamilyOf, family, StateOf, SalesOf);
  }

  /** The sales card is the family's total. */
  lemma FamilyViewTotal(rows: seq<Row>, family: string)
    requires FamilyView(rows, family).Ok?
    ensures FamilyView(rows, family).value.totalSales == SumIn(rows, FamilyOf, SalesOf, {family})
  {
    RankBounds(rows, FamilyOf, SalesOf, family);
    MaskTotal(rows, FamilyOf, family, SalesOf);
  }

  /** The city chart shows the ten cities where the family sold best (all of
      them when there are fewer), in ascending order of sales, each once:
      every city left off the chart sold the family no more than every city
      shown. */
  lemma FamilyTopCitiesAreBest(rows: seq<Row>, family: string)
    requires FamilyView(rows, family).Ok?
    ensures |FamilyView(rows, family).value.topCities| == Min(10, |KeySet(FamilyRows(rows, family), CityOf)|)
    ensures Ascending(FamilyView(rows, family).value.topCities, ValueOf)
    ensures DistinctKeys(FamilyView(rows, family).value.topCities)
    ensures forall g :: g in FamilyView(rows, family).value.topCities ==> (family, g.key) in KeySet(rows, Pair(FamilyOf, CityOf))
    ensures forall k, g :: (family, k) in KeySet(rows, Pair(FamilyOf, CityOf)) && k !in GroupKeys(FamilyView(rows, family).value.topCities) && g in FamilyView(rows, family).value.topCities ==>
              SumIn(rows, Pair(FamilyOf, CityOf), SalesOf, {(family, k)}) <= g.value
  {
    RankBounds(rows, FamilyOf, SalesOf, family);
    MaskTopN(rows, FamilyOf, family, CityOf, SalesOf, 10);
  }

  /** Each of the top cities shows the family's sales there. */
  lemma FamilyTopCities(rows: seq<Row>, family: string)
    requires FamilyView(rows, family).Ok?
    ensures forall g :: g in FamilyView(rows, family).value.topCities ==>
              g.value == SumIn(rows, Pair(FamilyOf, CityOf), SalesOf, {(family, g.key)})
  {
    RankBounds(rows, FamilyOf, SalesOf, family);
    MaskGroups(rows, FamilyOf, family, CityOf, SalesOf, TopN(FamilyRows(rows, family), CityOf, SalesOf, 10));
  }
}
