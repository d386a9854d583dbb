/** The listing engine behind `AdsRepo.GetAll`, modelled twice:
    - `BuildQuery` builds the query plan the way the repository does (price
      filters with numbered placeholders, ORDER BY, LIMIT, OFFSET and the
      argument list bound to the placeholders);
    - `Listing` is what a listing means over the joined rows: keep the rows in
      the price range, sort them by the requested key, drop `offset` rows and
      take `limit`.
    `Select` evaluates a plan the way the database does, and `BuildQuery`
    proves that the plan it builds selects exactly `Listing`. The SQL text
    itself (Sprintf, Join of the WHERE clause) is represented by its structure. */
module AdQuery {
  import opened Entity

  /** Page size used when the query gives none. */
  const DefaultLimit: int := 10

  /** `a.price >= $k` or `a.price <= $k`. */
  datatype Comparison = AtLeast | AtMost

  datatype Filter = PriceFilter(comparison: Comparison, param: nat)

  /** A value bound to a placeholder. */
  datatype Arg = PriceArg(price: real) | CountArg(count: int)

  datatype SortColumn = ByPrice | ByCreatedAt

  datatype Direction = Asc | Desc

  /** The parameterised SELECT: the filters are ANDed in the WHERE clause,
      `args[k - 1]` is the value bound to placeholder `$k`. */
  datatype QueryPlan = QueryPlan(
    filters: seq<Filter>,
    orderBy: SortColumn,
    direction: Direction,
    limitParam: nat,
    offsetParam: nat,
    args: seq<Arg>)

  // ---------------------------------------------------------------------------
  // What the query asks for

  /** ASCII upper-casing (`strings.ToUpper` on ASCII letters). */
  function ToUpperAscii(c: char): char {
    if 'a' <= c <= 'z' then (c as int - 32) as char else c
  }

  function ToUpper(s: string): string {
    seq(|s|, i requires 0 <= i < |s| => ToUpperAscii(s[i]))
  }

  /** The sort key: price only for "price"; "date" and anything else sort by
      creation time. */
  function ColumnFor(sortBy: string): (column: SortColumn)
    ensures sortBy == "price" ==> column == ByPrice
    ensures sortBy == "date" ==> column == ByCreatedAt
  {
    if sortBy == "price" then ByPrice else ByCreatedAt
  }

  /** Ascending only when the direction upper-cases to "ASC": "asc" in any
      mix of letter cases, and nothing else. */
  function DirectionFor(sortDir: string): (d: Direction)
    ensures d == Asc <==> |sortDir| == 3 && sortDir[0] in "aA" && sortDir[1] in "sS" && sortDir[2] in "cC"
  {
    UpperIsAsc(sortDir);
    if ToUpper(sortDir) == "ASC" then Asc else Desc
  }

  /** Upper-casing gives "ASC" exactly for "asc" in any mix of letter cases. */
  lemma UpperIsAsc(s: string)
    ensures ToUpper(s) == "ASC" <==> |s| == 3 && s[0] in "aA" && s[1] in "sS" && s[2] in "cC"
  {
    if |s| == 3 {
      assert ToUpper(s) == [ToUpperAscii(s[0]), ToUpperAscii(s[1]), ToUpperAscii(s[2])];
    }
  }

  /** The page size: the requested one when positive, else the default; it
      is never below 1. */
  function LimitFor(q: GetAdsQuery): (limit: int)
    ensures limit >= 1
    ensures q.limit > 0 ==> limit == q.limit
  {
    if q.limit > 0 then q.limit else DefaultLimit
  }

  /** The number of rows skipped: none for page 1 or below, at least one whole
      page for any later page. */
  function OffsetFor(q: GetAdsQuery): (offset: int)
    ensures offset >= 0
    ensures q.page <= 1 ==> offset == 0
    ensures q.page > 1 ==> offset >= LimitFor(q)
  {
    if q.page > 1 then
      MultiplyMonotone(q.page - 1, LimitFor(q));
      (q.page - 1) * LimitFor(q)
    else 0
  }

  /** The price bounds of the query; a bound of 0 (or below) is no bound. */
  predicate PriceInRange(q: GetAdsQuery, price: real): (inRange: bool)
    ensures q.minPrice <= 0.0 && q.maxPrice <= 0.0 ==> inRange
    ensures q.minPrice > q.maxPrice > 0.0 ==> !inRange
  {
    && (q.minPrice > 0.0 ==> price >= q.minPrice)
    && (q.maxPrice > 0.0 ==> price <= q.maxPrice)
  }

  function QueryKeeps(q: GetAdsQuery): AdWithAuthor -> bool {
    (row: AdWithAuthor) => PriceInRange(q, row.price)
  }

  // ---------------------------------------------------------------------------
  // Filtering, ordering and windowing rows

  /** The rows `keep` accepts, in their original order. */
  function FilterRows(rows: seq<AdWithAuthor>, keep: AdWithAuthor -> bool): (kept: seq<AdWithAuthor>)
    ensures forall i :: 0 <= i < |kept| ==> keep(kept[i])
    ensures multiset(kept) <= multiset(rows)
    ensures forall row :: row in rows && keep(row) ==> row in kept
  {
    if rows == [] then []
    else
      assert rows == [rows[0]] + rows[1..];
      (if keep(rows[0]) then [rows[0]] else []) + FilterRows(rows[1..], keep)
  }

  function Key(row: AdWithAuthor, column: SortColumn): real {
    match column
    case ByPrice => row.price
    case ByCreatedAt => row.createdAt as real
  }

  /** `a` may come before `b` in the requested order. Equal keys may come in
      either order: the database has no tie-breaker. */
  predicate Before(a: AdWithAuthor, b: AdWithAuthor, column: SortColumn, direction: Direction) {
    match direction
    case Asc => Key(a, column) <= Key(b, column)
    case Desc => Key(a, column) >= Key(b, column)
  }

  predicate SortedBy(rows: seq<AdWithAuthor>, column: SortColumn, direction: Direction) {
    forall i, j :: 0 <= i < j < |rows| ==> Before(rows[i], rows[j], column, direction)
  }

  function Insert(x: AdWithAuthor, sorted: seq<AdWithAuthor>, column: SortColumn, direction: Direction): (r: seq<AdWithAuthor>)
    ensures |r| == |sorted| + 1
  {
    if sorted == [] then [x]
    else if Before(x, sorted[0], column, direction) then [x] + sorted
    else [sorted[0]] + Insert(x, sorted[1..], column, direction)
  }

  /** One ordering of `rows` by the key; where keys tie, the database may
      return any other, and the model promises nothing about tied rows. */
  function SortRows(rows: seq<AdWithAuthor>, column: SortColumn, direction: Direction): (r: seq<AdWithAuthor>)
    ensures |r| == |rows|
  {
    if rows == [] then []
    else Insert(rows[0], SortRows(rows[1..], column, direction), column, direction)
  }

  /** LIMIT/OFFSET: skip `offset` rows, then take at most `limit`. */
  function Window(rows: seq<AdWithAuthor>, offset: int, limit: int): seq<AdWithAuthor>
    requires 0 <= offset && 0 <= limit
  {
    if offset >= |rows| then [] else rows[offset..Min(|rows|, offset + limit)]
  }

  /** The rows of the table that match the query's price bounds. */
  function Matching(q: GetAdsQuery, rows: seq<AdWithAuthor>): seq<AdWithAuthor> {
    FilterRows(rows, QueryKeeps(q))
  }

  /** The matching rows in the requested order. */
  function Ordered(q: GetAdsQuery, rows: seq<AdWithAuthor>): seq<AdWithAuthor> {
    SortRows(Matching(q, rows), ColumnFor(q.sortBy), DirectionFor(q.sortDir))
  }

  /** The page of the listing the query asks for. */
  function Listing(q: GetAdsQuery, rows: seq<AdWithAuthor>): (page: seq<AdWithAuthor>)
    ensures |page| <= LimitFor(q)
  {
    Window(Ordered(q, rows), OffsetFor(q), LimitFor(q))
  }

  // ---------------------------------------------------------------------------
  // What a plan selects

  function ArgAt(plan: QueryPlan, k: nat): Option<Arg> {
    if 1 <= k <= |plan.args| then Some(plan.args[k - 1]) else None
  }

  predicate IsCount(a: Option<Arg>) {
    a.Some? && a.value.CountArg? && a.value.count >= 0
  }

  /** Every placeholder is bound to a value of the right kind. */
  predicate WellFormed(plan: QueryPlan) {
    && (forall i :: 0 <= i < |plan.filters| ==>
          ArgAt(plan, plan.filters[i].param).Some? && ArgAt(plan, plan.filters[i].param).value.PriceArg?)
    && IsCount(ArgAt(plan, plan.limitParam))
    && IsCount(ArgAt(plan, plan.offsetParam))
  }

  /** Placeholders are $1..$n in order of appearance and `args` has exactly n
      entries: the filter bounds, then the limit, then the offset. */
  predicate NumberedConsecutively(plan: QueryPlan) {
    && (forall i :: 0 <= i < |plan.filters| ==> plan.filters[i].param == i + 1)
    && plan.limitParam == |plan.filters| + 1
    && plan.offsetParam == |plan.filters| + 2
    && |plan.args| == |plan.filters| + 2
  }

  predicate FilterHolds(plan: QueryPlan, f: Filter, row: AdWithAuthor) {
    match ArgAt(plan, f.param)
    case Some(PriceArg(bound)) =>
      (match f.comparison
       case AtLeast => row.price >= bound
       case AtMost => row.price <= bound)
    case _ => false
  }

  /** The WHERE clause: every filter holds. */
  predicate RowPasses(plan: QueryPlan, row: AdWithAuthor) {
    forall i :: 0 <= i < |plan.filters| ==> FilterHolds(plan, plan.filters[i], row)
  }

  function PlanKeeps(plan: QueryPlan): AdWithAuthor -> bool {
    (row: AdWithAuthor) => RowPasses(plan, row)
  }

  function LimitOf(plan: QueryPlan): int
    requires WellFormed(plan)
  {
    ArgAt(plan, plan.limitParam).value.count
  }

  function OffsetOf(plan: QueryPlan): int
    requires WellFormed(plan)
  {
    ArgAt(plan, plan.offsetParam).value.count
  }

  /** The rows the database returns for `plan` when it scans `rows`. */
  function Select(plan: QueryPlan, rows: seq<AdWithAuthor>): (page: seq<AdWithAuthor>)
    requires WellFormed(plan)
    ensures |page| <= LimitOf(plan)
  {
    Window(SortRows(FilterRows(rows, PlanKeeps(plan)), plan.orderBy, plan.direction), OffsetOf(plan), LimitOf(plan))
  }

  // ---------------------------------------------------------------------------
  // Building the plan

  /** Builds the listing query from the request parameters, appending filters
      and arguments and numbering placeholders with a running counter. */
  method BuildQuery(q: GetAdsQuery) returns (plan: QueryPlan)
    ensures WellFormed(plan) && NumberedConsecutively(plan)
    ensures |plan.filters| == (if q.minPrice > 0.0 then 1 else 0) + (if q.maxPrice > 0.0 then 1 else 0)
    ensures q.minPrice > 0.0 ==> plan.filters[0].comparison == AtLeast && plan.args[0] == PriceArg(q.minPrice)
    ensures q.maxPrice > 0.0 ==>
              && plan.filters[|plan.filters| - 1].comparison == AtMost
              && plan.args[|plan.filters| - 1] == PriceArg(q.maxPrice)
    ensures forall row :: RowPasses(plan, row) <==> PriceInRange(q, row.price)
    ensures plan.orderBy == ByPrice <==> q.sortBy == "price"
    ensures plan.direction == Asc <==> ToUpper(q.sortDir) == "ASC"
    ensures LimitOf(plan) == LimitFor(q) && LimitOf(plan) >= 1
    ensures OffsetOf(plan) == OffsetFor(q)
    ensures forall rows :: Select(plan, rows) == Listing(q, rows)
  {
    var filters: seq<Filter> := [];
    var args: seq<Arg> := [];
    var argId := 1;

    if q.minPrice > 0.0 {
      filters := filters + [PriceFilter(AtLeast, argId)];
      args := args + [PriceArg(q.minPrice)];
      argId := argId + 1;
    }
    if q.maxPrice > 0.0 {
      filters := filters + [PriceFilter(AtMost, argId)];
      args := args + [PriceArg(q.maxPrice)];
      argId := argId + 1;
    }

    var orderBy := ByCreatedAt;
    if q.sortBy == "price" {
      orderBy := ByPrice;
    } else if q.sortBy == "date" {
      orderBy := ByCreatedAt;
    }

    var direction := Desc;
    if ToUpper(q.sortDir) == "ASC" {
      direction := Asc;
    }

    var limit := DefaultLimit;
    if q.limit > 0 {
      limit := q.limit;
    }
    var limitParam := argId;
    args := args + [CountArg(limit)];
    argId := argId + 1;

    var offset := 0;
    if q.page > 1 {
      offset := (q.page - 1) * limit;
    }
    var offsetParam := argId;
    args := args + [CountArg(offset)];

    plan := QueryPlan(filters, orderBy, direction, limitParam, offsetParam, args);

    PriceFiltersMatchBounds(q, plan);
    PlanSelectsListing(q, plan);
  }

  // ---------------------------------------------------------------------------
  // Lemmas

  /** A WHERE clause of a lower-bound filter for a positive minimum, then an
      upper-bound filter for a positive maximum, each bound to its price,
      passes exactly the rows in the query's price range. */
  lemma PriceFiltersMatchBounds(q: GetAdsQuery, plan: QueryPlan)
    requires WellFormed(plan) && NumberedConsecutively(plan)
    requires |plan.filters| == (if q.minPrice > 0.0 then 1 else 0) + (if q.maxPrice > 0.0 then 1 else 0)
    requires q.minPrice > 0.0 ==> plan.filters[0].comparison == AtLeast && plan.args[0] == PriceArg(q.minPrice)
    requires q.maxPrice > 0.0 ==>
               && plan.filters[|plan.filters| - 1].comparison == AtMost
               && plan.args[|plan.filters| - 1] == PriceArg(q.maxPrice)
    ensures forall row :: RowPasses(plan, row) <==> PriceInRange(q, row.price)
  {
    forall row | true
      ensures RowPasses(plan, row) <==> PriceInRange(q, row.price)
    {
      if q.minPrice > 0.0 {
        assert FilterHolds(plan, plan.filters[0], row) <==> row.price >= q.minPrice;
      }
      if q.maxPrice > 0.0 {
        var last := |plan.filters| - 1;
        assert FilterHolds(plan, plan.filters[last], row) <==> row.price <= q.maxPrice;
      }
    }
  }

  /** A plan that filters by the query's price bounds, orders by the query's
      key and direction and windows by the query's limit and offset selects
      exactly the query's listing, whatever the table holds. */
  lemma PlanSelectsListing(q: GetAdsQuery, plan: QueryPlan)
    requires WellFormed(plan)
    requires forall row :: RowPasses(plan, row) <==> PriceInRange(q, row.price)
    requires plan.orderBy == ColumnFor(q.sortBy) && plan.direction == DirectionFor(q.sortDir)
    requires LimitOf(plan) == LimitFor(q) && OffsetOf(plan) == OffsetFor(q)
    ensures forall rows :: Select(plan, rows) == Listing(q, rows)
  {
    forall rows: seq<AdWithAuthor> | true
      ensures Select(plan, rows) == Listing(q, rows)
    {
      FilterRowsExtensional(rows, PlanKeeps(plan), QueryKeeps(q));
    }
  }

  lemma MultiplyMonotone(a: int, b: int)
    requires a >= 1 && b >= 1
    ensures a * b >= b
  {
    assert a * b == (a - 1) * b + b;
    assert (a - 1) * b >= 0;
  }

  /** A kept row appears as often as in the input; a rejected one not at all. */
  lemma {:induction false} FilterRowsCounts(rows: seq<AdWithAuthor>, keep: AdWithAuthor -> bool)
    ensures forall row :: multiset(FilterRows(rows, keep))[row] == if keep(row) then multiset(rows)[row] else 0
  {
    if rows != [] {
      assert rows == [rows[0]] + rows[1..];
      FilterRowsCounts(rows[1..], keep);
    }
  }

  /** Filtering keeps the input order: filtering a concatenation filters each
      part in turn. */
  lemma {:induction false} FilterRowsAppend(a: seq<AdWithAuthor>, b: seq<AdWithAuthor>, keep: AdWithAuthor -> bool)
    ensures FilterRows(a + b, keep) == FilterRows(a, keep) + FilterRows(b, keep)
  {
    if a == [] {
      assert a + b == b;
    } else {
      assert (a + b)[1..] == a[1..] + b;
      FilterRowsAppend(a[1..], b, keep);
    }
  }

  /** Filtering with two predicates that agree on every row gives the same rows. */
  lemma {:induction false} FilterRowsExtensional(rows: seq<AdWithAuthor>, k1: AdWithAuthor -> bool, k2: AdWithAuthor -> bool)
    requires forall row :: k1(row) == k2(row)
    ensures FilterRows(rows, k1) == FilterRows(rows, k2)
  {
    if rows != [] {
      FilterRowsExtensional(rows[1..], k1, k2);
    }
  }

  /** Inserting adds exactly `x`. */
  lemma {:induction false} InsertAddsOne(x: AdWithAuthor, s: seq<AdWithAuthor>, column: SortColumn, direction: Direction)
    ensures multiset(Insert(x, s, column, direction)) == multiset(s) + multiset{x}
  {
    if s != [] && !Before(x, s[0], column, direction) {
      assert s == [s[0]] + s[1..];
      InsertAddsOne(x, s[1..], column, direction);
    }
  }

  /** Inserting into a sorted sequence keeps it sorted. */
  lemma {:induction false} InsertSorted(x: AdWithAuthor, s: seq<AdWithAuthor>, column: SortColumn, direction: Direction)
    requires SortedBy(s, column, direction)
    ensures SortedBy(Insert(x, s, column, direction), column, direction)
  {
    if s != [] && !Before(x, s[0], column, direction) {
      InsertSorted(x, s[1..], column, direction);
      InsertAddsOne(x, s[1..], column, direction);
      var rest := Insert(x, s[1..], column, direction);
      forall j | 0 <= j < |rest|
        ensures Before(s[0], rest[j], column, direction)
      {
        assert rest[j] in multiset(rest);
        if rest[j] != x {
          assert rest[j] in multiset(s[1..]);
          var k :| 0 <= k < |s[1..]| && s[1..][k] == rest[j];
          assert s[k + 1] == rest[j];
        }
      }
    }
  }

  /** `SortRows` orders the rows by the key and is a permutation of them. */
  lemma {:induction false} SortRowsSortedPermutation(rows: seq<AdWithAuthor>, column: SortColumn, direction: Direction)
    ensures SortedBy(SortRows(rows, column, direction), column, direction)
    ensures multiset(SortRows(rows, column, direction)) == multiset(rows)
  {
    if rows != [] {
      assert rows == [rows[0]] + rows[1..];
      SortRowsSortedPermutation(rows[1..], column, direction);
      InsertSorted(rows[0], SortRows(rows[1..], column, direction), column, direction);
      InsertAddsOne(rows[0], SortRows(rows[1..], column, direction), column, direction);
    }
  }

  /** A window is the slice that starts at `offset` and has at most `limit` rows. */
  lemma WindowSlice(rows: seq<AdWithAuthor>, offset: int, limit: int)
    requires 0 <= offset && 0 <= limit
    ensures |Window(rows, offset, limit)| == Min(limit, Max(0, |rows| - offset))
    ensures forall i :: 0 <= i < |Window(rows, offset, limit)| ==> Window(rows, offset, limit)[i] == rows[offset + i]
    ensures multiset(Window(rows, offset, limit)) <= multiset(rows)
  {
    if offset < |rows| {
      var end := Min(|rows|, offset + limit);
      assert rows == rows[..offset] + rows[offset..end] + rows[end..];
    }
  }

  /** The page holds matching rows of the table, in the requested order. */
  lemma ListingContents(q: GetAdsQuery, rows: seq<AdWithAuthor>)
    ensures SortedBy(Listing(q, rows), ColumnFor(q.sortBy), DirectionFor(q.sortDir))
    ensures multiset(Listing(q, rows)) <= multiset(rows)
    ensures forall row :: row in Listing(q, rows) ==> row in rows && PriceInRange(q, row.price)
  {
    var ordered := Ordered(q, rows);
    SortRowsSortedPermutation(Matching(q, rows), ColumnFor(q.sortBy), DirectionFor(q.sortDir));
    WindowSlice(ordered, OffsetFor(q), LimitFor(q));
    var page := Listing(q, rows);
    forall row | row in page
      ensures row in rows && PriceInRange(q, row.price)
    {
      assert row in multiset(page);
      assert row in multiset(Matching(q, rows));
      var i :| 0 <= i < |Matching(q, rows)| && Matching(q, rows)[i] == row;
    }
  }

  /** The page is the run of the ordered matching rows that starts at the
      offset, and has `min(limit, rows left)` rows. */
  lemma ListingWindow(q: GetAdsQuery, rows: seq<AdWithAuthor>)
    ensures |Listing(q, rows)| == Min(LimitFor(q), Max(0, |Matching(q, rows)| - OffsetFor(q)))
    ensures forall i :: 0 <= i < |Listing(q, rows)| ==>
              OffsetFor(q) + i < |Ordered(q, rows)| && Listing(q, rows)[i] == Ordered(q, rows)[OffsetFor(q) + i]
  {
    WindowSlice(Ordered(q, rows), OffsetFor(q), LimitFor(q));
  }

  /** Page 2 of size 10 holds items 11 to 20 of the ordered matching rows. */
  lemma SecondPageOfTen(q: GetAdsQuery, rows: seq<AdWithAuthor>)
    requires q.page == 2 && q.limit == 10
    ensures var ordered := Ordered(q, rows);
            Listing(q, rows) == if |ordered| <= 10 then [] else ordered[10..Min(20, |ordered|)]
  {
  }

  /** With both bounds at the same positive price, only ads at exactly that
      price are listed. */
  lemma EqualBoundsSelectExactPrice(q: GetAdsQuery, rows: seq<AdWithAuthor>)
    requires q.minPrice == q.maxPrice && q.minPrice > 0.0
    ensures forall row :: row in Listing(q, rows) ==> row.price == q.minPrice
  {
    ListingContents(q, rows);
  }

  /** A page number of 1 or less asks for the first page. */
  lemma PageAtMostOneIsFirstPage(q: GetAdsQuery, rows: seq<AdWithAuthor>)
    requires q.page <= 1
    ensures OffsetFor(q) == 0
    ensures Listing(q, rows) == Listing(q.(page := 1), rows)
  {
    FilterRowsExtensional(rows, QueryKeeps(q), QueryKeeps(q.(page := 1)));
  }
}
