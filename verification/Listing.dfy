/** The order listing: a query built condition by condition, and its pages. */
module Listing {
  import opened Base
  import opened Orders

  // ---- Filters ----

  datatype Condition =
    | OwnedBy(userId: string)
    | StatusIn(statuses: seq<Status>)
    | CreatedFrom(from: int)
    | CreatedTo(to: int)
    | TotalFrom(min: real)
    | TotalTo(max: real)
    | CurrencyIs(currency: Currency)

  predicate Meets(c: Condition, o: Order) {
    match c
    case OwnedBy(u) => o.userId == u
    case StatusIn(ss) => o.status in ss
    case CreatedFrom(t) => o.createdAt >= t
    case CreatedTo(t) => o.createdAt <= t
    case TotalFrom(x) => o.total >= x
    case TotalTo(x) => o.total <= x
    case CurrencyIs(cur) => o.currency == cur
  }

  predicate MeetsAll(cs: seq<Condition>, o: Order) {
    forall c :: c in cs ==> Meets(c, o)
  }

  /** Statuses and currencies arrive as wire codes; code 0 is unspecified, unknown codes exist. */
  datatype Filters = Filters(
    statuses: seq<int>, dateFrom: Option<int>, dateTo: Option<int>,
    minPrice: Option<real>, maxPrice: Option<real>, currency: int)

  function StatusOf(code: int): Option<Status> {
    match code
    case 1 => Some(Pending)
    case 2 => Some(Confirmed)
    case 3 => Some(Processing)
    case 4 => Some(Shipped)
    case 5 => Some(Delivered)
    case 6 => Some(Cancelled)
    case 7 => Some(Refunded)
    case _ => None
  }

  function CurrencyOf(code: int): Option<Currency> {
    match code
    case 1 => Some(USD)
    case 2 => Some(EUR)
    case 3 => Some(GBP)
    case 4 => Some(UAH)
    case _ => None
  }

  /** What the caller means: each given bound holds, and some known status or currency matches if one was given. */
  ghost predicate Wanted(f: Filters, o: Order) {
    && ((exists code :: code in f.statuses && StatusOf(code).Some?) ==>
          exists code :: code in f.statuses && StatusOf(code) == Some(o.status))
    && (f.dateFrom.Some? ==> o.createdAt >= f.dateFrom.value)
    && (f.dateTo.Some? ==> o.createdAt <= f.dateTo.value)
    && (f.minPrice.Some? ==> o.total >= f.minPrice.value)
    && (f.maxPrice.Some? ==> o.total <= f.maxPrice.value)
    && (CurrencyOf(f.currency).Some? ==> o.currency == CurrencyOf(f.currency).value)
  }

  function Known(codes: seq<int>): (r: seq<Status>)
    ensures forall s :: s in r <==> exists code :: code in codes && StatusOf(code) == Some(s)
  {
    if codes == [] then []
    else
      var rest := Known(codes[1..]);
      assert codes == [codes[0]] + codes[1..];
      match StatusOf(codes[0])
      case None => rest
      case Some(s) => [s] + rest
  }

  /** The wire codes 1 to 7 name the statuses in their declared order, and no other code names one. */
  lemma StatusCodes(code: int)
    ensures StatusOf(code) == if 1 <= code <= 7
                              then Some([Pending, Confirmed, Processing, Shipped, Delivered, Cancelled, Refunded][code - 1])
                              else None
  {
  }

  /** The wire codes 1 to 4 name the currencies, and no other code names one. */
  lemma CurrencyCodes(code: int)
    ensures CurrencyOf(code) == if 1 <= code <= 4 then Some([USD, EUR, GBP, UAH][code - 1]) else None
  {
  }

  /** The groups of conditions a filter turns into, in the order they are added. */
  function StatusPart(f: Filters): seq<Condition> {
    if Known(f.statuses) != [] then [StatusIn(Known(f.statuses))] else []
  }

  function DatePart(f: Filters): seq<Condition> {
    (if f.dateFrom.Some? then [CreatedFrom(f.dateFrom.value)] else [])
    + (if f.dateTo.Some? then [CreatedTo(f.dateTo.value)] else [])
  }

  function PricePart(f: Filters): seq<Condition> {
    (if f.minPrice.Some? then [TotalFrom(f.minPrice.value)] else [])
    + (if f.maxPrice.Some? then [TotalTo(f.maxPrice.value)] else [])
  }

  function CurrencyPart(f: Filters): seq<Condition> {
    if f.currency != 0 && CurrencyOf(f.currency).Some? then [CurrencyIs(CurrencyOf(f.currency).value)] else []
  }

  function ConditionsOf(f: Filters): seq<Condition> {
    StatusPart(f) + DatePart(f) + PricePart(f) + CurrencyPart(f)
  }

  lemma MeetsBoth(a: seq<Condition>, b: seq<Condition>, o: Order)
    ensures MeetsAll(a + b, o) <==> MeetsAll(a, o) && MeetsAll(b, o)
  {
    if MeetsAll(a + b, o) {
      assert forall c :: c in a || c in b ==> c in a + b;
    }
  }

  /**
   The built query denotes the intended conjunction: unspecified or unknown statuses and currencies impose
   nothing, and a bound of zero counts as a bound.
   */
  lemma FiltersMean(f: Filters, o: Order)
    ensures MeetsAll(ConditionsOf(f), o) <==> Wanted(f, o)
  {
    MeetsBoth(StatusPart(f), DatePart(f), o);
    MeetsBoth(StatusPart(f) + DatePart(f), PricePart(f), o);
    MeetsBoth(StatusPart(f) + DatePart(f) + PricePart(f), CurrencyPart(f), o);
    StatusesMean(f, o);
    BoundsMean(f, o);
  }

  lemma MeetsOne(c: Condition, o: Order)
    ensures MeetsAll([c], o) <==> Meets(c, o)
  {
    assert c in [c];
  }

  lemma StatusesMean(f: Filters, o: Order)
    ensures MeetsAll(StatusPart(f), o) <==>
              ((exists code :: code in f.statuses && StatusOf(code).Some?) ==>
                exists code :: code in f.statuses && StatusOf(code) == Some(o.status))
  {
    var statuses := Known(f.statuses);
    MeetsOne(StatusIn(statuses), o);
    if statuses != [] {
      assert statuses[0] in statuses;
    }
    if code :| code in f.statuses && StatusOf(code).Some? {
      assert StatusOf(code).value in statuses;
    }
  }

  lemma MeetsPair(a: seq<Condition>, b: seq<Condition>, o: Order)
    requires |a| <= 1 && |b| <= 1
    ensures MeetsAll(a + b, o) <==> (a != [] ==> Meets(a[0], o)) && (b != [] ==> Meets(b[0], o))
  {
    MeetsBoth(a, b, o);
    if a != [] {
      MeetsOne(a[0], o);
    }
    if b != [] {
      MeetsOne(b[0], o);
    }
  }

  lemma BoundsMean(f: Filters, o: Order)
    ensures MeetsAll(DatePart(f), o) <==>
              (f.dateFrom.Some? ==> o.createdAt >= f.dateFrom.value) && (f.dateTo.Some? ==> o.createdAt <= f.dateTo.value)
    ensures MeetsAll(PricePart(f), o) <==>
              (f.minPrice.Some? ==> o.total >= f.minPrice.value) && (f.maxPrice.Some? ==> o.total <= f.maxPrice.value)
    ensures MeetsAll(CurrencyPart(f), o) <==>
              (CurrencyOf(f.currency).Some? ==> o.currency == CurrencyOf(f.currency).value)
  {
    MeetsPair(if f.dateFrom.Some? then [CreatedFrom(f.dateFrom.value)] else [],
              if f.dateTo.Some? then [CreatedTo(f.dateTo.value)] else [], o);
    MeetsPair(if f.minPrice.Some? then [TotalFrom(f.minPrice.value)] else [],
              if f.maxPrice.Some? then [TotalTo(f.maxPrice.value)] else [], o);
    if CurrencyPart(f) != [] {
      MeetsOne(CurrencyIs(CurrencyOf(f.currency).value), o);
    }
  }

  lemma Regroup<T>(r: seq<T>, a: seq<T>, b: seq<T>, c: seq<T>, d: seq<T>)
    ensures r + a + b + c + d == r + (a + b + c + d)
  {
  }

  // ---- Sorting ----

  datatype SortField = CreatedAt | TotalPrice | StatusField

  datatype SortOrder = UnspecifiedOrder | Ascending | Descending

  datatype Sort = Sort(field: string, order: SortOrder)

  /** The column an order listing is sorted by; an unknown field sorts by creation. */
  function ColumnOf(sort: Option<Sort>): SortField {
    if sort.Some? && sort.value.field == "totalPrice" then TotalPrice
    else if sort.Some? && sort.value.field == "status" then StatusField
    else CreatedAt
  }

  /** Only an explicit ascending order is ascending. */
  predicate IsAscending(sort: Option<Sort>) {
    sort.Some? && sort.value.order == Ascending
  }

  /** Whether `a` may stand before `b` for a sort. */
  predicate MayPrecede(field: SortField, ascending: bool, a: Order, b: Order) {
    match field
    case CreatedAt => if ascending then a.createdAt <= b.createdAt else a.createdAt >= b.createdAt
    case TotalPrice => if ascending then a.total <= b.total else a.total >= b.total
    case StatusField => if ascending then Rank(a.status) <= Rank(b.status) else Rank(a.status) >= Rank(b.status)
  }

  /** The database ranks an enum by declaration order. */
  function Rank(s: Status): nat {
    match s
    case Pending => 0
    case Confirmed => 1
    case Processing => 2
    case Shipped => 3
    case Delivered => 4
    case Cancelled => 5
    case Refunded => 6
  }

  ghost predicate Ranked(rows: seq<Order>, field: SortField, ascending: bool) {
    forall i, j :: 0 <= i < j < |rows| ==> MayPrecede(field, ascending, rows[i], rows[j])
  }

  /** Statuses are ranked in the order they are declared. */
  lemma RankByDeclaration(s: Status)
    ensures Rank(s) < 7 && [Pending, Confirmed, Processing, Shipped, Delivered, Cancelled, Refunded][Rank(s)] == s
  {
  }

  /**
   The order of a listing: by total for "totalPrice", by status for "status", by creation for any other field or none;
   rising for an explicit ascending order and falling otherwise, so newest first by default.
   */
  lemma SortMeans(rows: seq<Order>, sort: Option<Sort>)
    ensures Ranked(rows, ColumnOf(sort), IsAscending(sort)) <==>
              forall i, j :: 0 <= i < j < |rows| ==>
                var low, high := if sort.Some? && sort.value.order == Ascending then rows[i] else rows[j],
                                 if sort.Some? && sort.value.order == Ascending then rows[j] else rows[i];
                if sort.Some? && sort.value.field == "totalPrice" then low.total <= high.total
                else if sort.Some? && sort.value.field == "status" then Rank(low.status) <= Rank(high.status)
                else low.createdAt <= high.createdAt
  {
  }

  /** The database: how it ranks the whole table for each column and direction, ties included. */
  type Ranking = (SortField, bool) -> seq<Order>

  ghost predicate Sorts(ranking: Ranking) {
    forall field, ascending :: Ranked(ranking(field, ascending), field, ascending)
  }

  ghost predicate Ranks(ranking: Ranking, table: seq<Order>) {
    Sorts(ranking) && forall field, ascending :: multiset(ranking(field, ascending)) == multiset(table)
  }

  class QueryBuilder {
    var conditions: seq<Condition>
    var sortField: SortField
    var ascending: bool

    constructor ()
      ensures conditions == []
    {
      conditions := [];
      sortField, ascending := CreatedAt, false;
    }

    method AndWhere(c: Condition)
      modifies this`conditions
      ensures conditions == old(conditions) + [c]
    {
      conditions := conditions + [c];
    }

    method ApplyFilters(filters: Option<Filters>)
      modifies this`conditions
      ensures conditions == old(conditions) + if filters.Some? then ConditionsOf(filters.value) else []
    {
      if filters.None? {
        return;
      }
      var f := filters.value;
      var statuses := Known(f.statuses);
      if |statuses| > 0 {
        AndWhere(StatusIn(statuses));
      }
      ghost var cs1 := conditions;
      assert cs1 == old(conditions) + StatusPart(f);
      if f.dateFrom.Some? {
        AndWhere(CreatedFrom(f.dateFrom.value));
      }
      if f.dateTo.Some? {
        AndWhere(CreatedTo(f.dateTo.value));
      }
      ghost var cs2 := conditions;
      assert cs2 == cs1 + DatePart(f);
      if f.minPrice.Some? {
        AndWhere(TotalFrom(f.minPrice.value));
      }
      if f.maxPrice.Some? {
        AndWhere(TotalTo(f.maxPrice.value));
      }
      ghost var cs3 := conditions;
      assert cs3 == cs2 + PricePart(f);
      if f.currency != 0 {
        var currency := CurrencyOf(f.currency);
        if currency.Some? {
          AndWhere(CurrencyIs(currency.value));
        }
      }
      assert conditions == cs3 + CurrencyPart(f);
      Regroup(old(conditions), StatusPart(f), DatePart(f), PricePart(f), CurrencyPart(f));
    }

    method ApplySort(sort: Option<Sort>)
      modifies this`sortField, this`ascending
      ensures sortField == ColumnOf(sort) && (ascending <==> IsAscending(sort))
    {
      var field := if sort.Some? && sort.value.field in {"createdAt", "totalPrice", "status"} then sort.value.field else "createdAt";
      sortField := if field == "totalPrice" then TotalPrice else if field == "status" then StatusField else CreatedAt;
      ascending := sort.Some? && sort.value.order.Ascending?;
    }

    /** The query as the database answers it: one page of the selected rows in the query's order, and their number. */
    method GetManyAndCount(ranking: Ranking, page: nat, limit: nat) returns (rows: seq<Order>, total: nat)
      requires page >= 1
      ensures var selected := Selected(ranking(sortField, ascending), conditions);
              rows == Page(selected, page, limit) && total == |selected|
    {
      var selected := Selected(ranking(sortField, ascending), conditions);
      return Page(selected, page, limit), |selected|;
    }
  }

  // ---- Pages ----

  /** The rows a query selects from the table as the database ranks it for the query's sort. */
  function Selected(ranked: seq<Order>, cs: seq<Condition>): seq<Order> {
    if ranked == [] then []
    else
      var n := |ranked| - 1;
      Selected(ranked[..n], cs) + if MeetsAll(cs, ranked[n]) then [ranked[n]] else []
  }

  function Min(a: nat, b: nat): nat {
    if a < b then a else b
  }

  /** Skip the earlier pages, take one. */
  function Page(rows: seq<Order>, page: nat, limit: nat): seq<Order>
    requires page >= 1
  {
    rows[Min((page - 1) * limit, |rows|)..Min((page - 1) * limit + limit, |rows|)]
  }

  /** What a caller asks for: the user's orders, or everyone's, that pass the filters. */
  ghost predicate Asked(userId: Option<string>, filters: Option<Filters>, o: Order) {
    && (userId.Some? ==> o.userId == userId.value)
    && (filters.Some? ==> Wanted(filters.value, o))
  }

  /** The conditions say exactly what was asked for. */
  ghost predicate Says(cs: seq<Condition>, userId: Option<string>, filters: Option<Filters>) {
    forall o :: MeetsAll(cs, o) <==> Asked(userId, filters, o)
  }

  lemma QuerySays(owner: seq<Condition>, userId: Option<string>, filters: Option<Filters>)
    requires owner == if userId.Some? then [OwnedBy(userId.value)] else []
    ensures Says(owner + (if filters.Some? then ConditionsOf(filters.value) else []), userId, filters)
  {
    var rest := if filters.Some? then ConditionsOf(filters.value) else [];
    forall o ensures MeetsAll(owner + rest, o) <==> Asked(userId, filters, o) {
      MeetsBoth(owner, rest, o);
      if filters.Some? {
        FiltersMean(filters.value, o);
      }
      assert userId.Some? ==> OwnedBy(userId.value) in owner;
    }
  }

  /** The conditions of a listing, owner first. */
  function QueryOf(userId: Option<string>, filters: Option<Filters>): seq<Condition> {
    (if userId.Some? then [OwnedBy(userId.value)] else []) + (if filters.Some? then ConditionsOf(filters.value) else [])
  }

  /** One page of what was asked for, in the requested order, and how much there is in all, however the query is put. */
  ghost predicate Answers(rows: seq<Order>, total: nat, ranking: Ranking, userId: Option<string>, filters: Option<Filters>,
                          sort: Option<Sort>, page: nat, limit: nat)
    requires page >= 1
  {
    forall cs :: Says(cs, userId, filters) ==>
      var selected := Selected(ranking(ColumnOf(sort), IsAscending(sort)), cs);
      rows == Page(selected, page, limit) && total == |selected|
  }

  lemma QueryAnswers(rows: seq<Order>, total: nat, ranking: Ranking, userId: Option<string>,
                     filters: Option<Filters>, sort: Option<Sort>, page: nat, limit: nat)
    requires page >= 1 && Sorts(ranking)
    requires var selected := Selected(ranking(ColumnOf(sort), IsAscending(sort)), QueryOf(userId, filters));
             rows == Page(selected, page, limit) && total == |selected|
    ensures Answers(rows, total, ranking, userId, filters, sort, page, limit)
    ensures Ranked(rows, ColumnOf(sort), IsAscending(sort))
  {
    var ranked := ranking(ColumnOf(sort), IsAscending(sort));
    QuerySays(if userId.Some? then [OwnedBy(userId.value)] else [], userId, filters);
    forall cs | Says(cs, userId, filters) ensures Selected(ranked, cs) == Selected(ranked, QueryOf(userId, filters)) {
      SameMeaningSameSelection(ranked, cs, QueryOf(userId, filters));
    }
    SelectionStaysRanked(ranked, QueryOf(userId, filters), ColumnOf(sort), IsAscending(sort));
  }

  /** One page of the user's orders that pass the filters, and how many there are in all. */
  method FindByUser(ranking: Ranking, userId: string, page: nat, limit: nat, filters: Option<Filters>, sort: Option<Sort>)
    returns (rows: seq<Order>, total: nat)
    requires page >= 1 && Sorts(ranking)
    ensures Answers(rows, total, ranking, Some(userId), filters, sort, page, limit)
    ensures Ranked(rows, ColumnOf(sort), IsAscending(sort))
  {
    var qb := new QueryBuilder();
    qb.AndWhere(OwnedBy(userId));
    assert qb.conditions == [OwnedBy(userId)];
    qb.ApplyFilters(filters);
    assert qb.conditions == QueryOf(Some(userId), filters);
    qb.ApplySort(sort);
    rows, total := qb.GetManyAndCount(ranking, page, limit);
    QueryAnswers(rows, total, ranking, Some(userId), filters, sort, page, limit);
  }

  /** The same for all orders. */
  method FindAll(ranking: Ranking, page: nat, limit: nat, filters: Option<Filters>, sort: Option<Sort>)
    returns (rows: seq<Order>, total: nat)
    requires page >= 1 && Sorts(ranking)
    ensures Answers(rows, total, ranking, None, filters, sort, page, limit)
    ensures Ranked(rows, ColumnOf(sort), IsAscending(sort))
  {
    var qb := new QueryBuilder();
    qb.ApplyFilters(filters);
    assert qb.conditions == QueryOf(None, filters);
    qb.ApplySort(sort);
    rows, total := qb.GetManyAndCount(ranking, page, limit);
    QueryAnswers(rows, total, ranking, None, filters, sort, page, limit);
  }

  /** What is selected depends on the meaning of the conditions only. */
  lemma {:induction false} SameMeaningSameSelection(ranked: seq<Order>, cs: seq<Condition>, ds: seq<Condition>)
    requires forall o :: MeetsAll(cs, o) <==> MeetsAll(ds, o)
    ensures Selected(ranked, cs) == Selected(ranked, ds)
  {
    if ranked != [] {
      SameMeaningSameSelection(ranked[..|ranked| - 1], cs, ds);
    }
  }

  /** Pages 1 to n put together. */
  function Pages(rows: seq<Order>, n: nat, limit: nat): seq<Order> {
    if n == 0 then [] else Pages(rows, n - 1, limit) + Page(rows, n, limit)
  }

  lemma {:induction false} PagesArePrefix(rows: seq<Order>, n: nat, limit: nat)
    ensures Pages(rows, n, limit) == rows[..Min(n * limit, |rows|)]
  {
    if n > 0 {
      PagesArePrefix(rows, n - 1, limit);
      assert n * limit == (n - 1) * limit + limit;
    }
  }

  /** Pages enough for all rows have them all. */
  lemma EnoughPages(rows: seq<Order>, n: nat, limit: nat)
    requires n * limit >= |rows|
    ensures Pages(rows, n, limit) == rows
  {
    PagesArePrefix(rows, n, limit);
  }

  /** For any page size, the pages up to the last one put together are the whole selection, each row once and in order. */
  lemma PagesCoverSelection(ranked: seq<Order>, cs: seq<Condition>, limit: nat)
    requires limit >= 1
    ensures var rows := Selected(ranked, cs);
            Pages(rows, (|rows| + limit - 1) / limit, limit) == rows
  {
    var rows := Selected(ranked, cs);
    var n := (|rows| + limit - 1) / limit;
    assert n * limit >= |rows| by {
      assert |rows| + limit - 1 == n * limit + (|rows| + limit - 1) % limit;
    }
    EnoughPages(rows, n, limit);
  }

  /** The selection keeps exactly the matching rows, as often as the table has them. */
  lemma {:induction false} SelectionIsExact(ranked: seq<Order>, cs: seq<Condition>, o: Order)
    ensures multiset(Selected(ranked, cs))[o] == if MeetsAll(cs, o) then multiset(ranked)[o] else 0
  {
    if ranked != [] {
      var n := |ranked| - 1;
      assert ranked == ranked[..n] + [ranked[n]];
      SelectionIsExact(ranked[..n], cs, o);
    }
  }

  /** Filtering keeps the ranking, so every page and all pages together are ranked. */
  lemma {:induction false} SelectionStaysRanked(ranked: seq<Order>, cs: seq<Condition>, field: SortField, ascending: bool)
    requires Ranked(ranked, field, ascending)
    ensures Ranked(Selected(ranked, cs), field, ascending)
    ensures forall o :: o in Selected(ranked, cs) ==> o in ranked
  {
    if ranked != [] {
      var n := |ranked| - 1;
      SelectionStaysRanked(ranked[..n], cs, field, ascending);
      var before := Selected(ranked[..n], cs);
      forall i | 0 <= i < |before| ensures MayPrecede(field, ascending, before[i], ranked[n]) {
        assert before[i] in ranked[..n];
        var k :| 0 <= k < n && ranked[k] == before[i];
      }
    }
  }

  // ---- Walking through all pages ----

  datatype Answer = Answer(rows: seq<Order>, total: nat)

  /** The answers for pages 1 to n, one behind the other. */
  function Joined(answers: seq<Answer>): seq<Order> {
    if answers == [] then [] else Joined(answers[..|answers| - 1]) + answers[|answers| - 1].rows
  }

  /** Each answer is what a listing gives for its page. */
  ghost predicate PageByPage(answers: seq<Answer>, ranking: Ranking, userId: Option<string>, filters: Option<Filters>,
                             sort: Option<Sort>, limit: nat)
  {
    forall i :: 0 <= i < |answers| ==> Answers(answers[i].rows, answers[i].total, ranking, userId, filters, sort, i + 1, limit)
  }

  lemma {:induction false} JoinedArePages(answers: seq<Answer>, ranking: Ranking, userId: Option<string>,
                                          filters: Option<Filters>, sort: Option<Sort>, limit: nat)
    requires PageByPage(answers, ranking, userId, filters, sort, limit)
    ensures Joined(answers) == Pages(Selected(ranking(ColumnOf(sort), IsAscending(sort)), QueryOf(userId, filters)), |answers|, limit)
  {
    if answers != [] {
      var n := |answers| - 1;
      JoinedArePages(answers[..n], ranking, userId, filters, sort, limit);
      QuerySays(if userId.Some? then [OwnedBy(userId.value)] else [], userId, filters);
      assert Answers(answers[n].rows, answers[n].total, ranking, userId, filters, sort, n + 1, limit);
    }
  }

  /**
   A client that asks for page after page until the announced total is covered gets, in the requested order, each
   order asked for exactly as often as the table holds it, and nothing else; and every page announces that total.
   */
  lemma AllPagesTogether(answers: seq<Answer>, ranking: Ranking, table: seq<Order>, userId: Option<string>,
                         filters: Option<Filters>, sort: Option<Sort>, limit: nat)
    requires limit >= 1 && Ranks(ranking, table)
    requires PageByPage(answers, ranking, userId, filters, sort, limit)
    requires answers != [] && |answers| * limit >= answers[0].total
    ensures Ranked(Joined(answers), ColumnOf(sort), IsAscending(sort))
    ensures forall i :: 0 <= i < |answers| ==> answers[i].total == |Joined(answers)|
    ensures forall o :: multiset(Joined(answers))[o] == if Asked(userId, filters, o) then multiset(table)[o] else 0
  {
    var ranked, cs := ranking(ColumnOf(sort), IsAscending(sort)), QueryOf(userId, filters);
    var rows := Selected(ranked, cs);
    QuerySays(if userId.Some? then [OwnedBy(userId.value)] else [], userId, filters);
    forall i | 0 <= i < |answers| ensures answers[i].total == |rows| {
      assert Answers(answers[i].rows, answers[i].total, ranking, userId, filters, sort, i + 1, limit);
    }
    JoinedArePages(answers, ranking, userId, filters, sort, limit);
    EnoughPages(rows, |answers|, limit);
    SelectionStaysRanked(ranked, cs, ColumnOf(sort), IsAscending(sort));
    forall o ensures multiset(rows)[o] == if Asked(userId, filters, o) then multiset(table)[o] else 0 {
      SelectionIsExact(ranked, cs, o);
    }
  }
}
