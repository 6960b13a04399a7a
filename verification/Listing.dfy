/** Repository.List: the compiled query, the total order of its rows, and pages that cover them. */
module Listing {
  import opened Query
  import opened Wrappers

  /** What the caller gets of a row: NULL texts are empty. */
  datatype Item = Item(id: nat, title: string, recipientReference: string, status: string, createdAt: int,
                       expiresAt: int)

  datatype Pagination = Pagination(page: int, pageSize: int, totalItems: nat, totalPages: int)

  datatype ListResult = ListResult(items: seq<Item>, pagination: Pagination)

  function Key(column: Column, r: Record): int {
    if column == ExpiresAt then r.expiresAt else r.createdAt
  }

  /** ORDER BY column direction, id DESC: the row a comes before the row b. */
  predicate Before(column: Column, ascending: bool, a: Record, b: Record) {
    var x, y := Key(column, a), Key(column, b);
    (if ascending then x < y else x > y) || (x == y && a.id > b.id)
  }

  ghost predicate Sorted(column: Column, ascending: bool, s: seq<Record>) {
    forall i, j | 0 <= i < j < |s| :: Before(column, ascending, s[i], s[j])
  }

  ghost predicate DistinctIds(s: seq<Record>) {
    forall i, j | 0 <= i < j < |s| :: s[i].id != s[j].id
  }

  function Insert(column: Column, ascending: bool, r: Record, s: seq<Record>): seq<Record> {
    if s == [] || Before(column, ascending, r, s[0]) then [r] + s else [s[0]] + Insert(column, ascending, r, s[1..])
  }

  function Sort(column: Column, ascending: bool, s: seq<Record>): seq<Record> {
    if s == [] then [] else Insert(column, ascending, s[0], Sort(column, ascending, s[1..]))
  }

  lemma {:induction false} InsertAddsTheRow(column: Column, ascending: bool, r: Record, s: seq<Record>)
    ensures multiset(Insert(column, ascending, r, s)) == multiset(s) + multiset{r}
  {
    if s != [] && !Before(column, ascending, r, s[0]) {
      assert s == [s[0]] + s[1..];
      InsertAddsTheRow(column, ascending, r, s[1..]);
    }
  }

  lemma Transitive(column: Column, ascending: bool, a: Record, b: Record, c: Record)
    requires Before(column, ascending, a, b) && Before(column, ascending, b, c)
    ensures Before(column, ascending, a, c)
  {
  }

  lemma Connected(column: Column, ascending: bool, a: Record, b: Record)
    requires a.id != b.id
    ensures Before(column, ascending, a, b) <==> !Before(column, ascending, b, a)
  {
  }

  lemma {:induction false} InsertKeepsOrder(column: Column, ascending: bool, r: Record, s: seq<Record>)
    requires Sorted(column, ascending, s) && forall i | 0 <= i < |s| :: s[i].id != r.id
    ensures Sorted(column, ascending, Insert(column, ascending, r, s))
  {
    hide Before;
    if s == [] {
    } else if Before(column, ascending, r, s[0]) {
      forall i | 0 < i < |s| ensures Before(column, ascending, r, s[i]) {
        Transitive(column, ascending, r, s[0], s[i]);
      }
    } else {
      Connected(column, ascending, r, s[0]);
      InsertKeepsOrder(column, ascending, r, s[1..]);
      InsertAddsTheRow(column, ascending, r, s[1..]);
      var rest := Insert(column, ascending, r, s[1..]);
      forall i | 0 <= i < |rest| ensures Before(column, ascending, s[0], rest[i]) {
        assert rest[i] in multiset(s[1..]) + multiset{r};
      }
    }
  }

  /** Rows with distinct ids have a strict order, whatever order they are stored in. */
  lemma {:induction false} SortOrders(column: Column, ascending: bool, s: seq<Record>)
    requires DistinctIds(s)
    ensures Sorted(column, ascending, Sort(column, ascending, s))
    ensures multiset(Sort(column, ascending, s)) == multiset(s)
  {
    hide Before, Sorted, Insert;
    if s == [] {
      assert Sorted(column, ascending, []) by {
        NothingIsSorted(column, ascending);
      }
    } else {
      assert s == [s[0]] + s[1..];
      SortOrders(column, ascending, s[1..]);
      var rest := Sort(column, ascending, s[1..]);
      forall i | 0 <= i < |rest| ensures rest[i].id != s[0].id {
        assert rest[i] in multiset(s[1..]);
      }
      InsertKeepsOrder(column, ascending, s[0], rest);
      InsertAddsTheRow(column, ascending, s[0], rest);
    }
  }

  lemma NothingIsSorted(column: Column, ascending: bool)
    ensures Sorted(column, ascending, [])
  {
  }

  lemma HeadsAgree(column: Column, ascending: bool, s: seq<Record>, t: seq<Record>)
    requires Sorted(column, ascending, s) && Sorted(column, ascending, t) && multiset(s) == multiset(t) && s != []
    requires t != []
    ensures s[0] == t[0]
  {
    assert s[0] in multiset(t) && t[0] in multiset(s);
    var i :| 0 <= i < |s| && s[i] == t[0];
    var j :| 0 <= j < |t| && t[j] == s[0];
    assert i > 0 ==> Before(column, ascending, s[0], s[i]);
    assert j > 0 ==> Before(column, ascending, t[0], t[j]);
  }

  lemma TailIsSorted(column: Column, ascending: bool, s: seq<Record>)
    requires Sorted(column, ascending, s) && s != []
    ensures Sorted(column, ascending, s[1..])
    ensures multiset(s[1..]) == multiset(s) - multiset{s[0]}
  {
    assert s == [s[0]] + s[1..];
  }

  /** The same rows can be in order in one way only. */
  lemma {:induction false} SortedIsUnique(column: Column, ascending: bool, s: seq<Record>, t: seq<Record>)
    requires Sorted(column, ascending, s) && Sorted(column, ascending, t) && multiset(s) == multiset(t)
    ensures s == t
  {
    hide Before, Sorted;
    assert |s| == |multiset(s)| == |multiset(t)| == |t|;
    if s != [] {
      HeadsAgree(column, ascending, s, t);
      TailIsSorted(column, ascending, s);
      TailIsSorted(column, ascending, t);
      SortedIsUnique(column, ascending, s[1..], t[1..]);
    }
  }

  /** The rows of the table a caller asks for, in table order. */
  function Filter(o: Options, table: seq<Record>): seq<Record> {
    if table == [] then [] else (if Selected(o, table[0]) then [table[0]] else []) + Filter(o, table[1..])
  }

  function SortColumn(o: Options): Column {
    if o.sort == "expires_at" then ExpiresAt else CreatedAt
  }

  /** All the rows a caller asks for, in the order asked for. */
  function Answer(o: Options, table: seq<Record>): seq<Record> {
    Sort(SortColumn(o), o.order == "asc", Filter(o, table))
  }

  lemma {:induction false} FilterCounts(o: Options, table: seq<Record>, r: Record)
    ensures multiset(Filter(o, table))[r] == if Selected(o, r) then multiset(table)[r] else 0
  {
    if table != [] {
      assert table == [table[0]] + table[1..];
      FilterCounts(o, table[1..], r);
    }
  }

  lemma {:induction false} FilterKeepsIdsApart(o: Options, table: seq<Record>)
    requires DistinctIds(table)
    ensures DistinctIds(Filter(o, table)) && forall r | r in Filter(o, table) :: r in table
  {
    if table != [] {
      FilterKeepsIdsApart(o, table[1..]);
      var rest := Filter(o, table[1..]);
      forall r | r in rest ensures r.id != table[0].id && r in table {
        var i :| 0 <= i < |table[1..]| && table[1..][i] == r;
        assert table[i + 1] == r;
      }
    }
  }

  /** The answer holds each selected row of the table as often as the table does, and is strictly ordered. */
  lemma AnswerIsTheSelection(o: Options, table: seq<Record>)
    requires DistinctIds(table)
    ensures Sorted(SortColumn(o), o.order == "asc", Answer(o, table)) && |Answer(o, table)| == |Filter(o, table)|
    ensures forall r :: multiset(Answer(o, table))[r] == if Selected(o, r) then multiset(table)[r] else 0
  {
    FilterKeepsIdsApart(o, table);
    SortOrders(SortColumn(o), o.order == "asc", Filter(o, table));
    assert |multiset(Answer(o, table))| == |multiset(Filter(o, table))|;
    forall r ensures multiset(Answer(o, table))[r] == if Selected(o, r) then multiset(table)[r] else 0 {
      FilterCounts(o, table, r);
    }
  }

  /** The order in columns: by expiry if that is asked for and by creation otherwise, rising if "asc" is asked for and
      falling otherwise, and rows of one moment by falling id. */
  lemma OrderInColumns(o: Options, table: seq<Record>, i: nat, j: nat)
    requires DistinctIds(table) && i < j < |Answer(o, table)|
    ensures var a, b := Answer(o, table)[i], Answer(o, table)[j];
            if o.sort == "expires_at" then
              || (if o.order == "asc" then a.expiresAt < b.expiresAt else a.expiresAt > b.expiresAt)
              || (a.expiresAt == b.expiresAt && a.id > b.id)
            else
              || (if o.order == "asc" then a.createdAt < b.createdAt else a.createdAt > b.createdAt)
              || (a.createdAt == b.createdAt && a.id > b.id)
  {
    hide Answer;
    AnswerIsTheSelection(o, table);
  }

  /** The order in which the table stores its rows cannot be seen. */
  lemma StorageOrderIsUnseen(o: Options, table: seq<Record>, other: seq<Record>)
    requires DistinctIds(table) && DistinctIds(other) && multiset(table) == multiset(other)
    ensures Answer(o, table) == Answer(o, other)
  {
    AnswerIsTheSelection(o, table);
    AnswerIsTheSelection(o, other);
    assert multiset(Answer(o, table)) == multiset(Answer(o, other));
    SortedIsUnique(SortColumn(o), o.order == "asc", Answer(o, table), Answer(o, other));
  }

  /** A statement over the table: the WHERE clauses, the order, and the numbers of the LIMIT and OFFSET arguments. */
  datatype Select = Select(where: seq<Clause>, column: Column, ascending: bool, limit: nat, offset: nat)

  /** The rows on which the clauses are true; None as soon as one row cannot be evaluated. */
  function Scan(where: seq<Clause>, args: seq<Value>, table: seq<Record>): Option<seq<Record>> {
    if table == [] then
      Some([])
    else
      var rest, truth := Scan(where, args, table[1..]), EvalAll(where, args, table[0]);
      if rest.None? || truth.None? then None
      else Some((if truth.value == True then [table[0]] else []) + rest.value)
  }

  function Min(a: int, b: int): int {
    if a < b then a else b
  }

  /** OFFSET and LIMIT. */
  function Slice(s: seq<Record>, limit: nat, offset: nat): seq<Record> {
    s[Min(offset, |s|)..Min(offset + limit, |s|)]
  }

  /** What the server answers: nothing when the arguments are not the ones the statement numbers, or have wrong
      types. */
  function RunSelect(q: Select, args: seq<Value>, table: seq<Record>): Option<seq<Record>> {
    if !Numbered(Params(q.where) + {q.limit, q.offset}, |args|) then None
    else
      match (Argument(args, q.limit), Argument(args, q.offset), Scan(q.where, args, table))
      case (Some(Number(limit)), Some(Number(offset)), Some(rows)) =>
        if limit < 0 || offset < 0 then None else Some(Slice(Sort(q.column, q.ascending, rows), limit, offset))
      case _ => None
  }

  function RunCount(where: seq<Clause>, args: seq<Value>, table: seq<Record>): Option<nat> {
    var rows := Scan(where, args, table);
    if !Numbered(Params(where), |args|) || rows.None? then None else Some(|rows.value|)
  }

  lemma {:induction false} ScanIsFilter(o: Options, where: seq<Clause>, args: seq<Value>, more: seq<Value>,
                                        table: seq<Record>)
    requires Compiles(where, args, o)
    ensures Scan(where, args + more, table) == Some(Filter(o, table))
  {
    if table != [] {
      ScanIsFilter(o, where, args, more, table[1..]);
      EarlierArguments(where, args, more, table[0]);
    }
  }

  /** The statement List sends returns one page of the answer, and its COUNT the length of the answer. */
  lemma StatementsAnswer(o: Options, where: seq<Clause>, args: seq<Value>, offset: nat, table: seq<Record>)
    requires Normal(o) && Compiles(where, args, o)
    ensures RunCount(where, args, table) == Some(|Filter(o, table)|)
    ensures var bound := args + [Number(o.pageSize), Number(offset)];
            RunSelect(Select(where, SortColumn(o), o.order == "asc", |bound| - 1, |bound|), bound, table)
              == Some(Slice(Answer(o, table), o.pageSize, offset))
  {
    hide EvalAll, Params, Filter, Sort;
    ScanIsFilter(o, where, args, [], table);
    assert args + [] == args;
    ScanIsFilter(o, where, args, [Number(o.pageSize), Number(offset)], table);
  }

  function ItemOf(r: Record): Item {
    Item(r.id, if r.title.Some? then r.title.value else "", if r.recipient.Some? then r.recipient.value else "",
         r.status, r.createdAt, r.expiresAt)
  }

  function Items(rows: seq<Record>): (items: seq<Item>)
    ensures |items| == |rows| && forall i | 0 <= i < |rows| :: items[i] == ItemOf(rows[i])
    ensures forall i | 0 <= i < |rows| ::
              && items[i].id == rows[i].id && items[i].status == rows[i].status
              && items[i].createdAt == rows[i].createdAt && items[i].expiresAt == rows[i].expiresAt
              && items[i].title == (match rows[i].title case Some(t) => t case None => "")
              && items[i].recipientReference == (match rows[i].recipient case Some(t) => t case None => "")
  {
    seq(|rows|, i requires 0 <= i < |rows| => ItemOf(rows[i]))
  }

  /** Page k, counted from 1. */
  function Page(s: seq<Record>, size: nat, k: nat): seq<Record>
    requires k >= 1
  {
    Slice(s, size, (k - 1) * size)
  }

  function TotalPages(total: nat, size: nat): nat
    requires size > 0
  {
    (total + size - 1) / size
  }

  /** The rows of pages 1 to k, one page after the other. */
  function Pages(s: seq<Record>, size: nat, k: nat): seq<Record> {
    if k == 0 then [] else Pages(s, size, k - 1) + Page(s, size, k)
  }

  lemma {:induction false} PagesArePrefix(s: seq<Record>, size: nat, k: nat)
    ensures Pages(s, size, k) == s[..Min(k * size, |s|)]
  {
    if k > 0 {
      PagesArePrefix(s, size, k - 1);
      assert k * size == (k - 1) * size + size;
    }
  }

  /** The page count is the least number of pages that hold every row. */
  lemma PageCountIsLeast(total: nat, size: nat)
    requires size > 0
    ensures TotalPages(total, size) * size >= total
    ensures total > 0 ==> (TotalPages(total, size) - 1) * size < total
    ensures total == 0 ==> TotalPages(total, size) == 0
  {
    var n := TotalPages(total, size);
    assert (total + size - 1) == n * size + (total + size - 1) % size;
    assert (n - 1) * size == n * size - size;
  }

  lemma Monotone(a: nat, b: nat, size: nat)
    requires a <= b
    ensures a * size <= b * size
  {
    assert b * size - a * size == (b - a) * size;
  }

  lemma PagesAreFull(s: seq<Record>, size: nat, k: nat)
    requires size > 0 && k >= 1
    ensures k < TotalPages(|s|, size) ==> |Page(s, size, k)| == size
    ensures k == TotalPages(|s|, size) ==> Page(s, size, k) != []
    ensures k > TotalPages(|s|, size) ==> Page(s, size, k) == []
  {
    hide TotalPages;
    var n := TotalPages(|s|, size);
    PageCountIsLeast(|s|, size);
    assert (k - 1) * size == k * size - size;
    if k < n {
      Monotone(k, n - 1, size);
    } else if k > n {
      Monotone(n, k - 1, size);
    }
  }

  /** Of an unchanged table, pages 1 to the last are the whole answer, in order, with nothing left out or repeated. */
  lemma PagesCoverTheAnswer(s: seq<Record>, size: nat)
    requires size > 0
    ensures Pages(s, size, TotalPages(|s|, size)) == s
    ensures forall k | 1 <= k < TotalPages(|s|, size) :: |Page(s, size, k)| == size
    ensures forall k | k > TotalPages(|s|, size) :: Page(s, size, k) == []
    ensures |s| > 0 ==> TotalPages(|s|, size) >= 1 && Page(s, size, TotalPages(|s|, size)) != []
  {
    hide TotalPages, Page;
    PageCountIsLeast(|s|, size);
    PagesArePrefix(s, size, TotalPages(|s|, size));
    forall k | k >= 1
      ensures k < TotalPages(|s|, size) ==> |Page(s, size, k)| == size
      ensures k == TotalPages(|s|, size) ==> Page(s, size, k) != []
      ensures k > TotalPages(|s|, size) ==> Page(s, size, k) == []
    {
      PagesAreFull(s, size, k);
    }
  }

  lemma {:induction false} DistinctMeansOnce(table: seq<Record>, r: Record)
    requires DistinctIds(table)
    ensures multiset(table)[r] == if r in table then 1 else 0
  {
    if table != [] {
      assert table == [table[0]] + table[1..];
      DistinctMeansOnce(table[1..], r);
      assert forall i | 0 <= i < |table[1..]| :: table[1..][i] == table[i + 1];
    }
  }

  /** Going through all pages shows each row asked for once, and no other row. */
  lemma EachRowIsShownOnce(o: Options, table: seq<Record>, r: Record)
    requires DistinctIds(table) && Normal(o)
    ensures var shown := Pages(Answer(o, table), o.pageSize, TotalPages(|Filter(o, table)|, o.pageSize));
            multiset(shown)[r] == if r in table && Selected(o, r) then 1 else 0
  {
    hide Pages, TotalPages, Answer, Filter, Selected;
    AnswerIsTheSelection(o, table);
    PagesCoverTheAnswer(Answer(o, table), o.pageSize);
    DistinctMeansOnce(table, r);
  }

  /** The loop over the result rows. */
  method ReadRows(rows: seq<Record>) returns (items: seq<Item>)
    ensures items == Items(rows)
  {
    items := [];
    for i := 0 to |rows|
      invariant items == Items(rows[..i])
    {
      items := items + [ItemOf(rows[i])];
    }
    assert rows[..|rows|] == rows;
  }

  /** Never refused by the server: page `o.page` of the rows asked for, and the counts that go with it. */
  method List(table: seq<Record>, opts: Options) returns (result: Option<ListResult>)
    ensures var o := Normalize(opts);
            var answer := Answer(o, table);
            var total := |Filter(o, table)|;
            && Normal(o)
            && result == Some(ListResult(
                 Items(Page(answer, o.pageSize, o.page)),
                 Pagination(o.page, o.pageSize, total, TotalPages(total, o.pageSize))))
  {
    hide Compiles, Filter, Sort, RunSelect, RunCount, Normalize, Items;
    NormalizeMakesNormal(opts);
    var o := Normalize(opts);
    var where, args := ListWhere(o);
    var offset := (o.page - 1) * o.pageSize;
    assert offset >= 0;
    StatementsAnswer(o, where, args, offset, table);
    var total := RunCount(where, args, table);
    if total.None? {
      return None;
    }
    var bound := args + [Number(o.pageSize), Number(offset)];
    var rows := RunSelect(Select(where, SortColumn(o), o.order == "asc", |bound| - 1, |bound|), bound, table);
    if rows.None? {
      return None;
    }
    var items := ReadRows(rows.value);
    var totalPages: int := (total.value + o.pageSize - 1) / o.pageSize;
    if total.value == 0 {
      totalPages := 0;
    }
    result := Some(ListResult(items, Pagination(o.page, o.pageSize, total.value, totalPages)));
  }
}
