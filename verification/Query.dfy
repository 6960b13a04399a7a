/** The clauses and numbered arguments that listWhere builds, and how PostgreSQL evaluates them. */
module Query {
  import opened Text
  import opened Wrappers

  /** A row of secret_deliveries, with the columns a listing filters or sorts by; title and recipient may be NULL. */
  datatype Record = Record(
    id: nat, title: Option<string>, recipient: Option<string>, status: string, createdAt: int, expiresAt: int)

  datatype Options = Options(
    page: int, pageSize: int, status: string, search: string,
    createdFrom: Option<int>, createdTo: Option<int>, expiresFrom: Option<int>, expiresTo: Option<int>,
    sort: string, order: string)

  const STATUSES: set<string> := {"active", "consuming", "consumed", "expired", "revoked"}

  predicate Normal(o: Options) {
    && o.page >= 1 && o.pageSize in {10, 25, 50, 100}
    && (o.status == "" || o.status in STATUSES)
    && o.sort in {"created_at", "expires_at"} && o.order in {"asc", "desc"}
    && Trimmed(o.search)
  }

  function Normalize(o: Options): Options {
    o.(page := if o.page <= 0 then 1 else o.page,
       pageSize := if o.pageSize in {10, 25, 50, 100} then o.pageSize else 25,
       status := if o.status in STATUSES then o.status else "",
       sort := if o.sort != "expires_at" then "created_at" else o.sort,
       order := if o.order != "asc" then "desc" else o.order,
       search := TrimSpace(o.search))
  }

  /** Every option set is made valid, and one that was valid is left alone; what is not valid becomes the first page,
      25 rows, any status, the newest first. */
  lemma NormalizeMakesNormal(o: Options)
    ensures Normal(Normalize(o)) && (Normal(o) ==> Normalize(o) == o)
    ensures var n := Normalize(o);
            && n.page == (if o.page >= 1 then o.page else 1)
            && n.pageSize == (if o.pageSize in {10, 25, 50, 100} then o.pageSize else 25)
            && (o.status in {"active", "consuming", "consumed", "expired", "revoked"} ==> n.status == o.status)
            && (o.status !in {"active", "consuming", "consumed", "expired", "revoked"} ==> n.status == "")
            && n.sort == (if o.sort == "expires_at" then "expires_at" else "created_at")
            && n.order == (if o.order == "asc" then "asc" else "desc") && n.search == TrimSpace(o.search)
            && n.createdFrom == o.createdFrom && n.createdTo == o.createdTo
            && n.expiresFrom == o.expiresFrom && n.expiresTo == o.expiresTo
  {
    var i, j := TrimCuts(o.search);
    if Trimmed(o.search) {
      TrimmedIsFixed(o.search);
    }
  }

  datatype Value = Str(text: string) | Time(at: int) | Number(n: int)

  datatype Column = Status | CreatedAt | ExpiresAt

  datatype Operator = Eq | Ge | Le

  /** A conjunct of the WHERE clause; `param` is the n of $n. */
  datatype Clause = OneIsOne | Compare(column: Column, op: Operator, param: nat) | Search(param: nat)

  /** SQL's three-valued logic. */
  datatype Truth = True | False | Null

  function And(a: Truth, b: Truth): Truth {
    if a == False || b == False then False else if a == Null || b == Null then Null else True
  }

  function Or(a: Truth, b: Truth): Truth {
    if a == True || b == True then True else if a == Null || b == Null then Null else False
  }

  function ToTruth(b: bool): Truth {
    if b then True else False
  }

  /** LIKE without regard to case: % is any text, _ any character, \ takes the next character literally. */
  predicate ILike(s: string, pattern: string)
    decreases |s| + |pattern|
  {
    if pattern == "" then s == ""
    else if pattern[0] == '%' then ILike(s, pattern[1..]) || (s != "" && ILike(s[1..], pattern))
    else if s == "" then false
    else if pattern[0] == '_' then ILike(s[1..], pattern[1..])
    else if pattern[0] == '\\' then
      |pattern| > 1 && LowerChar(s[0]) == LowerChar(pattern[1]) && ILike(s[1..], pattern[2..])
    else LowerChar(s[0]) == LowerChar(pattern[0]) && ILike(s[1..], pattern[1..])
  }

  /** s ILIKE '%' || t || '%'. */
  predicate Finds(s: string, t: string) {
    ILike(s, "%" + t + "%")
  }

  /** The same for a column that may be NULL. */
  function Found(column: Option<string>, text: string): Truth {
    if column.None? then Null else ToTruth(Finds(column.value, text))
  }

  function Compared(a: int, op: Operator, b: int): bool {
    match op
    case Eq => a == b
    case Ge => a >= b
    case Le => a <= b
  }

  /** The argument of $n. */
  function Argument(args: seq<Value>, n: nat): Option<Value> {
    if 1 <= n <= |args| then Some(args[n - 1]) else None
  }

  /** A clause on one row; None when an argument is missing or of the wrong type. */
  function Eval(c: Clause, args: seq<Value>, row: Record): Option<Truth> {
    match c
    case OneIsOne => Some(True)
    case Search(n) =>
      (match Argument(args, n)
       case Some(Str(text)) => Some(Or(Found(row.title, text), Found(row.recipient, text)))
       case _ => None)
    case Compare(column, op, n) =>
      (match (column, op, Argument(args, n))
       case (Status, Eq, Some(Str(text))) => Some(ToTruth(row.status == text))
       case (CreatedAt, _, Some(Time(at))) => Some(ToTruth(Compared(row.createdAt, op, at)))
       case (ExpiresAt, _, Some(Time(at))) => Some(ToTruth(Compared(row.expiresAt, op, at)))
       case _ => None)
  }

  /** The conjunction of the clauses, from the left. */
  function EvalAll(cs: seq<Clause>, args: seq<Value>, row: Record): Option<Truth> {
    if cs == [] then
      Some(True)
    else
      var init, last := EvalAll(cs[..|cs| - 1], args, row), Eval(cs[|cs| - 1], args, row);
      if init.None? || last.None? then None else Some(And(init.value, last.value))
  }

  /** The placeholders that occur. */
  function Params(cs: seq<Clause>): set<nat> {
    if cs == [] then {}
    else
      var c := cs[|cs| - 1];
      Params(cs[..|cs| - 1]) + (if c.OneIsOne? then {} else {c.param})
  }

  /** Each of $1 to $n occurs and no other, as binding n arguments demands. */
  predicate Numbered(params: set<nat>, n: nat) {
    (forall k | k in params :: 1 <= k <= n) && (forall k: nat | 1 <= k <= n :: k in params)
  }

  predicate AtLeast(a: int, from: Option<int>) {
    from.Some? ==> from.value <= a
  }

  predicate AtMost(a: int, to: Option<int>) {
    to.Some? ==> a <= to.value
  }

  predicate SearchHit(row: Record, search: string) {
    || (row.title.Some? && Finds(row.title.value, search))
    || (row.recipient.Some? && Finds(row.recipient.value, search))
  }

  /** The rows a caller asks for, said without SQL. */
  predicate Selected(o: Options, row: Record) {
    && (o.status != "" ==> row.status == o.status)
    && (o.search != "" ==> SearchHit(row, o.search))
    && AtLeast(row.createdAt, o.createdFrom) && AtMost(row.createdAt, o.createdTo)
    && AtLeast(row.expiresAt, o.expiresFrom) && AtMost(row.expiresAt, o.expiresTo)
  }

  /** The same in columns: closed bounds, and the search in the title or the recipient. */
  lemma SelectedInColumns(o: Options, row: Record)
    ensures Selected(o, row) <==>
              && (o.status == "" || row.status == o.status)
              && (|| o.search == "" || (row.title.Some? && ILike(row.title.value, "%" + o.search + "%"))
                  || (row.recipient.Some? && ILike(row.recipient.value, "%" + o.search + "%")))
              && (o.createdFrom.Some? ==> o.createdFrom.value <= row.createdAt)
              && (o.createdTo.Some? ==> row.createdAt <= o.createdTo.value)
              && (o.expiresFrom.Some? ==> o.expiresFrom.value <= row.expiresAt)
              && (o.expiresTo.Some? ==> row.expiresAt <= o.expiresTo.value)
  {
  }

  /** Bound to `args`, the clauses are accepted, never fail on a row, and keep exactly the selected rows. */
  ghost predicate Compiles(cs: seq<Clause>, args: seq<Value>, o: Options) {
    && Numbered(Params(cs), |args|)
    && forall row :: EvalAll(cs, args, row).Some? && (EvalAll(cs, args, row).value == True <==> Selected(o, row))
  }

  /** The first k conditions of Selected. */
  predicate Stage(o: Options, k: nat, row: Record) {
    && (k >= 1 && o.status != "" ==> row.status == o.status)
    && (k >= 2 && o.search != "" ==> SearchHit(row, o.search))
    && (k >= 3 ==> AtLeast(row.createdAt, o.createdFrom)) && (k >= 4 ==> AtMost(row.createdAt, o.createdTo))
    && (k >= 5 ==> AtLeast(row.expiresAt, o.expiresFrom)) && (k >= 6 ==> AtMost(row.expiresAt, o.expiresTo))
  }

  /** On every row the clauses can be evaluated, and they are true of the rows that pass the first k conditions. */
  ghost predicate Means(cs: seq<Clause>, args: seq<Value>, o: Options, k: nat) {
    && Numbered(Params(cs), |args|)
    && forall row :: EvalAll(cs, args, row).Some? && (EvalAll(cs, args, row).value == True <==> Stage(o, k, row))
  }

  lemma {:induction false} EarlierArguments(cs: seq<Clause>, args: seq<Value>, more: seq<Value>, row: Record)
    requires EvalAll(cs, args, row).Some?
    ensures EvalAll(cs, args + more, row) == EvalAll(cs, args, row)
  {
    if cs != [] {
      EarlierArguments(cs[..|cs| - 1], args, more, row);
    }
  }

  lemma LastClause(cs: seq<Clause>, args: seq<Value>, c: Clause, v: Value, row: Record)
    requires EvalAll(cs, args, row).Some? && Eval(c, args + [v], row).Some?
    ensures EvalAll(cs + [c], args + [v], row) ==
              Some(And(EvalAll(cs, args, row).value, Eval(c, args + [v], row).value))
  {
    hide Eval;
    assert (cs + [c])[..|cs|] == cs;
    EarlierArguments(cs, args, [v], row);
  }

  /** With `args` bound, the clause says what condition k + 1 adds to the first k. */
  ghost predicate Says(c: Clause, args: seq<Value>, o: Options, k: nat) {
    forall row :: Eval(c, args, row).Some?
           && (Stage(o, k + 1, row) <==> Stage(o, k, row) && Eval(c, args, row) == Some(True))
  }

  /** One more argument, and a clause that names it. */
  lemma Added(cs: seq<Clause>, args: seq<Value>, o: Options, k: nat, c: Clause, v: Value)
    requires Means(cs, args, o, k) && !c.OneIsOne? && c.param == |args| + 1 && Says(c, args + [v], o, k)
    ensures Means(cs + [c], args + [v], o, k + 1)
  {
    hide Stage, Eval;
    var ds, bs := cs + [c], args + [v];
    assert ds[..|cs|] == cs;
    forall row ensures EvalAll(ds, bs, row).Some? && (EvalAll(ds, bs, row).value == True <==> Stage(o, k + 1, row)) {
      assert Eval(c, bs, row).Some?;
      LastClause(cs, args, c, v, row);
    }
  }

  /** A condition that the options leave open adds nothing. */
  lemma Skipped(cs: seq<Clause>, args: seq<Value>, o: Options, k: nat)
    requires Means(cs, args, o, k)
    requires forall row :: Stage(o, k + 1, row) <==> Stage(o, k, row)
    ensures Means(cs, args, o, k + 1)
  {
  }

  lemma Compares(args: seq<Value>, o: Options, k: nat, c: Clause, v: Value)
    requires c.Compare? && c.param == |args| + 1
    requires match k
             case 0 => o.status != "" && c.column == Status && c.op == Eq && v == Str(o.status)
             case 2 => o.createdFrom.Some? && c.column == CreatedAt && c.op == Ge && v == Time(o.createdFrom.value)
             case 3 => o.createdTo.Some? && c.column == CreatedAt && c.op == Le && v == Time(o.createdTo.value)
             case 4 => o.expiresFrom.Some? && c.column == ExpiresAt && c.op == Ge && v == Time(o.expiresFrom.value)
             case 5 => o.expiresTo.Some? && c.column == ExpiresAt && c.op == Le && v == Time(o.expiresTo.value)
             case _ => false
    ensures Says(c, args + [v], o, k)
  {
    hide SearchHit;
  }

  lemma Searches(args: seq<Value>, o: Options)
    requires o.search != ""
    ensures Says(Search(|args| + 1), args + [Str(o.search)], o, 1)
  {
    hide Finds;
  }

  lemma AllStages(cs: seq<Clause>, args: seq<Value>, o: Options)
    requires Means(cs, args, o, 6)
    ensures Compiles(cs, args, o)
  {
    hide SearchHit, EvalAll, Params, Numbered;
    forall row ensures Stage(o, 6, row) <==> Selected(o, row) {
    }
  }

  lemma Start(o: Options)
    ensures Means([OneIsOne], [], o, 0)
  {
    assert [OneIsOne][..0] == [];
    assert forall args, row :: EvalAll([], args, row) == Some(True);
  }

  method ListWhere(o: Options) returns (clauses: seq<Clause>, args: seq<Value>)
    ensures Compiles(clauses, args, o)
  {
    hide Means, SearchHit, Says, Eval;
    clauses := [OneIsOne];
    args := [];
    Start(o);
    if o.status != "" {
      Compares(args, o, 0, Compare(Status, Eq, |args| + 1), Str(o.status));
      Added(clauses, args, o, 0, Compare(Status, Eq, |args| + 1), Str(o.status));
      args := args + [Str(o.status)];
      clauses := clauses + [Compare(Status, Eq, |args|)];
    } else {
      Skipped(clauses, args, o, 0);
    }
    if o.search != "" {
      Searches(args, o);
      Added(clauses, args, o, 1, Search(|args| + 1), Str(o.search));
      args := args + [Str(o.search)];
      clauses := clauses + [Search(|args|)];
    } else {
      Skipped(clauses, args, o, 1);
    }
    if o.createdFrom.Some? {
      Compares(args, o, 2, Compare(CreatedAt, Ge, |args| + 1), Time(o.createdFrom.value));
      Added(clauses, args, o, 2, Compare(CreatedAt, Ge, |args| + 1), Time(o.createdFrom.value));
      args := args + [Time(o.createdFrom.value)];
      clauses := clauses + [Compare(CreatedAt, Ge, |args|)];
    } else {
      Skipped(clauses, args, o, 2);
    }
    if o.createdTo.Some? {
      Compares(args, o, 3, Compare(CreatedAt, Le, |args| + 1), Time(o.createdTo.value));
      Added(clauses, args, o, 3, Compare(CreatedAt, Le, |args| + 1), Time(o.createdTo.value));
      args := args + [Time(o.createdTo.value)];
      clauses := clauses + [Compare(CreatedAt, Le, |args|)];
    } else {
      Skipped(clauses, args, o, 3);
    }
    if o.expiresFrom.Some? {
      Compares(args, o, 4, Compare(ExpiresAt, Ge, |args| + 1), Time(o.expiresFrom.value));
      Added(clauses, args, o, 4, Compare(ExpiresAt, Ge, |args| + 1), Time(o.expiresFrom.value));
      args := args + [Time(o.expiresFrom.value)];
      clauses := clauses + [Compare(ExpiresAt, Ge, |args|)];
    } else {
      Skipped(clauses, args, o, 4);
    }
    if o.expiresTo.Some? {
      Compares(args, o, 5, Compare(ExpiresAt, Le, |args| + 1), Time(o.expiresTo.value));
      Added(clauses, args, o, 5, Compare(ExpiresAt, Le, |args| + 1), Time(o.expiresTo.value));
      args := args + [Time(o.expiresTo.value)];
      clauses := clauses + [Compare(ExpiresAt, Le, |args|)];
    } else {
      Skipped(clauses, args, o, 5);
    }
    AllStages(clauses, args, o);
  }

  /** No character that LIKE reads as a wildcard or an escape. */
  predicate Plain(s: string) {
    forall i | 0 <= i < |s| :: s[i] != '%' && s[i] != '_' && s[i] != '\\'
  }

  /** s contains t, up to case. */
  predicate IsContained(s: string, t: string) {
    Contains(ToLower(s), ToLower(t))
  }

  lemma {:induction false} PlainPrefix(s: string, t: string)
    requires Plain(t)
    ensures ILike(s, t + "%") <==> |t| <= |s| && ToLower(s[..|t|]) == ToLower(t)
    decreases |t|
  {
    if t == "" {
      assert t + "%" == "%";
      AnyText(s);
    } else {
      assert (t + "%")[1..] == t[1..] + "%";
      if s != "" {
        PlainPrefix(s[1..], t[1..]);
        if |t| <= |s| {
          assert s[..|t|][1..] == s[1..][..|t| - 1];
        }
      }
    }
  }

  lemma {:induction false} AnyText(s: string)
    ensures ILike(s, "%")
  {
    if s == "" {
      assert ILike("", "%"[1..]);
    } else {
      AnyText(s[1..]);
    }
  }

  lemma OccursLater(s: string, t: string)
    requires s != ""
    ensures Contains(s, t) <==> OccursAt(s, t, 0) || Contains(s[1..], t)
  {
    if Contains(s, t) && !OccursAt(s, t, 0) {
      var i :| 0 <= i <= |s| && OccursAt(s, t, i);
      assert s[1..][i - 1..i - 1 + |t|] == s[i..i + |t|];
      assert OccursAt(s[1..], t, i - 1);
    }
    if Contains(s[1..], t) {
      var i :| 0 <= i <= |s[1..]| && OccursAt(s[1..], t, i);
      assert s[1..][i..i + |t|] == s[i + 1..i + 1 + |t|];
      assert OccursAt(s, t, i + 1);
    }
  }

  lemma EmptyOccurs(t: string)
    ensures Contains("", t) <==> OccursAt("", t, 0)
  {
  }

  /** A search without wildcards finds the texts that contain it, whatever the case. */
  lemma {:induction false} PlainSearchIsContainment(s: string, t: string)
    requires Plain(t)
    ensures Finds(s, t) <==> IsContained(s, t)
    decreases |s|
  {
    hide Contains;
    var pattern, low, sought := "%" + t + "%", ToLower(s), ToLower(t);
    assert pattern[1..] == t + "%";
    PlainPrefix(s, t);
    assert |t| <= |s| ==> low[..|t|] == ToLower(s[..|t|]);
    assert ILike(s, t + "%") <==> OccursAt(low, sought, 0);
    if s == "" {
      assert Contains(low, sought) <==> OccursAt(low, sought, 0) by {
        EmptyOccurs(sought);
      }
    } else {
      PlainSearchIsContainment(s[1..], t);
      OccursLater(low, sought);
      assert low[1..] == ToLower(s[1..]);
    }
  }

  /** A text that the pattern finds although it is not the search text. */
  function Instance(t: string): string {
    if t == "" then ""
    else if t[0] == '%' then Instance(t[1..])
    else if t[0] == '_' then "a" + Instance(t[1..])
    else if t[0] == '\\' then if |t| > 1 then [t[1]] + Instance(t[2..]) else "%"
    else [t[0]] + Instance(t[1..])
  }

  lemma {:induction false} InstanceMatches(t: string)
    ensures ILike(Instance(t), t + "%")
    decreases |t|
  {
    if t == "" {
      AnyText("");
    } else if t == "\\" {
      assert (t + "%")[1] == '%' && (t + "%")[2..] == "";
      assert ILike("", "");
    } else if t[0] == '\\' {
      InstanceMatches(t[2..]);
      assert (t + "%")[2..] == t[2..] + "%";
    } else {
      InstanceMatches(t[1..]);
      assert (t + "%")[1..] == t[1..] + "%";
    }
  }

  lemma {:induction false} InstanceDiffers(t: string)
    ensures |Instance(t)| <= |t|
    ensures |Instance(t)| == |t| && ToLower(Instance(t)) == ToLower(t) ==> Plain(t)
    decreases |t|
  {
    if t == "" || t == "\\" {
    } else if t[0] == '\\' {
      InstanceDiffers(t[2..]);
    } else {
      InstanceDiffers(t[1..]);
      if |Instance(t)| == |t| && ToLower(Instance(t)) == ToLower(t) {
        assert ToLower(Instance(t))[0] == ToLower(t)[0];
        assert Instance(t)[1..] == Instance(t[1..]);
        assert ToLower(Instance(t[1..])) == ToLower(Instance(t))[1..] == ToLower(t)[1..] == ToLower(t[1..]);
      }
    }
  }

  lemma NotLongerContains(s: string, t: string)
    requires |s| <= |t| && Contains(s, t)
    ensures s == t
  {
  }

  lemma InstanceIsFound(t: string)
    requires !Plain(t)
    ensures Finds(Instance(t), t) && !IsContained(Instance(t), t)
  {
    InstanceMatches(t);
    assert ("%" + t + "%")[1..] == t + "%";
    InstanceDiffers(t);
    if IsContained(Instance(t), t) {
      NotLongerContains(ToLower(Instance(t)), ToLower(t));
    }
  }

  /** A search is literal, whatever the rows hold, exactly when its text has none of LIKE's special characters. */
  lemma SearchIsLiteralIff(t: string)
    ensures (forall s :: Finds(s, t) <==> IsContained(s, t)) <==> Plain(t)
  {
    if Plain(t) {
      forall s ensures Finds(s, t) <==> IsContained(s, t) {
        PlainSearchIsContainment(s, t);
      }
    } else {
      InstanceIsFound(t);
    }
  }
}
