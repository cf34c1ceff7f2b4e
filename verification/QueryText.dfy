/** The two passes of `src/query.rs` over SQL text with `%(name)s` placeholders: rewriting to `$1..$N`
    and collecting the parameters in the same numbering. */
module QueryText {
  import opened Common

  /** SQL text read as characters and named placeholders. */
  datatype Sql = End | Lit(c: char, rest: Sql) | Named(name: string, rest: Sql)

  /** The rewritten text: characters and numbered placeholders with an optional cast. */
  datatype Statement = Done | Text(c: char, rest: Statement) | Dollar(k: nat, cast: Option<string>, rest: Statement)

  /** A statement with a value, or nothing, in the place of every placeholder. */
  datatype Filled = Stop | Plain(c: char, rest: Filled) | Slot(value: Option<Param>, rest: Filled)

  // ---------- reading placeholders ----------

  /** `find_param_name`: the placeholder at `from`, as the position after it and its name. */
  function FindParamName(s: string, from: nat): (r: Option<(nat, string)>)
    ensures r.Some? ==> from + 4 <= r.value.0 <= |s|
  {
    if from + 1 < |s| && s[from] == '%' && s[from + 1] == '(' then
      var close := Find(s, ')', from + 2);
      if close + 1 < |s| && s[close + 1] == 's' then Some((close + 2, s[from + 2..close])) else None
    else None
  }

  /** The text from `from` on, read left to right. */
  function Scan(s: string, from: nat): Sql
    requires from <= |s|
    decreases |s| - from
  {
    if from == |s| then End
    else
      var found := FindParamName(s, from);
      if found.Some? then Named(found.value.1, Scan(s, found.value.0)) else Lit(s[from], Scan(s, from + 1))
  }

  function Names(sql: Sql): seq<string> {
    match sql
    case End => []
    case Lit(_, rest) => Names(rest)
    case Named(name, rest) => [name] + Names(rest)
  }

  predicate Mentions(sql: Sql, name: string) {
    match sql
    case End => false
    case Lit(_, rest) => Mentions(rest, name)
    case Named(n, rest) => n == name || Mentions(rest, name)
  }

  lemma {:induction false} NamesAreMentioned(sql: Sql, name: string)
    ensures name in Names(sql) <==> Mentions(sql, name)
  {
    if !sql.End? { NamesAreMentioned(sql.rest, name); }
  }

  /** `param_names_in_order`. */
  method ParamNamesInOrder(sql: string) returns (names: seq<string>)
    ensures names == Names(Scan(sql, 0))
  {
    names := [];
    var i := 0;
    while i < |sql|
      invariant i <= |sql|
      invariant Names(Scan(sql, 0)) == names + Names(Scan(sql, i))
    {
      var found := FindParamName(sql, i);
      if found.Some? {
        names := names + [found.value.1];
        i := found.value.0;
      } else {
        i := i + 1;
      }
    }
  }

  // ---------- numbering ----------

  function See(seen: seq<string>, name: string): seq<string> {
    if name in seen then seen else seen + [name]
  }

  /** The distinct names in order of first appearance, the ones in `seen` first. */
  function Order(seen: seq<string>, sql: Sql): seq<string>
    decreases sql
  {
    match sql
    case End => seen
    case Lit(_, rest) => Order(seen, rest)
    case Named(name, rest) => Order(See(seen, name), rest)
  }

  lemma {:induction false} OrderMeaning(seen: seq<string>, sql: Sql)
    ensures forall n :: n in Order(seen, sql) <==> n in seen || Mentions(sql, n)
    decreases sql
  {
    if sql.Lit? {
      OrderMeaning(seen, sql.rest);
    } else if sql.Named? {
      OrderMeaning(See(seen, sql.name), sql.rest);
    }
  }

  /** `index.entry(name).or_insert(index.len() + 1)`. */
  function Assign(index: map<string, nat>, name: string): (after: map<string, nat>)
    ensures name in after && forall n :: n in index ==> n in after && after[n] == index[n]
  {
    if name in index then index else index[name := |index| + 1]
  }

  /** The numbers after reading all of `sql`. */
  function FinalIndex(index: map<string, nat>, sql: Sql): map<string, nat>
    decreases sql
  {
    match sql
    case End => index
    case Lit(_, rest) => FinalIndex(index, rest)
    case Named(name, rest) => FinalIndex(Assign(index, name), rest)
  }

  lemma {:induction false} NumbersAreKept(index: map<string, nat>, sql: Sql)
    ensures forall n :: n in index ==> n in FinalIndex(index, sql) && FinalIndex(index, sql)[n] == index[n]
    ensures forall n :: Mentions(sql, n) ==> n in FinalIndex(index, sql)
    decreases sql
  {
    if sql.Lit? {
      NumbersAreKept(index, sql.rest);
    } else if sql.Named? {
      NumbersAreKept(Assign(index, sql.name), sql.rest);
    }
  }

  /** The numbers handed out so far: the names `seen`, from 1 up. */
  ghost predicate Numbered(index: map<string, nat>, seen: seq<string>) {
    && |index| == |seen|
    && (forall j :: 0 <= j < |seen| ==> seen[j] in index && index[seen[j]] == j + 1)
    && (forall n :: n in index ==> n in seen)
  }

  lemma AssignStep(index: map<string, nat>, seen: seq<string>, name: string)
    requires Numbered(index, seen)
    ensures Numbered(Assign(index, name), See(seen, name))
  {
    if name in index {
      assert name in seen;
    } else {
      assert name !in seen;
      assert |Assign(index, name)| == |index| + 1;
    }
  }

  /** A name gets one plus its place among the distinct names in order of first appearance. */
  lemma {:induction false} NumbersFollowFirstAppearance(index: map<string, nat>, seen: seq<string>, sql: Sql)
    requires Numbered(index, seen)
    ensures Numbered(FinalIndex(index, sql), Order(seen, sql))
    decreases sql
  {
    if sql.Lit? {
      NumbersFollowFirstAppearance(index, seen, sql.rest);
    } else if sql.Named? {
      AssignStep(index, seen, sql.name);
      NumbersFollowFirstAppearance(Assign(index, sql.name), See(seen, sql.name), sql.rest);
    }
  }

  // ---------- the rewriting pass ----------

  function CastOf(name: string, casts: map<string, string>): Option<string> {
    if name in casts then Some(casts[name]) else None
  }

  /** The rewritten text, when numbers are given on first sight after those in `index`. */
  function Rewrite(sql: Sql, index: map<string, nat>, casts: map<string, string>): Statement {
    match sql
    case End => Done
    case Lit(c, rest) => Text(c, Rewrite(rest, index, casts))
    case Named(name, rest) =>
      var after := Assign(index, name);
      Dollar(after[name], CastOf(name, casts), Rewrite(rest, after, casts))
  }

  function NumberOf(index: map<string, nat>, name: string): nat {
    if name in index then index[name] else 0
  }

  /** The rewritten text, when the numbers are fixed beforehand. */
  function Number(sql: Sql, index: map<string, nat>, casts: map<string, string>): Statement {
    match sql
    case End => Done
    case Lit(c, rest) => Text(c, Number(rest, index, casts))
    case Named(name, rest) => Dollar(NumberOf(index, name), CastOf(name, casts), Number(rest, index, casts))
  }

  /** Numbers given on first sight are the numbers of the whole statement. */
  lemma {:induction false} NumberingIsGlobal(sql: Sql, index: map<string, nat>, casts: map<string, string>)
    ensures Rewrite(sql, index, casts) == Number(sql, FinalIndex(index, sql), casts)
  {
    if sql.Lit? {
      NumberingIsGlobal(sql.rest, index, casts);
    } else if sql.Named? {
      NumberingIsGlobal(sql.rest, Assign(index, sql.name), casts);
      NumbersAreKept(Assign(index, sql.name), sql.rest);
    }
  }

  function Shown(k: nat, cast: Option<string>): string {
    if cast.Some? then "$" + Decimal(k) + "::" + cast.value else "$" + Decimal(k)
  }

  /** The text of `st` written after `out`. */
  function Render(out: string, st: Statement): string
    decreases st
  {
    match st
    case Done => out
    case Text(c, rest) => Render(out + [c], rest)
    case Dollar(k, cast, rest) => Render(out + Shown(k, cast), rest)
  }

  /** The pushes for one placeholder. */
  method PushPlaceholder(out: string, idx: nat, name: string, casts: map<string, string>) returns (longer: string)
    ensures longer == out + Shown(idx, CastOf(name, casts))
  {
    longer := out + "$";
    longer := longer + Decimal(idx);
    assert longer == out + ("$" + Decimal(idx));
    if name in casts {
      longer := longer + "::";
      longer := longer + casts[name];
      assert longer == out + ("$" + Decimal(idx) + "::" + casts[name]);
    }
  }

  /** `named_to_positional_with_casts`. */
  method NamedToPositional(sql: string, casts: seq<(string, string)>) returns (out: string)
    ensures out == Render("", Rewrite(Scan(sql, 0), map[], MapOf(casts)))
  {
    var castMap := MapOf(casts);
    var index: map<string, nat> := map[];
    var i := 0;
    out := "";
    while i < |sql|
      invariant i <= |sql|
      invariant Render("", Rewrite(Scan(sql, 0), map[], castMap)) == Render(out, Rewrite(Scan(sql, i), index, castMap))
    {
      var found := FindParamName(sql, i);
      if found.Some? {
        var (next, name) := found.value;
        index := Assign(index, name);
        out := PushPlaceholder(out, index[name], name, castMap);
        i := next;
      } else {
        out := out + [sql[i]];
        i := i + 1;
      }
    }
  }

  // ---------- the parameter list, and what the two passes mean together ----------

  function Lookup(params: map<string, Param>, name: string): Option<Param> {
    if name in params then Some(params[name]) else None
  }

  /** `Query::parameters` after the names are made distinct: the values of the bound ones, in order. */
  function Values(order: seq<string>, params: map<string, Param>): (values: seq<Param>)
    ensures |values| <= |order|
  {
    if order == [] then []
    else
      var last := |order| - 1;
      Values(order[..last], params) + (if order[last] in params then [params[order[last]]] else [])
  }

  /** The seen-set filter of `Query::parameters`, run over a list of names. */
  function Distinct(seen: seq<string>, names: seq<string>): seq<string>
    decreases |names|
  {
    if names == [] then seen else Distinct(See(seen, names[0]), names[1..])
  }

  lemma {:induction false} DistinctIsOrder(seen: seq<string>, sql: Sql)
    ensures Distinct(seen, Names(sql)) == Order(seen, sql)
    decreases sql
  {
    if sql.Lit? {
      DistinctIsOrder(seen, sql.rest);
    } else if sql.Named? {
      DistinctIsOrder(See(seen, sql.name), sql.rest);
      assert Names(sql)[1..] == Names(sql.rest);
    }
  }

  function Parameters(sql: Sql, params: map<string, Param>): seq<Param> {
    Values(Distinct([], Names(sql)), params)
  }

  function FillNamed(sql: Sql, params: map<string, Param>): Filled {
    match sql
    case End => Stop
    case Lit(c, rest) => Plain(c, FillNamed(rest, params))
    case Named(name, rest) => Slot(Lookup(params, name), FillNamed(rest, params))
  }

  function ValueAt(values: seq<Param>, k: nat): Option<Param> {
    if 1 <= k <= |values| then Some(values[k - 1]) else None
  }

  /** The statement the server runs: `$k` is the k-th value; casts do not change it. */
  function FillPositional(st: Statement, values: seq<Param>): Filled {
    match st
    case Done => Stop
    case Text(c, rest) => Plain(c, FillPositional(rest, values))
    case Dollar(k, _, rest) => Slot(ValueAt(values, k), FillPositional(rest, values))
  }

  predicate AllFilled(f: Filled) {
    match f
    case Stop => true
    case Plain(_, rest) => AllFilled(rest)
    case Slot(value, rest) => value.Some? && AllFilled(rest)
  }

  ghost predicate AllBound(sql: Sql, params: map<string, Param>) {
    forall n :: Mentions(sql, n) ==> n in params
  }

  /** No name without a value comes before one that has a value. */
  ghost predicate BoundFirst(order: seq<string>, params: map<string, Param>) {
    forall i, j :: 0 <= i < j < |order| && order[j] in params ==> order[i] in params
  }

  lemma {:induction false} ValuesOfBoundFirst(order: seq<string>, params: map<string, Param>)
    requires BoundFirst(order, params)
    ensures forall i :: 0 <= i < |order| ==> ValueAt(Values(order, params), i + 1) == Lookup(params, order[i])
  {
    if order != [] {
      var last := |order| - 1;
      ValuesOfBoundFirst(order[..last], params);
      var values := Values(order[..last], params);
      if order[last] in params && last > 0 {
        assert order[last - 1] in params;
        assert ValueAt(values, last) == Lookup(params, order[..last][last - 1]);
      }
      forall i | 0 <= i < last ensures ValueAt(Values(order, params), i + 1) == Lookup(params, order[i]) {
        assert ValueAt(values, i + 1) == Lookup(params, order[..last][i]);
        if i >= |values| {
          assert order[i] !in params;
        }
      }
    }
  }

  /** Every name of the statement gets its own value from its number. */
  ghost predicate OwnValues(sql: Sql, index: map<string, nat>, params: map<string, Param>, values: seq<Param>) {
    forall n :: Mentions(sql, n) ==> ValueAt(values, NumberOf(index, n)) == Lookup(params, n)
  }

  /** Both fillings agree exactly when every name used gets its own value from its number. */
  lemma {:induction false} FillingsAgree(sql: Sql, index: map<string, nat>, params: map<string, Param>,
                                         values: seq<Param>, casts: map<string, string>)
    ensures FillPositional(Number(sql, index, casts), values) == FillNamed(sql, params) <==>
            OwnValues(sql, index, params, values)
  {
    if !sql.End? { FillingsAgree(sql.rest, index, params, values, casts); }
  }

  lemma BoundFirstGivesOwnValues(sql: Sql, index: map<string, nat>, order: seq<string>, params: map<string, Param>)
    requires Numbered(index, order) && (forall n :: Mentions(sql, n) ==> n in order)
    requires BoundFirst(order, params)
    ensures OwnValues(sql, index, params, Values(order, params))
  {
    ValuesOfBoundFirst(order, params);
    forall n | Mentions(sql, n) ensures ValueAt(Values(order, params), NumberOf(index, n)) == Lookup(params, n) {
      var i :| 0 <= i < |order| && order[i] == n;
    }
  }

  lemma OwnValuesNeedBoundFirst(sql: Sql, index: map<string, nat>, order: seq<string>, params: map<string, Param>)
    requires Numbered(index, order) && (forall n :: n in order ==> Mentions(sql, n))
    requires OwnValues(sql, index, params, Values(order, params))
    ensures BoundFirst(order, params)
  {
    forall i, j | 0 <= i < j < |order| && order[j] in params ensures order[i] in params {
      assert order[i] in order && order[j] in order;
      assert NumberOf(index, order[i]) == i + 1 && NumberOf(index, order[j]) == j + 1;
    }
  }

  /** Running the rewritten statement with the collected parameters means the same as filling the named
      placeholders, exactly when no name without a value first appears before a name with one. */
  lemma PassesAgree(sql: Sql, params: map<string, Param>, casts: map<string, string>)
    ensures FillPositional(Rewrite(sql, map[], casts), Parameters(sql, params)) == FillNamed(sql, params) <==>
            BoundFirst(Order([], sql), params)
  {
    var index, order := FinalIndex(map[], sql), Order([], sql);
    DistinctIsOrder([], sql);
    OrderMeaning([], sql);
    NumberingIsGlobal(sql, map[], casts);
    NumbersFollowFirstAppearance(map[], [], sql);
    FillingsAgree(sql, index, params, Values(order, params), casts);
    if BoundFirst(order, params) {
      BoundFirstGivesOwnValues(sql, index, order, params);
    }
    if OwnValues(sql, index, params, Values(order, params)) {
      OwnValuesNeedBoundFirst(sql, index, order, params);
    }
  }

  lemma {:induction false} FilledWhenBound(sql: Sql, params: map<string, Param>)
    ensures AllFilled(FillNamed(sql, params)) <==> AllBound(sql, params)
  {
    if !sql.End? {
      FilledWhenBound(sql.rest, params);
      if sql.Named? { assert Mentions(sql, sql.name); }
      assert forall n :: Mentions(sql.rest, n) ==> Mentions(sql, n);
    }
  }

  /** The statement sent to the server is complete and means what the named form means, exactly when every
      placeholder name has a value. */
  lemma SentStatement(sql: Sql, params: map<string, Param>, casts: map<string, string>)
    ensures var sent := FillPositional(Rewrite(sql, map[], casts), Parameters(sql, params));
            sent == FillNamed(sql, params) && AllFilled(sent) <==> AllBound(sql, params)
  {
    PassesAgree(sql, params, casts);
    FilledWhenBound(sql, params);
    OrderMeaning([], sql);
    if AllBound(sql, params) {
      var order := Order([], sql);
      assert forall i :: 0 <= i < |order| ==> order[i] in order;
    }
  }

  lemma ParametersOfTwoNames(v: Param)
    ensures Parameters(Named("a", Named("b", End)), map["b" := v]) == [v]
  {
    var params, order := map["b" := v], ["a", "b"];
    assert "a" != "b" by { assert "a"[0] != "b"[0]; }
    assert Names(Named("a", Named("b", End))) == order;
    assert See([], "a") == ["a"] && See(["a"], "b") == order;
    assert order[1..] == ["b"] && ["b"][1..] == [];
    assert Distinct([], order) == Distinct(["a"], ["b"]) == Distinct(order, []) == order;
    assert order[..1] == ["a"] && ["a"][..0] == [];
    assert Values(["a"], params) == [];
  }

  /** A name without a value silently moves later values: `$1`, which stands for `a`, gets the value of `b`. */
  lemma UnboundNameShiftsValues(v: Param)
    ensures var sql, params := Named("a", Named("b", End)), map["b" := v];
            && FillNamed(sql, params) == Slot(None, Slot(Some(v), Stop))
            && FillPositional(Rewrite(sql, map[], map[]), Parameters(sql, params)) == Slot(Some(v), Slot(None, Stop))
  {
    var inner, params := Named("b", End), map["b" := v];
    ParametersOfTwoNames(v);
    assert "a" != "b" by { assert "a"[0] != "b"[0]; }
    assert FillNamed(inner, params) == Slot(Some(v), Stop);
    assert Rewrite(inner, map["a" := 1], map[]) == Dollar(2, None, Done);
    assert Assign(map[], "a") == map["a" := 1];
    assert Rewrite(Named("a", inner), map[], map[]) == Dollar(1, None, Dollar(2, None, Done));
    assert FillPositional(Dollar(2, None, Done), [v]) == Slot(None, Stop);
  }
}
