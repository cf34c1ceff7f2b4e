/** `Query` of `src/query.rs`: the text of a statement is put together from parts, and its placeholders are those of
    the parts. */
module QueryStatements {
  import opened Common
  import opened QueryFilters
  import opened QueryText
  import opened SentText

  // ---------- text whose placeholders are complete and known ----------

  predicate NoDigitAt(s: string, i: nat) {
    i < |s| ==> !IsDigit(s[i])
  }

  predicate PlainText(s: string) {
    forall i :: 0 <= i < |s| ==> s[i] != '%' && s[i] != '$'
  }

  /** From `i` on, every `%` of `s` begins a placeholder, its name is one of `names`, and no digit follows it; and there is
      no `$`. */
  predicate CoveredFrom(s: string, i: nat, names: set<string>)
    requires i <= |s|
    decreases |s| - i
  {
    i == |s| ||
    var found := FindParamName(s, i);
    if found.Some? then
      found.value.1 in names && NoDigitAt(s, found.value.0) && CoveredFrom(s, found.value.0, names)
    else s[i] != '%' && s[i] != '$' && CoveredFrom(s, i + 1, names)
  }

  predicate Covers(s: string, names: set<string>) {
    CoveredFrom(s, 0, names)
  }

  lemma {:induction false} CoversMeaning(s: string, i: nat, names: set<string>, n: string)
    requires i <= |s| && CoveredFrom(s, i, names) && Mentions(Scan(s, i), n)
    ensures n in names
    decreases |s| - i
  {
    if i < |s| {
      var found := FindParamName(s, i);
      if found.None? {
        CoversMeaning(s, i + 1, names, n);
      } else if found.value.1 != n {
        CoversMeaning(s, found.value.0, names, n);
      }
    }
  }

  lemma ParamNameShift(s: string, t: string, i: nat)
    requires i <= |t|
    ensures var (inner, outer) := (FindParamName(t, i), FindParamName(s + t, |s| + i));
            outer == if inner.Some? then Some((|s| + inner.value.0, inner.value.1)) else None
  {
    if i + 1 < |t| && t[i] == '%' && t[i + 1] == '(' {
      FindShift(s, t, ')', i + 2);
      var close := Find(t, ')', i + 2);
      assert (s + t)[|s| + i + 2..|s| + close] == t[i + 2..close];
    }
  }

  lemma {:induction false} CoveredShift(s: string, t: string, i: nat, names: set<string>)
    requires i <= |t| && CoveredFrom(t, i, names)
    ensures CoveredFrom(s + t, |s| + i, names)
    decreases |t| - i
  {
    if i < |t| {
      ParamNameShift(s, t, i);
      var found := FindParamName(t, i);
      CoveredShift(s, t, if found.Some? then found.value.0 else i + 1, names);
    }
  }

  /** A complete placeholder is read the same whatever follows. */
  lemma ParamNameKept(s: string, t: string, i: nat)
    requires i <= |s| && FindParamName(s, i).Some?
    ensures FindParamName(s + t, i) == FindParamName(s, i)
  {
    var close := Find(s, ')', i + 2);
    assert (s + t)[i + 2..close] == s[i + 2..close];
    FindFirst(s + t, ')', i + 2, close);
  }

  /** A placeholder at the end of `a` may be followed by a digit of `b`. */
  predicate Joins(a: string, b: string) {
    a != "" && b != "" && a[|a| - 1] == 's' && IsDigit(b[0])
  }

  lemma {:induction false} CoveredConcat(a: string, b: string, i: nat, names: set<string>)
    requires i <= |a| && CoveredFrom(a, i, names) && Covers(b, names) && !Joins(a, b)
    ensures CoveredFrom(a + b, i, names)
    decreases |a| - i
  {
    if i == |a| {
      CoveredShift(a, b, 0, names);
    } else if FindParamName(a, i).Some? {
      ParamNameKept(a, b, i);
      CoveredConcat(a, b, FindParamName(a, i).value.0, names);
    } else {
      CoveredConcat(a, b, i + 1, names);
    }
  }

  lemma CoversConcat(a: string, b: string, names: set<string>)
    requires Covers(a, names) && Covers(b, names) && !Joins(a, b)
    ensures Covers(a + b, names)
  {
    CoveredConcat(a, b, 0, names);
  }

  lemma PlainConcat(a: string, b: string)
    requires PlainText(a) && PlainText(b)
    ensures PlainText(a + b)
  {
  }

  lemma {:induction false} PlainFrom(s: string, i: nat, names: set<string>)
    requires PlainText(s) && i <= |s|
    ensures CoveredFrom(s, i, names)
    decreases |s| - i
  {
    if i < |s| {
      assert s[i] in s;
      PlainFrom(s, i + 1, names);
    }
  }

  lemma CoversPlain(s: string, names: set<string>)
    requires PlainText(s)
    ensures Covers(s, names)
  {
    PlainFrom(s, 0, names);
  }

  lemma CoversPlace(name: string, names: set<string>)
    requires ')' !in name && name in names
    ensures Covers(Place(name), names)
  {
    var s, close := Place(name), 2 + |name|;
    assert s[2..close] == name && s[close] == ')' && s[close + 1] == 's';
    FindFirst(s, ')', 2, close);
    assert FindParamName(s, 0) == Some((|s|, name));
    assert CoveredFrom(s, |s|, names);
  }

  // ---------- the statement text ----------

  function Join(parts: seq<string>, sep: string): string {
    if parts == [] then ""
    else if |parts| == 1 then parts[0]
    else Join(parts[..|parts| - 1], sep) + sep + parts[|parts| - 1]
  }

  function Clause(head: string, parts: seq<string>, sep: string): string {
    if parts == [] then "" else head + Join(parts, sep) + " "
  }

  datatype Query = Query(table: string, columns: seq<string>, conditions: seq<Filter>, groups: seq<string>,
                         having: seq<Filter>, order: seq<string>, limit: Option<int>,
                         params: seq<(string, Param)>, casts: seq<(string, string)>) {

    /** The names that have a value. */
    ghost function Bound(): set<string> {
      set i | 0 <= i < |params| :: params[i].0
    }

    function SetColumns(texts: seq<string>): (q: Query)
      ensures q.Bound() == Bound()
    {
      this.(columns := texts)
    }

    function Condition(filter: Filter): (q: Query)
      ensures q.Bound() == Bound()
    {
      this.(conditions := conditions + [filter])
    }

    function Bind(name: string, value: Param): (q: Query)
      ensures q.Bound() == Bound() + {name}
    {
      var longer := params + [(name, value)];
      assert longer[|params|] == (name, value) && forall i :: 0 <= i < |params| ==> longer[i] == params[i];
      this.(params := longer)
    }

    function Cast(name: string, sqlType: string): (q: Query)
      ensures q.Bound() == Bound()
    {
      this.(casts := casts + [(name, sqlType)])
    }

    function GroupBy(group: string): (q: Query)
      ensures q.Bound() == Bound()
    {
      this.(groups := groups + [group])
    }

    function GroupHaving(filter: Filter, name: string, value: Param): (q: Query)
      ensures q.Bound() == Bound() + {name}
    {
      this.(having := having + [filter]).Bind(name, value)
    }

    function OrderBy(column: string, desc: bool): (q: Query)
      ensures q.Bound() == Bound()
    {
      this.(order := order + [if desc then column + " DESC" else column])
    }

    function Projection(): string {
      "SELECT " + (if columns == [] then " " else Join(columns, ", ") + " ") + ("FROM " + table + " ")
    }

    function Grouping(): string {
      if groups == [] then "" else Clause("GROUP BY ", groups, ", ") + Clause("HAVING ", Texts(having), " AND ")
    }

    function Limiting(): string {
      if limit.Some? then "LIMIT " + Signed(limit.value) + " " else ""
    }

    /** What `to_sql` has pushed before it trims the end. */
    function Untrimmed(): string {
      Projection() + Clause("WHERE ", Texts(conditions), " AND ") + Grouping() + Clause("ORDER BY ", order, ", ")
      + Limiting()
    }

    function ToSql(): string {
      TrimEnd(Untrimmed())
    }

    ghost predicate CoveredBy(names: set<string>) {
      && Covers(table, names) && AllCovered(columns, names) && AllCovered(Texts(conditions), names)
      && AllCovered(groups, names) && AllCovered(Texts(having), names) && AllCovered(order, names)
      && PlainCasts(casts)
    }
  }

  predicate PlainCasts(casts: seq<(string, string)>) {
    forall i :: 0 <= i < |casts| ==> '$' !in casts[i].1
  }

  ghost predicate AllCovered(parts: seq<string>, names: set<string>) {
    forall i :: 0 <= i < |parts| ==> Covers(parts[i], names)
  }

  function NewQuery(table: string): Query {
    Query(table, [], [], [], [], [], None, [], [])
  }

  /** Text that parts may stand around. */
  predicate IsSeparator(sep: string) {
    sep != "" && !IsDigit(sep[0]) && sep[|sep| - 1] == ' '
  }

  lemma {:induction false} JoinCovered(parts: seq<string>, sep: string, names: set<string>)
    requires AllCovered(parts, names) && Covers(sep, names) && IsSeparator(sep)
    ensures Covers(Join(parts, sep), names)
  {
    if parts == [] {
      CoversPlain("", names);
    } else if |parts| > 1 {
      var last := |parts| - 1;
      JoinCovered(parts[..last], sep, names);
      CoversConcat(Join(parts[..last], sep), sep, names);
      CoversConcat(Join(parts[..last], sep) + sep, parts[last], names);
    }
  }

  lemma ClauseCovered(head: string, parts: seq<string>, sep: string, names: set<string>)
    requires AllCovered(parts, names) && PlainText(head) && PlainText(sep) && IsSeparator(head) && IsSeparator(sep)
    ensures Covers(Clause(head, parts, sep), names)
  {
    if parts == [] {
      CoversPlain("", names);
    } else {
      CoversPlain(head, names);
      CoversPlain(sep, names);
      CoversPlain(" ", names);
      JoinCovered(parts, sep, names);
      CoversConcat(head, Join(parts, sep), names);
      CoversConcat(head + Join(parts, sep), " ", names);
    }
  }

  /** Cutting off one white character does not touch a placeholder. */
  lemma {:induction false} CoveredWithoutEnd(s: string, w: char, i: nat, names: set<string>)
    requires IsWhite(w) && i <= |s| && CoveredFrom(s + [w], i, names)
    ensures CoveredFrom(s, i, names)
    decreases |s| - i
  {
    if i < |s| {
      var found := FindParamName(s + [w], i);
      if found.Some? {
        var close := found.value.0 - 2;
        assert (s + [w])[close + 1] == 's';
        assert (s + [w])[i + 2..close] == s[i + 2..close];
        FindFirst(s, ')', i + 2, close);
        CoveredWithoutEnd(s, w, found.value.0, names);
      } else {
        if FindParamName(s, i).Some? {
          ParamNameKept(s, [w], i);
        }
        CoveredWithoutEnd(s, w, i + 1, names);
      }
    }
  }

  lemma {:induction false} TrimCovered(s: string, names: set<string>)
    requires Covers(s, names)
    ensures Covers(TrimEnd(s), names)
  {
    if s != "" && IsWhite(s[|s| - 1]) {
      var shorter, w := s[..|s| - 1], s[|s| - 1];
      assert s == shorter + [w];
      CoveredWithoutEnd(shorter, w, 0, names);
      TrimCovered(shorter, names);
    }
  }

  lemma ProjectionCovered(q: Query, names: set<string>)
    requires q.CoveredBy(names)
    ensures Covers(q.Projection(), names)
  {
    var columns := if q.columns == [] then " " else Join(q.columns, ", ") + " ";
    CoversPlain("SELECT ", names);
    CoversPlain(" ", names);
    CoversPlain(", ", names);
    CoversPlain("FROM ", names);
    JoinCovered(q.columns, ", ", names);
    CoversConcat(Join(q.columns, ", "), " ", names);
    CoversConcat("FROM ", q.table, names);
    CoversConcat("FROM " + q.table, " ", names);
    CoversConcat("SELECT ", columns, names);
    CoversConcat("SELECT " + columns, "FROM " + q.table + " ", names);
  }

  lemma GroupingCovered(q: Query, names: set<string>)
    requires q.CoveredBy(names)
    ensures Covers(q.Grouping(), names)
  {
    CoversPlain("", names);
    ClauseCovered("GROUP BY ", q.groups, ", ", names);
    ClauseCovered("HAVING ", Texts(q.having), " AND ", names);
    CoversConcat(Clause("GROUP BY ", q.groups, ", "), Clause("HAVING ", Texts(q.having), " AND "), names);
  }

  lemma CoversFive(a: string, b: string, c: string, d: string, e: string, names: set<string>)
    requires Covers(a, names) && Covers(b, names) && Covers(c, names) && Covers(d, names) && Covers(e, names)
    requires NoDigitAt(b, 0) && NoDigitAt(c, 0) && NoDigitAt(d, 0) && NoDigitAt(e, 0)
    ensures Covers(a + b + c + d + e, names)
  {
    CoversConcat(a, b, names);
    CoversConcat(a + b, c, names);
    CoversConcat(a + b + c, d, names);
    CoversConcat(a + b + c + d, e, names);
  }

  lemma ClauseStart(head: string, parts: seq<string>, sep: string)
    requires IsSeparator(head)
    ensures NoDigitAt(Clause(head, parts, sep), 0)
  {
  }

  lemma GroupingStart(q: Query)
    ensures NoDigitAt(q.Grouping(), 0)
  {
    ClauseStart("GROUP BY ", q.groups, ", ");
    ClauseStart("HAVING ", Texts(q.having), " AND ");
  }

  lemma LimitingCovered(q: Query, names: set<string>)
    ensures Covers(q.Limiting(), names) && NoDigitAt(q.Limiting(), 0)
  {
    CoversPlain(q.Limiting(), names);
  }

  lemma WhereCovered(q: Query, names: set<string>)
    requires q.CoveredBy(names)
    ensures Covers(Clause("WHERE ", Texts(q.conditions), " AND "), names)
    ensures NoDigitAt(Clause("WHERE ", Texts(q.conditions), " AND "), 0)
  {
    ClauseCovered("WHERE ", Texts(q.conditions), " AND ", names);
    ClauseStart("WHERE ", Texts(q.conditions), " AND ");
  }

  lemma OrderingCovered(q: Query, names: set<string>)
    requires q.CoveredBy(names)
    ensures Covers(Clause("ORDER BY ", q.order, ", "), names) && NoDigitAt(Clause("ORDER BY ", q.order, ", "), 0)
  {
    ClauseCovered("ORDER BY ", q.order, ", ", names);
    ClauseStart("ORDER BY ", q.order, ", ");
  }

  lemma TextCovered(q: Query, names: set<string>)
    requires q.CoveredBy(names)
    ensures Covers(q.Untrimmed(), names)
  {
    ProjectionCovered(q, names);
    WhereCovered(q, names);
    GroupingCovered(q, names);
    GroupingStart(q);
    OrderingCovered(q, names);
    LimitingCovered(q, names);
    CoversFive(q.Projection(), Clause("WHERE ", Texts(q.conditions), " AND "), q.Grouping(),
               Clause("ORDER BY ", q.order, ", "), q.Limiting(), names);
  }

  predicate Wants(intended: map<string, Param>, name: string, value: Param) {
    name in intended && intended[name] == value
  }

  /** Every bound value is the intended one. */
  ghost predicate Agrees(params: seq<(string, Param)>, intended: map<string, Param>) {
    forall i :: 0 <= i < |params| ==> Wants(intended, params[i].0, params[i].1)
  }

  /** The statement and parameters sent to the server are complete, and are the named form filled with the intended
      values; and the text sent reads as this statement. */
  ghost predicate SentAsMeant(q: Query, intended: map<string, Param>) {
    var sql := Scan(q.ToSql(), 0);
    var st := Rewrite(sql, map[], MapOf(q.casts));
    var sent := FillPositional(st, Parameters(sql, MapOf(q.params)));
    sent == FillNamed(sql, intended) && AllFilled(sent) && Read(Render("", st)) == Flatten(st)
  }

  lemma {:induction false} UnambiguousBefore(t: string, rest: Statement)
    requires '$' !in t && Unambiguous(rest)
    ensures Unambiguous(TextBefore(t, rest))
  {
    if t != "" { UnambiguousBefore(t[1..], rest); }
  }

  /** Text with known, complete placeholders stays readable when they are numbered. */
  lemma {:induction false} CoveredIsUnambiguous(s: string, i: nat, names: set<string>, index: map<string, nat>,
                                                casts: map<string, string>)
    requires i <= |s| && CoveredFrom(s, i, names) && forall n :: n in casts ==> '$' !in casts[n]
    ensures var st := Flatten(Rewrite(Scan(s, i), index, casts));
            Unambiguous(st) && (NoDigitAt(s, i) ==> !StartsWithDigit(st))
    decreases |s| - i
  {
    if i < |s| {
      var found := FindParamName(s, i);
      if found.Some? {
        var (next, name) := found.value;
        CoveredIsUnambiguous(s, next, names, Assign(index, name), casts);
        if name in casts {
          UnambiguousBefore("::" + casts[name], Flatten(Rewrite(Scan(s, next), Assign(index, name), casts)));
        }
      } else {
        CoveredIsUnambiguous(s, i + 1, names, index, casts);
      }
    }
  }

  lemma TextIsReadBack(q: Query)
    requires q.CoveredBy(q.Bound())
    ensures var st := Rewrite(Scan(q.ToSql(), 0), map[], MapOf(q.casts)); Read(Render("", st)) == Flatten(st)
  {
    TextCovered(q, q.Bound());
    TrimCovered(q.Untrimmed(), q.Bound());
    var casts := MapOf(q.casts);
    forall n | n in casts ensures '$' !in casts[n] {
      var i :| 0 <= i < |q.casts| && q.casts[i] == (n, casts[n]);
    }
    CoveredIsUnambiguous(q.ToSql(), 0, q.Bound(), map[], casts);
    SentTextIsReadBack(Scan(q.ToSql(), 0), map[], casts);
  }

  lemma {:induction false} FillNamedSame(sql: Sql, a: map<string, Param>, b: map<string, Param>)
    requires forall n :: Mentions(sql, n) ==> Lookup(a, n) == Lookup(b, n)
    ensures FillNamed(sql, a) == FillNamed(sql, b)
  {
    if !sql.End? {
      assert forall n :: Mentions(sql.rest, n) ==> Mentions(sql, n);
      FillNamedSame(sql.rest, a, b);
    }
  }

  lemma TextIsBound(q: Query)
    requires q.CoveredBy(q.Bound())
    ensures AllBound(Scan(q.ToSql(), 0), MapOf(q.params))
  {
    TextCovered(q, q.Bound());
    TrimCovered(q.Untrimmed(), q.Bound());
    forall n | Mentions(Scan(q.ToSql(), 0), n) ensures n in MapOf(q.params) {
      CoversMeaning(q.ToSql(), 0, q.Bound(), n);
    }
  }

  /** It is enough that the parts of a query only use names that have a value, and that the values are the intended
      ones. */
  lemma CoveredIsSentAsMeant(q: Query, intended: map<string, Param>)
    requires q.CoveredBy(q.Bound()) && Agrees(q.params, intended)
    ensures SentAsMeant(q, intended)
  {
    var sql, params := Scan(q.ToSql(), 0), MapOf(q.params);
    TextIsBound(q);
    TextIsReadBack(q);
    SentStatement(sql, params, MapOf(q.casts));
    forall n | Mentions(sql, n) ensures Lookup(params, n) == Lookup(intended, n) {
      var i :| 0 <= i < |q.params| && q.params[i] == (n, params[n]);
      assert Wants(intended, q.params[i].0, q.params[i].1);
    }
    FillNamedSame(sql, params, intended);
  }

  // ---------- parts and the names they use ----------

  /** One placeholder between two stretches of plain text. */
  lemma CoversAround(before: string, name: string, after: string, names: set<string>)
    requires PlainText(before) && PlainText(after) && NoDigitAt(after, 0) && ')' !in name && name in names
    ensures Covers(before + Place(name) + after, names)
  {
    CoversPlain(before, names);
    CoversPlace(name, names);
    CoversPlain(after, names);
    CoversConcat(before, Place(name), names);
    CoversConcat(before + Place(name), after, names);
  }

  lemma CoversEnding(before: string, name: string, names: set<string>)
    requires PlainText(before) && ')' !in name && name in names
    ensures Covers(before + Place(name), names)
  {
    CoversPlain(before, names);
    CoversPlace(name, names);
    CoversConcat(before, Place(name), names);
  }

  /** Plain text, a placeholder, plain text, a placeholder, plain text. */
  lemma CoversTwo(before: string, first: string, middle: string, second: string, after: string, names: set<string>)
    requires PlainText(before) && PlainText(middle) && PlainText(after) && ')' !in first && ')' !in second
    requires NoDigitAt(middle, 0) && NoDigitAt(after, 0)
    requires first in names && second in names
    ensures Covers(before + Place(first) + middle + (Place(second) + after), names)
  {
    CoversAround(before, first, middle, names);
    CoversPlace(second, names);
    CoversPlain(after, names);
    CoversConcat(Place(second), after, names);
    CoversConcat(before + Place(first) + middle, Place(second) + after, names);
  }

  lemma PlainColumn(column: Column, op: string)
    requires PlainText(op)
    ensures PlainText(column.Text() + " " + op + " ")
  {
    PlainConcat(column.Text(), " ");
    PlainConcat(column.Text() + " ", op);
    PlainConcat(column.Text() + " " + op, " ");
  }

  lemma CompareCovered(column: Column, op: string, name: string, names: set<string>)
    requires PlainText(op) && ')' !in name && name in names
    ensures Covers(Compare(column, op, name).Text(), names)
  {
    PlainColumn(column, op);
    CoversEnding(column.Text() + " " + op + " ", name, names);
  }

  /** The name of an SRID, if it has one, has a value. */
  predicate SridKnown(srid: Srid, names: set<string>) {
    srid.SridParam? ==> ')' !in srid.name && srid.name in names
  }

  lemma SridCovered(srid: Srid, names: set<string>)
    requires SridKnown(srid, names)
    ensures Covers(srid.Text(), names) && Covers(Position(srid), names)
  {
    if srid.Literal4326? {
      CoversPlain("4326", names);
      CoversPlain("geog", names);
    } else {
      CoversPlace(srid.name, names);
      CoversAround("ST_Transform(geog::geometry, ", srid.name, ")", names);
    }
  }

  /** A placeholder between two stretches of plain text, then an SRID. */
  lemma UpToSridCovered(before: string, name: string, middle: string, srid: Srid, names: set<string>)
    requires PlainText(before) && PlainText(middle) && IsSeparator(middle)
    requires ')' !in name && name in names && SridKnown(srid, names)
    ensures Covers((before + Place(name) + middle) + srid.Text(), names)
  {
    SridCovered(srid, names);
    CoversAround(before, name, middle, names);
    CoversConcat(before + Place(name) + middle, srid.Text(), names);
  }

  lemma BoxCovered(before: string, name: string, middle: string, srid: Srid, names: set<string>)
    requires PlainText(before) && PlainText(middle) && IsSeparator(middle)
    requires ')' !in name && name in names && SridKnown(srid, names)
    ensures Covers((before + Place(name) + middle) + srid.Text() + ") && geog", names)
  {
    UpToSridCovered(before, name, middle, srid, names);
    CoversPlain(") && geog", names);
    CoversConcat((before + Place(name) + middle) + srid.Text(), ") && geog", names);
  }

  lemma BoxesCovered(name: string, srid: Srid, names: set<string>)
    requires ')' !in name && name in names && SridKnown(srid, names)
    ensures Covers(Overlaps(name, srid).Text(), names) && Covers(CastOverlaps(name, srid).Text(), names)
  {
    BoxCovered("ST_GeomFromWKB(", name, ", ", srid, names);
    BoxCovered("ST_SetSRID(CAST(", name, " AS geometry), ", srid, names);
  }

  lemma GeometryTextCovered(name: string, srid: Srid, names: set<string>)
    requires ')' !in name && name in names && SridKnown(srid, names)
    ensures Covers(("ST_Intersects(ST_GeomFromWKB(" + Place(name) + ", ") + srid.Text() + "), ", names)
  {
    UpToSridCovered("ST_Intersects(ST_GeomFromWKB(", name, ", ", srid, names);
    BeforePosition(("ST_Intersects(ST_GeomFromWKB(" + Place(name) + ", ") + srid.Text(), names);
  }

  lemma BeforePosition(before: string, names: set<string>)
    requires Covers(before, names)
    ensures Covers(before + "), ", names)
  {
    CoversPlain("), ", names);
    CoversConcat(before, "), ", names);
  }

  lemma EndedCovered(before: string, position: string, names: set<string>)
    requires Covers(before, names) && Covers(position, names) && !Joins(before, position)
    ensures Covers(before + position + ")", names)
  {
    CoversPlain(")", names);
    CoversConcat(before, position, names);
    CoversConcat(before + position, ")", names);
  }

  lemma IntersectsCovered(name: string, srid: Srid, names: set<string>)
    requires ')' !in name && name in names && SridKnown(srid, names)
    ensures Covers(Intersects(name, srid).Text(), names)
  {
    GeometryTextCovered(name, srid, names);
    SridCovered(srid, names);
    EndedCovered(("ST_Intersects(ST_GeomFromWKB(" + Place(name) + ", ") + srid.Text() + "), ", Position(srid), names);
  }

  lemma ConditionCovered(q: Query, filter: Filter, names: set<string>)
    requires q.CoveredBy(names) && Covers(filter.Text(), names)
    ensures q.Condition(filter).CoveredBy(names)
  {
    var texts := Texts(q.conditions);
    assert Texts(q.conditions + [filter]) == texts + [filter.Text()];
  }

  lemma BindCovered(q: Query, name: string, value: Param, sqlType: string, names: set<string>)
    requires q.CoveredBy(names) && '$' !in sqlType
    ensures q.Bind(name, value).Cast(name, sqlType).CoveredBy(names)
  {
  }

  lemma GroupCovered(q: Query, text: string, names: set<string>)
    requires q.CoveredBy(names) && PlainText(text)
    ensures q.GroupBy(text).CoveredBy(names)
  {
    CoversPlain(text, names);
  }

  lemma HavingCovered(q: Query, filter: Filter, name: string, value: Param, names: set<string>)
    requires q.CoveredBy(names) && Covers(filter.Text(), names)
    ensures q.GroupHaving(filter, name, value).CoveredBy(names)
  {
    assert Texts(q.having + [filter]) == Texts(q.having) + [filter.Text()];
  }

  // ---------- the conditions and the values they are sent with ----------

  /** Whether a strike passes the `WHERE` part with the values sent. */
  ghost predicate PassesWhere(q: Query, spatial: Spatial, row: StrikeRow) {
    AllHold(q.conditions, MapOf(q.params), spatial, row, 0)
  }

  /** Whether a group of `count` strikes, `row` among them, passes the `HAVING` part. */
  ghost predicate PassesHaving(q: Query, spatial: Spatial, row: StrikeRow, count: int) {
    AllHold(q.having, MapOf(q.params), spatial, row, count)
  }

  /** A bound name is sent with its intended value. */
  lemma SentValue(q: Query, intended: map<string, Param>, name: string, value: Param)
    requires Agrees(q.params, intended) && name in q.Bound() && Wants(intended, name, value)
    ensures Wants(MapOf(q.params), name, value)
  {
    var params := MapOf(q.params);
    var i :| 0 <= i < |q.params| && q.params[i].0 == name;
    var j :| 0 <= j < |q.params| && q.params[j] == (name, params[name]);
    assert Wants(intended, q.params[j].0, q.params[j].1);
  }

  lemma OrderCovered(q: Query, text: string, names: set<string>)
    requires q.CoveredBy(names) && PlainText(text)
    ensures q.OrderBy(text, false).CoveredBy(names)
  {
    CoversPlain(text, names);
  }

  lemma ColumnsCovered(q: Query, texts: seq<string>, names: set<string>)
    requires q.CoveredBy(names) && AllCovered(texts, names)
    ensures q.SetColumns(texts).CoveredBy(names)
  {
  }

  lemma NewCovered(names: set<string>)
    ensures NewQuery("strikes").CoveredBy(names)
  {
    CoversPlain("strikes", names);
  }
}
