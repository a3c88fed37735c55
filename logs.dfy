/** GET /api/logs: the clamping of the page and limit query parameters, the
    field allow-list, the choice of the WHERE clause and its pattern, and the
    numbering of the LIMIT and OFFSET placeholders. The meaning of a search is
    stated against a model of SQL `LIKE`. */
module LogQuery {
  import opened Base
  import opened Text

  // ---------------------------------------------------------------------
  // Page and limit

  /** `Math.max(1, parseInt(x, 10) || fallback)`, where `parsed` is the result
      of `parseInt` (None for NaN): NaN and 0 fall back, negative values become 1. */
  function ClampParam(parsed: Option<int>, fallback: int): (r: int)
    requires fallback >= 1
    ensures r >= 1
    ensures parsed.Some? && parsed.value >= 1 ==> r == parsed.value
    ensures (parsed.None? || parsed.value == 0) ==> r == fallback
    ensures parsed.Some? && parsed.value < 0 ==> r == 1
  {
    var v := if parsed.Some? && parsed.value != 0 then parsed.value else fallback;
    if v < 1 then 1 else v
  }

  /** The rows a request asks for: page `page` of `limit` rows starts at row `offset`. */
  datatype Window = Window(page: int, limit: int, offset: int)

  function PageWindow(page: Option<int>, limit: Option<int>): (w: Window)
    ensures w.page >= 1 && w.limit >= 1 && w.offset >= 0
    ensures w.offset % w.limit == 0 && w.offset / w.limit == w.page - 1
    ensures page.Some? && page.value >= 1 ==> w.page == page.value
    ensures limit.Some? && limit.value >= 1 ==> w.limit == limit.value
  {
    var p := ClampParam(page, 1);
    var l := ClampParam(limit, 10);
    MultipleDivides(p - 1, l);
    Window(p, l, (p - 1) * l)
  }

  lemma MultipleDivides(k: nat, l: int)
    requires l >= 1
    ensures k * l >= 0 && (k * l) % l == 0 && (k * l) / l == k
  {
    DivUnique(k * l, l, k, 0);
  }

  /** Euclidean division has one quotient and remainder. */
  lemma DivUnique(x: int, l: int, q: int, r: int)
    requires l >= 1 && 0 <= r < l && x == q * l + r
    ensures x / l == q && x % l == r
  {
    var q', r' := x / l, x % l;
    assert x == q' * l + r';
    var d := q - q';
    assert d * l == r' - r by { assert q * l - q' * l == (q - q') * l; }
    if d >= 1 {
      MulAtLeast(d, l);
    }
  }

  lemma {:induction false} MulAtLeast(d: nat, l: int)
    requires d >= 1 && l >= 1
    ensures d * l >= l
    decreases d
  {
    if d > 1 {
      MulAtLeast(d - 1, l);
      assert d * l == (d - 1) * l + l;
    }
  }

  /** Consecutive pages are adjacent: page p + 1 starts where page p ends. */
  lemma {:induction false} PagesAreAdjacent(p: int, l: int)
    requires p >= 1 && l >= 1
    ensures PageWindow(Some(p + 1), Some(l)).offset == PageWindow(Some(p), Some(l)).offset + l
    ensures PageWindow(Some(p), Some(l)).offset == (p - 1) * l
  {
    var w := PageWindow(Some(p), Some(l));
    var w' := PageWindow(Some(p + 1), Some(l));
    assert w.page == p && w.limit == l && w'.page == p + 1 && w'.limit == l;
    assert w.offset == (p - 1) * l by { DivExact(w.offset, l, p - 1); }
    assert w'.offset == p * l by { DivExact(w'.offset, l, p); }
  }

  lemma DivExact(x: int, l: int, q: int)
    requires l >= 1 && x % l == 0 && x / l == q
    ensures x == q * l
  {
  }

  // ---------------------------------------------------------------------
  // The WHERE clause

  /** The columns a search may filter on. */
  const AllowedFields: set<string> := {"source_ip", "destination_ip", "log_source", "event_id", "raw_log"}

  /** The column expression a filter compares: `event_id` is cast to text. */
  function ColumnExpr(field: string): string {
    if field == "event_id" then "event_id::text" else field
  }

  /** `WHERE col = $1`, `WHERE col ILIKE $1`, or no WHERE clause at all. */
  datatype Where = All | ColumnEquals(column: string) | ColumnILike(column: string)

  /** The WHERE clause with the parameters it binds to `$1`. */
  datatype Filter = Filter(where: Where, params: seq<string>)

  /** `req.query.op || 'contains'`. */
  function OpOrDefault(op: Option<string>): string {
    if Truthy(op) then op.value else "contains"
  }

  /** The ILIKE pattern of every operator other than `equals`. */
  function Pattern(op: string, value: string): string {
    if op == "startswith" then value + "%"
    else if op == "endswith" then "%" + value
    else "%" + value + "%"
  }

  /** The filter of the handler: only an allowed field with a non-empty value
      filters; `equals` compares exactly, every other operator matches a pattern. */
  function BuildFilter(field: Option<string>, op: Option<string>, value: Option<string>): (f: Filter)
    ensures f.where.All? <==> !(field.Some? && field.value in AllowedFields && Truthy(value))
    ensures f.where.All? ==> f.params == []
    ensures !f.where.All? ==> |f.params| == 1 && f.where.column == ColumnExpr(field.value)
    ensures f.where.ColumnEquals? <==> (!f.where.All? && OpOrDefault(op) == "equals")
    ensures f.where.ColumnEquals? ==> f.params == [value.value]
  {
    if field.Some? && field.value in AllowedFields && Truthy(value) then
      var column := ColumnExpr(field.value);
      var o := OpOrDefault(op);
      if o == "equals" then Filter(ColumnEquals(column), [value.value])
      else Filter(ColumnILike(column), [Pattern(o, value.value)])
    else
      Filter(All, [])
  }

  // ---------------------------------------------------------------------
  // Placeholders

  datatype Param = Text(text: string) | Number(n: int)

  /** The list query: the filter, the placeholder numbers of LIMIT and OFFSET,
      and the parameter array passed with it. */
  datatype ListQuery = ListQuery(filter: Filter, limitIndex: nat, offsetIndex: nat, params: seq<Param>)

  function BuildListQuery(f: Filter, w: Window): (q: ListQuery)
    ensures |q.params| == |f.params| + 2
    ensures forall i :: 0 <= i < |f.params| ==> q.params[i] == Text(f.params[i])
    ensures |f.params| < q.limitIndex <= |q.params| && q.params[q.limitIndex - 1] == Number(w.limit)
    ensures |f.params| < q.offsetIndex <= |q.params| && q.params[q.offsetIndex - 1] == Number(w.offset)
    ensures q.limitIndex != q.offsetIndex
  {
    var base := |f.params|;
    ListQuery(f, base + 1, base + 2, seq(base, i requires 0 <= i < base => Text(f.params[i])) + [Number(w.limit), Number(w.offset)])
  }

  /** The whole query the handler sends for one request. */
  function SearchLogs(field: Option<string>, op: Option<string>, value: Option<string>,
                      page: Option<int>, limit: Option<int>): ListQuery
  {
    BuildListQuery(BuildFilter(field, op, value), PageWindow(page, limit))
  }

  /** Every placeholder of the list query is bound to the value it stands
      for: `$1` to the filter value or pattern when there is a filter, the
      last two to the clamped limit and offset. */
  lemma {:induction false} PlaceholdersResolve(field: Option<string>, op: Option<string>, value: Option<string>,
                                               page: Option<int>, limit: Option<int>)
    ensures var q := SearchLogs(field, op, value, page, limit);
            var w := PageWindow(page, limit);
            && (q.filter.where.All? ==> q.limitIndex == 1 && q.offsetIndex == 2
                                        && q.params == [Number(w.limit), Number(w.offset)])
            && (!q.filter.where.All? ==> q.limitIndex == 2 && q.offsetIndex == 3
                                         && q.params[0] == Text(q.filter.params[0])
                                         && q.params[1] == Number(w.limit) && q.params[2] == Number(w.offset))
  {
    var f := BuildFilter(field, op, value);
    var w := PageWindow(page, limit);
    var q := BuildListQuery(f, w);
    if f.where.All? {
      assert q.params == [q.params[0], q.params[1]];
    }
  }

  // ---------------------------------------------------------------------
  // What a search selects

  /** SQL `LIKE`: `%` matches any run of characters, `_` any one character. */
  function Like(p: string, t: string): bool
    decreases |p| + |t|
  {
    if p == [] then t == []
    else if p[0] == '%' then Like(p[1..], t) || (t != [] && Like(p, t[1..]))
    else t != [] && (p[0] == '_' || p[0] == t[0]) && Like(p[1..], t[1..])
  }

  /** A value with none of the characters `LIKE` gives a meaning: `%`, `_` and the escape `\`. */
  predicate NoWildcards(v: string) {
    forall i :: 0 <= i < |v| ==> v[i] != '%' && v[i] != '_' && v[i] != '\\'
  }

  /** `p` matches `t` from position `k` on. */
  predicate MatchesFrom(p: string, t: string, k: int) {
    0 <= k <= |t| && Like(p, t[k..])
  }

  lemma {:induction false} LikeLiteral(v: string, t: string)
    requires NoWildcards(v)
    ensures Like(v, t) <==> t == v
    decreases |v|
  {
    if v != [] && t != [] {
      assert NoWildcards(v[1..]) by {
        forall i | 0 <= i < |v[1..]| ensures v[1..][i] != '%' && v[1..][i] != '_' && v[1..][i] != '\\' {
          assert v[1..][i] == v[i + 1];
        }
      }
      LikeLiteral(v[1..], t[1..]);
      assert v[0] != '%' && v[0] != '_';
      if t == v {
        assert t[1..] == v[1..];
      }
      if t[1..] == v[1..] && t[0] == v[0] {
        assert t == [t[0]] + t[1..];
        assert v == [v[0]] + v[1..];
      }
    } else if v != [] {
      assert v[0] != '%';
    }
  }

  lemma {:induction false} LikeAnything(t: string)
    ensures Like("%", t)
    decreases |t|
  {
    assert "%"[1..] == [];
    if t != [] {
      LikeAnything(t[1..]);
    }
  }

  lemma {:induction false} LikePrefix(v: string, t: string)
    requires NoWildcards(v)
    ensures Like(v + "%", t) <==> v <= t
    decreases |v|
  {
    if v == [] {
      assert v + "%" == "%";
      LikeAnything(t);
    } else {
      var p := v + "%";
      assert p[0] == v[0] && p[1..] == v[1..] + "%";
      assert v[0] != '%' && v[0] != '_';
      assert NoWildcards(v[1..]) by {
        forall i | 0 <= i < |v[1..]| ensures v[1..][i] != '%' && v[1..][i] != '_' && v[1..][i] != '\\' {
          assert v[1..][i] == v[i + 1];
        }
      }
      if t != [] {
        LikePrefix(v[1..], t[1..]);
        if v <= t {
          assert v[1..] <= t[1..];
        }
        if v[1..] <= t[1..] && t[0] == v[0] {
          assert v == [v[0]] + v[1..];
          assert t == [t[0]] + t[1..];
          assert forall i :: 0 < i < |v| ==> v[i] == v[1..][i - 1] && t[i] == t[1..][i - 1];
        }
      }
    }
  }

  /** A leading `%` lets the rest of the pattern match any suffix. */
  lemma {:induction false} LikeLeadingPercent(q: string, t: string)
    ensures Like("%" + q, t) <==> exists k :: MatchesFrom(q, t, k)
    decreases |t|
  {
    var p := "%" + q;
    assert p[0] == '%' && p[1..] == q;
    assert t[0..] == t;
    if Like(q, t) {
      assert MatchesFrom(q, t, 0);
    }
    if t == [] {
      if exists k :: MatchesFrom(q, t, k) {
        var k :| MatchesFrom(q, t, k);
        assert k == 0;
      }
    } else {
      LikeLeadingPercent(q, t[1..]);
      if Like(p, t[1..]) {
        var k :| MatchesFrom(q, t[1..], k);
        assert t[1..][k..] == t[k + 1..];
        assert MatchesFrom(q, t, k + 1);
      }
      if exists k :: MatchesFrom(q, t, k) {
        var k :| MatchesFrom(q, t, k);
        if k > 0 {
          assert t[1..][k - 1..] == t[k..];
          assert MatchesFrom(q, t[1..], k - 1);
        }
      }
    }
  }

  lemma {:induction false} LikeSuffix(v: string, t: string)
    requires NoWildcards(v)
    ensures Like("%" + v, t) <==> (|v| <= |t| && t[|t| - |v|..] == v)
  {
    LikeLeadingPercent(v, t);
    if exists k :: MatchesFrom(v, t, k) {
      var k :| MatchesFrom(v, t, k);
      LikeLiteral(v, t[k..]);
    }
    if |v| <= |t| && t[|t| - |v|..] == v {
      LikeLiteral(v, t[|t| - |v|..]);
      assert MatchesFrom(v, t, |t| - |v|);
    }
  }

  lemma {:induction false} LikeContains(v: string, t: string)
    requires NoWildcards(v)
    ensures Like("%" + v + "%", t) <==> OccursIn(v, t)
  {
    assert "%" + v + "%" == "%" + (v + "%");
    LikeLeadingPercent(v + "%", t);
    if exists k :: MatchesFrom(v + "%", t, k) {
      var k :| MatchesFrom(v + "%", t, k);
      LikePrefix(v, t[k..]);
      assert OccursAt(v, t, k);
    }
    if OccursIn(v, t) {
      var k :| OccursAt(v, t, k);
      LikePrefix(v, t[k..]);
      assert t[k..][..|v|] == t[k..k + |v|];
      assert MatchesFrom(v + "%", t, k);
    }
  }

  /** One row of `log_management`, restricted to the searchable columns. */
  datatype LogRow = LogRow(sourceIp: string, destinationIp: string, logSource: string, eventId: int, rawLog: string)

  /** The text a column expression yields on a row. */
  function ColumnText(row: LogRow, column: string): string {
    match column
    case "source_ip" => row.sourceIp
    case "destination_ip" => row.destinationIp
    case "log_source" => row.logSource
    case "event_id::text" => Decimal(row.eventId)
    case _ => row.rawLog
  }

  /** The rows the WHERE clause lets through, with `ILIKE` comparing lower-cased text. */
  predicate Selects(f: Filter, row: LogRow) {
    match f.where
    case All => true
    case ColumnEquals(c) => |f.params| == 1 && ColumnText(row, c) == f.params[0]
    case ColumnILike(c) => |f.params| == 1 && Like(Lower(f.params[0]), Lower(ColumnText(row, c)))
  }

  /** What a search on `field` with operator `op` and value `v` is meant to
      select, stated without patterns. */
  ghost predicate Intended(field: string, op: string, v: string, row: LogRow) {
    var t := ColumnText(row, ColumnExpr(field));
    if op == "equals" then t == v
    else if op == "startswith" then Lower(v) <= Lower(t)
    else if op == "endswith" then |v| <= |t| && Lower(t)[|t| - |v|..] == Lower(v)
    else OccursIn(Lower(v), Lower(t))
  }

  lemma LowerNoWildcards(v: string)
    requires NoWildcards(v)
    ensures NoWildcards(Lower(v))
  {
  }

  /** A search selects exactly the rows it is meant to (for a value without
      LIKE metacharacters), and a search on a field outside the allow-list
      or with an empty value selects every row. */
  lemma {:induction false} SearchMeaning(field: Option<string>, op: Option<string>, value: Option<string>, row: LogRow)
    requires value.Some? ==> NoWildcards(value.value)
    ensures var f := BuildFilter(field, op, value);
            if field.Some? && field.value in AllowedFields && Truthy(value)
            then Selects(f, row) <==> Intended(field.value, OpOrDefault(op), value.value, row)
            else Selects(f, row)
  {
    var f := BuildFilter(field, op, value);
    if !f.where.All? {
      var o := OpOrDefault(op);
      var v := value.value;
      var t := ColumnText(row, ColumnExpr(field.value));
      if o != "equals" {
        var lv := Lower(v);
        var lt := Lower(t);
        LowerNoWildcards(v);
        LowerConcat(v, "%");
        LowerConcat("%", v);
        LowerConcat("%" + v, "%");
        assert Lower("%") == "%";
        if o == "startswith" {
          assert Lower(Pattern(o, v)) == lv + "%";
          LikePrefix(lv, lt);
        } else if o == "endswith" {
          assert Lower(Pattern(o, v)) == "%" + lv;
          LikeSuffix(lv, lt);
          if |v| <= |t| {
            assert lt[|t| - |v|..] == Lower(t[|t| - |v|..]);
          }
        } else {
          assert Lower(Pattern(o, v)) == "%" + lv + "%";
          LikeContains(lv, lt);
        }
      }
    }
  }
}
