/**
 * GET /events: the search query builder. It starts from a fixed base query
 * and, for each filter the request gives, appends one `AND ... ?` clause to
 * the query and one value to the parameter list, in the fixed order
 * category, name, startDate, endDate.
 */
module EventSearch {
  import opened Wrappers

  /** The query every search starts from; it matches every event. */
  function BaseQuery(): string
  {
    "SELECT * FROM events WHERE 1=1"
  }

  /** The query-string filters of the request; None when a parameter is absent. */
  datatype Filters = Filters(category: Option<string>, name: Option<string>, startDate: Option<string>, endDate: Option<string>)

  /** JavaScript truthiness of a query-string value: absent and empty are both false. */
  predicate Given(v: Option<string>)
  {
    v.Some? && v.value != ""
  }

  /** The condition one given filter adds, with the filter's value. */
  datatype Condition =
    | CategoryIs(category: string)
    | NameLike(name: string)
    | DateFrom(startDate: string)
    | DateUntil(endDate: string)

  /** The place of a filter in the builder's fixed order. */
  function Rank(c: Condition): nat
  {
    match c
    case CategoryIs(_) => 0
    case NameLike(_) => 1
    case DateFrom(_) => 2
    case DateUntil(_) => 3
  }

  /** The filter of a given rank. */
  function FilterAt(f: Filters, rank: nat): Option<string>
  {
    if rank == 0 then f.category
    else if rank == 1 then f.name
    else if rank == 2 then f.startDate
    else f.endDate
  }

  /** The condition of a given rank on a filter value. */
  function ConditionAt(rank: nat, v: string): (c: Condition)
    ensures Rank(c) == if rank < 4 then rank else 3
  {
    if rank == 0 then CategoryIs(v)
    else if rank == 1 then NameLike(v)
    else if rank == 2 then DateFrom(v)
    else DateUntil(v)
  }

  /** The raw filter value a condition carries. */
  function Value(c: Condition): string
  {
    match c
    case CategoryIs(v) => v
    case NameLike(v) => v
    case DateFrom(v) => v
    case DateUntil(v) => v
  }

  /** The clause appended for the filter of a given rank. */
  function ClauseAt(rank: nat): string
  {
    if rank == 0 then " AND category = ?"
    else if rank == 1 then " AND name LIKE ?"
    else if rank == 2 then " AND date >= ?"
    else " AND date <= ?"
  }

  function Clause(c: Condition): string
  {
    ClauseAt(Rank(c))
  }

  /** The value bound to a condition's placeholder; a name matches as a substring. */
  function Param(c: Condition): string
  {
    match c
    case CategoryIs(v) => v
    case NameLike(v) => "%" + v + "%"
    case DateFrom(v) => v
    case DateUntil(v) => v
  }

  /** The condition the filter of a given rank adds: one if it is given, else none. */
  function ConditionOf(f: Filters, rank: nat): seq<Condition>
  {
    if Given(FilterAt(f, rank)) then [ConditionAt(rank, FilterAt(f, rank).value)] else []
  }

  /** The conditions of the given filters among the first `k` of the builder's order. */
  function ConditionsBefore(f: Filters, k: nat): seq<Condition>
  {
    if k == 0 then [] else ConditionsBefore(f, k - 1) + ConditionOf(f, k - 1)
  }

  /** The conditions of all given filters, in the builder's order. */
  function Conditions(f: Filters): seq<Condition>
  {
    ConditionsBefore(f, 4)
  }

  /** The clauses of a list of conditions, one after another. */
  function Clauses(cs: seq<Condition>): string
  {
    if cs == [] then "" else Clause(cs[0]) + Clauses(cs[1..])
  }

  /** The values of a list of conditions, one per condition. */
  function Params(cs: seq<Condition>): (ps: seq<string>)
    ensures |ps| == |cs|
  {
    if cs == [] then [] else [Param(cs[0])] + Params(cs[1..])
  }

  /** The number of `?` placeholders in a query. */
  function Placeholders(s: string): nat
  {
    if s == [] then 0 else (if s[0] == '?' then 1 else 0) + Placeholders(s[1..])
  }

  /**
   * The builder as the handler runs it: `query +=` and `params.push` for each
   * given filter in turn. The query is the base query followed by the clause
   * of each given filter, the parameters are their values in the same order,
   * and the query has one placeholder per parameter.
   */
  method BuildSearch(f: Filters) returns (query: string, params: seq<string>)
    ensures query == BaseQuery() + Clauses(Conditions(f))
    ensures params == Params(Conditions(f))
    ensures BaseQuery() <= query
    ensures Placeholders(query) == |params|
  {
    query := BaseQuery();
    params := [];
    assert query == QueryAfter(BaseQuery(), f, 0) && params == ParamsAfter(f, 0);
    if f.category.Some? && f.category.value != "" {
      query := query + " AND category = ?";
      params := params + [f.category.value];
    }
    assert query == QueryAfter(BaseQuery(), f, 1) && params == ParamsAfter(f, 1);
    if f.name.Some? && f.name.value != "" {
      query := query + " AND name LIKE ?";
      params := params + ["%" + f.name.value + "%"];
    }
    assert query == QueryAfter(BaseQuery(), f, 2) && params == ParamsAfter(f, 2);
    if f.startDate.Some? && f.startDate.value != "" {
      query := query + " AND date >= ?";
      params := params + [f.startDate.value];
    }
    assert query == QueryAfter(BaseQuery(), f, 3) && params == ParamsAfter(f, 3);
    if f.endDate.Some? && f.endDate.value != "" {
      query := query + " AND date <= ?";
      params := params + [f.endDate.value];
    }
    assert query == QueryAfter(BaseQuery(), f, 4) && params == ParamsAfter(f, 4);
    QueryAfterSteps(BaseQuery(), f, 4);
    ParamsAfterSteps(f, 4);
    PlaceholdersMatchParams(Conditions(f));
    StartsWith(BaseQuery(), Clauses(Conditions(f)));
  }

  /** A query after the builder's first `k` filter steps, starting from `base`. */
  function QueryAfter(base: string, f: Filters, k: nat): string
  {
    if k == 0 then base
    else if Given(FilterAt(f, k - 1)) then QueryAfter(base, f, k - 1) + ClauseAt(k - 1)
    else QueryAfter(base, f, k - 1)
  }

  /** The parameters after the builder's first `k` filter steps. */
  function ParamsAfter(f: Filters, k: nat): seq<string>
  {
    if k == 0 then []
    else if Given(FilterAt(f, k - 1)) then ParamsAfter(f, k - 1) + [Param(ConditionAt(k - 1, FilterAt(f, k - 1).value))]
    else ParamsAfter(f, k - 1)
  }

  /**
   * After any number of steps, the query is the base followed by the clauses
   * of the conditions added so far.
   */
  lemma {:induction false} QueryAfterSteps(base: string, f: Filters, k: nat)
    requires k <= 4
    ensures QueryAfter(base, f, k) == base + Clauses(ConditionsBefore(f, k))
  {
    if k == 0 {
      assert base + "" == base;
    } else {
      QueryAfterSteps(base, f, k - 1);
      var done := ConditionsBefore(f, k - 1);
      if Given(FilterAt(f, k - 1)) {
        var c := ConditionAt(k - 1, FilterAt(f, k - 1).value);
        assert ConditionsBefore(f, k) == done + [c];
        AppendClause(done, c);
        assert QueryAfter(base, f, k) == (base + Clauses(done)) + Clause(c);
        Associative(base, Clauses(done), Clause(c));
      } else {
        assert ConditionsBefore(f, k) == done;
      }
    }
  }

  /** After any number of steps, the parameters are the values of the conditions added so far. */
  lemma {:induction false} ParamsAfterSteps(f: Filters, k: nat)
    ensures ParamsAfter(f, k) == Params(ConditionsBefore(f, k))
  {
    if k > 0 {
      ParamsAfterSteps(f, k - 1);
      var done := ConditionsBefore(f, k - 1);
      if Given(FilterAt(f, k - 1)) {
        var c := ConditionAt(k - 1, FilterAt(f, k - 1).value);
        assert ConditionsBefore(f, k) == done + [c];
        AppendParam(done, c);
      } else {
        assert ConditionsBefore(f, k) == done;
      }
    }
  }

  lemma Associative(a: string, b: string, c: string)
    ensures (a + b) + c == a + (b + c)
  {
  }

  lemma DropPrefix(prefix: string, rest: string)
    ensures (prefix + rest)[|prefix|..] == rest
  {
  }

  lemma StartsWith(prefix: string, rest: string)
    ensures prefix <= prefix + rest
  {
  }

  /** Appending a condition appends its clause to the clauses. */
  lemma {:induction false} AppendClause(cs: seq<Condition>, c: Condition)
    ensures Clauses(cs + [c]) == Clauses(cs) + Clause(c)
  {
    if cs == [] {
      assert cs + [c] == [c];
      assert Clauses([c]) == Clause(c) + Clauses([]);
    } else {
      var rest := cs[1..];
      assert (cs + [c])[0] == cs[0];
      assert (cs + [c])[1..] == rest + [c];
      AppendClause(rest, c);
      Associative(Clause(cs[0]), Clauses(rest), Clause(c));
    }
  }

  /** Appending a condition appends its value to the parameters. */
  lemma {:induction false} AppendParam(cs: seq<Condition>, c: Condition)
    ensures Params(cs + [c]) == Params(cs) + [Param(c)]
  {
    if cs == [] {
      assert cs + [c] == [c];
    } else {
      var rest := cs[1..];
      assert (cs + [c])[0] == cs[0];
      assert (cs + [c])[1..] == rest + [c];
      AppendParam(rest, c);
      calc {
        Params(cs + [c]);
        [Param(cs[0])] + Params(rest + [c]);
        [Param(cs[0])] + (Params(rest) + [Param(c)]);
        ([Param(cs[0])] + Params(rest)) + [Param(c)];
      }
    }
  }

  /**
   * The conditions are exactly those of the given filters, carry their
   * values, and come in the builder's order, each filter at most once.
   */
  lemma {:induction false} ConditionsFollowFiltersBefore(f: Filters, k: nat)
    requires k <= 4
    ensures forall c :: c in ConditionsBefore(f, k) ==>
      Rank(c) < k && FilterAt(f, Rank(c)) == Some(Value(c)) && Value(c) != ""
    ensures forall r: nat :: r < k && Given(FilterAt(f, r)) ==>
      exists c :: c in ConditionsBefore(f, k) && Rank(c) == r
    ensures forall i, j :: 0 <= i < j < |ConditionsBefore(f, k)| ==>
      Rank(ConditionsBefore(f, k)[i]) < Rank(ConditionsBefore(f, k)[j])
  {
    if k > 0 {
      ConditionsFollowFiltersBefore(f, k - 1);
      var before := ConditionsBefore(f, k - 1);
      var cs := ConditionsBefore(f, k);
      if Given(FilterAt(f, k - 1)) {
        var c := ConditionAt(k - 1, FilterAt(f, k - 1).value);
        assert cs == before + [c] by { assert ConditionOf(f, k - 1) == [c]; }
        assert c in cs;
        forall i, j | 0 <= i < j < |cs|
          ensures Rank(cs[i]) < Rank(cs[j])
        {
          if j == |before| {
            assert cs[i] in before;
          }
        }
      } else {
        assert cs == before;
      }
    }
  }

  /**
   * The conditions are exactly those of the given filters, carry their
   * values, and come in the builder's order, each filter at most once.
   */
  lemma ConditionsFollowFilters(f: Filters)
    ensures forall c :: c in Conditions(f) ==> FilterAt(f, Rank(c)) == Some(Value(c)) && Value(c) != ""
    ensures forall r: nat :: r < 4 && Given(FilterAt(f, r)) ==> exists c :: c in Conditions(f) && Rank(c) == r
    ensures forall i, j :: 0 <= i < j < |Conditions(f)| ==> Rank(Conditions(f)[i]) < Rank(Conditions(f)[j])
  {
    ConditionsFollowFiltersBefore(f, 4);
  }

  /** Every condition contributes its own value to the parameters. */
  lemma {:induction false} ParamOfEachCondition(cs: seq<Condition>, c: Condition)
    requires c in cs
    ensures Param(c) in Params(cs)
  {
    if cs[0] != c {
      ParamOfEachCondition(cs[1..], c);
    }
  }

  /** A given name is bound wrapped in `%`, so that LIKE matches it anywhere in the event name. */
  lemma NameMatchesAsSubstring(f: Filters)
    requires Given(f.name)
    ensures "%" + f.name.value + "%" in Params(Conditions(f))
  {
    ConditionsFollowFilters(f);
    assert FilterAt(f, 1) == f.name;
    var c :| c in Conditions(f) && Rank(c) == 1;
    ParamOfEachCondition(Conditions(f), c);
  }

  /** A text without `?` has no placeholder. */
  lemma {:induction false} PlaceholderFree(text: string)
    requires '?' !in text
    ensures Placeholders(text) == 0
  {
    if text != [] {
      assert text[0] != '?';
      assert forall ch :: ch in text[1..] ==> ch in text;
      PlaceholderFree(text[1..]);
    }
  }

  /** Appending one `?` to a text adds one placeholder. */
  lemma PlaceholderAppended(text: string)
    ensures Placeholders(text + "?") == Placeholders(text) + 1
  {
    PlaceholdersConcat(text, "?");
    assert Placeholders("?") == 1 by {
      assert "?"[1..] == [];
    }
  }

  /** Every clause carries exactly one placeholder. */
  lemma ClausePlaceholder(c: Condition)
    ensures Placeholders(Clause(c)) == 1
  {
    var rank := Rank(c);
    var comparison :=
      if rank == 0 then " AND category = "
      else if rank == 1 then " AND name LIKE "
      else if rank == 2 then " AND date >= "
      else " AND date <= ";
    assert Clause(c) == comparison + "?";
    assert '?' !in comparison;
    PlaceholderFree(comparison);
    PlaceholderAppended(comparison);
  }

  /** The placeholders of a concatenation are those of its parts. */
  lemma {:induction false} PlaceholdersConcat(a: string, b: string)
    ensures Placeholders(a + b) == Placeholders(a) + Placeholders(b)
  {
    if a == [] {
      assert a + b == b;
    } else {
      assert (a + b)[0] == a[0];
      assert (a + b)[1..] == a[1..] + b;
      PlaceholdersConcat(a[1..], b);
    }
  }

  /** The clauses of n conditions carry n placeholders. */
  lemma {:induction false} ClausesPlaceholders(cs: seq<Condition>)
    ensures Placeholders(Clauses(cs)) == |cs|
  {
    if cs != [] {
      ClausesPlaceholders(cs[1..]);
      ClausePlaceholder(cs[0]);
      PlaceholdersConcat(Clause(cs[0]), Clauses(cs[1..]));
    }
  }

  lemma BaseQueryHasNoPlaceholder()
    ensures Placeholders(BaseQuery()) == 0
  {
    assert '?' !in BaseQuery();
    PlaceholderFree(BaseQuery());
  }

  /** The base query has no placeholder and every clause exactly one. */
  lemma PlaceholdersMatchParams(cs: seq<Condition>)
    ensures Placeholders(BaseQuery() + Clauses(cs)) == |Params(cs)|
  {
    BaseQueryHasNoPlaceholder();
    ClausesPlaceholders(cs);
    PlaceholdersConcat(BaseQuery(), Clauses(cs));
  }

  /** The rank of the clause a text starts with, trying the ranks in order. */
  function ClauseRankAt(s: string): (r: Option<nat>)
    ensures r.Some? ==> r.value < 4 && ClauseAt(r.value) <= s
  {
    if ClauseAt(0) <= s then Some(0)
    else if ClauseAt(1) <= s then Some(1)
    else if ClauseAt(2) <= s then Some(2)
    else if ClauseAt(3) <= s then Some(3)
    else None
  }

  /** The condition a clause of a rank and its bound value stand for. */
  function ConditionFrom(rank: nat, p: string): Option<Condition>
  {
    if rank != 1 then Some(ConditionAt(rank, p))
    else if |p| >= 2 && p[0] == '%' && p[|p| - 1] == '%' then Some(NameLike(p[1..|p| - 1]))
    else None
  }

  /** Reads the conditions back from the clauses after the base query and the parameters. */
  function ParseClauses(s: string, ps: seq<string>): Option<seq<Condition>>
    decreases |s|
  {
    if s == [] then (if ps == [] then Some([]) else None)
    else if ps == [] then None
    else
      match ClauseRankAt(s)
      case None => None
      case Some(rank) =>
        match ConditionFrom(rank, ps[0])
        case None => None
        case Some(c) =>
          match ParseClauses(s[|ClauseAt(rank)|..], ps[1..])
          case None => None
          case Some(rest) => Some([c] + rest)
  }

  /** Reads the conditions back from a query and its parameters. */
  function ParseSearch(query: string, params: seq<string>): Option<seq<Condition>>
  {
    if BaseQuery() <= query then ParseClauses(query[|BaseQuery()|..], params) else None
  }

  /** A clause followed by anything is recognised as that clause. */
  lemma ClauseRecognised(c: Condition, rest: string)
    ensures ClauseRankAt(Clause(c) + rest) == Some(Rank(c))
  {
    var s := Clause(c) + rest;
    assert s[..|Clause(c)|] == Clause(c);
    match c
    case CategoryIs(_) =>
    case NameLike(_) =>
      assert s[5] == 'n' && ClauseAt(0)[5] == 'c';
    case DateFrom(_) =>
      assert s[5] == 'd' && ClauseAt(0)[5] == 'c' && ClauseAt(1)[5] == 'n';
    case DateUntil(_) =>
      assert s[5] == 'd' && ClauseAt(0)[5] == 'c' && ClauseAt(1)[5] == 'n';
      assert s[10] == '<' && ClauseAt(2)[10] == '>';
  }

  /** The value bound to a clause gives back the condition. */
  lemma ParamRecognised(c: Condition)
    ensures ConditionFrom(Rank(c), Param(c)) == Some(c)
  {
    if c.NameLike? {
      var p := Param(c);
      assert p[1..|p| - 1] == c.name;
    }
  }

  /** The clauses and values of any conditions read back as those conditions. */
  lemma {:induction false} ParseClausesBuilt(cs: seq<Condition>)
    ensures ParseClauses(Clauses(cs), Params(cs)) == Some(cs)
  {
    if cs != [] {
      var c := cs[0];
      var rest := Clauses(cs[1..]);
      var s := Clauses(cs);
      assert s == Clause(c) + rest;
      ClauseRecognised(c, rest);
      ParamRecognised(c);
      ParseClausesBuilt(cs[1..]);
      DropPrefix(Clause(c), rest);
      assert Params(cs)[1..] == Params(cs[1..]);
      assert [c] + cs[1..] == cs;
    }
  }

  /**
   * The query and parameters of a search read back as its conditions: each
   * placeholder is bound to the value of its own filter.
   */
  lemma SearchRoundTrip(f: Filters)
    ensures ParseSearch(BaseQuery() + Clauses(Conditions(f)), Params(Conditions(f))) == Some(Conditions(f))
  {
    var cs := Conditions(f);
    StartsWith(BaseQuery(), Clauses(cs));
    DropPrefix(BaseQuery(), Clauses(cs));
    ParseClausesBuilt(cs);
  }
}
