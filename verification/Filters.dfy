/** Compiling filters to WHERE clauses and arguments, under numbered ($n) and positional (?) binding. */
module Filters {
  import opened Types
  import opened Tables
  import opened Text
  import opened Paging
  import opened SearchTerms

  // ---- statements ----

  datatype Placeholder = Numbered(n: nat) | Positional

  datatype Arg =
    | IdArg(id: Id)
    | CategoryArg(category: Category)
    | TimeArg(time: nat)
    | TextArg(text: string)
    | IntArg(value: int)

  datatype Clause =
    | Matches(text: Placeholder)
    | EntityIs(entity: Placeholder)
    | CategoryIs(category: Placeholder)
    | CategoryIn(categories: seq<Placeholder>)
    | NotExpired
    | UpdatedSince(since: Placeholder)

  /** A SELECT over the memories: its placeholders occur in the order rank, clauses, limit, offset. */
  datatype Select = Select(rank: Option<Placeholder>, clauses: seq<Clause>, limit: Placeholder,
      offset: Option<Placeholder>)

  datatype Compiled = Compiled(select: Select, args: seq<Arg>)

  // ---- what a statement means ----

  /** The argument a placeholder stands for, k positional ones coming before it. */
  function ValueAt(p: Placeholder, k: nat, args: seq<Arg>): Option<Arg> {
    match p
    case Numbered(n) => if 1 <= n <= |args| then Some(args[n - 1]) else None
    case Positional => if k < |args| then Some(args[k]) else None
  }

  /** The placeholders of a clause, in the order they are written. */
  function PlaceholdersOf(c: Clause): seq<Placeholder> {
    match c
    case Matches(p) => [p]
    case EntityIs(p) => [p]
    case CategoryIs(p) => [p]
    case CategoryIn(ps) => ps
    case NotExpired => []
    case UpdatedSince(p) => [p]
  }

  function AllPlaceholders(cs: seq<Clause>): seq<Placeholder> {
    if cs == [] then [] else AllPlaceholders(cs[..|cs| - 1]) + PlaceholdersOf(cs[|cs| - 1])
  }

  /** The placeholders of a whole statement. */
  function Written(s: Select): seq<Placeholder> {
    (if s.rank.Some? then [s.rank.value] else []) + AllPlaceholders(s.clauses) + [s.limit]
    + if s.offset.Some? then [s.offset.value] else []
  }

  /** What the row comparisons read: the row, the clock and the full-text match. */
  datatype RowView = RowView(memory: Memory, now: nat, matches: (string, Memory) -> bool)

  /** Whether the row's category is among the listed ones. */
  function InList(ps: seq<Placeholder>, k: nat, args: seq<Arg>, c: Category): Option<bool> {
    if ps == [] then Some(false)
    else
      var n := |ps| - 1;
      match (InList(ps[..n], k, args, c), ValueAt(ps[n], k + n, args))
      case (Some(found), Some(CategoryArg(category))) => Some(found || category == c)
      case _ => None
  }

  /** The truth of a clause; None when a placeholder has no argument or one of the wrong type. */
  function Holds(c: Clause, k: nat, args: seq<Arg>, v: RowView): Option<bool> {
    match c
    case NotExpired => Some(IsActive(v.memory, v.now))
    case CategoryIn(ps) => InList(ps, k, args, v.memory.category)
    case Matches(p) =>
      (match ValueAt(p, k, args)
       case Some(TextArg(text)) => Some(v.matches(text, v.memory))
       case _ => None)
    case EntityIs(p) =>
      (match ValueAt(p, k, args)
       case Some(IdArg(id)) => Some(v.memory.entityId == id)
       case _ => None)
    case CategoryIs(p) =>
      (match ValueAt(p, k, args)
       case Some(CategoryArg(category)) => Some(v.memory.category == category)
       case _ => None)
    case UpdatedSince(p) =>
      (match ValueAt(p, k, args)
       case Some(TimeArg(time)) => Some(v.memory.updatedAt >= time)
       case _ => None)
  }

  function AllHold(cs: seq<Clause>, args: seq<Arg>, v: RowView): Option<bool> {
    if cs == [] then Some(true)
    else
      var n := |cs| - 1;
      match (AllHold(cs[..n], args, v), Holds(cs[n], |AllPlaceholders(cs[..n])|, args, v))
      case (Some(a), Some(b)) => Some(a && b)
      case _ => None
  }

  // ---- the compiler ----

  /** Clauses and arguments collected so far. */
  datatype Builder = Builder(clauses: seq<Clause>, args: seq<Arg>)

  function Bind(sqlite: bool, n: nat): Placeholder {
    if sqlite then Positional else Numbered(n)
  }

  datatype MemoryFilter = MemoryFilter(
    entityId: Option<Id>,
    category: Option<Category>,
    includeExpired: bool,
    since: Option<nat>,
    limit: int,
    offset: int)

  datatype SearchQuery = SearchQuery(
    query: string,
    entityId: Option<Id>,
    categories: seq<Category>,
    includeExpired: bool,
    limit: int)

  predicate FilterSelects(f: MemoryFilter, m: Memory, now: nat) {
    && (f.entityId.Some? ==> m.entityId == f.entityId.value)
    && (f.category.Some? ==> m.category == f.category.value)
    && (!f.includeExpired ==> IsActive(m, now))
    && (f.since.Some? ==> f.since.value <= m.updatedAt)
  }

  /** The text given to the full-text engine. */
  function MatchText(u: Text, sqlite: bool, query: string): string {
    if sqlite then FtsQuery(u, query) else query
  }

  predicate SearchSelects(u: Text, sqlite: bool, q: SearchQuery, v: RowView) {
    && v.matches(MatchText(u, sqlite, q.query), v.memory)
    && (q.entityId.Some? ==> v.memory.entityId == q.entityId.value)
    && (q.categories != [] ==> v.memory.category in q.categories)
    && (!q.includeExpired ==> IsActive(v.memory, v.now))
  }

  /** The placeholders binding the arguments from one position on, one for each. */
  function Binds(sqlite: bool, from: nat, n: nat): seq<Placeholder> {
    seq(n, i requires 0 <= i < n => Bind(sqlite, from + i + 1))
  }

  // ---- conditions and the clauses that express them ----

  datatype Condition =
    | TextMatches(text: string)
    | OwnedBy(id: Id)
    | InCategory(category: Category)
    | InOneOf(categories: seq<Category>)
    | Unexpired
    | ChangedSince(time: nat)

  predicate Satisfies(v: RowView, c: Condition) {
    match c
    case TextMatches(text) => v.matches(text, v.memory)
    case OwnedBy(id) => v.memory.entityId == id
    case InCategory(category) => v.memory.category == category
    case InOneOf(categories) => v.memory.category in categories
    case Unexpired => IsActive(v.memory, v.now)
    case ChangedSince(time) => v.memory.updatedAt >= time
  }

  predicate SatisfiesAll(v: RowView, cs: seq<Condition>) {
    cs == [] || (SatisfiesAll(v, cs[..|cs| - 1]) && Satisfies(v, cs[|cs| - 1]))
  }

  function ArgsFor(c: Condition): seq<Arg> {
    match c
    case TextMatches(text) => [TextArg(text)]
    case OwnedBy(id) => [IdArg(id)]
    case InCategory(category) => [CategoryArg(category)]
    case InOneOf(categories) => seq(|categories|, i requires 0 <= i < |categories| => CategoryArg(categories[i]))
    case Unexpired => []
    case ChangedSince(time) => [TimeArg(time)]
  }

  /** The clause for a condition when n arguments are bound already. */
  function ClauseFor(sqlite: bool, c: Condition, n: nat): Clause {
    match c
    case TextMatches(_) => Matches(Bind(sqlite, n + 1))
    case OwnedBy(_) => EntityIs(Bind(sqlite, n + 1))
    case InCategory(_) => CategoryIs(Bind(sqlite, n + 1))
    case InOneOf(categories) => CategoryIn(Binds(sqlite, n, |categories|))
    case Unexpired => NotExpired
    case ChangedSince(_) => UpdatedSince(Bind(sqlite, n + 1))
  }

  /** The clauses bind every argument once, in order, and mean the conditions whatever arguments follow. */
  ghost predicate Means(sqlite: bool, clauses: seq<Clause>, args: seq<Arg>, cs: seq<Condition>) {
    && AllPlaceholders(clauses) == Binds(sqlite, 0, |args|)
    && forall more: seq<Arg>, v: RowView :: AllHold(clauses, args + more, v) == Some(SatisfiesAll(v, cs))
  }

  lemma NoClauses(sqlite: bool)
    ensures Means(sqlite, [], [], [])
  {
  }

  /** Adding the clause and the arguments of one more condition. */
  lemma Add(sqlite: bool, clauses: seq<Clause>, args: seq<Arg>, cs: seq<Condition>, c: Condition)
    requires Means(sqlite, clauses, args, cs)
    ensures Means(sqlite, clauses + [ClauseFor(sqlite, c, |args|)], args + ArgsFor(c), cs + [c])
  {
    var clause := ClauseFor(sqlite, c, |args|);
    var clauses', args', cs' := clauses + [clause], args + ArgsFor(c), cs + [c];
    assert clauses'[..|clauses|] == clauses && cs'[..|cs|] == cs;
    ClausePlaceholders(sqlite, c, |args|);
    assert AllPlaceholders(clauses') == Binds(sqlite, 0, |args'|);
    forall more: seq<Arg>, v: RowView
      ensures AllHold(clauses', args' + more, v) == Some(SatisfiesAll(v, cs'))
    {
      assert args' + more == args + (ArgsFor(c) + more);
      assert AllHold(clauses, args + (ArgsFor(c) + more), v) == Some(SatisfiesAll(v, cs));
      ClauseMeans(sqlite, args, c, more, v);
    }
  }

  lemma ClausePlaceholders(sqlite: bool, c: Condition, n: nat)
    ensures PlaceholdersOf(ClauseFor(sqlite, c, n)) == Binds(sqlite, n, |ArgsFor(c)|)
  {
  }

  lemma ClauseMeans(sqlite: bool, args: seq<Arg>, c: Condition, more: seq<Arg>, v: RowView)
    ensures Holds(ClauseFor(sqlite, c, |args|), |args|, args + ArgsFor(c) + more, v) == Some(Satisfies(v, c))
  {
    if c.InOneOf? {
      InListMeans(sqlite, args, c.categories, more, v.memory.category);
    }
  }

  lemma {:induction false} InListMeans(sqlite: bool, args: seq<Arg>, categories: seq<Category>, more: seq<Arg>,
      c: Category)
    ensures InList(Binds(sqlite, |args|, |categories|), |args|, args + ArgsFor(InOneOf(categories)) + more, c)
        == Some(c in categories)
    decreases |categories|
  {
    if categories != [] {
      var n := |categories| - 1;
      var last := CategoryArg(categories[n]);
      InListMeans(sqlite, args, categories[..n], [last] + more, c);
      ListArgs(sqlite, args, categories, more);
      assert categories == categories[..n] + [categories[n]];
      hide ValueAt, Binds, ArgsFor;
      InListSnoc(Binds(sqlite, |args|, n + 1), |args|, args + ArgsFor(InOneOf(categories)) + more, c);
      hide InList;
    }
  }

  lemma InListSnoc(ps: seq<Placeholder>, k: nat, args: seq<Arg>, c: Category)
    requires ps != []
    ensures var n := |ps| - 1;
            InList(ps, k, args, c) == match (InList(ps[..n], k, args, c), ValueAt(ps[n], k + n, args))
                                      case (Some(found), Some(CategoryArg(category))) => Some(found || category == c)
                                      case _ => None
  {
    hide ValueAt;
  }

  /** Binding a list is binding it without its last category and then that category. */
  lemma ListArgs(sqlite: bool, args: seq<Arg>, categories: seq<Category>, more: seq<Arg>)
    requires categories != []
    ensures var n := |categories| - 1;
            var last := CategoryArg(categories[n]);
            && args + ArgsFor(InOneOf(categories[..n])) + ([last] + more) == args + ArgsFor(InOneOf(categories)) + more
            && Binds(sqlite, |args|, n + 1)[..n] == Binds(sqlite, |args|, n)
            && ValueAt(Binds(sqlite, |args|, n + 1)[n], |args| + n, args + ArgsFor(InOneOf(categories)) + more)
                == Some(last)
  {
    var n := |categories| - 1;
    var bound, last := ArgsFor(InOneOf(categories)), CategoryArg(categories[n]);
    assert bound == ArgsFor(InOneOf(categories[..n])) + [last];
    assert args + ArgsFor(InOneOf(categories[..n])) + ([last] + more) == args + bound + more;
    assert Binds(sqlite, |args|, n + 1)[..n] == Binds(sqlite, |args|, n);
    assert Binds(sqlite, |args|, n + 1)[n] == Bind(sqlite, |args| + n + 1);
    assert (args + bound + more)[|args| + n] == bound[n] == last;
  }

  // ---- the memory listing ----

  function FilterConditions(f: MemoryFilter): seq<Condition> {
    (if f.entityId.Some? then [OwnedBy(f.entityId.value)] else [])
    + (if f.category.Some? then [InCategory(f.category.value)] else [])
    + (if f.includeExpired then [] else [Unexpired])
    + (if f.since.Some? then [ChangedSince(f.since.value)] else [])
  }

  method MemoryWhere(sqlite: bool, f: MemoryFilter) returns (clauses: seq<Clause>, args: seq<Arg>)
    ensures Means(sqlite, clauses, args, FilterConditions(f))
  {
    clauses, args := [], [];
    ghost var cs: seq<Condition> := [];
    NoClauses(sqlite);
    hide Means;
    if f.entityId.Some? {
      Add(sqlite, clauses, args, cs, OwnedBy(f.entityId.value));
      cs := cs + [OwnedBy(f.entityId.value)];
      clauses := clauses + [EntityIs(Bind(sqlite, |args| + 1))];
      args := args + [IdArg(f.entityId.value)];
    }
    if f.category.Some? {
      Add(sqlite, clauses, args, cs, InCategory(f.category.value));
      cs := cs + [InCategory(f.category.value)];
      clauses := clauses + [CategoryIs(Bind(sqlite, |args| + 1))];
      args := args + [CategoryArg(f.category.value)];
    }
    if !f.includeExpired {
      Add(sqlite, clauses, args, cs, Unexpired);
      cs := cs + [Unexpired];
      clauses := clauses + [NotExpired];
      assert args + [] == args;
    }
    if f.since.Some? {
      Add(sqlite, clauses, args, cs, ChangedSince(f.since.value));
      cs := cs + [ChangedSince(f.since.value)];
      clauses := clauses + [UpdatedSince(Bind(sqlite, |args| + 1))];
      args := args + [TimeArg(f.since.value)];
    }
    assert cs == FilterConditions(f);
  }

  // ---- the search query ----

  function SearchConditions(u: Text, sqlite: bool, q: SearchQuery): seq<Condition> {
    [TextMatches(MatchText(u, sqlite, q.query))]
    + (if q.entityId.Some? then [OwnedBy(q.entityId.value)] else [])
    + (if q.categories != [] then [InOneOf(q.categories)] else [])
    + (if q.includeExpired then [] else [Unexpired])
  }

  /** The placeholders of an IN list and the arguments with its values appended. */
  method BindCategories(sqlite: bool, args: seq<Arg>, categories: seq<Category>)
      returns (parts: seq<Placeholder>, args': seq<Arg>)
    ensures parts == Binds(sqlite, |args|, |categories|) && args' == args + ArgsFor(InOneOf(categories))
  {
    parts, args' := [], args;
    var i := 0;
    while i < |categories|
      invariant 0 <= i <= |categories|
      invariant parts == Binds(sqlite, |args|, i) && args' == args + ArgsFor(InOneOf(categories[..i]))
    {
      args' := args' + [CategoryArg(categories[i])];
      parts := parts + [Bind(sqlite, |args'|)];
      assert ArgsFor(InOneOf(categories[..i + 1])) == ArgsFor(InOneOf(categories[..i])) + [CategoryArg(categories[i])];
      i := i + 1;
    }
    assert categories[..i] == categories;
  }

  method SearchWhere(u: Text, sqlite: bool, q: SearchQuery) returns (clauses: seq<Clause>, args: seq<Arg>)
    ensures Means(sqlite, clauses, args, SearchConditions(u, sqlite, q))
    ensures args != [] && args[0] == TextArg(MatchText(u, sqlite, q.query))
  {
    NoClauses(sqlite);
    hide Means, FtsQuery;
    var text;
    if sqlite {
      text := SqliteFtsQuery(u, q.query);
    } else {
      text := q.query;
    }
    Add(sqlite, [], [], [], TextMatches(text));
    ghost var cs := [] + [TextMatches(text)];
    clauses, args := [] + [Matches(Bind(sqlite, 1))], [] + [TextArg(text)];
    if q.entityId.Some? {
      Add(sqlite, clauses, args, cs, OwnedBy(q.entityId.value));
      cs := cs + [OwnedBy(q.entityId.value)];
      args := args + [IdArg(q.entityId.value)];
      clauses := clauses + [EntityIs(Bind(sqlite, |args|))];
    }
    if |q.categories| > 0 {
      Add(sqlite, clauses, args, cs, InOneOf(q.categories));
      cs := cs + [InOneOf(q.categories)];
      var parts;
      parts, args := BindCategories(sqlite, args, q.categories);
      clauses := clauses + [CategoryIn(parts)];
    }
    if !q.includeExpired {
      Add(sqlite, clauses, args, cs, Unexpired);
      cs := cs + [Unexpired];
      clauses := clauses + [NotExpired];
      assert args + [] == args;
    }
    assert cs == SearchConditions(u, sqlite, q);
  }

  // ---- whole statements ----

  /** The statement keeps the rows satisfying the conditions, ranks by the given text if it ranks by a placeholder,
      applies the limit and offset, and its placeholders bind every argument: once each and in order, apart from the
      ranking placeholder, which reuses the first. */
  ghost predicate Denotes(sqlite: bool, c: Compiled, cs: seq<Condition>, rank: Option<string>, limit: int,
      offset: Option<int>) {
    var s, args := c.select, c.args;
    var k := |AllPlaceholders(s.clauses)|;
    && (forall v: RowView :: AllHold(s.clauses, args, v) == Some(SatisfiesAll(v, cs)))
    && (rank.Some? <==> s.rank.Some?)
    && (rank.Some? ==> s.rank.value.Numbered? && ValueAt(s.rank.value, 0, args) == Some(TextArg(rank.value)))
    && ValueAt(s.limit, k, args) == Some(IntArg(limit))
    && (offset.Some? <==> s.offset.Some?)
    && (offset.Some? ==> ValueAt(s.offset.value, k + 1, args) == Some(IntArg(offset.value)))
    && Written(s) == (if rank.Some? then [Numbered(1)] else []) + Binds(sqlite, 0, |args|)
  }

  lemma MeansNow(sqlite: bool, clauses: seq<Clause>, args: seq<Arg>, cs: seq<Condition>, more: seq<Arg>)
    requires Means(sqlite, clauses, args, cs)
    ensures forall v: RowView :: AllHold(clauses, args + more, v) == Some(SatisfiesAll(v, cs))
    ensures AllPlaceholders(clauses) == Binds(sqlite, 0, |args|)
  {
  }

  method CompileListing(sqlite: bool, f: MemoryFilter) returns (c: Compiled)
    ensures Denotes(sqlite, c, FilterConditions(f), None, NormalizeLimit(f.limit, LIST_DEFAULT, LIST_MAX),
        Some(NormalizeOffset(f.offset)))
  {
    var clauses, args := MemoryWhere(sqlite, f);
    var limit, offset := NormalizeLimit(f.limit, LIST_DEFAULT, LIST_MAX), NormalizeOffset(f.offset);
    MeansNow(sqlite, clauses, args, FilterConditions(f), [IntArg(limit), IntArg(offset)]);
    hide Means, AllHold, AllPlaceholders, SatisfiesAll, FilterConditions;
    ghost var n := |args|;
    args := args + [IntArg(limit), IntArg(offset)];
    c := Compiled(Select(None, clauses, Bind(sqlite, |args| - 1), Some(Bind(sqlite, |args|))), args);
    assert Written(c.select) == Binds(sqlite, 0, n) + [Bind(sqlite, n + 1)] + [Bind(sqlite, n + 2)];
  }

  /** A blank query is refused; any other runs with its own limit, clamped to the configured ones. */
  method CompileSearch(u: Text, sqlite: bool, configured: SearchLimits, q: SearchQuery) returns (r: Result<Compiled>)
    ensures u.Trim(q.query) == "" ==> r == Err(InvalidRequest("search query cannot be empty"))
    ensures u.Trim(q.query) != "" ==>
              r.Ok? && Denotes(sqlite, r.value, SearchConditions(u, sqlite, q), if sqlite then None else Some(q.query),
                               SearchLimit(configured, q.limit), None)
  {
    if u.Trim(q.query) == "" {
      return Err(InvalidRequest("search query cannot be empty"));
    }
    var limit := SearchLimit(configured, q.limit);
    var clauses, args := SearchWhere(u, sqlite, q);
    MeansNow(sqlite, clauses, args, SearchConditions(u, sqlite, q), [IntArg(limit)]);
    hide Means, AllHold, AllPlaceholders, SatisfiesAll, SearchConditions;
    ghost var n := |args|;
    args := args + [IntArg(limit)];
    var rank := if sqlite then None else Some(Bind(sqlite, 1));
    var c := Compiled(Select(rank, clauses, Bind(sqlite, |args|), None), args);
    r := Ok(c);
    assert Written(c.select) == (if sqlite then [] else [Numbered(1)]) + (Binds(sqlite, 0, n) + [Bind(sqlite, n + 1)]);
  }

  lemma {:induction false} SatisfiesJoin(v: RowView, a: seq<Condition>, b: seq<Condition>)
    ensures SatisfiesAll(v, a + b) <==> SatisfiesAll(v, a) && SatisfiesAll(v, b)
    decreases |b|
  {
    if b == [] {
      assert a + b == a;
    } else {
      var n := |b| - 1;
      assert (a + b)[..|a + b| - 1] == a + b[..n];
      SatisfiesJoin(v, a, b[..n]);
    }
  }

  lemma SatisfiesOne(v: RowView, c: Condition)
    ensures SatisfiesAll(v, [c]) <==> Satisfies(v, c)
    ensures SatisfiesAll(v, [])
  {
    assert [c][..0] == [];
  }

  /** The conditions compiled for a filter are the filter's own. */
  lemma FilterMeaning(f: MemoryFilter, v: RowView)
    ensures SatisfiesAll(v, FilterConditions(f)) <==> FilterSelects(f, v.memory, v.now)
  {
    hide SatisfiesAll;
    var owner := if f.entityId.Some? then [OwnedBy(f.entityId.value)] else [];
    var category := if f.category.Some? then [InCategory(f.category.value)] else [];
    var active := if f.includeExpired then [] else [Unexpired];
    var since := if f.since.Some? then [ChangedSince(f.since.value)] else [];
    assert FilterConditions(f) == owner + category + active + since;
    SatisfiesJoin(v, owner + category + active, since);
    SatisfiesJoin(v, owner + category, active);
    SatisfiesJoin(v, owner, category);
    SatisfiesOne(v, if f.entityId.Some? then OwnedBy(f.entityId.value) else Unexpired);
    SatisfiesOne(v, if f.category.Some? then InCategory(f.category.value) else Unexpired);
    SatisfiesOne(v, Unexpired);
    SatisfiesOne(v, if f.since.Some? then ChangedSince(f.since.value) else Unexpired);
  }

  /** The text a search matches by: the query itself, or on sqlite an expression that reads back as its terms. */
  lemma SearchText(u: Text, sqlite: bool, query: string)
    ensures !sqlite ==> MatchText(u, sqlite, query) == query
    ensures sqlite && Solid(u, query) != "" ==>
              ParseConjunction(MatchText(u, sqlite, query)) == Some(NonEmpty(Terms(u, query)))
  {
    FtsQueryParses(u, query);
    hide FtsQuery, ParseConjunction, NonEmpty, Terms;
  }

  /** And those compiled for a search are the search's own. */
  lemma SearchMeaning(u: Text, sqlite: bool, q: SearchQuery, v: RowView)
    ensures SatisfiesAll(v, SearchConditions(u, sqlite, q)) <==> SearchSelects(u, sqlite, q, v)
  {
    hide SatisfiesAll, MatchText;
    var text := [TextMatches(MatchText(u, sqlite, q.query))];
    var owner := if q.entityId.Some? then [OwnedBy(q.entityId.value)] else [];
    var among := if q.categories != [] then [InOneOf(q.categories)] else [];
    var active := if q.includeExpired then [] else [Unexpired];
    assert SearchConditions(u, sqlite, q) == text + owner + among + active;
    SatisfiesJoin(v, text + owner + among, active);
    SatisfiesJoin(v, text + owner, among);
    SatisfiesJoin(v, text, owner);
    SatisfiesOne(v, TextMatches(MatchText(u, sqlite, q.query)));
    SatisfiesOne(v, if q.entityId.Some? then OwnedBy(q.entityId.value) else Unexpired);
    SatisfiesOne(v, InOneOf(q.categories));
    SatisfiesOne(v, Unexpired);
  }
}
