/** The SELECT statement both `list_questions` functions build, and what the
    database does with it. The builder attaches LIMIT and OFFSET before the
    WHERE clauses, but SQL evaluates WHERE first, then ORDER BY, then OFFSET,
    then LIMIT; the result is therefore page(sort(filter(rows))), each row
    loaded with its full list of choices.

    `scan` is the table in the order the database happens to read it; the
    model takes any order. Ties of an ORDER BY keep scan order, which is one of
    the orders SQL permits, and every permitted order is reached by some scan
    (`SortKeepsSorted`). */
module Statement {
  import opened Runtime
  import opened Models
  import opened Ordering

  /** The `order_direction` argument as the builder tests it: falsy (no
      ordering and no column lookup), one of the two enum members, or a truthy
      value equal to neither member (the column is looked up, nothing sorts). */
  datatype Direction = Unset | Given(dir: OrderDirection) | Unrecognized

  /** The arguments of a listing. A falsy `limit` or `offset` (None or 0) is 0
      here; `subdomain` None and "" are both falsy. */
  datatype ListParams = ListParams(
    orderBy: string,
    direction: Direction,
    limit: int,
    offset: int,
    subdomain: Option<string>,
    level: Option<DifficultyLevel>)

  /** The defaults of both `list_questions`: newest first, twenty rows. */
  const DEFAULT_PARAMS: ListParams := ListParams("created_at", Given(Desc), 20, 0, None, None)

  /** A question with the choices `selectinload` attaches to it. */
  datatype Listed = Listed(question: Question, choices: set<Choice>)

  datatype SubdomainClause = NoSubdomainClause | SubdomainIs(name: string) | SubdomainIn(names: seq<string>)

  /** The WHERE clauses of the statement. */
  datatype Where = Where(subdomain: SubdomainClause, level: Option<DifficultyLevel>)

  /** What a listing restricts to when no subdomain is asked for. */
  datatype Fallback = DefaultSubdomains | AnySubdomain

  predicate Matches(q: Question, w: Where) {
    && (match w.subdomain
        case NoSubdomainClause => true
        case SubdomainIs(s) => q.subdomain == s
        case SubdomainIn(ss) => q.subdomain in ss)
    && (w.level.Some? ==> q.level == w.level.value)
  }

  /** True when `subdomain` is truthy. */
  predicate HasSubdomain(p: ListParams) {
    p.subdomain.Some? && p.subdomain.value != ""
  }

  function WhereOf(p: ListParams, fallback: Fallback): (w: Where)
    ensures HasSubdomain(p) ==> w.subdomain == SubdomainIs(p.subdomain.value)
    ensures !HasSubdomain(p) && fallback == DefaultSubdomains ==> w.subdomain == SubdomainIn(DEFAULT_SUBDOMAINS)
    ensures !HasSubdomain(p) && fallback == AnySubdomain ==> w.subdomain == NoSubdomainClause
    ensures w.level == p.level
  {
    var clause :=
      if HasSubdomain(p) then SubdomainIs(p.subdomain.value)
      else if fallback == DefaultSubdomains then SubdomainIn(DEFAULT_SUBDOMAINS)
      else NoSubdomainClause;
    Where(clause, p.level)
  }

  /** What the WHERE clauses ask of a row: the given subdomain when one is
      truthy, otherwise a curated subdomain under the fallback to the
      defaults, and the given level when there is one. */
  lemma WhereOfMeaning(q: Question, p: ListParams, fallback: Fallback)
    ensures Matches(q, WhereOf(p, fallback)) <==>
      && (HasSubdomain(p) ==> q.subdomain == p.subdomain.value)
      && (!HasSubdomain(p) && fallback == DefaultSubdomains ==> q.subdomain in DEFAULT_SUBDOMAINS)
      && (p.level.Some? ==> q.level == p.level.value)
  {
  }

  /** `a` is `b` with some rows left out, the others kept in their order. */
  predicate SubsequenceOf(a: seq<Question>, b: seq<Question>)
    decreases |b|
  {
    if a == [] then true
    else if b == [] then false
    else (a[0] == b[0] && SubsequenceOf(a[1..], b[1..])) || SubsequenceOf(a, b[1..])
  }

  /** The rows of `rows` the WHERE clauses keep, in their order. */
  function Filter(rows: seq<Question>, w: Where): (r: seq<Question>)
    ensures |r| <= |rows|
    ensures SubsequenceOf(r, rows)
    ensures forall q :: q in r <==> q in rows && Matches(q, w)
    ensures forall q :: multiset(r)[q] == if Matches(q, w) then multiset(rows)[q] else 0
  {
    if rows == [] then []
    else
      assert rows == [rows[0]] + rows[1..];
      var rest := Filter(rows[1..], w);
      if Matches(rows[0], w) then
        assert ([rows[0]] + rest)[1..] == rest;
        [rows[0]] + rest
      else
        rest
  }

  /** Every pair of rows is in an order the ORDER BY permits. */
  predicate Sorted(s: seq<Question>, c: Column, d: OrderDirection) {
    forall i, j | 0 <= i < j < |s| :: Before(s[i], s[j], c, d)
  }

  /** Places `x` before the first row it may precede. */
  function Insert(x: Question, s: seq<Question>, c: Column, d: OrderDirection): (r: seq<Question>)
    requires Sorted(s, c, d)
    ensures Sorted(r, c, d)
    ensures multiset(r) == multiset(s) + multiset{x}
    ensures forall y :: y in r <==> y == x || y in s
  {
    if s == [] then [x]
    else if Before(x, s[0], c, d) then
      assert forall j | 0 <= j < |s| :: Before(x, s[j], c, d) by {
        forall j | 0 <= j < |s| ensures Before(x, s[j], c, d) {
          if j > 0 { BeforeTransitive(x, s[0], s[j], c, d); }
        }
      }
      [x] + s
    else
      BeforeTotal(x, s[0], c, d);
      assert s == [s[0]] + s[1..];
      var rest := Insert(x, s[1..], c, d);
      PrependSorted(s[0], rest, c, d);
      [s[0]] + rest
  }

  /** A row that may precede every row of a sorted sequence can head it. */
  lemma PrependSorted(h: Question, s: seq<Question>, c: Column, d: OrderDirection)
    requires Sorted(s, c, d)
    requires forall y | y in s :: Before(h, y, c, d)
    ensures Sorted([h] + s, c, d)
  {
    var r := [h] + s;
    forall i, j | 0 <= i < j < |r| ensures Before(r[i], r[j], c, d) {
      if i > 0 { assert r[i] == s[i - 1] && r[j] == s[j - 1]; }
      else { assert r[j] == s[j - 1] && r[j] in s; }
    }
  }

  /** ORDER BY: a permutation of `s` in which every pair is in permitted
      order. Stable: rows that tie keep their order in `s`. */
  function Sort(s: seq<Question>, c: Column, d: OrderDirection): (r: seq<Question>)
    ensures Sorted(r, c, d)
    ensures multiset(r) == multiset(s)
    ensures forall q :: q in r <==> q in s
  {
    if s == [] then []
    else
      assert s == [s[0]] + s[1..];
      Insert(s[0], Sort(s[1..], c, d), c, d)
  }

  /** Sorting rows that are already in a permitted order leaves them as they
      are; so every order the ORDER BY permits comes out of some scan. */
  lemma {:induction false} SortKeepsSorted(s: seq<Question>, c: Column, d: OrderDirection)
    requires Sorted(s, c, d)
    ensures Sort(s, c, d) == s
  {
    if s != [] {
      assert Sorted(s[1..], c, d);
      SortKeepsSorted(s[1..], c, d);
    }
  }

  /** OFFSET then LIMIT; 0 means the clause is absent. */
  function Page(s: seq<Question>, limit: nat, offset: nat): (r: seq<Question>)
    ensures limit > 0 ==> |r| <= limit
    ensures offset >= |s| ==> r == []
    ensures offset < |s| ==> |r| == if 0 < limit < |s| - offset then limit else |s| - offset
  {
    var rest := if offset < |s| then s[offset..] else [];
    if 0 < limit < |rest| then rest[..limit] else rest
  }

  /** A page is the run of rows that starts at the offset. */
  lemma PageIsSlice(s: seq<Question>, limit: nat, offset: nat)
    ensures offset < |s| ==> Page(s, limit, offset) == s[offset..offset + |Page(s, limit, offset)|]
  {
  }

  /** Two consecutive pages, both with a limit, make up the page that starts
      where the first starts and has both limits together. */
  lemma PageSplit(s: seq<Question>, a: nat, b: nat, offset: nat)
    requires a > 0 && b > 0
    ensures Page(s, a, offset) + Page(s, b, offset + a) == Page(s, a + b, offset)
  {
    if offset < |s| && offset + a < |s| {
      PageIsSlice(s, a, offset);
      PageIsSlice(s, b, offset + a);
      PageIsSlice(s, a + b, offset);
      assert Page(s, a, offset) == s[offset..offset + a];
      assert s[offset..offset + a] + Page(s, b, offset + a) == s[offset..offset + |Page(s, a + b, offset)|];
    }
  }

  /** Attaches each row's choices. */
  function Load(rows: seq<Question>, choices: map<int, Choice>): (r: seq<Listed>)
    ensures |r| == |rows|
    ensures forall i | 0 <= i < |r| :: r[i].question == rows[i]
    ensures forall i, c | 0 <= i < |r| :: c in r[i].choices <==> c in choices.Values && c.questionId == rows[i].id
  {
    seq(|rows|, i requires 0 <= i < |rows| => Listed(rows[i], ChoicesOf(choices, rows[i].id)))
  }

  /** Each loaded row is the question with all of its choices. */
  lemma LoadRows(rows: seq<Question>, choices: map<int, Choice>)
    ensures forall i | 0 <= i < |rows| :: Load(rows, choices)[i] == Listed(rows[i], ChoicesOf(choices, rows[i].id))
    ensures Questions(Load(rows, choices)) == rows
  {
  }

  /** Loading distributes over concatenation. */
  lemma LoadConcat(a: seq<Question>, b: seq<Question>, choices: map<int, Choice>)
    ensures Load(a + b, choices) == Load(a, choices) + Load(b, choices)
  {
    LoadRows(a + b, choices);
    LoadRows(a, choices);
    LoadRows(b, choices);
  }

  /** The questions of a listing, without their choices. */
  function Questions(r: seq<Listed>): (qs: seq<Question>)
    ensures |qs| == |r|
    ensures forall i | 0 <= i < |r| :: qs[i] == r[i].question
  {
    seq(|r|, i requires 0 <= i < |r| => r[i].question)
  }

  /** The builder looks the column up only when both `order_by` and
      `order_direction` are truthy; `getattr` raises on an unknown name. */
  predicate BadOrderBy(p: ListParams) {
    p.orderBy != "" && !p.direction.Unset? && ParseColumn(p.orderBy).None?
  }

  /** True when the statement carries an ORDER BY clause. */
  predicate Ordered(p: ListParams) {
    p.orderBy != "" && p.direction.Given? && ParseColumn(p.orderBy).Some?
  }

  function OrderRows(rows: seq<Question>, p: ListParams): (r: seq<Question>)
    ensures multiset(r) == multiset(rows)
    ensures forall q :: q in r <==> q in rows
    ensures Ordered(p) ==> Sorted(r, ParseColumn(p.orderBy).value, p.direction.dir)
    ensures !Ordered(p) ==> r == rows
  {
    if Ordered(p) then Sort(rows, ParseColumn(p.orderBy).value, p.direction.dir) else rows
  }

  /** A page of sorted rows is sorted. */
  lemma PageSorted(s: seq<Question>, limit: nat, offset: nat, c: Column, d: OrderDirection)
    requires Sorted(s, c, d)
    ensures Sorted(Page(s, limit, offset), c, d)
  {
    var r := Page(s, limit, offset);
    if offset < |s| {
      PageIsSlice(s, limit, offset);
      forall i, j | 0 <= i < j < |r| ensures Before(r[i], r[j], c, d) {
        assert r[i] == s[offset + i] && r[j] == s[offset + j];
      }
    }
  }

  /** The matching rows in ORDER BY order, before OFFSET and LIMIT. */
  function Arranged(scan: seq<Question>, p: ListParams, fallback: Fallback): seq<Question> {
    OrderRows(Filter(scan, WhereOf(p, fallback)), p)
  }

  /** The arguments with LIMIT and OFFSET left out. */
  function Unpaged(p: ListParams): (u: ListParams)
    ensures u.limit == 0 && u.offset == 0
    ensures WhereOf(u, AnySubdomain) == WhereOf(p, AnySubdomain) && WhereOf(u, DefaultSubdomains) == WhereOf(p, DefaultSubdomains)
    ensures Ordered(u) == Ordered(p) && BadOrderBy(u) == BadOrderBy(p)
    ensures u.orderBy == p.orderBy && u.direction == p.direction
  {
    p.(limit := 0, offset := 0)
  }

  /** The arguments with the given LIMIT and OFFSET. */
  function Paged(p: ListParams, limit: int, offset: int): (q: ListParams)
    ensures q.limit == limit && q.offset == offset
    ensures Unpaged(q) == Unpaged(p) && BadOrderBy(q) == BadOrderBy(p)
  {
    p.(limit := limit, offset := offset)
  }

  /** The rows the statement returns, before their choices are attached:
      the run of the matching rows, in ORDER BY order, that OFFSET and
      LIMIT leave. */
  function Select(scan: seq<Question>, p: ListParams, fallback: Fallback): (r: seq<Question>)
    requires p.limit >= 0 && p.offset >= 0
    ensures p.limit > 0 ==> |r| <= p.limit
    ensures p.offset >= |Arranged(scan, Unpaged(p), fallback)| ==> r == []
    ensures p.offset < |Arranged(scan, Unpaged(p), fallback)| ==>
      |r| == if 0 < p.limit < |Arranged(scan, Unpaged(p), fallback)| - p.offset then p.limit
             else |Arranged(scan, Unpaged(p), fallback)| - p.offset
    ensures p.offset < |Arranged(scan, Unpaged(p), fallback)| ==>
      && p.offset + |r| <= |Arranged(scan, Unpaged(p), fallback)|
      && r == Arranged(scan, Unpaged(p), fallback)[p.offset..p.offset + |r|]
  {
    var rows := Arranged(scan, Unpaged(p), fallback);
    PageIsSlice(rows, p.limit, p.offset);
    Page(rows, p.limit, p.offset)
  }

  /** Every selected row is a scanned row that matches, there are at most
      `limit` of them, and they are in ORDER BY order. */
  lemma SelectSound(scan: seq<Question>, p: ListParams, fallback: Fallback)
    requires p.limit >= 0 && p.offset >= 0
    ensures forall q | q in Select(scan, p, fallback) :: q in scan && Matches(q, WhereOf(p, fallback))
    ensures p.limit > 0 ==> |Select(scan, p, fallback)| <= p.limit
    ensures Ordered(p) ==> Sorted(Select(scan, p, fallback), ParseColumn(p.orderBy).value, p.direction.dir)
  {
    var ordered := Arranged(scan, Unpaged(p), fallback);
    var rows := Page(ordered, p.limit, p.offset);
    assert forall q | q in rows :: q in ordered;
    if Ordered(p) {
      PageSorted(ordered, p.limit, p.offset, ParseColumn(p.orderBy).value, p.direction.dir);
    }
  }

  /** Builds and runs the statement. An unknown column name raises while the
      statement is built; a negative LIMIT or OFFSET is rejected by the
      database when it runs. What a returned listing holds is `RunSound`. */
  function Run(t: Tables, scan: seq<Question>, p: ListParams, fallback: Fallback): (r: Outcome<seq<Listed>>)
    ensures r.Raised? <==> BadOrderBy(p) || p.limit < 0 || p.offset < 0
    ensures r.Raised? ==> r.error == if BadOrderBy(p) then AttributeError(p.orderBy) else DatabaseError
  {
    if BadOrderBy(p) then Raised(AttributeError(p.orderBy))
    else if p.limit < 0 || p.offset < 0 then Raised(DatabaseError)
    else Returned(Load(Select(scan, p, fallback), t.choices))
  }

  /** Every listed row is a scanned row that satisfies every WHERE clause and
      carries its full choice list; there are at most `limit` rows, and they
      follow the ORDER BY. */
  lemma RunSound(t: Tables, scan: seq<Question>, p: ListParams, fallback: Fallback)
    ensures var r := Run(t, scan, p, fallback);
      r.Returned? ==>
        && (forall i | 0 <= i < |r.value| ::
              && r.value[i].question in scan
              && Matches(r.value[i].question, WhereOf(p, fallback))
              && r.value[i].choices == ChoicesOf(t.choices, r.value[i].question.id))
        && (p.limit > 0 ==> |r.value| <= p.limit)
        && (Ordered(p) ==> Sorted(Questions(r.value), ParseColumn(p.orderBy).value, p.direction.dir))
  {
    if !BadOrderBy(p) && p.limit >= 0 && p.offset >= 0 {
      var rows := Select(scan, p, fallback);
      SelectSound(scan, p, fallback);
      LoadRows(rows, t.choices);
    }
  }

  /** Without LIMIT and OFFSET every row that matches is listed, once for each
      time it occurs in the scan, and nothing else is. */
  lemma RunComplete(t: Tables, scan: seq<Question>, p: ListParams, fallback: Fallback)
    requires !BadOrderBy(p) && p.limit == 0 && p.offset == 0
    ensures Run(t, scan, p, fallback).Returned?
    ensures multiset(Questions(Run(t, scan, p, fallback).value)) == multiset(Filter(scan, WhereOf(p, fallback)))
  {
    var rows := OrderRows(Filter(scan, WhereOf(p, fallback)), p);
    assert Page(rows, 0, 0) == rows;
    LoadRows(rows, t.choices);
  }

  /** Running with any LIMIT and OFFSET loads a page of the same arranged
      rows. */
  lemma RunIsLoad(t: Tables, scan: seq<Question>, p: ListParams, fallback: Fallback, limit: nat, offset: nat)
    requires !BadOrderBy(p)
    ensures Run(t, scan, Paged(p, limit, offset), fallback)
         == Returned(Load(Page(Arranged(scan, Unpaged(p), fallback), limit, offset), t.choices))
  {
    assert !BadOrderBy(Unpaged(Paged(p, limit, offset)));
  }

  /** Consecutive loaded pages of the same rows make up the page that has
      both limits together. */
  lemma LoadedPagesTile(rows: seq<Question>, a: nat, b: nat, o: nat, choices: map<int, Choice>)
    requires a > 0 && b > 0
    ensures Load(Page(rows, a, o), choices) + Load(Page(rows, b, o + a), choices) == Load(Page(rows, a + b, o), choices)
    ensures Tiles(Returned(Load(Page(rows, a, o), choices)), Returned(Load(Page(rows, b, o + a), choices)),
                  Returned(Load(Page(rows, a + b, o), choices)))
  {
    PageSplit(rows, a, b, o);
    LoadConcat(Page(rows, a, o), Page(rows, b, o + a), choices);
  }

  /** Paging is consistent: the listed page of `a` rows at offset `o`
      followed by the page of `b` rows at offset `o + a` is the page of
      `a + b` rows at `o`, choices included. */
  lemma {:induction false} RunPagesTile(t: Tables, scan: seq<Question>, p: ListParams, fallback: Fallback, a: nat, b: nat, o: nat)
    requires !BadOrderBy(p) && a > 0 && b > 0
    ensures Tiles(Run(t, scan, Paged(p, a, o), fallback), Run(t, scan, Paged(p, b, o + a), fallback),
                  Run(t, scan, Paged(p, a + b, o), fallback))
  {
    RunIsLoad(t, scan, p, fallback, a, o);
    RunIsLoad(t, scan, p, fallback, b, o + a);
    RunIsLoad(t, scan, p, fallback, a + b, o);
    LoadedPagesTile(Arranged(scan, Unpaged(p), fallback), a, b, o, t.choices);
  }

  /** The first of a sorted sequence may precede each of its rows. */
  lemma SortedHeadFirst(s: seq<Question>, x: Question, c: Column, d: OrderDirection)
    requires Sorted(s, c, d) && x in s
    ensures Before(s[0], x, c, d)
  {
    var j :| 0 <= j < |s| && s[j] == x;
    if j == 0 {
      BeforeTotal(x, x, c, d);
    }
  }

  /** Two sorted permutations of rows with no ties start with the same row. */
  lemma SortedHeadsAgree(s1: seq<Question>, s2: seq<Question>, c: Column, d: OrderDirection)
    requires Sorted(s1, c, d) && Sorted(s2, c, d)
    requires multiset(s1) == multiset(s2) && KeyUnique(s1, c) && s1 != []
    ensures s2 != [] && s1[0] == s2[0]
  {
    assert s1[0] in multiset(s2);
    assert s2 != [];
    assert s2[0] in multiset(s1);
    SortedHeadFirst(s2, s1[0], c, d);
    SortedHeadFirst(s1, s2[0], c, d);
    BeforeAntisymmetric(s1[0], s2[0], c, d);
  }

  /** Permutations that start with the same row continue with permutations. */
  lemma TailsPermutation(s1: seq<Question>, s2: seq<Question>)
    requires s1 != [] && s2 != [] && s1[0] == s2[0] && multiset(s1) == multiset(s2)
    ensures multiset(s1[1..]) == multiset(s2[1..])
  {
    assert s1 == [s1[0]] + s1[1..];
    assert s2 == [s2[0]] + s2[1..];
    assert multiset(s1[1..]) == multiset(s1) - multiset{s1[0]};
    assert multiset(s2[1..]) == multiset(s2) - multiset{s2[0]};
  }

  /** When no two rows tie on the column, there is only one way to sort
      them: two sorted permutations of the same rows are equal. */
  lemma {:induction false} SortedUnique(s1: seq<Question>, s2: seq<Question>, c: Column, d: OrderDirection)
    requires Sorted(s1, c, d) && Sorted(s2, c, d)
    requires multiset(s1) == multiset(s2) && KeyUnique(s1, c)
    ensures s1 == s2
    decreases |s1|
  {
    if s1 == [] {
      assert |s2| == |multiset(s2)| == 0;
    } else {
      SortedHeadsAgree(s1, s2, c, d);
      TailsPermutation(s1, s2);
      assert Sorted(s1[1..], c, d) && Sorted(s2[1..], c, d);
      assert forall x | x in s1[1..] :: x in s1;
      SortedUnique(s1[1..], s2[1..], c, d);
      assert s1 == [s1[0]] + s1[1..] && s2 == [s2[0]] + s2[1..];
    }
  }

  /** Under an ORDER BY on a column no two scanned rows tie on, the rows
      before OFFSET and LIMIT do not depend on the order the table is read
      in. */
  lemma ArrangedAcrossScans(s1: seq<Question>, s2: seq<Question>, p: ListParams, fallback: Fallback)
    requires multiset(s1) == multiset(s2)
    requires Ordered(p) && KeyUnique(s1, ParseColumn(p.orderBy).value)
    ensures Arranged(s1, Unpaged(p), fallback) == Arranged(s2, Unpaged(p), fallback)
  {
    var w := WhereOf(Unpaged(p), fallback);
    var f1, f2 := Filter(s1, w), Filter(s2, w);
    forall q ensures multiset(f1)[q] == multiset(f2)[q] {
    }
    assert multiset(f1) == multiset(f2);
    var c, d := ParseColumn(p.orderBy).value, p.direction.dir;
    var r1, r2 := OrderRows(f1, Unpaged(p)), OrderRows(f2, Unpaged(p));
    assert forall x | x in r1 :: x in s1;
    SortedUnique(r1, r2, c, d);
  }

  /** Under an ORDER BY on a column no two scanned rows tie on, the listing
      does not depend on the order the table is read in, whatever the LIMIT
      and OFFSET. */
  lemma RunIndependentOfScan(t: Tables, s1: seq<Question>, s2: seq<Question>, p: ListParams, fallback: Fallback)
    requires Ordered(p) && KeyUnique(s1, ParseColumn(p.orderBy).value) && multiset(s2) == multiset(s1)
    ensures Run(t, s2, p, fallback) == Run(t, s1, p, fallback)
  {
    if p.limit >= 0 && p.offset >= 0 {
      ArrangedAcrossScans(s1, s2, p, fallback);
    }
  }

  /** Paging is consistent even when each statement reads the table in an
      order of its own, provided the ORDER BY column has no ties. */
  lemma RunPagesTileAcrossScans(t: Tables, s1: seq<Question>, s2: seq<Question>, s3: seq<Question>,
                                p: ListParams, fallback: Fallback, a: nat, b: nat, o: nat)
    requires Ordered(p) && KeyUnique(s1, ParseColumn(p.orderBy).value)
    requires multiset(s2) == multiset(s1) && multiset(s3) == multiset(s1)
    requires a > 0 && b > 0
    ensures Tiles(Run(t, s1, Paged(p, a, o), fallback), Run(t, s2, Paged(p, b, o + a), fallback),
                  Run(t, s3, Paged(p, a + b, o), fallback))
  {
    RunIndependentOfScan(t, s1, s2, Paged(p, b, o + a), fallback);
    RunIndependentOfScan(t, s1, s3, Paged(p, a + b, o), fallback);
    RunPagesTile(t, s1, p, fallback, a, b, o);
  }

  /** A sequence whose rows have distinct ids holds each row at most once. */
  lemma {:induction false} DistinctCount(s: seq<Question>, x: Question)
    requires forall i, j | 0 <= i < j < |s| :: s[i].id != s[j].id
    ensures multiset(s)[x] == if x in s then 1 else 0
  {
    if s != [] {
      assert s == [s[0]] + s[1..];
      assert s[0] !in s[1..];
      DistinctCount(s[1..], x);
    }
  }

  /** Two scans of the same table hold the same rows, each once. */
  lemma ScansOfOneTable(s1: seq<Question>, s2: seq<Question>, questions: map<int, Question>)
    requires IsScanOf(s1, questions) && IsScanOf(s2, questions)
    ensures multiset(s1) == multiset(s2)
  {
    forall x ensures multiset(s1)[x] == multiset(s2)[x] {
      DistinctCount(s1, x);
      DistinctCount(s2, x);
      if x in s1 {
        var i :| 0 <= i < |s1| && s1[i] == x;
      }
      if x in s2 {
        var i :| 0 <= i < |s2| && s2[i] == x;
      }
    }
  }

  /** The ids of a scan of a table are a key: no two of its rows tie on `id`. */
  lemma ScanIdsUnique(scan: seq<Question>, questions: map<int, Question>)
    requires IsScanOf(scan, questions)
    ensures KeyUnique(scan, Id)
  {
    forall x, y | x in scan && y in scan && KeyOf(x, Id) == KeyOf(y, Id) ensures x == y {
      var i :| 0 <= i < |scan| && scan[i] == x;
      var j :| 0 <= j < |scan| && scan[j] == y;
    }
  }

  /** Listings ordered by `id` page consistently, whatever order each
      statement reads the table in. */
  lemma RunPagesByIdTile(t: Tables, s1: seq<Question>, s2: seq<Question>, s3: seq<Question>,
                         p: ListParams, fallback: Fallback, a: nat, b: nat, o: nat)
    requires IsScanOf(s1, t.questions) && IsScanOf(s2, t.questions) && IsScanOf(s3, t.questions)
    requires Ordered(p) && ParseColumn(p.orderBy) == Some(Id)
    requires a > 0 && b > 0
    ensures Tiles(Run(t, s1, Paged(p, a, o), fallback), Run(t, s2, Paged(p, b, o + a), fallback),
                  Run(t, s3, Paged(p, a + b, o), fallback))
  {
    ScansOfOneTable(s1, s2, t.questions);
    ScansOfOneTable(s1, s3, t.questions);
    ScanIdsUnique(s1, t.questions);
    RunPagesTileAcrossScans(t, s1, s2, s3, p, fallback, a, b, o);
  }

  /** `scan` reads every row of the table `questions` exactly once. */
  predicate IsScanOf(scan: seq<Question>, questions: map<int, Question>) {
    && (forall i | 0 <= i < |scan| :: scan[i].id in questions && questions[scan[i].id] == scan[i])
    && (forall i, j | 0 <= i < j < |scan| :: scan[i].id != scan[j].id)
    && (forall id | id in questions :: questions[id] in scan)
  }

  /** Every listed row is the stored question with its id. */
  lemma RunListsStoredRows(t: Tables, scan: seq<Question>, p: ListParams, fallback: Fallback)
    requires IsScanOf(scan, t.questions)
    requires Run(t, scan, p, fallback).Returned?
    ensures forall l | l in Run(t, scan, p, fallback).value ::
      l.question.id in t.questions && t.questions[l.question.id] == l.question
  {
    var r := Run(t, scan, p, fallback).value;
    RunSound(t, scan, p, fallback);
    forall l | l in r ensures l.question.id in t.questions && t.questions[l.question.id] == l.question {
      var i :| 0 <= i < |r| && r[i] == l;
      var k :| 0 <= k < |scan| && scan[k] == l.question;
    }
  }

  /** Without LIMIT and OFFSET, every stored question that matches the WHERE
      clauses is listed. */
  lemma RunListsEveryMatchingRow(t: Tables, scan: seq<Question>, p: ListParams, fallback: Fallback)
    requires IsScanOf(scan, t.questions)
    requires !BadOrderBy(p) && p.limit == 0 && p.offset == 0
    ensures Run(t, scan, p, fallback).Returned?
    ensures forall id | id in t.questions && Matches(t.questions[id], WhereOf(p, fallback)) ::
      t.questions[id] in Questions(Run(t, scan, p, fallback).value)
  {
    RunComplete(t, scan, p, fallback);
    var listed := Questions(Run(t, scan, p, fallback).value);
    forall id | id in t.questions && Matches(t.questions[id], WhereOf(p, fallback))
      ensures t.questions[id] in listed
    {
      var q := t.questions[id];
      assert q in Filter(scan, WhereOf(p, fallback));
      assert q in multiset(listed);
    }
  }
}
