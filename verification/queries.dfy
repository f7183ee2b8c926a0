/** `list_questions` of the ORM query layer: the public listing, which falls
    back to the curated default subdomains when no subdomain is asked for. */
module Queries {
  import opened Runtime
  import opened Models
  import opened Ordering
  import opened Statement

  /** The questions of `scan` (the table as the database reads it) that the
      listing returns, each with its choices. */
  function ListQuestions(t: Tables, scan: seq<Question>, p: ListParams): (r: Outcome<seq<Listed>>)
    ensures r.Raised? <==> BadOrderBy(p) || p.limit < 0 || p.offset < 0
    ensures r.Returned? ==> forall i | 0 <= i < |r.value| ::
      var q := r.value[i].question;
      && q in scan
      && (HasSubdomain(p) ==> q.subdomain == p.subdomain.value)
      && (!HasSubdomain(p) ==> q.subdomain in DEFAULT_SUBDOMAINS)
      && (p.level.Some? ==> q.level == p.level.value)
      && r.value[i].choices == ChoicesOf(t.choices, q.id)
    ensures r.Returned? && p.limit > 0 ==> |r.value| <= p.limit
    ensures r.Returned? && Ordered(p) ==> Sorted(Questions(r.value), ParseColumn(p.orderBy).value, p.direction.dir)
    ensures r.Returned? ==> Questions(r.value) == Select(scan, p, DefaultSubdomains)
  {
    RunSound(t, scan, p, DefaultSubdomains);
    if !BadOrderBy(p) && p.limit >= 0 && p.offset >= 0 then
      LoadRows(Select(scan, p, DefaultSubdomains), t.choices);
      Run(t, scan, p, DefaultSubdomains)
    else
      Run(t, scan, p, DefaultSubdomains)
  }

  /** Rows in `created_at` descending order are newest first. */
  lemma NewestFirst(qs: seq<Question>)
    requires Sorted(qs, CreatedAt, Desc)
    ensures forall i, j | 0 <= i < j < |qs| :: qs[i].createdAt >= qs[j].createdAt
  {
    forall i, j | 0 <= i < j < |qs| ensures qs[i].createdAt >= qs[j].createdAt {
      assert Before(qs[i], qs[j], CreatedAt, Desc);
    }
  }

  /** The defaults list at most twenty curated questions, newest first. */
  lemma DefaultListing(t: Tables, scan: seq<Question>)
    ensures ListQuestions(t, scan, DEFAULT_PARAMS).Returned?
    ensures var r := ListQuestions(t, scan, DEFAULT_PARAMS).value;
      && |r| <= 20
      && (forall i | 0 <= i < |r| :: r[i].question.subdomain in DEFAULT_SUBDOMAINS)
      && (forall i, j | 0 <= i < j < |r| :: r[i].question.createdAt >= r[j].question.createdAt)
  {
    assert ParseColumn(DEFAULT_PARAMS.orderBy) == Some(CreatedAt);
    assert !BadOrderBy(DEFAULT_PARAMS) && Ordered(DEFAULT_PARAMS);
    var r := ListQuestions(t, scan, DEFAULT_PARAMS).value;
    NewestFirst(Questions(r));
  }

  /** A direction equal to neither enum member adds no ORDER BY: without LIMIT
      and OFFSET the matching rows come back in scan order. */
  lemma UnrecognizedDirectionKeepsScanOrder(t: Tables, scan: seq<Question>, p: ListParams)
    requires p.direction == Unrecognized && ParseColumn(p.orderBy).Some?
    requires p.limit == 0 && p.offset == 0
    ensures ListQuestions(t, scan, p).Returned?
    ensures Questions(ListQuestions(t, scan, p).value) == Filter(scan, WhereOf(p, DefaultSubdomains))
  {
    var rows := Filter(scan, WhereOf(p, DefaultSubdomains));
    assert Select(scan, p, DefaultSubdomains) == rows;
  }
}
