/** The evaluation rules of the SLA checker, as functions of the tracker's
    answers, the field-id mapping and the clock reading `now`. The checker
    class computes exactly these. */
module Evaluation {
  import opened Values
  import opened Calendar
  import opened DateParse
  import opened Fields
  import opened Results
  import opened Jira

  // ---------------------------------------------------------------------
  // Configuration data

  /** One SLA definition. The first-response SLA has no target category and
      no config-done field; the resolution SLA as shipped has no config-done
      field either, so its lookup key is "". */
  datatype SlaDefinition = SlaDefinition(
    name: string,
    sourceProject: string,
    targetProject: string,
    healthPlanField: string,
    healthPlanValue: string,
    targetCategory: string,
    targetDays: int,
    configDoneDateField: string)

  const HealthPlanFieldId: string := "customfield_10151"
  const CategoryFieldId: string := "customfield_10356"
  const SourceOfIdFieldId: string := "customfield_10358"

  /** The initial field-id mapping. */
  const DefaultFieldIds: map<string, string> :=
    map["health_plan" := HealthPlanFieldId, "category" := CategoryFieldId,
        "source_of_identification" := SourceOfIdFieldId]

  const IdentificationConfig: SlaDefinition :=
    SlaDefinition("Identification of Resolution for Configuration Issues", "ACS", "LPM",
                  "Health plan (migrated)", "BCBSLA", "break fix", 30, "")

  const ResolutionConfig: SlaDefinition :=
    SlaDefinition("Resolution of Configuration Issues", "ACS", "LPM",
                  "Health plan (migrated)", "BCBSLA", "", 60, "")

  /** The page size of every source search. */
  const PageSize: int := 100

  /** `field_ids.get(name, "")`. */
  function FieldId(ids: map<string, string>, name: string): (id: string)
    ensures name in ids ==> id == ids[name]
    ensures name !in ids ==> id == ""
  {
    if name in ids then ids[name] else ""
  }

  // ---------------------------------------------------------------------
  // Queries

  function FromClause(d: string): string {
    "created >= \"" + d + "\""
  }

  function ToClause(d: string): string {
    "created <= \"" + d + "\""
  }

  /** `_date_filter_jql`: empty without bounds; otherwise " AND " followed by
      the present clauses, the lower bound first. */
  function DateFilter(dateFrom: Option<string>, dateTo: Option<string>): (r: string)
    ensures !Present(dateFrom) && !Present(dateTo) ==> r == ""
    ensures Present(dateFrom) && !Present(dateTo) ==> r == " AND " + FromClause(dateFrom.value)
    ensures !Present(dateFrom) && Present(dateTo) ==> r == " AND " + ToClause(dateTo.value)
    ensures Present(dateFrom) && Present(dateTo) ==>
              r == " AND " + FromClause(dateFrom.value) + " AND " + ToClause(dateTo.value)
  {
    var parts := (if Present(dateFrom) then [FromClause(dateFrom.value)] else []) +
                 (if Present(dateTo) then [ToClause(dateTo.value)] else []);
    if parts == [] then ""
    else
      assert Present(dateFrom) && Present(dateTo) ==>
        " AND " + Join(" AND ", parts) == " AND " + FromClause(dateFrom.value) + " AND " + ToClause(dateTo.value);
      " AND " + Join(" AND ", parts)
  }

  /** The query selecting the source tickets of an SLA: the project clause,
      the quoted health-plan clause, and the date filter closing the query. */
  function SourceJql(def: SlaDefinition, filter: string): (q: string)
    ensures var clauses := "project = " + def.sourceProject + " AND \"" + def.healthPlanField +
                           "\" = \"" + def.healthPlanValue + "\"";
      |q| == |clauses| + |filter| && StartsWith(q, clauses) && q[|q| - |filter|..] == filter
  {
    var head := "project = " + def.sourceProject + " AND \"";
    var q := head + (def.healthPlanField + "\" = \"" + def.healthPlanValue + "\"" + filter);
    assert q == ("project = " + def.sourceProject + " AND \"" + def.healthPlanField +
                 "\" = \"" + def.healthPlanValue + "\"") + filter;
    q
  }

  /** The fields requested for source tickets: key, created date, summary and
      status first; the links unless it is the first-response SLA; then the
      health-plan, source-of-identification and category field ids. */
  function SourceFields(ids: map<string, string>, withLinks: bool): (fs: seq<string>)
    ensures |fs| == if withLinks then 8 else 7
    ensures fs[..4] == ["key", "created", "summary", "status"]
    ensures withLinks ==> fs[4] == "issuelinks"
    ensures fs[|fs| - 3..] == [FieldId(ids, "health_plan"), FieldId(ids, "source_of_identification"), FieldId(ids, "category")]
  {
    ["key", "created", "summary", "status"] + (if withLinks then ["issuelinks"] else []) +
    [FieldId(ids, "health_plan"), FieldId(ids, "source_of_identification"), FieldId(ids, "category")]
  }

  // ---------------------------------------------------------------------
  // Reading a source ticket

  /** The created date, or `now` when missing or unparseable. */
  function CreatedDate(fields: FieldMap, now: DateTime): (d: DateTime)
    requires Valid(now)
    ensures Valid(d)
    ensures JiraDate(Get(fields, "created")).None? ==> d == now
    ensures JiraDate(Get(fields, "created")).Some? ==> d == JiraDate(Get(fields, "created")).value
  {
    JiraDate(Get(fields, "created")).GetOr(now)
  }

  /** `fields.get("status", {}).get("name", "") or ""` for the shapes the
      tracker sends. */
  function StatusName(fields: FieldMap): string {
    var status := Get(fields, "status");
    if status.JDict? && Get(status.entries, "name").JStr? then Get(status.entries, "name").s else ""
  }

  predicate ExcludedStatus(s: string) {
    s == "closed" || s == "resolved" || s == "canceled"
  }

  // ---------------------------------------------------------------------
  // Links and candidates

  /** `link.get("outwardIssue") or link.get("inwardIssue")`. */
  function LinkedIssue(link: Link): (r: Option<IssueRef>)
    ensures link.outward.Some? ==> r == link.outward
    ensures link.outward.None? ==> r == link.inward
  {
    if link.outward.Some? then link.outward else link.inward
  }

  /** A linked ticket that qualified, with its date and category value. */
  datatype Candidate = Candidate(key: string, date: Option<DateTime>, category: Json)

  /** A candidate's date, when it has one, is a real timestamp. */
  predicate WellDated(c: Candidate) {
    c.date.Some? ==> Valid(c.date.value)
  }

  /** The two ways of qualifying a linked ticket: by category (the
      identification SLA) or by a config-done date (the resolution SLA). */
  datatype Rule = ByCategory | ByDoneDate

  /** The fields fetched for a linked ticket under the category rule. */
  function CategoryFields(catField: string): seq<string> {
    if catField != "" then ["key", "created", catField] else ["key", "created"]
  }

  /** The fields fetched for a linked ticket under the done-date rule. */
  function DoneDateFields(doneField: string, catField: string): seq<string> {
    ["key", "created"] + (if doneField != "" then [doneField] else []) + (if catField != "" then [catField] else [])
  }

  /** The scan over all fields: every field whose id contains "category"
      (case-insensitively) replaces the value while the value is falsy. */
  function ScanCategory(entries: FieldMap, acc: Json): Json {
    if entries == [] then acc
    else
      var next := if Contains(Lower(entries[0].0), "category") && !Truthy(acc)
                  then ExtractFieldValue(entries[0].1, "Unknown") else acc;
      ScanCategory(entries[1..], next)
  }

  /** The category value of a linked ticket: the configured field when the
      ticket has it, then the scan. */
  function CategoryValue(fields: FieldMap, catField: string): Json {
    var initial := if catField != "" && HasKey(fields, catField)
                   then ExtractFieldValue(Get(fields, catField), "Unknown") else JStr("");
    ScanCategory(fields, initial)
  }

  predicate CategoryLike(key: string) {
    Contains(Lower(key), "category")
  }

  /** A truthy value is never replaced. */
  lemma {:induction false} ScanKeepsTruthy(entries: FieldMap, acc: Json)
    requires Truthy(acc)
    ensures ScanCategory(entries, acc) == acc
  {
    if entries != [] {
      ScanKeepsTruthy(entries[1..], acc);
    }
  }

  /** From a falsy value, the scan gives the first truthy value read from a
      category-like field. */
  lemma {:induction false} ScanFindsFirstTruthy(entries: FieldMap, acc: Json, k: nat)
    requires !Truthy(acc)
    requires k < |entries| && CategoryLike(entries[k].0) && Truthy(ExtractFieldValue(entries[k].1, "Unknown"))
    requires forall j :: 0 <= j < k && CategoryLike(entries[j].0) ==> !Truthy(ExtractFieldValue(entries[j].1, "Unknown"))
    ensures ScanCategory(entries, acc) == ExtractFieldValue(entries[k].1, "Unknown")
  {
    var next := if CategoryLike(entries[0].0) && !Truthy(acc) then ExtractFieldValue(entries[0].1, "Unknown") else acc;
    if k == 0 {
      ScanKeepsTruthy(entries[1..], next);
    } else {
      assert !Truthy(next);
      ScanFindsFirstTruthy(entries[1..], next, k - 1);
    }
  }

  /** When no category-like field reads truthy, neither does the result. */
  lemma {:induction false} ScanStaysFalsy(entries: FieldMap, acc: Json)
    requires !Truthy(acc)
    requires forall j :: 0 <= j < |entries| && CategoryLike(entries[j].0) ==> !Truthy(ExtractFieldValue(entries[j].1, "Unknown"))
    ensures !Truthy(ScanCategory(entries, acc))
  {
    if entries != [] {
      var next := if CategoryLike(entries[0].0) && !Truthy(acc) then ExtractFieldValue(entries[0].1, "Unknown") else acc;
      ScanStaysFalsy(entries[1..], next);
    }
  }

  /** The configured field wins whenever the ticket has it: its extracted
      value is truthy, since a missing value reads as "Unknown". */
  lemma ConfiguredCategoryWins(fields: FieldMap, catField: string)
    requires catField != "" && HasKey(fields, catField)
    requires Get(fields, catField) != JNull
    requires Truthy(ExtractFieldValue(Get(fields, catField), "Unknown"))
    ensures CategoryValue(fields, catField) == ExtractFieldValue(Get(fields, catField), "Unknown")
  {
    ScanKeepsTruthy(fields, ExtractFieldValue(Get(fields, catField), "Unknown"));
  }

  /** A configured field holding null reads as "Unknown", which is truthy,
      so the scan never consults the other category-like fields. */
  lemma NullCategoryReadsUnknown(fields: FieldMap, catField: string)
    requires catField != "" && HasKey(fields, catField) && Get(fields, catField) == JNull
    ensures CategoryValue(fields, catField) == JStr("Unknown")
  {
    ScanKeepsTruthy(fields, JStr("Unknown"));
  }

  /** The category rule: a linked ticket of the target project, fetched with
      the category fields, whose category value is text equal to the target
      category up to case. A value that is not text makes the comparison
      raise, which skips the link like a failed fetch. */
  function CategoryCandidate(client: JiraClient, catField: string, def: SlaDefinition, link: Link)
    : (r: Option<Candidate>)
    ensures r.Some? ==> WellDated(r.value)
  {
    match LinkedIssue(link)
    case None => None
    case Some(ref) =>
      if !StartsWith(ref.key, def.targetProject) then None
      else
        match GetIssue(client, ref.key, CategoryFields(catField))
        case Failure(_) => None
        case Success(issue) =>
          var value := CategoryValue(issue.fields, catField);
          if value.JStr? && Lower(value.s) == Lower(def.targetCategory) then
            Some(Candidate(ref.key, JiraDate(Get(issue.fields, "created")), value))
          else None
  }

  /** A link qualifies under the category rule exactly when it names a
      ticket of the target project, the fetch succeeds, and the category value
      is text equal to the target category up to case; the candidate carries
      the linked key, its parsed created date and that value. */
  lemma CategoryCandidateQualifies(client: JiraClient, catField: string, def: SlaDefinition, link: Link)
    ensures var r := CategoryCandidate(client, catField, def, link);
      (r.Some? <==>
        LinkedIssue(link).Some? && StartsWith(LinkedIssue(link).value.key, def.targetProject) &&
        GetIssue(client, LinkedIssue(link).value.key, CategoryFields(catField)).Success? &&
        var fields := GetIssue(client, LinkedIssue(link).value.key, CategoryFields(catField)).value.fields;
        CategoryValue(fields, catField).JStr? && Lower(CategoryValue(fields, catField).s) == Lower(def.targetCategory)) &&
      (r.Some? ==>
        var fields := GetIssue(client, LinkedIssue(link).value.key, CategoryFields(catField)).value.fields;
        r.value == Candidate(LinkedIssue(link).value.key, JiraDate(Get(fields, "created")), CategoryValue(fields, catField)))
  {
  }

  /** `lpm_cat`: the configured category of a linked ticket, "" without one. */
  function LinkedCategory(fields: FieldMap, catField: string): Json {
    if catField != "" && HasKey(fields, catField) then ExtractFieldValue(Get(fields, catField), "") else JStr("")
  }

  /** The done-date rule: a linked ticket of the target project, fetched with
      the done-date and category fields, whose done-date field parses. */
  function DoneDateCandidate(client: JiraClient, catField: string, def: SlaDefinition, link: Link)
    : (r: Option<Candidate>)
    ensures r.Some? ==> WellDated(r.value)
  {
    match LinkedIssue(link)
    case None => None
    case Some(ref) =>
      if !StartsWith(ref.key, def.targetProject) then None
      else
        match GetIssue(client, ref.key, DoneDateFields(def.configDoneDateField, catField))
        case Failure(_) => None
        case Success(issue) =>
          var done := JiraDate(Get(issue.fields, def.configDoneDateField));
          if done.Some? then Some(Candidate(ref.key, done, LinkedCategory(issue.fields, catField))) else None
  }

  /** A link qualifies under the done-date rule exactly when it names a
      ticket of the target project, the fetch succeeds and the done-date field
      parses; the candidate carries the linked key, that date and the linked
      category. */
  lemma DoneDateCandidateQualifies(client: JiraClient, catField: string, def: SlaDefinition, link: Link)
    ensures var r := DoneDateCandidate(client, catField, def, link);
      var fetched := if LinkedIssue(link).Some?
                     then GetIssue(client, LinkedIssue(link).value.key, DoneDateFields(def.configDoneDateField, catField))
                     else Failure("");
      (r.Some? <==>
        LinkedIssue(link).Some? && StartsWith(LinkedIssue(link).value.key, def.targetProject) &&
        fetched.Success? && JiraDate(Get(fetched.value.fields, def.configDoneDateField)).Some?) &&
      (r.Some? ==>
        r.value == Candidate(LinkedIssue(link).value.key, JiraDate(Get(fetched.value.fields, def.configDoneDateField)),
                             LinkedCategory(fetched.value.fields, catField)) &&
        r.value.date.Some?)
  {
  }

  function LinkCandidate(rule: Rule, client: JiraClient, catField: string, def: SlaDefinition, link: Link)
    : (r: Option<Candidate>)
    ensures r.Some? ==> WellDated(r.value)
  {
    match rule
    case ByCategory => CategoryCandidate(client, catField, def, link)
    case ByDoneDate => DoneDateCandidate(client, catField, def, link)
  }

  /** The candidates of a link list, in link order. */
  function Candidates(rule: Rule, client: JiraClient, catField: string, def: SlaDefinition, links: seq<Link>)
    : (cs: seq<Candidate>)
    ensures |cs| <= |links|
    ensures forall i :: 0 <= i < |cs| ==> WellDated(cs[i])
  {
    if links == [] then []
    else
      var found := LinkCandidate(rule, client, catField, def, links[|links| - 1]);
      Candidates(rule, client, catField, def, links[..|links| - 1]) + (if found.Some? then [found.value] else [])
  }

  /** Each link contributes on its own: every candidate comes from some link,
      and every link that qualifies contributes its candidate, whatever
      happens with the other links (a failed fetch removes only its own). */
  lemma {:induction false} CandidatesPerLink(rule: Rule, client: JiraClient, catField: string, def: SlaDefinition,
                                             links: seq<Link>)
    ensures var cs := Candidates(rule, client, catField, def, links);
      (forall c :: c in cs ==>
         exists i :: 0 <= i < |links| && LinkCandidate(rule, client, catField, def, links[i]) == Some(c)) &&
      (forall i :: 0 <= i < |links| && LinkCandidate(rule, client, catField, def, links[i]).Some? ==>
         LinkCandidate(rule, client, catField, def, links[i]).value in cs)
  {
    if links != [] {
      var prefix := links[..|links| - 1];
      CandidatesPerLink(rule, client, catField, def, prefix);
      assert forall i :: 0 <= i < |prefix| ==> prefix[i] == links[i];
    }
  }

  // ---------------------------------------------------------------------
  // Choosing the winner

  /** The sort key: the candidate's date, `datetime.min` when it has none. */
  function Rank(c: Candidate): int {
    Instant(c.date.GetOr(MinDateTime))
  }

  /** The head of a stable descending sort by Rank: a candidate of maximal
      rank, before which every candidate ranks strictly lower. */
  function LatestIndex(cs: seq<Candidate>): (i: nat)
    requires cs != []
    ensures i < |cs|
    ensures forall k :: 0 <= k < |cs| ==> Rank(cs[k]) <= Rank(cs[i])
    ensures forall k :: 0 <= k < i ==> Rank(cs[k]) < Rank(cs[i])
  {
    if |cs| == 1 then 0
    else
      var j := LatestIndex(cs[..|cs| - 1]);
      assert forall k :: 0 <= k < |cs| - 1 ==> cs[..|cs| - 1][k] == cs[k];
      if Rank(cs[|cs| - 1]) > Rank(cs[j]) then |cs| - 1 else j
  }

  /** The first maximal index is the only index with those two properties. */
  lemma LatestIndexUnique(cs: seq<Candidate>, i: nat)
    requires i < |cs|
    requires forall k :: 0 <= k < |cs| ==> Rank(cs[k]) <= Rank(cs[i])
    requires forall k :: 0 <= k < i ==> Rank(cs[k]) < Rank(cs[i])
    ensures LatestIndex(cs) == i
  {
    var w := LatestIndex(cs);
    assert Rank(cs[w]) <= Rank(cs[i]) && Rank(cs[i]) <= Rank(cs[w]);
  }

  /** `met` when resolved within the target, `breached` when over it, and
      `in_progress` when unresolved within it. */
  function Classify(resolved: bool, days: int, targetDays: int): (status: string)
    ensures KnownStatus(status)
    ensures status == Met <==> resolved && days <= targetDays
    ensures status == Breached <==> days > targetDays
    ensures status == InProgress <==> !resolved && days <= targetDays
  {
    if resolved then (if days <= targetDays then Met else Breached)
    else if days > targetDays then Breached else InProgress
  }

  // ---------------------------------------------------------------------
  // One ticket

  /** The winning candidate's key, date and category, if any. */
  function Winner(cs: seq<Candidate>): (w: (Option<string>, Option<DateTime>, Json))
    requires forall i :: 0 <= i < |cs| ==> WellDated(cs[i])
    ensures w.1.Some? ==> Valid(w.1.value)
  {
    if cs == [] then (None, None, JStr(""))
    else
      var w := cs[LatestIndex(cs)];
      assert WellDated(w);
      (Some(w.key), w.date, w.category)
  }

  /** Position k holds a candidate of maximal rank, and every candidate
      before it ranks strictly lower. */
  predicate FirstLatest(cs: seq<Candidate>, k: int) {
    0 <= k < |cs| &&
    (forall j :: 0 <= j < |cs| ==> Rank(cs[j]) <= Rank(cs[k])) &&
    (forall j :: 0 <= j < k ==> Rank(cs[j]) < Rank(cs[k]))
  }

  /** The winner is the latest candidate, the first listed among equals;
      without candidates there is no target, date or linked category. */
  lemma WinnerIsLatest(cs: seq<Candidate>)
    requires forall i :: 0 <= i < |cs| ==> WellDated(cs[i])
    ensures cs == [] ==> Winner(cs) == (None, None, JStr(""))
    ensures cs != [] ==> exists k :: (FirstLatest(cs, k) &&
              Winner(cs) == (Some(cs[k].key), cs[k].date, cs[k].category))
  {
    if cs != [] {
      var k := LatestIndex(cs);
      assert FirstLatest(cs, k);
      assert Winner(cs) == (Some(cs[k].key), cs[k].date, cs[k].category);
    }
  }

  /** The result recorded for a source ticket, given its created date and
      the winning candidate (key, date, linked category). */
  function Conclude(ticket: Issue, created: DateTime, winner: (Option<string>, Option<DateTime>, Json),
                    def: SlaDefinition, now: DateTime): (r: SlaResult)
    requires Valid(created) && Valid(now)
    requires winner.1.Some? ==> Valid(winner.1.value)
    ensures KnownStatus(r.status)
  {
    var (target, resolved, lpm) := winner;
    var days := if resolved.Some? then BusinessDays(created, resolved.value) else BusinessDaysElapsed(created, now);
    var status := Classify(Present(target) && resolved.Some?, days, def.targetDays);
    SlaResult(ticket.key, target, created, resolved, days, def.targetDays, status,
              ExtractFieldValue(Get(ticket.fields, SourceOfIdFieldId), ""),
              ExtractFieldValue(Get(ticket.fields, CategoryFieldId), ""),
              lpm, None)
  }

  /** Business days run to the resolved date, or to now without one; the
      status is met only with both a target ticket and a resolved date within
      the target, breached over it, in progress otherwise. */
  lemma ConcludeRecords(ticket: Issue, created: DateTime, winner: (Option<string>, Option<DateTime>, Json),
                        def: SlaDefinition, now: DateTime)
    requires Valid(created) && Valid(now)
    requires winner.1.Some? ==> Valid(winner.1.value)
    ensures var r := Conclude(ticket, created, winner, def, now);
      r.sourceTicket == ticket.key && r.createdDate == created && r.targetDays == def.targetDays &&
      r.targetTicket == winner.0 && r.resolvedDate == winner.1 && r.lpmCategory == winner.2 &&
      (winner.1.Some? ==> r.daysElapsed == BusinessDays(created, winner.1.value)) &&
      (winner.1.None? ==> r.daysElapsed == BusinessDaysElapsed(created, now)) &&
      (r.IsMet() <==> Present(winner.0) && winner.1.Some? && r.daysElapsed <= def.targetDays) &&
      (r.IsBreached() <==> r.daysElapsed > def.targetDays) &&
      (r.IsInProgress() <==> !(Present(winner.0) && winner.1.Some?) && r.daysElapsed <= def.targetDays) &&
      r.sourceOfIdentification == ExtractFieldValue(Get(ticket.fields, SourceOfIdFieldId), "") &&
      r.categoryMigrated == ExtractFieldValue(Get(ticket.fields, CategoryFieldId), "") &&
      r.elapsedTimeStr.None?
  {
  }

  /** `_evaluate_ticket` (ByCategory) and `_evaluate_ticket_resolution`
      (ByDoneDate). */
  function Evaluate(rule: Rule, client: JiraClient, ids: map<string, string>, def: SlaDefinition,
                    ticket: Issue, now: DateTime): (r: SlaResult)
    requires Valid(now)
    ensures KnownStatus(r.status)
  {
    var cs := Candidates(rule, client, FieldId(ids, "category"), def, ticket.links.GetOr([]));
    Conclude(ticket, CreatedDate(ticket.fields, now), Winner(cs), def, now)
  }

  /** What a ByCategory or ByDoneDate result `r` records about the
      qualifying candidates `cs` of its source ticket: without candidates no
      target and no resolved date, and days up to now; otherwise the key, date
      and category of the first latest candidate, and days up to its date
      (or up to now when it has none). The status follows the classification. */
  ghost predicate RecordsWinner(r: SlaResult, ticket: Issue, cs: seq<Candidate>, created: DateTime, def: SlaDefinition,
                          now: DateTime)
    requires Valid(created) && Valid(now)
    requires forall i :: 0 <= i < |cs| ==> WellDated(cs[i])
  {
    r.sourceTicket == ticket.key && r.createdDate == created && r.targetDays == def.targetDays &&
    (cs == [] ==> r.targetTicket.None? && r.resolvedDate.None? &&
                  r.daysElapsed == BusinessDaysElapsed(created, now)) &&
    (cs != [] ==> exists k :: FirstLatest(cs, k) && r.targetTicket == Some(cs[k].key) &&
                              r.resolvedDate == cs[k].date && r.lpmCategory == cs[k].category &&
                              WellDated(cs[k]) &&
                              r.daysElapsed == (if cs[k].date.Some? then BusinessDays(created, cs[k].date.value)
                                                else BusinessDaysElapsed(created, now))) &&
    (r.IsMet() <==> Present(r.targetTicket) && r.resolvedDate.Some? && r.daysElapsed <= def.targetDays) &&
    (r.IsBreached() <==> r.daysElapsed > def.targetDays) &&
    (r.IsInProgress() <==> !(Present(r.targetTicket) && r.resolvedDate.Some?) && r.daysElapsed <= def.targetDays)
  }

  /** Concluding on the winner of any well-dated candidates records them. */
  lemma ConcludeWinner(ticket: Issue, cs: seq<Candidate>, created: DateTime, def: SlaDefinition, now: DateTime)
    requires Valid(created) && Valid(now)
    requires forall i :: 0 <= i < |cs| ==> WellDated(cs[i])
    ensures RecordsWinner(Conclude(ticket, created, Winner(cs), def, now), ticket, cs, created, def, now)
  {
    WinnerIsLatest(cs);
    ConcludeRecords(ticket, created, Winner(cs), def, now);
  }

  /** What one source ticket's result records about its qualifying linked
      tickets. */
  lemma EvaluateRecords(rule: Rule, client: JiraClient, ids: map<string, string>, def: SlaDefinition,
                        ticket: Issue, now: DateTime)
    requires Valid(now)
    ensures RecordsWinner(Evaluate(rule, client, ids, def, ticket, now), ticket,
                          Candidates(rule, client, FieldId(ids, "category"), def, ticket.links.GetOr([])),
                          CreatedDate(ticket.fields, now), def, now)
  {
    var cs := Candidates(rule, client, FieldId(ids, "category"), def, ticket.links.GetOr([]));
    ConcludeWinner(ticket, cs, CreatedDate(ticket.fields, now), def, now);
  }

  /** A result stays in the summary unless it has no target ticket and the
      source ticket is closed, resolved or canceled. */
  predicate Keep(r: SlaResult, ticket: Issue) {
    Present(r.targetTicket) || !ExcludedStatus(Lower(StatusName(ticket.fields)))
  }

  /** The evaluation of every source ticket, in search order. */
  function Evaluations(rule: Rule, client: JiraClient, ids: map<string, string>, def: SlaDefinition,
                       tickets: seq<Issue>, now: DateTime): (rs: seq<SlaResult>)
    requires Valid(now)
  {
    seq(|tickets|, i requires 0 <= i < |tickets| => Evaluate(rule, client, ids, def, tickets[i], now))
  }

  /** The results whose flag is set, in order. */
  function Filter(rs: seq<SlaResult>, keep: seq<bool>): (out: seq<SlaResult>)
    requires |rs| == |keep|
    ensures |out| <= |rs|
  {
    if rs == [] then []
    else
      var n := |rs| - 1;
      Filter(rs[..n], keep[..n]) + (if keep[n] then [rs[n]] else [])
  }

  /** Every result of the filter is at a flagged position. */
  lemma {:induction false} FilterSound(rs: seq<SlaResult>, keep: seq<bool>)
    requires |rs| == |keep|
    ensures forall r :: r in Filter(rs, keep) ==> exists i :: 0 <= i < |rs| && r == rs[i] && keep[i]
  {
    if rs != [] {
      var n := |rs| - 1;
      FilterSound(rs[..n], keep[..n]);
      assert forall i :: 0 <= i < n ==> rs[..n][i] == rs[i] && keep[..n][i] == keep[i];
    }
  }

  /** Every flagged result is in the filter. */
  lemma {:induction false} FilterComplete(rs: seq<SlaResult>, keep: seq<bool>)
    requires |rs| == |keep|
    ensures forall i :: 0 <= i < |rs| && keep[i] ==> rs[i] in Filter(rs, keep)
  {
    if rs != [] {
      var n := |rs| - 1;
      FilterComplete(rs[..n], keep[..n]);
      assert forall i :: 0 <= i < n ==> rs[..n][i] == rs[i] && keep[..n][i] == keep[i];
    }
  }

  /** Whether Keep admits each result for its ticket. */
  function KeepFlags(rs: seq<SlaResult>, tickets: seq<Issue>): (keep: seq<bool>)
    requires |rs| == |tickets|
    ensures |keep| == |rs|
  {
    seq(|rs|, i requires 0 <= i < |rs| => Keep(rs[i], tickets[i]))
  }

  /** The results that Keep admits for their tickets, in order. */
  function KeepResults(rs: seq<SlaResult>, tickets: seq<Issue>): (out: seq<SlaResult>)
    requires |rs| == |tickets|
    ensures |out| <= |rs|
  {
    Filter(rs, KeepFlags(rs, tickets))
  }

  /** A result is dropped exactly when Keep fails for its ticket: every kept
      result is admitted at some position, and every admitted one is kept. */
  lemma KeepResultsExactly(rs: seq<SlaResult>, tickets: seq<Issue>)
    requires |rs| == |tickets|
    ensures forall r :: r in KeepResults(rs, tickets) ==>
              exists i :: 0 <= i < |rs| && r == rs[i] && Keep(rs[i], tickets[i])
    ensures forall i :: 0 <= i < |rs| && Keep(rs[i], tickets[i]) ==> rs[i] in KeepResults(rs, tickets)
  {
    var keep := KeepFlags(rs, tickets);
    FilterSound(rs, keep);
    FilterComplete(rs, keep);
  }

  /** The kept results of the linked-ticket SLAs, in search order. */
  function LinkedResults(rule: Rule, client: JiraClient, ids: map<string, string>, def: SlaDefinition,
                         tickets: seq<Issue>, now: DateTime): (rs: seq<SlaResult>)
    requires Valid(now)
    ensures |rs| <= |tickets|
  {
    KeepResults(Evaluations(rule, client, ids, def, tickets, now), tickets)
  }

  /** Evaluating one more ticket extends the kept results by its result,
      when Keep admits it, and by nothing otherwise. */
  lemma LinkedResultsStep(rule: Rule, client: JiraClient, ids: map<string, string>, def: SlaDefinition,
                          tickets: seq<Issue>, now: DateTime, i: nat)
    requires Valid(now) && i < |tickets|
    ensures var r := Evaluate(rule, client, ids, def, tickets[i], now);
      LinkedResults(rule, client, ids, def, tickets[..i + 1], now) ==
      LinkedResults(rule, client, ids, def, tickets[..i], now) + (if Keep(r, tickets[i]) then [r] else [])
  {
    var ts := tickets[..i + 1];
    var es := Evaluations(rule, client, ids, def, ts, now);
    assert ts[..i] == tickets[..i];
    assert es[..i] == Evaluations(rule, client, ids, def, tickets[..i], now);
    assert KeepFlags(es, ts)[..i] == KeepFlags(es[..i], ts[..i]);
  }

  /** Counts partition the total of any list whose statuses are all known. */
  lemma KnownStatusesPartition(rs: seq<SlaResult>, tickets: seq<Issue>)
    requires |rs| == |tickets|
    requires forall i :: 0 <= i < |rs| ==> KnownStatus(rs[i].status)
    ensures var out := KeepResults(rs, tickets);
      CountStatus(out, Met) + CountStatus(out, Breached) + CountStatus(out, InProgress) == |out|
  {
    var out := KeepResults(rs, tickets);
    KeepResultsExactly(rs, tickets);
    forall i | 0 <= i < |out|
      ensures KnownStatus(out[i].status)
    {
      assert out[i] in out;
    }
    CountsPartitionTotal(out);
  }

  /** Every linked-ticket result carries one of the three statuses, so the
      summary's counts partition its total. */
  lemma LinkedResultsPartition(rule: Rule, client: JiraClient, ids: map<string, string>, def: SlaDefinition,
                               tickets: seq<Issue>, now: DateTime)
    requires Valid(now)
    ensures var rs := LinkedResults(rule, client, ids, def, tickets, now);
      CountStatus(rs, Met) + CountStatus(rs, Breached) + CountStatus(rs, InProgress) == |rs|
  {
    var es := Evaluations(rule, client, ids, def, tickets, now);
    forall i | 0 <= i < |es|
      ensures KnownStatus(es[i].status)
    {
    }
    KnownStatusesPartition(es, tickets);
  }

  // ---------------------------------------------------------------------
  // First response

  /** A public comment by an internal user: account type "atlassian", and
      `jsdPublic` truthy when present, otherwise no truthy `visibility`. */
  predicate IsPublicInternal(c: Comment) {
    c.accountType == "atlassian" && (if c.jsdPublic != JNull then Truthy(c.jsdPublic) else !Truthy(c.visibility))
  }

  /** The date a comment contributes, if it counts and its date parses. */
  function ResponseDate(c: Comment): (d: Option<DateTime>)
    ensures d.Some? ==> Valid(d.value)
  {
    if IsPublicInternal(c) then JiraDate(c.created) else None
  }

  /** The contributed dates of a comment list, position by position. */
  function ResponseDates(comments: seq<Comment>): (ds: seq<Option<DateTime>>)
    ensures |ds| == |comments|
    ensures forall i :: 0 <= i < |comments| ==> ds[i] == ResponseDate(comments[i])
  {
    seq(|comments|, i requires 0 <= i < |comments| => ResponseDate(comments[i]))
  }

  /** The earliest of the present dates, keeping the first listed among
      equal dates: a later date replaces it only when strictly earlier. */
  function Earliest(ds: seq<Option<DateTime>>): (r: Option<DateTime>)
    ensures r.Some? ==> r in ds
  {
    if ds == [] then None
    else
      var best := Earliest(ds[..|ds| - 1]);
      var d := ds[|ds| - 1];
      assert best.Some? ==> best in ds[..|ds| - 1];
      if d.Some? && (best.None? || Before(d.value, best.value)) then d else best
  }

  /** Position k holds d, no present date is earlier than d, and every
      present date before position k is later than d. */
  predicate FirstEarliest(ds: seq<Option<DateTime>>, k: int, d: DateTime) {
    0 <= k < |ds| && ds[k] == Some(d) &&
    (forall j :: 0 <= j < |ds| && ds[j].Some? ==> !Before(ds[j].value, d)) &&
    (forall j :: 0 <= j < k && ds[j].Some? ==> Before(d, ds[j].value))
  }

  /** Earliest is None exactly when no date is present, and otherwise the
      earliest date, at the first position that has it. */
  lemma {:induction false} EarliestIsFirstEarliest(ds: seq<Option<DateTime>>)
    ensures Earliest(ds).None? <==> forall i :: 0 <= i < |ds| ==> ds[i].None?
    ensures Earliest(ds).Some? ==> exists k :: FirstEarliest(ds, k, Earliest(ds).value)
  {
    if ds != [] {
      var n := |ds| - 1;
      var prefix := ds[..n];
      EarliestIsFirstEarliest(prefix);
      var best := Earliest(prefix);
      var d := ds[n];
      if d.Some? && (best.None? || Before(d.value, best.value)) {
        forall j | 0 <= j < n && ds[j].Some?
          ensures Before(d.value, ds[j].value)
        {
          assert prefix[j] == ds[j];
          var k :| FirstEarliest(prefix, k, best.value);
          assert !Before(prefix[j].value, best.value);
        }
        assert FirstEarliest(ds, n, d.value);
      } else if best.Some? {
        var k :| FirstEarliest(prefix, k, best.value);
        assert forall i :: 0 <= i < n ==> prefix[i] == ds[i];
        assert FirstEarliest(ds, k, best.value);
      } else {
        assert forall i :: 0 <= i < n ==> prefix[i] == ds[i];
      }
    }
  }

  /** One more date replaces the earliest so far only when it is present and
      strictly earlier. */
  lemma EarliestStep(ds: seq<Option<DateTime>>, i: nat)
    requires i < |ds|
    ensures var best := Earliest(ds[..i]);
      Earliest(ds[..i + 1]) == if ds[i].Some? && (best.None? || Before(ds[i].value, best.value)) then ds[i] else best
  {
    assert ds[..i + 1][..i] == ds[..i];
  }

  /** `first_response_date`: the earliest date contributed by a public
      internal comment. */
  function FirstResponseDate(comments: seq<Comment>): (r: Option<DateTime>)
    ensures r.Some? ==> Valid(r.value)
  {
    var ds := ResponseDates(comments);
    var r := Earliest(ds);
    assert r.Some? ==> exists i :: 0 <= i < |ds| && ds[i] == r;
    r
  }

  /** The first-response result of a source ticket, given its created date
      and its first response: business days and elapsed text up to the
      response, or up to now without one. */
  function Respond(ticket: Issue, created: DateTime, first: Option<DateTime>, def: SlaDefinition, now: DateTime)
    : (r: SlaResult)
    requires Valid(created) && Valid(now)
    requires first.Some? ==> Valid(first.value)
    ensures KnownStatus(r.status)
  {
    var days := if first.Some? then BusinessDays(created, first.value) else BusinessDaysElapsed(created, now);
    var elapsed := FormatElapsed(created, first.GetOr(now));
    var status := Classify(first.Some?, days, def.targetDays);
    SlaResult(ticket.key, None, created, first, days, def.targetDays, status,
              ExtractFieldValue(Get(ticket.fields, SourceOfIdFieldId), ""),
              ExtractFieldValue(Get(ticket.fields, CategoryFieldId), ""),
              JStr(""), Some(elapsed))
  }

  /** The comments of a ticket; a failed fetch counts as no comments. */
  function CommentsOf(client: JiraClient, key: string): (cs: seq<Comment>)
    ensures key in client.server.comments ==> cs == client.server.comments[key]
    ensures key !in client.server.comments ==> cs == []
  {
    match GetIssueComments(client, key)
    case Success(cs) => cs
    case Failure(_) => []
  }

  /** The first-response result of one source ticket. */
  function FirstResponse(client: JiraClient, def: SlaDefinition, ticket: Issue, now: DateTime): (r: SlaResult)
    requires Valid(now)
    ensures KnownStatus(r.status)
  {
    Respond(ticket, CreatedDate(ticket.fields, now), FirstResponseDate(CommentsOf(client, ticket.key)), def, now)
  }

  /** What a first-response result records: no target ticket; the first
      response over the fetched comments (none when the fetch fails) as the
      resolved date; business days and elapsed text up to it, or up to now
      without one; the status of that count against the target. */
  lemma FirstResponseRecords(client: JiraClient, def: SlaDefinition, ticket: Issue, now: DateTime)
    requires Valid(now)
    ensures var r := FirstResponse(client, def, ticket, now);
      var comments := GetIssueComments(client, ticket.key);
      r.sourceTicket == ticket.key && r.targetTicket.None? && r.targetDays == def.targetDays &&
      r.createdDate == CreatedDate(ticket.fields, now) &&
      r.resolvedDate == (if comments.Success? then FirstResponseDate(comments.value) else None) &&
      (r.resolvedDate.Some? ==> Valid(r.resolvedDate.value) &&
                                r.daysElapsed == BusinessDays(r.createdDate, r.resolvedDate.value)) &&
      (r.resolvedDate.None? ==> r.daysElapsed == BusinessDaysElapsed(r.createdDate, now)) &&
      r.status == Classify(r.resolvedDate.Some?, r.daysElapsed, def.targetDays) &&
      r.elapsedTimeStr == Some(FormatElapsed(r.createdDate, r.resolvedDate.GetOr(now))) &&
      r.sourceOfIdentification == ExtractFieldValue(Get(ticket.fields, SourceOfIdFieldId), "") &&
      r.categoryMigrated == ExtractFieldValue(Get(ticket.fields, CategoryFieldId), "") &&
      r.lpmCategory == JStr("")
  {
  }

  /** The first-response results, in search order. */
  function FirstResponseResults(client: JiraClient, def: SlaDefinition, tickets: seq<Issue>, now: DateTime)
    : (rs: seq<SlaResult>)
    requires Valid(now)
  {
    if tickets == [] then []
    else
      var n := |tickets| - 1;
      FirstResponseResults(client, def, tickets[..n], now) + [FirstResponse(client, def, tickets[n], now)]
  }

  /** Exactly one result per source ticket: nothing is dropped. */
  lemma {:induction false} FirstResponseResultsLength(client: JiraClient, def: SlaDefinition, tickets: seq<Issue>,
                                                      now: DateTime)
    requires Valid(now)
    ensures |FirstResponseResults(client, def, tickets, now)| == |tickets|
  {
    if tickets != [] {
      FirstResponseResultsLength(client, def, tickets[..|tickets| - 1], now);
    }
  }

  /** The i-th first-response result is that of the i-th source ticket. */
  lemma {:induction false} FirstResponseResultsAt(client: JiraClient, def: SlaDefinition, tickets: seq<Issue>,
                                                  now: DateTime)
    requires Valid(now)
    ensures |FirstResponseResults(client, def, tickets, now)| == |tickets|
    ensures forall i :: 0 <= i < |tickets| ==>
              FirstResponseResults(client, def, tickets, now)[i] == FirstResponse(client, def, tickets[i], now)
  {
    if tickets != [] {
      var n := |tickets| - 1;
      var prefix := tickets[..n];
      FirstResponseResultsAt(client, def, prefix, now);
      var rs := FirstResponseResults(client, def, prefix, now);
      var last := FirstResponse(client, def, tickets[n], now);
      assert FirstResponseResults(client, def, tickets, now) == rs + [last];
      forall i | 0 <= i < |tickets|
        ensures (rs + [last])[i] == FirstResponse(client, def, tickets[i], now)
      {
        if i < n {
          assert prefix[i] == tickets[i];
          assert (rs + [last])[i] == rs[i];
        } else {
          assert i == n;
          assert (rs + [last])[i] == last;
        }
      }
    }
  }

  /** One more ticket adds its first-response result at the end. */
  lemma FirstResponseResultsStep(client: JiraClient, def: SlaDefinition, tickets: seq<Issue>, now: DateTime, i: nat)
    requires Valid(now) && i < |tickets|
    ensures FirstResponseResults(client, def, tickets[..i + 1], now) ==
            FirstResponseResults(client, def, tickets[..i], now) + [FirstResponse(client, def, tickets[i], now)]
  {
    var ts := tickets[..i + 1];
    assert ts[..i] == tickets[..i] && ts[i] == tickets[i];
  }

  // ---------------------------------------------------------------------
  // Whole checks

  /** The source tickets of one check; a failed page fails the check. */
  function SourceTickets(client: JiraClient, ids: map<string, string>, def: SlaDefinition,
                         dateFrom: Option<string>, dateTo: Option<string>, withLinks: bool): Result<seq<Issue>>
  {
    Accumulate(client.server.search, SourceJql(def, DateFilter(dateFrom, dateTo)),
               FieldsParam(SourceFields(ids, withLinks)), PageSize, 0)
  }

  // ---------------------------------------------------------------------
  // Worked cases

  /** The later of two candidates wins; between equal dates the first listed
      wins. */
  lemma LatestCandidateExamples()
    ensures var a := Candidate("LPM-1", Some(DateTime(2024, 1, 10, 0, 0, 0, 0)), JStr("break fix"));
            var b := Candidate("LPM-2", Some(DateTime(2024, 1, 15, 0, 0, 0, 0)), JStr("break fix"));
            LatestIndex([a, b]) == 1 && LatestIndex([b, a]) == 0 && LatestIndex([a, a.(key := "LPM-3")]) == 0
  {
    assert DaysFromCivil(2024, 1, 10) == 19732;
    assert DaysFromCivil(2024, 1, 15) == 19737;
  }

  /** A ticket whose status name is "Closed" has an excluded status. */
  lemma ClosedIsExcluded(fields: FieldMap)
    requires Get(fields, "status") == JDict([("name", JStr("Closed"))])
    ensures ExcludedStatus(Lower(StatusName(fields)))
  {
    var name := JStr("Closed");
    assert Get([("name", name)], "name") == name;
    assert Lower("Closed") == "closed";
  }

  /** A source ticket with no qualifying link whose own status is "Closed"
      is dropped from the summary. */
  lemma ExclusionScenario(rule: Rule, client: JiraClient, ids: map<string, string>, def: SlaDefinition,
                          ticket: Issue, now: DateTime)
    requires Valid(now)
    requires Candidates(rule, client, FieldId(ids, "category"), def, ticket.links.GetOr([])) == []
    requires Get(ticket.fields, "status") == JDict([("name", JStr("Closed"))])
    ensures LinkedResults(rule, client, ids, def, [ticket], now) == []
  {
    var r := Evaluate(rule, client, ids, def, ticket, now);
    assert Winner([]) == (None, None, JStr(""));
    assert r.targetTicket.None?;
    ClosedIsExcluded(ticket.fields);
    assert !Keep(r, ticket);
    DroppedAlone(Evaluations(rule, client, ids, def, [ticket], now), [ticket]);
  }

  /** A single result that is not kept leaves nothing. */
  lemma DroppedAlone(rs: seq<SlaResult>, tickets: seq<Issue>)
    requires |rs| == |tickets| == 1 && !Keep(rs[0], tickets[0])
    ensures KeepResults(rs, tickets) == []
  {
    var keep := KeepFlags(rs, tickets);
    assert keep[..0] == [] && rs[..0] == [];
  }

  /** A resolved ticket over its target is breached; an unresolved one within
      it is in progress; a resolved one within it is met. */
  lemma ClassifyExamples()
    ensures Classify(true, 35, 30) == Breached
    ensures Classify(false, 10, 30) == InProgress
    ensures Classify(false, 31, 30) == Breached
    ensures Classify(true, 30, 30) == Met
  {
  }

  lemma DateFilterExamples()
    ensures DateFilter(None, None) == ""
    ensures DateFilter(Some(""), Some("")) == ""
    ensures DateFilter(Some("2024-01-01"), None) == " AND created >= \"2024-01-01\""
  {
  }

  /** The shipped identification check queries the ACS tickets of the BCBSLA
      health plan; with no dates given nothing else is added. */
  lemma ShippedIdentificationQuery()
    ensures SourceJql(IdentificationConfig, DateFilter(None, None)) ==
              "project = ACS AND \"Health plan (migrated)\" = \"BCBSLA\""
  {
    var q := SourceJql(IdentificationConfig, "");
    assert q == q[..|q|];
    ShippedClauseText();
  }

  /** The shipped resolution check queries the same tickets as the
      identification check; a start date appends the creation bound. */
  lemma ShippedResolutionQuery()
    ensures SourceJql(ResolutionConfig, DateFilter(Some("2024-01-01"), None)) ==
              SourceJql(IdentificationConfig, DateFilter(None, None)) + " AND created >= \"2024-01-01\""
  {
    var f := DateFilter(Some("2024-01-01"), None);
    var q := SourceJql(ResolutionConfig, f);
    var p := SourceJql(IdentificationConfig, "");
    assert p == p[..|p|];
    ShippedBoundText();
    assert q == q[..|q| - |f|] + q[|q| - |f|..];
  }

  /** The health-plan clause of the shipped checks, assembled piece by piece. */
  lemma ShippedClauseText()
    ensures "project = " + "ACS" + " AND \"" + "Health plan (migrated)" + "\" = \"" + "BCBSLA" + "\"" ==
            "project = ACS AND \"Health plan (migrated)\" = \"BCBSLA\""
  {
    assert "project = " + "ACS" + " AND \"" == "project = ACS AND \"";
    assert "project = ACS AND \"" + "Health plan (migrated)" == "project = ACS AND \"Health plan (migrated)";
    ShippedClauseTail();
  }

  lemma ShippedClauseTail()
    ensures "project = ACS AND \"Health plan (migrated)" + "\" = \"" + "BCBSLA" + "\"" ==
            "project = ACS AND \"Health plan (migrated)\" = \"BCBSLA\""
  {
    assert "\" = \"" + "BCBSLA" + "\"" == "\" = \"BCBSLA\"";
  }

  /** The creation bound from 2024-01-01. */
  lemma ShippedBoundText()
    ensures DateFilter(Some("2024-01-01"), None) == " AND created >= \"2024-01-01\""
  {
    assert "created >= \"" + "2024-01-01" + "\"" == "created >= \"2024-01-01\"";
  }

  /** With the default field ids and links requested, the checks ask for
      these eight fields. */
  lemma ShippedFields()
    ensures SourceFields(DefaultFieldIds, true) ==
              ["key", "created", "summary", "status", "issuelinks",
               "customfield_10151", "customfield_10358", "customfield_10356"]
  {
  }
}
