/** `SLAChecker`: the three SLA checks over a tracker client. Each routine
    works step by step as the checker does and is proved to compute the
    corresponding rule of the Evaluation module. */
module Checker {
  import opened Values
  import opened Calendar
  import opened DateParse
  import opened Fields
  import opened Results
  import opened Jira
  import opened Evaluation

  /** The head of the stable descending sort of the candidates by date: the
      first candidate of maximal rank. */
  method SelectLatest(cs: seq<Candidate>) returns (best: nat)
    requires cs != []
    ensures best < |cs|
    ensures forall k :: 0 <= k < |cs| ==> Rank(cs[k]) <= Rank(cs[best])
    ensures forall k :: 0 <= k < best ==> Rank(cs[k]) < Rank(cs[best])
    ensures best == LatestIndex(cs)
  {
    best := 0;
    var i := 1;
    while i < |cs|
      invariant 1 <= i <= |cs|
      invariant best < i
      invariant forall k :: 0 <= k < i ==> Rank(cs[k]) <= Rank(cs[best])
      invariant forall k :: 0 <= k < best ==> Rank(cs[k]) < Rank(cs[best])
    {
      if Rank(cs[i]) > Rank(cs[best]) {
        best := i;
      }
      i := i + 1;
    }
    LatestIndexUnique(cs, best);
  }

  /** The category value of a linked ticket: the configured field when the
      ticket has it, then every category-like field while the value is falsy. */
  method ReadCategory(fields: FieldMap, catField: string) returns (value: Json)
    ensures value == CategoryValue(fields, catField)
  {
    value := JStr("");
    if catField != "" && HasKey(fields, catField) {
      value := ExtractFieldValue(Get(fields, catField), "Unknown");
    }
    ghost var initial := value;
    var i := 0;
    while i < |fields|
      invariant 0 <= i <= |fields|
      invariant ScanCategory(fields, initial) == ScanCategory(fields[i..], value)
    {
      var (key, v) := fields[i];
      if Contains(Lower(key), "category") && !Truthy(value) {
        value := ExtractFieldValue(v, "Unknown");
      }
      assert fields[i..][1..] == fields[i + 1..];
      i := i + 1;
    }
  }

  /** The date one comment contributes: parsed only for a public comment by
      an internal user. */
  method ResponseDateOf(c: Comment) returns (d: Option<DateTime>)
    ensures d == ResponseDate(c)
    ensures d.Some? <==> IsPublicInternal(c) && JiraDate(c.created).Some?
  {
    d := None;
    if c.accountType == "atlassian" {
      var public := if c.jsdPublic != JNull then Truthy(c.jsdPublic) else !Truthy(c.visibility);
      if public {
        d := ParseJiraDate(c.created);
      }
    }
  }

  /** The earliest date of a public internal comment, keeping the first
      listed among equal dates. */
  method FirstResponseOf(comments: seq<Comment>) returns (first: Option<DateTime>)
    ensures first == FirstResponseDate(comments)
  {
    ghost var ds := ResponseDates(comments);
    first := None;
    var i := 0;
    while i < |comments|
      invariant 0 <= i <= |comments|
      invariant first == Earliest(ds[..i])
    {
      var d := ResponseDateOf(comments[i]);
      assert d == ds[i];
      EarliestStep(ds, i);
      if d.Some? && (first.None? || Before(d.value, first.value)) {
        first := d;
      }
      i := i + 1;
    }
    assert ds[..|comments|] == ds;
  }

  class SlaChecker {
    const jira: JiraClient
    const dateFrom: Option<string>
    const dateTo: Option<string>
    var fieldIds: map<string, string>

    /** Starts from a copy of the default field-id mapping. */
    constructor (jira: JiraClient, dateFrom: Option<string>, dateTo: Option<string>)
      ensures this.jira == jira && this.dateFrom == dateFrom && this.dateTo == dateTo
      ensures fieldIds == DefaultFieldIds
    {
      this.jira := jira;
      this.dateFrom := dateFrom;
      this.dateTo := dateTo;
      fieldIds := DefaultFieldIds;
    }

    /** `set_field_id`: overrides one entry and keeps the others. */
    method SetFieldId(name: string, id: string)
      modifies this
      ensures fieldIds == old(fieldIds)[name := id]
    {
      fieldIds := fieldIds[name := id];
    }

    /** `_date_filter_jql`, building the list of clauses. */
    method DateFilterJql() returns (r: string)
      ensures r == DateFilter(dateFrom, dateTo)
    {
      var parts: seq<string> := [];
      if Present(dateFrom) {
        parts := parts + [FromClause(dateFrom.value)];
      }
      if Present(dateTo) {
        parts := parts + [ToClause(dateTo.value)];
      }
      r := if parts != [] then " AND " + Join(" AND ", parts) else "";
    }

    /** The category rule for one link of `_evaluate_ticket`. */
    method CategoryCandidateOf(def: SlaDefinition, link: Link) returns (r: Option<Candidate>)
      ensures r == CategoryCandidate(jira, FieldId(fieldIds, "category"), def, link)
    {
      var linked := if link.outward.Some? then link.outward else link.inward;
      if linked.None? {
        return None;
      }
      var key := linked.value.key;
      if !StartsWith(key, def.targetProject) {
        return None;
      }
      var catField := FieldId(fieldIds, "category");
      var fetched := GetIssue(jira, key, if catField != "" then ["key", "created", catField] else ["key", "created"]);
      if fetched.Failure? {
        return None;
      }
      var value := ReadCategory(fetched.value.fields, catField);
      if value.JStr? && Lower(value.s) == Lower(def.targetCategory) {
        var created := ParseJiraDate(Get(fetched.value.fields, "created"));
        return Some(Candidate(key, created, value));
      }
      return None;
    }

    /** The done-date rule for one link of `_evaluate_ticket_resolution`. */
    method DoneDateCandidateOf(def: SlaDefinition, link: Link) returns (r: Option<Candidate>)
      ensures r == DoneDateCandidate(jira, FieldId(fieldIds, "category"), def, link)
    {
      var linked := if link.outward.Some? then link.outward else link.inward;
      if linked.None? {
        return None;
      }
      var key := linked.value.key;
      if !StartsWith(key, def.targetProject) {
        return None;
      }
      var catField := FieldId(fieldIds, "category");
      var doneField := def.configDoneDateField;
      var linkedFields := ["key", "created"];
      if doneField != "" {
        linkedFields := linkedFields + [doneField];
      }
      if catField != "" {
        linkedFields := linkedFields + [catField];
      }
      assert linkedFields == DoneDateFields(doneField, catField);
      var fetched := GetIssue(jira, key, linkedFields);
      if fetched.Failure? {
        return None;
      }
      var done := ParseJiraDate(Get(fetched.value.fields, doneField));
      var lpmCategory := JStr("");
      if catField != "" && HasKey(fetched.value.fields, catField) {
        lpmCategory := ExtractFieldValue(Get(fetched.value.fields, catField), "");
      }
      if done.Some? {
        return Some(Candidate(key, done, lpmCategory));
      }
      return None;
    }

    /** The candidates of a link list, appended in link order. */
    method CollectCandidates(rule: Rule, def: SlaDefinition, links: seq<Link>) returns (cs: seq<Candidate>)
      ensures cs == Candidates(rule, jira, FieldId(fieldIds, "category"), def, links)
    {
      cs := [];
      var i := 0;
      while i < |links|
        invariant 0 <= i <= |links|
        invariant cs == Candidates(rule, jira, FieldId(fieldIds, "category"), def, links[..i])
      {
        var found;
        if rule == ByCategory {
          found := CategoryCandidateOf(def, links[i]);
        } else {
          found := DoneDateCandidateOf(def, links[i]);
        }
        if found.Some? {
          cs := cs + [found.value];
        }
        assert links[..i + 1][..i] == links[..i];
        i := i + 1;
      }
      assert links[..|links|] == links;
    }

    /** The body shared by both evaluators: collect, pick the latest, then
      conclude. */
    method EvaluateBy(rule: Rule, def: SlaDefinition, ticket: Issue, now: DateTime) returns (r: SlaResult)
      requires Valid(now)
      ensures r == Evaluate(rule, jira, fieldIds, def, ticket, now)
    {
      var parsed := ParseJiraDate(Get(ticket.fields, "created"));
      var created := if parsed.Some? then parsed.value else now;
      var cs := CollectCandidates(rule, def, ticket.links.GetOr([]));
      var target: Option<string> := None;
      var resolved: Option<DateTime> := None;
      var lpmCategory := JStr("");
      if cs != [] {
        var k := SelectLatest(cs);
        target, resolved, lpmCategory := Some(cs[k].key), cs[k].date, cs[k].category;
        assert WellDated(cs[k]);
      }
      assert (target, resolved, lpmCategory) == Winner(cs);
      r := ConcludeWith(def, ticket, created, (target, resolved, lpmCategory), now);
    }

    /** Business days to the resolved date or to now, the status, and the
      record of one linked-ticket result. */
    method ConcludeWith(def: SlaDefinition, ticket: Issue, created: DateTime,
                        winner: (Option<string>, Option<DateTime>, Json), now: DateTime) returns (r: SlaResult)
      requires Valid(created) && Valid(now)
      requires winner.1.Some? ==> Valid(winner.1.value)
      ensures r == Conclude(ticket, created, winner, def, now)
    {
      var (target, resolved, lpmCategory) := winner;
      var sourceOfId := ExtractFieldValue(Get(ticket.fields, SourceOfIdFieldId), "");
      var categoryMigrated := ExtractFieldValue(Get(ticket.fields, CategoryFieldId), "");
      var days := if resolved.Some? then BusinessDays(created, resolved.value) else BusinessDaysElapsed(created, now);
      var status := Classify(Present(target) && resolved.Some?, days, def.targetDays);
      r := SlaResult(ticket.key, target, created, resolved, days, def.targetDays, status,
                     sourceOfId, categoryMigrated, lpmCategory, None);
    }

    /** The search every check starts with: the project and health-plan query
        with the date bounds, asking for the source fields. */
    method FetchSourceTickets(def: SlaDefinition, withLinks: bool) returns (found: Result<seq<Issue>>)
      ensures found == SourceTickets(jira, fieldIds, def, dateFrom, dateTo, withLinks)
    {
      var filter := DateFilterJql();
      found := SearchIssues(jira, SourceJql(def, filter), SourceFields(fieldIds, withLinks), PageSize);
    }

    /** `_evaluate_ticket`: the category rule. */
    method EvaluateTicket(def: SlaDefinition, ticket: Issue, now: DateTime) returns (r: SlaResult)
      requires Valid(now)
      ensures r == Evaluate(ByCategory, jira, fieldIds, def, ticket, now)
    {
      r := EvaluateBy(ByCategory, def, ticket, now);
    }

    /** `_evaluate_ticket_resolution`: the done-date rule. */
    method EvaluateTicketResolution(def: SlaDefinition, ticket: Issue, now: DateTime) returns (r: SlaResult)
      requires Valid(now)
      ensures r == Evaluate(ByDoneDate, jira, fieldIds, def, ticket, now)
    {
      r := EvaluateBy(ByDoneDate, def, ticket, now);
    }

    /** One source ticket of the linked checks: its result is appended unless
        it has no target and its ticket is closed, resolved or canceled. */
    method KeepLinked(rule: Rule, def: SlaDefinition, tickets: seq<Issue>, i: nat, now: DateTime,
                      summary: SlaSummary)
      requires Valid(now) && i < |tickets|
      requires summary.results == LinkedResults(rule, jira, fieldIds, def, tickets[..i], now)
      modifies summary
      ensures summary.slaName == old(summary.slaName) && summary.targetDays == old(summary.targetDays)
      ensures summary.results == LinkedResults(rule, jira, fieldIds, def, tickets[..i + 1], now)
    {
      var result := EvaluateBy(rule, def, tickets[i], now);
      var keep := KeepsResult(result, tickets[i]);
      LinkedResultsStep(rule, jira, fieldIds, def, tickets, now, i);
      if keep {
        summary.AddResult(result);
      }
    }

    /** The exclusion test of the linked checks: a result without a target
        ticket is dropped when its ticket is closed, resolved or canceled. */
    method KeepsResult(result: SlaResult, ticket: Issue) returns (keep: bool)
      ensures keep == Keep(result, ticket)
      ensures !keep <==> !Present(result.targetTicket) && ExcludedStatus(Lower(StatusName(ticket.fields)))
    {
      keep := true;
      if !Present(result.targetTicket) {
        var status := Lower(StatusName(ticket.fields));
        if ExcludedStatus(status) {
          keep := false;
        }
      }
    }

    /** The loop of both linked-ticket checks: evaluate every source ticket,
      drop the unlinked ones whose ticket is closed, resolved or canceled. */
    method CheckLinked(rule: Rule, def: SlaDefinition, now: DateTime) returns (r: Result<SlaSummary>)
      requires Valid(now)
      ensures r.Failure? <==> SourceTickets(jira, fieldIds, def, dateFrom, dateTo, true).Failure?
      ensures r.Success? ==>
        fresh(r.value) && r.value.slaName == def.name && r.value.targetDays == def.targetDays &&
        r.value.results == LinkedResults(rule, jira, fieldIds, def, SourceTickets(jira, fieldIds, def, dateFrom, dateTo, true).value, now)
    {
      var summary := new SlaSummary(def.name, def.targetDays);
      var found := FetchSourceTickets(def, true);
      if found.Failure? {
        return Failure(found.error);
      }
      var tickets := found.value;
      var i := 0;
      while i < |tickets|
        invariant 0 <= i <= |tickets|
        invariant summary.slaName == def.name && summary.targetDays == def.targetDays
        invariant summary.results == LinkedResults(rule, jira, fieldIds, def, tickets[..i], now)
      {
        KeepLinked(rule, def, tickets, i, now, summary);
        i := i + 1;
      }
      assert tickets[..|tickets|] == tickets;
      return Success(summary);
    }

    /** `check_identification_resolution_config`. */
    method CheckIdentificationResolutionConfig(def: SlaDefinition, now: DateTime) returns (r: Result<SlaSummary>)
      requires Valid(now)
      ensures r.Failure? <==> SourceTickets(jira, fieldIds, def, dateFrom, dateTo, true).Failure?
      ensures r.Success? ==>
        fresh(r.value) && r.value.slaName == def.name && r.value.targetDays == def.targetDays &&
        r.value.results == LinkedResults(ByCategory, jira, fieldIds, def, SourceTickets(jira, fieldIds, def, dateFrom, dateTo, true).value, now)
    {
      r := CheckLinked(ByCategory, def, now);
    }

    /** `check_resolution_config`. */
    method CheckResolutionConfig(def: SlaDefinition, now: DateTime) returns (r: Result<SlaSummary>)
      requires Valid(now)
      ensures r.Failure? <==> SourceTickets(jira, fieldIds, def, dateFrom, dateTo, true).Failure?
      ensures r.Success? ==>
        fresh(r.value) && r.value.slaName == def.name && r.value.targetDays == def.targetDays &&
        r.value.results == LinkedResults(ByDoneDate, jira, fieldIds, def, SourceTickets(jira, fieldIds, def, dateFrom, dateTo, true).value, now)
    {
      r := CheckLinked(ByDoneDate, def, now);
    }

    /** The first-response result of one source ticket: its created date,
      its comments (none when the fetch fails) and their first response. */
    method FirstResponseFor(def: SlaDefinition, ticket: Issue, now: DateTime) returns (r: SlaResult)
      requires Valid(now)
      ensures r == FirstResponse(jira, def, ticket, now)
    {
      var parsed := ParseJiraDate(Get(ticket.fields, "created"));
      var created := if parsed.Some? then parsed.value else now;
      var fetched := GetIssueComments(jira, ticket.key);
      var comments := if fetched.Success? then fetched.value else [];
      var first := FirstResponseOf(comments);
      r := RespondWith(def, ticket, created, first, now);
    }

    /** Business days, elapsed text, status and record of one first-response
      result. */
    method RespondWith(def: SlaDefinition, ticket: Issue, created: DateTime, first: Option<DateTime>, now: DateTime)
      returns (r: SlaResult)
      requires Valid(created) && Valid(now)
      requires first.Some? ==> Valid(first.value)
      ensures r == Respond(ticket, created, first, def, now)
    {
      var sourceOfId := ExtractFieldValue(Get(ticket.fields, SourceOfIdFieldId), "");
      var categoryMigrated := ExtractFieldValue(Get(ticket.fields, CategoryFieldId), "");
      var days, elapsed;
      if first.Some? {
        assert first.GetOr(now) == first.value;
        days := BusinessDays(created, first.value);
        elapsed := FormatElapsed(created, first.value);
      } else {
        assert first.GetOr(now) == now;
        days := BusinessDaysElapsed(created, now);
        elapsed := FormatElapsed(created, now);
      }
      assert days == (if first.Some? then BusinessDays(created, first.value) else BusinessDaysElapsed(created, now));
      assert elapsed == FormatElapsed(created, first.GetOr(now));
      var status := Classify(first.Some?, days, def.targetDays);
      r := SlaResult(ticket.key, None, created, first, days, def.targetDays, status,
                     sourceOfId, categoryMigrated, JStr(""), Some(elapsed));
    }

    /** `check_first_response`: one result per source ticket, none dropped. */
    method CheckFirstResponse(def: SlaDefinition, now: DateTime) returns (r: Result<SlaSummary>)
      requires Valid(now)
      ensures r.Failure? <==> SourceTickets(jira, fieldIds, def, dateFrom, dateTo, false).Failure?
      ensures r.Success? ==>
        fresh(r.value) && r.value.slaName == def.name && r.value.targetDays == def.targetDays &&
        r.value.results == FirstResponseResults(jira, def, SourceTickets(jira, fieldIds, def, dateFrom, dateTo, false).value, now)
    {
      var summary := new SlaSummary(def.name, def.targetDays);
      var found := FetchSourceTickets(def, false);
      if found.Failure? {
        return Failure(found.error);
      }
      var tickets := found.value;
      var i := 0;
      while i < |tickets|
        invariant 0 <= i <= |tickets|
        invariant summary.slaName == def.name && summary.targetDays == def.targetDays
        invariant summary.results == FirstResponseResults(jira, def, tickets[..i], now)
      {
        var result := FirstResponseFor(def, tickets[i], now);
        FirstResponseResultsStep(jira, def, tickets, now, i);
        summary.AddResult(result);
        i := i + 1;
      }
      assert tickets[..|tickets|] == tickets;
      return Success(summary);
    }
  }
}
