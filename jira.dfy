/** The tracker client: the records the tracker returns, an abstract server
    that answers requests, and the client routines that scan what it returns. */
module Jira {
  import opened Values

  /** One side of an issue link: the linked issue's key (`.get("key", "")`). */
  datatype IssueRef = IssueRef(key: string)

  /** An issue link; either side may be absent. */
  datatype Link = Link(outward: Option<IssueRef>, inward: Option<IssueRef>)

  /** A ticket as returned by search or fetch. `links` is the `issuelinks`
      entry of its fields, kept apart from the other field values. */
  datatype Issue = Issue(key: string, fields: FieldMap, links: Option<seq<Link>>)

  /** A changelog item: which field changed and its new display value. */
  datatype ChangeItem = ChangeItem(field: Option<string>, toString: Option<string>)

  /** A changelog entry; a missing `items` list is the empty list. */
  datatype ChangelogEntry = ChangelogEntry(created: Option<string>, items: seq<ChangeItem>)

  /** A comment: its author's account type ("" when absent), the raw
      `jsdPublic`, `visibility` and `created` values (JNull when absent). */
  datatype Comment = Comment(accountType: string, jsdPublic: Json, visibility: Json, created: Json)

  /** The query parameters of one search request. */
  datatype SearchRequest = SearchRequest(jql: string, startAt: nat, maxResults: int, fields: Option<string>)

  /** One page of search results; `total` is 0 when the response has none. */
  datatype SearchPage = SearchPage(issues: seq<Issue>, total: int)

  /** The query of one issue fetch. */
  datatype IssueRequest = IssueRequest(key: string, fields: Option<string>)

  /** The remote tracker as a set of answers. A request whose key is absent
      is one whose response would raise (transport error, error status). */
  datatype Server = Server(
    search: map<SearchRequest, SearchPage>,
    issues: map<IssueRequest, Issue>,
    changelogs: map<string, seq<ChangelogEntry>>,
    comments: map<string, seq<Comment>>)

  /** `JiraClient` after construction. */
  datatype JiraClient = JiraClient(baseUrl: string, email: string, token: string, server: Server)

  // ---------------------------------------------------------------------
  // Construction

  /** `s.rstrip('/')`. */
  function RStripSlashes(s: string): (r: string)
    ensures r <= s
    ensures r == [] || r[|r| - 1] != '/'
    ensures forall i :: |r| <= i < |s| ==> s[i] == '/'
  {
    if s != [] && s[|s| - 1] == '/' then RStripSlashes(s[..|s| - 1]) else s
  }

  /** The constructor: fails exactly when the stripped base URL, the email or
      the token is missing or empty. */
  function NewJiraClient(baseUrl: Option<string>, email: Option<string>, token: Option<string>, server: Server)
    : (r: Result<JiraClient>)
    ensures r.Failure? <==> !Present(baseUrl) || RStripSlashes(baseUrl.value) == [] || !Present(email) || !Present(token)
    ensures r.Success? ==> r.value == JiraClient(RStripSlashes(baseUrl.value), email.value, token.value, server)
  {
    var url := if Present(baseUrl) then Some(RStripSlashes(baseUrl.value)) else None;
    if !Present(url) || !Present(email) || !Present(token) then
      Failure("Missing Jira credentials. Set JIRA_BASE_URL, JIRA_EMAIL, and JIRA_TOKEN environment variables.")
    else
      Success(JiraClient(url.value, email.value, token.value, server))
  }

  lemma StripsTrailingSlashes()
    ensures RStripSlashes("https://x.example//") == "https://x.example"
    ensures NewJiraClient(Some("///"), Some("a@b"), Some("t"), Server(map[], map[], map[], map[])).Failure?
  {
    assert RStripSlashes("https://x.example/") == RStripSlashes("https://x.example");
    assert RStripSlashes("//") == RStripSlashes("/") == RStripSlashes("");
  }

  // ---------------------------------------------------------------------
  // Single requests

  /** The `fields` query parameter: sent, comma-joined, only for a non-empty list. */
  function FieldsParam(fields: seq<string>): (p: Option<string>)
    ensures p.None? <==> fields == []
    ensures p.Some? ==> p.value == Join(",", fields)
  {
    if fields == [] then None else Some(Join(",", fields))
  }

  /** `get_issue`. */
  function GetIssue(client: JiraClient, key: string, fields: seq<string>): (r: Result<Issue>)
    ensures r.Success? <==> IssueRequest(key, FieldsParam(fields)) in client.server.issues
    ensures r.Success? ==> r.value == client.server.issues[IssueRequest(key, FieldsParam(fields))]
  {
    var req := IssueRequest(key, FieldsParam(fields));
    if req in client.server.issues then Success(client.server.issues[req]) else Failure("issue request failed")
  }

  /** `get_issue_links`: the fetched issue's links, none when it has no
      `issuelinks` entry. */
  function GetIssueLinks(client: JiraClient, key: string): (r: Result<seq<Link>>)
    ensures r.Success? <==> GetIssue(client, key, ["issuelinks"]).Success?
    ensures r.Success? && GetIssue(client, key, ["issuelinks"]).value.links.None? ==> r.value == []
    ensures r.Success? && GetIssue(client, key, ["issuelinks"]).value.links.Some? ==>
              r.value == GetIssue(client, key, ["issuelinks"]).value.links.value
  {
    match GetIssue(client, key, ["issuelinks"])
    case Success(issue) => Success(issue.links.GetOr([]))
    case Failure(e) => Failure(e)
  }

  /** The links are requested with exactly one field. */
  lemma LinksRequestOneField(client: JiraClient, key: string)
    ensures GetIssueLinks(client, key).Success? <==> IssueRequest(key, Some("issuelinks")) in client.server.issues
  {
  }

  function GetIssueChangelog(client: JiraClient, key: string): (r: Result<seq<ChangelogEntry>>)
    ensures r.Success? <==> key in client.server.changelogs
    ensures r.Success? ==> r.value == client.server.changelogs[key]
  {
    if key in client.server.changelogs then Success(client.server.changelogs[key]) else Failure("changelog request failed")
  }

  function GetIssueComments(client: JiraClient, key: string): (r: Result<seq<Comment>>)
    ensures r.Success? <==> key in client.server.comments
    ensures r.Success? ==> r.value == client.server.comments[key]
  {
    if key in client.server.comments then Success(client.server.comments[key]) else Failure("comment request failed")
  }

  // ---------------------------------------------------------------------
  // First status transition

  /** An item recording a change of the status field to `target`, compared
      case-insensitively, with a missing new value read as "". */
  predicate ItemMatches(item: ChangeItem, target: string) {
    item.field == Some("status") && Lower(item.toString.GetOr("")) == Lower(target)
  }

  predicate EntryMatches(entry: ChangelogEntry, target: string) {
    exists j :: 0 <= j < |entry.items| && ItemMatches(entry.items[j], target)
  }

  /** The `created` of the first entry recording the transition, None when
      no entry does. */
  function FirstTransition(log: seq<ChangelogEntry>, target: string): Option<string> {
    if log == [] then None
    else if EntryMatches(log[0], target) then log[0].created
    else FirstTransition(log[1..], target)
  }

  /** FirstTransition reads the earliest matching entry and nothing after it. */
  lemma {:induction false} FirstTransitionIsFirstMatch(log: seq<ChangelogEntry>, target: string, k: nat)
    requires k < |log| && EntryMatches(log[k], target)
    requires forall i :: 0 <= i < k ==> !EntryMatches(log[i], target)
    ensures FirstTransition(log, target) == log[k].created
  {
    if k > 0 {
      assert !EntryMatches(log[0], target);
      FirstTransitionIsFirstMatch(log[1..], target, k - 1);
    }
  }

  lemma {:induction false} FirstTransitionNoMatch(log: seq<ChangelogEntry>, target: string)
    requires forall i :: 0 <= i < |log| ==> !EntryMatches(log[i], target)
    ensures FirstTransition(log, target) == None
  {
    if log != [] {
      assert !EntryMatches(log[0], target);
      FirstTransitionNoMatch(log[1..], target);
    }
  }

  /** `get_status_transition_date`: scans entries, and items within an entry,
      in order, answering at the first match. A failed changelog fetch
      propagates. */
  method GetStatusTransitionDate(client: JiraClient, key: string, target: string) returns (r: Result<Option<string>>)
    ensures r.Failure? <==> key !in client.server.changelogs
    ensures r.Success? ==> r.value == FirstTransition(client.server.changelogs[key], target)
  {
    var fetched := GetIssueChangelog(client, key);
    if fetched.Failure? {
      return Failure(fetched.error);
    }
    var log := fetched.value;
    var i := 0;
    while i < |log|
      invariant 0 <= i <= |log|
      invariant FirstTransition(log, target) == FirstTransition(log[i..], target)
    {
      var items := log[i].items;
      var j := 0;
      while j < |items|
        invariant 0 <= j <= |items|
        invariant forall t :: 0 <= t < j ==> !ItemMatches(items[t], target)
      {
        if ItemMatches(items[j], target) {
          assert EntryMatches(log[i..][0], target);
          return Success(log[i].created);
        }
        j := j + 1;
      }
      assert log[i..][1..] == log[i + 1..];
      i := i + 1;
    }
    return Success(None);
  }

  // ---------------------------------------------------------------------
  // Paginated search

  /** The requests still usable from offset `startAt` on. */
  ghost function Pending(search: map<SearchRequest, SearchPage>, startAt: nat): set<SearchRequest> {
    set r | r in search.Keys && r.startAt >= startAt
  }

  /** Prepends a batch to an outcome; a failure stays a failure. */
  function Prepend(batch: seq<Issue>, rest: Result<seq<Issue>>): Result<seq<Issue>> {
    match rest
    case Success(issues) => Success(batch + issues)
    case Failure(e) => Failure(e)
  }

  lemma PrependNothing(rest: Result<seq<Issue>>)
    ensures Prepend([], rest) == rest
  {
    if rest.Success? {
      assert [] + rest.value == rest.value;
    }
  }

  lemma PrependTwice(a: seq<Issue>, b: seq<Issue>, rest: Result<seq<Issue>>)
    ensures Prepend(a, Prepend(b, rest)) == Prepend(a + b, rest)
  {
    if rest.Success? {
      assert a + (b + rest.value) == (a + b) + rest.value;
    }
  }

  /** What `search_issues` returns when started at `startAt`: each page is
      fetched at the running offset, the offset advances by the page size,
      and fetching stops once the offset reaches the reported total or a
      page comes back empty. A failed page fails the whole search. */
  function Accumulate(search: map<SearchRequest, SearchPage>, jql: string, fields: Option<string>,
                      maxResults: int, startAt: nat): Result<seq<Issue>>
    decreases Pending(search, startAt)
  {
    var req := SearchRequest(jql, startAt, maxResults, fields);
    if req !in search then Failure("search request failed")
    else
      var page := search[req];
      var next := startAt + |page.issues|;
      if next >= page.total || |page.issues| == 0 then Success(page.issues)
      else
        assert req in Pending(search, startAt) && req !in Pending(search, next);
        Prepend(page.issues, Accumulate(search, jql, fields, maxResults, next))
  }

  /** `search_issues`. */
  method SearchIssues(client: JiraClient, jql: string, fields: seq<string>, maxResults: int)
    returns (r: Result<seq<Issue>>)
    ensures r == Accumulate(client.server.search, jql, FieldsParam(fields), maxResults, 0)
  {
    var search := client.server.search;
    var fp := FieldsParam(fields);
    var allIssues: seq<Issue> := [];
    var startAt: nat := 0;
    PrependNothing(Accumulate(search, jql, fp, maxResults, 0));
    while true
      invariant Accumulate(search, jql, fp, maxResults, 0) ==
                Prepend(allIssues, Accumulate(search, jql, fp, maxResults, startAt))
      decreases Pending(search, startAt)
    {
      var req := SearchRequest(jql, startAt, maxResults, fp);
      if req !in search {
        return Failure("search request failed");
      }
      var page := search[req];
      var issues := page.issues;
      var previous := startAt;
      var before := allIssues;
      allIssues := allIssues + issues;
      startAt := startAt + |issues|;
      if startAt >= page.total || |issues| == 0 {
        return Success(allIssues);
      }
      assert req in Pending(search, previous) && req !in Pending(search, startAt);
      PrependTwice(before, issues, Accumulate(search, jql, fp, maxResults, startAt));
    }
  }

  /** The page at `s` of a server that holds the result list `all`: it
      reports the list's length as total and returns a non-empty run of the
      list from offset `s` (possibly fewer than requested). */
  predicate PageServes(search: map<SearchRequest, SearchPage>, jql: string, fields: Option<string>,
                       maxResults: int, all: seq<Issue>, s: nat)
    requires s <= |all|
  {
    var req := SearchRequest(jql, s, maxResults, fields);
    req in search && search[req].total == |all| && search[req].issues != [] && search[req].issues <= all[s..]
  }

  /** A server that serves `all` consistently at every offset. */
  predicate ServesList(search: map<SearchRequest, SearchPage>, jql: string, fields: Option<string>,
                       maxResults: int, all: seq<Issue>)
  {
    (all == [] ==> SearchRequest(jql, 0, maxResults, fields) in search &&
                   search[SearchRequest(jql, 0, maxResults, fields)] == SearchPage([], 0)) &&
    forall s :: 0 <= s < |all| ==> PageServes(search, jql, fields, maxResults, all, s)
  }

  lemma {:induction false} AccumulateFrom(search: map<SearchRequest, SearchPage>, jql: string, fields: Option<string>,
                                          maxResults: int, all: seq<Issue>, s: nat)
    requires ServesList(search, jql, fields, maxResults, all)
    requires s < |all|
    ensures Accumulate(search, jql, fields, maxResults, s) == Success(all[s..])
    decreases |all| - s
  {
    assert PageServes(search, jql, fields, maxResults, all, s);
    var page := search[SearchRequest(jql, s, maxResults, fields)];
    var next := s + |page.issues|;
    if next >= |all| {
      assert page.issues == all[s..];
    } else {
      AccumulateFrom(search, jql, fields, maxResults, all, next);
      assert all[s..] == page.issues + all[next..];
    }
  }

  /** Pagination reassembles the whole result list, in order, whatever page
      sizes the server chooses. */
  lemma SearchReassemblesList(search: map<SearchRequest, SearchPage>, jql: string, fields: Option<string>,
                              maxResults: int, all: seq<Issue>)
    requires ServesList(search, jql, fields, maxResults, all)
    ensures Accumulate(search, jql, fields, maxResults, 0) == Success(all)
  {
    if all != [] {
      AccumulateFrom(search, jql, fields, maxResults, all, 0);
      assert all[0..] == all;
    }
  }

  /** An empty page ends the search even when the reported total is larger. */
  lemma EmptyPageStops(search: map<SearchRequest, SearchPage>, jql: string, fields: Option<string>,
                       maxResults: int, startAt: nat)
    requires SearchRequest(jql, startAt, maxResults, fields) in search
    requires search[SearchRequest(jql, startAt, maxResults, fields)].issues == []
    ensures Accumulate(search, jql, fields, maxResults, startAt) == Success([])
  {
  }
}
