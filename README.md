# SLA checker core, modelled and proved in Dafny

This project models the evaluation engine of a command-line SLA checker for a
ticket tracker, and proves properties of that model. The checker reads source tickets of one
project, follows their links into a target project and measures business days from a
source ticket's creation to a resolution event. The resolution event is one of:

- a linked ticket with the target category (the identification SLA);
- a linked ticket with a config-done date (the resolution SLA);
- the first public comment by an internal user (the first-response SLA).

Each ticket is classified as met, breached or in progress. The results go into an
append-only summary, which has derived counts and a compliance rate.

Modules, one per file:

- `values.dfy` (`Values`):
  - `Option`/`Result`;
  - decoded JSON values (`Json`) and field maps;
  - ASCII lower-casing, prefix and substring tests, decimal digits.
- `calendar.dfy` (`Calendar`):
  - naive timestamps (`DateTime`, with a `Valid` predicate and an `Instant` ordering);
  - business-day counting (`get_business_days`);
  - elapsed-time text (`format_elapsed_time`).
- `date_parse.dfy` (`DateParse`): `parse_jira_date` over its six formats.
- `fields.dfy` (`Fields`): `extract_field_value`, and Python's `str()` of a decoded value.
- `results.dfy` (`Results`):
  - `SLAResult` as a datatype;
  - `SLASummary` as a class whose `results` sequence `AddResult` extends.
- `jira.dfy` (`Jira`):
  - the tracker's records;
  - the client's construction and request building;
  - the changelog transition scan (a nested loop);
  - the paginated search (a `while true` loop).
- `evaluation.dfy` (`Evaluation`): the rules of the checker as functions, with their properties.
- `checker.dfy` (`Checker`): the class `SlaChecker`, whose loops and fields follow the source. Each of its methods is proved equal to the matching rule of `Evaluation`.

What becomes a parameter:

- **The tracker.** A `Server` value maps each request (search page, issue fetch,
  changelog, comments) to its decoded answer. A request missing from the map is one whose
  HTTP call raises.
- **The clock.** Every `datetime.now()` becomes one `now: DateTime` per check.
- **The configuration.** An SLA definition is a `SlaDefinition` parameter of each check.
  `IdentificationConfig` and `ResolutionConfig` hold the shipped constants of `config.py`.

Details of the code the model follows:

- Business days are counted with numpy's `busday_count` over
  `[start.date(), end.date())`: the dates `d` with `start.date() <= d < end.date()`
  that fall Monday to Friday. The start date is included and the end date excluded.
- In the two linked-ticket SLAs, a ticket counts as resolved only when it has both a target
  ticket and a resolved date. A winning candidate whose created date does not parse gives a
  target ticket without a date. Such a ticket is classified as unresolved.
- The linked side of a link is `outwardIssue` when present, otherwise `inwardIssue`.
- The category and done-date SLAs pick the latest candidate. The changelog transition scan
  is modelled with the client, but the checker never calls it.
- `extract_field_value` can return a non-string when a select object's key holds one. A
  later `.lower()` on it raises inside the per-link `try`, so that link is skipped.

## Model

| member | source | states |
|---|---|---|
| Calendar.BusinessDays | sla-app/sla_calculator.py:9-21 | 0 when end precedes start; otherwise the number of Monday-to-Friday dates from start's date (included) to end's date (excluded), by a day-by-day reference count |
| Calendar.BusinessDaysElapsed | sla-app/sla_calculator.py:24-26 | the same count from start up to the given clock reading |
| Calendar.WeekdayCount | sla-app/sla_calculator.py:9-21 | the reference count of the dates d with lo <= d < hi that fall Monday to Friday, day by day; `BusinessDays` and the closed-form lemmas are stated against it |
| Calendar.WeekdayCountClosedForm | sla-app/sla_calculator.py:17-21 | the whole-weeks formula used to count equals the day-by-day reference count |
| Calendar.WeekdayCountNoWeekend | sla-app/sla_calculator.py:17-21 | a span without Saturday or Sunday counts every one of its days |
| Calendar.WeekdayCountWholeWeeks | sla-app/sla_calculator.py:17-21 | any run of whole weeks has exactly five business days per week |
| Calendar.WeekdayCountAtMostSpan | sla-app/sla_calculator.py:17-21 | the count never exceeds the number of calendar days spanned |
| Calendar.BusinessDaysAtMostDateSpan | sla-app/sla_calculator.py:14-21 | business days never exceed the calendar-day difference of the two dates |
| Calendar.BusinessDaysIgnoreTimeOfDay | sla-app/sla_calculator.py:14-21 | for any two pairs of timestamps, only the calendar dates matter, even though the `end < start` guard compares times of day: equal dates give equal counts, and the same date gives 0 |
| Calendar.NextDayInMonth | sla-app/sla_calculator.py:18-19 | the next day of the same month has the next day number |
| Calendar.NextMonthStart | sla-app/sla_calculator.py:18-19 | the first of the next month follows the last of a month other than February by one day number |
| Calendar.MarchYearLength | sla-app/sla_calculator.py:18-19 | the March-to-March year ending in year y's February is 366 day numbers long when y is a leap year, 365 otherwise |
| Calendar.MarchAfterFebruary | sla-app/sla_calculator.py:18-19 | March 1 follows February 28, or February 29 in a leap year, by one day number |
| Calendar.NextYearStart | sla-app/sla_calculator.py:18-19 | January 1 follows December 31 of the year before by one day number |
| Calendar.JanuaryTwoWeeks | sla-app/sla_calculator.py:9-21 | 2024-01-01 is a Monday, and there are 10 business days from it to 2024-01-15 |
| Calendar.ElapsedParts | sla-app/sla_calculator.py:77-83 | all zero for a negative delta; otherwise days*1440 + hours*60 + minutes equals the whole minutes elapsed, with hours < 24 and minutes < 60 |
| Calendar.FormatElapsed | sla-app/sla_calculator.py:75-84 | "0d 0h 0m" for a negative delta; the text starts with a digit, never a sign, and reads back as exactly the elapsed parts |
| Calendar.ShowElapsedReadsBack | sla-app/sla_calculator.py:84 | the "Xd Xh Xm" rendering of any non-negative parts parses back to those parts |
| DateParse.FirstMatch | sla-app/sla_calculator.py:43-52 | tries the formats in their listed order and gives the first parse; any parse it gives is a real calendar timestamp (`FirstMatchIsFirstAccepting` states the order) |
| DateParse.JiraDate | sla-app/sla_calculator.py:29-52 | None for a falsy value and for a value that is not text; otherwise the first format's parse; any date it gives is a real calendar timestamp |
| DateParse.ParseJiraDate | sla-app/sla_calculator.py:29-52 | the loop over formats returns None for a falsy or non-string value and otherwise the parse of the first format that accepts, exactly as `JiraDate` |
| DateParse.FirstMatchIsFirstAccepting | sla-app/sla_calculator.py:43-52 | None exactly when no format accepts; otherwise the parse of the first accepting format in the listed order |
| DateParse.ParseWith | sla-app/sla_calculator.py:44-49 | a successful parse is a real calendar timestamp |
| DateParse.OnlyOwnFormatAccepts | sla-app/sla_calculator.py:35-51 | a timestamp written in one of the six formats is accepted by that format, with its fields, and refused by every other |
| DateParse.ParseRender | sla-app/sla_calculator.py:35-49 | round trip: every format's rendering of a timestamp it can carry parses back to it, whatever offset is written, so the offset is dropped |
| DateParse.ShortFractionReads | sla-app/sla_calculator.py:35-49 | a fraction of one to six digits with an offset parses in the first format, padded on the right to microseconds |
| DateParse.FracOffsetSuffixReads | sla-app/sla_calculator.py:35-49 | text in the first format parses to its timestamp whenever its suffix gives that timestamp's microseconds |
| DateParse.ReadsMilliseconds | sla-app/sla_calculator.py:35-49 | "2024-01-15T10:30:05.123-0800" parses to 10:30:05.123000 on 2024-01-15, with the offset dropped |
| DateParse.RejectsMalformed | sla-app/sla_calculator.py:31-52 | "13/40/2024", "", null and a number give None |
| DateParse.RejectsImpossibleDate | sla-app/sla_calculator.py:43-52 | a well-formed but nonexistent date (2024-02-30) is refused by every format |
| Fields.Repr | sla-app/sla_calculator.py:67-72 | Python's `str()` of a decoded value: None/True/False, decimal integers, quoted text, bracketed lists and braced dicts with `, ` between items and `: ` after each key (`ExtractRendersDict` shows one) |
| Fields.ExtractFieldValue | sla-app/sla_calculator.py:55-72 | the default for null, text unchanged, an object by its first present lookup key or else its `str()`, a non-empty list by its first element, anything else its `str()`; its lemmas below state the behaviour |
| Fields.FirstPresent | sla-app/sla_calculator.py:64-66 | None exactly when no key is present; otherwise the value under the first present key in priority order |
| Fields.ExtractReadsFirstLeaf | sla-app/sla_calculator.py:69-70 | a non-empty list is read through its first element, at any depth, with the same default |
| Fields.DefaultOnlyForNull | sla-app/sla_calculator.py:57-72 | the default matters only for a missing value: once the first leaf is not null the result does not depend on it |
| Fields.ExtractGivesText | sla-app/sla_calculator.py:55-72 | the result is text unless the first leaf is an object whose first present lookup key holds a non-text value, which is then returned |
| Fields.ExtractPrefersValue | sla-app/sla_calculator.py:64-66 | an object with a "value" key gives that entry |
| Fields.ExtractExamples | sla-app/sla_calculator.py:55-72 | an object reads by "value", a list by its first element, null gives the default, and an empty list its `str()` |
| Fields.ExtractRendersDict | sla-app/sla_calculator.py:55-72 | an object with none of the lookup keys gives its `str()`, `{'id': 7}` |
| Results.ExactlyOneStatus | sla-app/sla_calculator.py:116-126 | for the three statuses exactly one status predicate holds; for any other none holds |
| Results.CountStatus | sla-app/sla_calculator.py:144-154 | a status count never exceeds the number of results |
| Results.WithStatus | sla-app/sla_calculator.py:156-166 | the filtered list holds exactly the results with that status, and its length is that status's count |
| Results.AppendExtendsFilters | sla-app/sla_calculator.py:137-166 | appending a result extends its own count by one and its own filtered list at the end, and leaves the others unchanged |
| Results.CountsPartitionTotal | sla-app/sla_calculator.py:140-154 | when every status is known, met + breached + in progress = total |
| Results.SlaSummary.TotalCount | sla-app/sla_calculator.py:140-142 | the number of recorded results |
| Results.SlaSummary.MetCount | sla-app/sla_calculator.py:144-146 | the number of met results, never more than the total |
| Results.SlaSummary.BreachedCount | sla-app/sla_calculator.py:148-150 | the number of breached results, never more than the total |
| Results.SlaSummary.InProgressCount | sla-app/sla_calculator.py:152-154 | the number of results in progress, never more than the total |
| Results.SlaSummary.MetResults | sla-app/sla_calculator.py:156-158 | exactly the recorded results that are met, as many as the met count |
| Results.SlaSummary.BreachedResults | sla-app/sla_calculator.py:160-162 | exactly the recorded results that are breached, as many as the breached count |
| Results.SlaSummary.InProgressResults | sla-app/sla_calculator.py:164-166 | exactly the recorded results in progress, as many as the in-progress count |
| Results.ComplianceRateOf | sla-app/sla_calculator.py:168-174 | between 0 and 100; 100 when nothing is resolved; otherwise rate × (met + breached) = 100 × met |
| Results.ComplianceScenario | sla-app/sla_calculator.py:168-174 | three met, one breached and two in progress give counts 3/1/2 and a rate of 75.0 |
| Results.SlaSummary.constructor | sla-app/sla_calculator.py:132-135 | a new summary has its name and target and no results |
| Results.SlaSummary.AddResult | sla-app/sla_calculator.py:137-138 | appends the result at the end and changes nothing else |
| Results.SlaSummary.ComplianceRate | sla-app/sla_calculator.py:168-174 | the summary's rate lies in [0, 100] and is 100 when nothing is resolved |
| Jira.RStripSlashes | sla-app/jira_client.py:12 | the result is a prefix of the input without a trailing '/', and only '/' characters were removed |
| Jira.NewJiraClient | sla-app/jira_client.py:11-19 | fails exactly when the base URL is falsy or all slashes, or the email or token is falsy; otherwise keeps the stripped URL and the credentials |
| Jira.StripsTrailingSlashes | sla-app/jira_client.py:12-19 | "https://x.example//" is stripped to "https://x.example", and a URL of only slashes is refused |
| Jira.FieldsParam | sla-app/jira_client.py:48-49 | no `fields` parameter for an empty list; otherwise the comma-joined list |
| Jira.GetIssue | sla-app/jira_client.py:64-70 | succeeds exactly when the tracker answers the request for that key and field list, with that answer |
| Jira.GetIssueLinks | sla-app/jira_client.py:72-75 | the fetched issue's link list, or [] when it has none; fails when the fetch fails |
| Jira.LinksRequestOneField | sla-app/jira_client.py:74 | the links fetch asks for the single field "issuelinks" |
| Jira.GetIssueChangelog | sla-app/jira_client.py:77-81 | the tracker's changelog for the key, failing when it has none |
| Jira.GetIssueComments | sla-app/jira_client.py:92-96 | the tracker's comments for the key, failing when it has none |
| Jira.FirstTransition | sla-app/jira_client.py:83-90 | the created date of the first changelog entry that holds a matching status item, or None; the two lemmas below state both cases |
| Jira.FirstTransitionIsFirstMatch | sla-app/jira_client.py:86-89 | the answer is the created date of the first entry holding a matching status item |
| Jira.FirstTransitionNoMatch | sla-app/jira_client.py:86-90 | without a matching entry the answer is None |
| Jira.GetStatusTransitionDate | sla-app/jira_client.py:83-90 | the nested scan fails exactly when the changelog fetch fails, and otherwise answers with the first matching entry's date |
| Jira.Accumulate | sla-app/jira_client.py:37-62 | the pages fetched from an offset: each at the running offset, the offset advancing by the page size, stopping at the total or an empty page, failing on a failed page; `AccumulateFrom` and `SearchReassemblesList` state what it returns |
| Jira.SearchIssues | sla-app/jira_client.py:37-62 | the loop computes the page accumulation from offset 0: pages in fetch order, the offset advancing by each page's size, stopping at the total or an empty page, failing if any page fails |
| Jira.AccumulateFrom | sla-app/jira_client.py:42-60 | from any offset of a consistent server, the search returns the rest of its result list |
| Jira.SearchReassemblesList | sla-app/jira_client.py:37-62 | whatever page sizes the server chooses, the search returns its whole result list in order |
| Jira.EmptyPageStops | sla-app/jira_client.py:59-60 | an empty page ends the search even when the total is larger |
| Evaluation.DateFilter | sla-app/sla_checker.py:43-50 | "" without bounds; otherwise " AND " and the present clauses joined by " AND ", the lower bound first |
| Evaluation.DateFilterExamples | sla-app/sla_checker.py:43-50 | empty bounds give ""; a lower bound alone gives its one clause |
| Evaluation.SourceJql | sla-app/sla_checker.py:71-75 | the query is the source-project clause, then the quoted health-plan field and value clause, then exactly the date filter at its end |
| Evaluation.SourceFields | sla-app/sla_checker.py:83 | eight fields with the links, seven without: key, created, summary and status first, the links next when asked for, and the health-plan, source-of-identification and category field ids last |
| Evaluation.ShippedIdentificationQuery | sla-app/config.py:26-37 | the shipped identification check queries `project = ACS AND "Health plan (migrated)" = "BCBSLA"` |
| Evaluation.ShippedResolutionQuery | sla-app/config.py:38-48 | the shipped resolution check queries the same tickets, and a start date appends `AND created >= "<date>"` |
| Evaluation.ShippedFields | sla-app/config.py:51-56 | with the default field ids the checks ask for key, created, summary, status, issuelinks and the three custom field ids |
| Evaluation.SourceTickets | sla-app/sla_checker.py:71-85 | the paginated search for the definition's query with the date filter, asking for the source fields (with the links or not) |
| Evaluation.CreatedDate | sla-app/sla_checker.py:385-389 | the parsed created date, or now when it is missing or unparseable; always a real timestamp |
| Evaluation.LinkedIssue | sla-app/sla_checker.py:404 | the outward side when present, otherwise the inward side |
| Evaluation.ScanCategory | sla-app/sla_checker.py:436-441 | the scan over the linked ticket's fields that replaces a falsy value by the next category-like field's value; the three scan lemmas state its result |
| Evaluation.CategoryValue | sla-app/sla_checker.py:430-441 | the configured category field read with default "Unknown" when present, otherwise "", then the scan; `ConfiguredCategoryWins` and `NullCategoryReadsUnknown` state its cases |
| Evaluation.ScanKeepsTruthy | sla-app/sla_checker.py:436-441 | once the category value is truthy, no later field replaces it |
| Evaluation.ScanFindsFirstTruthy | sla-app/sla_checker.py:436-441 | from a falsy value, the scan gives the first truthy value read from a field whose id contains "category" |
| Evaluation.ScanStaysFalsy | sla-app/sla_checker.py:436-441 | when no category-like field reads truthy, the value stays falsy |
| Evaluation.ConfiguredCategoryWins | sla-app/sla_checker.py:430-441 | a truthy configured category field wins over every other category-like field |
| Evaluation.NullCategoryReadsUnknown | sla-app/sla_checker.py:431-432 | a configured category field holding null reads as "Unknown" and stops the scan |
| Evaluation.CategoryCandidate | sla-app/sla_checker.py:403-455 | one link under the category rule; a candidate it gives has a real date or none (`CategoryCandidateQualifies` states when it qualifies) |
| Evaluation.DoneDateCandidate | sla-app/sla_checker.py:299-335 | one link under the done-date rule; a candidate it gives has a real date or none (`DoneDateCandidateQualifies` states when it qualifies) |
| Evaluation.Candidates | sla-app/sla_checker.py:403-455 | the candidates of the links in link order, no more than there are links, each with a real date or none |
| Evaluation.CategoryCandidateQualifies | sla-app/sla_checker.py:403-455 | a link qualifies exactly when its linked key has the target prefix, the fetch succeeds and the category value is text equal to the target up to case; the candidate carries that key, its parsed created date and the value |
| Evaluation.DoneDateCandidateQualifies | sla-app/sla_checker.py:299-335 | a link qualifies exactly when its linked key has the target prefix, the fetch succeeds and the done-date field parses; the candidate carries that key, date and the linked category |
| Evaluation.CandidatesPerLink | sla-app/sla_checker.py:403-455 | every candidate comes from some link, and every qualifying link contributes, whatever fails on the other links |
| Evaluation.LatestIndex | sla-app/sla_checker.py:457-462 | a candidate of maximal date (missing dates rank as datetime.min) before which every candidate is strictly earlier, so ties go to link order |
| Evaluation.LatestIndexUnique | sla-app/sla_checker.py:460-461 | the first maximal candidate is the only position with those two properties |
| Evaluation.Winner | sla-app/sla_checker.py:457-462 | the key, date and category of the first latest candidate, or nothing without candidates; its date is a real timestamp |
| Evaluation.WinnerIsLatest | sla-app/sla_checker.py:457-462 | without candidates there is no target, date or category; otherwise the winner is the first latest candidate's key, date and category |
| Evaluation.Classify | sla-app/sla_checker.py:474-488 | met exactly when resolved within the target; breached exactly when over it; in progress exactly when unresolved within it |
| Evaluation.ClassifyExamples | sla-app/sla_checker.py:474-488 | 35 days against 30 is breached; 10 unresolved days is in progress; 30 resolved days is met |
| Evaluation.Conclude | sla-app/sla_checker.py:464-503 | every concluded result gets one of the three statuses |
| Evaluation.ConcludeRecords | sla-app/sla_checker.py:464-503 | the result records the winner; it counts business days to the resolved date, or to now without one; met needs both a target and a date |
| Evaluation.Evaluate | sla-app/sla_checker.py:377-503 | every evaluated ticket gets one of the three statuses |
| Evaluation.ConcludeWinner | sla-app/sla_checker.py:457-503 | concluding on the winner of any candidates with real dates records the first latest candidate, the days to its date or to now, and the classified status |
| Evaluation.EvaluateRecords | sla-app/sla_checker.py:377-503 | without qualifying links no target, no resolved date and days up to now; otherwise the target is the first latest qualifying link's key, with its date and category, and days up to that date (or now without one); met, breached and in progress follow the classification |
| Evaluation.StatusName | sla-app/sla_checker.py:100-111 | the source ticket's status name when the status is an object with a text name, otherwise "" |
| Evaluation.Keep | sla-app/sla_checker.py:100-111 | a result stays when it has a target ticket or its ticket's lower-cased status is not closed, resolved or canceled |
| Evaluation.LinkedResults | sla-app/sla_checker.py:52-116 | the kept results of the source tickets in search order, never more than there are tickets (`FilterSound`, `FilterComplete` and `KeepResultsExactly` state which) |
| Evaluation.KeepResultsExactly | sla-app/sla_checker.py:103-114 | a result is dropped exactly when it has no target ticket and its ticket's lower-cased status is closed, resolved or canceled |
| Evaluation.FilterSound | sla-app/sla_checker.py:103-114 | every kept result comes from an admitted position |
| Evaluation.FilterComplete | sla-app/sla_checker.py:103-114 | every admitted result is kept |
| Evaluation.LinkedResultsStep | sla-app/sla_checker.py:103-114 | each further ticket extends the kept list at its end by its own result, or not at all |
| Evaluation.LinkedResultsPartition | sla-app/sla_checker.py:103-116 | in a linked-ticket summary the three counts add up to the total |
| Evaluation.ClosedIsExcluded | sla-app/sla_checker.py:100-108 | a ticket whose status name is "Closed" has an excluded status once lower-cased |
| Evaluation.ExclusionScenario | sla-app/sla_checker.py:106-111 | a ticket with no qualifying link whose status is "Closed" is not in the summary |
| Evaluation.DroppedAlone | sla-app/sla_checker.py:103-114 | a lone result that is not kept leaves no kept results |
| Evaluation.LatestCandidateExamples | sla-app/sla_checker.py:457-462 | of candidates dated 2024-01-10 and 2024-01-15 the later wins in either order; of two equal dates the first listed wins |
| Evaluation.ResponseDates | sla-app/sla_checker.py:216-237 | one entry per comment: its parsed date when it is a public comment by an internal user, otherwise none |
| Evaluation.Earliest | sla-app/sla_checker.py:237-239 | the earliest of the present dates, which is one of them, or None |
| Evaluation.EarliestIsFirstEarliest | sla-app/sla_checker.py:237-239 | none exactly when no comment contributes a date; otherwise the earliest date, at the first position holding it |
| Evaluation.EarliestStep | sla-app/sla_checker.py:238-239 | a further date replaces the earliest so far only when present and strictly earlier |
| Evaluation.FirstResponseDate | sla-app/sla_checker.py:214-239 | the earliest date of a public comment by an internal user, a real timestamp, or None |
| Evaluation.Respond | sla-app/sla_checker.py:242-276 | every responded result gets one of the three statuses (`FirstResponseRecords` states every field) |
| Evaluation.CommentsOf | sla-app/sla_checker.py:206-210 | the ticket's comments, or none when the fetch fails |
| Evaluation.FirstResponse | sla-app/sla_checker.py:194-276 | every first-response result gets one of the three statuses |
| Evaluation.FirstResponseRecords | sla-app/sla_checker.py:194-276 | no target ticket; the first response over the fetched comments as resolved date; business days and elapsed text up to it, or up to now without one; classified against the target |
| Evaluation.FirstResponseResults | sla-app/sla_checker.py:164-278 | one first-response result per source ticket, in search order (its lemmas below state the length, each position and each step) |
| Evaluation.FirstResponseResultsLength | sla-app/sla_checker.py:194-276 | the first-response summary has one result per source ticket |
| Evaluation.FirstResponseResultsAt | sla-app/sla_checker.py:164-278 | one result per source ticket, the i-th being the first-response result of the i-th ticket |
| Evaluation.FirstResponseResultsStep | sla-app/sla_checker.py:264-276 | each further ticket appends its result at the end |
| Checker.SelectLatest | sla-app/sla_checker.py:339-341 | the head of the stable descending sort: the first candidate of maximal date, which is `LatestIndex` |
| Checker.ReadCategory | sla-app/sla_checker.py:430-441 | the loop gives the category value: the configured field, then category-like fields while the value is falsy |
| Checker.ResponseDateOf | sla-app/sla_checker.py:217-237 | a comment gives a date exactly when it is by an internal user, public, and its created date parses |
| Checker.FirstResponseOf | sla-app/sla_checker.py:214-239 | the comment loop gives the earliest public internal comment date, the first listed among equals |
| Checker.SlaChecker.constructor | sla-app/sla_checker.py:27-32 | keeps the client and date bounds and starts from the default field ids |
| Checker.SlaChecker.SetFieldId | sla-app/sla_checker.py:39-41 | overrides one field id and keeps the others |
| Checker.SlaChecker.DateFilterJql | sla-app/sla_checker.py:43-50 | the clause list built step by step gives `DateFilter` of the checker's bounds |
| Checker.SlaChecker.CategoryCandidateOf | sla-app/sla_checker.py:403-455 | one link's category rule, equal to `CategoryCandidate` |
| Checker.SlaChecker.DoneDateCandidateOf | sla-app/sla_checker.py:299-335 | one link's done-date rule, equal to `DoneDateCandidate` |
| Checker.SlaChecker.CollectCandidates | sla-app/sla_checker.py:403-455 | the link loop appends exactly `Candidates`, in link order |
| Checker.SlaChecker.EvaluateBy | sla-app/sla_checker.py:377-462 | collect, select and conclude, equal to `Evaluate` |
| Checker.SlaChecker.ConcludeWith | sla-app/sla_checker.py:464-503 | days, status and record of one linked-ticket result, equal to `Conclude` |
| Checker.SlaChecker.EvaluateTicket | sla-app/sla_checker.py:377-503 | `_evaluate_ticket` computes `Evaluate` under the category rule |
| Checker.SlaChecker.EvaluateTicketResolution | sla-app/sla_checker.py:280-375 | `_evaluate_ticket_resolution` computes `Evaluate` under the done-date rule |
| Checker.SlaChecker.FetchSourceTickets | sla-app/sla_checker.py:71-85 | the search returns exactly the definition's source tickets under the date bounds, or the search failure |
| Checker.SlaChecker.KeepsResult | sla-app/sla_checker.py:107-111 | a result is dropped exactly when it has no target ticket and its ticket's lower-cased status is closed, resolved or canceled |
| Checker.SlaChecker.KeepLinked | sla-app/sla_checker.py:103-114 | appends a ticket's result exactly when the linked rule keeps it, extending `LinkedResults` by one ticket |
| Checker.SlaChecker.CheckLinked | sla-app/sla_checker.py:103-116 | fails exactly when the search fails; otherwise a fresh summary of the definition holding exactly `LinkedResults` |
| Checker.SlaChecker.CheckIdentificationResolutionConfig | sla-app/sla_checker.py:52-116 | the identification check: the category rule's kept results, or the search failure |
| Checker.SlaChecker.CheckResolutionConfig | sla-app/sla_checker.py:118-162 | the resolution check: the done-date rule's kept results, or the search failure |
| Checker.SlaChecker.FirstResponseFor | sla-app/sla_checker.py:195-276 | one ticket's first-response result, equal to `FirstResponse` |
| Checker.SlaChecker.RespondWith | sla-app/sla_checker.py:242-276 | days, elapsed text, status and record, equal to `Respond` |
| Checker.SlaChecker.CheckFirstResponse | sla-app/sla_checker.py:164-278 | fails exactly when the search (without links) fails; otherwise a fresh summary holding exactly `FirstResponseResults`, so the i-th result is the first-response result of the i-th source ticket |

## Left out

- HTTP transport (`_make_request`, `requests.get`, `raise_for_status`, JSON decoding), the Basic-auth header and its base64 encoding: a fetch is a lookup in the `Server` map.
- `test_connection`: a bare request with no logic.
- Verbose logging (`_log`, `console.print`, the sample-ticket dump): it has no effect on results.
- `main.py` and `display.py`: prompts, files, argument parsing and rendering are not part of this model.
- numpy's `busday_count` is replaced by a weekday count; there are no holiday calendars.
- `datetime.now()`: one clock reading `now` per check. The source reads the clock separately for each ticket and for the elapsed text.
- `strptime` leniency: only fixed-width digit fields are modelled, and `%z` is `+HHMM`/`-HHMM`. The space in "%Y-%m-%d %H:%M:%S" matches any run of whitespace in `strptime` (a tab, several spaces); the model accepts one space only. Single-digit fields, `Z` or colons in `%z`, and locale rules are not modelled.
- `str.lower()` is modelled on ASCII letters only.
- Python's `str()`/`repr` of a value does not model quote selection or escaping inside strings, or floats. JSON numbers are integers.
- JSON objects are sequences of entries, and a lookup finds the first entry for a key. Python's `json` decoding keeps the last value of a duplicated key, so for such a key the model reads a different value.
- Values of the wrong JSON shape that make the source raise outside its `try` blocks are not modelled. Examples: `"status": null`, a non-list `issuelinks`, a non-dict comment author. `StatusName` reads "" for these.
- An empty dict as `outwardIssue` is falsy in Python and falls through to `inwardIssue`. The model treats a present issue reference as truthy.
- Sorting the candidates in place: the model computes only the sorted list's head (`SelectLatest`), the only element the source uses.
- `format_elapsed_time`: `total_seconds()` is a float; the model uses exact integer microseconds.
- `compliance_rate`: uses `real` instead of a float.
- The `first_response` definition is missing from `SLA_DEFINITIONS`, so `check_first_response` raises `KeyError` as shipped. The model takes the definition as a parameter instead.
