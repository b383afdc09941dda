# Agent dashboard API: a Dafny model

The dashboard watches a fleet of n8n chat agents. Its server answers a few
JSON routes over five tables: agent executions, captured leads, observed
FAQs, model prices and dashboard users. This project models the logic of
those route handlers:

- **Metrics** (`GET /api/metrics`) aggregates the executions, leads and FAQs
  of a date window. It reports:
  - total cost and token use;
  - success rate;
  - active agents;
  - a per-day timeline;
  - a per-agent ranking;
  - a model distribution;
  - the five most frequent questions;
  - percentage changes against the window of equal length that ends where
    this one starts.

  An execution without a recorded cost is priced from its tokens and the
  price table.
- **FAQs** (`GET /api/faqs`) filters the FAQ rows and merges rows whose
  questions normalise to the same key. The key is trimmed, lower-cased,
  stripped of punctuation, with runs of white space collapsed. Each merged
  group adds up its rows' frequencies, and the hundred most frequent groups
  are returned.
- **Executions** (`GET /api/executions`) and **Leads** (`GET /api/leads`)
  are filtered listings, newest first, one page at a time. The execution
  listing fills in estimated costs.
- **Maintenance** (`POST /api/maintenance/clean`) is for administrators only.
  It either purges executions and/or FAQs older than a number of days, or
  empties the executions, FAQs and leads tables outright.
- **Users** (`GET`/`POST /api/users`): administrators list accounts, newest
  first, and create new ones.
- **Profile** (`GET`/`PATCH /api/profile`): signed-in users read their own
  account and update it. A new email or password needs the current password,
  and an email held by another account is refused.

The modules follow the program:

| Module | Contents |
|---|---|
| `Common` | `Option`, `Result` and the failure kinds |
| `Text` | The string functions the handlers call: `toLowerCase`, `trim`, and case-insensitive containment |
| `Seqs`, `Grouping` | Filter, stable sort, sums, and a group-by whose accumulator keeps `Object.values` insertion order |
| `Records`, `Store` | The rows, and the `Database` class that the writing handlers mutate |
| `Time` | Days and local end-of-day |
| `Paging` | `skip`/`take` and page counts |
| `Cost` | The cost estimator |
| `MetricsTotals`, `MetricsGroups`, `MetricsFaqs`, `Metrics` | The metrics handler |
| `Faqs` | The FAQ handler |
| `Executions` | The executions handler |
| `Leads` | The leads handler |
| `Maintenance` | The maintenance handler |
| `Users` | The users handler |
| `Profile` | The profile handler |

Each `reduce` in the source is a `method` with a loop. It is proved equal to
a recursive specification function, and the facts the dashboard relies on
are lemmas about that function:

- sums are preserved;
- every group holds exactly the rows of its key;
- orderings hold.

Handlers that change the database take a `Database` object and state its
whole new state.

The code is followed where the design description of the system differs
from it:

- **Duplicate email.** The description reports a duplicate email on
  account creation as a conflict. The handler answers 400, and so does
  `Users.CreateUser`.
- **Password confirmation.** The description mentions a password
  confirmation check that no handler performs, so the model has none.
- **Window overlap.** The previous window is described as "immediately
  preceding" the current one. Both windows include their end points, so
  they share the instant `start`. `MetricsTotals.WindowsShareStart` states
  exactly this.

## Model

| member | source | states |
|---|---|---|
| Cost.BuildPricingMap | dashboard-n8n-eskailet-main/app/api/metrics/route.ts:30-37 | The loop over the price rows builds the price map keyed by lower-cased model name, the later row for a name replacing the earlier |
| Cost.PricingMapLookup | dashboard-n8n-eskailet-main/app/api/metrics/route.ts:31-37 | A key is in the price map exactly when some row's lower-cased name equals it, and its price is that of the last such row |
| Cost.RecordedCostWins | dashboard-n8n-eskailet-main/app/api/metrics/route.ts:42-43 | A positive recorded cost is returned unchanged, whatever the tokens and prices |
| Cost.EstimateIgnoresRecorded | dashboard-n8n-eskailet-main/app/api/metrics/route.ts:42-43 | A zero or negative recorded cost plays no part: the estimate is the same as for a row with no cost |
| Cost.EstimateBranches | dashboard-n8n-eskailet-main/app/api/metrics/route.ts:45-58 | Without a recorded cost, at the price the pricing table charges for the execution's model: input and output tokens both present are each priced at that row's per-million rate; otherwise the total is split 70/30 between input and output; with neither the cost is 0 |
| Cost.ChargedIsResolved | dashboard-n8n-eskailet-main/app/api/metrics/route.ts:45-46 | The price found through the pricing map is the table's: the last row named like the model, else the last row named like gpt-4o-mini, else 0.15/0.60 |
| Cost.PriceResolution | dashboard-n8n-eskailet-main/app/api/metrics/route.ts:45-46 | The price used is the model's own row; with no row for the model, the gpt-4o-mini row; with neither, 0.15/0.60 per million |
| Cost.FallbackWhenTableEmpty | dashboard-n8n-eskailet-main/app/api/metrics/route.ts:46 | With an empty price table every estimate uses 0.15 and 0.60 per million tokens, written out for each branch |
| Cost.WorkedExamples | dashboard-n8n-eskailet-main/app/api/metrics/route.ts:48-58 | At prices 1 and 2 per million: 1M input plus 1M output tokens cost 3.0, and 1M total tokens cost 1.3 |
| Cost.CostNonNegative | dashboard-n8n-eskailet-main/app/api/metrics/route.ts:39-59 | With non-negative prices and token counts, every cost is non-negative |
| Cost.TokenCostNonNegative | dashboard-n8n-eskailet-main/app/api/metrics/route.ts:50-55 | Pricing non-negative token counts at non-negative rates gives a non-negative cost |
| Cost.EstimatorsAgree | dashboard-n8n-eskailet-main/app/api/executions/route.ts:44-62 | The listing's estimator looks a missing model up under "" and the metrics one under gpt-4o-mini; when no price row has an empty name, the two give the same cost for every execution |
| MetricsTotals.PreviousWindow | dashboard-n8n-eskailet-main/app/api/metrics/route.ts:26-28 | The previous window is as long as the current one and ends where the current one starts |
| MetricsTotals.WindowsShareStart | dashboard-n8n-eskailet-main/app/api/metrics/route.ts:26-28 | An instant lies in both inclusive windows exactly when it is the current window's start |
| MetricsTotals.ComputeTotalCost | dashboard-n8n-eskailet-main/app/api/metrics/route.ts:66 | The cost reduce returns the sum of the execution costs |
| MetricsTotals.TotalCostNonNegative | dashboard-n8n-eskailet-main/app/api/metrics/route.ts:66 | With non-negative prices and token counts, the total cost is non-negative |
| MetricsTotals.ComputeTotalTokens | dashboard-n8n-eskailet-main/app/api/metrics/route.ts:72-76 | The token reduce returns the sum over the executions of the reported total, or input plus output when no total is reported |
| MetricsTotals.TokensFromParts | dashboard-n8n-eskailet-main/app/api/metrics/route.ts:72-76 | When no execution reports a positive total, the token total is all input tokens plus all output tokens |
| MetricsTotals.StatusPartition | dashboard-n8n-eskailet-main/app/api/metrics/route.ts:67-69 | Successes plus errors count every execution |
| MetricsTotals.SuccessRateBounds | dashboard-n8n-eskailet-main/app/api/metrics/route.ts:150 | The success rate lies in [0, 100]: it is 0 with no executions or no successes, and 100 when all succeed |
| MetricsTotals.PercentChangeMeaning | dashboard-n8n-eskailet-main/app/api/metrics/route.ts:143-144 | With a positive previous value, current = previous × (1 + change/100), the change is positive iff the value grew and zero iff unchanged, and never below -100 for a non-negative current; otherwise the change is 0 |
| MetricsTotals.AgentNames | dashboard-n8n-eskailet-main/app/api/metrics/route.ts:86 | The set of agent names holds exactly the names of the executions |
| MetricsTotals.ActiveAgentsBounds | dashboard-n8n-eskailet-main/app/api/metrics/route.ts:86 | Active agents are at most the executions, and at least one when there is any execution |
| MetricsGroups.BuildTimeline | dashboard-n8n-eskailet-main/app/api/metrics/route.ts:117-131 | The timeline reduce's loop computes the group-by-day specification |
| MetricsGroups.AddToTimeline | dashboard-n8n-eskailet-main/app/api/metrics/route.ts:118-130 | One callback step: create the day's entry if absent, then add the execution to it, leaving other days alone |
| MetricsGroups.DayClosedForm | dashboard-n8n-eskailet-main/app/api/metrics/route.ts:119-129 | A day's entry holds the cost sum, the count, the successes, the non-successes and the token total of exactly that day's executions |
| MetricsGroups.TimelineMapEntries | dashboard-n8n-eskailet-main/app/api/metrics/route.ts:117-131 | The map has one entry per day on which something ran, and none other; each entry summarises that day's executions |
| MetricsGroups.TimelineOrder | dashboard-n8n-eskailet-main/app/api/metrics/route.ts:132 | The timeline is in strictly ascending date order with one entry per active day |
| MetricsGroups.TimelineEntries | dashboard-n8n-eskailet-main/app/api/metrics/route.ts:117-132 | Every timeline entry is an active day summarised from exactly its executions, with successes plus errors equal to its count |
| MetricsGroups.TimelineCostSum | dashboard-n8n-eskailet-main/app/api/metrics/route.ts:120-121 | The daily costs add up to the total cost |
| MetricsGroups.TimelineCountSums | dashboard-n8n-eskailet-main/app/api/metrics/route.ts:122-127 | The daily counts add up to the number of executions and the daily tokens to the token total |
| MetricsGroups.TimelineStatusSums | dashboard-n8n-eskailet-main/app/api/metrics/route.ts:128-129 | The daily successes and errors add up to the overall ones |
| MetricsGroups.BuildAgentMap | dashboard-n8n-eskailet-main/app/api/metrics/route.ts:134-140 | The agent reduce's loop computes the group-by-agent specification |
| MetricsGroups.AddToAgentMap | dashboard-n8n-eskailet-main/app/api/metrics/route.ts:135-139 | One callback step: create the agent's entry (a missing name counts as "Unknown") and add the execution to it |
| MetricsGroups.AgentClosedForm | dashboard-n8n-eskailet-main/app/api/metrics/route.ts:136-138 | An agent's entry holds the count and the cost sum of exactly that agent's executions |
| MetricsGroups.AgentMapEntries | dashboard-n8n-eskailet-main/app/api/metrics/route.ts:134-140 | One entry per agent label that occurs, none other, each summarising that agent's executions |
| MetricsGroups.AgentEntries | dashboard-n8n-eskailet-main/app/api/metrics/route.ts:141 | The ranking is by descending count, names are distinct, one per agent, each entry summarising that agent's executions |
| MetricsGroups.AgentCountSum | dashboard-n8n-eskailet-main/app/api/metrics/route.ts:137 | The per-agent counts add up to the number of executions |
| MetricsGroups.AgentCostSum | dashboard-n8n-eskailet-main/app/api/metrics/route.ts:138 | The per-agent costs add up to the total cost |
| MetricsGroups.BuildModelMap | dashboard-n8n-eskailet-main/app/api/metrics/route.ts:78-83 | The model reduce's loop computes the group-by-model specification |
| MetricsGroups.AddToModelMap | dashboard-n8n-eskailet-main/app/api/metrics/route.ts:79-82 | One callback step: create the model's entry (a missing model counts as "Unknown") and count the execution |
| MetricsGroups.ModelClosedForm | dashboard-n8n-eskailet-main/app/api/metrics/route.ts:80-81 | A model's count is the number of executions that used it |
| MetricsGroups.ModelEntries | dashboard-n8n-eskailet-main/app/api/metrics/route.ts:78-84 | The distribution names each used model once, counts its executions, and the counts add up to the number of executions |
| MetricsFaqs.AddToTopMap | dashboard-n8n-eskailet-main/app/api/metrics/route.ts:107-110 | One callback step: create the group keyed by the trimmed lower-cased question with frequency 0, then add the row's frequency or 1 |
| MetricsFaqs.BuildTopMap | dashboard-n8n-eskailet-main/app/api/metrics/route.ts:106-111 | The FAQ reduce's loop computes the group-by-question specification |
| MetricsFaqs.TopClosedForm | dashboard-n8n-eskailet-main/app/api/metrics/route.ts:108-109 | A group is its first row with the frequency replaced by the sum of its rows' effective frequencies |
| MetricsFaqs.RankedGroupsEntries | dashboard-n8n-eskailet-main/app/api/metrics/route.ts:113-114 | The ranked groups are the map's values reordered by descending frequency, one per key |
| MetricsFaqs.TopFaqsOrder | dashboard-n8n-eskailet-main/app/api/metrics/route.ts:113-115 | At most five groups, by descending frequency, distinct keys, and all groups when fewer than five exist |
| MetricsFaqs.TopFaqsGroups | dashboard-n8n-eskailet-main/app/api/metrics/route.ts:106-115 | Each listed group is the merge of exactly the rows of its key |
| MetricsFaqs.TopFaqsCutoff | dashboard-n8n-eskailet-main/app/api/metrics/route.ts:113-115 | A group left out is no more frequent than any group listed |
| MetricsFaqs.TopFrequencyTotal | dashboard-n8n-eskailet-main/app/api/metrics/route.ts:109 | The group frequencies add up to the rows' effective frequencies |
| Records.EffectiveFrequency | dashboard-n8n-eskailet-main/app/api/metrics/route.ts:109 | A null or zero frequency counts once, any other counts as itself |
| Metrics.ReportWindow | dashboard-n8n-eskailet-main/app/api/metrics/route.ts:19-24 | The window starts at `from` or the first of the month, and ends at the last millisecond of the local day of `to` or of the month's end |
| Metrics.GetMetrics | dashboard-n8n-eskailet-main/app/api/metrics/route.ts:5-162 | Without a session, 401; otherwise the report over the resolved window |
| Metrics.ReportCounts | dashboard-n8n-eskailet-main/app/api/metrics/route.ts:146-162 | In the report, successes plus errors are the executions, the rate is in [0, 100], active agents are at most the executions, the timeline, agent and model counts each add up to the executions, and at most five FAQs |
| Metrics.ReportCosts | dashboard-n8n-eskailet-main/app/api/metrics/route.ts:146-162 | The timeline and per-agent costs add up to the total cost, the timeline tokens to the token total; with non-negative inputs the cost is non-negative and its change at least -100 |
| Metrics.EmptyWindow | dashboard-n8n-eskailet-main/app/api/metrics/route.ts:66-86 | A window holding no execution reports zero executions, zero rate, zero cost, no active agents and empty timeline, ranking and distribution |
| Time.UtcDay | dashboard-n8n-eskailet-main/app/api/metrics/route.ts:118 | The day of an instant is the UTC day containing it |
| Time.EndOfLocalDay | app/api/leads/route.ts:38-39 | The result is the last millisecond of the same local day: within a day after the input and followed by local midnight |
| Time.EndOfLocalDayBound | app/api/leads/route.ts:37-41 | An instant is at or before that end exactly when its local day is not later |
| Text.ContainsSpec | dashboard-n8n-eskailet-main/app/api/executions/route.ts:26 | `Contains` holds exactly when the term occurs at some position |
| Text.TrimSpec | dashboard-n8n-eskailet-main/app/api/metrics/route.ts:107 | Trimming returns a contiguous slice of the input with only white space removed around it |
| Text.TrimEnds | dashboard-n8n-eskailet-main/app/api/metrics/route.ts:107 | A trimmed string is empty or neither starts nor ends with white space |
| Text.ToLowerIdempotent | dashboard-n8n-eskailet-main/app/api/faqs/route.ts:34 | Lower-casing twice is lower-casing once |
| Faqs.StripPunctKeeps | dashboard-n8n-eskailet-main/app/api/faqs/route.ts:35 | Stripping punctuation keeps exactly the other characters, in order |
| Faqs.CollapseSpacesShape | dashboard-n8n-eskailet-main/app/api/faqs/route.ts:36 | After collapsing no two white-space characters are adjacent, the string is no longer, empty only if the input was, and starts with white space only if the input did |
| Faqs.CollapseSpacesKeepsText | dashboard-n8n-eskailet-main/app/api/faqs/route.ts:36 | Collapsing keeps every non-space character in order |
| Faqs.CollapseSpacesFixed | dashboard-n8n-eskailet-main/app/api/faqs/route.ts:36 | A string with no adjacent white space is left unchanged |
| Faqs.CollapseSpacesIdempotent | dashboard-n8n-eskailet-main/app/api/faqs/route.ts:36 | Collapsing twice is collapsing once |
| Faqs.CollapseSpacesNoPunct | dashboard-n8n-eskailet-main/app/api/faqs/route.ts:35-36 | Collapsing introduces no punctuation |
| Faqs.NormalizedShape | dashboard-n8n-eskailet-main/app/api/faqs/route.ts:32-36 | A key has no adjacent white space and no punctuation |
| Faqs.SameKeyExample | dashboard-n8n-eskailet-main/app/api/faqs/route.ts:32-36 | "A, b!" and " a  b" both normalise to "a b", so their rows merge |
| Faqs.NotIdempotentExample | dashboard-n8n-eskailet-main/app/api/faqs/route.ts:32-36 | Normalising is not idempotent: "! a" gives " a", which normalises again to "a" |
| Faqs.FetchedRows | dashboard-n8n-eskailet-main/app/api/faqs/route.ts:17-28 | The fetched rows are exactly those matching the agent and search filters, newest first |
| Faqs.NoFilterFetchesAll | dashboard-n8n-eskailet-main/app/api/faqs/route.ts:17-28 | With neither filter every row is fetched |
| Faqs.AddToGroupMap | dashboard-n8n-eskailet-main/app/api/faqs/route.ts:38-59 | One callback step: create the group for the row's key, then merge the row into it |
| Faqs.BuildGroupMap | dashboard-n8n-eskailet-main/app/api/faqs/route.ts:31-60 | The reduce's loop computes the group-by-key specification |
| Faqs.GroupIdentity | dashboard-n8n-eskailet-main/app/api/faqs/route.ts:38-47 | A group keeps the id, question and category of its first row |
| Faqs.GroupFrequency | dashboard-n8n-eskailet-main/app/api/faqs/route.ts:49 | A group's frequency is the sum of its rows' frequencies, a null or zero counting once |
| Faqs.GroupAgent | dashboard-n8n-eskailet-main/app/api/faqs/route.ts:43-53 | A group's agent is that of its first row naming one, or the first row's when none does |
| Faqs.GroupDate | dashboard-n8n-eskailet-main/app/api/faqs/route.ts:45-57 | A group's date is the latest date among its rows |
| Faqs.GroupMatches | dashboard-n8n-eskailet-main/app/api/faqs/route.ts:31-60 | A group built from rows that pass the filters passes them too |
| Faqs.GetFaqs | dashboard-n8n-eskailet-main/app/api/faqs/route.ts:5-66 | Without a session, 401; otherwise the merged list |
| Faqs.RankedEntries | dashboard-n8n-eskailet-main/app/api/faqs/route.ts:62-63 | The ranked groups are the map's values reordered by descending frequency, one per key |
| Faqs.FaqListOrder | dashboard-n8n-eskailet-main/app/api/faqs/route.ts:62-64 | At most 100 groups, by descending frequency, distinct keys, and all groups when fewer than 100 exist |
| Faqs.FaqListGroups | dashboard-n8n-eskailet-main/app/api/faqs/route.ts:31-64 | Each listed group is the merge of exactly the fetched rows of its key |
| Faqs.FaqListCutoff | dashboard-n8n-eskailet-main/app/api/faqs/route.ts:62-64 | A group left out is no more frequent than any listed |
| Faqs.FaqTotal | dashboard-n8n-eskailet-main/app/api/faqs/route.ts:49 | The group frequencies add up to the rows' effective frequencies |
| Faqs.FaqListMatches | dashboard-n8n-eskailet-main/app/api/faqs/route.ts:17-64 | Every listed group passes the agent and search filters |
| Paging.Skip | dashboard-n8n-eskailet-main/app/api/executions/route.ts:21 | The number of rows skipped is never negative |
| Paging.TotalPages | dashboard-n8n-eskailet-main/app/api/executions/route.ts:97 | The page count is the least whose pages hold every row: zero exactly when there are no rows |
| Paging.PageOf | dashboard-n8n-eskailet-main/app/api/executions/route.ts:66-81 | A page holds at most `limit` consecutive rows starting after the skipped ones, and a full `limit` when that many remain |
| Paging.PagesCoverRows | app/api/leads/route.ts:44-62 | Every row appears on some page between 1 and the page count, at its position within that page |
| Paging.PageBeyondLastIsEmpty | dashboard-n8n-eskailet-main/app/api/executions/route.ts:97 | A page past the last is empty |
| Paging.ListingRows | app/api/leads/route.ts:44-49 | A listing holds exactly the matching rows, newest first |
| Paging.ListingPage | dashboard-n8n-eskailet-main/app/api/executions/route.ts:66-81 | A page of a listing is newest first and every row on it matches |
| Executions.ExecutionMatchesSpec | dashboard-n8n-eskailet-main/app/api/executions/route.ts:26-32 | The filter holds exactly when the agent term occurs case-insensitively, the model is equal and the start lies in the given bounds |
| Executions.ListedRows | dashboard-n8n-eskailet-main/app/api/executions/route.ts:66-82 | The listing holds exactly the matching executions, newest first; with no filter, all of them |
| Executions.WithCost | dashboard-n8n-eskailet-main/app/api/executions/route.ts:86-89 | Each listed execution is unchanged except that its cost is the estimator's |
| Executions.WithCostKeepsRecorded | dashboard-n8n-eskailet-main/app/api/executions/route.ts:44-46 | A row with a positive recorded cost is listed unchanged, any other with the estimate from its tokens |
| Executions.MatchesIgnoresCost | dashboard-n8n-eskailet-main/app/api/executions/route.ts:86-89 | Filling in the cost does not change whether a row matches |
| Executions.GetExecutions | dashboard-n8n-eskailet-main/app/api/executions/route.ts:5-99 | Without a session, 401; otherwise the requested page with costs filled in and the pagination block |
| Executions.ExecutionListingCount | dashboard-n8n-eskailet-main/app/api/executions/route.ts:91-99 | At most `limit` rows; `total` counts every match whatever the page; the pages hold them all; a page past the last is empty |
| Executions.ExecutionListingOrder | dashboard-n8n-eskailet-main/app/api/executions/route.ts:76-78 | A page is newest first |
| Executions.ExecutionListingMatches | dashboard-n8n-eskailet-main/app/api/executions/route.ts:66-89 | Every execution on a page matches the filter |
| Leads.OccursSpec | app/api/leads/route.ts:24-33 | Case-insensitive containment holds exactly when the lower-cased term occurs in the lower-cased field |
| Leads.LeadMatchesSpec | app/api/leads/route.ts:23-42 | A lead passes exactly when each given term occurs in one of its fields and its date is at or after the start and its local day not after the end date's |
| Leads.ListedRows | app/api/leads/route.ts:44-53 | The listing holds exactly the matching leads, newest first; with no filter, all of them |
| Leads.GetLeads | app/api/leads/route.ts:5-64 | Without a session, 401; otherwise the requested page and the pagination block |
| Leads.LeadListingPage | app/api/leads/route.ts:44-63 | At most `limit` leads, newest first, each matching; `total` counts every match; the pages hold them all; a page past the last is empty |
| Maintenance.Cutoff | app/api/maintenance/clean/route.ts:37-38 | The cutoff lies `days` days before now, so in the past for positive days and in the future for negative ones |
| Maintenance.PurgeSplits | app/api/maintenance/clean/route.ts:45-65 | The rows kept are exactly those at or after the cutoff, the rows deleted exactly those before, and together they are the table |
| Maintenance.PurgeExecutions | app/api/maintenance/clean/route.ts:45-54 | Deletes exactly the executions started before the cutoff, reports how many, touches no other table |
| Maintenance.PurgeFaqs | app/api/maintenance/clean/route.ts:56-65 | Deletes exactly the FAQs dated before the cutoff, reports how many, touches no other table |
| Maintenance.Clean | app/api/maintenance/clean/route.ts:5-70 | Non-admins get 401 and change nothing; a factory reset empties executions, FAQs and leads and reports their old sizes; a missing or zero `days` gets 400 and changes nothing; otherwise each selected table loses its rows older than the cutoff; users and prices never change |
| Users.GetUsers | app/api/users/route.ts:6-27 | Non-admins get 401; otherwise the summaries of all accounts, newest first |
| Users.ListedUsers | app/api/users/route.ts:14-25 | The list is a reordering of every account, one summary each, newest first |
| Users.Summaries | app/api/users/route.ts:15-21 | One summary per account with its id, email, name, role and last login |
| Users.Public | app/api/users/route.ts:66-71 | The answer carries the id, email, name and role, and no password hash |
| Users.IndexOfId | app/api/profile/route.ts:14-22 | Finds a row holding the id, or reports that none does |
| Users.IndexOfIdUnique | app/api/profile/route.ts:43-45 | With unique ids, the row found by id is the one holding it |
| Users.IndexOfEmail | app/api/users/route.ts:49-51 | Finds a row holding the email, or reports that none does |
| Users.FreshId | app/api/users/route.ts:59-65 | The new account's id is held by no existing row |
| Users.AppendKeepsUnique | app/api/users/route.ts:49-65 | Appending an account with a new id and email keeps ids and emails unique |
| Users.CreateUser | app/api/users/route.ts:34-74 | Non-admins get 401; an empty email, password or name gets 400; a registered email gets 400; otherwise exactly one account is appended with the hashed password and the role or VIEWER; a refusal changes nothing; the unique keys stay unique |
| Profile.GetProfile | app/api/profile/route.ts:6-24 | Without a session, 401; otherwise the caller's account, or none exactly when no row holds their id |
| Profile.SoleHolder | app/api/profile/route.ts:69-73 | With unique emails, the row found by email is the only one holding it |
| Profile.Updated | app/api/profile/route.ts:51-81 | Only a non-empty name, email or new password changes the row; the id, role and timestamps are kept |
| Profile.UpdateKeepsUnique | app/api/profile/route.ts:67-76 | Replacing the caller's row by one whose email no other account holds keeps ids and emails unique |
| Profile.UpdateProfile | app/api/profile/route.ts:31-94 | Checks in order: 401, 404, a sensitive change without the current password, a wrong current password, an email held by another account, each 400 and changing nothing; otherwise only the caller's row changes; the unique keys stay unique |

## Left out

- Authentication: the session is a parameter, either no session or an id and a role.
- Clocks and time zones: the clock is a parameter, and local time is a fixed offset from UTC. Daylight saving time and calendar months are not modelled. The month's first and last instants are given, not computed.
- Database and I/O: the tables are sequences, and Prisma failures and the 500 answers are not modelled. The two parallel queries of a listing are read from the same state.
- Case folding is ASCII only. Prisma's `insensitive` mode and JavaScript's `toLowerCase` also fold non-ASCII letters.
- Numbers: money is a real number rather than a double, so rounding is not modelled. Null token counts, costs and frequencies are 0, and every use in the source treats null and 0 alike.
- Invalid dates are not modelled: a date parameter is an instant or absent.
- Missing request body fields are empty strings.
- Order of ties: the model's sorts are stable, as JavaScript's `Array.prototype.sort` is, so groups of equal frequency or count keep their `Object.values` order. Two things are not modelled:
  - the order in which the database returns rows whose `orderBy` values are equal, and the order of every query without an `orderBy` (the executions, leads and FAQs the metrics handler reads). That order decides the order of `modelDistribution`, the order of agents with equal counts, and which row is each FAQ group's first row (its id, question and category). The model's sequences stand for whatever order the database returns;
  - `Object.values` putting integer-like keys first, ahead of insertion order.
- Keys inherited from `Object.prototype`: every accumulator and the price map in the source are plain `{}` objects, so `acc[key]` and `pricingMap[key]` also find inherited members such as `constructor`, `toString`, `valueOf` or `__proto__`. The model's group lists and maps hold only what was put in them. The lines below name each member whose promise then differs from the source, the helpers and the lemmas built on them alike; each promise holds only when no key names an inherited member.
- Faqs.AddToGroupMap: a question that normalises to "constructor" gets a group in the model; in the source `!acc[key]` is false, no group is created and the question is missing from the list. Faqs.RankedEntries, Faqs.FaqListGroups, Faqs.FaqListOrder and Faqs.FaqTotal assume no key names an inherited member.
- MetricsFaqs.AddToTopMap: a question that trims and lower-cases to "constructor" or "__proto__" gets a group in the model and none in the source. MetricsFaqs.RankedGroupsEntries, MetricsFaqs.TopFaqsOrder and MetricsFaqs.TopFrequencyTotal assume no such key.
- MetricsGroups.AddToAgentMap: an agent named like an inherited member (for example "toString" or "constructor") gets an entry in the model; in the source its executions are missing from `executionsByAgent`. MetricsGroups.AgentCountSum, MetricsGroups.AgentCostSum and Metrics.ReportCounts assume no such name.
- MetricsGroups.AddToModelMap: a model named like an inherited member gets an entry in the model; in the source its executions are missing from `modelDistribution`. MetricsGroups.ModelEntries assumes no such name.
- Cost.PriceResolution: a model key of "constructor" or "__proto__" resolves in the source to an inherited member with no prices, so the estimate is NaN; the model charges the gpt-4o-mini row or the fallback pair. Cost.ChargedIsResolved and Cost.EstimateBranches assume no such key.
- Cost.CostNonNegative: a model key of "constructor" or "__proto__" gives a NaN cost in the source, which is not non-negative; the model's cost is a real number priced at the gpt-4o-mini row or the fallback pair.
- MetricsTotals.TotalCostNonNegative: one NaN cost from an inherited model key makes the source's total NaN; the model's total stays a non-negative real.
- MetricsGroups.AgentMapEntries: an agent named like an inherited member has no entry in the source's map, while the model's map has one entry per agent label that occurs.
- MetricsGroups.AgentEntries: the ranking has one entry per agent label in the model; in the source an agent named like an inherited member is missing from it.
- Metrics.ReportCosts: the per-agent costs add up to the total cost, and the total cost is non-negative, only when no agent is named like an inherited member and no model key is "constructor" or "__proto__"; otherwise the source drops those agents' costs or gives a NaN total.
- Hashing and comparing passwords are function parameters; bcrypt itself is not part of this model.
- The execution listing's `include` of the related lead's name and email is not modelled.
- The `users/[id]` route, the seed and debug routes, authentication configuration and the dashboard pages are not part of this model.
- Paging.Skip: requires page >= 1, which is stronger than the source. The source passes whatever `parseInt` returns to Prisma.
- Paging.PageOf: requires page >= 1 and limit >= 1; zero, negative and NaN values are not modelled.
- Executions.GetExecutions: requires page >= 1 and limit >= 1 after `parseInt`; the parsing itself is not modelled.
- Leads.GetLeads: requires page >= 1 and limit >= 1 after `parseInt`; the parsing itself is not modelled.
- Maintenance.Clean: `days` is an optional integer. These cases are not modelled:
  - a numeric string, a fractional number or a non-numeric value (the `isNaN` test);
  - the string "0", which JavaScript treats as true.

  The cutoff is `now` minus whole days of 24 hours; `setDate` across a daylight saving change is not.
- Users.CreateUser: `role` is an optional role value, and invalid role strings are not modelled (the store rejects them). The generated primary key is modelled by `FreshId`.
- Users.CreateUser: the store's unique constraints are preserved only when they held before.
- Profile.UpdateProfile: requires the store's unique constraints to hold beforehand.
