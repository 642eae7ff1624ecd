# Verified model of the invoice back end

A Dafny model of the invoice engine and the login throttle of a multi-tenant invoicing service, with
proofs of what they promise. `dafny verify dfyconfig.toml` checks everything.

| part | files |
|---|---|
| invoice numbers: the format language, rendering, the two-transaction protocol | `Decimals`, `NumberFormat`, `Storage`, `Numbering` |
| invoice life: totals, handlers, the overdue sweep, whole runs, what each request does | `Model`, `Money`, `Calendar`, `Lifecycle`, `Runs`, `Requests`, `Handlers` |
| reports and their Redis cache | `Redis`, `Cache`, `Analytics`, `Reports`, `System` |
| search and paging | `Ascii`, `Search`, `Arithmetic`, `Paging`, `Listing` |
| payment methods | `PaymentMethods` |
| login throttle | `Throttle`, `AttemptBound` |

`Storage.Database`, `Redis.Connection`, `Numbering.CreateSession`, `Handlers.WorkingCopy`,
`Handlers.InvoiceService`, `Reports.ReportService` and `Throttle.LoginThrottle` are classes whose methods
run the code's steps; each method is proved against a function of the old state, and the laws are lemmas
about those functions and about runs of them. A handler is one atomic step: it works on a copy of the rows
that it commits or drops. Numbering alone is interleaved, step by step, over any number of sessions.

## Assumptions

- For the claim that numbers never collide, the locked SELECT returns the committed row: either it reads it
  (`Lock(true)`), or the row that create_invoice loaded earlier in the same session
  (app/api/v1/endpoints/invoices.py:243) is still current, as it is when nobody takes a number of that tenant
  in between (`LoadedRowStays`). Whether the locked query refreshes that object is library behaviour;
  `StaleReadsCollide` shows what happens if it returns an outdated one. Uniqueness of committed numbers
  (`CommittedNumbersUnique`) does not depend on it.
- The sample a format renders fits into memory. A width of many digits, as in `{sequence:09999999999999d}`,
  would raise a MemoryError that the validator does not catch; the model answers that the sample is too long.
- Decimal is exact. Columns of type Numeric(10,2) round to a nearest cent, ties either way, and hold at
  most eight digits before the point; the database refuses a row that needs more (`Model.Fits`).
- A Redis key is live strictly before its expiry time, and one clock serves Redis and the program.
  A missing Redis client behaves as a connection whose calls all fail without effect.
- A listing is paged over a fixed, ordered result; list_invoices itself gives no ORDER BY.
- Tenant ids are what str(uuid4()) produces. A superadmin without a tenant has an id that names none.

## Where the code and its documentation, or an expected law, disagree

- validate_invoice_number_format documents a False for any invalid format. Its parse at
  app/api/v1/endpoints/invoices.py:67-71 is outside the try block, so a format with unbalanced braces
  raises ValueError, and every create_invoice of that tenant fails. `ValidateExactly` says exactly when, with
  balance defined on the characters (`Balanced`); `RaisesOnUnclosedBrace` is an instance.
- A rejected request leaves the database as it was except a create that already took a number: its counter
  increment is committed. `RejectedLeavesState` gives the exact condition, `RejectedCreateCounts` an instance.
- One would conjecture that a failing client gets at most 12 * (floor(T/3600) + 1) attempts in T seconds. This
  holds from a failure whose count, as record_failed_attempt returns it, is 1 or has reached the long
  threshold, whatever the settings (`FailuresFrom`), and with the defaults from no other: after each count
  from 2 to 8 thirteen failures can follow in 2824 seconds, that one included (`BoundExactly`,
  `LateCountsBreak`). From every failure 12 * (floor(T/3600) + 2) holds (`FailuresInAnyInterval`); 17 failures
  within 2828 seconds do occur (`IntervalsStraddle`).
- Failures are documented to be tracked for one hour. When Redis fails between INCR and EXPIRE the counter
  never expires, and counts every later failure until a login succeeds (`UnexpiringExactly`,
  `UnexpiringCountsOn`).
- A cooldown may stop being reported up to a second before it is over, because both clock values are
  truncated (`CooldownReports`).
- has_next agrees with page < pages for every total exactly when skip is a multiple of limit
  (`HasNextIffAligned`).
- A cached empty revenue list is falsy and is computed again (`Reports.Truthy`).

## Model

| member | source | states |
|---|---|---|
| NumberFormat.ParseUnparse | app/api/v1/endpoints/invoices.py:57-71 | every template of the documented format language is read back from its text |
| NumberFormat.MalformedIffUnbalanced | app/api/v1/endpoints/invoices.py:66-71 | parsing a format fails exactly on unbalanced braces, where balance is a condition on the characters alone |
| NumberFormat.ValidateExactly | app/api/v1/endpoints/invoices.py:63-99 | a format is accepted iff its braces balance, it names known fields only, has a sequence field and a sample of at most 100 characters; the validator raises iff the braces do not balance |
| NumberFormat.SampleDiffers | app/api/v1/endpoints/invoices.py:94-97 | the sample of a format with a sequence field always differs from the format, so that check never rejects |
| NumberFormat.RaisesOnUnclosedBrace | app/api/v1/endpoints/invoices.py:63-71 | an unclosed brace makes the validator raise instead of answering False |
| NumberFormat.DefaultFormat | app/api/v1/endpoints/invoices.py:162-168 | the fallback format is valid and parses to prefix, date and a four-digit sequence |
| NumberFormat.RenderInjective | app/api/v1/endpoints/invoices.py:178-183 | for any template with a sequence field, of any widths, distinct sequence numbers render to distinct strings, on the same or different days |
| NumberFormat.RenderReads | app/api/v1/endpoints/invoices.py:178-183 | a rendered number can be cut by the template: the prefix, the date, each literal character and the padded numeral stand where the template has them |
| Decimals.ValueOfZeroPadded | app/api/v1/endpoints/invoices.py:60-61 | a zero-padded sequence number can be read back from its digits |
| Decimals.ZeroPaddedIsNumeral | app/api/v1/endpoints/invoices.py:60-61 | the padded numeral has the width asked for, denotes the number, and is padded no further |
| Numbering.CreateSession.LoadTenant | app/api/v1/endpoints/invoices.py:243-248 | the first SELECT of create_invoice moves the session exactly as the protocol step says |
| Numbering.CreateSession.LockTenant | app/api/v1/endpoints/invoices.py:153-159 | the locked SELECT takes the row lock and keeps the row it returned, or fails with 404 |
| Numbering.CreateSession.IssueNumber | app/api/v1/endpoints/invoices.py:161-192 | validate, increment, render and commit: the new counter, the released lock and the number held, or a failure that leaves the counter |
| Numbering.IssuedNumberReads | app/api/v1/endpoints/invoices.py:161-183 | a number issued is cut by the tenant's template (the default one if it is rejected) into the tenant's prefix or INV, the date, the literals and the counter just committed |
| Numbering.DefaultNumberReads | app/api/v1/endpoints/invoices.py:162-183 | with no format, the default or a rejected one, the number issued reads prefix-date-counter, the counter in at least four digits |
| Numbering.CreateSession.InsertInvoice | app/api/v1/endpoints/invoices.py:295-316 | the insert adds the invoice under its number, or fails with 400 when the number or the id is taken and with 500 when an amount is too large for its column |
| Numbering.CommittedNumbersUnique | app/models/invoice.py:169-175 | over every interleaving of sessions, aborts, edits, deletions and setting changes, committed (tenant, number) pairs stay unique, whatever locked reads return |
| Numbering.NumberingNeverCollides | app/api/v1/endpoints/invoices.py:124-192 | if every locked read of a tenant returns its committed row and its prefix and format stay: no number is issued twice even after deletion, no two sessions hold one number, the counter equals the numbers issued, and no insert is rejected by the constraint |
| Numbering.LoadedRowStays | app/api/v1/endpoints/invoices.py:243-258 | a locked read that returns the row loaded before is harmless if no session took a number of that tenant, and nobody changed its settings, since the load |
| Numbering.StaleReadsCollide | app/api/v1/endpoints/invoices.py:243-258 | if the locked read is stale, two overlapping sessions of any tenant get the same number, one increment is lost and the second insert gets 400 |
| Money.TotalsIgnoreOrder | app/api/v1/endpoints/invoices.py:195-225 | the four totals do not depend on the order of the items |
| Money.StoredTotalWithinOneCent | app/models/invoice.py:192-195 | after each column is rounded to cents, total differs from subtotal + tax - discount by at most one cent |
| Money.StoredSubtotalDrift | app/models/invoice.py:224-226 | the stored subtotal differs from the sum of n stored line totals by at most floor((n+1)/2) cents |
| Money.DriftIsReal | app/models/invoice.py:224-226 | that drift occurs: two lines of half a cent are stored as two cents against a subtotal of one |
| Money.SubtotalAdds | app/api/v1/endpoints/invoices.py:209 | the exact subtotal is quantity times price for one item and adds up over more |
| Money.StoredTax | app/api/v1/endpoints/invoices.py:214-218 | the stored tax is the rate's share of the stored subtotal up to the rounding of both, 0 without a positive rate; the discount is 0 |
| Calendar.StringOrderIsCalendarOrder | app/tasks/invoice_tasks.py:55-61 | on YYYY-MM-DD texts, string order is the order of day numbers |
| Calendar.ParseIsoFormat | app/tasks/invoice_tasks.py:19-35 | a date written by isoformat is parsed back to itself |
| Runs.DueExactly | app/tasks/invoice_tasks.py:57-70 | for a YYYY-MM-DD due date, prefilter and loop test together select exactly a SENT invoice due before today |
| Runs.SweepExactly | app/tasks/invoice_tasks.py:54-80 | the sweep turns exactly those invoices OVERDUE, changes nothing else, and invalidates exactly their tenants |
| Runs.SweepTwice | app/tasks/invoice_tasks.py:54-87 | a second sweep on the same day changes nothing and touches no tenant |
| Handlers.InvoiceService.BuildItems | app/api/v1/endpoints/invoices.py:275-286 | the item loop stores every line with its product, and yields the exact line totals |
| Handlers.InvoiceService.Create | app/api/v1/endpoints/invoices.py:229-316 | create_invoice performs its atomic step: counter, number, row, 400/404/422/500, invalidation |
| Handlers.InvoiceService.Update | app/api/v1/endpoints/invoices.py:520-609 | update_invoice performs its atomic step, or commits nothing |
| Handlers.InvoiceService.UpdateStatus | app/api/v1/endpoints/invoices.py:613-704 | update_invoice_status performs its atomic step; the status assigned before the missing payment method is noticed is never committed |
| Handlers.InvoiceService.Delete | app/api/v1/endpoints/invoices.py:708-751 | delete_invoice performs its atomic step |
| Handlers.InvoiceService.Send | app/api/v1/endpoints/invoices.py:868-972 | send_invoice performs its atomic step |
| Handlers.InvoiceService.CheckOverdueInvoices | app/tasks/invoice_tasks.py:39-96 | the sweep commits the swept table and returns exactly the number of due invoices and of tenants that have one; when the database fails it changes nothing and returns an error |
| Runs.InvoiceLife | app/api/v1/endpoints/invoices.py:650-684 | over every run an invoice climbs DRAFT < SENT < OVERDUE < PAID in at most three changes; only a draft can disappear; once sent only status and payment data change, once paid nothing does |
| Runs.StepEvolves | app/api/v1/endpoints/invoices.py:551-604 | the same for one step of any handler |
| Requests.StatusExactly | app/api/v1/endpoints/invoices.py:613-704 | a status change succeeds exactly for a permitted user, one of the four documented transitions, and a payment method for PAID; it sets the status and the payment data and nothing else |
| Requests.ThroughSent | app/api/v1/endpoints/invoices.py:651-668 | over every run an invoice that was a draft or absent and is OVERDUE or PAID later was SENT in between |
| Requests.SendExactly | app/api/v1/endpoints/invoices.py:868-972 | sending succeeds exactly for a permitted user and a draft with an e-mail address whose PDF is made |
| Requests.DeleteExactly | app/api/v1/endpoints/invoices.py:708-751 | deletion succeeds exactly for a permitted user and a draft, and takes out that row alone |
| Requests.NoSuchInvoice | app/api/v1/endpoints/invoices.py:633-641 | an invoice of another tenant, or none, is a 404, or a 403 for those who may not ask |
| Runs.ReachableInvoices | app/api/v1/endpoints/invoices.py:275-293 | in every reachable state: numbers unique, payment data exactly on PAID invoices, amounts equal calculate_totals of the submitted items, stored totals within 1 cent and subtotals within 50 cents |
| Requests.ReachableAmounts | app/api/v1/endpoints/invoices.py:195-225 | in every reachable state the tax, the discount and each stored item column are what the submitted items and the rate make them, up to rounding |
| Runs.TaxRateInForce | app/api/v1/endpoints/invoices.py:567-598 | items are always totalled at the tax rate the tenant has when they are written |
| Runs.UpdateTotals | app/api/v1/endpoints/invoices.py:560-601 | replacing the items stores what creating with them, in any order, would store; a field-only update keeps items and amounts |
| Runs.UpdatesCompose | app/api/v1/endpoints/invoices.py:558-565 | an update that gives no field changes none, and of two updates the last value given to each field stays |
| Requests.UpdateWrites | app/api/v1/endpoints/invoices.py:551-604 | a successful update writes each given field into the column of its name, keeps the others, replaces the items only if given, and changes no other row |
| Requests.UpdateExactly | app/api/v1/endpoints/invoices.py:520-604 | an update gets as far as the commit exactly for a permitted user, a draft, acceptable values and no null name or issue date |
| Requests.CreateWrites | app/api/v1/endpoints/invoices.py:243-293 | a successful create appends one draft with the number issued, the user's id and tenant, the tenant's currency, and each field of the request in its column |
| Requests.CreateAnswers | app/api/v1/endpoints/invoices.py:229-316 | 422, 404 and 400 are answered exactly for unacceptable values, an unknown tenant, and a number or id that is taken |
| Requests.CreateStores | app/models/invoice.py:192-195 | a create with a free number succeeds exactly if every column has at most ten digits |
| Requests.ConfigureExactly | app/api/v1/endpoints/tenants.py:357-412 | settings are written, each in its column, exactly for a superadmin or the owner who keeps the currency; the counter stays |
| Runs.RejectedLeavesState | app/db/session.py:34-37 | a rejected request leaves the database unchanged iff it is not a create that took a number, and then only that counter changed |
| Runs.RejectedCreateCounts | app/api/v1/endpoints/invoices.py:163-190 | such a create exists: an item price with nine digits before the point gives 500, and the counter has moved |
| Runs.CreateIsProtocol | app/api/v1/endpoints/invoices.py:229-316 | the atomic create is the four protocol steps run alone, and answers 500, 400 or 201 as the last of them does |
| Runs.StatusStepMovesOne | app/api/v1/endpoints/analytics.py:58-115 | a successful status change or send moves one invoice and its amount from its old bucket to its new one, and no other bucket |
| Runs.DraftStepsKeepBuckets | app/api/v1/endpoints/analytics.py:58-115 | a successful create, update or delete moves no amount of the summary and no count but that of drafts |
| Runs.SweepMovesDue | app/api/v1/endpoints/analytics.py:58-115 | a sweep moves exactly the due invoices of each tenant, with their amounts, from SENT to OVERDUE |
| Runs.TenantIsolation | app/api/v1/endpoints/invoices.py:534-537 | requests by users of one tenant leave every other tenant's invoices, counter and settings unchanged |
| Analytics.ReportsAgree | app/api/v1/endpoints/analytics.py:58-194 | the four counts of the summary partition its total; the grouped list has one entry exactly for each status that occurs, with the summary's count and amount |
| Analytics.GroupsExactly | app/api/v1/endpoints/analytics.py:171-180 | one pass that accumulates a count and a sum for each status ends with exactly one group for each status that occurs, holding that status's count and sum |
| Analytics.ReplaceMoves | app/api/v1/endpoints/analytics.py:58-115 | replacing a row changes each count and sum by exactly what the row contributed and contributes |
| Cache.CacheKeyInjective | app/core/cache.py:66-68 | two cache keys are equal only for the same tenant and the same name |
| Cache.NamespacesDisjoint | app/core/cache.py:66-68 | no key lies in the namespaces of two tenants |
| Cache.InvalidationMatchesNamespace | app/core/cache.py:153-156 | the scan pattern of a tenant matches exactly the keys of its namespace |
| Cache.SetCache | app/core/cache.py:71-92 | the value is stored with its expiry, or the call reports failure and at most that entry changed |
| Cache.GetCache | app/core/cache.py:95-115 | what is returned is the live document under the key; with Redis up a miss means there is none |
| Cache.InvalidateTenantCache | app/core/cache.py:139-160 | only keys of the tenant go; on success no live one is left; with Redis up it succeeds |
| Reports.ReportService.GetInvoiceSummary | app/api/v1/endpoints/analytics.py:44-137 | answers with a live cached summary or the computed one, which it stores for 300 seconds |
| Reports.ReportService.RevenueGroups | app/api/v1/endpoints/analytics.py:182-194 | the loop turns each group of the query into one entry, in order |
| Reports.ReportService.GetRevenueByStatus | app/api/v1/endpoints/analytics.py:157-208 | the same for the revenue list, where a cached empty list is a miss |
| Reports.ServesFromCache | app/api/v1/endpoints/analytics.py:50-56 | with Redis up a live report is served unchanged and nothing is written, except that an empty list is computed again |
| Reports.ReportKeyInjective | app/api/v1/endpoints/analytics.py:51-53 | tenant, currency and kind of report can be read off a report key |
| System.StepKeepsCoherent | app/api/v1/endpoints/invoices.py:302-303 | with Redis up every handler, report request and passing of time keeps all live report entries equal to recomputation |
| System.ServedIsCurrent | app/api/v1/endpoints/analytics.py:50-56 | with Redis up, over every run, a served report equals recomputation from the current invoices |
| System.ServedIsRecent | app/api/v1/endpoints/analytics.py:129-135 | with any Redis call failing at any point, a served report is what recomputation gave in some state of the last 300 seconds |
| System.SystemIsolation | app/core/cache.py:153-157 | over every run of one tenant's users, other tenants keep rows, counter, settings and cache entries |
| Search.EscapeLikeIsEach | app/api/v1/endpoints/invoices.py:384-392 | the three replacements in their order escape each character once |
| Search.SearchIsSubstring | app/api/v1/endpoints/invoices.py:398-412 | matching against the escaped pattern holds exactly when the term occurs ignoring case; the pattern is valid under section 8.5 of ISO/IEC 9075-2:2003 |
| Search.WildcardsMatch | app/api/v1/endpoints/invoices.py:398-412 | in a pattern _ stands for any one character and an escaped character for itself |
| Search.OrderMatters | app/api/v1/endpoints/invoices.py:389-391 | escaping the backslash last would not be that escape |
| Paging.WalkCoversEverything | app/schemas/pagination.py:55-94 | following has_next yields every row once and in order, over exactly `pages` pages numbered from 1; all but the last are full, and has_previous and has_next are false on the first and the last alone |
| Paging.HasNextIffAligned | app/schemas/pagination.py:76-84 | has_next agrees with page < pages for every total iff skip is a multiple of limit |
| Listing.BrowseShowsExactlyWanted | app/api/v1/endpoints/invoices.py:319-489 | following has_next over the endpoint's answers shows, in table order, exactly the invoices of the user's tenant that meet the filters; the first answer is a 422 exactly when min_amount exceeds max_amount |
| Listing.RefusedExactly | app/api/v1/endpoints/invoices.py:321-353 | 422 is answered exactly outside the declared bounds of the parameters, or when min_amount exceeds max_amount |
| PaymentMethods.NormalizeIsDecide | app/models/invoice.py:82-112 | the result depends only on the trimmed, lower-cased text with separator runs collapsed; the last enum lookup never succeeds |
| PaymentMethods.LabelsNormalizeBack | app/models/invoice.py:51-59 | any spelling of a display label, up to case and separators, normalizes back to its method |
| PaymentMethods.TwoWordsSpelled | app/models/invoice.py:90-112 | two words in any case, with any separators between and white space around, are read as the alias joined by an underscore, else as the alias written together, else as invalid |
| PaymentMethods.OneWordSpelled | app/models/invoice.py:90-112 | so is one word in any case with white space around |
| PaymentMethods.AliasExactly | app/models/invoice.py:61-79 | the alias table reads the listed words as their methods and no others |
| Ascii.StripExactly | app/models/invoice.py:93-95 | stripping removes the white space around a text, all of it and nothing else |
| Throttle.LoginThrottle.RecordFailedAttempt | app/core/login_throttle.py:59-84 | the counter is incremented and given its window on the first failure; whichever call fails, the store and the answer are those of the calls that took effect, and the answer is 0 unless all succeeded; no other key changes |
| Throttle.UnexpiringExactly | app/core/login_throttle.py:73-84 | a failure leaves a counter without expiry exactly when it is the first of its window, its INCR took effect and no EXPIRE did |
| Throttle.UnexpiringCountsOn | app/core/login_throttle.py:73-81 | such a counter counts every later failure, at any distance in time, until a success removes it |
| Throttle.LoginThrottle.IsInCooldown | app/core/login_throttle.py:134-162 | reports the truncated remaining time, or removes a cooldown that has run out; when Redis fails it reports that time or none |
| Throttle.LoginThrottle.ApplyDelay | app/core/login_throttle.py:189-222 | in a cooldown nothing is slept or changed; otherwise the delay of the count is set as cooldown and slept in full; when Redis fails it is one of the two |
| Throttle.LoginThrottle.GetThrottleStatus | app/core/login_throttle.py:224-247 | reports the live counter, the remaining cooldown and the delay of that counter |
| Throttle.StatusAfterLogins | app/core/login_throttle.py:224-247 | after any history the status shows the failures of the window while it is open and none after it, and a lock exactly while LONG_THRESHOLD of them are in the window |
| Throttle.LoginThrottle.Login | app/api/v1/endpoints/auth.py:250-373 | both failure paths record and delay, a success clears both keys |
| Throttle.CooldownReports | app/core/login_throttle.py:147-184 | after a cooldown of d seconds the reported time is between 1 and d, never rises, and is reported exactly before floor(t) + d |
| Throttle.FailureCools | app/core/login_throttle.py:206-222 | a failure outside a cooldown leaves one as long as its delay; a failure meanwhile is counted, not delayed, and does not prolong it |
| Throttle.CheckedExactly | app/core/login_throttle.py:147-162 | looking at a cooldown removes it exactly when its time has come |
| Throttle.SuccessForgets | app/core/login_throttle.py:86-107 | a success leaves no failures and no cooldown of the account on record, and no other key changed |
| Throttle.CounterRefines | app/core/login_throttle.py:73-81 | over every history of logins the Redis counter is the failures since the later of the last success and the start of the fixed window, and expires with it |
| Throttle.OpenedMeans | app/core/login_throttle.py:73-81 | since the window opened there are only failures, all inside it; before it came a success or an elapsed window |
| Throttle.DelayNeverFalls | app/core/login_throttle.py:109-132 | with ordered thresholds and delays, more failures never mean a shorter delay |
| AttemptBound.WindowIsCounter | app/core/login_throttle.py:73-81 | the window a client is in, followed failure by failure, opened when the specified counter did and holds its count |
| AttemptBound.NeverInCooldown | app/core/login_throttle.py:206-210 | a sequential failing client never meets the cooldown return: every failure waits the delay of its count |
| AttemptBound.SequentialIffWaits | app/api/v1/endpoints/auth.py:266-300 | the runs of such a client over Redis, and the counts it is given, are exactly those of the counter without Redis |
| AttemptBound.SequentialIffSpaced | app/core/login_throttle.py:109-132 | the runs of such a client are exactly the sequences of times in which each failure is followed no sooner than 0, the short, the medium or the long delay later, by the range its count is in |
| AttemptBound.DelaysByCount | app/core/login_throttle.py:125-132 | the delay slept after each failure of a run is the one of its range; with the defaults 0, 2, 30 and 900 seconds at counts 1-3, 4-5, 6-8 and from 9 on |
| AttemptBound.FailuresPerWindow | app/core/config.py:113-133 | every count such a client is given is at most LONG_THRESHOLD - 1 + ceil(WINDOW / LONG_DELAY), so no window holds more failures |
| AttemptBound.FailuresFrom | app/core/login_throttle.py:73-84 | for all ordered settings: from a failure given count 1, or a count that has reached LONG_THRESHOLD, T seconds hold at most bound * (floor(T / WINDOW) + 1) failures; from count 1 at most bound * floor(T / WINDOW) + LONG_THRESHOLD + floor((T mod WINDOW) / LONG_DELAY) |
| AttemptBound.BoundExactly | app/core/login_throttle.py:73-84 | with the defaults, that bound holds over all runs from every failure given a count iff the count is 1 or at least LONG_THRESHOLD |
| AttemptBound.LateCountsBreak | app/core/config.py:113-133 | from every count between 2 and 8 there is a run with 13 failures in 2824 seconds |
| AttemptBound.FailuresInAnyInterval | app/core/config.py:113-133 | from any failure, T seconds hold at most bound * (floor(T / WINDOW) + 2) |
| AttemptBound.IntervalsStraddle | app/core/config.py:113-133 | with the defaults 17 failures fit within 2828 seconds |

## Left out

- NumberFormat.ValidateExactly: format constructs outside the documented grammar (specifications other than a zero, digits and a `d`, conversions, nested or indexed fields) parse as `Undocumented` and are outside the claims; some of them are not injective.
- The 50-character column limit on invoice numbers, Decimal precision limits, and float division in the page count beyond 2^53.
- Interleavings inside lifecycle handlers: the code takes no lock on invoices, so those claims are for handlers run one at a time.
- Throttle.LoginThrottle.Login: user lookup and password checks are an abstract outcome, and audit rows and tokens are not modelled; the calls of one request happen at one instant, apart from the sleep.
- Throttle.LoginThrottle.ApplyDelay: the cooldown time is stored as a number, not as the text of a float.
- Lifecycle.ParseDueDate: due dates in other forms than YYYY-MM-DD are read by an arbitrary function, which covers compact, week and date-time forms without saying what they mean.
- Schema checks other than the item limits and the customer name length (e-mail syntax, other lengths, date syntax).
- Listing.BrowseShowsExactlyWanted: creation times, and with them the start_date and end_date filters and their 422.
- Database collations other than code-point order.
- JSON encoding of cached reports, and the order in which the database returns groups: groups come in the order in which their statuses first occur.
- format_payment_method on strings, and non-ASCII case folding and white space.
- Tenant and user administration beyond the settings that numbering, totals and reports read; e-mail, PDF, uploads, exports, tokens, rate limiting, audit logs and metrics.
