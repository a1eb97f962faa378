# A verified model of the finance service's ledger, audit trail, tenant registry, claims and object keys

This project models the parts of the finance service that hold its rules, and proves what they
guarantee over every input and every run.

- **The ledger** (`Ledger*.dfy`). Journal headers, journal lines, accounts and the general ledger
  are tables; a step is one SQL statement, which either changes the tables or leaves them as they
  were. `Ledger.dfy` says which statements are accepted and what they do, looking at the rows of a
  statement as a set. `LedgerEngine.dfy` runs the same statements the way the database does: row by
  row through BEFORE triggers, CHECKs and unique indexes, then foreign keys and AFTER triggers, with
  rollback. Every engine method is proved equal to the set-level step. `LedgerActive.dfy` says in the
  tables' own columns which lines the triggers add up, and when each statement is accepted. On top of
  that: double entry,
  conservation of the trial balance, the frozen posted entry and its general-ledger copies, the
  intended workflow, and what the service's own three queries can and cannot do.
- **The approval audit trail** (`Approval.dfy`). One trigger on seven tables; the log reconstructs
  each document's status path.
- **The tenant registry** (`Tenants.dfy`). Register, subscribe and mark; the cached schema column
  against the log, pending rows as a stack, distinct schema names.
- **Claims and roles** (`Claims.dfy`) and **object keys** (`Text.dfy`, `ObjectKeys.dfy`,
  `Slugs.dfy`, `Paths.dfy`).

Modelling conventions. `numeric(14,2)` is an integer number of cents with its range
(`Sql.MAX_CENTS`); a sum that does not fit raises. NULL is `None`, CHECKs use three-valued logic and
refuse only on FALSE. A table is a sequence of rows keyed by its primary key; the position of a row
is its place in the heap and no result depends on it except where a lemma says so. Unique indexes are
checked as each row is written, as the database does for constraints that are not deferrable.
Timestamps, generated UUIDs, the runtime's visiting order of a map, the current date and the Unicode
tables are parameters. Lemmas switch automatic induction off so that their bodies are their proofs,
and `hide` keeps definitions a proof does not need out of its way.

What the code does that its comments do not say:

- `PostJournalToGL` neither looks at nor sets the header's status, copies inactive lines too, and
  copies amounts without applying the exchange rate (db/queries/finance.sql:119-168).
- The totals triggers treat totals as unset when just one of them is NULL, and look only at the new
  `je_id` of an updated line. `LedgerExamples` shows the consequences; `LedgerMoves` says exactly when
  moving a line does no harm, and `LedgerBounds` what holds whatever is moved.
- The seeded approval codes are in upper case (db/finance_lookups_insert.sql:43-49) while the trigger
  compares with mixed-case literals (db/schema.sql:1015-1020), so with seeded codes every entry says
  StatusChanged.
- `UpdateInvoiceStatus` sets `modified_at` and `modified_by`, which `ar_invoice` does not have
  (db/queries/finance.sql:32-41); the model uses a general row UPDATE.
- `mark_module_provisioned` leaves ties of `ORDER BY provisioned_at DESC LIMIT 1` open
  (db/tenant_registry_schema.sql:191-194); the row its query returns is a parameter of the step.
- The "tenant" fallback of `slugifyName` can never be reached (internal/storage/s3.go:258-260).

## Model

| member | source | states |
|---|---|---|
| Ledger.HeaderOk | db/schema.sql:272-293 | the header CHECKs in three-valued logic admit exactly totals that are positive where set and equal where both are set, so one may be NULL alone |
| Ledger.LineOk | db/schema.sql:312-329 | the line CHECKs admit exactly amounts not negative where set and one-sided where both are set |
| LedgerEngine.Engine.PreventPostedLines | db/schema.sql:354-373 | raises exactly when a header with the new je_id, or the old one of a DELETE, has the status "POSTED"; a missing header never raises |
| LedgerEngine.Engine.ValidateHeaderTotals | db/schema.sql:376-411 | with the sums held in numeric(14,2) variables that may overflow, raises exactly when both totals are set and differ from the exact debits and credits of the lines with that je_id and is_active true |
| LedgerEngine.Engine.ValidateLineTotals | db/schema.sql:414-459 | the same from the side of a line, through the header of its entry |
| LedgerActive.ActiveSumGrows | db/schema.sql:384-391 | a line adds its set debit and credit to the summed amounts of its own entry if is_active is TRUE, and nothing if it is FALSE or NULL |
| LedgerActive.ActiveSums | db/schema.sql:384-391 | the summed amounts are those of the lines that je_id and is_active = true select |
| LedgerActive.InactiveLinesDoNotCount | db/schema.sql:384-439 | adding or dropping lines that are not active changes neither trigger's answer for any header |
| LedgerActive.InsertHeadersAcceptedIff | db/schema.sql:260-298 | an INSERT of headers is accepted if and only if each passes its CHECKs and ids and numbers stay distinct; a DELETE always is |
| LedgerActive.UpdateHeaderAcceptedIff | db/schema.sql:260-411 | an UPDATE of a header is accepted if and only if the header is there and not POSTED, the new totals fit its active lines and pass the CHECKs, and no other header has its number |
| LedgerActive.InsertLinesAcceptedIff | db/schema.sql:296-459 | an INSERT of lines is accepted if and only if every row passes its CHECKs and has an account and a header that is not POSTED, ids and line numbers stay distinct, and each header that gains a line has totals that fit its active lines |
| LedgerActive.LineVersionsOkIff | db/schema.sql:296-459 | the set-level checks of an UPDATE of lines, in the same terms |
| LedgerActive.DeleteLinesAcceptedIff | db/schema.sql:354-459 | a DELETE of lines is accepted if and only if none belongs to a POSTED entry and each header that loses a line has totals that fit the active lines that stay |
| LedgerActive.UpdateAccountIff | db/schema.sql:296-330 | an account is renamed if and only if it exists and no other has the code, and no other changes |
| LedgerActive.DeleteAccountIff | db/schema.sql:296-330 | an account is deleted if and only if no line and no ledger row refers to it, and no other goes |
| LedgerEngine.Engine.InsertHeaders | db/schema.sql:260-294 | the row-by-row INSERT with rollback is the set-level step, adds all rows or none, and keeps all keys, CHECKs and foreign keys |
| LedgerEngine.Engine.UpdateHeaders | db/schema.sql:337-411 | the row-by-row UPDATE through both BEFORE triggers is the set-level step: it replaces just the rows it has versions of, or restores the old state |
| LedgerEngine.Engine.DeleteHeaders | db/schema.sql:298 | deleting headers, POSTED ones included, is never refused, and removes exactly their lines |
| LedgerEngine.Engine.CascadeEntry | db/schema.sql:354-373 | the line triggers of a cascade find no header and never raise |
| LedgerEngine.Engine.InsertLines | db/schema.sql:354-459 | the multi-row INSERT through BEFORE and AFTER row triggers is the set-level step: it adds all rows, or restores the old state |
| LedgerEngine.Engine.UpdateLines | db/schema.sql:354-459 | the multi-row UPDATE is accepted exactly when the set-level checks hold and each written row keeps line numbers unique; it replaces just the rows it has versions of, or restores the old state |
| LedgerEngine.Engine.DeleteLines | db/schema.sql:354-459 | the multi-row DELETE is the set-level step over the entries of the deleted rows: it takes away just the named lines, or restores the old state |
| LedgerEngine.Engine.PostToGl | db/queries/finance.sql:119-168 | the nested loops of the two joins append exactly one copy per line of the entry, in line order, and nothing for an absent entry; all else stays |
| LedgerOrder.UpdateAcceptedIff | db/schema.sql:321 | for the row order at hand, an UPDATE of lines is accepted if and only if its set-level checks hold and no version takes the (je_id, line_no) that a row visited later still has |
| LedgerOrder.UpdateAcceptedInEveryOrderIff | db/schema.sql:321 | an UPDATE is accepted in every row order if and only if its set-level checks hold and no version takes the key another row of the UPDATE had |
| LedgerOrder.UpdateAcceptedInSomeOrderIff | db/schema.sql:321 | an UPDATE is accepted in some row order if and only if its set-level checks hold and no rows of it take each other's keys in a circle |
| LedgerOrder.UpdateIsSetLevel | db/schema.sql:321 | an UPDATE that keeps je_id and line_no of every row is accepted exactly when its set-level checks hold, with the same outcome in every row order |
| LedgerOrder.UpdateChecksOrderIrrelevant | db/schema.sql:354-459 | the set-level checks of an UPDATE, and the table it leaves, do not depend on the row order |
| LedgerOrder.UpdateOrderIrrelevant | db/schema.sql:354-459 | an UPDATE no version of which takes the key of another of its rows, je_id changed or not, has the same outcome in every row order |
| LedgerOrder.InsertOrderIrrelevant | db/schema.sql:354-459 | a multi-row INSERT is accepted in every row order or in none, and leaves the same rows |
| LedgerOrder.DeleteOrderIrrelevant | db/schema.sql:354-459 | a multi-row DELETE has the same outcome in every row order |
| LedgerExamples.RenumberingDependsOnOrder | db/schema.sql:321 | an UPDATE that shifts line numbers passes all set-level checks, is accepted from the last row and refused from the first |
| LedgerExamples.SwapAlwaysRefused | db/schema.sql:321 | one UPDATE that swaps two line numbers is refused in every row order |
| LedgerPosting.ConsistentNext | db/schema.sql:260-330 | every statement keeps keys unique, CHECKs satisfied and foreign keys resolved |
| LedgerPosting.ConsistentRun | db/schema.sql:260-330 | so does every run |
| LedgerBalance.TotalsAgreeNextIff | db/schema.sql:376-459 | a statement keeps every header in agreement with its active lines if and only if it is not an accepted line UPDATE that is an unsound move |
| LedgerBalance.TotalsAgreeRunIff | db/schema.sql:376-459 | headers agree with their lines all along a run if and only if every accepted line UPDATE of it is a sound move |
| LedgerBalance.KeptEntriesAreSound | db/schema.sql:376-459 | runs whose accepted line UPDATEs leave je_id alone are such runs |
| LedgerBalance.DoubleEntry | db/schema.sql:284-459 | after every such run from empty tables, an entry with both totals set has no lines, or active debits and credits that are equal, positive, equal to its totals and within numeric(14,2) |
| LedgerBounds.TotalsBoundRun | db/schema.sql:376-459 | in every run, je_id changes included, the active sums of an entry never exceed totals that are both set |
| LedgerBounds.SumsFit | db/schema.sql:376-459 | so in every run the active sums of an entry with both totals set are within numeric(14,2), and nothing was rounded |
| LedgerBounds.BeyondRangeStaysUnset | db/schema.sql:376-411 | an entry whose active sum exceeds 999999999999.99 on a side cannot be given both totals |
| LedgerBounds.BeyondRangeUnset | db/schema.sql:376-459 | and has an unset total after every run, je_id changes included |
| LedgerMoves.MoveKeepsTotalsIff | db/schema.sql:414-459 | an UPDATE that passes its checks, whether or not it changes je_id, keeps headers in agreement with their lines if and only if every entry that only loses lines, and keeps some, loses no active amount |
| LedgerExamples.PostedLineCanBeMoved | db/schema.sql:354-459 | from the empty tables the workflow leads to a POSTED entry one of whose lines can be moved to an open one, leaving the posted header contradicted by its lines |
| LedgerPosting.JoinIsExact | db/queries/finance.sql:143-168 | the two joins neither drop nor duplicate: one row per line of the entry, none for an absent entry |
| LedgerPosting.PostedRow | db/queries/finance.sql:119-168 | each posted row carries its line's identity, amounts and dimensions, the header's status, date, source, currency and rate, and its account's present code |
| LedgerPosting.PostSums | db/queries/finance.sql:143-168 | a post adds to each side of the ledger the sum over all lines of the entry, active or not |
| LedgerPosting.DriftIsPostedImbalance | db/queries/finance.sql:119-168 | conservation in every run: ledger debits minus credits change by exactly the imbalances of the posted entries |
| LedgerBalance.PostKeepsDriftIff | db/queries/finance.sql:165-168 | posting an entry with both totals set and lines keeps the balance exactly when its inactive lines balance among themselves |
| LedgerBalance.TrialBalance | db/queries/finance.sql:119-168 | total debits equal total credits in every run of sound moves that posts only entries without lines, or with both totals set and all lines active, however often |
| LedgerExamples.UnsetTotalsPostUnbalanced | db/schema.sql:284-294 | an entry with just one total set takes a single debit line, and posting it unbalances the ledger |
| LedgerSnapshot.PostedHeaderNext | db/schema.sql:337-351 | a statement leaves a POSTED header as it is if and only if it does not delete it |
| LedgerSnapshot.PostedHeaderStays | db/schema.sql:337-351 | a POSTED header keeps every column in every run that does not delete it: no UPDATE reopens it |
| LedgerSnapshot.PostedFrozenIff | db/schema.sql:337-373 | an accepted statement leaves a POSTED entry, header and lines, unchanged if and only if it neither deletes the header nor moves a line away |
| LedgerSnapshot.SnapsNext | db/queries/finance.sql:119-168 | a post adds one copy of the entry's lines to its own ledger rows and nothing to another entry's |
| LedgerSnapshot.SnapshotAgreement | db/schema.sql:337-373 | from POSTED on, in every run that does not release the entry, header and lines stay and k posts add exactly k copies of the lines |
| LedgerApi.SingleLineRefused | db/queries/finance.sql:101-117 | a single active line is never accepted as the first line of an entry with both totals set |
| LedgerApi.ApiNeverPostsTotals | db/queries/finance.sql:83-168 | from any tables in which no entry with both totals set is filled, and in every run of CreateJournalEntry, CreateJournalLine and PostJournalToGL between which accounts may come and go, entries with both totals set stay without lines, and every entry in the general ledger has an unset total |
| LedgerExamples.ApiPostsHalfSet | db/queries/finance.sql:83-168 | such a run from empty tables does insert a line, for an entry with one total set, and post it |
| LedgerWorkflow.WorkflowNeverRefused | db/schema.sql:260-459 | for lines that pass their row checks and whose active sides both add up to a total in range, creating the header, adding lines one by one, setting totals, marking POSTED and posting is never refused |
| LedgerWorkflow.WorkflowComplete | db/queries/finance.sql:83-168 | and ends with the entry POSTED, its lines in place and exactly one new ledger row per line |
| Approval.LoggedSays | db/schema.sql:1002-1037 | one UPDATE logs one entry for each row that changes a status, in row order, with the row's document, both statuses, the last updater, else the approver, else the creator, the remarks or "", and the action its new status stands for |
| Approval.HistoryIsTrue | db/schema.sql:1002-1073 | every entry in the log of any run was written by an UPDATE of the run that did to the document what the entry says |
| Approval.InsertAndDelete | db/schema.sql:1040-1073 | inserting and deleting documents logs nothing and changes just the named ones |
| Approval.LoggedOnce | db/schema.sql:1002-1037 | one UPDATE logs for a document one step if its status changes and nothing otherwise |
| Approval.LoggedOrderIrrelevant | db/schema.sql:1040-1073 | what a multi-row UPDATE logs for a document does not depend on the row order |
| Approval.HistoryIsStatusPath | db/schema.sql:1002-1073 | in every run the log of a document is the consecutive pairs of its destuttered status traces, one trace per time it was inserted |
| Approval.PathReconstructed | db/schema.sql:1002-1073 | for a document inserted once the log is a chain from its inserted status to its present one without a step that stays in place |
| Approval.SeededActionsAreGeneric | db/schema.sql:1015-1020 | with the seeded codes every logged action is StatusChanged |
| Approval.AuditedTables.UpdateRows | db/schema.sql:1002-1073 | writes all rows, then fires the trigger per row; the log only grows, by one entry for each row that changed a status that says who, what and why; an unknown status code leaves tables and log as they were |
| Tenants.DerivedSlugChars | db/tenant_registry_schema.sql:114 | in the slug derived from a name capitals become small, small letters and digits stay, and anything else is an underscore |
| Tenants.DerivedSlugOk | db/tenant_registry_schema.sql:114 | the slug derived from a name is well-formed exactly when the name is not empty |
| Tenants.SlugsKept | db/tenant_registry_schema.sql:117-123 | every call keeps slugs well-formed and unique, and no call changes the slug of a registered tenant |
| Tenants.ColumnsAreLatest | db/tenant_registry_schema.sql:129-173 | after every run from the empty registry the schema column is the newest log row's schema, and a tenant has a module exactly when the log has a row for it |
| Tenants.SchemasDistinct | db/tenant_registry_schema.sql:144-166 | without explicit schema names, distinct tenant-module pairs have distinct schemas |
| Tenants.Registry.LatestPending | db/tenant_registry_schema.sql:191-194 | the search of the log finds one of the latest pending rows, whichever of several, and none only when none is pending |
| Tenants.MarkFindsNewestIff | db/tenant_registry_schema.sql:184-195 | every row the query of a mark may return is the latest open subscription if and only if no other open one has a timestamp as late |
| Tenants.ResolvedIsFinal | db/tenant_registry_schema.sql:184-195 | in every run, whatever rows the marks pick, log rows keep all but status and message, and resolved rows keep those too |
| Tenants.RowWasOpened | db/tenant_registry_schema.sql:144-169 | every log row of any run was appended by a subscribe of the run, with its tenant, module and time, and the schema name asked for or else module, underscore and slug |
| Tenants.RowWasClosed | db/tenant_registry_schema.sql:184-195 | a log row of any run that is no longer pending has the status and error of the mark of the run that picked it |
| Tenants.PendingCount | db/tenant_registry_schema.sql:168-196 | pending rows are accepted subscribes minus effective marks, in every run and whatever rows the marks pick |
| Tenants.PendingIsStack | db/tenant_registry_schema.sql:168-196 | when the timestamps of a tenant and module grow, its pending rows are the stack of its open subscriptions, so marks and subscribes match like brackets |
| Tenants.Registry.RegisterTenant | db/tenant_registry_schema.sql:104-127 | accepted exactly with a name and a well-formed slug, the given one before the derived one, that no other tenant has; a new tenant gets name, contact and slug, a known one new name and contact only; all others and the log stay |
| Tenants.Registry.SubscribeTenantToModule | db/tenant_registry_schema.sql:129-173 | refuses exactly unknown tenants and modules; stores the schema name asked for, or module, underscore and slug, in the module's column and in a new pending row, the newest open one; every other column and open subscription stays |
| Tenants.Registry.MarkModuleProvisioned | db/tenant_registry_schema.sql:175-197 | gives one of the latest open subscriptions of the pair the status and error it was called with and changes no other row; refuses an invalid status when one is open |
| Tenants.Registry.TenantHasModule | db/tenant_registry_schema.sql:63-80 | true exactly when the tenant exists and the module's column is set |
| Tenants.Registry.GetTenantSchema | db/tenant_registry_schema.sql:82-98 | raises exactly for an unknown module, and yields a schema exactly when the tenant has the module |
| Claims.ListClaimIsFirstLeaf | internal/auth/authenticator.go:139-161 | on any nested list the claim is the first non-empty string leaf from the left, and absent exactly when there is none |
| Claims.TenantClaim | internal/auth/authenticator.go:128-137 | succeeds exactly when the claim is there and yields a non-empty string, which is one of its leaves |
| Claims.ToStringSlice | internal/auth/authenticator.go:192-210 | the loop collects, in item order, the first non-empty leaf of each item that has one; string lists are taken as they are, a single value yields its own |
| Claims.LeavesAre | internal/auth/authenticator.go:139-161 | strings, named values and the first of a string list are leaves, a list has those of its items in order, anything else none |
| Claims.Dedupe | internal/auth/authenticator.go:212-226 | the loop with its seen set yields the first occurrences |
| Claims.OccurrencesMembers | internal/auth/authenticator.go:212-226 | which are the non-empty elements, all of them |
| Claims.OccurrencesDistinct | internal/auth/authenticator.go:212-226 | each once |
| Claims.OccurrencesInOrder | internal/auth/authenticator.go:212-226 | in the order in which they first occur |
| Claims.ExtractRoles | internal/auth/authenticator.go:163-181 | the loops over realm and resource sections yield, each once, the non-empty roles the token offers, for any visiting order |
| Claims.RolesAreOffered | internal/auth/authenticator.go:163-226 | a role is extracted exactly when it is non-empty and the "roles" of the realm or of some resource section list it, or have an item whose first non-empty leaf it is |
| Claims.RolesMembers | internal/auth/authenticator.go:163-226 | a role is extracted exactly when it is non-empty and the realm or some resource section lists it |
| Claims.RolesOrderIndependent | internal/auth/authenticator.go:163-226 | any two visiting orders give the same roles, without duplicates or empty strings, realm roles first |
| Claims.HasRole | internal/common/principal.go:19-26 | true exactly for the extracted roles |
| ObjectKeys.DotRunShrinks | internal/storage/s3.go:223 | one left-to-right removal shrinks each maximal run of dots to its length modulo two |
| ObjectKeys.NoDotDotLeft | internal/storage/s3.go:223 | so no ".." is left after one pass |
| ObjectKeys.FileNameOfPath | internal/storage/s3.go:220-228 | the file name of a path is what follows the last slash, white space around the path and slashes at its end taken off first and ".." removed after |
| ObjectKeys.FileNameAlone | internal/storage/s3.go:220-228 | a name without slash loses white space around it and its ".." |
| ObjectKeys.FileNameIsSafe | internal/storage/s3.go:220-228 | a sanitized file name has no slash and no "..", and is not "." |
| ObjectKeys.FileNameAgainIff | internal/storage/s3.go:99-183 | sanitizing a second time changes nothing exactly when the first result has no white space at its ends |
| ObjectKeys.PathTokenChars | internal/storage/s3.go:209-218 | a path token is free of slashes and backslashes and has only characters of its source, unless it is "unknown" |
| ObjectKeys.TokenLosesSlashes | internal/storage/s3.go:212-213 | a token loses its slashes and backslashes and nothing else |
| ObjectKeys.PathTokenDotDotIff | internal/storage/s3.go:209-218 | a path token contains ".." exactly when two dots left by the removal have only slashes between them |
| ObjectKeys.PathTokenKeepsDotDot | internal/storage/s3.go:209-218 | "./." is such an input |
| Slugs.SlugifyName | internal/storage/s3.go:230-262 | the rune loop yields the words of the lower-cased, filtered input joined by single dashes, or the fallback's token; the last fallback is never used |
| Slugs.SlugIs | internal/storage/s3.go:230-262 | the slug joins by dashes the words of the lower-cased value without white space around it, or of the fallback when nothing else is left |
| Slugs.WordsAround | internal/storage/s3.go:240-252 | a space, dash, underscore or dot separates words |
| Slugs.WordsWithin | internal/storage/s3.go:240-252 | a text without these four is one word, its letters and digits, or none |
| Slugs.SlugIsSafe | internal/storage/s3.go:230-262 | for all inputs the slug is not empty and has no slash or backslash |
| Slugs.SlugIdempotent | internal/storage/s3.go:230-262 | a slug made of words is its own slug |
| Paths.PathJoinPlain | internal/storage/s3.go:206 | on plain elements path.Join is joining by slashes, and splitting undoes it |
| Paths.PaddedValue | internal/storage/s3.go:196-198 | zero padding keeps the number |
| Paths.KeyPieces | internal/storage/s3.go:177-206 | under any prefix the last nine pieces of a key are "tenants", slug and id of the tenant, "parties", slug and id of the party, the slug of the type, year, month and day as numbers of at least 4, 2 and 2 digits without needless zeros, and the unique id with the safe file name or the slug of the type and ".bin" |
| Paths.PathJoinUnder | internal/storage/s3.go:206 | plain elements after any others stay as they are, below what path.Join makes of the others |
| Paths.CleanRules | internal/storage/s3.go:206 | path.Clean drops a trailing slash and ".", lets ".." take back the element before it, drops it at the root and keeps it at the start of a relative path |
| Paths.KeyRecoversPartsIff | internal/storage/s3.go:177-207 | splitting a key without prefix recovers its nine parts if and only if no id has a slash |
| Paths.KeyWithPrefixIff | internal/storage/s3.go:202-206 | under any prefix a split key ends with its nine parts if and only if no id has a slash, and is then those parts below the cleaned prefix |
| Paths.KeysDistinct | internal/storage/s3.go:182-206 | uploads with different unique ids never share a key, whatever their ids, names and prefixes |
| Paths.TenantsSeparate | internal/storage/s3.go:190-206 | under any one prefix, tenants identified by UUIDs never share a folder, for parties whose ids have no slash, as UUIDs have none |

## Left out

- HTTP handlers, services and repositories, which are stubs or generated routing code.
- Token verification, S3 calls, connection pools, configuration, logging, scripts and the tenant session: I/O and library calls.
- Receivable and payable totals, allocations and advances: columns that no code computes or constrains.
- Concurrent transactions: statements and calls run one after another.
- Updates of a primary key, `je_id` of a header included, and TRUNCATE.
- Columns that only identify who wrote a row and when, and descriptive columns that no statement of the model reads.
- NOT NULL and type conversion errors: rows are given with their columns already typed and rounded to cents.
- References to accounts from bank accounts and payable tables: they could only make more account deletions fail.
- Account statements (insert, rename, delete) are steps of the ledger's runs but have no engine method; the repository has no query for them.
- Inserts and deletes of audited documents are steps of the audit runs; no trigger fires for them, so they have no method of their own.
- LedgerWorkflow.WorkflowComplete: assumes fresh ids, a fresh journal number and distinct line numbers, as the generated keys and unique constraints require.
- Tenants.PendingIsStack: needs growing timestamps, because subscribes of one transaction share now() and which of them the query returns is open; MarkFindsNewestIff gives the exact condition.
- The fallback file name "document.bin" of UploadPartyDocument (internal/storage/s3.go:99-102).
- Lower-casing in the tenant registry is ASCII; the slug code takes arbitrary Unicode tables that satisfy `ObjectKeys.Lawful`, as those of ASCII do (`ObjectKeys.AsciiIsLawful`).
