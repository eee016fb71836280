# cold-reach-app: campaign store, email scheduler and lead import in Dafny

This project models the back end of a desktop cold-outreach app. The app
keeps a SQLite database with leads (prospective customers) and campaigns.
The model covers:

- **The lead store** (`src/backend/leads.js`):
  - an upsert by unique name, which trims and upper-cases the area;
  - a filtered, optionally paged listing, newest update first;
  - the sorted list of distinct areas;
  - deletion by id.
- **The campaign store** (`src/backend/campaigns.js`):
  - campaigns and their `campaign_leads` assignments (one row per campaign and lead, with status READY, SENT or FAILED);
  - creating a campaign and attaching leads, by manual selection or by lead criteria;
  - the listing queries and the export;
  - status updates;
  - the tentative-date allocator `getTentativeSendDates`.
- **Sending one email** (`src/backend/emailService.js`):
  - personalising the template with two first-occurrence substitutions;
  - recording the transport's verdict on the assignment.
- **The campaign timer** (`src/backend/cronService.js`). One tick:
  - lists the ACTIVE campaigns (the first page of 20, newest start date first);
  - fetches up to 1000 READY rows of each;
  - sets a campaign with none to FINISHED;
  - mails every fetched row whose tentative send date has come.
- **Spreadsheet import rows** (`src/utils/xlsxUtils.js`):
  - keeps the rows with a non-blank name;
  - normalises their fields.
- **The upload hand-over** (`src/components/UploadLeadsDialog.js:14-17`): each imported record is passed unchanged to `addLead`.

Modules follow the source files:

| module | source file | file |
|---|---|---|
| `Common` | shared value wrappers | `common.dfy` |
| `Strings` | `trim`, `toUpperCase`, substring search, first-occurrence `replace`, the BINARY collation | `strings.dfy` |
| `Sequences` | `ORDER BY … DESC`, `LIMIT/OFFSET` | `sequences.dfy` |
| `Leads` | `leads.js` | `leads.dfy` |
| `Schedule` | `getTentativeSendDates` in `campaigns.js` | `schedule.dfy` |
| `Campaigns` | the rest of `campaigns.js` | `campaigns.dfy` |
| `Email` | `emailService.js` | `email.dfy` |
| `Cron` | `cronService.js` | `cron.dfy` |
| `SheetImport` | `processLeadsExcel` in `xlsxUtils.js` | `xlsx.dfy` |
| `Upload` | the `addLead` loop in `UploadLeadsDialog.js` | `upload.dfy` |

## How the model is built

**Tables**
- Each table is a sequence in rowid order.
- The state-changing operations are methods of two classes:
  - `Leads.LeadTable` holds the leads;
  - `Campaigns.CampaignStore` holds the campaigns and the assignments.
- Each method is proved to produce exactly the table that a pure function of the old table describes. That function's properties are proved as lemmas.
- Queries are pure functions.

**Time**
- Times are epoch milliseconds.
- `campaign_leads` keeps second-resolution text. `updated_at` comes from `datetime('now')`, and the tentative date is cut to 19 characters. So these columns hold `TruncateToSecond` of the time.
- `start_date` is free text, and it is ordered by SQLite's BINARY collation with NULL lowest.

**Failures and oracles**
- The store's failures are passed in as parameters:
  - the listing fails;
  - the fetch fails for some campaigns;
  - the outcome write fails for some pairs.
- The mail transport's verdict is an oracle `Key -> TransportResult`.

**The tick**
- `Cron.Tick` is a method with a loop over the visited campaigns.
- It is proved equal to `TickCampaigns` / `TickAssignments`. These functions state the tick's effect on the tables as they were when it started.
- The lemmas in `cron.dfy` state what that effect is.

**Behaviour worth knowing**

- **Reactivation.** The Start/Stop button (`src/components/CampaignDetailsPage.js:102`) sets any non-ACTIVE campaign to ACTIVE. That includes a FINISHED one, so a FINISHED campaign can be started again (`Campaigns.ToggleStatus`).
- **The bulk insert in force.** `campaigns.js` defines `addLeadsToCampaign` twice. The definition at line 236 replaces the one at line 121. It spaces tentative dates one minute apart from one `now`. The 300-a-day allocator `getTentativeSendDates` is never reached, so it is modelled on its own (`Schedule`).
- **A capped visit.** The listing call passes no page size, so a tick visits at most 20 ACTIVE campaigns, newest start date first (`Cron.VisitedSpec`). When there are at most 20 ACTIVE campaigns, every one is visited (`Cron.VisitedComplete`). When there are more than 20, some ACTIVE campaign is not visited (`Cron.VisitedIncomplete`).
- **Deleted leads.** An assignment whose lead was deleted is invisible to the join. A campaign whose only READY rows are such orphans counts as having none, and is FINISHED.

## Model

| member | source | states |
|---|---|---|
| `Strings.IndexOf` | src/backend/emailService.js:42-43 | the first occurrence of the pattern is found, and there is none before it; absent exactly when the text does not contain it |
| `Strings.ReplaceFirstAbsent` | src/backend/emailService.js:42-43 | replacing a pattern that does not occur leaves the text unchanged |
| `Strings.ReplaceFirstLayout` | src/backend/emailService.js:42-43 | when the pattern does not occur before `pre`'s end, `pre + p + post` becomes `pre + rep + post`, so later occurrences stay |
| `Strings.TrimIsSlice` | src/backend/leads.js:27 | `trim` yields a contiguous slice of its input with no whitespace at either end |
| `Strings.TrimIdempotent` | src/backend/leads.js:27 | trimming twice is trimming once |
| `Strings.TrimEmptyIff` | src/utils/xlsxUtils.js:12 | a string trims to "" exactly when it is all whitespace |
| `Strings.TrimToUpperCommute` | src/backend/leads.js:27 | trimming and upper-casing commute |
| `Strings.ToUpperIdempotent` | src/backend/leads.js:27 | upper-casing twice is upper-casing once |
| `Strings.LexTransitive` | src/backend/leads.js:177 | the BINARY text order is transitive |
| `Strings.LexTotal` | src/backend/leads.js:177 | any two different texts are ordered one way |
| `Sequences.SortDesc` | src/backend/campaigns.js:202 | the result is ordered by the key, descending, and is a permutation of the input |
| `Sequences.Window` | src/backend/campaigns.js:59 | LIMIT/OFFSET returns at most `limit` rows, contiguous from the clamped offset; exactly `limit` when enough remain, the rest otherwise |
| `Sequences.FirstPageEmptyIff` | src/backend/cronService.js:22 | the first page is empty exactly when there are no rows |
| `Leads.NormalizeArea` | src/backend/leads.js:26-30 | the area `addLead` stores: the trimmed, upper-cased area, or "N/A" when it is falsy or blank; its cases, shape and idempotence are the three lemmas below |
| `Leads.NormalizeAreaCases` | src/backend/leads.js:26-30 | a falsy or blank area is stored as "N/A"; any other area is stored trimmed and upper-cased |
| `Leads.NormalizeAreaShape` | src/backend/leads.js:26-30 | a stored area is non-empty, trimmed and has no lower-case ASCII letter |
| `Leads.NormalizeAreaIdempotent` | src/backend/leads.js:26-30 | re-adding a lead with its stored area does not change the area |
| `Leads.IndexOfName` | src/backend/leads.js:31-34 | finds a row with the name, or there is none |
| `Leads.Upsert` | src/backend/leads.js:25-84 | `addLead` by name: overwrite the row with that name, keeping its id, or append a row with the next id; the lemmas below state the invariant it keeps, both branches, name uniqueness and idempotence |
| `Leads.UpsertValid` | src/backend/leads.js:25-84 | `addLead` keeps the table invariant: ids increasing and below the counter, names unique |
| `Leads.UpsertNameUnique` | src/backend/leads.js:10 | afterwards exactly one row has the name, and it is the row whose id is returned |
| `Leads.UpsertExisting` | src/backend/leads.js:38-58 | with a row of that name: same id, same count, created_at kept, only that row overwritten from the input |
| `Leads.UpsertNew` | src/backend/leads.js:59-80 | without one: a row with the next id is appended, created_at = updated_at = now |
| `Leads.UpsertStored` | src/backend/leads.js:36-77 | the row behind the returned id has the input's name, its normalised area, its survey flag, and its details serialised ("{}" when absent) |
| `Leads.UpsertTwice` | src/backend/leads.js:25-84 | adding the same lead twice at one time equals adding it once |
| `Leads.RemoveId` | src/backend/leads.js:192-201 | the rows left are exactly those with another id |
| `Leads.RemoveIdAbsent` | src/backend/leads.js:194 | deleting a missing id changes nothing |
| `Leads.RemoveIdCount` | src/backend/leads.js:198 | one row fewer exactly when the id existed |
| `Leads.RemoveIdValid` | src/backend/leads.js:192-201 | deleting keeps the table invariant |
| `Leads.MatchingLeads` | src/backend/leads.js:107-141 | a row is selected exactly when it satisfies every supplied filter |
| `Leads.AllLeads` | src/backend/leads.js:93-169 | `getAllLeads`: the matches newest-updated first, paged only when both page and pageSize are given, with the total of all matches; stated by `AllLeadsWindow`, `AllLeadsMatch`, `AllLeadsOrdered`, `AllLeadsTotal`, `AllLeadsComplete` |
| `Leads.AllLeadsWindow` | src/backend/leads.js:143-150 | the listing is a contiguous run of the ordered matches, starting at (page-1)·pageSize when both are numbers |
| `Leads.AllLeadsMatch` | src/backend/leads.js:153-166 | every listed lead is in the table and matches |
| `Leads.AllLeadsOrdered` | src/backend/leads.js:160 | the listing is newest-updated first |
| `Leads.AllLeadsTotal` | src/backend/leads.js:152-157 | `total` counts every match, regardless of the page |
| `Leads.MatchingLeadsIgnoresPaging` | src/backend/leads.js:141-146 | page options do not affect which rows match |
| `Leads.AllLeadsComplete` | src/backend/leads.js:143-166 | unpaged, the listing holds each match exactly once; paged, at most pageSize rows |
| `Leads.InsertArea` | src/backend/leads.js:177 | keeps the list strictly ascending and adds exactly the new area |
| `Leads.AllAreas` | src/backend/leads.js:175-185 | strictly ascending (sorted, no duplicates), and an area is listed exactly when it is non-empty and some row has it |
| `Leads.LeadTable.AddLead` | src/backend/leads.js:25-84 | the table becomes the upsert of the old one and the returned id is the upserted row's |
| `Leads.LeadTable.DeleteLead` | src/backend/leads.js:192-201 | removes exactly the rows with the id; `deleted` tells whether one existed |
| `Schedule.TentativeSendDates` | src/backend/campaigns.js:109-119 | one date per lead id |
| `Schedule.SendDateAt` | src/backend/campaigns.js:113-117 | the i-th date is on day i div 300, at 5 s × (i mod 300) into that day |
| `Schedule.AtMostMaxPerDay` | src/backend/campaigns.js:110 | at most 300 dates fall on any day |
| `Schedule.SpacingWithinDay` | src/backend/campaigns.js:111 | consecutive dates on one day are 5 s apart |
| `Schedule.StrictlyIncreasing` | src/backend/campaigns.js:113-118 | the dates strictly increase along the list |
| `Schedule.ScheduleLandmarks` | src/backend/campaigns.js:113-118 | dates 0, 5, 299 and 300 are start, +25 s, +299·5 s and exactly one day later |
| `Schedule.NewYearScenario` | src/backend/campaigns.js:109-119 | from 2024-01-01T00:00:00Z the 301st lead is due at 2024-01-02T00:00:00Z |
| `Campaigns.ParseCampaignType` | src/backend/campaigns.js:15 | a type passes the CHECK exactly when it is EMAIL, SMS or WHATSAPP |
| `Campaigns.CampaignTypeRoundTrip` | src/backend/campaigns.js:15 | every campaign type's text passes the CHECK as that type |
| `Campaigns.StatusFromText` | src/backend/campaigns.js:14 | a stored text is never NULL |
| `Campaigns.StatusTextRoundTrip` | src/backend/campaigns.js:267-275 | any text can be stored as a status and reads back unchanged |
| `Campaigns.StatusFromTextInverse` | src/backend/campaigns.js:14 | a well-formed status is recovered from its stored text |
| `Campaigns.ToggleStatus` | src/components/CampaignDetailsPage.js:102 | the result is ACTIVE or STOPPED, and it is STOPPED exactly when the campaign was ACTIVE |
| `Campaigns.ToggleStatusInvolutive` | src/components/CampaignDetailsPage.js:102 | toggling twice restores ACTIVE or STOPPED |
| `Campaigns.ParseAssignmentStatus` | src/backend/campaigns.js:24 | the assignment status CHECK admits exactly READY, SENT, FAILED |
| `Campaigns.AssignmentStatusRoundTrip` | src/backend/campaigns.js:24 | each assignment status's text passes the CHECK as that status |
| `Campaigns.MatchingCampaigns` | src/backend/campaigns.js:41-54 | a campaign is selected exactly when it satisfies every supplied filter |
| `Campaigns.MatchingCampaignsDistinct` | src/backend/campaigns.js:56-57 | filtering keeps ids distinct |
| `Campaigns.StartsBeforeIrreflexive` | src/backend/campaigns.js:58 | the start-date order is irreflexive |
| `Campaigns.StartsBeforeTransitive` | src/backend/campaigns.js:58 | … transitive |
| `Campaigns.StartsBeforeTotal` | src/backend/campaigns.js:58 | … total on different dates, NULL lowest |
| `Campaigns.StartsBeforeAsymmetric` | src/backend/campaigns.js:58 | … asymmetric |
| `Campaigns.NotBeforeTransitive` | src/backend/campaigns.js:58 | "not earlier" is transitive, so a descending list is well defined |
| `Campaigns.InsertByStart` | src/backend/campaigns.js:58 | inserting keeps the list newest first and adds exactly that campaign |
| `Campaigns.InsertByStartStep` | src/backend/campaigns.js:58 | inserting behind the head keeps the order and the contents |
| `Campaigns.SortByStart` | src/backend/campaigns.js:58 | the result is newest start date first and is a permutation of the matches |
| `Campaigns.InsertByStartDistinct` | src/backend/campaigns.js:58 | inserting a new id keeps ids distinct |
| `Campaigns.SortByStartDistinct` | src/backend/campaigns.js:58 | sorting keeps ids distinct |
| `Campaigns.AllCampaigns` | src/backend/campaigns.js:40-69 | `getAllCampaigns`: the matching campaigns newest start first, one page of them, and the count of all matches; stated by `AllCampaignsSound`, `AllCampaignsFirstPageComplete`, `AllCampaignsDistinct` |
| `Campaigns.AllCampaignsSound` | src/backend/campaigns.js:40-68 | each listed campaign is in the table and matches; the page is newest first and at most pageSize long; `total` counts all matches |
| `Campaigns.AllCampaignsFirstPageComplete` | src/backend/campaigns.js:55-59 | on page 1, when all matches fit, every match is listed |
| `Campaigns.AllCampaignsDistinct` | src/backend/campaigns.js:56-61 | a listing of a valid table has no campaign twice |
| `Campaigns.SelectionOf` | src/backend/campaigns.js:169-172 | `statuses` restricts the query exactly when it is a non-empty list |
| `Campaigns.FindLead` | src/backend/campaigns.js:199-200 | finds the joined lead exactly when a lead with that id exists |
| `Campaigns.RowOf` | src/backend/campaigns.js:186-198 | a joined row carries the lead id and the assignment's campaign, status, update time and tentative date |
| `Campaigns.CampaignRows` | src/backend/campaigns.js:199-201 | every joined row belongs to the campaign and has an admitted status |
| `Campaigns.CampaignRowsCount` | src/backend/campaigns.js:177-181 | the join has one row per visible assignment (the COUNT) |
| `Campaigns.CampaignRowsSource` | src/backend/campaigns.js:199-201 | each joined row comes from a visible assignment of the campaign |
| `Campaigns.CampaignRowsComplete` | src/backend/campaigns.js:199-201 | each visible assignment appears in the join |
| `Campaigns.CampaignRowsEmptyIff` | src/backend/campaigns.js:199-201 | the join is empty exactly when no assignment is visible |
| `Campaigns.CampaignRowsFrame` | src/backend/campaigns.js:166-167 | the join for a campaign reads only that campaign's assignments |
| `Campaigns.LeadsForCampaign` | src/backend/campaigns.js:164-212 | `getLeadsForCampaign`: the campaign's joined rows with an admitted status, latest update first, one page, and their count; stated by `LeadsForCampaignSound` and `LeadsForCampaignWindow` |
| `Campaigns.LeadsForCampaignSound` | src/backend/campaigns.js:164-212 | listed rows come from the join, belong to the campaign with an admitted status, are latest-update first, at most pageSize; `total` is the visible count |
| `Campaigns.PageRowsFromMatching` | src/backend/campaigns.js:202-203 | a page of the ordered join is ordered and drawn from it |
| `Campaigns.LeadsForCampaignWindow` | src/backend/campaigns.js:175 | the page starts at (page-1)·pageSize and is full when enough rows remain |
| `Campaigns.AllLeadsForCampaignExport` | src/backend/campaigns.js:280-303 | the export: every non-READY joined row of the campaign, latest update first, unpaged; stated by `ExportSound` and `ExportComplete` |
| `Campaigns.ExportSound` | src/backend/campaigns.js:293-296 | every exported line belongs to the campaign and is not READY, latest update first |
| `Campaigns.ExportComplete` | src/backend/campaigns.js:294-295 | every non-READY assignment of the campaign with an existing lead is exported |
| `Campaigns.TruncateToSecond` | src/backend/campaigns.js:248-251 | the stored time is the whole second at or below the time |
| `Campaigns.NewAssignment` | src/backend/campaigns.js:245-252 | the row one INSERT adds: READY, stamped now, tentatively dated now + 1 min × its position; stated through `InsertAllNewRows` |
| `Campaigns.InsertOne` | src/backend/campaigns.js:252-256 | one INSERT: appends the new row unless the pair exists, in which case the constraint error is swallowed and nothing changes; stated by `InsertOneKeys` |
| `Campaigns.InsertAll` | src/backend/campaigns.js:236-264 | `addLeadsToCampaign`: one INSERT per listed lead in order, so an empty list changes nothing; stated by the `InsertAll` lemmas below |
| `Campaigns.InsertAllExtends` | src/backend/campaigns.js:246-257 | the bulk insert only appends: existing rows stay, in place |
| `Campaigns.InsertOneKeys` | src/backend/campaigns.js:252-256 | after one INSERT the pair is present, and no other pair appears |
| `Campaigns.InsertAllKeys` | src/backend/campaigns.js:246-257 | a pair is present afterwards exactly when it was before or is (campaign, a listed lead) |
| `Campaigns.InsertAllDistinct` | src/backend/campaigns.js:32-33 | the primary key stays unique |
| `Campaigns.InsertAllNewRows` | src/backend/campaigns.js:248-252 | each new row is READY for a listed lead absent before, dated now + 1 min × its first position |
| `Campaigns.InsertAllCount` | src/backend/campaigns.js:246-257 | the table grows by the number of listed leads not yet in the campaign |
| `Campaigns.InsertAllNoop` | src/backend/campaigns.js:253 | re-adding leads already in the campaign changes nothing |
| `Campaigns.InsertAllIdempotent` | src/backend/campaigns.js:246-257 | adding the same list again, at any later time, changes nothing |
| `Campaigns.SetLeadStatus` | src/backend/campaigns.js:225-227 | the update never adds or removes rows |
| `Campaigns.SetLeadStatusEffect` | src/backend/campaigns.js:225-227 | only the keyed row changes, in status, extra data and update time; a missing key changes nothing; the key stays unique |
| `Campaigns.KeyIndicesCount` | src/backend/campaigns.js:230 | `changes` is 1 when the pair exists and 0 otherwise |
| `Campaigns.SetCampaignStatus` | src/backend/campaigns.js:269 | the update never adds or removes rows |
| `Campaigns.SetCampaignStatusEffect` | src/backend/campaigns.js:267-275 | only the campaign with the id changes, in status only; a well-formed status keeps the table valid |
| `Campaigns.IdIndicesCount` | src/backend/campaigns.js:272 | `changes` is 1 when the campaign exists and 0 otherwise |
| `Campaigns.FirstIndex` | src/backend/campaigns.js:246 | the first position of a value in the list |
| `Campaigns.SelectLeadIds` | src/backend/campaigns.js:80-96 | the lead ids `createCampaign` passes on: the manual selection when non-empty, else the ids of the unpaged lead listing for the criteria; stated by `SelectLeadIdsSpec` |
| `Campaigns.SelectLeadIdsSpec` | src/backend/campaigns.js:80-96 | a non-empty manual selection is taken as given; otherwise one id per lead matching the criteria, without paging |
| `Campaigns.CampaignStore.AddLeadsToCampaign` | src/backend/campaigns.js:236-264 | the assignments become `InsertAll` of the old ones, the campaigns are untouched, the campaign id is returned |
| `Campaigns.CampaignStore.AddCampaign` | src/backend/campaigns.js:71-99 | a missing name or a type outside the CHECK is a constraint error with nothing written; otherwise the campaign is appended with the next id and the selected leads are attached |
| `Campaigns.CampaignStore.UpdateCampaignLeadStatus` | src/backend/campaigns.js:222-233 | no matching pair: 0 and nothing changes; a status outside the CHECK on a matching pair: constraint error, nothing changes; otherwise 1, and only that row is rewritten |
| `Campaigns.CampaignStore.UpdateCampaignStatus` | src/backend/campaigns.js:267-275 | any text is stored as the status of the campaign with the id; reports 1 if it exists, 0 otherwise |
| `Email.Greeting` | src/backend/emailService.js:42 | the contact person when truthy, else "Sir/Madam"; never empty |
| `Email.CompanyName` | src/backend/emailService.js:43 | the company name when non-empty, else "your company"; never empty |
| `Email.Personalise` | src/backend/emailService.js:42-43 | the mail body: the first first-name placeholder becomes the contact person or "Sir/Madam", then the first company-name placeholder the lead's name or "your company"; stated by `PersonaliseLayout` and `PersonalisePlain` |
| `Email.PersonaliseLayout` | src/backend/emailService.js:42-43 | each placeholder's first occurrence is replaced; later placeholders stay |
| `Email.PersonalisePlain` | src/backend/emailService.js:42-43 | a template without placeholders is sent unchanged |
| `Email.GreetingAbsorbsCompanySubstitution` | src/backend/emailService.js:42-43 | the second replace runs on the first one's output: a contact person equal to the company placeholder takes the company name, and the template's own company placeholder stays |
| `Email.ComposeMail` | src/backend/emailService.js:37-44 | the message goes to the lead's email with the fixed subject |
| `Email.OutcomeStatus` | src/backend/emailService.js:62-70 | SENT exactly on delivery, FAILED otherwise |
| `Email.OutcomeRecordable` | src/backend/emailService.js:62-70 | the recorded status always passes the CHECK; the extra data keeps the info or the error message |
| `Email.SendCampaignLeadEmail` | src/backend/emailService.js:36-85 | a store failure is the only error and writes nothing; otherwise the pair's row gets SENT or FAILED and the report carries the verdict and the changed-row count |
| `Cron.ActiveMatches` | src/backend/cronService.js:11 | in a valid table the ACTIVE filter picks exactly the ACTIVE campaigns |
| `Cron.Visited` | src/backend/cronService.js:11-13 | the campaigns a tick visits: the first page of the ACTIVE listing, none when the listing fails; stated by `VisitedSpec`, `VisitedComplete`, `VisitedIncomplete` |
| `Cron.VisitedSpec` | src/backend/cronService.js:11-13 | at most 20 visited, all ACTIVE campaigns of the table, newest start first, none twice; none after a failed listing |
| `Cron.VisitedComplete` | src/backend/cronService.js:11-13 | with at most 20 ACTIVE campaigns, every one is visited |
| `Cron.VisitedIncomplete` | src/backend/cronService.js:11-13 | with more than 20 ACTIVE campaigns, some ACTIVE campaign is not visited, whether or not the listing fails |
| `Cron.ReadySelection` | src/backend/cronService.js:18 | the fetch admits exactly READY rows |
| `Cron.ReadyRows` | src/backend/cronService.js:16-20 | a campaign's READY fetch: `getLeadsForCampaign` with statuses READY and pageSize 1000; stated by `ReadyRowsSpec`, `ReadyRowsSource`, `ReadyRowsComplete` |
| `Cron.ReadyRowsSpec` | src/backend/cronService.js:16-22 | at most 1000 rows, all READY rows of the campaign, latest update first; empty exactly when the campaign has no READY assignment with an existing lead |
| `Cron.ReadyRowsSource` | src/backend/cronService.js:16-20 | each fetched row is a READY assignment of the campaign joined with its lead |
| `Cron.ReadyRowsComplete` | src/backend/cronService.js:18 | with at most 1000 READY rows, the fetch returns every one |
| `Cron.ReadyRowsOfCampaign` | src/backend/cronService.js:16-20 | the fetched rows all belong to the campaign |
| `Cron.AfterNothing` | src/backend/cronService.js:12 | writing nothing leaves both tables as they were |
| `Cron.AfterSendsStep` | src/backend/emailService.js:74-80 | recording one more outcome equals adding its pair to the written set |
| `Cron.AfterFinishStep` | src/backend/cronService.js:23 | setting one more campaign to FINISHED equals adding its id to the finished set |
| `Cron.SentKeysSource` | src/backend/cronService.js:29-35 | every mailed pair is a due fetched row of a visited campaign whose fetch succeeded |
| `Cron.SentKeysComplete` | src/backend/cronService.js:29-35 | every due fetched row of such a campaign is mailed |
| `Cron.FinishedIdsSource` | src/backend/cronService.js:22-27 | every finished id is a visited campaign whose fetch succeeded empty |
| `Cron.FinishedIdsComplete` | src/backend/cronService.js:22-27 | every such campaign is finished |
| `Cron.ReadyRowsUnchanged` | src/backend/cronService.js:13-19 | earlier campaigns' writes do not change what a later campaign's fetch returns |
| `Cron.SameIdSameCampaign` | src/backend/campaigns.js:10 | in a valid table the id determines the campaign |
| `Cron.TickCampaigns` | src/backend/cronService.js:8-53 | the campaigns table after a tick: the visited campaigns whose fetch succeeded empty are FINISHED; stated by `TickCampaignsSpec` |
| `Cron.TickAssignments` | src/backend/cronService.js:8-53 | the campaign_leads table after a tick: each due pair that was mailed and whose write succeeded holds the transport's outcome; stated by `TickAssignmentsSound` and `TickAssignmentsComplete` |
| `Cron.TickCampaignsSpec` | src/backend/cronService.js:11-27 | a campaign becomes FINISHED exactly when visited with a successful, empty fetch; others are unchanged; only ACTIVE ones change; the table stays valid |
| `Cron.TickAssignmentsSound` | src/backend/cronService.js:16-35 | a changed row was READY, dated no later than now, with an existing lead, in a visited campaign whose fetch succeeded, and its write succeeded; it now holds the verdict: SENT exactly on delivery |
| `Cron.TickAssignmentsComplete` | src/backend/cronService.js:28-35 | conversely, such a row is mailed and recorded, when its campaign has at most 1000 READY rows |
| `Cron.TickListingFault` | src/backend/cronService.js:12 | a failed listing changes nothing |
| `Cron.TickFetchFault` | src/backend/cronService.js:20 | a failed fetch leaves that campaign and all its rows unchanged |
| `Cron.CampaignSendsBound` | src/backend/cronService.js:18 | at most 1000 messages per campaign per tick |
| `Cron.SentKeysBound` | src/backend/cronService.js:13-18 | at most 1000 messages per visited campaign |
| `Cron.TickSendsBound` | src/backend/cronService.js:11-35 | at most 20 000 messages per tick |
| `Cron.Tick` | src/backend/cronService.js:8-53 | one tick leaves exactly `TickCampaigns` and `TickAssignments` of the tables it started from, and keeps them valid |
| `Cron.ProcessCampaign` | src/backend/cronService.js:16-49 | one campaign's callback: no write on a failed fetch; FINISHED when empty; otherwise its due rows recorded |
| `Cron.CampaignOutcome` | src/backend/cronService.js:20-33 | a failed fetch adds nothing; an empty fetch adds the campaign to the finished ids and mails nothing; otherwise exactly the due fetched rows are mailed |
| `Cron.FinishCampaign` | src/backend/cronService.js:22-27 | the campaign with the id becomes FINISHED, the assignments are untouched |
| `Cron.SendDue` | src/backend/cronService.js:28-48 | the loop records exactly the due rows of the fetched list, except those whose write fails |
| `SheetImport.FilterNamed` | src/utils/xlsxUtils.js:12 | the filter throws exactly when some name is a truthy non-text value; otherwise it yields the kept rows |
| `SheetImport.KeptIff` | src/utils/xlsxUtils.js:12 | a row is kept exactly when its name is text whose trim is non-empty |
| `SheetImport.KeptRowsMembers` | src/utils/xlsxUtils.js:12 | exactly the rows with a non-blank name are kept |
| `SheetImport.KeptRowsAppend` | src/utils/xlsxUtils.js:12 | the filter keeps sheet order: it distributes over concatenation |
| `SheetImport.KeptRowsIdempotent` | src/utils/xlsxUtils.js:12 | filtering twice is filtering once |
| `SheetImport.CleanNumber` | src/utils/xlsxUtils.js:25-31 | absent gives ""; otherwise the trimmed text, with the ".0" removed from a whole number written `digits.0` |
| `SheetImport.CleanNumberTrimmed` | src/utils/xlsxUtils.js:27 | a cleaned number has no surrounding whitespace |
| `SheetImport.CleanNumberIdempotent` | src/utils/xlsxUtils.js:25-31 | cleaning a cleaned number gives it back |
| `SheetImport.CleanNumberDigits` | src/utils/xlsxUtils.js:29-31 | a whole number is kept as it is |
| `SheetImport.OrEmpty` | src/utils/xlsxUtils.js:41-46 | a truthy value is kept, a falsy one becomes "" |
| `SheetImport.AreaOf` | src/utils/xlsxUtils.js:47 | a row's area: "N/A" when falsy, trimmed and upper-cased when text, a TypeError otherwise; stated by `AreaOfText` and `Normalise` |
| `SheetImport.Normalise` | src/utils/xlsxUtils.js:13-48 | normalising a row fails exactly when its area is a truthy non-text value |
| `SheetImport.AreaOfText` | src/utils/xlsxUtils.js:47 | a text area is trimmed with no lower-case ASCII letter; a blank one becomes "" |
| `SheetImport.NormaliseSpec` | src/utils/xlsxUtils.js:13-47 | name kept untrimmed; phone and mobile cleaned; area "N/A" when falsy; missing address, email and contact default to ""; only a truthy string Details is kept for parsing, under the sheet's own `Details` key (`detailsColumn`) |
| `SheetImport.NormaliseAll` | src/utils/xlsxUtils.js:12-49 | fails exactly when a kept row's area throws; otherwise one record per row, in order |
| `SheetImport.ProcessLeadRows` | src/utils/xlsxUtils.js:12-49 | `processLeadRows`: drop rows without a non-blank name, then normalise the rest; stated by `ProcessLeadRowsFails` and `ProcessLeadRowsOk` |
| `SheetImport.ProcessLeadRowsFails` | src/utils/xlsxUtils.js:12-47 | the import fails exactly when some name, or some kept row's area, is a truthy non-text value |
| `SheetImport.ProcessLeadRowsOk` | src/utils/xlsxUtils.js:12-49 | on success, the records are the kept rows normalised in sheet order |
| `SheetImport.NumericNameRejectsSheet` | src/utils/xlsxUtils.js:12 | as written, a sheet whose only name is the number 42 is rejected |
| `SheetImport.ProcessLeadRowsAny` | src/utils/xlsxUtils.js:12-49 | with `String(value).trim()`: one record per named row, never failing |
| `SheetImport.NamedRowsMembers` | src/utils/xlsxUtils.js:12 | with `String(value).trim()`: exactly the rows with a present non-blank name are kept |
| `SheetImport.NumericNameImported` | src/utils/xlsxUtils.js:12 | with `String(value).trim()`: the sheet named 42 imports one lead named 42 |
| `SheetImport.ProcessLeadRowsAnyAgrees` | src/utils/xlsxUtils.js:12-49 | on every sheet the code accepts, the corrected import gives the same records |
| `SheetImport.NamedRowsAgree` | src/utils/xlsxUtils.js:12 | where no name throws, both filters keep the same rows |
| `Upload.AsLeadInput` | src/components/UploadLeadsDialog.js:14-17 | the `lead` object `addLead` reads from an imported record: the lower-case keys, no survey flag and no `details`; its effect is stated by `UploadDropsDetails` |
| `Upload.UploadDropsDetails` | src/backend/leads.js:52 | as written, the lead an upload stores has details "{}" whatever the Details column holds, and an existing lead's details are overwritten with "{}" |
| `Upload.DetailsColumnIgnored` | src/utils/xlsxUtils.js:15 | a sheet row named "Acme" with a JSON Details cell is imported with its details parsed under `Details`, yet the lead object has no `details` and "{}" is stored |
| `Upload.AsLeadInputFixed` | src/utils/xlsxUtils.js:10 | the corrected hand-over: the parsed details are passed as `details` too; its effect is stated by `UploadKeepsDetails` |
| `Upload.UploadKeepsDetails` | src/utils/xlsxUtils.js:10 | corrected, the row behind the returned id exists and stores the Details column's JSON text, or "{}" when the column held no text |

## Left out

- The UI, IPC, authentication and the database path: outside the modelled core, apart from the upload dialog's hand-over to `addLead`.
- The SQL engine: queries are described by their results.
  - `LIKE` is plain, case-sensitive substring search. SQLite's ASCII case folding is not modelled. Nor are the wildcards: a `%` or `_` typed into a search (`leads.js:137`, `campaigns.js:45`) matches any text or any one character in the code, but only itself in the model.
  - Ties in `ORDER BY` are not ordered.
- Only ASCII letters are upper-cased: JavaScript's full Unicode `toUpperCase` is not modelled.
- Time, dates and time zones:
  - Times are epoch milliseconds and ISO rendering is not modelled.
  - `created_at`/`updated_at` defaults and `datetime('now')` are the same `now` parameter.
  - `new Date(text)` in the tick reads the stored UTC text as local time; the model compares the stored time with `now` directly.
- The 30-second interval timer: `Tick` is one run.
  - Runs are sequential and atomic.
  - Overlapping runs and the callbacks' interleaving are not modelled. In the code, a slow tick can let the next tick fetch and mail the same READY rows again.
- The mail transport is an oracle. The sender account, attachments, address validation and the template file read are not modelled: the template is a parameter.
- `JSON.stringify`/`JSON.parse`: extra data and details are opaque values.
- Replacement patterns with `$` in `String.prototype.replace`: the replacement is inserted literally.
- Database errors other than CHECK/NOT NULL constraints and the tick's injected faults: not modelled.
  - `Campaigns.CampaignStore.AddCampaign`: a failing `getAllLeads` after the insert is not modelled.
  - `Campaigns.CampaignStore.UpdateCampaignStatus`: a failing write is not modelled; the tick ignores that callback's error anyway.
- `Leads.LeadTable.AddLead`: a NULL name (rejected by NOT NULL) is not modelled; the name is a string. The `lead` object's own `area` mutation is not modelled either.
- `Campaigns.CampaignStore.UpdateCampaignStatus`: a null or undefined status, which SQLite would store as NULL, is not modelled; the status is a string, and the code's callers always pass a string: "ACTIVE" or "STOPPED" from the Start/Stop button, "FINISHED" from the tick.
- `getCampaignById` and `exportLeadsToXLSX`: outside the modelled core.
- The first definition of `addLeadsToCampaign` (campaigns.js:121-139) is replaced at module load by the one at line 236, so it is not modelled.
- The foreign keys are not enforced: deleting a lead keeps its assignments.
- `SheetImport.CleanNumber`: the scientific-notation step (`Number(str).toFixed(0)` on a string containing `e+`) uses floating point and is not modelled; such strings are returned as after the ".0" step.
- `SheetImport`: reading the workbook is not modelled.
  - Besides the normalised fields, the code's output objects keep every original column; those are not modelled.
  - Details that fail `JSON.parse` become `{}` in the code; the model keeps the text to be parsed.
  - `SheetImport.ImportedLead`: the parsed details stay under the sheet's `Details` key (`detailsColumn`), which `addLead` never reads, so as written no imported lead keeps its details (see Findings).
- `Upload.AsLeadInput`: a bound cell is kept as the text SQLite's TEXT affinity stores; a number's rendering is taken as the sheet reader's, and a boolean is bound as 1 or 0.

## Findings

| source | as written | input that shows it | evidently intended | confidence | as-written member | corrected member |
|---|---|---|---|---|---|---|
| src/utils/xlsxUtils.js:12 | `row.Name && row.Name.trim()` calls `trim` on any truthy Name cell; a numeric or boolean cell throws a TypeError and the whole upload fails (likewise `row.Area.trim()` at line 47) | a sheet whose Name cell is the number 42 | rows with a present, non-blank name are imported, as `cleanNumber` already does for phone cells through `String(val)` | medium, not executed | `SheetImport.NumericNameRejectsSheet` | `SheetImport.ProcessLeadRowsAnyAgrees` |
| src/utils/xlsxUtils.js:15 | the parsed details are written back to `row.Details`, but `addLead` reads `lead.details` (`leads.js:52`, `leads.js:75`) and the upload dialog passes each record unchanged (`UploadLeadsDialog.js:16`), so every imported lead is stored with details "{}" | a sheet row named "Acme" whose Details cell is `{"segment":"retail"}` | the parsed Details column is stored as the lead's details, as the expected columns listed at line 10 include details | medium, not executed | `Upload.DetailsColumnIgnored` | `Upload.UploadKeepsDetails` |

The corrected import, `SheetImport.ProcessLeadRowsAny`, never fails. It keeps exactly the rows with a present, non-blank name (`SheetImport.NamedRowsMembers`). It imports the 42 sheet (`SheetImport.NumericNameImported`). On every sheet the code accepts, it produces the same records.

The corrected hand-over, `Upload.AsLeadInputFixed`, also passes the parsed details as `details`. The lead it stores then keeps the Details column's text (`Upload.UploadKeepsDetails`). As written, the stored details are always "{}", and re-importing an existing lead wipes its details (`Upload.UploadDropsDetails`). The rest of the model does not depend on the hand-over.
