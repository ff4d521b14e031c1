# Car inventory: a verified model

The repository is a small car-inventory server in C++ with a JavaScript client. Several threads serve
requests over one SQLite connection without transactions, so the statements of different requests
interleave. This project models

- the `cars` table, statement by statement (`CarTable.dfy`), and the `Database` class over it (`Database.dfy`);
- request bodies and the cars built from them (`Requests.dfy`), and the handlers served one at a time (`Routes.dfy`);
- the same handlers as a step machine, in which any number of requests interleave (`Machine.dfy`), and what
  holds in all its runs: the invariant, deleted ids and timestamps (`Safety.dfy`), where values come from
  (`Provenance.dfy`), row counts and reported ids (`Conservation.dfy`), the last write of a row and
  `updated_at` (`Writes.dfy`), the cars in answers (`Answers.dfy`), the write of a PATCH (`Patching.dfy`) and
  VINs (`Vins.dfy`); batches of requests (`Batches.dfy`), the reduction of their interleavings to serial
  service (`Reduction.dfy`), and exactly when the order of service matters (`Races.dfy`);
- runs that show what does not hold (`Witnesses.dfy`);
- text normalisation on the server (`StringUtils.dfy`) and the client (`ClientText.dfy`), and the edit form
  that brings them together (`Edit.dfy`);
- timestamps as text (`Timestamps.dfy`), the paginated listing (`Listing.dfy`) and the pager of the
  statistics page (`Pager.dfy`);
- the list computations of that page (`Sorting.dfy`, `Stats.dfy`) and its HTML escaping (`Html.dfy`).

A run is a sequence of events: a request arrives, one request takes its next step, the clock changes. A step
is one statement, one reading of the clock or one reading of the last rowid, together with the work on local
variables around it. A statement about all runs is a lemma about `Machine.Exec` on an arbitrary sequence.

Of SQLite the model takes: a statement is atomic; a failed one changes nothing; AUTOINCREMENT gives an id
above every id ever used; UNIQUE compares non-NULL VINs byte by byte; the last rowid changes with a successful
INSERT only. The clock, the order of rows with equal `updated_at`, and the readings that the JSON library
takes of a number are parameters. `State.requests`, `State.creator` and the field `own` of a thread are
history: no step reads them.

Where the code and its comments part, the model follows the code. The comment in the PUT handler speaks of
inserting the car "as new instead"; the code ignores whether that insert succeeds, and answers 200 with a
blank car when it does not (`Routes.PutOnMissingRow`). PATCH stores text as sent, without normalising.

## Claims that are false of the code, and when they do hold

- The answer to POST is its own row: the location is, exactly when no other INSERT succeeds between its INSERT
  and its reading of the last rowid; the car is, exactly when moreover no DELETE removes the row before it is
  read back, and then it is as inserted or as the last UPDATE since made it. Otherwise the car is another row, or
  blank with id 0 (`Answers.InsertAnswer`, also for the PUT that inserts; the failing runs are
  `Witnesses.PostAnswersWithForeignRow` and `Witnesses.PostAnswersWithDeletedRow`).
- The answer to a PATCH or PUT that succeeds is the row it wrote: exactly when it found a row, no DELETE removes
  the row before it is read back, and no UPDATE since has made it another one (`Answers.UpdateAnswer`).
- A PATCH changes only the keys it carries: so it is when no UPDATE writes its row between its read and its write
  (`Patching.PatchUninterrupted`), and, for each other field, exactly when the row still holds what was read
  (`Patching.PatchWrites`); the failing run is `Witnesses.UpdateIsLost`.
- `updated_at` never goes back: an update moves it back exactly when the last UPDATE that wrote the row between
  its stamp and its own write bears a later stamp (`Writes.WhenUpdatedAtGoesBack`). With a clock that only goes
  forward this happens in the run of `Witnesses.UpdatedAtGoesBack`. `created_at <= updated_at` always holds
  (`Safety.StampedExec`).
- VINs are distinct up to case and blanks: let PATCHes send trimmed upper-case VINs and those of some set, over a
  table of trimmed upper-case VINs. Some run ends with two rows that look alike exactly when the set has a VIN
  that is neither blank nor trimmed and upper-case, or two different blank ones (`Witnesses.WhenLookalikesExist`,
  `Vins.VinsDistinctAsText`).
- The outcome does not depend on the order of service: take requests on different rows that do not insert. All
  their runs have one outcome, and all their serial orders have, exactly when they do not race for a VIN
  (`Races.OrderMattersIffRace`). A request is refused when it belongs to a set of requests each of which sends a VIN
  of another row that no request outside the set would delete or give a new VIN; these fail in every order, and
  only these (`Races.RefusedIffNeverLetThrough`). The others race when two of them send one VIN, or one sends a VIN
  that another row holds. `Witnesses.VinRaceDependsOnOrder` is a race; a swap of two VINs is none, as both
  requests always fail (`Witnesses.SwapAlwaysFails`).
- Client and server normalise alike: the exact conditions are in `ClientText.ClientThenServer` and
  `ClientText.ClientEqualsServer`.
- Editing without a change is a no-op: when the PUT succeeds, exactly when the row's text is in normal form,
  which text that PATCH wrote need not be, and the form keeps it (`Edit.EditWithoutChange`).
- The pager always offers a way back: not when others shrink the table to one page (`Pager.StrandedPage`).

## Model

| member | source | states |
|---|---|---|
| Races.OrderMattersIffRace | src/Routes/CarRoutes.h:180-309 | for any number of PATCHes, PUTs on live rows and DELETEs on distinct ids: all complete interleavings have one outcome, and all serial orders have, exactly when the requests do not race for a VIN; outcomes are the table and the answers up to `updated_at` |
| Races.RaceHasTwoOutcomes | src/Routes/CarRoutes.h:180-309 | in a race two serial orders end differently |
| Races.RefusedIffNeverLetThrough | src/Routes/CarRoutes.h:180-309 | a request with a VIN is in a set of requests that block each other exactly when no serial service of some of the others lets it write |
| Reduction.InterleavingsAreSerial | src/Routes/CarRoutes.h:180-309 | without a race, any complete interleaving ends in the table, and with the answers, failures included, that serving the requests one at a time gives, in every order and at any times |
| Reduction.LateArrivalsAreSerial | src/Routes/CarRoutes.h:180-309 | the same for requests that arrive at any time during the run |
| Reduction.FinishedRequest | src/Routes/CarRoutes.h:180-309 | in such a run the state before it decides the answer and the row of each request that has finished; it fails exactly when it is refused |
| Batches.WithoutVinsApart | src/Routes/CarRoutes.h:249-309 | PATCHes without a VIN and DELETEs never race for one |
| Batches.SerialRunServes | src/Routes/CarRoutes.h:126-309 | the run that gives each request its turn is the serial service of the requests in that order |
| Batches.SerialRunAnswers | src/Routes/CarRoutes.h:126-309 | in it each request is answered as by its handler on the table that those before it leave |
| Provenance.NoValueFromThinAir | src/Routes/CarRoutes.h:251-277 | in every run each user-supplied field of each live row holds its initial value or one that a request which created or was sent to that row supplied: normalised by POST and PUT, as sent by PATCH |
| Provenance.SourcedNext | src/Routes/CarRoutes.h:126-295 | one step of any request keeps that, also for the cars that requests in flight carry, stale snapshots and blank cars included |
| Safety.InvExec | src/database/database.cpp:41-64 | in every run the table is well formed and every request that has seen a row works on an id that has been used |
| Safety.VinsDistinctInEveryRun | src/database/database.cpp:49-64 | in every run two live rows with one VIN have none |
| Safety.DeadStaysDead | src/database/database.cpp:42 | an id that was used and has no row never gets one again |
| Safety.MissedPatchWritesNothing | src/Routes/CarRoutes.h:251-277 | when the row disappears between PATCH's check and its read, no later step of that request changes the table, in any continuation |
| Safety.UpdateTouchesOneRow | src/database/database.cpp:216-254 | an UPDATE keeps the set of ids and all other rows |
| Safety.CreatedFixed | src/database/database.cpp:219-220 | `created_at` never changes while the row lives |
| Safety.StampedExec | src/database/database.cpp:201-246 | in every run with a clock that does not go back, `created_at <= updated_at <= now` as text for every row, although stamps are taken before the write |
| Writes.WhenUpdatedAtGoesBack | src/database/database.cpp:217-246 | an update's write moves `updated_at` back exactly when it succeeds and the last UPDATE that wrote the row since its stamp bears a later one; never before what the row held when the stamp was taken |
| Writes.RowAfterRun | src/database/database.cpp:216-254 | a row that lives through a run is unchanged when no UPDATE wrote it, and else what the last one that did made of it |
| Conservation.RowsConserved | src/database/database.cpp:174-264 | rows after a run plus DELETEs that hit equal rows before plus INSERTs that succeed |
| Conservation.RowConserved | src/database/database.cpp:174-264 | the same for each id, and no id is inserted twice |
| Conservation.RacingDeletes | src/Routes/CarRoutes.h:298-309 | of the DELETEs racing on a live row every finished one answers 204 and finds the row gone, and exactly one statement removed it |
| Conservation.AfterInsert | src/database/database.cpp:204-211 | an INSERT that succeeds takes a fresh id which is then the last rowid, and stores the car; one that fails changes nothing, and PUT goes on with id 0, which is never live |
| Conservation.ReportedId | src/database/database.cpp:204-211 | the id read after an INSERT is one inserted on this connection, at least the request's own, and its own exactly when no other INSERT succeeded in between |
| Conservation.LastRowIdCounts | src/database/database.cpp:211 | the last rowid grows exactly when an INSERT succeeds |
| Answers.InsertAnswer | src/Routes/CarRoutes.h:153-224 | from a successful INSERT to the answer, whatever happens: exactly when the location, and when the car, is the request's own row, what the car holds then, and what it is otherwise |
| Answers.UpdateAnswer | src/Routes/CarRoutes.h:227-294 | from an UPDATE to the answer, whatever happens: the whole answer, by whether a VIN clashed, a row was there, a DELETE removed it or another UPDATE wrote it since |
| Answers.FailedInsertAnswer | src/Routes/CarRoutes.h:153-224 | after a failed INSERT POST answers with failure, and PUT answers 200 with the blank car whatever happens meanwhile |
| Vins.VinsDistinctAsText | src/Routes/CarRoutes.h:150-205 | from a table of trimmed upper-case VINs, in runs whose PATCHes send such VINs or harmless others, two rows never share a VIN up to case and surrounding blanks |
| Witnesses.WhenLookalikesExist | src/Routes/CarRoutes.h:150-274 | for every set of other VINs that PATCHes may send: some run ends with two look-alike rows exactly when the set has a VIN that is neither blank nor trimmed and upper-case, or two different blank ones |
| Patching.PatchWrites | src/Routes/CarRoutes.h:265-277 | the write of a PATCH in the middle of any other requests: when it fails, what it stores, and, field by field, when that is the overlay of the standing row |
| Patching.PatchUninterrupted | src/Routes/CarRoutes.h:265-277 | when no UPDATE writes the row between the read and the write of a PATCH, it stores the overlay of the standing row and changes nothing else |
| Machine.AloneIsServe | src/Routes/CarRoutes.h:126-309 | a request that is not interrupted does to the table, and answers, what the serial handler does |
| Machine.FinishesInFiveSteps | src/Routes/CarRoutes.h:126-309 | whatever else happens, a request is done after five steps of its own |
| Witnesses.PostAnswersWithForeignRow | src/Routes/CarRoutes.h:153-176 | for any two POSTs that would both succeed there is a run in which the first answers with the second's row |
| Witnesses.ForeignAnswerIsNotSerial | src/Routes/CarRoutes.h:153-176 | no serial order of the two gives that answer |
| Witnesses.PostAnswersWithDeletedRow | src/Routes/CarRoutes.h:153-176 | for any POST that would succeed there is a run in which it answers with its own location and the blank car |
| Witnesses.UpdateIsLost | src/Routes/CarRoutes.h:265-277 | for any two PATCHes on one row and any two times there is a run in which the second update, and its timestamp, are overwritten by the first |
| Witnesses.UpdatedAtGoesBack | src/database/database.cpp:217-246 | that run has a clock that only goes forward, and its last write moves `updated_at` back whenever the two times differ |
| Witnesses.PatchMakesLookalikeVin | src/Routes/CarRoutes.h:274 | wherever a row has a VIN, one PATCH gives another row that VIN in other case or with blanks around it |
| Witnesses.VinRaceDependsOnOrder | src/Routes/CarRoutes.h:180-281 | two requests of a batch that send one VIN that no row holds make its outcome depend on the order |
| Witnesses.FirstPatchWins | src/Routes/CarRoutes.h:274-281 | of two PATCHes with one new VIN the first one served keeps it |
| Witnesses.SwapAlwaysFails | src/Routes/CarRoutes.h:180-281 | two requests that swap the VINs of their rows do not race: both fail in every run |
| CarTable.RejectedIffClash | src/database/database.cpp:49-64 | an INSERT or UPDATE is rejected exactly when it would leave two rows with one VIN |
| Cars.StoreAndRead | src/database/database.cpp:186-202 | storing a car and reading it back keeps all fields, empty text included; reading and storing a row is the identity |
| Cars.BlankCarIs | Models/Car.cpp:4-7 | the car that a missing row reads as has key 0, no text and zeros |
| DatabaseClass.Database.InsertCar | src/database/database.cpp:174-214 | the whole new table, whether it succeeded, and the id it reports |
| DatabaseClass.Database.UpdateCar | src/database/database.cpp:216-254 | the whole new table and whether it succeeded |
| DatabaseClass.Database.DeleteCar | src/database/database.cpp:256-264 | the whole new table |
| DatabaseClass.Database.GetCarById | src/database/database.cpp:266-306 | the row read back, or the blank car |
| DatabaseClass.Database.GetAllCars | src/database/database.cpp:118-162 | exactly the cars of the page, in listing order |
| DatabaseClass.Database.GetAllCarsSummary | src/database/database.cpp:71-115 | for each row of the page, in order: no image, and the key, the timestamps and every other field of the row |
| Routes.HandlePost | src/Routes/CarRoutes.h:126-177 | what it does to the table and answers, every error case included |
| Routes.HandlePut | src/Routes/CarRoutes.h:180-246 | what it does to the table and answers, the insert branch included |
| Routes.HandlePatch | src/Routes/CarRoutes.h:249-295 | what it does to the table and answers, the skip included |
| Routes.HandleDelete | src/Routes/CarRoutes.h:298-309 | the row is gone, every other row and the two counters stay, and the answer is 204 either way |
| Routes.HandleList | src/Routes/CarRoutes.h:33-92 | total, clamped limit (20 without a number), offset and, for each row of that page, the car, or all of it but the image |
| Routes.HandleGet | src/Routes/CarRoutes.h:94-124 | an answer exactly when the row is there, from which the row can be restored |
| Routes.PatchIsOverlay | src/Routes/CarRoutes.h:265-294 | PATCH served alone fails exactly on a VIN of another row; otherwise it overlays the body's fields on its row and touches nothing else |
| Routes.PatchChanges | src/Routes/CarRoutes.h:268-294 | the car answered has, for each key of the body, the value sent, or none when it has another type, and for each other key the row's old value |
| Routes.PatchesCommute | src/Routes/CarRoutes.h:265-277 | two PATCHes served in turn, without VINs and with disjoint keys, commute up to `updated_at` |
| Routes.PostCreates | src/Routes/CarRoutes.h:143-176 | POST fails exactly when a row holds the normalised VIN; otherwise it adds the car, field by field what the body says, under an id never used and answers with it |
| Routes.PostWithoutVin | src/Routes/CarRoutes.h:12-16 | POST without a VIN, or with one that is not text, always creates a car, whose VIN is stored as NULL |
| Routes.Refusals | src/Routes/CarRoutes.h:126-263 | POST and PUT answer 400 exactly when the body is malformed or lacks one of five keys; PATCH skips exactly an id without a row and answers 400 exactly on a malformed body for a live one; the table stays |
| Routes.PutReplaces | src/Routes/CarRoutes.h:195-245 | PUT on a live row fails exactly when another row holds the normalised VIN; otherwise each field is what the body says, the creation time stays and nothing else changes |
| Routes.PutOnMissingRow | src/Routes/CarRoutes.h:208-224 | PUT on an id without a row inserts under a fresh id; it answers 200 with the blank car exactly when the VIN is taken |
| Requests.FieldsOfNewAndOverlaid | src/Routes/CarRoutes.h:143-151 | field by field: normalised values for a new car, raw values over the old ones for an overlay |
| Requests.NewCarIsBuilt | src/Routes/CarRoutes.h:12-28 | read off the body: text in title case, VIN in upper case, numbers as sent; a missing key or another type gives the empty text or 0 |
| Requests.OverlayIsChanged | src/Routes/CarRoutes.h:268-275 | the same for PATCH: as sent where the key is there, unchanged elsewhere |
| Requests.OverlaysCommute | src/Routes/CarRoutes.h:268-275 | overlays without a common key commute |
| StringUtils.ToTitleCase | src/utils/StringUtils.h:9-33 | the in-place scan gives the trimmed, lower-cased text with each word's first character capitalised |
| StringUtils.CapitalizeWords | src/utils/StringUtils.h:21-30 | the loop with its flag capitalises exactly the characters at word starts |
| StringUtils.ToUpperCase | src/utils/StringUtils.h:36-47 | the trimmed text in upper case, without a small letter |
| StringUtils.UpperCaseIs | src/utils/StringUtils.h:41-45 | character by character: of the text between blanks, 32 less for a small letter and the same character otherwise |
| StringUtils.TitleCaseIs | src/utils/StringUtils.h:13-30 | character by character: of the text between blanks, capital letters at the start and after white space, small ones elsewhere |
| StringUtils.TitleCaseCanonical | src/utils/StringUtils.h:9-33 | two texts have one title case exactly when they agree up to case and surrounding blanks |
| StringUtils.TitleCaseIdempotent | src/utils/StringUtils.h:9-33 | title case is idempotent, and empty exactly for blank text |
| StringUtils.UpperCaseCanonical | src/utils/StringUtils.h:36-47 | two texts have one upper case exactly when they agree up to case and surrounding blanks |
| StringUtils.UpperCaseIdempotent | src/utils/StringUtils.h:36-47 | upper case is idempotent, and empty exactly for blank text |
| StringUtils.TrimUnique | src/utils/StringUtils.h:14-15 | the two erasing calls give the only middle part with clean ends between blanks |
| ClientText.SplitMapJoin | src/frontend/add-car.js:10-14 | splitting, capitalising and joining capitalises the first character and those after a space |
| ClientText.NormalizeTextIs | src/frontend/add-car.js:10-14 | character by character: white space of all kinds goes from the ends, capital letters at the start and after a space, small ones elsewhere |
| ClientText.NormalizeUpperCaseIs | src/frontend/add-car.js:16-19 | character by character for the VIN |
| ClientText.ClientThenServer | src/frontend/add-car.js:10-14 | sending normalised text to the server gives what the raw text gives, exactly when the server's trimmed text has no vertical tab or form feed at an end |
| ClientText.ClientThenServerUpper | src/frontend/add-car.js:16-19 | the same for the VIN |
| ClientText.NoExoticBlanks | src/frontend/add-car.js:10-19 | so it does for all text without those two characters |
| ClientText.ClientEqualsServer | src/frontend/add-car.js:10-14 | client and server give the same text exactly when moreover no letter follows a white-space character other than the space |
| Edit.EditPage.LoadCarForEdit | src/frontend/add-car.js:34-50 | the form and the image that a car is loaded into |
| Edit.EditPage.HandleFormSubmit | src/frontend/add-car.js:84-117 | which request is sent, and that one is sent exactly when validation passes, which missing numbers do |
| Edit.ValidationIs | src/frontend/add-car.js:99-101 | a form passes exactly when make and model hold more than white space, the year is missing or from 1886 to 2027, and the price is missing or not negative |
| Edit.InputTextPieces | src/frontend/add-car.js:42-48 | a text input drops line breaks and nothing else |
| Edit.PutReadsFormData | src/frontend/add-car.js:88-97 | the car that the server builds from the form, missing numbers as 0 |
| Edit.EditWithoutChange | src/frontend/add-car.js:84-110 | loading, submitting unchanged and serving the PUT, for every row that passes validation: exactly when it fails, and, when it succeeds, that it changes nothing but `updated_at` exactly when the row's text is in normal form and the form keeps it |
| Edit.TitleRoundTrip | src/frontend/add-car.js:42-94 | a stored text survives the form and the server exactly when it is in title case, has no line break, and no vertical tab or form feed at an end |
| Edit.UpperRoundTrip | src/frontend/add-car.js:48-95 | the same for the VIN, with upper case |
| Timestamps.TextOrderIsTimeOrder | src/database/database.cpp:8-15 | for four-digit years, byte-wise order of timestamps is the order of their times |
| Timestamps.StampRoundTrip | src/database/database.cpp:13 | a timestamp is the only text that reads, in the pattern `2025-01-31 08:05:00`, as the time it was made of |
| Timestamps.EveryStampIsPrintable | src/database/database.cpp:13 | and every text of that pattern with a year from 1000 on is a timestamp |
| Timestamps.PrefixFirst | src/database/database.cpp:77 | in the text order a proper prefix comes first |
| Timestamps.StampsDetermineTimes | src/database/database.cpp:8-15 | two such times have one timestamp exactly when they are equal |
| Listing.PagesTile | src/Routes/CarRoutes.h:48-56 | for every requested limit the pages at multiples of the clamped limit concatenate to the whole listing, each row once |
| Listing.PageIs | src/database/database.cpp:126-128 | position by position: at most so many rows, from the offset on, fewer only at the end, none past it |
| Listing.ClampIsNearest | src/Routes/CarRoutes.h:48-49 | the limit used is the allowed one nearest to the requested one |
| Listing.NewestFirst | src/database/database.cpp:77-123 | the listing is newest first in time |
| Listing.ListingExists | src/database/database.cpp:77-123 | every table has a listing |
| Pager.StatsPage.FinishLoad | src/frontend/stats.js:37-52 | the page's state and the displayed list after an answer or a failure |
| Pager.StatsPage.RenderPagination | src/frontend/stats.js:54-84 | the controls, and what each button requests |
| Pager.RenderIs | src/frontend/stats.js:63-82 | in figures: no controls up to twenty cars; the page shown holds the offset, the last page holds the last car; the buttons ask for twenty less and twenty more, and are offered at any but the first and the last page |
| Pager.StatsPage.ApplyFiltersAndSort | src/frontend/stats.js:140-162 | the displayed list: exactly the cars with the chosen values, in the chosen order; the page's own list does not change |
| Pager.RunsAreAligned | src/frontend/stats.js:28-84 | in every run of the page, with answers of any content in any order, every requested offset is a non-negative multiple of 20 |
| Pager.PageInRange | src/frontend/stats.js:63-80 | the page number shown is in range exactly when the offset is below the total; Next is offered exactly below the last page |
| Pager.PagerStaysInRange | src/frontend/stats.js:28-84 | on an unchanged table with a car, in every run, requests and the page shown stay in range; after an answered load the controls are there exactly when there are several pages, and Prev and Next are offered exactly when there is such a page |
| Pager.WalkShowsEveryCarOnce | src/frontend/stats.js:28-80 | the run of the page that clicks Next from the first load until it is no longer offered shows the whole listing in order, every car exactly once |
| Pager.NextThenPrev | src/frontend/stats.js:70-80 | Prev after Next brings back the same page |
| Pager.ReloadStays | src/frontend/stats.js:28-52 | loading again stays on the page and shows what the table holds by then |
| Pager.FailureKeepsControls | src/frontend/stats.js:46-51 | a failed load empties the list and keeps the controls, and the next one shows the page |
| Pager.StrandedPage | src/frontend/stats.js:66-69 | loading an emptied page again leaves neither cars nor controls exactly when the table fits on one page |
| Sorting.StableSortUnique | src/frontend/stats.js:101-159 | any two stable sorts of a list are equal, so the engine's algorithm does not matter |
| Sorting.StableSortSorts | src/frontend/stats.js:152-159 | the model's sort is a stable sort and a permutation |
| Sorting.StableOrder | src/frontend/stats.js:101 | of two elements with equal keys the earlier one stays in front |
| Stats.CountModels | src/frontend/stats.js:97-100 | the loop counts every non-empty model and meets the models in order of first appearance |
| Stats.CountsAddUp | src/frontend/stats.js:97-100 | the counts add up to the number of cars with a model |
| Stats.ComputeTopModels | src/frontend/stats.js:97-101 | the listed models with their counts |
| Stats.TopFive | src/frontend/stats.js:101 | each listed model really occurs, better ones first, no omitted one beats a listed one; of models with equal counts, decimals up to 4294967294 come first, smaller before larger, and the others in the order of their first cars (section 10.1.11.1 of ECMA-262) |
| Stats.IndexIsCanonical | src/frontend/stats.js:101 | which names count as array indices, and their order by length and text |
| Stats.FirstMetOrder | src/frontend/stats.js:97-100 | the other names are met in the order of their first cars |
| Stats.TopFiveLength | src/frontend/stats.js:101 | five models, or all the different ones |
| Stats.FiltersMatch | src/frontend/stats.js:147-149 | the three filters keep exactly the cars that match all active ones, in order |
| Stats.KeepsCommute | src/frontend/stats.js:147-149 | the order of two filters does not matter |
| Stats.ShownListIs | src/frontend/stats.js:140-162 | the displayed list is the only stable sort of the matching cars |
| Stats.ShownInOrder | src/frontend/stats.js:151-159 | for each of the six choices, price, year or mileage rises or falls through the list, and cars that tie, or all without a choice, stay in the order of the page's list |
| Stats.ShownListMembers | src/frontend/stats.js:140-162 | the displayed list holds exactly the matching cars, as often as they occur |
| Html.EscapeRoundTrip | src/frontend/stats.js:7-10 | escaped text shows as the original |
| Html.EscapedIsInert | src/frontend/stats.js:7-10 | escaped text holds no quote and no angle bracket |

## Left out

- SQLite beyond the facts above: PRAGMAs, indexes as structures, failing prepares, busy timeouts, opening files, exhausted ids.
- Routing, JSON parsing and printing, headers, OPTIONS routes, static files; a body is malformed or a map from key to typed value.
- `GET` in the step machine: it changes nothing. The total and the page of one listing may come from two different tables.
- A listing page is read from one table. The source steps its SELECT on the connection that other threads write through (`src/database/database.cpp:133`), so a page may mix rows from before and after a write.
- Races.OrderMattersIffRace: leaves out requests that insert, because an interleaving can give them answers that no serial order gives (`Witnesses.ForeignAnswerIsNotSerial`), and several requests for one row, because a stale write can end as no serial order does (`Witnesses.UpdateIsLost`). The table alone, up to a renaming of fresh ids, is not stated for them.
- `localtime` fills one static buffer that the threads share (`src/database/database.cpp:11`). The model takes each stamp as one consistent reading of the clock.
- Embedded NULs, bytes outside ASCII, floating-point rounding, and narrowing of wide integers to `int`.
- Machine.Stamp: stands for any text when the time is not printable with a four-digit year; results that compare stamps ask for printable times.
- Safety.StampedExec: asks for a clock that does not go back; so do Writes.WhenUpdatedAtGoesBack, for the run up to the stamp, and Witnesses.UpdatedAtGoesBack. The other results on runs do not.
- Stats.CountModels: does not model names that the counting object inherits from `Object.prototype`, for which the count does not start at zero.
- Edit.EditWithoutChange: takes numbers as crossing JSON exactly, and leaves out the browser's own check of required fields and ranges, which can only keep the form from being sent.
- The DOM, modals, previews, choosing an image, the average price and the filter drop-downs.
- `src/frontend/app.js` and `src/frontend/home.js`, which repeat the same helpers.
- Nothing was executed.
