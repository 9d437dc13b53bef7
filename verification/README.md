# Price lists, baskets and import tasks: a verified model

The repository is a Django back end for a procurement network. Suppliers publish price lists, customers
fill a basket with rows of those lists and confirm it as an order, and staff upload price lists that a
Celery worker imports in the background. The price lists of a shop live in seven related tables, three
different importers write them statement by statement without a transaction, and baskets and confirmed
orders hold rows of the same tables at live prices. This project models that core in Dafny and proves
what the code keeps, publishes, restores and disturbs.

`dafny verify dfyconfig.toml` checks the whole project.

## How the model is built

* **Tables** (`Prelude`, `Tables`): a map from id to row per table, with id counters that are never
  reused. `ValidCatalog` is the invariant that the code relies on although the schema does not declare
  it: unique shop, product and parameter names, one row per shop and external id; and what the schema
  does declare: one value per row and parameter, no dangling reference, no negative amount.
* **Primitives** (`Orm`): get, create, get_or_create, update_or_create and cascading delete as functions
  with explicit errors. `Store.Database` is the mutable database: one field per table, each primitive a
  method proved against its function in `Orm`.
* **Importers** (`Programs`, `Importers`): for a parsed file, each importer is a straight-line program of
  primitives. `Run` stops at the first error; the state after any prefix is a state that others can see,
  and the one left behind by a crash. The methods in `Importers` keep the nested loops, `continue`s and
  early exits of the code and are proved to do exactly what the programs do.
* **What a customer sees** (`PriceView`, `LoadResult`, `ListingMeaning`): a shop's price list, from
  external id to product name, model, prices, stock and parameters, free of row ids. Every statement
  refines an update of that view; `Listing` is the list a file describes, given a meaning position by
  position in `ListingMeaning`.
* **In terms of fields and rows** (`LoadOfFields`, `ImportOfFields`, `PartnerOfFields`, `Answers`): what each
  importer accepts, lists and adds, and what each endpoint answers and writes, restated over the values of
  the file, the fields of the request and the rows of the tables alone. These statements share no test with
  the code they are about, so that they say what a falsy field, a null parameter or a zero id leads to.
* **Success, failure and crash**: `LoadSuccess`, `LoadShared`, `LoadFailure`, `Recovery` and `NoRollback`
  for `load_data`; `ImportSuccess`, `ImportPublishes`, `ImportFailure` (crash), `ImportStops` (error),
  `ImportRetry`, `ImportTwice` and `ImportLater` for `do_import`; `PartnerSuccess`, `Partner` and
  `PartnerStops` for the reference importer. `Witnesses` holds the inputs at which a plausible claim fails.
* **Carts** (`Cart`, `CartRefinement`, `Isolation`, `CartRuns`, `Removal`, `Endpoints`): each request is one
  atomic step with the endpoint's checks in the endpoint's order and its HTTP status.
* **The running system** (`System`, `Safety`, `Runs`, `Uninterrupted`, `LoadAmongJobs`, `Stock`,
  `StockOfFiles`, `StockOfRuns`): requests of any users, any number of `load_data` commands and the single
  worker, interleaved statement by statement; commands and worker may die anywhere. Two history fields record the largest stock of each
  row and the successful confirmations.

## Where the code surprises

* Nothing rolls an import back. IMPORT_INSTRUCTIONS.md:129 promises that a failed import saves nothing;
  the code does not keep that promise, and the model follows the code. `NoRollback.FailureSaves` and
  `ImportStops.ImportFailureSaves` are inputs; `NoRollback.FailedLoadUnchangedExactly` and
  `ImportStops.FailedImportUnchangedExactly` say for every file and store when a failure saves nothing.
* `do_import` cannot add a product row: it supplies no recommended price, so its create branch always
  violates NOT NULL. A file with one good that the shop does not list yet never gets to its end
  (`ImportSuccess.ImportSucceedsExactly`).
* `do_import` is not idempotent for every file: a category entry with a null id makes a new category each
  time. `ImportTwice.NotIdempotent` is an input, `ImportTwice.ImportTwiceExactly` the exact condition.
* `load_data` followed by `do_import` of the same file fails where a good names a category that does not
  exist: `load_data` never looks up the category of a product it knows, `do_import` always does.
  `Witnesses.StrayCategory` is an input, `LoadThenImport.LoadThenImportExactly` the exact condition.
* A dead import can block a later one: it may have created a shop for an owner who can own only one
  (`Recovery.OwnerTaken`; `Recovery.ReloadRecoversExactly` says that nothing else can).
* Not only `do_import` can leave an order line above its stock. `load_data`, too, lowers the stock of a row
  when its file repeats an id with less of it, and a customer may come in between (`Stock.LoadLowersStock`
  is a run). `StockOfRuns.LoadCoversExactly` and `StockOfRuns.ImportCoversExactly` say for which file and
  store every line stays within stock, whatever is asked while the import runs; requests alone break it
  for all others.
* Where a stranger owns a shop of the file's name, `load_data` takes it over, while `PartnerUpdate` opens
  a second shop of that name, after which `load_data` of the name raises (`Partner.SecondShopBlocks`).
  `Witnesses.SecondShopOpened` is an input, `Partner.SecondShopExactly` the exact condition.
* `PartnerUpdate` lists goods with a zero price or stock and falsy parameters, and two rows for an id
  that comes back under another name or category; `load_data` does neither. `Witnesses.ListsDiffer` and
  `Witnesses.TwoRowsForOneId` are inputs, `Partner.BothPublishExactly` and `Partner.RepeatedIdBreaks` say
  for which files.

## Model

| member | source | states |
|---|---|---|
| LoadResult.LoadPublishesFile | orders/backend/utils.py:57-143 | a successful load_data leaves the shop with exactly the list the file describes, whatever it held before, and every other shop with the list it had |
| ListingMeaning.ListedIds | orders/backend/utils.py:93-106 | the listed external ids are those of the complete goods; a zero price or stock drops a good |
| ListingMeaning.ListedColumns | orders/backend/utils.py:108-125 | name, model, prices and stock come from the last complete entry with that id |
| ListingMeaning.UnsetText | orders/backend/utils.py:130-133 | a parameter that no complete entry sets to a truthy value is not shown |
| ListingMeaning.LastText | orders/backend/utils.py:130-140 | a parameter shows the text of its last truthy mention over all complete entries with that id |
| LoadOfFields.ListsSold | orders/backend/utils.py:94-106 | after a success an id is listed if and only if some good has it and has name, category, id, price and quantity, none of them zero, empty or null |
| LoadOfFields.ListsColumns | orders/backend/utils.py:108-125 | the columns are those of the last such good; an absent model is the empty text |
| LoadOfFields.ListsText | orders/backend/utils.py:130-140 | a text is that of the last parameter of that name with a true value, over all such goods with the id |
| LoadOfFields.ListsNoText | orders/backend/utils.py:130-133 | without such a parameter, or under the empty name, nothing is shown |
| LoadOfFields.AcceptsExactly | orders/backend/utils.py:41-143 | Status True if and only if the keys are there and not null, the shop exists or the user may own one (no user and user 0 may), and every good with the five fields is storable and has a product that exists or can be created by then |
| LoadOfFields.AddsShopAndLinks | orders/backend/utils.py:51-86 | the shop row with its owner, the links and the category ids after a success: an entry counts if its id is not zero and its name not empty |
| LoadOfFields.AddsCategory | orders/backend/utils.py:79-82 | a known category keeps its name, a new one has that of the first entry that counts |
| LoadOfFields.AddsProduct | orders/backend/utils.py:109-112 | a known product keeps its row, a new one is in the category of the first good sold under its name |
| LoadOfFields.AddsNoOtherProduct | orders/backend/utils.py:104-112 | no other product is new |
| LoadSuccess.LoadSucceedsExactly | orders/backend/utils.py:41-143 | load_data answers Status True if and only if the file and the store satisfy a condition on their contents before the import, although the import creates the categories and products it later looks up |
| LoadShared.LoadAddsExactly | orders/backend/utils.py:51-111 | the shop row, the links, the categories and the products after a success: every accepted category (under its first accepted name) and every complete good's product (under the category of the first complete good of that name) is there, nothing else is new, and old rows are as they were |
| Recovery.StoppedLoad | orders/backend/utils.py:88-153 | wherever load_data stops, the store is well-formed and other lists are intact; before the deletion the shop's list is intact, after it the list is that of a prefix of the goods and at most one more with part of its parameters |
| LoadFailure.FailedLoad | orders/backend/utils.py:92-153 | after Status False the list is that of the goods before the failing one, at most with the failing one's row and none of its parameters; the failing one is the first complete good that is unsound or has neither product nor category; other lists are untouched |
| LoadFailure.LoadEnds | orders/backend/utils.py:41-153 | the same for every run, failing or not: the final list is a function of the store and the file |
| NoRollback.FailedLoadUnchangedExactly | orders/backend/utils.py:57-153 | a failing load_data leaves the database identical if and only if it is rejected at once, or its shop, categories and links are all there, the shop lists nothing, and the first complete good fails before it writes |
| NoRollback.FailureSaves | orders/backend/utils.py:57-60 | an input for which a failed load_data has saved something |
| Recovery.ReloadRecoversExactly | orders/backend/utils.py:51-143 | after a run that stopped anywhere, a file that could be imported before still can be if and only if the stopped run did not create another shop for its owner; the resulting list is as if that run had never happened |
| Recovery.OwnerTaken | orders/backend/models.py:104-106 | an input for which the later import fails |
| Recovery.LoadsCommute | orders/backend/utils.py:79-140 | imports of two shops publish the same two lists in either order, although they share products, categories and parameters |
| Programs.FailureIsPrefix | orders/backend/utils.py:151-153 | a run that raises leaves exactly the database of an error-free prefix of its statements |
| PriceView.ListIsRows | orders/backend/models.py:147-163 | a shop's list has an offer for an id if and only if a row has both, with that row's columns and its product's name |
| PriceView.TextsAreRows | orders/backend/models.py:178-191 | an offer shows a text under a name if and only if a value row of the row has that text under a parameter of that name |
| PriceView.ExecRefines | orders/backend/utils.py:57-140 | one statement on rows and ids acts on the visible lists as its abstract counterpart does |
| PriceView.RunRefines | orders/backend/utils.py:57-140 | so does every program |
| PriceView.ClearEffect | orders/backend/utils.py:89 | deleting a shop's rows, with the cascade to parameter values, removes its offers from view and no others |
| PriceView.RowEffect | orders/backend/utils.py:115-125 | overwriting a product row changes the columns of one offer and keeps its parameters |
| PriceView.ValueEffect | orders/backend/utils.py:136-140 | update_or_create of a parameter value changes one text of one offer |
| PriceView.ParameterEffect | orders/backend/utils.py:135 | a new parameter name changes nothing that is visible |
| ImportSuccess.ImportSucceedsExactly | orders/backend/tasks.py:80-118 | do_import gets to its end if and only if the category entries can be created and every good names an existing category, a product, storable numbers and an external id that the shop lists already |
| ImportPublishes.ImportPublishesPatches | orders/backend/tasks.py:90-112 | on success the shop's list is the old one patched good by good (model and recommended price stay, every parameter is stored as text); other lists are untouched |
| ImportOfFields.AcceptsImportExactly | orders/backend/tasks.py:80-118 | do_import gets to its end if and only if no key is null, the category entries can be created, and every good has category, name and id, its numbers absent or not negative, its parameters not null, a known category and an id that a shop of the name lists |
| ImportOfFields.ImportKeepsIds | orders/backend/tasks.py:94-102 | no id, model or recommended price of the list changes; every good's id was listed; an offer whose id no good has is as it was |
| ImportOfFields.ImportShowsColumns | orders/backend/tasks.py:94-102 | name, price and stock are those of the last good with the id; an absent price or stock is zero |
| ImportOfFields.ImportShowsText | orders/backend/tasks.py:105-111 | a parameter shows its last text over all goods with the id: "None" for a null, any other value, falsy or not, as its own text |
| ImportOfFields.ImportKeepsText | orders/backend/tasks.py:105-111 | a parameter that no good with the id mentions is as it was |
| ImportOfFields.ImportAddsExactly | orders/backend/tasks.py:81-92 | the shop row (named "Default Shop" if the file names none, and without owner), the categories and the products after a success; links and orders are untouched |
| ImportOfFields.ImportMarksTask | orders/backend/tasks.py:114-118 | the task row is marked and counts goods, category entries and parameters; no other task changes |
| ImportFrame.ImportAddsNoRow | orders/backend/tasks.py:94-111 | wherever do_import stops, no product row or order line has appeared, disappeared or changed id, external id, shop, model or recommended price, and no row of another shop has changed at all |
| ImportFailure.StoppedImport | orders/backend/tasks.py:80-118 | wherever do_import stops, other shops' lists are intact and the shop's is the old one patched by some goods of the file in full and at most one more with part of its parameters |
| ImportStops.FailedImport | orders/backend/tasks.py:90-125 | when do_import raises, the list is the old one patched by the goods before the first that the store does not match, with that good's row if only its parameters are null |
| ImportStops.FailedImportUnchangedExactly | orders/backend/tasks.py:80-125 | a failing do_import leaves the database identical if and only if its shop is null, or there, and its entries up to the failure are known and its goods up to the failure say what the store says |
| ImportStops.ImportFailureSaves | orders/backend/tasks.py:82 | an input for which a failed do_import has saved something |
| ImportFrame.ImportKeeps | orders/backend/tasks.py:80-118 | every part of an import keeps the store well-formed and removes or renames no category, product, parameter or value |
| ImportResult.WarmGoodsRun | orders/backend/tasks.py:90-112 | on a store that knows all the goods the loop succeeds, and its effect on every row is computed from the last mention; the counters grow by goods and parameters |
| ImportAgain.ImportInStep | orders/backend/tasks.py:80-118 | importing into a store in step with the file succeeds and leaves catalogue and orders identical, row by row |
| ImportTwice.ImportSettlesStore | orders/backend/tasks.py:80-118 | after a success the store agrees with the file and the counters are the file's sizes |
| ImportTwice.ImportTwiceExactly | orders/backend/tasks.py:80-118 | a second run leaves every table identical if and only if no category entry has a null id, and then succeeds |
| ImportTwice.NotIdempotent | orders/backend/tasks.py:85-87 | an input whose second import writes again |
| ImportLater.ImportAgainLater | orders/backend/tasks.py:80-118 | after one success and any run of the system that ends with the shop's list as it was, the same import succeeds again and leaves every table identical, the task row included |
| ImportLater.TriggeredTwice | orders/backend/views.py:273-278 | a task that is in the queue twice is imported twice, whatever happens between its two turns, the tasks queued in between and all other events included; if the shop's list is in the end what the first turn left, the second one writes nothing |
| ImportLater.DeadWorkerRetried | orders/backend/views.py:273-278 | a worker that dies during a task leaves it triggerable; once it is its turn with the tables as they were left, every list, the task and the orders are what an undisturbed run makes of them |
| ImportRetry.RetryRecovers | orders/backend/tasks.py:80-118 | wherever a do_import that would have succeeded dies, the retry succeeds and every price list, the task row and the orders are those of the direct success; null category ids make no difference |
| ImportRetry.PatchedAgain | orders/backend/tasks.py:94-112 | patching a list with a part of the goods first does not matter once all of them are imported |
| ImportLater.PlayGrows | orders/backend/tasks.py:82-92 | no run of requests and importers takes away a category, a product name or a shop |
| ImportCounts.ProgramCount | orders/backend/tasks.py:87-112 | an import without a raise counts one per category entry, good and parameter of its file |
| ImportCounts.RunCounts | orders/backend/tasks.py:87-112 | the counters at the end of a run are the counting statements it executed |
| LoadThenImport.LoadThenImportExactly | orders/backend/tasks.py:85-112 | after load_data of a file without gaps, do_import of the same file succeeds if and only if every good's category was known or is listed, and then writes nothing but its task row |
| Witnesses.StrayCategory | orders/backend/tasks.py:91 | an input for which load_data succeeds and do_import of the same file then raises |
| Totals.TotalAddsUp | orders/backend/models.py:243-248 | an order's total is nothing for no lines and quantity times live price for each line |
| Totals.LoadConservesTotals | orders/backend/serializers.py:148-151 | once load_data has deleted the shop's rows, every order's total is down by exactly what its lines from that shop were worth, and its other lines are the same lines |
| Totals.ImportMovesTotals | orders/backend/models.py:243-248 | wherever do_import stops, every total has moved by its quantities times the price changes so far |
| Totals.ImportedPrices | orders/backend/tasks.py:94-102 | after a success a row's price is that of the last good with its id, or the old one |
| Totals.ImportConservesTotals | orders/backend/models.py:243-248 | on success every order's total moves by the sum of line quantity times (final price minus old price) |
| Partner.PartnerPublishes | reference/netology_pd_diplom/backend/views.py:436-456 | a successful PartnerUpdate of a file that repeats no id publishes one offer per good, with all its parameters, and touches no other list |
| PartnerOfFields.PartnerAddsExactly | reference/netology_pd_diplom/backend/views.py:436-456 | every table after a success, for any accepted file: the user's own shop row, a link to each category that the entries name or create and to no other, those categories, the products, the shop's rows column by column, other shops' rows as they were, and the order lines of the deleted rows gone |
| PartnerOfFields.PartnerShows | reference/netology_pd_diplom/backend/views.py:443-456 | without repeated ids each good's offer shows its own columns and every parameter's own text, falsy ones included |
| PartnerOfFields.PartnerShowsOnly | reference/netology_pd_diplom/backend/views.py:442-456 | and no other id is listed |
| PartnerStops.PartnerFailsExactly | reference/netology_pd_diplom/backend/views.py:436-456 | a failing PartnerUpdate: before its deletion rows, products and orders are as they were; after it the old rows and their order lines are gone and the shop has the rows of the goods before the failing one, and that one's too if only its parameters are at fault |
| Partner.RepeatedIdBreaks | reference/netology_pd_diplom/backend/views.py:443-451 | with a repeated id a success leaves two rows for one external id |
| Partner.PartnerRefinedByLoad | reference/netology_pd_diplom/backend/views.py:436-456 | for a file without gaps (no missing, null, zero or falsy field) and repeated ids: whenever PartnerUpdate succeeds, load_data does, and the lists are equal |
| PartnerSuccess.PartnerSucceedsExactly | reference/netology_pd_diplom/backend/views.py:436-458 | for every file: PartnerUpdate succeeds if and only if the user's own shop bears the name or the user owns none, known category ids come with their names, every good has all its keys, none null or negative, under a category that exists by then, and no two goods share id, name and category |
| Partner.BothPublishExactly | reference/netology_pd_diplom/backend/views.py:436-456 | for every file PartnerUpdate accepts: both importers succeed and publish the same list of one row per id if and only if load_data finds its categories and products, no id is repeated, and no good has a zero or empty field or a falsy parameter |
| Partner.SecondShopExactly | reference/netology_pd_diplom/backend/views.py:436 | after a successful PartnerUpdate shop names are unique if and only if no shop bore the name or the user's own did |
| Witnesses.SecondShopOpened | reference/netology_pd_diplom/backend/views.py:436 | an input whose PartnerUpdate opens a second shop of one name |
| Witnesses.ListsDiffer | reference/netology_pd_diplom/backend/views.py:445-451 | an input on which both importers succeed and publish different lists |
| Witnesses.TwoRowsForOneId | reference/netology_pd_diplom/backend/views.py:443-451 | an input whose PartnerUpdate leaves two rows for one external id |
| Partner.SecondShopBlocks | orders/backend/utils.py:57-60 | if they are not, every load_data of that name raises MultipleObjectsReturned |
| Answers.AddAnswers | orders/backend/views.py:118-144 | POST of a user with a basket, for every body: 400 for a null or zero id or quantity (an absent one is 1), 404 for an unknown row, 400 above stock, 500 for a negative amount, and otherwise 201 with exactly that line added or raised |
| Answers.AddedExactly | orders/backend/views.py:118-144 | 201 if and only if id and quantity are given and not zero, the row exists, and quantity and new total are within stock and not negative |
| Answers.OpensBasket | orders/backend/views.py:100-118 | GET and POST of a user without a basket are those of a user with a new and empty one |
| Answers.ViewAnswers | orders/backend/views.py:103-112 | GET shows the quantity of each line of the basket and nothing else |
| Answers.ChangeAnswers | orders/backend/views.py:150-170 | PUT: 400 for a null or zero line id or a null quantity, 404 for a line that is not the basket's, 400 above stock, and otherwise 200 with the line removed at zero or less or set |
| Answers.DropAnswers | orders/backend/views.py:172-184 | DELETE: 400 without an id, 404 for another's line, otherwise that line is gone, with 204 or 200 by view |
| Answers.BatchAnswers | orders/backend/views.py:384-399 | batch delete: 400 for no ids; otherwise the basket's lines among them are gone and counted |
| Answers.ClearAnswers | orders/backend/views.py:408-420 | clearing: all lines of the basket are gone and counted |
| Answers.NeedsBasket | orders/backend/views.py:150 | PUT, DELETE, batch delete and clearing answer 404 to a user without a basket |
| Answers.ConfirmAnswers | orders/backend/serializers.py:121-138 | 200 if and only if the ids are those of the user's own order in state basket, whatever lines it has, and of the user's own contact; then exactly that row is confirmed with that contact, otherwise 400 and nothing changes |
| Answers.ContactAnswers | orders/backend/views.py:194-205 | 201 with one more contact of the user if and only if city, street and phone are given and not blank and no optional part is null |
| Answers.TriggerAnswers | orders/backend/views.py:268-286 | 400 for a null or zero id, 404 for an unknown task, 400 for a processed one, and otherwise 200 and the task at the end of the queue |
| Answers.UploadAnswers | orders/backend/admin.py:117-127 | an upload adds one unprocessed task with that very file and zero counters; without a file nothing changes |
| Answers.WorkerTakesFirst | docker-compose.yml:9-11 | an idle worker starts the program of the first queued task's own file |
| Answers.JobsStartAndDie | orders/backend/management/commands/load_db.py:15 | a new command is one more job; a dead command or worker does no more |
| CartRefinement.CartRefines | orders/backend/views.py:99-184 | every request answers and acts as a cart that is just a map from product row to quantity, although POST addresses rows and PUT and DELETE address lines |
| Isolation.RunsRefineSimpleCart | orders/backend/views.py:99-184 | over any run of any users' requests on one catalogue a basket holds what that simple cart would hold |
| CartRuns.SystemRefinesSimpleCart | orders/backend/views.py:99-184 | over any run of the system a basket holds what the simple cart holds when the importers take out the rows they delete |
| Isolation.RejectedChangesNothing | orders/backend/views.py:118-143 | a request answered with an error changes no line and at most leaves an empty basket |
| Isolation.OthersKeepContent | orders/backend/views.py:100 | somebody else's request leaves a user's cart as it is |
| Isolation.NonInterference | orders/backend/views.py:99-184 | removing every other user's cart requests from a run with importers leaves a user's answers and basket the same, up to renamed order and line ids |
| Cart.HandleKeeps | orders/backend/views.py:99-184 | every request keeps one basket per user, one line per order and row, amounts that are not negative and contacts that are the user's own |
| Removal.BatchDeletesExactly | orders/backend/views.py:384-399 | batch delete removes exactly the own basket's lines whose ids occur, counts each once and lowers the total by what they were worth; other totals stay |
| Removal.LoopSelectsBatch | reference/netology_pd_diplom/backend/views.py:349-361 | for the comma-separated decimal forms of any ids the reference loop of OR-ed filters selects the lines that batch delete removes |
| Removal.LoopSelectsExactly | reference/netology_pd_diplom/backend/views.py:349-361 | for any text at all the loop selects the basket's lines whose ids the digits between its commas stand for, leading zeros included |
| Removal.DecimalParse | reference/netology_pd_diplom/backend/views.py:355-357 | decimal forms read back as the same number, and only those of non-negative numbers pass isdigit |
| Removal.SplitJoin | reference/netology_pd_diplom/backend/views.py:351 | splitting at commas undoes joining |
| Safety.EveryRunIsValid | orders/backend/models.py:101-191 | in every run from the empty system, after every single write: names unique, one row per shop and id, one value per row and parameter, one line per order and row, no dangling reference, counters and confirmations in order |
| Safety.NextKeepsValid | orders/backend/models.py:101-191 | each single event keeps that invariant |
| Runs.NeverMultiple | orders/backend/utils.py:57-140 | in a well-formed store no statement of an importer finds more than one row |
| Runs.OrderLifeCycle | orders/backend/views.py:214-233 | in every run: at most one basket per user; a user's confirmed orders are exactly the successful confirmations, none confirmed twice; each has a contact of the same user |
| Runs.PlayAdvances | orders/backend/views.py:220-223 | over any run an order only moves from basket to confirmed, and a confirmed order's row is final |
| Runs.RequestKeepsOtherOrders | orders/backend/serializers.py:121-137 | a request alters the row and lines of no order but the asking user's own basket |
| Runs.LinesWithinPeak | orders/backend/views.py:128-142 | in every run each line holds between nothing and the largest stock its product row ever had |
| Runs.PeakIsHighWater | orders/backend/views.py:161-169 | the recorded peak never falls and rises only to a stock that the row then has |
| Runs.LinesWithinStock | orders/backend/views.py:128-142 | in every run none of whose statements lowers a stock, no line exceeds the current stock |
| Stock.SafeExactly | orders/backend/views.py:128-142 | an importer's statement keeps every line within stock, whatever request comes just before it, if and only if it lowers the stock of no row that it keeps |
| Stock.LoadLowersStock | orders/backend/utils.py:115-125 | a run of one load_data and one request, without do_import, that ends with a line above its stock |
| StockOfFiles.LoadSteadyExactly | orders/backend/utils.py:104-125 | load_data, failing or not, lowers no stock at any statement if and only if the goods it stores mention no id again with less of it |
| StockOfFiles.LoadAloneSteady | orders/backend/utils.py:104-125 | the same for the events of a command that nothing interrupts |
| StockOfFiles.ImportSteadyExactly | orders/backend/tasks.py:90-102 | do_import, failing or not, lowers no stock at any statement if and only if each good that it imports has at least the stock that its row has at that point |
| StockOfRuns.LoadCoversExactly | orders/backend/utils.py:104-125 | from the start of a load_data on, no line exceeds its stock in any run in which no other importer moves if and only if the goods that are stored mention no id again with less of it, which is decided by the file and the store at the start; the same if only requests come in between |
| StockOfRuns.ImportCoversExactly | orders/backend/tasks.py:90-102 | the same for the worker's run of do_import: if and only if each good that it imports has at least the stock that its row has at that point |
| LoadAmongJobs.LoadPublishesAmongJobs | orders/backend/utils.py:57-143 | in any interleaved run, a load_data that gets to its end has published exactly the list its file describes, if from its deletion on nobody else changes that list; what others do to the shared categories, products and parameters does not matter |
| Runs.TaskProtocol | orders/backend/tasks.py:114-118 | over any interleaving of uploads, triggers and worker steps the processed flag never returns to false, a processed task reports the sizes of its file and an unprocessed one zeros |
| Runs.FirstInFirstOut | orders/backend/views.py:272-278 | over any run, what was queued and the accepted triggers are what the worker has taken and then the queue: nothing is lost, repeated or reordered |
| Runs.QueueProtocol | docker-compose.yml:9-11 | from the empty system the accepted triggers are the tasks taken and then the queue, and every queued task exists |
| Runs.ProcessedStaysOut | orders/backend/views.py:274-275 | once a task is processed no trigger for it is accepted any more |
| Uninterrupted.LoadAlone | orders/backend/management/commands/load_db.py:15 | a command that dies after n of its steps leaves what that prefix of its program leaves |
| Uninterrupted.WorkerAlone | orders/backend/tasks.py:76-118 | the worker's steps on one task, uninterrupted, do what the import does in one go |
| Importers.LoadData | orders/backend/utils.py:13-153 | the code of load_data on a parsed file does exactly what its program does and reports its success |
| Importers.LoadCategoryLoop | orders/backend/utils.py:71-86 | the loop over categories |
| Importers.LoadGoodsLoop | orders/backend/utils.py:93-140 | the loop over goods |
| Importers.LoadItem | orders/backend/utils.py:94-140 | its body, with the early continue |
| Importers.LoadParameterLoop | orders/backend/utils.py:130-140 | the inner loop over parameters |
| Importers.DoImport | orders/backend/tasks.py:72-125 | the code of do_import does exactly what its program does; an unknown task changes nothing |
| Importers.ImportCategoryLoop | orders/backend/tasks.py:85-87 | the loop over categories with its counter |
| Importers.ImportGoodsLoop | orders/backend/tasks.py:90-112 | the loop over goods |
| Importers.ImportItem | orders/backend/tasks.py:91-112 | its body with the counters |
| Importers.ImportParameterLoop | orders/backend/tasks.py:105-112 | the inner loop over parameters |
| Importers.PartnerUpdate | reference/netology_pd_diplom/backend/views.py:436-458 | the code of the reference importer does exactly what its program does |
| Importers.PartnerCategoryLoop | reference/netology_pd_diplom/backend/views.py:437-440 | its loop over categories |
| Importers.PartnerGoodsLoop | reference/netology_pd_diplom/backend/views.py:442-456 | its loop over goods |
| Importers.PartnerItem | reference/netology_pd_diplom/backend/views.py:443-456 | the body of that loop |
| Importers.PartnerParameterLoop | reference/netology_pd_diplom/backend/views.py:452-456 | its inner loop over parameters |
| Endpoints.GetCart | orders/backend/views.py:95-112 | GET opens a basket if there is none and shows its rows with their quantities |
| Endpoints.PostCart | orders/backend/views.py:114-144 | POST checks the stock before and after adding up, and reserves nothing |
| Endpoints.PutCart | orders/backend/views.py:146-170 | PUT sets a line of the own basket within stock or deletes it at zero or less |
| Endpoints.DeleteItem | orders/backend/views.py:172-184 | DELETE removes one line of the own basket; the two views differ in the status only |
| Endpoints.PostBatchDelete | orders/backend/views.py:375-399 | batch delete in place |
| Endpoints.DeleteAllItems | orders/backend/views.py:408-420 | clearing the basket and counting its lines |
| Endpoints.PostConfirmation | orders/backend/views.py:214-233 | both ids validated against the user, then state and contact of the basket set |
| Endpoints.PostContact | orders/backend/views.py:194-205 | a contact of the asking user, or 400 without city, street or phone |
| Endpoints.OpenBasket | orders/backend/views.py:100 | get_or_create of the user's basket |
| Endpoints.Items | orders/backend/views.py:103-106 | the loop over a basket's lines |
| Endpoints.TotalPrice | orders/backend/serializers.py:148-151 | the loop that sums an order's lines at live prices, in whatever order the lines come |
| Endpoints.DeleteListed | reference/netology_pd_diplom/backend/views.py:349-363 | the loop that accumulates query and objects_deleted deletes what the disjunction selects |
| Endpoints.TriggerImport | orders/backend/views.py:265-286 | status and queue of trigger_import |
| Store.Database.constructor | orders/backend/models.py:101-311 | an empty database |
| Store.Database.GetOrCreateShop | orders/backend/utils.py:57-60 | get_or_create by name; an owner can own one shop |
| Store.Database.GetOrCreateCategory | orders/backend/utils.py:79-82 | get_or_create by id, the name only on creation |
| Store.Database.AddLink | orders/backend/utils.py:84-85 | the many-to-many link, once |
| Store.Database.DeleteOffers | orders/backend/utils.py:89 | delete with the cascades to parameter values and order lines, confirmed orders included |
| Store.Database.GetOrCreateProduct | orders/backend/utils.py:109-112 | get_or_create by name alone |
| Store.Database.SaveOffer | orders/backend/utils.py:115-125 | update_or_create by external id and shop |
| Store.Database.GetOrCreateParameter | orders/backend/utils.py:135 | get_or_create by name |
| Store.Database.SaveValue | orders/backend/utils.py:136-140 | update_or_create by row and parameter |
| Store.Database.GetCategory | orders/backend/tasks.py:91 | get by id, DoesNotExist otherwise |
| Store.Database.RestockOffer | orders/backend/tasks.py:94-102 | update_or_create without a recommended price: updates, never creates |
| Store.Database.GetOffer | orders/backend/tasks.py:108 | get by external id and shop |
| Store.Database.FinishTask | orders/backend/tasks.py:114-118 | the flag and the three counters of the task row |
| Store.Database.GetOrCreateOwnShop | reference/netology_pd_diplom/backend/views.py:436 | get_or_create by name and owner |
| Store.Database.GetOrCreateExactCategory | reference/netology_pd_diplom/backend/views.py:438 | get_or_create by id and name |
| Store.Database.GetOrCreateExactProduct | reference/netology_pd_diplom/backend/views.py:443 | get_or_create by name and category |
| Store.Database.CreateOffer | reference/netology_pd_diplom/backend/views.py:445-451 | create with NOT NULL, CHECK and unique constraints |
| Store.Database.CreateValue | reference/netology_pd_diplom/backend/views.py:454-456 | create with its unique constraint |
| Orm.ShopKeeps | orders/backend/models.py:101-107 | creating a shop keeps names and owners unique |
| Orm.ProductKeeps | orders/backend/models.py:133-136 | creating a product keeps names unique |
| Orm.SaveOfferKeeps | orders/backend/models.py:147-163 | writing a row keeps one row per shop and external id, which is stronger than the declared constraint |
| Orm.ParameterKeeps | orders/backend/models.py:166-167 | creating a parameter keeps names unique |
| Orm.SaveValueKeeps | orders/backend/models.py:178-191 | writing a value keeps one value per row and parameter |
| Orm.ClearKeeps | orders/backend/models.py:178-184 | the cascade leaves no dangling value |

## Left out

- YAML parsing, URL validation, file and network reading: a file is an already parsed value with optional fields, and a broken file never gets that far.
- Python type errors: names are strings and ids, prices and quantities are integers, negative ones included; a string quantity in a request or a list where a mapping is expected is not modelled.
- Limits of column width: string lengths and the upper bounds of integers.
- E-mail, Celery transport, Redis and the result backend: the queue is a sequence of task ids, and a task is not delivered twice by itself.
- Login, registration, passwords, tokens, permissions and CSRF: a request carries its user's id, and `trigger_import` is taken to come from staff. User rows and the foreign keys to them are not part of this model.
- Django Admin edits other than the upload of an import task: they can break the invariants.
- HTML, templates, product search, contact lists, order history as a list, and sorting: they read the tables and change nothing.
- Parallel requests inside one get_or_create: a request is one atomic step and so is each primitive of an importer. No database constraint protects one basket per user, so that claim holds for such steps only.
- Columns that no modelled code changes: url and state of a shop, address of a contact, date of an order, upload date and stored path of a file.
- Digits and spaces outside ASCII: `Removal.IsDigits` knows '0' to '9', and the trimming of contact fields knows blanks and ASCII control spaces.
- PartnerUpdate is compared with `load_data` but is no event of the running system: it belongs to another application over another database, and it lets two products share a name.
- The reference order placement, contact deletion and basket update: a different and weaker life cycle.
- Importers.ImportRowOf: do_import's loop body is split into helper methods, which the original does not have; the order of reads and writes is the original's.
- Store.Database.SaveOffer: rows are written whole; that an update also rewrites unchanged columns cannot be observed here.
- Runs.LinesWithinStock: the condition is about the statements of the run; which files meet it is stated for one importer among requests, uploads and triggers (`StockOfRuns`), not for several importers that write the same shop's rows at once.
- Partner.PartnerRefinedByLoad: stated for files without gaps and repeated ids; `Partner.BothPublishExactly` covers every file.
- ImportLater.ImportAgainLater: asks that the shop's list be the same at the second import, not that nobody wrote to it in between.
