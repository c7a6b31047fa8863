# Recipe service model

A Dafny model of the recipe catalogue's `RecipeService`
(`server/src/services/recipe-service.ts`): creating a recipe together with its
steps and ingredients, updating its scalar fields, the filtered and paginated
listing, single-recipe lookup, and the fixed-size selections (newest, today's
random selection, featured per difficulty).

The database is replaced by an immutable in-memory `Store` (module `Entities`):
a table of recipe rows (scalar columns plus the topic and author keys), the user
and topic tables, the step and ingredient tables (each row carries the id of its
owning recipe) and the next identifier each table hands out. Writes are pure
functions returning a `Response`: the `Result` the service returns or the error
it throws, paired with the store it leaves behind. The relation-loading shapes
are functions too: `Entities.Load` is the shared find options (steps,
ingredients, topic, and the author's public projection), and
`Entities.Summarize` is the query builder's shape (recipe columns and the author
projection only).

Modules: `Results` (Option, Result), `Seqs` (lookup, filter, paging,
distinctness), `Text` (substring search), `Entities` (data model, store, read
shapes), `Queries` (`getOne`, `get`), `Selections` (`getNewest`,
`getTodaySelection`, `getFeatured`), `Creation` (`create`), `Updating` (`update`).

Points of the code the model keeps as written:
- `create` returns the saved entity with the full user record as author, not a
  re-read with the public projection (`Creation.SavedRecipe`).
- The listing's author filter sits only in the title clause of the `where`
  (see Findings).
- Search is a `LIKE` whose case sensitivity depends on the database collation;
  the model uses exact substring containment rather than a case-insensitive one.
- Create and update issue independent writes with no transaction.

## Model

| member | source | states |
|---|---|---|
| Creation.Create | server/src/services/recipe-service.ts:38-88 | a missing user gives "Authorized user was not found" whatever the topic and writes nothing; a missing topic gives BadRequest and writes nothing; success iff both exist; the result copies title, description, cookingTime, difficulty and previewImageLink, holds the resolved user and topic, and its steps and ingredients copy the specs' fields in order |
| Creation.CreateFailureWritesNothing | server/src/services/recipe-service.ts:39-51 | a failed create leaves every table unchanged, so no step or ingredient row is orphaned |
| Creation.CreateWritesAggregate | server/src/services/recipe-service.ts:53-86 | a successful create appends exactly one recipe row (with the body's topic and user keys) and exactly its children, owned by the new id, with fresh identifiers |
| Creation.CreatePreservesValid | server/src/services/recipe-service.ts:79-86 | create keeps recipe keys unique and every child owned by an already issued recipe id |
| Creation.CreateThenGetOne | server/src/services/recipe-service.ts:68-86 | reading the new recipe back by id returns the saved recipe with the author reduced to its public projection and the same steps and ingredients |
| Entities.Load | server/src/services/recipe-service.ts:18-35 | the full read shape keeps every scalar column, resolves the topic and author keys (the author only as id, username, first and last name) and lists exactly the owned steps and ingredients |
| Entities.Summarize | server/src/services/recipe-service.ts:168-182 | the query-builder shape keeps the scalar columns and the author's public projection and nothing else |
| Seqs.Find | server/src/services/recipe-service.ts:39-41 | a lookup by id returns a row with that id, and returns nothing iff no row has it |
| Seqs.Page | server/src/services/recipe-service.ts:152-153 | skip/take: at most take elements, the ones from position skip onward; empty past the end |
| Queries.Matching | server/src/services/recipe-service.ts:139-151 | a stored recipe is selected iff it satisfies the title clause or the description clause |
| Queries.Get | server/src/services/recipe-service.ts:136-158 | total is the size of the whole table whatever the filters; at most limit recipes, each a stored recipe satisfying a clause, namely the matches from position limit*(page-1) onward |
| Queries.GetPageSize | server/src/services/recipe-service.ts:152-155 | the page holds min(limit, matches - skip) recipes, and none when skip is past the matches |
| Queries.GetSelectsExactlyMatches | server/src/services/recipe-service.ts:139-155 | on a first page large enough, a stored recipe is returned iff it satisfies one of the two clauses |
| Queries.NoSearchIgnoresAuthor | server/src/services/recipe-service.ts:141-150 | with no search text, matching reduces to the topic and difficulty filters: the author filter has no effect |
| Queries.AuthorFilterCounterexample | server/src/services/recipe-service.ts:144-149 | asking for user 1's recipes returns a recipe of user 2 |
| Queries.GetIntended | server/src/services/recipe-service.ts:139-151 | the corrected listing returns only recipes of the requested author; element i of the page is the (skip+i)-th row satisfying the corrected rule |
| Queries.GetIntendedSelectsExactly | server/src/services/recipe-service.ts:139-155 | on a first page large enough, the corrected listing returns a stored recipe iff it satisfies the corrected rule |
| Queries.IntendedAgreesWithoutAuthor | server/src/services/recipe-service.ts:139-151 | without an author filter the corrected rule and the code's rule select the same recipes |
| Queries.GetOne | server/src/services/recipe-service.ts:160-166 | returns a recipe iff a row with that id exists, read with the full shape; otherwise null, never an error |
| Queries.GetOneIsTheRow | server/src/services/recipe-service.ts:160-166 | with unique keys, getOne returns exactly the row with that id |
| Text.ContainsIffOccurs | server/src/services/recipe-service.ts:143 | the substring test holds iff the search text occurs at some position |
| Selections.TopByIdDesc | server/src/services/recipe-service.ts:100-104 | min(k, n) stored rows with strictly decreasing ids, every row left out having a smaller id than each chosen one |
| Selections.GetNewest | server/src/services/recipe-service.ts:99-107 | min(3, n) stored recipes, newest first by strictly decreasing id, and no stored recipe left out has a larger id |
| Selections.Sample | server/src/services/recipe-service.ts:92-93 | random order then take k: min(k, pool size) distinct elements of the pool, which ones left open |
| Selections.GetTodaySelection | server/src/services/recipe-service.ts:90-97 | min(5, n) stored recipes with distinct ids |
| Selections.WithDifficulty | server/src/services/recipe-service.ts:111 | the rows selected by the difficulty condition are exactly the stored rows of that difficulty |
| Selections.Bucket | server/src/services/recipe-service.ts:110-114 | min(3, recipes of that difficulty) distinct stored recipes, all of that difficulty |
| Selections.GetFeatured | server/src/services/recipe-service.ts:109-134 | easy, medium and hard each hold min(3, count of that difficulty) distinct stored recipes of that difficulty |
| Updating.Update | server/src/services/recipe-service.ts:184-212 | succeeds iff a recipe with that id exists, without checking the topic; a missing id gives NotFound with the store unchanged; on success the reconcilers run on the loaded recipe (ingredients, then steps), the matched row gets the six body fields with id and author untouched, and every other row is unchanged |
| Updating.UpdateKeepsIds | server/src/services/recipe-service.ts:206-209 | the partial update keeps recipe keys unique and below the next recipe id |
| Updating.UpdateThenGetOne | server/src/services/recipe-service.ts:197-209 | reading back after update shows the six new fields, the same author, and the topic the new key resolves to, possibly none |
| Updating.NotFoundSkipsReconciliation | server/src/services/recipe-service.ts:185-195 | on a missing id the outcome does not depend on the reconcilers: neither runs |

## Left out

- Child reconciliation on update (`ingredientsServices.updateRecipe`, `stepsServices.updateRecipe`): that code is not part of this model; the reconcilers are function parameters whose results become the child tables.
- `StepsServices.create` / `IngredientsServices.create`: their code is not part of this model; each child is modelled as a row appended with the table's next identifier and owned by the new recipe once the root is saved.
- Transactions and storage failures: a failure between the child writes and the root save (which would leave orphan rows in the code) is not modelled; every write succeeds.
- Database foreign keys: update stores a topic key the service never checks; whether the database would reject it is not modelled.
- The randomness of `ORDER BY RAND()` and the concurrency of `Promise.all`: selections are arbitrary choices and the three buckets independent calls.
- `LIKE` collation and wildcards: a `%` or `_` inside the search text acts as a wildcard in the database; the model treats it literally.
- Storage order: unordered reads are in table (insertion) order.
- Queries.Get: requires page ≥ 1 and limit ≥ 1, an assumption of the model; with page 0 or a missing limit the code hands a negative or NaN skip to the ORM, and with limit 0 a take of 0, which the ORM may read as no limit at all; none of that handling is modelled.
- Queries.Matching: the difficulty filter is an SQL equality evaluated under the database collation (case-insensitive by default, so `easy` selects EASY recipes); the model compares the enum name exactly.
- Updating.Update: returns only success instead of the ORM's raw update result.
- Selections.GetNewest, Selections.GetTodaySelection, Selections.GetFeatured: require unique recipe keys, which the database's primary key guarantees.
- Updating.Update: both reconcilers receive the same loaded recipe value; in the code they share one mutable `recipe` object, so an in-place change the ingredient reconciler makes to it would be visible to the step reconciler. That is not modelled.
- Relation contents of the query-builder reads (`getRecipesWithQuery`): steps and ingredients are joined but not selected (with swapped aliases) and topic is not joined, so summaries carry neither.
- Request bodies always carry numeric `userId` and `topicId`; how the ORM treats a lookup whose key is absent is not modelled.
- Field validation (non-empty names, positive cooking time) and the difficulty enum check of request bodies belong to the request layer, which is not part of this model.
- `server/src/router/user-routes.ts`, `server/src/router/index.ts`, `server/index.js`: request validation wiring, routing and process bootstrap.

## Findings

| source | as written | input that shows it | evidently intended | confidence | as-written member | corrected member |
|---|---|---|---|---|---|---|
| server/src/services/recipe-service.ts:139-151 | the author filter is only in the title clause; the description clause has none, and with no search text it matches every description | userId 1, no search, a single recipe authored by user 2: the listing returns it | the author filter constrains both clauses | medium; not executed | Queries.AuthorFilterCounterexample | Queries.GetIntended |
