/** Single-recipe lookup and the filtered, paginated listing. */
module Queries {
  import opened Results
  import opened Seqs
  import opened Text
  import opened Entities

  /** Query parameters of the listing. Absent fields are None; the service treats a
      falsy value (0 or "") like an absent one. */
  datatype RecipesParams = RecipesParams(topicId: Option<int>, difficulty: Option<string>,
                                         search: Option<string>, userId: Option<int>,
                                         page: int, limit: int)

  datatype ListResult = ListResult(recipes: seq<Recipe>, total: nat)

  /** `value || undefined` keeps a constraint only for a truthy value. */
  predicate GivenId(v: Option<int>) { v.Some? && v.value != 0 }
  predicate GivenText(v: Option<string>) { v.Some? && v.value != "" }

  /** `params.search || ""`. */
  function SearchText(p: RecipesParams): string {
    if GivenText(p.search) then p.search.value else ""
  }

  /** The topic and difficulty constraints both clauses share. */
  predicate SharedFilters(p: RecipesParams, row: RecipeRow) {
    && (GivenId(p.topicId) ==> row.topicId == p.topicId.value)
    && (GivenText(p.difficulty) ==> DifficultyName(row.difficulty) == p.difficulty.value)
  }

  predicate AuthorFilter(p: RecipesParams, row: RecipeRow) {
    GivenId(p.userId) ==> row.authorId == p.userId.value
  }

  /** First clause of the `where`: title search, restricted to the author. */
  predicate TitleClause(p: RecipesParams, row: RecipeRow) {
    SharedFilters(p, row) && Contains(row.title, SearchText(p)) && AuthorFilter(p, row)
  }

  /** Second clause of the `where`: description search, with no author constraint. */
  predicate DescriptionClause(p: RecipesParams, row: RecipeRow) {
    SharedFilters(p, row) && Contains(row.description, SearchText(p))
  }

  predicate Matches(p: RecipesParams, row: RecipeRow) {
    TitleClause(p, row) || DescriptionClause(p, row)
  }

  /** The rows the `where` selects, in storage order. */
  function Matching(rows: seq<RecipeRow>, p: RecipesParams): (m: seq<RecipeRow>)
    ensures forall row :: row in m ==> row in rows && Matches(p, row)
    ensures forall row :: row in rows && Matches(p, row) ==> row in m
  {
    Filter(rows, row => Matches(p, row))
  }

  function Skip(p: RecipesParams): nat
    requires p.page >= 1 && p.limit >= 1
  {
    p.limit * (p.page - 1)
  }

  /** `get`: one page of the matching recipes plus the size of the whole table. */
  function Get(s: Store, p: RecipesParams): (r: ListResult)
    requires p.page >= 1 && p.limit >= 1
    ensures r.total == |s.recipes|
    ensures |r.recipes| <= p.limit
    ensures forall v :: v in r.recipes ==> exists row :: row in s.recipes && Matches(p, row) && v == Load(s, row)
    ensures forall i :: 0 <= i < |r.recipes| ==>
              Skip(p) + i < |Matching(s.recipes, p)| && r.recipes[i] == Load(s, Matching(s.recipes, p)[Skip(p) + i])
  {
    var m := Matching(s.recipes, p);
    var page := Page(m, Skip(p), p.limit);
    var recipes := seq(|page|, i requires 0 <= i < |page| => Load(s, page[i]));
    assert forall i :: 0 <= i < |page| ==> page[i] in m && recipes[i] == Load(s, page[i]);
    ListResult(recipes, |s.recipes|)
  }

  /** `getOne`: the recipe with that id with its full relation shape, or null. */
  function GetOne(s: Store, id: int): (r: Option<Recipe>)
    ensures r.Some? <==> exists row :: row in s.recipes && row.id == id
    ensures r.Some? ==> r.value.id == id && exists row :: row in s.recipes && row.id == id && r.value == Load(s, row)
  {
    match Find(s.recipes, RowKey, id)
    case Some(row) => Some(Load(s, row))
    case None => None
  }

  /** In a well-formed store the recipe `getOne` returns is the one row with that id. */
  lemma GetOneIsTheRow(s: Store, row: RecipeRow)
    requires UniqueIds(s.recipes) && row in s.recipes
    ensures GetOne(s, row.id) == Some(Load(s, row))
  {
    var other :| other in s.recipes && other.id == row.id && GetOne(s, row.id).value == Load(s, other);
    IdsDetermineRows(s.recipes, other, row);
  }

  /** The page holds exactly the matches from position skip onward, at most limit of them;
      a page past the end is empty. */
  lemma GetPageSize(s: Store, p: RecipesParams)
    requires p.page >= 1 && p.limit >= 1
    ensures var n := |Matching(s.recipes, p)|;
            |Get(s, p).recipes| == if Skip(p) >= n then 0
                                   else if p.limit < n - Skip(p) then p.limit else n - Skip(p)
  {
  }

  /** The first page, when it is large enough, holds a stored recipe iff the recipe
      satisfies one of the two clauses. */
  lemma {:induction false} GetSelectsExactlyMatches(s: Store, p: RecipesParams, row: RecipeRow)
    requires UniqueIds(s.recipes) && row in s.recipes
    requires p.page == 1 && p.limit >= |s.recipes|
    ensures Load(s, row) in Get(s, p).recipes <==> TitleClause(p, row) || DescriptionClause(p, row)
  {
    var m := Matching(s.recipes, p);
    var r := Get(s, p);
    if Matches(p, row) {
      assert row in m;
      var k :| 0 <= k < |m| && m[k] == row;
      assert r.recipes[k] == Load(s, row);
    }
    if Load(s, row) in r.recipes {
      var other :| other in s.recipes && Matches(p, other) && Load(s, row) == Load(s, other);
      IdsDetermineRows(s.recipes, other, row);
    }
  }

  /** With no search text the author filter has no effect: the description clause
      matches every recipe that passes the topic and difficulty filters. */
  lemma NoSearchIgnoresAuthor(p: RecipesParams, row: RecipeRow)
    requires !GivenText(p.search)
    ensures Matches(p, row) <==> SharedFilters(p, row)
  {
    EmptyNeedleMatches(row.description);
  }

  /** A concrete listing: asking for user 1's recipes returns user 2's recipe. */
  lemma AuthorFilterCounterexample()
    ensures var row := RecipeRow(1, "Soup", "Hot", 10, Easy, None, 1, 2);
            var users := [User(1, "ann", "Ann", "Lee", "ann@example.org", "user"),
                          User(2, "bob", "Bob", "Ray", "bob@example.org", "user")];
            var s := Store([row], users, [Topic(1, "Soups")], Children([], [], 0, 0), 2);
            var p := RecipesParams(None, None, None, Some(1), 1, 10);
            Get(s, p).recipes == [Load(s, row)] && row.authorId != p.userId.value
  {
    var row := RecipeRow(1, "Soup", "Hot", 10, Easy, None, 1, 2);
    var users := [User(1, "ann", "Ann", "Lee", "ann@example.org", "user"),
                  User(2, "bob", "Bob", "Ray", "bob@example.org", "user")];
    var s := Store([row], users, [Topic(1, "Soups")], Children([], [], 0, 0), 2);
    var p := RecipesParams(None, None, None, Some(1), 1, 10);
    NoSearchIgnoresAuthor(p, row);
    assert Matching(s.recipes, p) == [row];
  }

  /** The evidently intended rule: topic, difficulty and author constraints, and the
      search text in the title or the description. */
  predicate IntendedMatches(p: RecipesParams, row: RecipeRow) {
    && SharedFilters(p, row)
    && AuthorFilter(p, row)
    && (Contains(row.title, SearchText(p)) || Contains(row.description, SearchText(p)))
  }

  function IntendedMatching(rows: seq<RecipeRow>, p: RecipesParams): (m: seq<RecipeRow>)
    ensures forall row :: row in m ==> row in rows && IntendedMatches(p, row)
    ensures forall row :: row in rows && IntendedMatches(p, row) ==> row in m
  {
    Filter(rows, row => IntendedMatches(p, row))
  }

  /** `get` with the author constraint applied to both search clauses. */
  function GetIntended(s: Store, p: RecipesParams): (r: ListResult)
    requires p.page >= 1 && p.limit >= 1
    ensures r.total == |s.recipes|
    ensures |r.recipes| <= p.limit
    ensures forall v :: v in r.recipes ==>
              exists row :: row in s.recipes && IntendedMatches(p, row) && v == Load(s, row)
    ensures GivenId(p.userId) ==> forall v :: v in r.recipes ==>
              exists row :: row in s.recipes && row.authorId == p.userId.value && v == Load(s, row)
    ensures forall i :: 0 <= i < |r.recipes| ==>
              Skip(p) + i < |IntendedMatching(s.recipes, p)|
              && r.recipes[i] == Load(s, IntendedMatching(s.recipes, p)[Skip(p) + i])
  {
    var m := IntendedMatching(s.recipes, p);
    var page := Page(m, Skip(p), p.limit);
    var recipes := seq(|page|, i requires 0 <= i < |page| => Load(s, page[i]));
    assert forall i :: 0 <= i < |page| ==> page[i] in m && recipes[i] == Load(s, page[i]);
    ListResult(recipes, |s.recipes|)
  }

  /** The corrected listing's first page, when it is large enough, holds a stored
      recipe iff the recipe satisfies the corrected rule. */
  lemma {:induction false} GetIntendedSelectsExactly(s: Store, p: RecipesParams, row: RecipeRow)
    requires UniqueIds(s.recipes) && row in s.recipes
    requires p.page == 1 && p.limit >= |s.recipes|
    ensures Load(s, row) in GetIntended(s, p).recipes <==> IntendedMatches(p, row)
  {
    var m := IntendedMatching(s.recipes, p);
    var r := GetIntended(s, p);
    if IntendedMatches(p, row) {
      assert row in m;
      var k :| 0 <= k < |m| && m[k] == row;
      assert r.recipes[k] == Load(s, row);
    }
    if Load(s, row) in r.recipes {
      var other :| other in s.recipes && IntendedMatches(p, other) && Load(s, row) == Load(s, other);
      IdsDetermineRows(s.recipes, other, row);
    }
  }

  /** Without an author filter the intended rule and the code's rule coincide. */
  lemma IntendedAgreesWithoutAuthor(p: RecipesParams, row: RecipeRow)
    requires !GivenId(p.userId)
    ensures IntendedMatches(p, row) <==> Matches(p, row)
  {
  }
}
