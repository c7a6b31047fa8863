/** The entities of the recipe catalogue, the in-memory store standing in for the
    database tables, and the two relation-loading shapes the service reads with. */
module Entities {
  import opened Results
  import opened Seqs

  datatype Difficulty = Easy | Medium | Hard

  /** The enum's stored value, as compared by the listing's `difficulty` filter. */
  function DifficultyName(d: Difficulty): string {
    match d
    case Easy => "EASY"
    case Medium => "MEDIUM"
    case Hard => "HARD"
  }

  datatype User = User(id: int, username: string, firstName: string, lastName: string,
                       email: string, role: string)

  /** The public projection of a user embedded as a recipe's author. */
  datatype Author = Author(id: int, username: string, firstName: string, lastName: string)

  datatype Topic = Topic(id: int, name: string)

  datatype Step = Step(id: int, stepName: string, stepDescription: string)

  datatype Ingredient = Ingredient(id: int, ingredientName: string, ingredientAmount: string)

  /** A child row of the steps or ingredients table with its owning recipe's id. */
  datatype Owned<C> = Owned(child: C, recipeId: int)

  /** A row of the recipes table: scalar columns plus the topic and author keys. */
  datatype RecipeRow = RecipeRow(id: int, title: string, description: string, cookingTime: int,
                                 difficulty: Difficulty, previewImageLink: Option<string>,
                                 topicId: int, authorId: int)

  /** The owned-children tables and the next identifiers their inserts receive. */
  datatype Children = Children(steps: seq<Owned<Step>>, ingredients: seq<Owned<Ingredient>>,
                               nextStepId: nat, nextIngredientId: nat)

  datatype Store = Store(recipes: seq<RecipeRow>, users: seq<User>, topics: seq<Topic>,
                         children: Children, nextRecipeId: nat)

  /** A recipe as read with the full relation shape: steps, ingredients, topic and the
      author's public projection. A relation whose row is missing reads as None. */
  datatype Recipe = Recipe(id: int, title: string, description: string, cookingTime: int,
                           difficulty: Difficulty, previewImageLink: Option<string>,
                           topic: Option<Topic>, author: Option<Author>,
                           steps: seq<Step>, ingredients: seq<Ingredient>)

  /** A recipe as read by the query builder: recipe columns and the author projection. */
  datatype RecipeSummary = RecipeSummary(id: int, title: string, description: string,
                                         cookingTime: int, difficulty: Difficulty,
                                         previewImageLink: Option<string>, author: Option<Author>)

  /** Request body of create and update. */
  datatype StepSpec = StepSpec(stepName: string, stepDescription: string)
  datatype IngredientSpec = IngredientSpec(ingredientName: string, ingredientAmount: string)
  datatype RecipeBody = RecipeBody(title: string, description: string, cookingTime: int,
                                   difficulty: Difficulty, previewImageLink: Option<string>,
                                   topicId: int, userId: int,
                                   steps: seq<StepSpec>, ingredients: seq<IngredientSpec>)

  datatype ServiceError =
    | AuthorizedUserNotFound   // a plain Error, not an API error
    | TopicNotFound(topicId: int)   // ApiError.BadRequest
    | RecipeNotFound   // ApiError.NotFound

  /** An operation's outcome together with the store it leaves behind. */
  datatype Response<T> = Response(result: Result<T, ServiceError>, store: Store)

  function UserKey(u: User): int { u.id }
  function TopicKey(t: Topic): int { t.id }
  function RowKey(r: RecipeRow): int { r.id }

  function PublicView(u: User): Author {
    Author(u.id, u.username, u.firstName, u.lastName)
  }

  /** The children owned by recipe `owner`, in table order. */
  function ChildrenOf<C>(rows: seq<Owned<C>>, owner: int): (cs: seq<C>)
    ensures |cs| <= |rows|
    ensures forall c :: c in cs ==> exists o :: o in rows && o.recipeId == owner && o.child == c
  {
    if |rows| == 0 then []
    else (if rows[0].recipeId == owner then [rows[0].child] else []) + ChildrenOf(rows[1..], owner)
  }

  /** `cs` written as rows owned by `owner`. */
  function Own<C>(cs: seq<C>, owner: int): (rows: seq<Owned<C>>)
    ensures |rows| == |cs|
    ensures forall i :: 0 <= i < |rows| ==> rows[i].child == cs[i] && rows[i].recipeId == owner
  {
    seq(|cs|, i requires 0 <= i < |cs| => Owned(cs[i], owner))
  }

  lemma {:induction false} ChildrenOfAppend<C>(a: seq<Owned<C>>, b: seq<Owned<C>>, owner: int)
    ensures ChildrenOf(a + b, owner) == ChildrenOf(a, owner) + ChildrenOf(b, owner)
  {
    if |a| > 0 {
      assert (a + b)[1..] == a[1..] + b;
      ChildrenOfAppend(a[1..], b, owner);
    } else {
      assert a + b == b;
    }
  }

  lemma {:induction false} ChildrenOfOwn<C>(cs: seq<C>, owner: int)
    ensures ChildrenOf(Own(cs, owner), owner) == cs
  {
    if |cs| > 0 {
      assert Own(cs, owner)[1..] == Own(cs[1..], owner);
      ChildrenOfOwn(cs[1..], owner);
    }
  }

  lemma {:induction false} ChildrenOfForeign<C>(rows: seq<Owned<C>>, owner: int)
    requires forall o :: o in rows ==> o.recipeId != owner
    ensures ChildrenOf(rows, owner) == []
  {
    if |rows| > 0 {
      assert rows[0] in rows;
      ChildrenOfForeign(rows[1..], owner);
    }
  }

  /** No two recipe rows share a primary key. */
  predicate UniqueIds(rows: seq<RecipeRow>) {
    forall i, j :: 0 <= i < |rows| && 0 <= j < |rows| && rows[i].id == rows[j].id ==> i == j
  }

  lemma IdsDetermineRows(rows: seq<RecipeRow>, a: RecipeRow, b: RecipeRow)
    requires UniqueIds(rows) && a in rows && b in rows && a.id == b.id
    ensures a == b
  {
    var i :| 0 <= i < |rows| && rows[i] == a;
    var j :| 0 <= j < |rows| && rows[j] == b;
  }

  lemma UniqueIdsDistinct(rows: seq<RecipeRow>)
    requires UniqueIds(rows)
    ensures Distinct(rows)
  {
  }

  /** Well-formed store: recipe keys unique and below the next identifier handed out,
      and every child row owned by a recipe id already handed out. */
  predicate Valid(s: Store) {
    && UniqueIds(s.recipes)
    && (forall r :: r in s.recipes ==> r.id < s.nextRecipeId)
    && (forall o :: o in s.children.steps ==> o.recipeId < s.nextRecipeId && o.child.id < s.children.nextStepId)
    && (forall o :: o in s.children.ingredients ==>
          o.recipeId < s.nextRecipeId && o.child.id < s.children.nextIngredientId)
  }

  /** The full relation shape every `find` with the shared find options reads. */
  function Load(s: Store, row: RecipeRow): (r: Recipe)
    ensures r.id == row.id && r.title == row.title && r.description == row.description
    ensures r.cookingTime == row.cookingTime && r.difficulty == row.difficulty
    ensures r.previewImageLink == row.previewImageLink
    ensures r.topic.Some? <==> exists t :: t in s.topics && t.id == row.topicId
    ensures r.topic.Some? ==> r.topic.value in s.topics && r.topic.value.id == row.topicId
    ensures r.author.Some? <==> exists u :: u in s.users && u.id == row.authorId
    ensures r.author.Some? ==> exists u :: u in s.users && u.id == row.authorId && r.author.value == PublicView(u)
    ensures r.steps == ChildrenOf(s.children.steps, row.id)
    ensures r.ingredients == ChildrenOf(s.children.ingredients, row.id)
  {
    var author := match Find(s.users, UserKey, row.authorId)
      case Some(u) => Some(PublicView(u))
      case None => None;
    Recipe(row.id, row.title, row.description, row.cookingTime, row.difficulty, row.previewImageLink,
           Find(s.topics, TopicKey, row.topicId), author,
           ChildrenOf(s.children.steps, row.id), ChildrenOf(s.children.ingredients, row.id))
  }

  /** The query builder's shape: recipe columns and the author's public projection. */
  function Summarize(s: Store, row: RecipeRow): (r: RecipeSummary)
    ensures r.id == row.id && r.title == row.title && r.description == row.description
    ensures r.cookingTime == row.cookingTime && r.difficulty == row.difficulty
    ensures r.previewImageLink == row.previewImageLink
    ensures r.author.Some? <==> exists u :: u in s.users && u.id == row.authorId
    ensures r.author.Some? ==> exists u :: u in s.users && u.id == row.authorId && r.author.value == PublicView(u)
  {
    var author := match Find(s.users, UserKey, row.authorId)
      case Some(u) => Some(PublicView(u))
      case None => None;
    RecipeSummary(row.id, row.title, row.description, row.cookingTime, row.difficulty,
                  row.previewImageLink, author)
  }
}
