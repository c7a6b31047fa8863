/** `create`: the two existence guards, the field-by-field construction of the
    children and the root, and the writes to the store. */
module Creation {
  import opened Results
  import opened Seqs
  import opened Entities
  import opened Queries

  /** The recipe entity as `save` returns it: resolved topic and the full user record. */
  datatype SavedRecipe = SavedRecipe(id: int, title: string, description: string, cookingTime: int,
                                     difficulty: Difficulty, previewImageLink: Option<string>,
                                     topic: Topic, author: User,
                                     steps: seq<Step>, ingredients: seq<Ingredient>)

  /** New step entities, one per spec and in order, receiving identifiers from `first`. */
  function BuildSteps(specs: seq<StepSpec>, first: nat): seq<Step> {
    seq(|specs|, i requires 0 <= i < |specs| => Step(first + i, specs[i].stepName, specs[i].stepDescription))
  }

  function BuildIngredients(specs: seq<IngredientSpec>, first: nat): seq<Ingredient> {
    seq(|specs|, i requires 0 <= i < |specs| =>
      Ingredient(first + i, specs[i].ingredientName, specs[i].ingredientAmount))
  }

  /** The recipe as a later read with the full relation shape shows it. */
  function ReadBack(r: SavedRecipe): Recipe {
    Recipe(r.id, r.title, r.description, r.cookingTime, r.difficulty, r.previewImageLink,
           Some(r.topic), Some(PublicView(r.author)), r.steps, r.ingredients)
  }

  function Create(s: Store, body: RecipeBody): (out: Response<SavedRecipe>)
    // The user is looked up first: without it the outcome is that error whatever the topic.
    ensures Find(s.users, UserKey, body.userId).None? ==>
              out == Response(Err(AuthorizedUserNotFound), s)
    ensures Find(s.users, UserKey, body.userId).Some? && Find(s.topics, TopicKey, body.topicId).None? ==>
              out == Response(Err(TopicNotFound(body.topicId)), s)
    ensures out.result.Ok? <==>
              (exists u :: u in s.users && u.id == body.userId) && (exists t :: t in s.topics && t.id == body.topicId)
    ensures out.result.Ok? ==>
              var r := out.result.value;
              && r.title == body.title && r.description == body.description
              && r.cookingTime == body.cookingTime && r.difficulty == body.difficulty
              && r.previewImageLink == body.previewImageLink
              && r.author in s.users && r.author.id == body.userId
              && r.topic in s.topics && r.topic.id == body.topicId
              && |r.steps| == |body.steps| && |r.ingredients| == |body.ingredients|
              && (forall i :: 0 <= i < |r.steps| ==>
                    r.steps[i].stepName == body.steps[i].stepName
                    && r.steps[i].stepDescription == body.steps[i].stepDescription)
              && (forall i :: 0 <= i < |r.ingredients| ==>
                    r.ingredients[i].ingredientName == body.ingredients[i].ingredientName
                    && r.ingredients[i].ingredientAmount == body.ingredients[i].ingredientAmount)
    ensures out.result.Ok? ==>
              && out.store.users == s.users && out.store.topics == s.topics
              && |out.store.recipes| == |s.recipes| + 1
              && out.store.recipes[..|s.recipes|] == s.recipes
  {
    match Find(s.users, UserKey, body.userId)
    case None => Response(Err(AuthorizedUserNotFound), s)
    case Some(user) =>
      match Find(s.topics, TopicKey, body.topicId)
      case None => Response(Err(TopicNotFound(body.topicId)), s)
      case Some(topic) =>
        var id := s.nextRecipeId;
        var steps := BuildSteps(body.steps, s.children.nextStepId);
        var ingredients := BuildIngredients(body.ingredients, s.children.nextIngredientId);
        var children := Children(s.children.steps + Own(steps, id),
                                 s.children.ingredients + Own(ingredients, id),
                                 s.children.nextStepId + |steps|,
                                 s.children.nextIngredientId + |ingredients|);
        var row := RecipeRow(id, body.title, body.description, body.cookingTime, body.difficulty,
                             body.previewImageLink, body.topicId, body.userId);
        var store := Store(s.recipes + [row], s.users, s.topics, children, id + 1);
        Response(Ok(SavedRecipe(id, body.title, body.description, body.cookingTime, body.difficulty,
                                body.previewImageLink, topic, user, steps, ingredients)),
                 store)
  }

  /** A failed create writes nothing: no recipe, step or ingredient row. */
  lemma CreateFailureWritesNothing(s: Store, body: RecipeBody)
    requires Create(s, body).result.Err?
    ensures Create(s, body).store == s
    ensures |Create(s, body).store.children.steps| == |s.children.steps|
    ensures |Create(s, body).store.children.ingredients| == |s.children.ingredients|
  {
  }

  /** A successful create adds one recipe row and exactly its children, which receive
      fresh identifiers and are owned by the new recipe. */
  lemma CreateWritesAggregate(s: Store, body: RecipeBody)
    requires Create(s, body).result.Ok?
    ensures var out := Create(s, body); var r := out.result.value;
            && r.id == s.nextRecipeId
            && Find(s.users, UserKey, body.userId) == Some(r.author)
            && Find(s.topics, TopicKey, body.topicId) == Some(r.topic)
            && out.store.recipes == s.recipes + [RecipeRow(r.id, r.title, r.description, r.cookingTime,
                                                           r.difficulty, r.previewImageLink,
                                                           body.topicId, body.userId)]
            && out.store.users == s.users && out.store.topics == s.topics
            && out.store.children.steps == s.children.steps + Own(r.steps, r.id)
            && out.store.children.ingredients == s.children.ingredients + Own(r.ingredients, r.id)
            && (forall i :: 0 <= i < |r.steps| ==> r.steps[i].id >= s.children.nextStepId)
            && (forall i :: 0 <= i < |r.ingredients| ==> r.ingredients[i].id >= s.children.nextIngredientId)
  {
  }

  /** Create keeps the store well formed. */
  lemma {:induction false} CreatePreservesValid(s: Store, body: RecipeBody)
    requires Valid(s)
    ensures Valid(Create(s, body).store)
  {
    var out := Create(s, body);
    if out.result.Ok? {
      var t := out.store;
      var row := t.recipes[|s.recipes|];
      assert t.recipes == s.recipes + [row];
      forall i, j | 0 <= i < |t.recipes| && 0 <= j < |t.recipes| && t.recipes[i].id == t.recipes[j].id
        ensures i == j
      {
        if i < |s.recipes| {
          assert t.recipes[i] in s.recipes;
        }
        if j < |s.recipes| {
          assert t.recipes[j] in s.recipes;
        }
      }
      var r := out.result.value;
      forall o | o in t.children.steps ensures o.recipeId < t.nextRecipeId && o.child.id < t.children.nextStepId {
        if o !in s.children.steps {
          assert o in Own(r.steps, r.id);
        }
      }
      forall o | o in t.children.ingredients
        ensures o.recipeId < t.nextRecipeId && o.child.id < t.children.nextIngredientId
      {
        if o !in s.children.ingredients {
          assert o in Own(r.ingredients, r.id);
        }
      }
    }
  }

  /** Round trip: reading the created recipe back by id returns the saved recipe with
      the author reduced to its public projection. */
  lemma {:induction false} CreateThenGetOne(s: Store, body: RecipeBody)
    requires Valid(s) && Create(s, body).result.Ok?
    ensures var out := Create(s, body);
            GetOne(out.store, out.result.value.id) == Some(ReadBack(out.result.value))
  {
    var out := Create(s, body);
    var r := out.result.value;
    var t := out.store;
    CreateWritesAggregate(s, body);
    CreatePreservesValid(s, body);
    var row := RecipeRow(r.id, r.title, r.description, r.cookingTime, r.difficulty, r.previewImageLink,
                         body.topicId, body.userId);
    assert t.recipes == s.recipes + [row];
    assert row in t.recipes;
    GetOneIsTheRow(t, row);
    assert ChildrenOf(t.children.steps, r.id) == r.steps by {
      ChildrenOfAppend(s.children.steps, Own(r.steps, r.id), r.id);
      ChildrenOfForeign(s.children.steps, r.id);
      ChildrenOfOwn(r.steps, r.id);
    }
    assert ChildrenOf(t.children.ingredients, r.id) == r.ingredients by {
      ChildrenOfAppend(s.children.ingredients, Own(r.ingredients, r.id), r.id);
      ChildrenOfForeign(s.children.ingredients, r.id);
      ChildrenOfOwn(r.ingredients, r.id);
    }
    assert Load(t, row) == ReadBack(r);
  }
}
