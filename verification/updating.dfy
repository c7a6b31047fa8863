/** `update`: the NotFound guard, the child reconciliation it precedes, and the
    partial update of the six scalar fields. */
module Updating {
  import opened Results
  import opened Seqs
  import opened Entities
  import opened Queries

  /** The ingredient and step reconcilers, whose code is not part of this model: each
      receives the loaded recipe, the desired children and the child tables, and
      returns the child tables it leaves behind. */
  type IngredientReconciler = (Recipe, seq<IngredientSpec>, Children) -> Children
  type StepReconciler = (Recipe, seq<StepSpec>, Children) -> Children

  /** The partial update `{ title, description, topic: { id }, cookingTime, difficulty,
      previewImageLink }` applied to one row. */
  function Patch(row: RecipeRow, body: RecipeBody): RecipeRow {
    row.(title := body.title, description := body.description, topicId := body.topicId,
         cookingTime := body.cookingTime, difficulty := body.difficulty,
         previewImageLink := body.previewImageLink)
  }

  function Update(s: Store, id: int, body: RecipeBody,
                  reconcileIngredients: IngredientReconciler, reconcileSteps: StepReconciler): (out: Response<()>)
    ensures out.result.Ok? <==> exists row :: row in s.recipes && row.id == id
    ensures out.result.Err? ==> out.result.error == RecipeNotFound && out.store == s
    ensures out.result.Ok? ==>
              var loaded := GetOne(s, id).value;
              out.store.children == reconcileSteps(loaded, body.steps,
                                                   reconcileIngredients(loaded, body.ingredients, s.children))
    ensures out.store.users == s.users && out.store.topics == s.topics
    ensures out.store.nextRecipeId == s.nextRecipeId
    ensures |out.store.recipes| == |s.recipes|
    ensures forall i :: 0 <= i < |s.recipes| && s.recipes[i].id != id ==> out.store.recipes[i] == s.recipes[i]
    ensures forall i :: 0 <= i < |s.recipes| && s.recipes[i].id == id ==>
              var before, after := s.recipes[i], out.store.recipes[i];
              && after.id == before.id && after.authorId == before.authorId
              && after.title == body.title && after.description == body.description
              && after.topicId == body.topicId && after.cookingTime == body.cookingTime
              && after.difficulty == body.difficulty && after.previewImageLink == body.previewImageLink
  {
    match GetOne(s, id)
    case None => Response(Err(RecipeNotFound), s)
    case Some(loaded) =>
      var children := reconcileIngredients(loaded, body.ingredients, s.children);
      var children' := reconcileSteps(loaded, body.steps, children);
      var recipes := seq(|s.recipes|, i requires 0 <= i < |s.recipes| =>
        if s.recipes[i].id == id then Patch(s.recipes[i], body) else s.recipes[i]);
      Response(Ok(()), s.(recipes := recipes, children := children'))
  }

  /** Update keeps every recipe key, so unique recipe keys stay unique. */
  lemma UpdateKeepsIds(s: Store, id: int, body: RecipeBody,
                       ri: IngredientReconciler, rs: StepReconciler)
    requires Valid(s)
    ensures var t := Update(s, id, body, ri, rs).store;
            UniqueIds(t.recipes) && forall r :: r in t.recipes ==> r.id < t.nextRecipeId
  {
    var t := Update(s, id, body, ri, rs).store;
    assert forall i :: 0 <= i < |t.recipes| ==> t.recipes[i].id == s.recipes[i].id;
    forall r | r in t.recipes ensures r.id < t.nextRecipeId {
      var i :| 0 <= i < |t.recipes| && t.recipes[i] == r;
      assert s.recipes[i] in s.recipes;
    }
  }

  /** Reading the recipe back after a successful update shows the six patched fields,
      the unchanged author, the topic row the new key resolves to (or none: the key
      is not checked), and whatever children the reconcilers left. */
  lemma {:induction false} UpdateThenGetOne(s: Store, id: int, body: RecipeBody,
                                            ri: IngredientReconciler, rs: StepReconciler)
    requires Valid(s) && exists row :: row in s.recipes && row.id == id
    ensures var t := Update(s, id, body, ri, rs).store;
            var before := GetOne(s, id).value;
            var after := GetOne(t, id);
            && after.Some?
            && after.value.id == id
            && after.value.title == body.title && after.value.description == body.description
            && after.value.cookingTime == body.cookingTime && after.value.difficulty == body.difficulty
            && after.value.previewImageLink == body.previewImageLink
            && after.value.topic == Find(s.topics, TopicKey, body.topicId)
            && after.value.author == before.author
            && after.value.steps == ChildrenOf(t.children.steps, id)
            && after.value.ingredients == ChildrenOf(t.children.ingredients, id)
  {
    var t := Update(s, id, body, ri, rs).store;
    var row :| row in s.recipes && row.id == id;
    var i :| 0 <= i < |s.recipes| && s.recipes[i] == row;
    GetOneIsTheRow(s, row);
    UpdateKeepsIds(s, id, body, ri, rs);
    var row' := t.recipes[i];
    assert row' == Patch(row, body);
    assert row' in t.recipes;
    GetOneIsTheRow(t, row');
    var after := Load(t, row');
    assert after.topic == Find(s.topics, TopicKey, body.topicId);
    assert after.author == Load(s, row).author;
  }

  /** Updating a missing recipe fails without running either reconciler: the store is
      the same whatever reconcilers are supplied. */
  lemma NotFoundSkipsReconciliation(s: Store, id: int, body: RecipeBody,
                                    ri1: IngredientReconciler, rs1: StepReconciler,
                                    ri2: IngredientReconciler, rs2: StepReconciler)
    requires forall row :: row in s.recipes ==> row.id != id
    ensures Update(s, id, body, ri1, rs1) == Update(s, id, body, ri2, rs2) == Response(Err(RecipeNotFound), s)
  {
  }
}
