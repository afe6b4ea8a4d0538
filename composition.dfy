/** Validation of a recipe payload (`RecipeSerializer` and the nested
    `AddIngredientSerializer` of `api/serializers.py`) and the line items
    that `create_ingredients` builds from an accepted payload.

    Validation runs in two stages, as in the serializer. First every field
    is checked on its own; the checks come from the model fields
    (`PrimaryKeyRelatedField` lookups, the min/max validators of
    `cooking_time` and `amount`, `validate_name_recipe`) and from
    `AddIngredientSerializer.validate`. All failing fields are reported
    together. Only when no field fails does `RecipeSerializer.validate`
    run, and it stops at the first of its checks that fails. */
module Composition {
  import opened Domain
  import opened Collections
  import opened Validators
  import opened Fields

  /** One entry of the `ingredients` list: `{"id": ..., "amount": ...}`. */
  datatype IngredientInput = IngredientInput(id: IngredientId, amount: int)

  /** The writable fields of a recipe payload (the image is not modelled). */
  datatype RecipeInput = RecipeInput(
    ingredients: seq<IngredientInput>,
    tags: seq<TagId>,
    name: string,
    text: string,
    cookingTime: int)

  /** The payload as the serializer's `CharField`s hand it on: name and
      text with surrounding whitespace stripped, the rest as received. */
  function CleanInput(d: RecipeInput): (c: RecipeInput)
    ensures c.ingredients == d.ingredients && c.tags == d.tags && c.cookingTime == d.cookingTime
    ensures c.name == Trim(d.name) && c.text == Trim(d.text)
  {
    d.(name := Trim(d.name), text := Trim(d.text))
  }

  datatype Field = IngredientsField | TagsField | NameField | CookingTimeField

  datatype RecipeError =
    | InvalidFields(fields: set<Field>)
    | NoTags
    | DuplicateTags
    | DuplicateIngredients
    | NonPositiveCookingTime

  function IngredientIds(ins: seq<IngredientInput>): (ids: seq<IngredientId>)
    ensures |ids| == |ins|
    ensures forall k | 0 <= k < |ins| :: ids[k] == ins[k].id
  {
    seq(|ins|, k requires 0 <= k < |ins| => ins[k].id)
  }

  /** `AddIngredientSerializer.validate`: an amount below 1 is refused. */
  predicate AmountAccepted(amount: int) {
    !(amount < 1)
  }

  /** One `ingredients` entry passes its field checks: the id names an
      existing ingredient, the amount lies within the bounds of the model
      field, and the serializer's own amount check passes. */
  predicate EntryAccepted(e: IngredientInput, ingredientIds: set<IngredientId>) {
    && e.id in ingredientIds
    && MinAmount <= e.amount <= MaxAmount
    && AmountAccepted(e.amount)
  }

  /** The fields of `d` that fail their own checks. */
  function FieldErrors(d: RecipeInput, tagIds: set<TagId>, ingredientIds: set<IngredientId>): set<Field> {
    (if exists k | 0 <= k < |d.ingredients| :: !EntryAccepted(d.ingredients[k], ingredientIds)
     then {IngredientsField} else {})
    + (if exists k | 0 <= k < |d.tags| :: d.tags[k] !in tagIds then {TagsField} else {})
    + (if !ValidRecipeName(d.name) then {NameField} else {})
    + (if !(MinCookingTime <= d.cookingTime <= MaxCookingTime) then {CookingTimeField} else {})
  }

  /** What `RecipeSerializer.validate` decides, check by check in its order:
      the tag list is non-empty, its length equals the size of its set, no
      ingredient id repeats, and the cooking time is positive. */
  function CompositionError(d: RecipeInput): (r: Option<RecipeError>)
    ensures r == None <==>
      |d.tags| > 0 && Distinct(d.tags) && Distinct(IngredientIds(d.ingredients)) && d.cookingTime > 0
    ensures r == Some(NoTags) <==> |d.tags| == 0
    ensures r == Some(DuplicateTags) <==> |d.tags| > 0 && !Distinct(d.tags)
    ensures r == Some(DuplicateIngredients) <==>
      |d.tags| > 0 && Distinct(d.tags) && !Distinct(IngredientIds(d.ingredients))
    ensures r == Some(NonPositiveCookingTime) <==>
      |d.tags| > 0 && Distinct(d.tags) && Distinct(IngredientIds(d.ingredients)) && d.cookingTime <= 0
  {
    DistinctIffElemsSize(d.tags);
    if |d.tags| == 0 then Some(NoTags)
    else if |d.tags| != |Elems(d.tags)| then Some(DuplicateTags)
    else if !Distinct(IngredientIds(d.ingredients)) then Some(DuplicateIngredients)
    else if d.cookingTime <= 0 then Some(NonPositiveCookingTime)
    else None
  }

  /** `RecipeSerializer.validate` as written: the ingredient ids are
      collected one by one into `ingredients_list`, and an id already in
      the list is a repeat. */
  method ValidateComposition(d: RecipeInput) returns (r: Option<RecipeError>)
    ensures r == CompositionError(d)
  {
    if |d.tags| == 0 {
      return Some(NoTags);
    }
    var tagSet := Elems(d.tags);
    if |d.tags| != |tagSet| {
      DistinctIffElemsSize(d.tags);
      return Some(DuplicateTags);
    }
    DistinctIffElemsSize(d.tags);
    ghost var ids := IngredientIds(d.ingredients);
    var seen: seq<IngredientId> := [];
    var i := 0;
    while i < |d.ingredients|
      invariant 0 <= i <= |d.ingredients|
      invariant seen == ids[..i]
      invariant Distinct(seen)
    {
      var id := d.ingredients[i].id;
      if id in seen {
        var k :| 0 <= k < i && seen[k] == id;
        assert ids[k] == ids[i];
        return Some(DuplicateIngredients);
      }
      seen := seen + [id];
      i := i + 1;
    }
    assert ids == ids[..i];
    if d.cookingTime <= 0 {
      return Some(NonPositiveCookingTime);
    }
    return None;
  }

  /** A payload the store can take as it is: every invariant the recipe
      and line-item tables keep holds of it. */
  predicate WellFormed(d: RecipeInput, tagIds: set<TagId>, ingredientIds: set<IngredientId>) {
    && |d.tags| > 0
    && Distinct(d.tags)
    && (forall k | 0 <= k < |d.tags| :: d.tags[k] in tagIds)
    && Distinct(IngredientIds(d.ingredients))
    && (forall k | 0 <= k < |d.ingredients| ::
          d.ingredients[k].id in ingredientIds && MinAmount <= d.ingredients[k].amount <= MaxAmount)
    && ValidRecipeName(d.name)
    && MinCookingTime <= d.cookingTime <= MaxCookingTime
  }

  /** The whole validation of a payload: field checks, then `validate`. */
  function CheckRecipe(d: RecipeInput, tagIds: set<TagId>, ingredientIds: set<IngredientId>): (r: Option<RecipeError>)
    ensures r == None <==> WellFormed(d, tagIds, ingredientIds)
    ensures r.Some? && r.value.InvalidFields? ==> r.value.fields != {}
    ensures r == Some(NoTags) <==> FieldErrors(d, tagIds, ingredientIds) == {} && |d.tags| == 0
  {
    var errors := FieldErrors(d, tagIds, ingredientIds);
    if errors != {} then Some(InvalidFields(errors)) else CompositionError(d)
  }

  /** An empty ingredient list passes validation: nothing in the serializer
      asks for at least one ingredient. */
  lemma EmptyIngredientListAccepted(d: RecipeInput, tagIds: set<TagId>, ingredientIds: set<IngredientId>)
    requires d.ingredients == []
    requires |d.tags| > 0 && Distinct(d.tags) && forall k | 0 <= k < |d.tags| :: d.tags[k] in tagIds
    requires ValidRecipeName(d.name) && MinCookingTime <= d.cookingTime <= MaxCookingTime
    ensures CheckRecipe(d, tagIds, ingredientIds) == None
  {
  }

  /** The rows `create_ingredients` inserts for `recipe`: one per entry,
      with that entry's ingredient and amount, in the payload's order. */
  function NewLineItems(recipe: RecipeId, ins: seq<IngredientInput>): (items: seq<LineItem>)
    ensures |items| == |ins|
    ensures forall k | 0 <= k < |ins| :: items[k] == LineItem(ins[k].id, recipe, ins[k].amount)
  {
    seq(|ins|, k requires 0 <= k < |ins| => LineItem(ins[k].id, recipe, ins[k].amount))
  }
}
