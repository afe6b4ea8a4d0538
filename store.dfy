/** The database as the API sees it: one object whose tables the views
    and serializers update in place. Each method performs the update the
    source performs and is specified by the function of `Operations` that
    gives the outcome and the database afterwards. A method called on a
    `Valid` store (the table constraints hold) leaves it `Valid`, and keeps
    `ApiInvariant` (what the pre-checks keep) when that held as well; the
    proofs are the `Keeps` lemmas of `Operations`, applied to the snapshot
    before the call. */
module Database {
  import opened Domain
  import opened Collections
  import opened Composition
  import opened Tables
  import opened Operations

  class Store {
    var users: map<UserId, User>
    var tags: map<TagId, Tag>
    var ingredients: map<IngredientId, Ingredient>
    var recipes: map<RecipeId, Recipe>
    var lineItems: seq<LineItem>
    var subscriptions: set<Subscription>
    var favorites: seq<Membership>
    var cart: seq<Membership>
    var nextUserId: nat
    var nextTagId: nat
    var nextIngredientId: nat
    var nextRecipeId: nat

    /** The current contents of every table. */
    function Snapshot(): Db
      reads this
    {
      Db(users, tags, ingredients, recipes, lineItems, subscriptions, favorites, cart,
         nextUserId, nextTagId, nextIngredientId, nextRecipeId)
    }

    ghost predicate Valid()
      reads this
    {
      TablesOk(Snapshot())
    }

    ghost predicate ApiInvariant()
      reads this
    {
      ApiOk(Snapshot())
    }

    constructor ()
      ensures Valid() && ApiInvariant()
      ensures Snapshot() == EmptyDb()
    {
      users, tags, ingredients, recipes := map[], map[], map[], map[];
      lineItems, subscriptions, favorites, cart := [], {}, [], [];
      nextUserId, nextTagId, nextIngredientId, nextRecipeId := 0, 0, 0, 0;
      EmptyDbOk();
    }

    method RegisterUser(u: User) returns (r: Result<UserId, StoreError>)
      modifies this
      ensures old(Valid()) ==> Valid() && (old(ApiInvariant()) ==> ApiInvariant())
      ensures var step := Operations.RegisterUser(old(Snapshot()), u);
        if step.Ok? then r == Ok(old(nextUserId)) && Snapshot() == step.value
        else r == Err(step.error) && unchanged(this)
    {
      var c := CleanUser(u);
      var errors := UserFieldErrors(users, c);
      if errors != {} {
        return Err(UserRejected(errors));
      }
      var id := nextUserId;
      users := users[id := c];
      nextUserId := id + 1;
      assert Snapshot() == Operations.RegisterUser(old(Snapshot()), u).value;
      RegisterUserKeeps(old(Snapshot()), u);
      return Ok(id);
    }

    method CreateTag(t: Tag) returns (r: Result<TagId, StoreError>)
      modifies this
      ensures old(Valid()) ==> Valid() && (old(ApiInvariant()) ==> ApiInvariant())
      ensures var step := Operations.CreateTag(old(Snapshot()), t);
        if step.Ok? then r == Ok(old(nextTagId)) && Snapshot() == step.value
        else r == Err(step.error) && unchanged(this)
    {
      var errors := TagFieldErrors(tags, t);
      if errors != {} {
        return Err(TagRejected(errors));
      }
      var id := nextTagId;
      tags := tags[id := t];
      nextTagId := id + 1;
      assert Snapshot() == Operations.CreateTag(old(Snapshot()), t).value;
      CreateTagKeeps(old(Snapshot()), t);
      return Ok(id);
    }

    method CreateIngredient(ing: Ingredient) returns (r: Result<IngredientId, StoreError>)
      modifies this
      ensures old(Valid()) ==> Valid() && (old(ApiInvariant()) ==> ApiInvariant())
      ensures var step := Operations.CreateIngredient(old(Snapshot()), ing);
        if step.Ok? then r == Ok(old(nextIngredientId)) && Snapshot() == step.value
        else r == Err(step.error) && unchanged(this)
    {
      if ing in ingredients.Values {
        return Err(DuplicateIngredient);
      }
      var id := nextIngredientId;
      ingredients := ingredients[id := ing];
      nextIngredientId := id + 1;
      assert Snapshot() == Operations.CreateIngredient(old(Snapshot()), ing).value;
      CreateIngredientKeeps(old(Snapshot()), ing);
      return Ok(id);
    }

    /** `RecipeSerializer.is_valid` on a stripped payload: the field
        checks against the current tags and ingredients, then `validate`
        with its loop over the ingredient entries. */
    method Validate(c: RecipeInput) returns (e: Option<RecipeError>)
      ensures e == CheckRecipe(c, tags.Keys, ingredients.Keys)
      ensures e == None <==> WellFormed(c, tags.Keys, ingredients.Keys)
    {
      var errors := FieldErrors(c, tags.Keys, ingredients.Keys);
      if errors != {} {
        return Some(InvalidFields(errors));
      }
      e := ValidateComposition(c);
    }

    /** `RecipeSerializer.is_valid` then `create`: the payload's name and
        text are stripped and validated, then the recipe row, its line
        items (`create_ingredients`) and its tags are inserted. */
    method CreateRecipe(author: UserId, d: RecipeInput, today: Date) returns (r: Result<RecipeId, StoreError>)
      requires author in users
      modifies this
      ensures old(Valid()) ==> Valid() && (old(ApiInvariant()) ==> ApiInvariant())
      ensures var step := Operations.CreateRecipe(old(Snapshot()), author, d, today);
        if step.Ok? then r == Ok(old(nextRecipeId)) && Snapshot() == step.value
        else r == Err(step.error) && unchanged(this)
    {
      var c := CleanInput(d);
      var e := Validate(c);
      if e.Some? {
        return Err(RecipeRejected(e.value));
      }
      var id := nextRecipeId;
      var row := Recipe(author, c.name, c.text, c.cookingTime, today, Elems(c.tags));
      ghost var next := Snapshot().(recipes := recipes[id := row], lineItems := lineItems + NewLineItems(id, c.ingredients),
                                    nextRecipeId := id + 1);
      assert Operations.CreateRecipe(Snapshot(), author, d, today) == Ok(next);
      recipes := recipes[id := row];
      nextRecipeId := id + 1;
      lineItems := lineItems + NewLineItems(id, c.ingredients);
      assert Snapshot() == next;
      CreateRecipeKeeps(old(Snapshot()), author, d, today);
      return Ok(id);
    }

    /** The recipe view's update: the recipe is looked up (404), the
        payload validated, the old line items deleted, the new ones
        inserted, and the remaining fields and the tags overwritten. */
    method UpdateRecipe(id: RecipeId, d: RecipeInput) returns (r: Result<RecipeId, StoreError>)
      modifies this
      ensures old(Valid()) ==> Valid() && (old(ApiInvariant()) ==> ApiInvariant())
      ensures var step := Operations.UpdateRecipe(old(Snapshot()), id, d);
        if step.Ok? then r == Ok(id) && Snapshot() == step.value
        else r == Err(step.error) && unchanged(this)
    {
      if id !in recipes {
        return Err(RecipeNotFound);
      }
      var c := CleanInput(d);
      var e := Validate(c);
      if e.Some? {
        return Err(RecipeRejected(e.value));
      }
      lineItems := ItemsNotOf(lineItems, {id});
      lineItems := lineItems + NewLineItems(id, c.ingredients);
      recipes := recipes[id := recipes[id].(name := c.name, text := c.text, cookingTime := c.cookingTime, tags := Elems(c.tags))];
      assert Snapshot() == Operations.UpdateRecipe(old(Snapshot()), id, d).value;
      UpdateRecipeKeeps(old(Snapshot()), id, d);
      return Ok(id);
    }

    method DeleteRecipe(id: RecipeId) returns (r: Option<StoreError>)
      modifies this
      ensures old(Valid()) ==> Valid() && (old(ApiInvariant()) ==> ApiInvariant())
      ensures var step := Operations.DeleteRecipe(old(Snapshot()), id);
        if step.Ok? then r == None && Snapshot() == step.value
        else r == Some(step.error) && unchanged(this)
    {
      if id !in recipes {
        return Some(RecipeNotFound);
      }
      recipes := recipes - {id};
      lineItems := ItemsNotOf(lineItems, {id});
      favorites := RowsNotOf(favorites, {}, {id});
      cart := RowsNotOf(cart, {}, {id});
      assert Snapshot() == Operations.DeleteRecipe(old(Snapshot()), id).value;
      DeleteRecipeKeeps(old(Snapshot()), id);
      return None;
    }

    method DeleteIngredient(ing: IngredientId) returns (r: Option<StoreError>)
      modifies this
      ensures old(Valid()) ==> Valid() && (old(ApiInvariant()) ==> ApiInvariant())
      ensures var step := Operations.DeleteIngredient(old(Snapshot()), ing);
        if step.Ok? then r == None && Snapshot() == step.value
        else r == Some(step.error) && unchanged(this)
    {
      if ing !in ingredients {
        return Some(IngredientNotFound);
      }
      ingredients := ingredients - {ing};
      lineItems := ItemsWithoutIngredient(lineItems, ing);
      assert Snapshot() == Operations.DeleteIngredient(old(Snapshot()), ing).value;
      DeleteIngredientKeeps(old(Snapshot()), ing);
      return None;
    }

    method DeleteUser(u: UserId) returns (r: Option<StoreError>)
      modifies this
      ensures old(Valid()) ==> Valid() && (old(ApiInvariant()) ==> ApiInvariant())
      ensures var step := Operations.DeleteUser(old(Snapshot()), u);
        if step.Ok? then r == None && Snapshot() == step.value
        else r == Some(step.error) && unchanged(this)
    {
      if u !in users {
        return Some(UserNotFound);
      }
      Cascade(u);
      DeleteUserKeeps(old(Snapshot()), u);
      return None;
    }

    /** The rows `user.delete()` removes through every `on_delete=CASCADE`:
        the user, their recipes with those recipes' line items, every
        subscription from or to them, and their own and their recipes'
        favourite and cart rows, as `Operations.DeleteUser` computes them. */
    method Cascade(u: UserId)
      requires u in users
      modifies this
      ensures Snapshot() == Operations.DeleteUser(old(Snapshot()), u).value
    {
      var next := Operations.DeleteUser(Snapshot(), u).value;
      users, recipes, lineItems, subscriptions, favorites, cart :=
        next.users, next.recipes, next.lineItems, next.subscriptions, next.favorites, next.cart;
    }

    /** `subscribe` with POST for the requesting `user`. */
    method Subscribe(user: UserId, author: UserId) returns (r: Option<StoreError>)
      requires user in users
      modifies this
      ensures old(Valid()) ==> Valid() && (old(ApiInvariant()) ==> ApiInvariant())
      ensures var step := Operations.Subscribe(old(Snapshot()), user, author);
        if step.Ok? then r == None && Snapshot() == step.value
        else r == Some(step.error) && unchanged(this)
    {
      if author !in users {
        return Some(UserNotFound);
      }
      if Subscription(user, author) in subscriptions {
        return Some(AlreadySubscribed);
      }
      if user == author {
        return Some(SelfSubscription);
      }
      subscriptions := subscriptions + {Subscription(user, author)};
      assert Snapshot() == Operations.Subscribe(old(Snapshot()), user, author).value;
      SubscribeKeeps(old(Snapshot()), user, author);
      return None;
    }

    /** `subscribe` with DELETE for the requesting `user`. */
    method Unsubscribe(user: UserId, author: UserId) returns (r: Option<StoreError>)
      modifies this
      ensures old(Valid()) ==> Valid() && (old(ApiInvariant()) ==> ApiInvariant())
      ensures var step := Operations.Unsubscribe(old(Snapshot()), user, author);
        if step.Ok? then r == None && Snapshot() == step.value
        else r == Some(step.error) && unchanged(this)
    {
      if author !in users {
        return Some(UserNotFound);
      }
      if Subscription(user, author) !in subscriptions {
        return Some(NotSubscribed);
      }
      subscriptions := subscriptions - {Subscription(user, author)};
      assert Snapshot() == Operations.Unsubscribe(old(Snapshot()), user, author).value;
      UnsubscribeKeeps(old(Snapshot()), user, author);
      return None;
    }

    /** `favorite` / `shopping_cart` with POST for the requesting `user`. */
    method AddMembership(kind: MembershipKind, user: UserId, recipe: RecipeId) returns (r: Option<StoreError>)
      requires user in users
      modifies this
      ensures old(Valid()) ==> Valid() && (old(ApiInvariant()) ==> ApiInvariant())
      ensures var step := Operations.AddMembership(old(Snapshot()), kind, user, recipe);
        if step.Ok? then r == None && Snapshot() == step.value
        else r == Some(step.error) && unchanged(this)
    {
      if recipe !in recipes {
        return Some(RecipeNotFound);
      }
      var m := Membership(user, recipe);
      if kind == Favorite {
        if m in favorites {
          return Some(AlreadyAdded);
        }
        favorites := favorites + [m];
      } else {
        if m in cart {
          return Some(AlreadyAdded);
        }
        cart := cart + [m];
      }
      assert Snapshot() == Operations.AddMembership(old(Snapshot()), kind, user, recipe).value;
      AddMembershipKeeps(old(Snapshot()), kind, user, recipe);
      return None;
    }

    /** `favorite` / `shopping_cart` with DELETE for the requesting `user`. */
    method RemoveMembership(kind: MembershipKind, user: UserId, recipe: RecipeId) returns (r: Option<StoreError>)
      modifies this
      ensures old(Valid()) ==> Valid() && (old(ApiInvariant()) ==> ApiInvariant())
      ensures var step := Operations.RemoveMembership(old(Snapshot()), kind, user, recipe);
        if step.Ok? then r == None && Snapshot() == step.value
        else r == Some(step.error) && unchanged(this)
    {
      if recipe !in recipes {
        return Some(RecipeNotFound);
      }
      var m := Membership(user, recipe);
      var count := if kind == Favorite then multiset(favorites)[m] else multiset(cart)[m];
      if count == 0 {
        return Some(EntryNotFound);
      }
      if count > 1 {
        return Some(MultipleEntries);
      }
      if kind == Favorite {
        favorites := RowsExcept(favorites, m);
      } else {
        cart := RowsExcept(cart, m);
      }
      assert Snapshot() == Operations.RemoveMembership(old(Snapshot()), kind, user, recipe).value;
      RemoveMembershipKeeps(old(Snapshot()), kind, user, recipe);
      return None;
    }
  }
}
