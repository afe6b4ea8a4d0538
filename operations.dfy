/** Every write the API makes to the database, as a function from the
    database before to the outcome: the refusal, or the database after.
    Each operation has a lemma saying that it keeps every table constraint
    (`TablesOk`) and every pre-check invariant (`ApiOk`), and what it does
    to the rows the source promises to touch and to the rest. */
module Operations {
  import opened Domain
  import opened Collections
  import opened Validators
  import opened Composition
  import opened Tables
  import opened Queries
  import opened ShoppingList
  import opened Fields

  datatype UserField = EmailField | UsernameField
  datatype TagField = TagNameField | SlugField

  /** The ways an operation is refused. */
  datatype StoreError =
    | UserNotFound
    | RecipeNotFound
    | IngredientNotFound
    | UserRejected(userFields: set<UserField>)
    | TagRejected(tagFields: set<TagField>)
    | DuplicateIngredient
    | RecipeRejected(reason: RecipeError)
    | AlreadySubscribed
    | SelfSubscription
    | NotSubscribed
    | AlreadyAdded
    | EntryNotFound
    | MultipleEntries

  // ----- users, tags, ingredients -----

  /** The fields of `u` a users table refuses: a taken email, and a
      username that fails `validate_username` or is taken. */
  function UserFieldErrors(users: map<UserId, User>, u: User): (errors: set<UserField>)
    ensures EmailField in errors <==> exists v | v in users :: users[v].email == u.email
    ensures UsernameField in errors <==>
      !ValidUsername(u.username) || exists v | v in users :: users[v].username == u.username
  {
    (if exists v | v in users :: users[v].email == u.email then {EmailField} else {})
    + (if !ValidUsername(u.username) || exists v | v in users :: users[v].username == u.username
       then {UsernameField} else {})
  }

  /** The sign-up payload as `SignUpSerializer`'s `CharField`s hand it
      on: every field with surrounding whitespace stripped. */
  function CleanUser(u: User): User {
    User(Trim(u.email), Trim(u.username), Trim(u.firstName), Trim(u.lastName))
  }

  /** Signing up: the stripped payload is checked and inserted as a row. */
  function RegisterUser(db: Db, u: User): (r: Result<Db, StoreError>)
  {
    var c := CleanUser(u);
    var errors := UserFieldErrors(db.users, c);
    if errors != {} then Err(UserRejected(errors))
    else Ok(db.(users := db.users[db.nextUserId := c], nextUserId := db.nextUserId + 1))
  }

  /** A user is added exactly when no field of the stripped payload fails;
      the added user is the stripped payload under a fresh id, and the
      constraints keep holding. */
  lemma RegisterUserKeeps(db: Db, u: User)
    ensures var r := RegisterUser(db, u);
      && (r.Ok? <==> UserFieldErrors(db.users, CleanUser(u)) == {})
      && (TablesOk(db) && r.Ok? ==>
            && TablesOk(r.value) && (ApiOk(db) ==> ApiOk(r.value))
            && db.nextUserId !in db.users
            && r.value.users == db.users[db.nextUserId := CleanUser(u)])
  {
    if TablesOk(db) {
      var r := RegisterUser(db, u);
      if r.Ok? {
        var db' := r.value;
        RecipesOkFrame(db.recipes, db.users, db'.users, db.tags, db.tags, db.nextRecipeId, db.nextRecipeId);
        MembershipsOkFrame(db.favorites, db.users, db'.users, db.recipes, db.recipes);
        MembershipsOkFrame(db.cart, db.users, db'.users, db.recipes, db.recipes);
      }
    }
  }

  /** Surrounding whitespace in a sign-up payload makes no difference:
      signing up with the payload stripped gives the same outcome. */
  lemma RegisterUserIgnoresPadding(db: Db, u: User)
    ensures RegisterUser(db, u) == RegisterUser(db, CleanUser(u))
  {
    TrimIdempotent(u.email);
    TrimIdempotent(u.username);
    TrimIdempotent(u.firstName);
    TrimIdempotent(u.lastName);
  }

  /** A username padded with whitespace signs up exactly as the bare
      username does: `" bob\n"` is registered, or refused, as `"bob"`. */
  lemma PaddedUsernameSameOutcome(db: Db, u: User, p: string, q: string)
    requires forall i | 0 <= i < |p| :: IsSpace(p[i])
    requires forall i | 0 <= i < |q| :: IsSpace(q[i])
    requires u.username != [] && !IsSpace(u.username[0]) && !IsSpace(u.username[|u.username| - 1])
    ensures RegisterUser(db, u.(username := p + u.username + q)) == RegisterUser(db, u)
  {
    TrimPadding(p, u.username, q);
    TrimClean(u.username);
  }

  /** The fields of `t` a tags table refuses: a taken name, and a slug
      that fails `validate_tag_slug` or is taken. */
  function TagFieldErrors(tags: map<TagId, Tag>, t: Tag): (errors: set<TagField>)
    ensures TagNameField in errors <==> exists v | v in tags :: tags[v].name == t.name
    ensures SlugField in errors <==> !ValidSlug(t.slug) || exists v | v in tags :: tags[v].slug == t.slug
  {
    (if exists v | v in tags :: tags[v].name == t.name then {TagNameField} else {})
    + (if !ValidSlug(t.slug) || exists v | v in tags :: tags[v].slug == t.slug then {SlugField} else {})
  }

  /** Inserting a tag row. */
  function CreateTag(db: Db, t: Tag): (r: Result<Db, StoreError>)
  {
    var errors := TagFieldErrors(db.tags, t);
    if errors != {} then Err(TagRejected(errors))
    else Ok(db.(tags := db.tags[db.nextTagId := t], nextTagId := db.nextTagId + 1))
  }

  lemma CreateTagKeeps(db: Db, t: Tag)
    ensures var r := CreateTag(db, t);
      && (r.Ok? <==> TagFieldErrors(db.tags, t) == {})
      && (TablesOk(db) && r.Ok? ==>
            && TablesOk(r.value) && (ApiOk(db) ==> ApiOk(r.value))
            && db.nextTagId !in db.tags
            && r.value.tags == db.tags[db.nextTagId := t])
  {
    if TablesOk(db) {
      var r := CreateTag(db, t);
      if r.Ok? {
        RecipesOkFrame(db.recipes, db.users, db.users, db.tags, r.value.tags, db.nextRecipeId, db.nextRecipeId);
      }
    }
  }

  /** Inserting an ingredient row; (name, measurement unit) must be new. */
  function CreateIngredient(db: Db, ing: Ingredient): (r: Result<Db, StoreError>)
  {
    if ing in db.ingredients.Values then Err(DuplicateIngredient)
    else Ok(db.(ingredients := db.ingredients[db.nextIngredientId := ing], nextIngredientId := db.nextIngredientId + 1))
  }

  lemma CreateIngredientKeeps(db: Db, ing: Ingredient)
    ensures var r := CreateIngredient(db, ing);
      && (r.Ok? <==> forall i | i in db.ingredients :: db.ingredients[i] != ing)
      && (TablesOk(db) && r.Ok? ==>
            && TablesOk(r.value) && (ApiOk(db) ==> ApiOk(r.value))
            && db.nextIngredientId !in db.ingredients
            && r.value.ingredients == db.ingredients[db.nextIngredientId := ing])
  {
    if TablesOk(db) {
      var r := CreateIngredient(db, ing);
      if r.Ok? {
        LineItemsOkFrame(db.lineItems, db.recipes, db.recipes, db.ingredients, r.value.ingredients);
      } else {
        var i :| i in db.ingredients && db.ingredients[i] == ing;
      }
    }
  }

  // ----- recipes -----

  /** `RecipeSerializer.create`: a validated payload, name and text
      stripped, becomes a recipe of `author` published `today`, with the
      payload's tag set, plus one line item per ingredient entry. */
  function CreateRecipe(db: Db, author: UserId, d: RecipeInput, today: Date): (r: Result<Db, StoreError>)
    ensures r.Err? <==> !WellFormed(CleanInput(d), db.tags.Keys, db.ingredients.Keys)
  {
    var c := CleanInput(d);
    match CheckRecipe(c, db.tags.Keys, db.ingredients.Keys)
    case Some(e) => Err(RecipeRejected(e))
    case None =>
      var id := db.nextRecipeId;
      Ok(db.(recipes := db.recipes[id := Recipe(author, c.name, c.text, c.cookingTime, today, Elems(c.tags))],
             lineItems := db.lineItems + NewLineItems(id, c.ingredients),
             nextRecipeId := id + 1))
  }

  /** Surrounding whitespace in a recipe's name or text makes no
      difference: creating from the stripped payload gives the same outcome. */
  lemma CreateRecipeIgnoresPadding(db: Db, author: UserId, d: RecipeInput, today: Date)
    ensures CreateRecipe(db, author, d, today) == CreateRecipe(db, author, CleanInput(d), today)
  {
    TrimIdempotent(d.name);
    TrimIdempotent(d.text);
  }

  /** The line items `create_ingredients` inserts for a new recipe repeat
      no pair when the payload repeats no ingredient. */
  lemma NewLineItemsUnique(recipe: RecipeId, ins: seq<IngredientInput>)
    requires Distinct(IngredientIds(ins))
    ensures UniquePairs(NewLineItems(recipe, ins))
    ensures ItemsOf(NewLineItems(recipe, ins), recipe) == NewLineItems(recipe, ins)
  {
    var items := NewLineItems(recipe, ins);
    var ids := IngredientIds(ins);
    forall i, j | 0 <= i < |items| && 0 <= j < |items| && i != j ensures PairKey(items[i]) != PairKey(items[j]) {
      assert ids[i] != ids[j];
    }
    ItemsOfAllOrNone(items, recipe);
  }

  /** A created recipe has a fresh id, the requesting user as author,
      exactly the payload's line items and tag set, and leaves the line
      items of every other recipe as they were. */
  lemma CreateRecipeMeaning(db: Db, author: UserId, d: RecipeInput, today: Date)
    requires TablesOk(db)
    ensures var r := CreateRecipe(db, author, d, today);
      var id := db.nextRecipeId;
      r.Ok? ==>
        && id !in db.recipes
        && r.value.recipes.Keys == db.recipes.Keys + {id}
        && r.value.recipes[id] == Recipe(author, Trim(d.name), Trim(d.text), d.cookingTime, today, Elems(d.tags))
        && ItemsOf(r.value.lineItems, id) == NewLineItems(id, d.ingredients)
        && (forall q | q != id :: ItemsOf(r.value.lineItems, q) == ItemsOf(db.lineItems, q))
  {
    var r := CreateRecipe(db, author, d, today);
    var id := db.nextRecipeId;
    if r.Ok? {
      AppendItemsOf(db.lineItems, NewLineItems(id, d.ingredients), id);
    }
  }

  lemma CreateRecipeKeeps(db: Db, author: UserId, d: RecipeInput, today: Date)
    requires author in db.users
    ensures var r := CreateRecipe(db, author, d, today);
      TablesOk(db) && r.Ok? ==> TablesOk(r.value) && (ApiOk(db) ==> ApiOk(r.value))
  {
    if TablesOk(db) {
      var r := CreateRecipe(db, author, d, today);
      if r.Ok? {
        var id := db.nextRecipeId;
        var db' := r.value;
        NewLineItemsUnique(id, d.ingredients);
        UniquePairsAppend(db.lineItems, NewLineItems(id, d.ingredients));
        LineItemsOkFrame(db.lineItems, db.recipes, db'.recipes, db.ingredients, db.ingredients);
        MembershipsOkFrame(db.favorites, db.users, db.users, db.recipes, db'.recipes);
        MembershipsOkFrame(db.cart, db.users, db.users, db.recipes, db'.recipes);
        assert Elems(d.tags) <= db.tags.Keys;
      }
    }
  }

  /** `RecipeSerializer.update` of recipe `id`, after the view has looked
      the recipe up: every old line item of the recipe is deleted, the new
      list inserted, and name, text, cooking time and tags overwritten. */
  function UpdateRecipe(db: Db, id: RecipeId, d: RecipeInput): (r: Result<Db, StoreError>)
    ensures r.Err? <==> id !in db.recipes || !WellFormed(CleanInput(d), db.tags.Keys, db.ingredients.Keys)
    ensures id !in db.recipes ==> r == Err(RecipeNotFound)
  {
    var c := CleanInput(d);
    if id !in db.recipes then Err(RecipeNotFound)
    else match CheckRecipe(c, db.tags.Keys, db.ingredients.Keys)
      case Some(e) => Err(RecipeRejected(e))
      case None =>
        Ok(db.(recipes := db.recipes[id := db.recipes[id].(name := c.name, text := c.text,
                                                             cookingTime := c.cookingTime, tags := Elems(c.tags))],
               lineItems := ItemsNotOf(db.lineItems, {id}) + NewLineItems(id, c.ingredients)))
  }

  /** An update is a full replace: the recipe's line items are exactly
      the new list, every other recipe keeps its line items, and author and
      publication date stay. */
  lemma UpdateRecipeMeaning(db: Db, id: RecipeId, d: RecipeInput)
    ensures var r := UpdateRecipe(db, id, d);
      r.Ok? ==>
        && ItemsOf(r.value.lineItems, id) == NewLineItems(id, d.ingredients)
        && (forall q | q != id :: ItemsOf(r.value.lineItems, q) == ItemsOf(db.lineItems, q))
        && r.value.recipes.Keys == db.recipes.Keys
        && r.value.recipes[id].author == db.recipes[id].author
        && r.value.recipes[id].pubDate == db.recipes[id].pubDate
        && r.value.recipes[id].name == Trim(d.name)
        && r.value.recipes[id].text == Trim(d.text)
        && r.value.recipes[id].cookingTime == d.cookingTime
        && r.value.recipes[id].tags == Elems(d.tags)
        && (forall q | q in db.recipes && q != id :: r.value.recipes[q] == db.recipes[q])
  {
    var r := UpdateRecipe(db, id, d);
    if r.Ok? {
      var kept := ItemsNotOf(db.lineItems, {id});
      AppendItemsOf(kept, NewLineItems(id, d.ingredients), id);
      forall q | q != id ensures ItemsOf(kept, q) == ItemsOf(db.lineItems, q) {
        ItemsNotOfKeepsOthers(db.lineItems, {id}, q);
      }
    }
  }

  /** The line items an update leaves behind fit the recipes table. */
  lemma UpdateRecipeItemsOk(db: Db, id: RecipeId, d: RecipeInput, recipes: map<RecipeId, Recipe>)
    requires TablesOk(db) && id in db.recipes && recipes.Keys == db.recipes.Keys
    requires WellFormed(d, db.tags.Keys, db.ingredients.Keys)
    ensures LineItemsOk(ItemsNotOf(db.lineItems, {id}) + NewLineItems(id, d.ingredients), recipes, db.ingredients)
  {
    var kept := ItemsNotOf(db.lineItems, {id});
    var added := NewLineItems(id, d.ingredients);
    NewLineItemsUnique(id, d.ingredients);
    UniquePairsAppend(kept, added);
    forall li: LineItem | li in kept + added
      ensures li.recipe in recipes && li.ingredient in db.ingredients && MinAmount <= li.amount <= MaxAmount
    {
      if li !in kept {
        var k :| 0 <= k < |added| && added[k] == li;
      }
    }
  }

  lemma UpdateRecipeKeeps(db: Db, id: RecipeId, d: RecipeInput)
    ensures var r := UpdateRecipe(db, id, d);
      TablesOk(db) && r.Ok? ==> TablesOk(r.value) && (ApiOk(db) ==> ApiOk(r.value))
  {
    if TablesOk(db) {
      var r := UpdateRecipe(db, id, d);
      if r.Ok? {
        var c := CleanInput(d);
        var recipes := db.recipes[id := db.recipes[id].(name := c.name, text := c.text,
                                                         cookingTime := c.cookingTime, tags := Elems(c.tags))];
        assert Elems(c.tags) <= db.tags.Keys;
        UpdateRecipeItemsOk(db, id, c, recipes);
        TablesOkReplaceRecipes(db, recipes, ItemsNotOf(db.lineItems, {id}) + NewLineItems(id, d.ingredients));
      }
    }
  }

  /** Deleting recipe `id` (`on_delete=CASCADE` takes its line items, its
      favourite rows and its cart rows with it). */
  function DeleteRecipe(db: Db, id: RecipeId): (r: Result<Db, StoreError>)
    ensures r.Err? <==> id !in db.recipes
  {
    if id !in db.recipes then Err(RecipeNotFound)
    else Ok(db.(recipes := db.recipes - {id},
                lineItems := ItemsNotOf(db.lineItems, {id}),
                favorites := RowsNotOf(db.favorites, {}, {id}),
                cart := RowsNotOf(db.cart, {}, {id})))
  }

  /** After deleting a recipe nothing refers to it and everything else
      stays. */
  lemma DeleteRecipeMeaning(db: Db, id: RecipeId)
    ensures var r := DeleteRecipe(db, id);
      r.Ok? ==>
        && r.value.recipes.Keys == db.recipes.Keys - {id}
        && (forall li :: li in r.value.lineItems <==> li in db.lineItems && li.recipe != id)
        && (forall m :: m in r.value.favorites <==> m in db.favorites && m.recipe != id)
        && (forall m :: m in r.value.cart <==> m in db.cart && m.recipe != id)
  {
  }

  /** Deleting a recipe keeps every constraint. */
  lemma DeleteRecipeKeeps(db: Db, id: RecipeId)
    ensures var r := DeleteRecipe(db, id);
      TablesOk(db) && r.Ok? ==> TablesOk(r.value) && (ApiOk(db) ==> ApiOk(r.value))
  {
    if TablesOk(db) {
      if id in db.recipes {
        RecipesOkRemove(db.recipes, db.users, db.tags, db.nextRecipeId, {id}, {});
        LineItemsOkRemoveRecipes(db.lineItems, db.recipes, db.ingredients, {id});
        MembershipsOkRemove(db.favorites, db.users, db.recipes, {}, {id});
        MembershipsOkRemove(db.cart, db.users, db.recipes, {}, {id});
        assert db.users - {} == db.users;
      }
    }
  }

  /** Deleting ingredient `ing` together with the line items using it. */
  function DeleteIngredient(db: Db, ing: IngredientId): (r: Result<Db, StoreError>)
    ensures r.Err? <==> ing !in db.ingredients
  {
    if ing !in db.ingredients then Err(IngredientNotFound)
    else Ok(db.(ingredients := db.ingredients - {ing}, lineItems := ItemsWithoutIngredient(db.lineItems, ing)))
  }

  /** Deleting an ingredient takes exactly the line items that use it. */
  lemma DeleteIngredientMeaning(db: Db, ing: IngredientId)
    ensures var r := DeleteIngredient(db, ing);
      r.Ok? ==>
        && r.value.ingredients.Keys == db.ingredients.Keys - {ing}
        && (forall li :: li in r.value.lineItems <==> li in db.lineItems && li.ingredient != ing)
  {
  }

  lemma DeleteIngredientKeeps(db: Db, ing: IngredientId)
    ensures var r := DeleteIngredient(db, ing);
      TablesOk(db) && r.Ok? ==> TablesOk(r.value) && (ApiOk(db) ==> ApiOk(r.value))
  {
    if TablesOk(db) {
      if ing in db.ingredients {
        LineItemsOkRemoveIngredient(db.lineItems, db.recipes, db.ingredients, ing);
      }
    }
  }

  /** Deleting user `u`: their recipes go and, with them, those recipes'
      line items, favourite rows and cart rows; so do the user's own
      favourite and cart rows and every subscription from or to them. */
  function DeleteUser(db: Db, u: UserId): (r: Result<Db, StoreError>)
    ensures r.Err? <==> u !in db.users
  {
    if u !in db.users then Err(UserNotFound)
    else
      var gone := AuthoredBy(db.recipes, u);
      Ok(db.(users := db.users - {u},
             recipes := db.recipes - gone,
             lineItems := ItemsNotOf(db.lineItems, gone),
             subscriptions := SubscriptionsNotOf(db.subscriptions, u),
             favorites := RowsNotOf(db.favorites, {u}, gone),
             cart := RowsNotOf(db.cart, {u}, gone)))
  }

  /** Deleting a user takes their recipes and every subscription from or
      to them; the remaining line items, favourites and cart rows point at
      surviving users and recipes only. */
  lemma DeleteUserMeaning(db: Db, u: UserId)
    requires TablesOk(db)
    ensures var r := DeleteUser(db, u);
      r.Ok? ==>
        && r.value.users.Keys == db.users.Keys - {u}
        && (forall s :: s in r.value.subscriptions <==> s in db.subscriptions && s.user != u && s.author != u)
        && (forall q :: q in r.value.recipes <==> q in db.recipes && db.recipes[q].author != u)
        && (forall li :: li in r.value.lineItems <==> li in db.lineItems && li.recipe in r.value.recipes)
        && (forall m :: m in r.value.favorites <==> m in db.favorites && m.user != u && m.recipe in r.value.recipes)
        && (forall m :: m in r.value.cart <==> m in db.cart && m.user != u && m.recipe in r.value.recipes)
  {
  }

  lemma DeleteUserKeeps(db: Db, u: UserId)
    ensures var r := DeleteUser(db, u);
      TablesOk(db) && r.Ok? ==> TablesOk(r.value) && (ApiOk(db) ==> ApiOk(r.value))
  {
    if TablesOk(db) {
      if u in db.users {
        var gone := AuthoredBy(db.recipes, u);
        RecipesOkRemove(db.recipes, db.users, db.tags, db.nextRecipeId, gone, {u});
        LineItemsOkRemoveRecipes(db.lineItems, db.recipes, db.ingredients, gone);
        MembershipsOkRemove(db.favorites, db.users, db.recipes, {u}, gone);
        MembershipsOkRemove(db.cart, db.users, db.recipes, {u}, gone);
      }
    }
  }

  // ----- subscriptions -----

  /** `subscribe` with POST: the author must exist (404); the
      unique-together validator then refuses an existing subscription, and
      only after it does `validate` refuse following oneself. */
  function Subscribe(db: Db, user: UserId, author: UserId): (r: Result<Db, StoreError>)
    ensures author !in db.users ==> r == Err(UserNotFound)
    ensures author in db.users && author in Following(db.subscriptions, user) ==> r == Err(AlreadySubscribed)
    ensures author in db.users && author !in Following(db.subscriptions, user) && user == author ==>
      r == Err(SelfSubscription)
    ensures r.Ok? <==> author in db.users && author !in Following(db.subscriptions, user) && user != author
    ensures r.Ok? ==> Following(r.value.subscriptions, user) == Following(db.subscriptions, user) + {author}
    ensures r.Ok? ==> forall w | w != user :: Following(r.value.subscriptions, w) == Following(db.subscriptions, w)
  {
    if author !in db.users then Err(UserNotFound)
    else if Subscription(user, author) in db.subscriptions then Err(AlreadySubscribed)
    else if user == author then Err(SelfSubscription)
    else Ok(db.(subscriptions := db.subscriptions + {Subscription(user, author)}))
  }

  lemma SubscribeKeeps(db: Db, user: UserId, author: UserId)
    requires user in db.users
    ensures var r := Subscribe(db, user, author);
      TablesOk(db) && r.Ok? ==> TablesOk(r.value) && (ApiOk(db) ==> ApiOk(r.value))
  {

  }

  /** `subscribe` with DELETE: the author must exist (404) and the
      subscription must exist (400); only that subscription goes. */
  function Unsubscribe(db: Db, user: UserId, author: UserId): (r: Result<Db, StoreError>)
    ensures author !in db.users ==> r == Err(UserNotFound)
    ensures author in db.users && author !in Following(db.subscriptions, user) ==> r == Err(NotSubscribed)
    ensures r.Ok? <==> author in db.users && author in Following(db.subscriptions, user)
    ensures r.Ok? ==> Following(r.value.subscriptions, user) == Following(db.subscriptions, user) - {author}
    ensures r.Ok? ==> forall w | w != user :: Following(r.value.subscriptions, w) == Following(db.subscriptions, w)
  {
    if author !in db.users then Err(UserNotFound)
    else if Subscription(user, author) !in db.subscriptions then Err(NotSubscribed)
    else Ok(db.(subscriptions := db.subscriptions - {Subscription(user, author)}))
  }

  lemma UnsubscribeKeeps(db: Db, user: UserId, author: UserId)
    ensures var r := Unsubscribe(db, user, author);
      TablesOk(db) && r.Ok? ==> TablesOk(r.value) && (ApiOk(db) ==> ApiOk(r.value))
  {

  }

  /** Unsubscribing right after subscribing succeeds and gives back the
      database as it was. */
  lemma SubscribeThenUnsubscribe(db: Db, user: UserId, author: UserId)
    requires Subscribe(db, user, author).Ok?
    ensures Unsubscribe(Subscribe(db, user, author).value, user, author) == Ok(db)
  {
    var db1 := Subscribe(db, user, author).value;
    assert Subscription(user, author) !in db.subscriptions;
    assert db1.subscriptions - {Subscription(user, author)} == db.subscriptions;
  }

  // ----- favourites and the shopping cart -----

  /** `method_for_post_action` with `FavoriteSerializer` or
      `ShoppingCartSerializer`: the recipe must exist (a field error of the
      serializer), and the serializer refuses a row that already exists;
      otherwise one row is added. */
  function AddMembership(db: Db, kind: MembershipKind, user: UserId, recipe: RecipeId): (r: Result<Db, StoreError>)
    ensures recipe !in db.recipes ==> r == Err(RecipeNotFound)
    ensures recipe in db.recipes && Membership(user, recipe) in Rows(db, kind) ==> r == Err(AlreadyAdded)
    ensures r.Ok? <==> recipe in db.recipes && Membership(user, recipe) !in Rows(db, kind)
    ensures r.Ok? ==> multiset(Rows(r.value, kind)) == multiset(Rows(db, kind)) + multiset{Membership(user, recipe)}
    ensures r.Ok? ==> Rows(r.value, OtherKind(kind)) == Rows(db, OtherKind(kind))
  {
    var m := Membership(user, recipe);
    if recipe !in db.recipes then Err(RecipeNotFound)
    else if m in Rows(db, kind) then Err(AlreadyAdded)
    else Ok(WithRows(db, kind, Rows(db, kind) + [m]))
  }

  lemma AddMembershipKeeps(db: Db, kind: MembershipKind, user: UserId, recipe: RecipeId)
    requires user in db.users
    ensures var r := AddMembership(db, kind, user, recipe);
      TablesOk(db) && r.Ok? ==> TablesOk(r.value) && (ApiOk(db) ==> ApiOk(r.value))
  {
    if TablesOk(db) {
      var r := AddMembership(db, kind, user, recipe);
      if r.Ok? {
        var m := Membership(user, recipe);
        assert r.value.(favorites := db.favorites, cart := db.cart) == db;
        if Distinct(Rows(db, kind)) {
          DistinctSnoc(Rows(db, kind), m);
        }
      }
    }
  }

  /** `method_for_delete_action`: the recipe must exist (404), then the
      row for (user, recipe) is fetched with `get`, which fails when there
      is none (404) and when there are several; the one row is deleted. */
  function RemoveMembership(db: Db, kind: MembershipKind, user: UserId, recipe: RecipeId): (r: Result<Db, StoreError>)
    ensures recipe !in db.recipes ==> r == Err(RecipeNotFound)
    ensures recipe in db.recipes && Membership(user, recipe) !in Rows(db, kind) ==> r == Err(EntryNotFound)
    ensures recipe in db.recipes && multiset(Rows(db, kind))[Membership(user, recipe)] > 1 ==> r == Err(MultipleEntries)
    ensures r.Ok? <==> recipe in db.recipes && multiset(Rows(db, kind))[Membership(user, recipe)] == 1
    ensures r.Ok? ==> multiset(Rows(r.value, kind)) == multiset(Rows(db, kind)) - multiset{Membership(user, recipe)}
    ensures r.Ok? ==> Rows(r.value, OtherKind(kind)) == Rows(db, OtherKind(kind))
  {
    var m := Membership(user, recipe);
    if recipe !in db.recipes then Err(RecipeNotFound)
    else
      var n := multiset(Rows(db, kind))[m];
      if n == 0 then Err(EntryNotFound)
      else if n > 1 then Err(MultipleEntries)
      else Ok(WithRows(db, kind, RowsExcept(Rows(db, kind), m)))
  }

  lemma RemoveMembershipKeeps(db: Db, kind: MembershipKind, user: UserId, recipe: RecipeId)
    ensures var r := RemoveMembership(db, kind, user, recipe);
      TablesOk(db) && r.Ok? ==> TablesOk(r.value) && (ApiOk(db) ==> ApiOk(r.value))
  {
    if TablesOk(db) {
      var r := RemoveMembership(db, kind, user, recipe);
      if r.Ok? {
        assert r.value.(favorites := db.favorites, cart := db.cart) == db;
      }
    }
  }

  /** While the pre-checks have kept the rows unique, removing a row never
      meets the several-rows failure of `get`. */
  lemma NoMultipleEntries(db: Db, kind: MembershipKind, user: UserId, recipe: RecipeId)
    requires ApiOk(db)
    ensures RemoveMembership(db, kind, user, recipe) != Err(MultipleEntries)
  {
    DistinctMultiplicity(Rows(db, kind), Membership(user, recipe));
  }

  /** Removing a row right after adding it succeeds and gives back the
      rows as they were. */
  lemma AddThenRemove(db: Db, kind: MembershipKind, user: UserId, recipe: RecipeId)
    requires AddMembership(db, kind, user, recipe).Ok?
    ensures var r := RemoveMembership(AddMembership(db, kind, user, recipe).value, kind, user, recipe);
      && r.Ok?
      && multiset(Rows(r.value, kind)) == multiset(Rows(db, kind))
      && r.value.(favorites := db.favorites, cart := db.cart) == db
  {
    var m := Membership(user, recipe);
    var db1 := AddMembership(db, kind, user, recipe).value;
    assert multiset(Rows(db, kind))[m] == 0;
    assert multiset(Rows(db1, kind))[m] == 1;
    assert db1.(favorites := db.favorites, cart := db.cart) == db;
  }

  // ----- the shopping list -----

  /** Every ingredient the shopping list of `user` names exists. */
  lemma AggregateKeysExist(db: Db, user: UserId)
    requires TablesOk(db)
    ensures Aggregate(db.lineItems, multiset(db.cart), user).Keys <= db.ingredients.Keys
  {
    forall ing | ing in Aggregate(db.lineItems, multiset(db.cart), user)
      ensures ing in db.ingredients
    {
      assert Joined(db.lineItems, multiset(db.cart), user, ing);
    }
  }

  /** The list has no group exactly when no line item belongs to a recipe
      in the cart. */
  lemma NothingJoinedIff(db: Db, user: UserId)
    ensures Aggregate(db.lineItems, multiset(db.cart), user).Keys == {}
        <==> forall li | li in db.lineItems :: Membership(user, li.recipe) !in db.cart
  {
    var totals := Aggregate(db.lineItems, multiset(db.cart), user);
    if li :| li in db.lineItems && Membership(user, li.recipe) in db.cart {
      assert Joined(db.lineItems, multiset(db.cart), user, li.ingredient);
      assert li.ingredient in totals;
    }
  }

  /** `download_shopping_cart` for `user`, the groups in the order `order`
      the database returns them in. The file is empty exactly when no line
      item of a recipe in the cart exists. */
  function DownloadShoppingCart(db: Db, user: UserId, order: seq<IngredientId>): (file: string)
    requires TablesOk(db)
    requires IsEnumeration(order, Aggregate(db.lineItems, multiset(db.cart), user).Keys)
    ensures file == "" <==> forall li | li in db.lineItems :: Membership(user, li.recipe) !in db.cart
  {
    AggregateKeysExist(db, user);
    var totals := Aggregate(db.lineItems, multiset(db.cart), user);
    var es := Entries(totals, db.ingredients, order);
    ReportEmptyIff(es);
    DistinctIffElemsSize(order);
    NothingJoinedIff(db, user);
    ShoppingReport(db.lineItems, multiset(db.cart), db.ingredients, user, order)
  }

  /** While the pre-checks keep one cart row per (user, recipe), each total
      of the list is the sum of the ingredient's amounts over the recipes
      in `user`'s cart. */
  lemma ShoppingTotalsAreCartSums(db: Db, user: UserId, ing: IngredientId)
    requires ApiOk(db)
    requires ing in Aggregate(db.lineItems, multiset(db.cart), user)
    ensures Aggregate(db.lineItems, multiset(db.cart), user)[ing]
         == SumOver(db.lineItems, CartRecipes(multiset(db.cart), user), ing)
  {
    forall recipe ensures multiset(db.cart)[Membership(user, recipe)] <= 1 {
      DistinctMultiplicity(db.cart, Membership(user, recipe));
    }
    TotalIsCartSum(db.lineItems, multiset(db.cart), user, ing);
  }

  /** Adding a recipe to the cart raises each total of the list by that
      ingredient's amount in the recipe, and nothing else. */
  lemma CartAddRaisesTotals(db: Db, user: UserId, recipe: RecipeId, ing: IngredientId)
    requires AddMembership(db, ShoppingCart, user, recipe).Ok?
    ensures var db' := AddMembership(db, ShoppingCart, user, recipe).value;
      Total(db'.lineItems, multiset(db'.cart), user, ing)
        == Total(db.lineItems, multiset(db.cart), user, ing) + SumOver(db.lineItems, {recipe}, ing)
  {
    var db' := AddMembership(db, ShoppingCart, user, recipe).value;
    assert db'.lineItems == db.lineItems;
    assert multiset(db'.cart) == multiset(db.cart) + multiset{Membership(user, recipe)};
    TotalAddRow(db.lineItems, multiset(db.cart), user, recipe, ing);
  }
}
