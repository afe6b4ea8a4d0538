/** The tables of `recipes/models.py` and `users/models.py` as values: the
    constraints each table declares (unique fields, unique pairs, value
    ranges, foreign keys) and the row filters a cascading delete applies. */
module Tables {
  import opened Domain
  import opened Collections
  import opened Validators

  /** `User.email` and `User.username` are unique, and every username passes
      `validate_username`. Ids come from a sequence and lie below `nextId`. */
  ghost predicate UsersOk(users: map<UserId, User>, nextId: nat) {
    && (forall u | u in users :: u < nextId && ValidUsername(users[u].username))
    && (forall u, v | u in users && v in users && u != v ::
          users[u].email != users[v].email && users[u].username != users[v].username)
  }

  /** `Tag.name` and `Tag.slug` are unique, and every slug passes
      `validate_tag_slug`. */
  ghost predicate TagsOk(tags: map<TagId, Tag>, nextId: nat) {
    && (forall t | t in tags :: t < nextId && ValidSlug(tags[t].slug))
    && (forall t, t' | t in tags && t' in tags && t != t' ::
          tags[t].name != tags[t'].name && tags[t].slug != tags[t'].slug)
  }

  /** No two ingredients share (name, measurement_unit). */
  ghost predicate IngredientsOk(ingredients: map<IngredientId, Ingredient>, nextId: nat) {
    && (forall i | i in ingredients :: i < nextId)
    && (forall i, j | i in ingredients && j in ingredients && i != j :: ingredients[i] != ingredients[j])
  }

  /** Every recipe has an existing author and existing tags, a cooking time
      within [1, 1500] and a name that passes `validate_name_recipe`. */
  ghost predicate RecipesOk(
    recipes: map<RecipeId, Recipe>, users: map<UserId, User>, tags: map<TagId, Tag>, nextId: nat)
  {
    forall r | r in recipes ::
      && r < nextId
      && recipes[r].author in users
      && recipes[r].tags <= tags.Keys
      && MinCookingTime <= recipes[r].cookingTime <= MaxCookingTime
      && ValidRecipeName(recipes[r].name)
  }

  /** The whole database as one value: every table, and the next id each
      table's sequence hands out. */
  datatype Db = Db(
    users: map<UserId, User>,
    tags: map<TagId, Tag>,
    ingredients: map<IngredientId, Ingredient>,
    recipes: map<RecipeId, Recipe>,
    lineItems: seq<LineItem>,
    subscriptions: set<Subscription>,
    favorites: seq<Membership>,
    cart: seq<Membership>,
    nextUserId: nat,
    nextTagId: nat,
    nextIngredientId: nat,
    nextRecipeId: nat)

  /** The database with nothing in it. */
  function EmptyDb(): Db {
    Db(map[], map[], map[], map[], [], {}, [], [], 0, 0, 0, 0)
  }

  /** Every constraint the tables declare holds. */
  ghost predicate TablesOk(db: Db) {
    && UsersOk(db.users, db.nextUserId)
    && TagsOk(db.tags, db.nextTagId)
    && IngredientsOk(db.ingredients, db.nextIngredientId)
    && RecipesOk(db.recipes, db.users, db.tags, db.nextRecipeId)
    && LineItemsOk(db.lineItems, db.recipes, db.ingredients)
    && SubscriptionsOk(db.subscriptions, db.users)
    && MembershipsOk(db.favorites, db.users, db.recipes)
    && MembershipsOk(db.cart, db.users, db.recipes)
  }

  /** What the API's own pre-checks keep and no database constraint
      backs: nobody follows themselves, and no (user, recipe) pair appears
      twice among the favourites or in the cart. */
  ghost predicate ApiOk(db: Db) {
    && (forall s | s in db.subscriptions :: s.user != s.author)
    && Distinct(db.favorites)
    && Distinct(db.cart)
  }

  /** `ApiOk` only reads the subscriptions, the favourites and the cart. */
  lemma ApiOkFrame(db: Db, db': Db)
    requires ApiOk(db)
    requires db'.subscriptions == db.subscriptions && db'.favorites == db.favorites && db'.cart == db.cart
    ensures ApiOk(db')
  {
  }

  /** Replacing the recipes by a table with the same ids and the line
      items by a table that fits it keeps every constraint. */
  lemma TablesOkReplaceRecipes(db: Db, recipes: map<RecipeId, Recipe>, items: seq<LineItem>)
    requires TablesOk(db)
    requires recipes.Keys == db.recipes.Keys
    requires RecipesOk(recipes, db.users, db.tags, db.nextRecipeId)
    requires LineItemsOk(items, recipes, db.ingredients)
    ensures TablesOk(db.(recipes := recipes, lineItems := items))
    ensures ApiOk(db) ==> ApiOk(db.(recipes := recipes, lineItems := items))
  {
    MembershipsOkFrame(db.favorites, db.users, db.users, db.recipes, recipes);
    MembershipsOkFrame(db.cart, db.users, db.users, db.recipes, recipes);
  }

  lemma EmptyDbOk()
    ensures TablesOk(EmptyDb()) && ApiOk(EmptyDb())
  {
  }

  /** The favourite rows or the cart rows. */
  function Rows(db: Db, kind: MembershipKind): seq<Membership> {
    if kind == Favorite then db.favorites else db.cart
  }

  /** `db` with the rows of `kind` replaced. */
  function WithRows(db: Db, kind: MembershipKind, rows: seq<Membership>): (r: Db)
    ensures Rows(r, kind) == rows
    ensures Rows(r, OtherKind(kind)) == Rows(db, OtherKind(kind))
    ensures r.(favorites := db.favorites, cart := db.cart) == db
  {
    if kind == Favorite then db.(favorites := rows) else db.(cart := rows)
  }

  /** The other of the two membership tables. */
  function OtherKind(kind: MembershipKind): (other: MembershipKind)
    ensures other != kind
  {
    if kind == Favorite then ShoppingCart else Favorite
  }

  /** The pair `unique_ingredient_in_recipe` constrains. */
  function PairKey(li: LineItem): (IngredientId, RecipeId) {
    (li.ingredient, li.recipe)
  }

  /** At most one line item per (ingredient, recipe). */
  predicate UniquePairs(items: seq<LineItem>) {
    forall i, j | 0 <= i < |items| && 0 <= j < |items| && i != j :: PairKey(items[i]) != PairKey(items[j])
  }

  /** Every line item points at an existing recipe and ingredient, its
      amount lies within [1, 10000] (so `amount_gte_1` holds), and no
      (ingredient, recipe) pair repeats. */
  ghost predicate LineItemsOk(
    items: seq<LineItem>, recipes: map<RecipeId, Recipe>, ingredients: map<IngredientId, Ingredient>)
  {
    && (forall li | li in items ::
          li.recipe in recipes && li.ingredient in ingredients && MinAmount <= li.amount <= MaxAmount)
    && UniquePairs(items)
  }

  /** Both ends of every subscription are existing users; the set holds one
      element per (user, author), as `unique_user_author` demands. */
  ghost predicate SubscriptionsOk(subscriptions: set<Subscription>, users: map<UserId, User>) {
    forall s | s in subscriptions :: s.user in users && s.author in users
  }

  /** Favourite and cart rows point at existing users and recipes. Nothing
      in the database makes them unique. */
  ghost predicate MembershipsOk(rows: seq<Membership>, users: map<UserId, User>, recipes: map<RecipeId, Recipe>) {
    forall m | m in rows :: m.user in users && m.recipe in recipes
  }

  lemma UniquePairsCons(x: LineItem, s: seq<LineItem>)
    ensures UniquePairs([x] + s) <==> (forall y | y in s :: PairKey(y) != PairKey(x)) && UniquePairs(s)
  {
    var t := [x] + s;
    if (forall y | y in s :: PairKey(y) != PairKey(x)) && UniquePairs(s) {
      forall i, j | 0 <= i < |t| && 0 <= j < |t| && i != j ensures PairKey(t[i]) != PairKey(t[j]) {
        if i > 0 && j > 0 { assert t[i] == s[i - 1] && t[j] == s[j - 1]; }
        else if i > 0 { assert t[i] == s[i - 1] && t[i] in s; }
        else { assert t[j] == s[j - 1] && t[j] in s; }
      }
    }
    if UniquePairs(t) {
      forall i, j | 0 <= i < |s| && 0 <= j < |s| && i != j ensures PairKey(s[i]) != PairKey(s[j]) {
        assert s[i] == t[i + 1] && s[j] == t[j + 1];
      }
      forall k | 0 <= k < |s| ensures PairKey(s[k]) != PairKey(x) {
        assert t[k + 1] == s[k] && t[0] == x;
      }
    }
  }

  /** Two duplicate-free lists without a common pair concatenate into a
      duplicate-free list. */
  lemma UniquePairsAppend(a: seq<LineItem>, b: seq<LineItem>)
    requires UniquePairs(a) && UniquePairs(b)
    requires forall x, y | x in a && y in b :: PairKey(x) != PairKey(y)
    ensures UniquePairs(a + b)
  {
    var t := a + b;
    forall i, j | 0 <= i < |t| && 0 <= j < |t| && i != j ensures PairKey(t[i]) != PairKey(t[j]) {
      if i < |a| && j < |a| { assert t[i] == a[i] && t[j] == a[j]; }
      else if i >= |a| && j >= |a| { assert t[i] == b[i - |a|] && t[j] == b[j - |a|]; }
      else if i < |a| { assert t[i] == a[i] && t[j] == b[j - |a|] && t[i] in a && t[j] in b; }
      else { assert t[j] == a[j] && t[i] == b[i - |a|] && t[j] in a && t[i] in b; }
    }
  }

  /** The line items of one recipe, in table order
      (`IngredientAmount.objects.filter(recipe=recipe)`). */
  function ItemsOf(items: seq<LineItem>, recipe: RecipeId): (r: seq<LineItem>)
    ensures forall li :: li in r <==> li in items && li.recipe == recipe
  {
    if items == [] then []
    else if items[0].recipe == recipe then [items[0]] + ItemsOf(items[1..], recipe)
    else ItemsOf(items[1..], recipe)
  }

  lemma {:induction false} ItemsOfAppend(a: seq<LineItem>, b: seq<LineItem>, recipe: RecipeId)
    ensures ItemsOf(a + b, recipe) == ItemsOf(a, recipe) + ItemsOf(b, recipe)
  {
    if a != [] {
      assert (a + b)[1..] == a[1..] + b;
      ItemsOfAppend(a[1..], b, recipe);
    } else {
      assert a + b == b;
    }
  }

  /** Filtering by a recipe no row has gives nothing; filtering rows that
      all belong to it gives them back. */
  lemma {:induction false} ItemsOfAllOrNone(items: seq<LineItem>, recipe: RecipeId)
    ensures (forall li | li in items :: li.recipe != recipe) ==> ItemsOf(items, recipe) == []
    ensures (forall li | li in items :: li.recipe == recipe) ==> ItemsOf(items, recipe) == items
  {
    if items != [] {
      assert forall li | li in items[1..] :: li in items;
      ItemsOfAllOrNone(items[1..], recipe);
      assert items == [items[0]] + items[1..];
    }
  }

  /** Appending the line items of a recipe that had none: that recipe's
      items are exactly the appended ones, every other recipe's are as
      before. */
  lemma AppendItemsOf(items: seq<LineItem>, added: seq<LineItem>, recipe: RecipeId)
    requires forall li | li in items :: li.recipe != recipe
    requires forall li | li in added :: li.recipe == recipe
    ensures ItemsOf(items + added, recipe) == added
    ensures forall q | q != recipe :: ItemsOf(items + added, q) == ItemsOf(items, q)
  {
    ItemsOfAllOrNone(items, recipe);
    ItemsOfAllOrNone(added, recipe);
    ItemsOfAppend(items, added, recipe);
    forall q | q != recipe ensures ItemsOf(items + added, q) == ItemsOf(items, q) {
      ItemsOfAppend(items, added, q);
      ItemsOfAllOrNone(added, q);
    }
  }

  /** The line items that survive deleting the recipes `gone` (and, with
      them, by `on_delete=CASCADE`, their line items). */
  function ItemsNotOf(items: seq<LineItem>, gone: set<RecipeId>): (r: seq<LineItem>)
    ensures forall li :: li in r <==> li in items && li.recipe !in gone
    ensures UniquePairs(items) ==> UniquePairs(r)
  {
    if items == [] then []
    else
      var rest := ItemsNotOf(items[1..], gone);
      assert items == [items[0]] + items[1..];
      UniquePairsCons(items[0], items[1..]);
      if items[0].recipe !in gone then
        UniquePairsCons(items[0], rest);
        assert ([items[0]] + rest)[1..] == rest;
        [items[0]] + rest
      else rest
  }

  /** Deleting the recipes `gone` leaves the line items of every other
      recipe as they were, in the same order. */
  lemma {:induction false} ItemsNotOfKeepsOthers(items: seq<LineItem>, gone: set<RecipeId>, q: RecipeId)
    requires q !in gone
    ensures ItemsOf(ItemsNotOf(items, gone), q) == ItemsOf(items, q)
  {
    if items != [] {
      ItemsNotOfKeepsOthers(items[1..], gone, q);
      if items[0].recipe !in gone {
        assert ([items[0]] + ItemsNotOf(items[1..], gone))[1..] == ItemsNotOf(items[1..], gone);
      }
    }
  }

  /** The line items that survive deleting ingredient `ing`. */
  function ItemsWithoutIngredient(items: seq<LineItem>, ing: IngredientId): (r: seq<LineItem>)
    ensures forall li :: li in r <==> li in items && li.ingredient != ing
    ensures UniquePairs(items) ==> UniquePairs(r)
  {
    if items == [] then []
    else
      var rest := ItemsWithoutIngredient(items[1..], ing);
      assert items == [items[0]] + items[1..];
      UniquePairsCons(items[0], items[1..]);
      if items[0].ingredient != ing then
        UniquePairsCons(items[0], rest);
        [items[0]] + rest
      else rest
  }

  /** The favourite or cart rows that survive deleting the users `users`
      and the recipes `recipes`. */
  function RowsNotOf(rows: seq<Membership>, users: set<UserId>, recipes: set<RecipeId>): (r: seq<Membership>)
    ensures forall m :: m in r <==> m in rows && m.user !in users && m.recipe !in recipes
    ensures Distinct(rows) ==> Distinct(r)
  {
    if rows == [] then []
    else
      var rest := RowsNotOf(rows[1..], users, recipes);
      assert rows == [rows[0]] + rows[1..];
      DistinctCons(rows[0], rows[1..]);
      if rows[0].user !in users && rows[0].recipe !in recipes then
        DistinctCons(rows[0], rest);
        [rows[0]] + rest
      else rest
  }

  /** The subscriptions that survive deleting user `u`. */
  function SubscriptionsNotOf(subscriptions: set<Subscription>, u: UserId): set<Subscription> {
    set s | s in subscriptions && s.user != u && s.author != u
  }

  /** The rows left after deleting every row equal to `m`. */
  function RowsExcept(rows: seq<Membership>, m: Membership): (r: seq<Membership>)
    ensures forall x :: x in r <==> x in rows && x != m
    ensures multiset(r) == multiset(rows)[m := 0]
    ensures Distinct(rows) ==> Distinct(r)
  {
    if rows == [] then []
    else
      var rest := RowsExcept(rows[1..], m);
      assert rows == [rows[0]] + rows[1..];
      DistinctCons(rows[0], rows[1..]);
      if rows[0] != m then
        DistinctCons(rows[0], rest);
        [rows[0]] + rest
      else rest
  }

  // Each table constraint survives the inserts and deletes of the other
  // tables that the store performs.

  lemma RecipesOkFrame(
    recipes: map<RecipeId, Recipe>, users: map<UserId, User>, users': map<UserId, User>,
    tags: map<TagId, Tag>, tags': map<TagId, Tag>, n: nat, n': nat)
    requires RecipesOk(recipes, users, tags, n)
    requires users.Keys <= users'.Keys && tags.Keys <= tags'.Keys && n <= n'
    ensures RecipesOk(recipes, users', tags', n')
  {
  }

  /** Removing recipes, and with them every recipe of a removed author. */
  lemma RecipesOkRemove(
    recipes: map<RecipeId, Recipe>, users: map<UserId, User>, tags: map<TagId, Tag>, n: nat,
    gone: set<RecipeId>, left: set<UserId>)
    requires RecipesOk(recipes, users, tags, n)
    requires forall r | r in recipes && r !in gone :: recipes[r].author !in left
    ensures RecipesOk(recipes - gone, users - left, tags, n)
  {
  }

  lemma LineItemsOkFrame(
    items: seq<LineItem>, recipes: map<RecipeId, Recipe>, recipes': map<RecipeId, Recipe>,
    ingredients: map<IngredientId, Ingredient>, ingredients': map<IngredientId, Ingredient>)
    requires LineItemsOk(items, recipes, ingredients)
    requires recipes.Keys <= recipes'.Keys && ingredients.Keys <= ingredients'.Keys
    ensures LineItemsOk(items, recipes', ingredients')
  {
  }

  /** Deleting recipes deletes their line items. */
  lemma LineItemsOkRemoveRecipes(
    items: seq<LineItem>, recipes: map<RecipeId, Recipe>, ingredients: map<IngredientId, Ingredient>,
    gone: set<RecipeId>)
    requires LineItemsOk(items, recipes, ingredients)
    ensures LineItemsOk(ItemsNotOf(items, gone), recipes - gone, ingredients)
  {
  }

  /** Deleting an ingredient deletes the line items that use it. */
  lemma LineItemsOkRemoveIngredient(
    items: seq<LineItem>, recipes: map<RecipeId, Recipe>, ingredients: map<IngredientId, Ingredient>,
    ing: IngredientId)
    requires LineItemsOk(items, recipes, ingredients)
    ensures LineItemsOk(ItemsWithoutIngredient(items, ing), recipes, ingredients - {ing})
  {
  }

  lemma MembershipsOkFrame(
    rows: seq<Membership>, users: map<UserId, User>, users': map<UserId, User>,
    recipes: map<RecipeId, Recipe>, recipes': map<RecipeId, Recipe>)
    requires MembershipsOk(rows, users, recipes)
    requires users.Keys <= users'.Keys && recipes.Keys <= recipes'.Keys
    ensures MembershipsOk(rows, users', recipes')
  {
  }

  /** Deleting users and recipes deletes their favourite and cart rows. */
  lemma MembershipsOkRemove(
    rows: seq<Membership>, users: map<UserId, User>, recipes: map<RecipeId, Recipe>,
    left: set<UserId>, gone: set<RecipeId>)
    requires MembershipsOk(rows, users, recipes)
    ensures MembershipsOk(RowsNotOf(rows, left, gone), users - left, recipes - gone)
  {
  }
}
