/** The recipe list filters of `RecipeFilter` (`api/filters.py`). Each one
    restricts a set of recipes and changes nothing; a filter whose value is
    absent leaves the set as it is. */
module Filters {
  import opened Domain
  import opened Validators

  /** `is_favorited` / `is_in_shopping_cart`: for an authenticated user and a
      true value, keep the recipes that have a row of that user in `rows`
      (the favourites or the cart); otherwise keep everything. */
  function MembershipFilter(
    qs: set<RecipeId>, requester: Option<UserId>, value: bool, rows: multiset<Membership>): (r: set<RecipeId>)
    ensures r <= qs
    ensures (requester.None? || !value) ==> r == qs
    ensures requester.Some? && value ==>
      forall recipe :: recipe in r <==> recipe in qs && Membership(requester.value, recipe) in rows
  {
    if requester.Some? && value
    then set recipe | recipe in qs && Membership(requester.value, recipe) in rows
    else qs
  }

  /** `filter_is_favorited` as intended: the lookup goes through the
      reverse relation of `Favorite`, whose name is `in_favorite`. */
  function FilterIsFavorited(
    qs: set<RecipeId>, requester: Option<UserId>, value: bool, favorites: multiset<Membership>): (r: set<RecipeId>)
    ensures requester.Some? && value ==>
      forall recipe :: recipe in r <==> recipe in qs && Membership(requester.value, recipe) in favorites
    ensures (requester.None? || !value) ==> r == qs
  {
    MembershipFilter(qs, requester, value, favorites)
  }

  /** Why the query layer refuses a filter: a lookup names no field or
      relation of the model. */
  datatype LookupError = CannotResolveKeyword(keyword: string)

  /** The reverse relations of `Recipe` a lookup may start with: the
      `default_related_name` of each model with a foreign key to it. */
  const RecipeReverseRelations: set<string> := {"ingredients_recipe", "shopping_cart", "in_favorite"}

  /** `filter_is_favorited` as written: the lookup `favorite__user` starts
      with `favorite`, which is no relation of `Recipe`, so the filter is
      refused whenever it would filter. */
  function FilterIsFavoritedAsWritten(
    qs: set<RecipeId>, requester: Option<UserId>, value: bool, favorites: multiset<Membership>):
    (r: Result<set<RecipeId>, LookupError>)
    ensures r.Err? <==> requester.Some? && value
    ensures r.Ok? ==> r.value == qs
  {
    if requester.Some? && value then
      if "favorite" in RecipeReverseRelations
      then Ok(MembershipFilter(qs, requester, value, favorites))
      else Err(CannotResolveKeyword("favorite"))
    else Ok(qs)
  }

  /** A signed-in user asking for their favourites gets an error from the
      filter as written, where the intended filter returns the favourite. */
  lemma FavoritedFilterAsWrittenFails()
    ensures FilterIsFavoritedAsWritten({5, 6}, Some(1), true, multiset{Membership(1, 5)}).Err?
    ensures FilterIsFavorited({5, 6}, Some(1), true, multiset{Membership(1, 5)}) == {5}
  {
    assert "favorite" != "in_favorite";
    assert "favorite" != "shopping_cart";
    assert "favorite" != "ingredients_recipe";
  }

  /** `filter_is_in_shopping_cart`: its lookup `shopping_cart__user` names
      the reverse relation of `ShoppingCart`. */
  function FilterIsInShoppingCart(
    qs: set<RecipeId>, requester: Option<UserId>, value: bool, cart: multiset<Membership>): (r: set<RecipeId>)
    ensures requester.Some? && value ==>
      forall recipe :: recipe in r <==> recipe in qs && Membership(requester.value, recipe) in cart
    ensures (requester.None? || !value) ==> r == qs
  {
    MembershipFilter(qs, requester, value, cart)
  }

  /** `author = CharFilter(field_name='author')`: an exact match on the
      author when a value is given. */
  function FilterAuthor(qs: set<RecipeId>, recipes: map<RecipeId, Recipe>, author: Option<UserId>): (r: set<RecipeId>)
    ensures r <= qs
    ensures author.None? ==> r == qs
    ensures author.Some? ==>
      forall recipe :: recipe in r <==> recipe in qs && recipe in recipes && recipes[recipe].author == author.value
  {
    match author
    case None => qs
    case Some(a) => set recipe | recipe in qs && recipe in recipes && recipes[recipe].author == a
  }

  /** Why the filter form refuses a query: a value of a multiple-choice
      filter is not among its choices (a 400 answer). */
  datatype ChoiceError = InvalidChoice(value: string)

  /** The choices of `AllValuesMultipleFilter(field_name='tags__slug')`:
      the `tags__slug` values over the whole recipes table, that is, the
      slugs of the tags some recipe carries. */
  function SlugChoices(recipes: map<RecipeId, Recipe>, tags: map<TagId, Tag>): (choices: set<string>)
    ensures forall r, t | r in recipes && t in recipes[r].tags && t in tags :: tags[t].slug in choices
    ensures forall s | s in choices ::
      exists r, t | r in recipes && t in recipes[r].tags && t in tags :: tags[t].slug == s
  {
    set r, t | r in recipes && t in recipes[r].tags && t in tags :: tags[t].slug
  }

  /** The recipe carries a tag whose slug is one of `slugs`. */
  predicate HasTagWithSlug(recipe: Recipe, tags: map<TagId, Tag>, slugs: seq<string>) {
    exists t :: t in recipe.tags && t in tags && tags[t].slug in slugs
  }

  /** `tags = AllValuesMultipleFilter(field_name='tags__slug')`: a slug
      that is not a choice makes the form invalid, reported for the first
      such slug; otherwise, with one or more slugs, keep the recipes that
      carry a tag with any of them. */
  function FilterTags(
    qs: set<RecipeId>, recipes: map<RecipeId, Recipe>, tags: map<TagId, Tag>, slugs: seq<string>):
    (r: Result<set<RecipeId>, ChoiceError>)
    ensures r.Err? <==> exists k | 0 <= k < |slugs| :: slugs[k] !in SlugChoices(recipes, tags)
    ensures r.Err? ==> r.error.value in slugs && r.error.value !in SlugChoices(recipes, tags)
    ensures r.Ok? ==> r.value <= qs
    ensures r.Ok? && slugs == [] ==> r.value == qs
    ensures r.Ok? && slugs != [] ==>
      forall recipe :: recipe in r.value <==> recipe in qs && recipe in recipes && HasTagWithSlug(recipes[recipe], tags, slugs)
  {
    var choices := SlugChoices(recipes, tags);
    var k := Span(slugs, s => s in choices);
    if k < |slugs| then Err(InvalidChoice(slugs[k]))
    else if slugs == [] then Ok(qs)
    else Ok(set recipe | recipe in qs && recipe in recipes && HasTagWithSlug(recipes[recipe], tags, slugs))
  }

  /** Asking for several slugs is asking for each: the query is refused
      exactly when one of the parts is, and otherwise keeps the recipes
      either part keeps. */
  lemma FilterTagsUnion(
    qs: set<RecipeId>, recipes: map<RecipeId, Recipe>, tags: map<TagId, Tag>, a: seq<string>, b: seq<string>)
    requires a != [] && b != []
    ensures FilterTags(qs, recipes, tags, a + b).Ok?
        <==> FilterTags(qs, recipes, tags, a).Ok? && FilterTags(qs, recipes, tags, b).Ok?
    ensures FilterTags(qs, recipes, tags, a + b).Ok? ==>
      FilterTags(qs, recipes, tags, a + b).value
        == FilterTags(qs, recipes, tags, a).value + FilterTags(qs, recipes, tags, b).value
  {
    var choices := SlugChoices(recipes, tags);
    if k :| 0 <= k < |a + b| && (a + b)[k] !in choices {
      if k < |a| {
        assert a[k] == (a + b)[k];
      } else {
        assert b[k - |a|] == (a + b)[k];
      }
    }
    if k :| 0 <= k < |a| && a[k] !in choices {
      assert (a + b)[k] == a[k];
    }
    if k :| 0 <= k < |b| && b[k] !in choices {
      assert (a + b)[|a| + k] == b[k];
    }
  }

  /** The slug of a tag that exists but that no recipe carries is refused,
      not answered with an empty list. */
  lemma UnusedTagSlugRefused(
    qs: set<RecipeId>, recipes: map<RecipeId, Recipe>, tags: map<TagId, Tag>, t: TagId)
    requires t in tags
    requires forall r | r in recipes :: t !in recipes[r].tags
    requires forall u | u in tags && u != t :: tags[u].slug != tags[t].slug
    ensures FilterTags(qs, recipes, tags, [tags[t].slug]) == Err(InvalidChoice(tags[t].slug))
  {
  }

  /** The query string of a recipe list request. */
  datatype RecipeQuery = RecipeQuery(
    author: Option<UserId>,
    isFavorited: bool,
    isInShoppingCart: bool,
    tagSlugs: seq<string>)

  /** All four filters in the order `RecipeFilter` declares them. */
  function ApplyRecipeFilter(
    qs: set<RecipeId>, recipes: map<RecipeId, Recipe>, tags: map<TagId, Tag>,
    favorites: multiset<Membership>, cart: multiset<Membership>,
    requester: Option<UserId>, q: RecipeQuery): Result<set<RecipeId>, ChoiceError>
  {
    var byAuthor := FilterAuthor(qs, recipes, q.author);
    var byFavorite := FilterIsFavorited(byAuthor, requester, q.isFavorited, favorites);
    var byCart := FilterIsInShoppingCart(byFavorite, requester, q.isInShoppingCart, cart);
    FilterTags(byCart, recipes, tags, q.tagSlugs)
  }

  /** What a recipe must satisfy to stay in the list. */
  predicate Matches(
    recipe: RecipeId, recipes: map<RecipeId, Recipe>, tags: map<TagId, Tag>,
    favorites: multiset<Membership>, cart: multiset<Membership>,
    requester: Option<UserId>, q: RecipeQuery)
  {
    && (q.author.Some? ==> recipe in recipes && recipes[recipe].author == q.author.value)
    && (requester.Some? && q.isFavorited ==> Membership(requester.value, recipe) in favorites)
    && (requester.Some? && q.isInShoppingCart ==> Membership(requester.value, recipe) in cart)
    && (q.tagSlugs != [] ==> recipe in recipes && HasTagWithSlug(recipes[recipe], tags, q.tagSlugs))
  }

  /** The query is refused exactly when a tag slug is not a choice;
      otherwise the filters together keep exactly the recipes that meet
      every condition, so the order in which they run does not matter. */
  lemma ApplyRecipeFilterMeaning(
    qs: set<RecipeId>, recipes: map<RecipeId, Recipe>, tags: map<TagId, Tag>,
    favorites: multiset<Membership>, cart: multiset<Membership>,
    requester: Option<UserId>, q: RecipeQuery)
    ensures var r := ApplyRecipeFilter(qs, recipes, tags, favorites, cart, requester, q);
      && (r.Err? <==> exists k | 0 <= k < |q.tagSlugs| :: q.tagSlugs[k] !in SlugChoices(recipes, tags))
      && (r.Ok? ==> forall recipe :: recipe in r.value <==> recipe in qs && Matches(recipe, recipes, tags, favorites, cart, requester, q))
  {
  }

  /** Filtering twice by the same membership is filtering once. */
  lemma MembershipFilterIdempotent(
    qs: set<RecipeId>, requester: Option<UserId>, value: bool, rows: multiset<Membership>)
    ensures MembershipFilter(MembershipFilter(qs, requester, value, rows), requester, value, rows)
         == MembershipFilter(qs, requester, value, rows)
  {
  }

  /** The favourite and cart filters commute. */
  lemma MembershipFiltersCommute(
    qs: set<RecipeId>, requester: Option<UserId>, fav: bool, inCart: bool,
    favorites: multiset<Membership>, cart: multiset<Membership>)
    ensures FilterIsInShoppingCart(FilterIsFavorited(qs, requester, fav, favorites), requester, inCart, cart)
         == FilterIsFavorited(FilterIsInShoppingCart(qs, requester, inCart, cart), requester, fav, favorites)
  {
  }
}
