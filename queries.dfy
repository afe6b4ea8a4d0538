/** The two read-only list queries of the API: the authors a user follows
    (`UserViewSet.subscriptions`, `api/views.py`) and the recipes shown
    for each of them (`SubscribeListSerializer.get_recipes`,
    `api/serializers.py`). Users come back by id (`User.Meta.ordering`),
    recipes by ascending `pub_date` (`Recipe.Meta.ordering`). */
module Queries {
  import opened Domain
  import opened Collections

  /** `User.objects.filter(following__user=user)`: the authors of the
      subscriptions whose subscriber is `user`. */
  function Following(subscriptions: set<Subscription>, user: UserId): (r: set<UserId>)
    ensures forall a :: a in r <==> Subscription(user, a) in subscriptions
  {
    set s | s in subscriptions && s.user == user :: s.author
  }

  /** The sort key of a table ordered by id alone. */
  function ById(id: nat): int {
    0
  }

  /** The subscriptions listing in the order the users table returns it. */
  ghost function SubscriptionList(subscriptions: set<Subscription>, user: UserId): (r: seq<UserId>)
    ensures forall a :: a in r <==> Subscription(user, a) in subscriptions
    ensures forall i, j | 0 <= i < j < |r| :: r[i] < r[j]
  {
    var s := SortedBy(Following(subscriptions, user), ById);
    assert forall i, j | 0 <= i < j < |s| :: Precedes(ById, s[i], s[j]);
    s
  }

  /** `author.recipes`: the recipes whose author is `author`. */
  function AuthoredBy(recipes: map<RecipeId, Recipe>, author: UserId): set<RecipeId> {
    set id | id in recipes && recipes[id].author == author
  }

  /** The sort key of `Recipe.Meta.ordering`. */
  function PubDateKey(recipes: map<RecipeId, Recipe>): nat -> int {
    id => if id in recipes then recipes[id].pubDate else 0
  }

  /** `object.recipes.all()` in table order: by `pub_date`, then by id
      (the database leaves ties unordered; the model fixes one order). */
  ghost function RecipesByPubDate(recipes: map<RecipeId, Recipe>, author: UserId): (r: seq<RecipeId>)
    ensures forall id :: id in r <==> id in recipes && recipes[id].author == author
    ensures Distinct(r)
    ensures forall i, j | 0 <= i < j < |r| :: recipes[r[i]].pubDate <= recipes[r[j]].pubDate
  {
    var s := SortedBy(AuthoredBy(recipes, author), PubDateKey(recipes));
    assert forall i, j | 0 <= i < j < |s| :: Precedes(PubDateKey(recipes), s[i], s[j]);
    s
  }

  /** Why a `recipe_limit` is refused: a negative slice bound is an error
      of the query set. */
  datatype PageError = NegativeLimit

  /** `get_recipes`: all the author's recipes when no limit is given, and
      otherwise the first `limit` of them in table order; either way a
      prefix, without repeats, of the author's recipes by date. */
  ghost function RecipePage(recipes: map<RecipeId, Recipe>, author: UserId, limit: Option<int>): (r: Result<seq<RecipeId>, PageError>)
    ensures r.Err? <==> limit.Some? && limit.value < 0
    ensures r.Ok? ==> (forall id | id in r.value :: id in recipes && recipes[id].author == author)
    ensures r.Ok? ==> Distinct(r.value) && r.value <= RecipesByPubDate(recipes, author)
    ensures r.Ok? && limit.None? ==> Elems(r.value) == AuthoredBy(recipes, author)
    ensures r.Ok? && limit.None? ==> |r.value| == |AuthoredBy(recipes, author)|
    ensures r.Ok? && limit.Some? ==>
      |r.value| == (if limit.value < |AuthoredBy(recipes, author)| then limit.value else |AuthoredBy(recipes, author)|)
  {
    var all := RecipesByPubDate(recipes, author);
    DistinctIffElemsSize(all);
    assert Elems(all) == AuthoredBy(recipes, author);
    match limit
    case None => Ok(all)
    case Some(n) =>
      if n < 0 then Err(NegativeLimit)
      else if n < |all| then Ok(all[..n])
      else Ok(all)
  }

  /** The page holds the OLDEST recipes of the author: no recipe left out
      of a limited page was published before one on it. */
  lemma PageHoldsOldest(recipes: map<RecipeId, Recipe>, author: UserId, limit: Option<int>, shown: RecipeId, hidden: RecipeId)
    requires RecipePage(recipes, author, limit).Ok?
    requires shown in RecipePage(recipes, author, limit).value
    requires hidden in recipes && recipes[hidden].author == author
    requires hidden !in RecipePage(recipes, author, limit).value
    ensures recipes[shown].pubDate <= recipes[hidden].pubDate
  {
    var all := RecipesByPubDate(recipes, author);
    var page := RecipePage(recipes, author, limit).value;
    assert limit.Some? && 0 <= limit.value < |all| && page == all[..limit.value];
    var i :| 0 <= i < limit.value && all[i] == shown;
    var j :| 0 <= j < |all| && all[j] == hidden;
  }

  /** A page of `k` recipes is a prefix of the longer page: raising the
      limit only adds recipes at the end. */
  lemma PagesArePrefixes(recipes: map<RecipeId, Recipe>, author: UserId, k: nat, m: nat)
    requires k <= m
    ensures RecipePage(recipes, author, Some(k)).value
         <= RecipePage(recipes, author, Some(m)).value
  {
    var all := RecipesByPubDate(recipes, author);
    if m < |all| {
      assert all[..k] == all[..m][..k];
    }
  }
}
