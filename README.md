# Recipe store backend — a Dafny model

This project models the write path and the list queries of a Django REST
recipe-sharing backend (the `api`, `recipes` and `users` applications).
Users register, publish recipes made of ingredient line items and tags,
follow other authors, mark recipes as favourites and put them in a
shopping cart. The cart can be downloaded as a shopping list in which the
amounts of each ingredient are summed over the recipes in the cart.

The model has three layers:

- **Values and rules.**
  - `Domain` holds the rows of every table and the field bounds.
  - `Validators` models the three regular-expression validators by their
    meaning: a character class, a greedy run of it, and the end anchor (`\Z` or `$`).
  - `Fields` models what a DRF `CharField` does to text before any
    validator sees it: `trim_whitespace`, on by default, strips
    surrounding whitespace as Python's `str.strip()` does. Every character
    field of `SignUpSerializer` and `RecipeSerializer` is such a field.
  - `Composition` holds the recipe payload validation: first the field
    checks, all reported together, then `RecipeSerializer.validate`, which
    stops at the first failing check. It also holds the line items that
    `create_ingredients` inserts.
- **The database as a value.**
  - `Tables` holds the database value `Db`, the constraints each table
    declares (`TablesOk`), and the invariant the API's own pre-checks keep
    (`ApiOk`).
  - `Operations` has one function per write that gives either the error
    or the database afterwards. Each write has a `...Keeps` lemma saying it
    preserves `TablesOk` and `ApiOk`, and, where it matters, a `...Meaning`
    lemma saying which rows change and which stay.
  - `Queries` holds the subscription list and the per-author recipe page.
  - `ShoppingList` holds the grouped sum and the text file.
  - `Filters` holds the recipe list filters.
- **The database as an object.** `Database.Store` is a class whose fields
  are the tables. Its methods update them in place, and each is specified
  by the matching function of `Operations`. A method called on a store whose
  constraints hold leaves them holding. It also keeps the pre-check
  invariant when that held before the call.

Nothing in the model depends on the order in which the database returns
rows that it leaves unordered. Where such an order is needed, it is a
parameter, and lemmas show what does not depend on it
(`ShoppingList.ReportOrderIrrelevant`, `ShoppingList.AggregatePermutation`).

Some behaviours of the code are easy to mistake, so they are stated
here:

- An empty `ingredients` list passes validation. Nothing in the
  serializer asks for at least one ingredient
  (`Composition.EmptyIngredientListAccepted`).
- The recipe page of `get_recipes` holds the author's OLDEST recipes,
  because `Recipe.Meta.ordering` is ascending `pub_date`
  (`Queries.PageHoldsOldest`).
- Subscribing twice is refused before subscribing to oneself is checked,
  because DRF runs the unique-together validator before `validate`.
- Unsubscribing without a subscription is a bad request (400), not "not found".
- A recipe name must contain a letter of `[a-zA-Zа-яА-Я]`, not any Unicode
  letter. `ё` and `Ё` lie outside both ranges (`Validators.YoIsNotALetter`).
- `validate_tag_slug` uses `$`, so it accepts one trailing newline
  (`Validators.TrailingNewline`), while `validate_username` uses `\Z` and
  does not.
- Surrounding whitespace is stripped before the validators run and before
  anything is stored, so a username sent as `" bob\n"` is registered as
  `bob` (`Operations.PaddedUsernameSameOutcome`), and a recipe name is
  stored stripped (`Operations.CreateRecipeMeaning`).
- The `tags` filter offers as choices only the slugs of tags that some
  recipe carries. The slug of a tag no recipe carries makes the list
  request a bad request (400) instead of giving an empty list
  (`Filters.UnusedTagSlugRefused`).
- Favourites and cart rows are not unique in the database. The unique
  constraint sits on the abstract base model, and the subclasses' own
  `Meta` does not inherit it. Uniqueness is kept by the serializers'
  pre-checks only (`Tables.ApiOk`, `Operations.NoMultipleEntries`).
- The shopping list groups by ingredient id, not by (name, unit). Every
  line already ends in a newline and the lines are joined with a further
  newline, so consecutive lines are separated by an empty line
  (`ShoppingList.ReportSplit`).

## Model

| member | source | states |
|---|---|---|
| Validators.ContainsNameLetter | backend/api/validators.py:6-10 | true exactly when some character of the name is in `[a-zA-Zа-яА-Я]` |
| Validators.NameWithoutLettersRejected | backend/api/validators.py:6-10 | a name with no character of the two alphabets is refused |
| Validators.YoIsNotALetter | backend/api/validators.py:8 | `ё`/`Ё` alone and digits with punctuation are refused; a Cyrillic word is accepted |
| Validators.ValidUsername | backend/api/validators.py:13-19 | accepted exactly when the string is non-empty and every character is in `[\w.@+-]`; a trailing newline is refused (`\Z`) |
| Validators.ValidSlug | backend/api/validators.py:22-28 | accepted exactly when the string is a non-empty run of `[-a-zA-Z0-9_]`, optionally followed by one final newline (`$`) |
| Validators.EmptyRejected | backend/api/validators.py:13-28 | the empty string is neither a username nor a slug |
| Validators.TrailingNewline | backend/api/validators.py:13-28 | a valid slug plus a newline is still a slug, but never a username |
| Validators.SlugNewlineOnlyAtEnd | backend/api/validators.py:24 | only one newline, at the very end, is accepted; two newlines, or one in the middle, are refused |
| Validators.Span | backend/api/validators.py:15 | length of the longest prefix in a character class: every character before it is in the class, the next is not |
| Fields.TrimSplit | backend/api/serializers.py:217-230 | a stripped field is a middle piece of what was sent, and everything cut off before and after it is whitespace |
| Fields.TrimMeaning | backend/api/serializers.py:217-230 | a stripped field is empty exactly when what was sent is all whitespace, and otherwise starts and ends with a character that is not whitespace |
| Fields.TrimIdempotent | backend/api/serializers.py:217-230 | stripping an already stripped field changes nothing |
| Fields.TrimPadding | backend/api/serializers.py:217-230 | whitespace around a stripped text is removed and nothing else is |
| Fields.PaddedUsername | backend/api/serializers.py:22-27 | `" bob\n"` is received as `bob` |
| Collections.DistinctIffElemsSize | backend/api/serializers.py:247 | `len(tags) != len(set(tags))` holds exactly when the tag list repeats an element |
| Collections.SortedBy | backend/recipes/models.py:103 | a query ordered by a key lists every element of the set once, in ascending key order, ties by id |
| Composition.CompositionError | backend/api/serializers.py:241-264 | `validate` passes exactly when there are tags, no repeated tag, no repeated ingredient and a positive cooking time; each error is reported exactly when every earlier check passed and its own fails |
| Composition.ValidateComposition | backend/api/serializers.py:241-264 | the loop that collects ingredient ids into `ingredients_list` returns the same verdict as `CompositionError` |
| Composition.CheckRecipe | backend/api/serializers.py:133-149 | a payload is accepted exactly when it is well formed (existing tags and ingredients, amounts in [1, 10000], a valid name, cooking time in [1, 1500], no repeats); a field error names at least one field |
| Composition.EmptyIngredientListAccepted | backend/api/serializers.py:251-259 | a payload with no ingredients is accepted whenever its tags (any non-empty list of distinct existing tags), name and cooking time are valid |
| Composition.NewLineItems | backend/api/serializers.py:232-239 | one line item per payload entry, in order, with that entry's ingredient and amount and the new recipe |
| Tables.ItemsOf | backend/api/serializers.py:283 | the line items of one recipe are exactly those whose recipe it is |
| Tables.ItemsNotOf | backend/recipes/models.py:117-121 | the line items surviving a cascading recipe delete are exactly those of other recipes; unique (ingredient, recipe) pairs stay unique |
| Tables.ItemsNotOfKeepsOthers | backend/api/serializers.py:283 | deleting one recipe's line items leaves every other recipe's line items as they were, in order |
| Tables.AppendItemsOf | backend/api/serializers.py:232-239 | after appending a new recipe's items, that recipe's items are exactly the appended ones and every other recipe's are unchanged |
| Tables.ItemsWithoutIngredient | backend/recipes/models.py:112-116 | the line items surviving a cascading ingredient delete are exactly those of other ingredients; uniqueness kept |
| Tables.RowsNotOf | backend/recipes/models.py:157-162 | favourite/cart rows surviving deleted users and recipes are exactly those of neither; no duplicates appear |
| Tables.RowsExcept | backend/api/views.py:131 | deleting a row removes every copy of it and nothing else |
| Tables.UniquePairsAppend | backend/recipes/models.py:139-143 | two lists without repeated (ingredient, recipe) pairs and without a common pair concatenate into such a list |
| Queries.Following | backend/api/views.py:48 | the authors listed are exactly those `user` has a subscription to |
| Queries.SubscriptionList | backend/api/views.py:45-53 | the subscription list holds exactly the followed authors, by ascending id (`User.Meta.ordering`) |
| Queries.RecipesByPubDate | backend/recipes/models.py:103 | an author's recipes, each once, by non-decreasing publication date |
| Queries.RecipePage | backend/api/serializers.py:70-77 | a negative limit is an error; otherwise the page is a prefix, without repeats, of the author's recipes by date; no limit gives exactly the author's recipes; a limit gives min(limit, count) of them |
| Queries.PageHoldsOldest | backend/api/serializers.py:74-76 | no recipe left off a limited page was published before one on it |
| Queries.PagesArePrefixes | backend/api/serializers.py:74-76 | raising the limit only appends recipes: the smaller page is a prefix of the larger |
| ShoppingList.Aggregate | backend/api/views.py:156-164 | one group per ingredient with a joined line item; each group holds the sum of its joined amounts |
| ShoppingList.TotalPermutation | backend/api/views.py:156-164 | a total does not depend on the order the line items are met in |
| ShoppingList.AggregatePermutation | backend/api/views.py:156-164 | the grouped totals do not depend on the order of the line items |
| ShoppingList.TotalIsCartSum | backend/api/views.py:156-160 | with at most one cart row per recipe, each total is the plain sum of that ingredient's amounts over the recipes in the cart |
| ShoppingList.TotalAddRow | backend/api/views.py:156-164 | one more cart row for a recipe adds that recipe's amount of the ingredient to its total |
| ShoppingList.TwoRecipeExample | backend/api/views.py:156-164 | flour 200 and 100 from two carted recipes sum to 300, salt gives 5, and a recipe in another user's cart is ignored |
| ShoppingList.NatToString | backend/api/views.py:165 | `str(n)`: non-empty decimal digits, no leading zero |
| ShoppingList.NatToStringRoundTrip | backend/api/views.py:165 | reading the printed total back gives the total |
| ShoppingList.IntToString | backend/api/views.py:165 | `str(i)` starts with a minus sign exactly for negative numbers |
| ShoppingList.Line | backend/api/views.py:165-166 | every rendered line ends in a newline |
| ShoppingList.ReportEmptyIff | backend/api/views.py:168 | the file is empty exactly when there are no groups |
| ShoppingList.ReportSplit | backend/api/views.py:165-168 | the file splits at any group boundary with an extra newline after a line that already ends in one |
| ShoppingList.ReportEndsWithNewline | backend/api/views.py:165-168 | a non-empty file ends in a newline |
| ShoppingList.ReportSingle | backend/api/views.py:165-168 | one group gives exactly its line |
| ShoppingList.Entries | backend/api/views.py:161-163 | one entry per group in the given order, with the ingredient's name, unit and total |
| ShoppingList.ReportOrderIrrelevant | backend/api/views.py:156-168 | whatever order the database returns the groups in, the file holds the same lines, each as often |
| ShoppingList.EmptyCartEmptyReport | backend/api/views.py:155-168 | a user with an empty cart gets an empty file |
| ShoppingList.CartRecipes | backend/api/views.py:158 | the recipes in the user's cart are exactly those with a cart row of that user |
| Filters.MembershipFilter | backend/api/filters.py:26-34 | a subset of the input; with a signed-in user and a true value exactly the recipes with that user's row; otherwise everything |
| Filters.FilterIsFavorited | backend/api/filters.py:26-29 | (corrected lookup) with a signed-in user and a true value, exactly the user's favourites among the input; otherwise the input |
| Filters.FilterIsFavoritedAsWritten | backend/api/filters.py:26-29 | the lookup `favorite__user` is refused exactly when the filter would apply; otherwise the input comes back |
| Filters.FavoritedFilterAsWrittenFails | backend/api/filters.py:28 | a signed-in user asking for favourites gets an error as written, and their favourite under the corrected lookup |
| Filters.FilterIsInShoppingCart | backend/api/filters.py:31-34 | with a signed-in user and a true value, exactly the recipes in that user's cart among the input; otherwise the input |
| Filters.FilterAuthor | backend/api/filters.py:8 | a subset of the input; with an author, exactly that author's recipes; without, everything |
| Filters.SlugChoices | backend/api/filters.py:17 | the choices of the `tags` filter are exactly the slugs of the tags some recipe carries |
| Filters.FilterTags | backend/api/filters.py:17 | refused, naming a slug that is not a choice, exactly when some slug is not a choice; otherwise a subset of the input: with slugs, exactly the recipes carrying a tag with any of them; without, everything |
| Filters.FilterTagsUnion | backend/api/filters.py:17 | asking for the slugs of two lists is refused exactly when one list is refused, and otherwise keeps the union of what each keeps |
| Filters.UnusedTagSlugRefused | backend/api/filters.py:17 | the slug of an existing tag that no recipe carries is refused, not answered with an empty list |
| Filters.ApplyRecipeFilterMeaning | backend/api/filters.py:5-34 | the query is refused exactly when some tag slug is not a choice; otherwise the chained filters keep exactly the recipes meeting every condition |
| Filters.MembershipFilterIdempotent | backend/api/filters.py:26-29 | applying a membership filter twice is applying it once |
| Filters.MembershipFiltersCommute | backend/api/filters.py:26-34 | the favourite and cart filters commute |
| Operations.UserFieldErrors | backend/users/models.py:16-24 | the email is refused exactly when taken; the username exactly when it fails `validate_username` or is taken |
| Operations.RegisterUserKeeps | backend/users/models.py:11-24 | a user is added exactly when no field of the stripped payload is refused; the row stored is the stripped payload, under a fresh id, and the constraints keep holding |
| Operations.RegisterUserIgnoresPadding | backend/api/serializers.py:22-27 | signing up with a payload and with that payload stripped gives the same outcome |
| Operations.PaddedUsernameSameOutcome | backend/api/serializers.py:22-27 | a username padded with whitespace is registered, or refused, exactly as the bare username |
| Operations.TagFieldErrors | backend/recipes/models.py:20-31 | the name is refused exactly when taken; the slug exactly when it fails `validate_tag_slug` or is taken |
| Operations.CreateTagKeeps | backend/recipes/models.py:20-31 | a tag is added exactly when no field is refused, under a fresh id, and the constraints keep holding |
| Operations.CreateIngredientKeeps | backend/recipes/models.py:41-56 | an ingredient is added exactly when no ingredient has the same name and unit, under a fresh id, and the constraints keep holding |
| Operations.CreateRecipe | backend/api/serializers.py:266-277 | creation fails exactly when the payload, name and text stripped, is not well formed |
| Operations.CreateRecipeIgnoresPadding | backend/api/serializers.py:217-230 | creating from a payload and from that payload stripped gives the same outcome |
| Operations.NewLineItemsUnique | backend/api/serializers.py:232-239 | with no repeated ingredient the inserted line items repeat no pair and all belong to the new recipe |
| Operations.CreateRecipeMeaning | backend/api/serializers.py:266-277 | the new recipe gets a fresh id, the requester as author, the stripped name and text, the payload's cooking time, tag set and exactly its line items; other recipes' line items are unchanged |
| Operations.CreateRecipeKeeps | backend/api/serializers.py:266-277 | creating a recipe keeps every constraint and the pre-check invariant |
| Operations.UpdateRecipe | backend/api/serializers.py:279-285 | an update fails exactly for a missing recipe (not found) or a payload that, name and text stripped, is not well formed |
| Operations.UpdateRecipeMeaning | backend/api/serializers.py:279-285 | the recipe's line items become exactly the new list, others keep theirs, author and date stay, name and text become the stripped ones, cooking time and tags are replaced, other recipes are untouched |
| Operations.UpdateRecipeItemsOk | backend/api/serializers.py:283-284 | the line items after an update fit the recipes and ingredients tables and repeat no pair |
| Operations.UpdateRecipeKeeps | backend/api/serializers.py:279-285 | updating a recipe keeps every constraint and the pre-check invariant |
| Operations.DeleteRecipe | backend/recipes/models.py:117-121 | deleting fails exactly for a missing recipe |
| Operations.DeleteRecipeMeaning | backend/recipes/models.py:154-162 | the recipe goes, and with it exactly its line items, favourite rows and cart rows |
| Operations.DeleteRecipeKeeps | backend/recipes/models.py:109-169 | deleting a recipe keeps every constraint and the pre-check invariant |
| Operations.DeleteIngredient | backend/recipes/models.py:112-116 | deleting fails exactly for a missing ingredient |
| Operations.DeleteIngredientMeaning | backend/recipes/models.py:112-116 | the ingredient goes, and with it exactly the line items that use it |
| Operations.DeleteIngredientKeeps | backend/recipes/models.py:112-116 | deleting an ingredient keeps every constraint and the pre-check invariant |
| Operations.DeleteUser | backend/recipes/models.py:65-70 | deleting fails exactly for a missing user |
| Operations.DeleteUserMeaning | backend/users/models.py:46-56 | the user goes with exactly their recipes, every subscription from or to them, and the line items, favourite and cart rows of deleted users and recipes |
| Operations.DeleteUserKeeps | backend/recipes/models.py:154-162 | deleting a user keeps every constraint and the pre-check invariant |
| Operations.Subscribe | backend/api/views.py:55-66 | unknown author: not found; existing subscription: duplicate; oneself: refused, in that order; success adds exactly that author to the user's following and changes no one else's |
| Operations.SubscribeKeeps | backend/users/models.py:46-62 | subscribing keeps every constraint, and nobody follows themselves |
| Operations.Unsubscribe | backend/api/views.py:67-75 | unknown author: not found; no subscription: bad request; success removes exactly that author from the user's following |
| Operations.UnsubscribeKeeps | backend/api/views.py:67-75 | unsubscribing keeps every constraint and the pre-check invariant |
| Operations.SubscribeThenUnsubscribe | backend/api/views.py:55-75 | unsubscribing right after subscribing succeeds and restores the database |
| Operations.AddMembership | backend/api/views.py:117-123 | unknown recipe: error; existing row: refused; otherwise exactly one row is added to that table and the other table is untouched |
| Operations.AddMembershipKeeps | backend/api/serializers.py:300-310 | adding a favourite or cart row keeps every constraint, and the rows stay unique |
| Operations.RemoveMembership | backend/api/views.py:125-132 | unknown recipe: not found; no row: not found; several rows: error; one row: exactly that row is removed and the other table is untouched |
| Operations.RemoveMembershipKeeps | backend/api/views.py:125-132 | removing a row keeps every constraint and the pre-check invariant |
| Operations.NoMultipleEntries | backend/api/views.py:128-130 | while the pre-checks hold, the lookup never finds several rows |
| Operations.AddThenRemove | backend/api/views.py:117-132 | removing a row right after adding it succeeds and restores the rows |
| Operations.AggregateKeysExist | backend/api/views.py:156-164 | every ingredient on the shopping list exists |
| Operations.NothingJoinedIff | backend/api/views.py:156-164 | the list has no group exactly when no line item belongs to a recipe in the user's cart |
| Operations.DownloadShoppingCart | backend/api/views.py:152-172 | the file is empty exactly when no line item belongs to a recipe in the user's cart |
| Operations.ShoppingTotalsAreCartSums | backend/api/views.py:156-160 | while the pre-checks hold, each total is the sum of the ingredient's amounts over the recipes in the cart |
| Operations.CartAddRaisesTotals | backend/api/views.py:142-146 | putting a recipe in the cart raises each ingredient's total by its amount in that recipe |
| Database.Store.RegisterUser | backend/users/models.py:11-24 | the table update of `Operations.RegisterUser`; returns the new id; constraints kept |
| Database.Store.CreateTag | backend/recipes/models.py:20-31 | the table update of `Operations.CreateTag`; returns the new id; constraints kept |
| Database.Store.CreateIngredient | backend/recipes/models.py:41-56 | the table update of `Operations.CreateIngredient`; returns the new id; constraints kept |
| Database.Store.Validate | backend/api/serializers.py:241-264 | the field checks and then `validate`, with its loop, give `CheckRecipe`'s verdict against the current tables: no error exactly when the payload is well formed |
| Database.Store.CreateRecipe | backend/api/serializers.py:266-277 | stripping, validation and the inserts of `Operations.CreateRecipe`; returns the new id; constraints kept |
| Database.Store.UpdateRecipe | backend/api/serializers.py:279-285 | look-up, stripping, validation, line-item replace and field overwrite of `Operations.UpdateRecipe`; constraints kept |
| Database.Store.DeleteRecipe | backend/recipes/models.py:117-121 | the cascading delete of `Operations.DeleteRecipe`; constraints kept |
| Database.Store.DeleteIngredient | backend/recipes/models.py:112-116 | the cascading delete of `Operations.DeleteIngredient`; constraints kept |
| Database.Store.DeleteUser | backend/users/models.py:46-56 | the cascading delete of `Operations.DeleteUser`; constraints kept |
| Database.Store.Cascade | backend/recipes/models.py:65-70 | leaves the tables exactly as `Operations.DeleteUser` computes them |
| Database.Store.Subscribe | backend/api/views.py:55-66 | the checks and insert of `Operations.Subscribe`; constraints kept |
| Database.Store.Unsubscribe | backend/api/views.py:67-75 | the checks and delete of `Operations.Unsubscribe`; constraints kept |
| Database.Store.AddMembership | backend/api/views.py:117-123 | the checks and insert of `Operations.AddMembership` in the favourites or the cart; constraints kept |
| Database.Store.RemoveMembership | backend/api/views.py:125-132 | the look-up and delete of `Operations.RemoveMembership`; constraints kept |

## Findings

| source | as written | input that shows it | evidently intended | confidence | as-written member | corrected member |
|---|---|---|---|---|---|---|
| backend/api/filters.py:28 | `filter_is_favorited` filters on `favorite__user`, but `Favorite` declares `default_related_name = 'in_favorite'` (backend/recipes/models.py:190), so the reverse relation of `Recipe` is `in_favorite` and the lookup `favorite` names nothing | a signed-in user requests `?is_favorited=1`; the query layer refuses the lookup instead of returning the favourites | filter on `in_favorite__user`, as the cart filter does with `shopping_cart__user` | medium: rests on Django's naming of reverse relations; not executed | Filters.FilterIsFavoritedAsWritten, Filters.FavoritedFilterAsWrittenFails | Filters.FilterIsFavorited |

## Left out

- Images and the Base64 image field: file storage, not data logic.
- `Recipe.ingredients`, the many-to-many field to `Ingredient` that the serializers never write. Line items (`IngredientAmount`) are what is stored and read.
- Presentation serializers (`RecipeListSerializer`, `ProfileUserSerializer`, `ShortRecipeSerializer`, the `to_representation` methods, `is_subscribed`, `recipes_count`): read-only rendering.
- Authentication, djoser, passwords and the permission classes: the requesting user is a parameter. The serializers' branch for an anonymous user is not modelled.
- Transactions (`@atomic`) and concurrency: every operation is one atomic step. Duplicate favourite or cart rows, which the database does not forbid, can arise from concurrent requests and from the admin site, whose plain model forms for `Favorite` and `ShoppingCart` (backend/recipes/admin.py:15 and :80) check no uniqueness. The model still allows them, and `RemoveMembership` reports them.
- The CSV import commands, the admin site, URL routing and pagination of the subscription list. Tags and ingredients are modelled as inserts into their tables; the whitespace stripping of the admin forms that create them is not modelled.
- `max_length` of every character field, the email format check, `blank=False` and the tag colour field: each is a framework field check outside the core logic.
- Django's built-in validator of `SlugField`, which uses `\Z` and therefore refuses the trailing newline that `validate_tag_slug` allows. It is framework code, so `Operations.TagFieldErrors` applies `validate_tag_slug` only. Tags are never created through the API.
- Python's `\w` is approximated by ASCII letters, digits, `_` and the Cyrillic block U+0400–U+045F.
- PATCH (partial update): the model's update always carries a full payload.
- An ingredient entry without `amount`. The model field's default makes the key optional, so `AddIngredientSerializer.validate` reads a missing key (backend/api/serializers.py:145) and the request ends in a server error. Every entry of the model carries an amount.
- The order of recipes with equal `pub_date`: the database leaves it open; the model breaks ties by id.
- `recipe_limit` parsing: the text is taken as an already parsed optional integer. Non-numeric text, an error of `int()`, is not modelled. An absent or empty value is `None`.
- Registration is modelled as the insert into the users table with its unique and validator checks. Djoser's password handling is not.
- Database.Store methods: each promises to keep the constraints only when they held before the call (`old(Valid()) ==> Valid()`), rather than requiring them. Callers need not establish them first, which matches the source.
- Database.Store.Cascade computes the rows to delete with `Operations.DeleteUser` instead of repeating the cascade step by step. The other methods spell out their updates.
