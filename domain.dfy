/** The rows of the recipe store (the Django models of `recipes` and
    `users`) as values, the bounds declared on their fields, and the
    Option/Result wrappers used for the error paths of the API. */
module Domain {

  type UserId = nat
  type TagId = nat
  type IngredientId = nat
  type RecipeId = nat

  /** A calendar day; `pub_date` is a date field filled in once, on insert. */
  type Date = int

  /** Bounds of `Recipe.cooking_time` (minutes). */
  const MinCookingTime: int := 1
  const MaxCookingTime: int := 1500

  /** Bounds of `IngredientAmount.amount`. */
  const MinAmount: int := 1
  const MaxAmount: int := 10000

  datatype User = User(email: string, username: string, firstName: string, lastName: string)

  datatype Tag = Tag(name: string, color: string, slug: string)

  datatype Ingredient = Ingredient(name: string, measurementUnit: string)

  /** A recipe row together with its many-to-many tag set. Its line items
      are separate rows (`LineItem`). */
  datatype Recipe = Recipe(
    author: UserId,
    name: string,
    text: string,
    cookingTime: int,
    pubDate: Date,
    tags: set<TagId>)

  /** An `IngredientAmount` row: `amount` of `ingredient` in `recipe`. */
  datatype LineItem = LineItem(ingredient: IngredientId, recipe: RecipeId, amount: int)

  /** A `Subscribe` row: `user` follows `author`. */
  datatype Subscription = Subscription(user: UserId, author: UserId)

  /** A `Favorite` or `ShoppingCart` row. */
  datatype Membership = Membership(user: UserId, recipe: RecipeId)

  /** The two tables built on the same abstract (user, recipe) model. */
  datatype MembershipKind = Favorite | ShoppingCart

  datatype Option<T> = None | Some(value: T)

  datatype Result<T, E> = Ok(value: T) | Err(error: E)
}
