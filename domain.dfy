/**
 * The entities of the Foodgram backend (recipes/models.py, users/models.py)
 * as values, and the small vocabulary shared by the request handlers:
 * who is asking, which verb, which HTTP status comes back.
 */
module Domain {

  type UserId = int
  type RecipeId = int
  type IngredientId = int
  type TagId = int

  datatype Option<+T> = None | Some(value: T)

  /** A catalog entry: the ingredient's name and its measurement unit. */
  datatype Ingredient = Ingredient(name: string, measurementUnit: string)

  datatype Tag = Tag(name: string, color: string, slug: string)

  /** The scalar columns of a recipe row (image and pub_date are not modelled). */
  datatype Recipe = Recipe(id: RecipeId, author: UserId, name: string, text: string, cookingTime: int)

  /** One row of the RecipeIngredient through table. */
  datatype RecipeIngredient = RecipeIngredient(recipe: RecipeId, ingredient: IngredientId, amount: int)

  /** The viewer of a request: Django's anonymous user, or an authenticated user. */
  datatype Viewer = Anonymous | Member(id: UserId)

  /** The two verbs routed to the toggle actions. */
  datatype Verb = Post | Delete

  datatype Status = Ok200 | Created201 | NoContent204 | BadRequest400 | NotFound404 | ServerError500

  /** MinValueValidator(1) on Recipe.cooking_time and on RecipeIngredient.amount. */
  const MinCookingTime: int := 1
  const MinAmount: int := 1

  /**
   * `a` is `b` with some elements dropped and the rest kept in order: what
   * a `filter()` on a queryset returns.
   */
  ghost predicate IsSubsequence<T>(a: seq<T>, b: seq<T>)
    decreases |b|
  {
    |a| == 0 || (|b| > 0 && ((a[0] == b[0] && IsSubsequence(a[1..], b[1..])) || IsSubsequence(a, b[1..])))
  }

  lemma {:induction false} SubsequenceReflexive<T>(s: seq<T>)
    ensures IsSubsequence(s, s)
    decreases |s|
  {
    if |s| > 0 {
      SubsequenceReflexive(s[1..]);
    }
  }

  /** A prefix of a subsequence is a subsequence: slicing keeps the order. */
  lemma {:induction false} SubsequencePrefix<T>(a: seq<T>, b: seq<T>, k: nat)
    requires IsSubsequence(a, b) && k <= |a|
    ensures IsSubsequence(a[..k], b)
    decreases |b|
  {
    if k > 0 {
      if a[0] == b[0] && IsSubsequence(a[1..], b[1..]) {
        SubsequencePrefix(a[1..], b[1..], k - 1);
        assert a[..k][1..] == a[1..][..k - 1];
      } else {
        SubsequencePrefix(a, b[1..], k);
      }
    }
  }
}
