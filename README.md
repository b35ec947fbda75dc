# Foodgram backend core, modelled in Dafny

Foodgram is a recipe-sharing backend built with Django REST Framework. Users
publish recipes made of catalog ingredients (each with an amount) and tags.
They mark recipes as favorites or put them in a shopping cart, and follow
other authors. They can download a shopping list that sums the ingredients of
every recipe in their cart.

This project models the logic of that API over an abstract database:

- The tables are Dafny values. Favorites, cart and follows are sets of id
  pairs. Recipe tags are a set of (recipe, tag) links. The RecipeIngredient
  through table is a sequence of rows in insertion order. The catalogs are
  maps from ids.
- The handlers that change those tables are methods of the class
  `Store.Database`, which owns them as fields. Each method is specified by a
  pure step or table function, and the properties are proved about those
  functions.

The files:

- `domain.dfy`: the entities (ingredient, tag, recipe, ingredient row), the
  viewer of a request, the verbs and HTTP statuses, and the two minimum-value
  constants of the model files.
- `serializers.dfy`: the write pipeline of `RecipePostSerializer`, the rows
  and tag links written by `create` and `update`, the viewer flags,
  `UserFollowSerializer.validate`, and `get_recipes` / `get_recipes_count`.
- `views.dfy`: the transitions of the favorite, shopping-cart and subscribe
  toggles, the grouped sum behind the shopping list, and its text layout.
- `store.dfy`: the `Database` class. Its invariant holds the foreign keys
  and the `MinValueValidator(1)` columns. Its methods are `create_ingredients`,
  `create`, `update`, `_add_del_obj`, `favorite`, `shopping_cart`,
  `subscribe` and `download_shopping_cart`. `CheckedSubscribe` is
  `subscribe` corrected to run the follow validation first (see Findings).
- `permissions.dfy`: the two object-level permission predicates.
- `filters.dfy`: the `is_favorited` and `is_in_shopping_cart` recipe filters.

How validation runs follows Django REST Framework:

- First the field-level checks run, and all of their failures are reported
  together:
  - a missing required key;
  - the `name` and `text` character fields that ModelSerializer builds from
    the model columns. Each is trimmed of whitespace (Python's `str.strip()`)
    and refused when blank. Otherwise the trimmed value is refused when it is
    longer than its `max_length` (200 for the name, 1000 for the text), when
    it holds a U+0000 character, or both at once;
  - `validate_cooking_time` and `validate_ingredients`;
  - an unknown tag primary key.
- Then the object-level `validate` runs and stops at its first problem:
  - An unknown ingredient id is a 404, from `get_object_or_404` inside the
    loop.
  - A repeated ingredient is a 400.
  - An empty tag list is a 400.
- Tags reach `validate` already resolved to rows by `PrimaryKeyRelatedField`.
  The lookup by tag name at api/serializers.py:133-137 therefore always
  succeeds (`ResolvedTagsPassNameCheck`).
- `validate` reads `data['ingredients']` and `data['tags']` unconditionally.
  So a PATCH that leaves out either key fails with a `KeyError`, a 500
  (`PartialWriteNeedsBothLists`).
  - Because of this, the "key absent" branches of `update` cannot be reached
    through the API. `Store.Database.Update` still models them, and is proved
    for any write whose present fields the tables accept.

The shopping-list query has no `order_by`, so the order of its lines is not
fixed. `Views.Aggregate` keeps the order in which each (name, unit) group
first appears. Every property proved about it holds whatever the order.

Some inputs enter as parameters:

- The current date: `datetime.today()` becomes a `Views.Date`.
- The user's full name and username.
- The `recipes_limit` query parameter, as an `Option<int>`. `None` stands for
  a parameter that is absent or empty.

## Model

| member | source | states |
|---|---|---|
| Serializers.ValidateCookingTime | backend/foodgram/api/serializers.py:140-145 | a cooking time is accepted iff it is at least 1, and then it is returned unchanged; otherwise the only error is "cooking time too small" |
| Serializers.ValidateIngredients | backend/foodgram/api/serializers.py:147-157 | an ingredient list is accepted iff it is non-empty and every amount is at least 1, and then it is returned unchanged; an empty list is refused as empty and a low amount as too small |
| Serializers.CheckIngredients | backend/foodgram/api/serializers.py:116-127 | the loop over the entries, keeping the list of ingredients seen so far, stops at the same first problem as the reference definition `IngredientProblem`; it finds none iff every id is in the catalog and no id repeats |
| Serializers.IngredientProblemNoneIff | backend/foodgram/api/serializers.py:117-127 | the ingredient check passes iff all ids exist in the catalog and are pairwise distinct |
| Serializers.PrefixProblemPersists | backend/foodgram/api/serializers.py:119-127 | once a prefix of the entries has raised, later entries cannot change the outcome (the loop stops at the first raise) |
| Serializers.KnownIdsNeverNotFound | backend/foodgram/api/serializers.py:119-122 | when every id exists in the catalog, the check never answers not-found |
| Serializers.DistinctIdsNeverDuplicate | backend/foodgram/api/serializers.py:123-127 | when no id repeats, the check never reports a duplicate |
| Serializers.IngredientCheckVerdicts | backend/foodgram/api/serializers.py:119-127 | distinct ids with an unknown one give not-found; known ids with a repeat give duplicate |
| Serializers.IngredientProblemValues | backend/foodgram/api/serializers.py:119-127 | the check ends with no problem, not-found or duplicate, and nothing else |
| Serializers.ResolvedTagsPassNameCheck | backend/foodgram/api/serializers.py:128-137 | on resolved tags the tag part of validate passes iff the list is non-empty; an empty list is refused |
| Serializers.ValidateWrite | backend/foodgram/api/serializers.py:101-157 | whatever passes the whole pipeline comes back with only its name and text trimmed |
| Serializers.ValidWriteAccepted | backend/foodgram/api/serializers.py:116-157 | the converse of AcceptedWrite: a write whose fields pass, whose ingredient ids are known and distinct and whose tag list is non-empty is accepted |
| Serializers.ValidatedDataRevalidates | backend/foodgram/api/serializers.py:101-157 | the data validation hands to create and update passes validation again unchanged |
| Serializers.Strip | backend/foodgram/recipes/models.py:40-47 | the trimmed value is the input with a whitespace prefix and a whitespace suffix cut off; it is empty iff the input is all whitespace, and otherwise starts and ends with a non-space character, so exactly the surrounding whitespace is gone |
| Serializers.StripKeepsNull | backend/foodgram/recipes/models.py:40-47 | the trimmed value holds U+0000 iff the input does |
| Serializers.StripIdempotent | backend/foodgram/recipes/models.py:40-47 | trimming an already trimmed value changes nothing |
| Serializers.ValidateChars | backend/foodgram/recipes/models.py:40-47 | a name or text is accepted iff its trimmed value is non-empty and within max_length and it holds no U+0000, and is then handed on trimmed; a blank value is refused as blank alone; otherwise the refusal names exactly the failed checks among too long and U+0000 |
| Serializers.CharFieldsRefused | backend/foodgram/recipes/models.py:40-47 | a blank or over-long name or text, or a non-blank one holding U+0000, always makes the write fail, with that reason among the reasons |
| Serializers.IngredientProblem | backend/foodgram/api/serializers.py:116-127 | the reference definition of the ingredient loop: walking the entries in order, an unknown id is not-found and an id seen before is a duplicate, and the first of these wins |
| Serializers.TagProblem | backend/foodgram/api/serializers.py:128-137 | the tag part of validate: an empty list is refused, then every tag's name is looked up in the catalog |
| Serializers.AcceptedWrite | backend/foodgram/api/serializers.py:116-157 | an accepted write has a non-empty list of distinct, existing ingredients with amounts of at least 1, a non-empty list of existing tags, a cooking time of at least 1, a non-blank name and text within their max_length and free of U+0000 and, when it creates, every required field |
| Serializers.DuplicateIngredientRefused | backend/foodgram/api/serializers.py:123-126 | with the fields valid and the ids known, a repeated ingredient id is refused with exactly that error, a 400 |
| Serializers.UnknownIngredientNotFound | backend/foodgram/api/serializers.py:119-122 | with the fields valid and the ids distinct, an unknown ingredient id answers 404 |
| Serializers.EmptyTagsRefused | backend/foodgram/api/serializers.py:128-132 | with the ingredients in order, an empty tag list is refused |
| Serializers.OutOfRangeRefused | backend/foodgram/api/serializers.py:140-157 | a cooking time below 1, an empty ingredient list or an amount below 1 always makes the write fail, with that error among its reasons |
| Serializers.PartialWriteNeedsBothLists | backend/foodgram/api/serializers.py:116-128 | a partial write without ingredients or without tags never passes; when its fields are valid and its ingredients pass, it fails only with the missing key, a 500 |
| Serializers.RowsWithout | backend/foodgram/api/serializers.py:178 | clearing a recipe's ingredients keeps exactly the rows of the other recipes |
| Serializers.RowsOf | backend/foodgram/recipes/models.py:76-89 | a recipe's rows are exactly the rows of the table that refer to it |
| Serializers.RowsForRoundTrip | backend/foodgram/api/serializers.py:159-165 | the inserted rows give back the submitted (id, amount) entries, in submission order, one row per entry |
| Serializers.RowsOfAbsent | backend/foodgram/api/serializers.py:167-172 | a recipe that no row refers to (a fresh one) has no ingredient rows |
| Serializers.RowsOfConcat | backend/foodgram/api/serializers.py:159-165 | appending rows appends to each recipe's rows |
| Serializers.RowsForOwnership | backend/foodgram/api/serializers.py:159-165 | rows inserted for a recipe belong to it and to no other recipe |
| Serializers.RowsWithoutOwnership | backend/foodgram/api/serializers.py:178 | after clearing, the recipe has no rows and every other recipe keeps its rows |
| Serializers.ReplaceIngredients | backend/foodgram/api/serializers.py:176-179 | clearing then inserting leaves the recipe with exactly the new rows, and every other recipe with its old rows |
| Serializers.AppendIngredients | backend/foodgram/api/serializers.py:167-173 | inserting the entries of a recipe that had no rows gives it exactly those rows and leaves the other recipes' rows alone |
| Serializers.SetTags | backend/foodgram/api/serializers.py:180-183 | setting the tags makes the recipe's tag set equal to the submitted tags and leaves every other recipe's tags alone |
| Serializers.IsFavorited | backend/foodgram/api/serializers.py:223-227 | is_favorited: the viewer is signed in and (viewer, recipe) is a Favorites row |
| Serializers.IsInShoppingCart | backend/foodgram/api/serializers.py:229-233 | is_in_shopping_cart: the viewer is signed in and (viewer, recipe) is a Cart row |
| Serializers.IsSubscribed | backend/foodgram/api/serializers.py:52-56 | is_subscribed: there is a request, its viewer is signed in, and (viewer, user) is a Follow row |
| Serializers.FlagsAreMembership | backend/foodgram/api/serializers.py:223-233 | is_favorited and is_in_shopping_cart are false for an anonymous viewer, and otherwise mean that (viewer, recipe) is in Favorites or Cart |
| Serializers.SubscribedIsMembership | backend/foodgram/api/serializers.py:52-56 | is_subscribed is false without a request or for an anonymous viewer, and otherwise means that (viewer, user) is a Follow row |
| Serializers.ValidateFollow | backend/foodgram/api/serializers.py:265-278 | a follow is admitted iff it does not exist yet and is not a self follow; an existing follow is reported first, then a self follow |
| Serializers.AuthorRecipesSpec | backend/foodgram/api/serializers.py:283-286 | the author's recipes are exactly the listed recipes whose author it is, in the listing's order |
| Serializers.AuthorRecipesMultiplicity | backend/foodgram/api/serializers.py:283-286 | each recipe by the author occurs among the author's recipes exactly as many times as in the listing, and no other recipe occurs |
| Serializers.AuthorRecipesCount | backend/foodgram/api/serializers.py:301-303 | the author's recipes are as many as the listing's positions that hold a recipe by the author |
| Serializers.GetRecipes | backend/foodgram/api/serializers.py:280-290 | without a limit, all the author's recipes; with a limit L ≥ 0, the first min(L, count) of them; a negative limit is an error |
| Serializers.LimitedRecipesAreTheAuthors | backend/foodgram/api/serializers.py:280-303 | every recipe returned is the author's, there are at most L with a limit, never more than recipes_count, and they keep the listing's order |
| Serializers.GetRecipesCount | backend/foodgram/api/serializers.py:301-303 | recipes_count is the number of positions of the listing holding a recipe by the author; so it is at most the size of the listing, and zero exactly when the author has no recipe in it |
| Views.AddDelStep | backend/foodgram/api/views.py:28-41 | the toggle as a transition: 404 for an unknown target, POST on an absent pair adds it with 201, DELETE on a present pair removes it with 204, anything else is a 400 |
| Views.AddDelTouchesOnlyItsPair | backend/foodgram/api/views.py:28-41 | a toggle changes no row other than the acting user's pair with the target |
| Views.AddDelStatusMeansState | backend/foodgram/api/views.py:28-41 | 201 iff POST on an existing target whose pair is absent, and then the pair is added; 204 iff DELETE on a present pair, and then it is removed; 404 iff the target is unknown; 400 and 404 change nothing |
| Views.AddDelRoundTrip | backend/foodgram/api/views.py:31-41 | POST then DELETE restores the table; a second POST is a 400; a DELETE of an absent pair is a 400 |
| Views.FlagsFollowToggle | backend/foodgram/api/views.py:31-39 | after a 201 the viewer flag reads true, after a 204 false, and a refused request leaves it as it was |
| Views.SubscribeStep | backend/foodgram/api/views.py:146-160 | subscribe as a transition: 404 for an unknown author; POST adds the follow with 200, or fails with 500 when it exists; DELETE removes an existing follow with 204, or answers 404 |
| Views.CheckedSubscribeStep | backend/foodgram/api/views.py:150-156 | subscribe with the follow validation run before the create: a refused follow is a 400 and changes nothing |
| Views.SubscribeTransitions | backend/foodgram/api/views.py:146-160 | subscribe touches only the (user, author) pair; 200 iff POST for an existing author with no follow yet, which adds it; 500 iff POST when the follow exists; 204 iff DELETE of an existing follow, which removes it; 500 and 404 change nothing |
| Views.SubscribeAdmitsSelfFollow | backend/foodgram/api/views.py:150-156 | a user's POST to subscribe to themself is answered 200 and stored, although the follow validation refuses it |
| Views.CheckedSubscribeNeverSelfFollows | backend/foodgram/api/serializers.py:265-278 | with the follow validation run first, subscribe never stores a self follow and never answers 500, and it creates a follow iff validation admits it |
| Views.CartRows | backend/foodgram/api/views.py:87-89 | the rows selected are exactly the rows of recipes in the user's cart |
| Views.Aggregate | backend/foodgram/api/views.py:87-92 | the grouped sum: the rows folded one by one into lines keyed by (name, unit) |
| Views.AddToSpec | backend/foodgram/api/views.py:87-92 | adding an amount to a group creates the group if it is new, raises only that group's sum, and keeps the groups distinct |
| Views.AmountOfAt | backend/foodgram/api/views.py:87-92 | with distinct groups, each line holds its group's amount |
| Views.AggregateSpec | backend/foodgram/api/views.py:87-92 | the grouped sum has one line per (name, unit) occurring among the rows, no group twice, and each group's amount equals the reference sum `Total` |
| Views.ShoppingListLines | backend/foodgram/api/views.py:87-92 | the shopping list has one line per distinct (name, unit) among the cart's rows, and each line's amount is the sum of all matching rows |
| Views.SharedIngredientIsSummed | backend/foodgram/api/views.py:87-92 | two cart recipes that both use 5 g and 3 g of salt give the single line "- salt (g) - 8" |
| Views.NatToStringRoundTrip | backend/foodgram/api/views.py:100-103 | an amount is rendered as decimal digits without a leading zero that read back as the amount |
| Views.TwoDigitsRoundTrip | backend/foodgram/api/views.py:97 | %m and %d render as exactly two digits that read back as the month or day |
| Views.FormatDateRoundTrip | backend/foodgram/api/views.py:97 | the date renders as the year, a dash, two digits of month, a dash and two digits of day, and each field reads back |
| Views.Header | backend/foodgram/api/views.py:95-98 | the header: "Список покупок для: ", the full name, a blank line, "Дата: ", the date and a blank line |
| Views.RenderLine | backend/foodgram/api/views.py:100-103 | one line: "- ", the name, " (", the unit, ") - " and the amount |
| Views.Footer | backend/foodgram/api/views.py:107 | the footer: a blank line, then "Foodgram (" with the year and ")" |
| Views.ShoppingListFilename | backend/foodgram/api/views.py:109 | the attachment is named after the username, followed by "_shopping_list.txt" |
| Views.JoinContains | backend/foodgram/api/views.py:100-105 | every part joined by newlines occurs in the joined text |
| Views.ShoppingListLayout | backend/foodgram/api/views.py:95-107 | the text starts with the header, ends with the footer and contains every rendered line |
| Store.Database.CreateIngredients | backend/foodgram/api/serializers.py:159-165 | appends exactly one row per entry, in submission order, and keeps the table constraints |
| Store.Database.Create | backend/foodgram/api/serializers.py:167-173 | given validated data, adds a fresh recipe by the requesting author; its tag set is the submitted tags and its rows are one per entry in order; no other recipe's rows or tags change |
| Store.Database.InsertRecipe | backend/foodgram/api/serializers.py:167-173 | the writes of create for any data the table constraints accept: a fresh recipe, its tag links and one row per entry in order, and nothing else changes |
| Store.Database.Update | backend/foodgram/api/serializers.py:175-185 | present ingredients replace the recipe's rows wholesale and present tags replace its tag set; an absent key leaves that association unchanged; present scalar fields are replaced; other recipes are untouched |
| Store.Database.SetIngredients | backend/foodgram/api/serializers.py:176-179 | after clearing and re-inserting, the recipe's rows are exactly the submitted entries in order, and every other recipe keeps its rows |
| Store.Database.SetRecipeTags | backend/foodgram/api/serializers.py:180-183 | after tags.set the recipe's tag set is exactly the submitted tags, and every other recipe keeps its tags |
| Store.Database.AddDel | backend/foodgram/api/views.py:28-41 | the chosen table and the status are the toggle transition of that table, and the other table is unchanged |
| Store.Database.Favorite | backend/foodgram/api/views.py:67-71 | the toggle transition on Favorites, with the cart unchanged |
| Store.Database.ShoppingCart | backend/foodgram/api/views.py:73-77 | the toggle transition on Cart, with the favorites unchanged |
| Store.Database.Subscribe | backend/foodgram/api/views.py:146-160 | the Follow table and the status are the subscribe transition |
| Store.Database.CheckedSubscribe | backend/foodgram/api/serializers.py:265-278 | the Follow table and the status are the checked subscribe transition, and a table without self follows keeps none |
| Store.Database.DownloadShoppingCart | backend/foodgram/api/views.py:79-113 | an empty cart is a 400 with no text; otherwise the attachment is named after the user and its body is the header, the grouped lines of the cart and the footer, containing every line |
| Permissions.OwnerAdminOrReadOnly | backend/foodgram/api/permissions.py:4-14 | a safe method, or an authenticated active user who is the recipe's author or staff |
| Permissions.AdminOrReadOnly | backend/foodgram/api/permissions.py:17-24 | a safe method, or an authenticated active staff user |
| Permissions.SafeMethodsAlwaysPermitted | backend/foodgram/api/permissions.py:5-7 | a safe method is permitted under both predicates, whoever asks |
| Permissions.OwnerAdminUnsafe | backend/foodgram/api/permissions.py:8-13 | an unsafe method is permitted iff the user is authenticated, active, and the author or staff |
| Permissions.AdminUnsafe | backend/foodgram/api/permissions.py:17-24 | an unsafe method is permitted iff the user is authenticated, active and staff, whichever recipe it is about |
| Permissions.AnonymousOrInactiveReadOnly | backend/foodgram/api/permissions.py:8-9 | an anonymous or inactive user is never permitted an unsafe method, staff flag and authorship notwithstanding |
| Permissions.AdminImpliesOwnerAdmin | backend/foodgram/api/permissions.py:4-24 | whatever AdminOrReadOnly permits, OwnerAdminOrReadOnly permits too |
| Permissions.OwnerAdminIsWider | backend/foodgram/api/permissions.py:4-24 | an active, non-staff author may change their recipe under the owner predicate but not under the admin one |
| Filters.MarkedSpec | backend/foodgram/api/filters.py:19 | filtering by a user's rows keeps exactly the input recipes with a row, in input order |
| Filters.FilterIsFavorited | backend/foodgram/api/filters.py:16-20 | with true and a signed-in viewer, exactly the input recipes the viewer favorited, in order; otherwise the input unchanged |
| Filters.FilterIsInShoppingCart | backend/foodgram/api/filters.py:22-26 | with true and a signed-in viewer, exactly the input recipes in the viewer's cart, in order; otherwise no queryset at all |
| Filters.FilterIsInShoppingCartIntended | backend/foodgram/api/filters.py:22-26 | with true and a signed-in viewer, exactly the input recipes in the viewer's cart, in order; otherwise the input unchanged |
| Filters.ShoppingCartFilterDropsQueryset | backend/foodgram/api/filters.py:26 | the as-written filter returns nothing exactly where the intended one returns the whole input, and agrees with it elsewhere |
| Filters.FilterMatchesFlags | backend/foodgram/api/filters.py:16-20 | a recipe passes the true filter iff the serializer flags it as favorited (or in the cart) |

## Left out

- Image fields (`Base64ImageField`) and file storage: these are file I/O in a
  foreign library.
- Password hashing in `UserSerializer.create`: a framework crypto call.
- HTTP plumbing: response objects, headers, content type, pagination and
  djoser. Only statuses and the attachment's name and body are modelled.
- The response bodies: `ShortRecipeSerializer` after a toggle, and the
  `UserFollowSerializer` representation of a subscription (including its own
  `get_is_subscribed`, which reads `obj.user`). The `subscriptions` listing
  is also left out.
- Views.SubscribeStep: the 200 of a successful POST is the status the handler
  would return if its response serialised. As written, views.py:152-156
  serialises the author `User` with `UserFollowSerializer`, whose fields read
  `author.*`. A `User` has no `author`, so the request fails with a 500 after
  the Follow row of line 151 is stored.
- Store.Database.Subscribe: it answers the same counterfactual 200 as
  Views.SubscribeStep for a first POST. The program as written answers that
  request with a 500, after storing the Follow row.
- Serializers.GetRecipes: the `int()` parse of `recipes_limit` is not
  modelled. The parameter enters as an already-parsed `Option<int>`.
- Store.Database.DownloadShoppingCart: the current date, the user's full
  name and username are parameters. The order of the lines is the first
  appearance of each group, where the query fixes none.
- The GET branch of `_add_del_obj`: the routes admit only POST and DELETE.
- Store.Database.Create: the primary key comes from a counter in the
  model. The database's own sequence is not part of this model.
- Transactions, races on the unique constraints, and cascade deletes: these
  belong to the database engine.
- Request-level `has_permission` defaults: framework behaviour. Only the
  object-level predicates are modelled.
- Routing, admin and migrations: declarative configuration.
- The Cart and Favorites model classes are not part of this model. They are
  modelled as sets of (user, recipe) pairs. views.py:34 builds the row by
  position, `m2m_model(None, obj.id, self.request.user.id)`, and Django binds
  positional arguments to the fields in their order of declaration. The model
  assumes Cart and Favorites declare `recipe` before `user`, so that the
  stored row is the (user, recipe) pair the next request filters for.
- Serializers.ValidateCookingTime: integers are unbounded in the model.
  `cooking_time` and `amount` are `models.IntegerField` columns
  (recipes/models.py:61, :85), so on a backend with 32-bit integers a value
  above 2147483647 is refused: for `cooking_time` at field level, and for
  `amount`, which `IngredientsEditSerializer` declares as a plain integer,
  only when the row is inserted. That bound depends on the database engine
  and is not modelled.
- Serializers.ValidateChars: the framework's refusal of surrogate code points
  has nothing to refuse here, because a Dafny `char` is a Unicode scalar
  value and cannot be a surrogate.

## Findings

| source | as written | input that shows it | evidently intended | confidence | as-written member | corrected member |
|---|---|---|---|---|---|---|
| backend/foodgram/api/views.py:150-156 | `subscribe` creates the follow without running `UserFollowSerializer.validate`, so a user can follow themself, and a repeated POST hits the unique constraint (a 500). The 200 for the first POST is the status the handler would give if its response serialised (see Left out); as written that serialisation fails too, after the row is stored | user 7 POSTs to subscribe to user 7 | refuse a self follow and a duplicate with 400, as `validate` at serializers.py:265-278 does | high, not executed | Views.SubscribeAdmitsSelfFollow | Views.CheckedSubscribeNeverSelfFollows |
| backend/foodgram/api/filters.py:26 | `filter_is_in_shopping_cart` returns `None` when the value is false or the viewer is anonymous, and django-filter requires a queryset back | `?is_in_shopping_cart=false`, or `?is_in_shopping_cart=true` from an anonymous viewer | return the queryset unchanged, as `filter_is_favorited` does at filters.py:20 | high, not executed | Filters.FilterIsInShoppingCart | Filters.FilterIsInShoppingCartIntended |
