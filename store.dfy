/**
 * The database behind the API as one object whose tables the request
 * handlers change in place: the nested create and update of
 * RecipePostSerializer (api/serializers.py), the favorite / shopping_cart
 * toggles and subscribe (api/views.py), and the read-only
 * download_shopping_cart. Each method is specified by the pure step or
 * table function of Serializers / Views that states what it does.
 */
module Store {
  import opened Domain
  import opened Serializers
  import opened Views

  /** The two (user, recipe) tables driven by AddDelMixin. */
  datatype Association = Favorites | Cart

  class Database {
    var users: set<UserId>
    var ingredients: map<IngredientId, Ingredient>
    var tags: map<TagId, Tag>
    var recipes: map<RecipeId, Recipe>
    /** The Recipe.tags many-to-many table. */
    var recipeTags: set<(RecipeId, TagId)>
    /** The RecipeIngredient through table, in insertion order. */
    var recipeIngredients: seq<RecipeIngredient>
    var favorites: set<(UserId, RecipeId)>
    var cart: set<(UserId, RecipeId)>
    /** Follow rows (user, author); a set, so unique on the pair. */
    var follows: set<(UserId, UserId)>
    /** The next primary key the Recipe table hands out. */
    var nextRecipeId: RecipeId

    /**
     * The table constraints: primary keys match, foreign keys point at
     * existing rows, and the MinValueValidator(1) columns hold.
     */
    ghost predicate Valid()
      reads this
    {
      && (forall id :: id in recipes ==>
            id < nextRecipeId && recipes[id].id == id && recipes[id].author in users
            && recipes[id].cookingTime >= MinCookingTime)
      && (forall r :: r in recipeIngredients ==>
            r.recipe in recipes && r.ingredient in ingredients && r.amount >= MinAmount)
      && (forall p :: p in recipeTags ==> p.0 in recipes && p.1 in tags)
      && (forall p :: p in favorites ==> p.0 in users && p.1 in recipes)
      && (forall p :: p in cart ==> p.0 in users && p.1 in recipes)
      && (forall p :: p in follows ==> p.0 in users && p.1 in users)
    }

    /** A database holding users and the two catalogs, and nothing else yet. */
    constructor (users: set<UserId>, ingredients: map<IngredientId, Ingredient>, tags: map<TagId, Tag>)
      ensures Valid()
      ensures this.users == users && this.ingredients == ingredients && this.tags == tags
      ensures recipes == map[] && recipeTags == {} && recipeIngredients == []
      ensures favorites == {} && cart == {} && follows == {}
    {
      this.users := users;
      this.ingredients := ingredients;
      this.tags := tags;
      recipes := map[];
      recipeTags := {};
      recipeIngredients := [];
      favorites := {};
      cart := {};
      follows := {};
      nextRecipeId := 1;
    }

    ghost function Table(which: Association): set<(UserId, RecipeId)>
      reads this
    {
      match which
      case Favorites => favorites
      case Cart => cart
    }

    /** The shopping list of a user, grouped and summed over the cart's rows. */
    function ShoppingList(user: UserId): seq<Line>
      reads this
      requires Valid()
    {
      Aggregate(ingredients, CartRows(recipeIngredients, cart, user))
    }

    /** create_ingredients: one RecipeIngredient row per entry, appended in submission order. */
    method CreateIngredients(entries: seq<IngredientEntry>, recipe: RecipeId)
      requires Valid() && recipe in recipes
      requires AllKnown(ingredients, entries) && AmountsPositive(entries)
      modifies this`recipeIngredients
      ensures Valid()
      ensures recipeIngredients == old(recipeIngredients) + RowsFor(recipe, entries)
    {
      for i := 0 to |entries|
        invariant Valid()
        invariant recipeIngredients == old(recipeIngredients) + RowsFor(recipe, entries[..i])
      {
        recipeIngredients := recipeIngredients + [RowFor(recipe, entries[i])];
        assert RowsFor(recipe, entries[..i + 1]) == RowsFor(recipe, entries[..i]) + [RowFor(recipe, entries[i])];
      }
      assert entries[..|entries|] == entries;
    }

    /**
     * create: a fresh recipe row by `author`, its tag set equal to the
     * submitted tags and one ingredient row per entry; no other recipe's
     * rows change. `data` is validated data, as validation hands it on
     * (see ValidatedDataRevalidates).
     */
    method Create(author: UserId, data: RecipeData) returns (id: RecipeId)
      requires Valid() && author in users
      requires ValidateWrite(ingredients, tags, data.AsWrite(), false) == Ok(data.AsWrite())
      modifies this`recipes, this`recipeTags, this`recipeIngredients, this`nextRecipeId
      ensures Valid()
      ensures id !in old(recipes)
      ensures recipes == old(recipes)[id := Recipe(id, author, data.name, data.text, data.cookingTime)]
      ensures recipeTags == old(recipeTags) + Links(id, data.tags)
      ensures TagsOf(recipeTags, id) == set t | t in data.tags
      ensures recipeIngredients == old(recipeIngredients) + RowsFor(id, data.ingredients)
      ensures RowsOf(recipeIngredients, id) == RowsFor(id, data.ingredients)
      ensures forall r :: r != id ==> RowsOf(recipeIngredients, r) == RowsOf(old(recipeIngredients), r)
      ensures forall r :: r != id ==> TagsOf(recipeTags, r) == TagsOf(old(recipeTags), r)
    {
      AcceptedWrite(ingredients, tags, data.AsWrite(), false);
      id := InsertRecipe(author, data);
    }

    /** The writes of create, for data whose values the tables accept. */
    method InsertRecipe(author: UserId, data: RecipeData) returns (id: RecipeId)
      requires Valid() && author in users
      requires StorableWrite(ingredients, tags, data.AsWrite())
      modifies this`recipes, this`recipeTags, this`recipeIngredients, this`nextRecipeId
      ensures Valid()
      ensures id !in old(recipes)
      ensures recipes == old(recipes)[id := Recipe(id, author, data.name, data.text, data.cookingTime)]
      ensures recipeTags == old(recipeTags) + Links(id, data.tags)
      ensures TagsOf(recipeTags, id) == set t | t in data.tags
      ensures recipeIngredients == old(recipeIngredients) + RowsFor(id, data.ingredients)
      ensures RowsOf(recipeIngredients, id) == RowsFor(id, data.ingredients)
      ensures forall r :: r != id ==> RowsOf(recipeIngredients, r) == RowsOf(old(recipeIngredients), r)
      ensures forall r :: r != id ==> TagsOf(recipeTags, r) == TagsOf(old(recipeTags), r)
    {
      id := nextRecipeId;
      nextRecipeId := nextRecipeId + 1;
      recipes := recipes[id := Recipe(id, author, data.name, data.text, data.cookingTime)];
      ghost var oldLinks := recipeTags;
      assert LinksWithout(oldLinks, id) == oldLinks;
      recipeTags := recipeTags + Links(id, data.tags);
      ghost var oldRows := recipeIngredients;
      RowsOfAbsent(oldRows, id);
      CreateIngredients(data.ingredients, id);
      AppendIngredients(oldRows, id, data.ingredients, id);
      SetTags(oldLinks, id, data.tags, id);
      forall r | r != id
        ensures RowsOf(recipeIngredients, r) == RowsOf(oldRows, r)
        ensures TagsOf(recipeTags, r) == TagsOf(oldLinks, r)
      {
        AppendIngredients(oldRows, id, data.ingredients, r);
        SetTags(oldLinks, id, data.tags, r);
      }
    }

    /**
     * update: a present `ingredients` key clears the recipe's rows and
     * inserts the new entries; a present `tags` key replaces its tag set;
     * an absent key leaves that association alone; the scalar columns
     * present in the write are replaced. No other recipe changes.
     */
    method Update(id: RecipeId, w: RecipeWrite)
      requires Valid() && id in recipes
      requires StorableWrite(ingredients, tags, w)
      modifies this`recipes, this`recipeTags, this`recipeIngredients
      ensures Valid()
      ensures recipes == old(recipes)[id := Patched(old(recipes)[id], w)]
      ensures w.ingredients.None? ==> recipeIngredients == old(recipeIngredients)
      ensures w.ingredients.Some? ==>
                recipeIngredients == RowsWithout(old(recipeIngredients), id) + RowsFor(id, w.ingredients.value)
      ensures w.ingredients.Some? ==> RowsOf(recipeIngredients, id) == RowsFor(id, w.ingredients.value)
      ensures forall r :: r != id ==> RowsOf(recipeIngredients, r) == RowsOf(old(recipeIngredients), r)
      ensures w.tags.None? ==> recipeTags == old(recipeTags)
      ensures w.tags.Some? ==> recipeTags == LinksWithout(old(recipeTags), id) + Links(id, w.tags.value)
      ensures w.tags.Some? ==> TagsOf(recipeTags, id) == set t | t in w.tags.value
      ensures forall r :: r != id ==> TagsOf(recipeTags, r) == TagsOf(old(recipeTags), r)
    {
      if w.ingredients.Some? {
        SetIngredients(id, w.ingredients.value);
      }
      if w.tags.Some? {
        SetRecipeTags(id, w.tags.value);
      }
      recipes := recipes[id := Patched(recipes[id], w)];
    }

    /** The ingredients branch of update: clear the recipe's rows, then insert the entries. */
    method SetIngredients(id: RecipeId, entries: seq<IngredientEntry>)
      requires Valid() && id in recipes
      requires AllKnown(ingredients, entries) && AmountsPositive(entries)
      modifies this`recipeIngredients
      ensures Valid()
      ensures recipeIngredients == RowsWithout(old(recipeIngredients), id) + RowsFor(id, entries)
      ensures RowsOf(recipeIngredients, id) == RowsFor(id, entries)
      ensures forall r :: r != id ==> RowsOf(recipeIngredients, r) == RowsOf(old(recipeIngredients), r)
    {
      ghost var oldRows := recipeIngredients;
      recipeIngredients := RowsWithout(recipeIngredients, id);
      CreateIngredients(entries, id);
      ReplaceIngredients(oldRows, id, entries, id);
      forall r | r != id
        ensures RowsOf(recipeIngredients, r) == RowsOf(oldRows, r)
      {
        ReplaceIngredients(oldRows, id, entries, r);
      }
    }

    /** The tags branch of update: tags.set replaces the recipe's tag links. */
    method SetRecipeTags(id: RecipeId, newTags: seq<TagId>)
      requires Valid() && id in recipes
      requires TagsResolved(tags, newTags)
      modifies this`recipeTags
      ensures Valid()
      ensures recipeTags == LinksWithout(old(recipeTags), id) + Links(id, newTags)
      ensures TagsOf(recipeTags, id) == set t | t in newTags
      ensures forall r :: r != id ==> TagsOf(recipeTags, r) == TagsOf(old(recipeTags), r)
    {
      ghost var oldLinks := recipeTags;
      recipeTags := LinksWithout(recipeTags, id) + Links(id, newTags);
      SetTags(oldLinks, id, newTags, id);
      forall r | r != id
        ensures TagsOf(recipeTags, r) == TagsOf(oldLinks, r)
      {
        SetTags(oldLinks, id, newTags, r);
      }
    }

    /**
     * _add_del_obj on Favorites or Cart: the new table and the status are
     * those of AddDelStep, and the other table is untouched.
     */
    method AddDel(which: Association, user: UserId, recipe: RecipeId, verb: Verb) returns (status: Status)
      requires Valid() && user in users
      modifies this`favorites, this`cart
      ensures Valid()
      ensures Transition(status, Table(which)) == AddDelStep(old(Table(which)), recipe in recipes, user, recipe, verb)
      ensures which == Favorites ==> cart == old(cart)
      ensures which == Cart ==> favorites == old(favorites)
    {
      if recipe !in recipes {
        return NotFound404;
      }
      var table := if which == Favorites then favorites else cart;
      var present := (user, recipe) in table;
      if verb == Post && !present {
        table := table + {(user, recipe)};
        status := Created201;
      } else if verb == Delete && present {
        table := table - {(user, recipe)};
        status := NoContent204;
      } else {
        return BadRequest400;
      }
      if which == Favorites {
        favorites := table;
      } else {
        cart := table;
      }
    }

    /** RecipeViewSet.favorite */
    method Favorite(user: UserId, recipe: RecipeId, verb: Verb) returns (status: Status)
      requires Valid() && user in users
      modifies this`favorites, this`cart
      ensures Valid()
      ensures Transition(status, favorites) == AddDelStep(old(favorites), recipe in recipes, user, recipe, verb)
      ensures cart == old(cart)
    {
      status := AddDel(Favorites, user, recipe, verb);
    }

    /** RecipeViewSet.shopping_cart */
    method ShoppingCart(user: UserId, recipe: RecipeId, verb: Verb) returns (status: Status)
      requires Valid() && user in users
      modifies this`favorites, this`cart
      ensures Valid()
      ensures Transition(status, cart) == AddDelStep(old(cart), recipe in recipes, user, recipe, verb)
      ensures favorites == old(favorites)
    {
      status := AddDel(Cart, user, recipe, verb);
    }

    /**
     * UserViewSet.subscribe: the new Follow table and the status are those
     * of SubscribeStep (no self check; a duplicate POST fails on the unique
     * constraint).
     */
    method Subscribe(user: UserId, author: UserId, verb: Verb) returns (status: Status)
      requires Valid() && user in users
      modifies this`follows
      ensures Valid()
      ensures Transition(status, follows) == SubscribeStep(old(follows), author in users, user, author, verb)
    {
      if author !in users {
        return NotFound404;
      }
      if verb == Post {
        if (user, author) in follows {
          return ServerError500;
        }
        follows := follows + {(user, author)};
        return Ok200;
      }
      if (user, author) !in follows {
        return NotFound404;
      }
      follows := follows - {(user, author)};
      return NoContent204;
    }

    /**
     * subscribe with UserFollowSerializer.validate run before the follow is
     * created: a duplicate or self follow is a 400, and a table without
     * self follows keeps none.
     */
    method CheckedSubscribe(user: UserId, author: UserId, verb: Verb) returns (status: Status)
      requires Valid() && user in users
      modifies this`follows
      ensures Valid()
      ensures Transition(status, follows) == CheckedSubscribeStep(old(follows), author in users, user, author, verb)
      ensures NoSelfFollows(old(follows)) ==> NoSelfFollows(follows)
    {
      if author in users && verb == Post {
        if ValidateFollow(follows, user, author).Some? {
          return BadRequest400;
        }
        follows := follows + {(user, author)};
        return Ok200;
      }
      status := Subscribe(user, author, verb);
    }

    /**
     * download_shopping_cart: 400 for an empty cart; otherwise an attachment
     * named after the user whose text is the header, the grouped lines and
     * the footer, containing the line of every (name, unit) in the cart.
     * Nothing in the database changes.
     */
    method DownloadShoppingCart(user: UserId, fullName: string, username: string, today: Date)
      returns (r: Download)
      requires Valid()
      ensures r.Refused? <==> !HasCart(cart, user)
      ensures r.Refused? ==> r.status == BadRequest400
      ensures r.Attachment? ==> r.filename == ShoppingListFilename(username)
      ensures r.Attachment? ==> r.body == ShoppingListText(fullName, today, ShoppingList(user))
      ensures r.Attachment? ==>
                && r.body[..|Header(fullName, today)|] == Header(fullName, today)
                && r.body[|r.body| - |Footer(today)|..] == Footer(today)
                && forall i :: 0 <= i < |ShoppingList(user)| ==> Contains(r.body, RenderLine(ShoppingList(user)[i]))
    {
      if !HasCart(cart, user) {
        return Refused(BadRequest400);
      }
      var lines := ShoppingList(user);
      var text := Header(fullName, today);
      text := text + Join("\n", RenderLines(lines));
      text := text + Footer(today);
      ShoppingListLayout(fullName, today, lines);
      r := Attachment(ShoppingListFilename(username), text);
    }
  }
}
