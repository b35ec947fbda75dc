/**
 * RecipeFilter of api/filters.py: the is_favorited and is_in_shopping_cart
 * query parameters narrow a queryset (a sequence of recipes, in its order)
 * to the recipes the viewer has marked.
 */
module Filters {
  import opened Domain
  import opened Serializers

  /** `queryset.filter(<table>__user=user)`: the recipes the user has a row for, order kept. */
  function Marked(queryset: seq<Recipe>, user: UserId, table: set<(UserId, RecipeId)>): (r: seq<Recipe>)
    ensures |r| <= |queryset|
  {
    if |queryset| == 0 then []
    else (if (user, queryset[0].id) in table then [queryset[0]] else []) + Marked(queryset[1..], user, table)
  }

  lemma {:induction false} MarkedSpec(queryset: seq<Recipe>, user: UserId, table: set<(UserId, RecipeId)>)
    ensures IsSubsequence(Marked(queryset, user, table), queryset)
    ensures forall x :: x in Marked(queryset, user, table) <==> x in queryset && (user, x.id) in table
    decreases |queryset|
  {
    if |queryset| > 0 {
      MarkedSpec(queryset[1..], user, table);
      assert queryset == [queryset[0]] + queryset[1..];
      var rest := Marked(queryset[1..], user, table);
      if (user, queryset[0].id) in table {
        assert Marked(queryset, user, table) == [queryset[0]] + rest;
        assert ([queryset[0]] + rest)[1..] == rest;
      } else {
        assert Marked(queryset, user, table) == rest;
      }
    }
  }

  /**
   * filter_is_favorited: with a true value and a signed-in viewer, exactly
   * the input recipes the viewer favorited, in order; otherwise the input.
   */
  function FilterIsFavorited(queryset: seq<Recipe>, value: bool, viewer: Viewer, favorites: set<(UserId, RecipeId)>)
    : (r: seq<Recipe>)
    ensures !value || viewer.Anonymous? ==> r == queryset
    ensures IsSubsequence(r, queryset)
    ensures value && viewer.Member? ==>
              forall x :: x in r <==> x in queryset && (viewer.id, x.id) in favorites
  {
    if value && viewer.Member? then
      MarkedSpec(queryset, viewer.id, favorites);
      Marked(queryset, viewer.id, favorites)
    else
      SubsequenceReflexive(queryset);
      queryset
  }

  /**
   * filter_is_in_shopping_cart as written: with a true value and a
   * signed-in viewer, exactly the input recipes in the viewer's cart;
   * otherwise no queryset at all.
   */
  function FilterIsInShoppingCart(queryset: seq<Recipe>, value: bool, viewer: Viewer, cart: set<(UserId, RecipeId)>)
    : (r: Option<seq<Recipe>>)
    ensures r.None? <==> !value || viewer.Anonymous?
    ensures r.Some? ==> IsSubsequence(r.value, queryset)
    ensures r.Some? ==> forall x :: x in r.value <==> x in queryset && (viewer.id, x.id) in cart
  {
    if value && viewer.Member? then
      MarkedSpec(queryset, viewer.id, cart);
      Some(Marked(queryset, viewer.id, cart))
    else
      None
  }

  /**
   * The filter as its sibling filter_is_favorited shows it was meant: where
   * the written one falls through to a bare `return`, the queryset comes
   * back unchanged.
   */
  function FilterIsInShoppingCartIntended(queryset: seq<Recipe>, value: bool, viewer: Viewer, cart: set<(UserId, RecipeId)>)
    : (r: seq<Recipe>)
    ensures !value || viewer.Anonymous? ==> r == queryset
    ensures IsSubsequence(r, queryset)
    ensures value && viewer.Member? ==>
              forall x :: x in r <==> x in queryset && (viewer.id, x.id) in cart
  {
    match FilterIsInShoppingCart(queryset, value, viewer, cart)
    case Some(filtered) => filtered
    case None =>
      SubsequenceReflexive(queryset);
      queryset
  }

  /**
   * The as-written filter yields no queryset exactly where the intended one
   * hands back the whole input; where it filters, the two agree.
   */
  lemma ShoppingCartFilterDropsQueryset(queryset: seq<Recipe>, value: bool, viewer: Viewer, cart: set<(UserId, RecipeId)>)
    ensures !value || viewer.Anonymous? ==>
              FilterIsInShoppingCart(queryset, value, viewer, cart).None?
              && FilterIsInShoppingCartIntended(queryset, value, viewer, cart) == queryset
    ensures value && viewer.Member? ==>
              FilterIsInShoppingCart(queryset, value, viewer, cart)
              == Some(FilterIsInShoppingCartIntended(queryset, value, viewer, cart))
  {
  }

  /** A recipe survives the is_favorited=true filter iff the serializer flags it is_favorited. */
  lemma FilterMatchesFlags(queryset: seq<Recipe>, viewer: Viewer, favorites: set<(UserId, RecipeId)>, cart: set<(UserId, RecipeId)>)
    requires viewer.Member?
    ensures forall x :: x in FilterIsFavorited(queryset, true, viewer, favorites) <==>
              x in queryset && IsFavorited(favorites, viewer, x.id)
    ensures forall x :: x in FilterIsInShoppingCartIntended(queryset, true, viewer, cart) <==>
              x in queryset && IsInShoppingCart(cart, viewer, x.id)
  {
  }
}
