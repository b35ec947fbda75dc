/**
 * The logic of api/serializers.py: the validation pipeline of a recipe
 * write (RecipePostSerializer), the rows and tag links a write produces,
 * the viewer flags, follow validation and the recipes_limit listing of
 * UserFollowSerializer.
 */
module Serializers {
  import opened Domain

  /** Why a request is refused. */
  datatype Reason =
    | CookingTimeTooSmall   // validate_cooking_time
    | NoIngredients         // validate_ingredients: empty list
    | AmountTooSmall        // validate_ingredients: an amount below 1
    | IngredientNotFound    // validate: get_object_or_404 on an ingredient id
    | DuplicateIngredient   // validate: an ingredient id seen before
    | NoTags                // validate: empty tag list
    | TagDoesNotExist       // validate: no tag with that name
    | InvalidTagPk          // the tags field: an id with no Tag row
    | FieldRequired         // a required key absent from a full write
    | MissingKey            // validate reads a key a partial write left out
    | AlreadySubscribed     // UserFollowSerializer.validate
    | SelfSubscription      // UserFollowSerializer.validate
    | NegativeLimit         // recipes_limit below zero
    | NameBlank             // the name field: empty once whitespace is trimmed
    | NameTooLong           // the name field: longer than max_length=200
    | TextBlank             // the text field: empty once whitespace is trimmed
    | TextTooLong           // the text field: longer than max_length=1000
    | NameNullCharacter     // the name field: contains U+0000
    | TextNullCharacter     // the text field: contains U+0000

  /** Field-level errors are collected together, so a refusal carries a set. */
  datatype Result<+T> = Ok(value: T) | Err(reasons: set<Reason>)

  function ErrorsOf<T>(r: Result<T>): set<Reason> {
    if r.Ok? then {} else r.reasons
  }

  /**
   * The HTTP status a refusal becomes: Http404 from get_object_or_404, a 500
   * for the exceptions nothing catches (KeyError, negative slicing), and 400
   * for every ValidationError.
   */
  function StatusOf(reasons: set<Reason>): Status {
    if IngredientNotFound in reasons then NotFound404
    else if MissingKey in reasons || NegativeLimit in reasons then ServerError500
    else BadRequest400
  }

  // ---------------------------------------------------------------------------
  // The payload of a recipe write
  // ---------------------------------------------------------------------------

  /** One `{id, amount}` entry of the submitted ingredient list. */
  datatype IngredientEntry = IngredientEntry(id: IngredientId, amount: int)

  /** The payload of a recipe write; a key the client left out is None. */
  datatype RecipeWrite = RecipeWrite(
    name: Option<string>,
    text: Option<string>,
    cookingTime: Option<int>,
    ingredients: Option<seq<IngredientEntry>>,
    tags: Option<seq<TagId>>)

  /** The validated data of a full write (a create), where every key is present. */
  datatype RecipeData = RecipeData(
    name: string,
    text: string,
    cookingTime: int,
    ingredients: seq<IngredientEntry>,
    tags: seq<TagId>)
  {
    function AsWrite(): RecipeWrite {
      RecipeWrite(Some(name), Some(text), Some(cookingTime), Some(ingredients), Some(tags))
    }
  }

  // ---------------------------------------------------------------------------
  // Field-level validation
  // ---------------------------------------------------------------------------

  /** validate_cooking_time: values below 1 are refused, others come back unchanged. */
  function ValidateCookingTime(cookingTime: int): (r: Result<int>)
    ensures r.Ok? <==> cookingTime >= MinCookingTime
    ensures r.Ok? ==> r.value == cookingTime
    ensures r.Err? ==> r.reasons == {CookingTimeTooSmall}
  {
    if cookingTime < MinCookingTime then Err({CookingTimeTooSmall}) else Ok(cookingTime)
  }

  predicate AmountsPositive(entries: seq<IngredientEntry>) {
    forall i :: 0 <= i < |entries| ==> entries[i].amount >= MinAmount
  }

  /** validate_ingredients: a non-empty list whose every amount is at least 1. */
  function ValidateIngredients(entries: seq<IngredientEntry>): (r: Result<seq<IngredientEntry>>)
    ensures r.Ok? <==> |entries| > 0 && AmountsPositive(entries)
    ensures r.Ok? ==> r.value == entries
    ensures |entries| == 0 ==> r == Err({NoIngredients})
    ensures |entries| > 0 && !AmountsPositive(entries) ==> r == Err({AmountTooSmall})
  {
    if |entries| == 0 then Err({NoIngredients})
    else if !AmountsPositive(entries) then Err({AmountTooSmall})
    else Ok(entries)
  }

  /** `str.isspace()` for one character. */
  predicate IsSpace(c: char) {
    || ('\U{9}' <= c <= '\U{D}') || ('\U{1C}' <= c <= '\U{20}')
    || c == '\U{85}' || c == '\U{A0}' || c == '\U{1680}' || ('\U{2000}' <= c <= '\U{200A}')
    || c == '\U{2028}' || c == '\U{2029}' || c == '\U{202F}' || c == '\U{205F}' || c == '\U{3000}'
  }

  /** How many whitespace characters open the string. */
  function LeadingSpaces(s: string): (n: nat)
    ensures n <= |s|
    ensures forall k :: 0 <= k < n ==> IsSpace(s[k])
    ensures n < |s| ==> !IsSpace(s[n])
  {
    if |s| > 0 && IsSpace(s[0]) then 1 + LeadingSpaces(s[1..]) else 0
  }

  /** How many whitespace characters close the string. */
  function TrailingSpaces(s: string): (n: nat)
    ensures n <= |s|
    ensures forall k :: |s| - n <= k < |s| ==> IsSpace(s[k])
    ensures n < |s| ==> !IsSpace(s[|s| - 1 - n])
  {
    if |s| > 0 && IsSpace(s[|s| - 1]) then 1 + TrailingSpaces(s[..|s| - 1]) else 0
  }

  /**
   * `str.strip()`, which a CharField applies to its input: the input with
   * its whitespace prefix and suffix cut off, so the result is empty iff the
   * input is all whitespace, and otherwise neither begins nor ends with
   * whitespace.
   */
  function Strip(s: string): (r: string)
    ensures exists a, b :: 0 <= a <= b <= |s| && r == s[a..b]
                           && (forall k :: 0 <= k < a ==> IsSpace(s[k]))
                           && (forall k :: b <= k < |s| ==> IsSpace(s[k]))
    ensures |r| <= |s|
    ensures |r| == 0 <==> forall k :: 0 <= k < |s| ==> IsSpace(s[k])
    ensures |r| > 0 ==> !IsSpace(r[0]) && !IsSpace(r[|r| - 1])
  {
    var a := LeadingSpaces(s);
    var t := s[a..];
    var b := a + |t| - TrailingSpaces(t);
    var r := t[..|t| - TrailingSpaces(t)];
    assert r == s[a..b];
    forall k | b <= k < |s| ensures IsSpace(s[k]) {
      assert s[k] == t[k - a];
    }
    assert |r| > 0 ==> r[0] == s[a];
    r
  }

  /** Stripping twice strips nothing more. */
  lemma StripIdempotent(s: string)
    ensures Strip(Strip(s)) == Strip(s)
  {
    var r := Strip(s);
    if |r| > 0 {
      assert LeadingSpaces(r) == 0;
      assert TrailingSpaces(r) == 0;
      assert r[0..] == r && r[..|r|] == r;
    }
  }

  const MaxNameLength: nat := 200
  const MaxTextLength: nat := 1000

  /** No trimmed character is U+0000: stripping removes only whitespace. */
  lemma StripKeepsNull(s: string)
    ensures '\0' in Strip(s) <==> '\0' in s
  {
    var r := Strip(s);
    var a, b :| 0 <= a <= b <= |s| && r == s[a..b]
                && (forall k :: 0 <= k < a ==> IsSpace(s[k]))
                && (forall k :: b <= k < |s| ==> IsSpace(s[k]));
    if '\0' in s {
      var k :| 0 <= k < |s| && s[k] == '\0';
      assert !IsSpace(s[k]);
      assert r[k - a] == '\0';
    }
  }

  /**
   * A character field of the recipe (name, text). A value that is blank
   * once trimmed is refused as blank and nothing else is checked; otherwise
   * the trimmed value is run through every validator of the field, and all
   * of their refusals are reported together: longer than the column's
   * max_length, and holding a U+0000 character. A value that passes is
   * handed on trimmed.
   */
  function ValidateChars(s: string, maxLength: nat, blank: Reason, tooLong: Reason, nul: Reason): (r: Result<string>)
    ensures r.Ok? <==> 0 < |Strip(s)| <= maxLength && '\0' !in s
    ensures r.Ok? ==> r.value == Strip(s)
    ensures |Strip(s)| == 0 ==> r == Err({blank})
    ensures |Strip(s)| > 0 && r.Err? ==>
              r.reasons == (if |Strip(s)| > maxLength then {tooLong} else {}) + (if '\0' in s then {nul} else {})
  {
    StripKeepsNull(s);
    var v := Strip(s);
    if |v| == 0 then Err({blank})
    else
      var errors := (if |v| > maxLength then {tooLong} else {}) + (if '\0' in v then {nul} else {});
      if errors == {} then Ok(v) else Err(errors)
  }

  /** The write with its character fields as validation hands them on: trimmed. */
  function Cleaned(w: RecipeWrite): RecipeWrite {
    w.(name := if w.name.Some? then Some(Strip(w.name.value)) else None,
       text := if w.text.Some? then Some(Strip(w.text.value)) else None)
  }

  predicate TagsResolved(tagCatalog: map<TagId, Tag>, tags: seq<TagId>) {
    forall i :: 0 <= i < |tags| ==> tags[i] in tagCatalog
  }

  /** A full write needs every key; a partial one (PATCH) needs none. */
  function RequiredErrors(w: RecipeWrite, partial: bool): set<Reason> {
    if !partial && (w.name.None? || w.text.None? || w.cookingTime.None? || w.ingredients.None? || w.tags.None?)
    then {FieldRequired}
    else {}
  }

  /** Every field is checked and the failures are reported together. */
  function FieldErrors(tagCatalog: map<TagId, Tag>, w: RecipeWrite, partial: bool): set<Reason> {
    RequiredErrors(w, partial)
    + (if w.name.Some? then ErrorsOf(ValidateChars(w.name.value, MaxNameLength, NameBlank, NameTooLong, NameNullCharacter)) else {})
    + (if w.text.Some? then ErrorsOf(ValidateChars(w.text.value, MaxTextLength, TextBlank, TextTooLong, TextNullCharacter)) else {})
    + (if w.cookingTime.Some? then ErrorsOf(ValidateCookingTime(w.cookingTime.value)) else {})
    + (if w.ingredients.Some? then ErrorsOf(ValidateIngredients(w.ingredients.value)) else {})
    + (if w.tags.Some? && !TagsResolved(tagCatalog, w.tags.value) then {InvalidTagPk} else {})
  }

  /** What the tables' constraints need of the values a write stores. */
  predicate StorableWrite(ingredientCatalog: map<IngredientId, Ingredient>, tagCatalog: map<TagId, Tag>, w: RecipeWrite) {
    && (w.cookingTime.Some? ==> w.cookingTime.value >= MinCookingTime)
    && (w.ingredients.Some? ==> AllKnown(ingredientCatalog, w.ingredients.value) && AmountsPositive(w.ingredients.value))
    && (w.tags.Some? ==> TagsResolved(tagCatalog, w.tags.value))
  }

  /** The scalar columns after `super().update`: each key present in the write replaces its column. */
  function Patched(recipe: Recipe, w: RecipeWrite): Recipe {
    recipe.(name := if w.name.Some? then w.name.value else recipe.name,
            text := if w.text.Some? then w.text.value else recipe.text,
            cookingTime := if w.cookingTime.Some? then w.cookingTime.value else recipe.cookingTime)
  }

  // ---------------------------------------------------------------------------
  // Object-level validation: RecipePostSerializer.validate
  // ---------------------------------------------------------------------------

  function Ids(entries: seq<IngredientEntry>): seq<IngredientId> {
    seq(|entries|, i requires 0 <= i < |entries| => entries[i].id)
  }

  predicate AllKnown(catalog: map<IngredientId, Ingredient>, entries: seq<IngredientEntry>) {
    forall i :: 0 <= i < |entries| ==> entries[i].id in catalog
  }

  predicate DistinctIds(entries: seq<IngredientEntry>) {
    forall i, j :: 0 <= i < j < |entries| ==> entries[i].id != entries[j].id
  }

  /**
   * The first problem met when the entries are visited in order: an id with
   * no catalog row, or an id already visited.
   */
  function IngredientProblem(catalog: map<IngredientId, Ingredient>, entries: seq<IngredientEntry>): Option<Reason>
  {
    if |entries| == 0 then None
    else
      var init, last := entries[..|entries| - 1], entries[|entries| - 1];
      match IngredientProblem(catalog, init)
      case Some(reason) => Some(reason)
      case None =>
        if last.id !in catalog then Some(IngredientNotFound)
        else if last.id in Ids(init) then Some(DuplicateIngredient)
        else None
  }

  /** The ingredient check passes exactly on distinct ids that all exist. */
  lemma {:induction false} IngredientProblemNoneIff(catalog: map<IngredientId, Ingredient>, entries: seq<IngredientEntry>)
    ensures IngredientProblem(catalog, entries) == None <==> AllKnown(catalog, entries) && DistinctIds(entries)
  {
    if |entries| > 0 {
      var init, last := entries[..|entries| - 1], entries[|entries| - 1];
      IngredientProblemNoneIff(catalog, init);
      if AllKnown(catalog, entries) && DistinctIds(entries) {
        assert AllKnown(catalog, init) && DistinctIds(init);
        assert last.id !in Ids(init) by {
          forall i | 0 <= i < |init| ensures Ids(init)[i] != last.id {
            assert entries[i].id != entries[|entries| - 1].id;
          }
        }
      }
      if IngredientProblem(catalog, entries) == None {
        assert AllKnown(catalog, init) && DistinctIds(init);
        forall i, j | 0 <= i < j < |entries| ensures entries[i].id != entries[j].id {
          if j == |entries| - 1 {
            assert Ids(init)[i] == entries[i].id;
          } else {
            assert init[i] == entries[i] && init[j] == entries[j];
          }
        }
      }
    }
  }

  /** Once a prefix has a problem, the whole list has that same problem. */
  lemma {:induction false} PrefixProblemPersists(catalog: map<IngredientId, Ingredient>, entries: seq<IngredientEntry>, k: nat)
    requires k <= |entries| && IngredientProblem(catalog, entries[..k]).Some?
    ensures IngredientProblem(catalog, entries) == IngredientProblem(catalog, entries[..k])
    decreases |entries|
  {
    if k == |entries| {
      assert entries[..k] == entries;
    } else {
      var init := entries[..|entries| - 1];
      assert init[..k] == entries[..k];
      PrefixProblemPersists(catalog, init, k);
    }
  }

  /** With every id in the catalog the check never answers not-found. */
  lemma {:induction false} KnownIdsNeverNotFound(catalog: map<IngredientId, Ingredient>, entries: seq<IngredientEntry>)
    requires AllKnown(catalog, entries)
    ensures IngredientProblem(catalog, entries) != Some(IngredientNotFound)
  {
    if |entries| > 0 {
      var init := entries[..|entries| - 1];
      assert AllKnown(catalog, init);
      KnownIdsNeverNotFound(catalog, init);
    }
  }

  /** With distinct ids the check never answers duplicate. */
  lemma {:induction false} DistinctIdsNeverDuplicate(catalog: map<IngredientId, Ingredient>, entries: seq<IngredientEntry>)
    requires DistinctIds(entries)
    ensures IngredientProblem(catalog, entries) != Some(DuplicateIngredient)
  {
    if |entries| > 0 {
      var init, last := entries[..|entries| - 1], entries[|entries| - 1];
      assert DistinctIds(init);
      DistinctIdsNeverDuplicate(catalog, init);
      assert last.id !in Ids(init) by {
        forall i | 0 <= i < |init| ensures Ids(init)[i] != last.id {
          assert entries[i].id != entries[|entries| - 1].id;
        }
      }
    }
  }

  /**
   * The verdict of the ingredient check, case by case: an unknown id among
   * distinct ids is not-found, a repeated id among known ids is a duplicate.
   */
  lemma IngredientCheckVerdicts(catalog: map<IngredientId, Ingredient>, entries: seq<IngredientEntry>)
    ensures DistinctIds(entries) && !AllKnown(catalog, entries) ==>
              IngredientProblem(catalog, entries) == Some(IngredientNotFound)
    ensures AllKnown(catalog, entries) && !DistinctIds(entries) ==>
              IngredientProblem(catalog, entries) == Some(DuplicateIngredient)
    ensures AllKnown(catalog, entries) && DistinctIds(entries) ==>
              IngredientProblem(catalog, entries) == None
  {
    IngredientProblemNoneIff(catalog, entries);
    IngredientProblemValues(catalog, entries);
    if DistinctIds(entries) {
      DistinctIdsNeverDuplicate(catalog, entries);
    }
    if AllKnown(catalog, entries) {
      KnownIdsNeverNotFound(catalog, entries);
    }
  }

  /** The check answers nothing, not-found or duplicate, and nothing else. */
  lemma {:induction false} IngredientProblemValues(catalog: map<IngredientId, Ingredient>, entries: seq<IngredientEntry>)
    ensures IngredientProblem(catalog, entries) in {None, Some(IngredientNotFound), Some(DuplicateIngredient)}
  {
    if |entries| > 0 {
      IngredientProblemValues(catalog, entries[..|entries| - 1]);
    }
  }

  /**
   * The loop of RecipePostSerializer.validate over the submitted
   * ingredients, collecting those seen so far in a list.
   */
  method CheckIngredients(catalog: map<IngredientId, Ingredient>, entries: seq<IngredientEntry>)
    returns (problem: Option<Reason>)
    ensures problem == IngredientProblem(catalog, entries)
    ensures problem == None <==> AllKnown(catalog, entries) && DistinctIds(entries)
  {
    var seen: seq<IngredientId> := [];
    for i := 0 to |entries|
      invariant seen == Ids(entries[..i])
      invariant IngredientProblem(catalog, entries[..i]) == None
    {
      var id := entries[i].id;
      assert entries[..i + 1][..i] == entries[..i];
      if id !in catalog {
        PrefixProblemPersists(catalog, entries, i + 1);
        IngredientProblemNoneIff(catalog, entries);
        return Some(IngredientNotFound);
      }
      if id in seen {
        PrefixProblemPersists(catalog, entries, i + 1);
        IngredientProblemNoneIff(catalog, entries);
        return Some(DuplicateIngredient);
      }
      seen := seen + [id];
    }
    assert entries[..|entries|] == entries;
    IngredientProblemNoneIff(catalog, entries);
    return None;
  }

  predicate NameInCatalog(tagCatalog: map<TagId, Tag>, name: string) {
    exists k :: k in tagCatalog && tagCatalog[k].name == name
  }

  /**
   * The tag part of validate: an empty list is refused, then every tag is
   * looked up by its name. The tags reach validate already resolved to rows.
   */
  function TagProblem(tagCatalog: map<TagId, Tag>, tags: seq<TagId>): Option<Reason>
    requires TagsResolved(tagCatalog, tags)
  {
    if |tags| == 0 then Some(NoTags)
    else if exists i :: 0 <= i < |tags| && !NameInCatalog(tagCatalog, tagCatalog[tags[i]].name) then Some(TagDoesNotExist)
    else None
  }

  /** On resolved tags the lookup by name always succeeds: only emptiness is refused. */
  lemma ResolvedTagsPassNameCheck(tagCatalog: map<TagId, Tag>, tags: seq<TagId>)
    requires TagsResolved(tagCatalog, tags)
    ensures TagProblem(tagCatalog, tags) == None <==> |tags| > 0
    ensures |tags| == 0 ==> TagProblem(tagCatalog, tags) == Some(NoTags)
  {
    forall i | 0 <= i < |tags| ensures NameInCatalog(tagCatalog, tagCatalog[tags[i]].name) {
      var k := tags[i];
      assert k in tagCatalog && tagCatalog[k].name == tagCatalog[tags[i]].name;
    }
  }

  /**
   * The whole pipeline of a recipe write: field-level checks first (all
   * failures together), then validate, which stops at its first problem.
   * Valid data come back with their character fields trimmed.
   */
  function ValidateWrite(ingredientCatalog: map<IngredientId, Ingredient>, tagCatalog: map<TagId, Tag>,
                         w: RecipeWrite, partial: bool): (r: Result<RecipeWrite>)
    ensures r.Ok? ==> r.value == Cleaned(w)
  {
    var errors := FieldErrors(tagCatalog, w, partial);
    if errors != {} then Err(errors)
    else if w.ingredients.None? then Err({MissingKey})
    else match IngredientProblem(ingredientCatalog, w.ingredients.value)
      case Some(reason) => Err({reason})
      case None =>
        if w.tags.None? then Err({MissingKey})
        else
          assert !(w.tags.Some? && !TagsResolved(tagCatalog, w.tags.value)) by {
            assert (if w.tags.Some? && !TagsResolved(tagCatalog, w.tags.value) then {InvalidTagPk} else {}) <= errors;
          }
          match TagProblem(tagCatalog, w.tags.value)
          case Some(reason) => Err({reason})
          case None => Ok(Cleaned(w))
  }

  /** What an accepted write guarantees before any row is written. */
  lemma AcceptedWrite(ingredientCatalog: map<IngredientId, Ingredient>, tagCatalog: map<TagId, Tag>,
                      w: RecipeWrite, partial: bool)
    requires ValidateWrite(ingredientCatalog, tagCatalog, w, partial).Ok?
    ensures w.ingredients.Some? && |w.ingredients.value| > 0
    ensures AllKnown(ingredientCatalog, w.ingredients.value) && DistinctIds(w.ingredients.value)
    ensures AmountsPositive(w.ingredients.value)
    ensures w.tags.Some? && |w.tags.value| > 0 && TagsResolved(tagCatalog, w.tags.value)
    ensures w.cookingTime.Some? ==> w.cookingTime.value >= MinCookingTime
    ensures !partial ==> w.name.Some? && w.text.Some? && w.cookingTime.Some?
    ensures w.name.Some? ==> 0 < |Strip(w.name.value)| <= MaxNameLength && '\0' !in w.name.value
    ensures w.text.Some? ==> 0 < |Strip(w.text.value)| <= MaxTextLength && '\0' !in w.text.value
    ensures StorableWrite(ingredientCatalog, tagCatalog, w)
  {
    var errors := FieldErrors(tagCatalog, w, partial);
    assert errors == {};
    assert w.name.Some? ==> ErrorsOf(ValidateChars(w.name.value, MaxNameLength, NameBlank, NameTooLong, NameNullCharacter)) <= errors;
    assert w.text.Some? ==> ErrorsOf(ValidateChars(w.text.value, MaxTextLength, TextBlank, TextTooLong, TextNullCharacter)) <= errors;
    assert ErrorsOf(ValidateIngredients(w.ingredients.value)) <= errors;
    assert w.cookingTime.Some? ==> ErrorsOf(ValidateCookingTime(w.cookingTime.value)) <= errors;
    assert RequiredErrors(w, partial) <= errors;
    assert (if w.tags.Some? && !TagsResolved(tagCatalog, w.tags.value) then {InvalidTagPk} else {}) <= errors;
    IngredientProblemNoneIff(ingredientCatalog, w.ingredients.value);
  }

  /**
   * The converse: a write whose fields pass, whose ingredients are distinct
   * and known and whose tag list is non-empty is accepted.
   */
  lemma ValidWriteAccepted(ingredientCatalog: map<IngredientId, Ingredient>, tagCatalog: map<TagId, Tag>,
                           w: RecipeWrite, partial: bool)
    requires FieldErrors(tagCatalog, w, partial) == {}
    requires w.ingredients.Some? && AllKnown(ingredientCatalog, w.ingredients.value)
    requires DistinctIds(w.ingredients.value)
    requires w.tags.Some? && |w.tags.value| > 0
    ensures ValidateWrite(ingredientCatalog, tagCatalog, w, partial) == Ok(Cleaned(w))
  {
    IngredientProblemNoneIff(ingredientCatalog, w.ingredients.value);
    assert (if w.tags.Some? && !TagsResolved(tagCatalog, w.tags.value) then {InvalidTagPk} else {})
           <= FieldErrors(tagCatalog, w, partial);
    ResolvedTagsPassNameCheck(tagCatalog, w.tags.value);
  }

  /** What validation hands on passes validation again, unchanged: `create` and `update` get a fixed point. */
  lemma ValidatedDataRevalidates(ingredientCatalog: map<IngredientId, Ingredient>, tagCatalog: map<TagId, Tag>,
                                 w: RecipeWrite, partial: bool)
    requires ValidateWrite(ingredientCatalog, tagCatalog, w, partial).Ok?
    ensures ValidateWrite(ingredientCatalog, tagCatalog, Cleaned(w), partial) == Ok(Cleaned(w))
  {
    AcceptedWrite(ingredientCatalog, tagCatalog, w, partial);
    var c := Cleaned(w);
    if w.name.Some? {
      StripIdempotent(w.name.value);
      StripKeepsNull(w.name.value);
    }
    if w.text.Some? {
      StripIdempotent(w.text.value);
      StripKeepsNull(w.text.value);
    }
    assert Cleaned(c) == c;
    assert FieldErrors(tagCatalog, w, partial) == {};
    assert RequiredErrors(c, partial) == RequiredErrors(w, partial);
    assert FieldErrors(tagCatalog, c, partial) == {};
    ValidWriteAccepted(ingredientCatalog, tagCatalog, c, partial);
  }

  /** A blank or over-long name or text, or one holding U+0000, is refused, whatever else is wrong. */
  lemma CharFieldsRefused(ingredientCatalog: map<IngredientId, Ingredient>, tagCatalog: map<TagId, Tag>,
                          w: RecipeWrite, partial: bool)
    ensures w.name.Some? && |Strip(w.name.value)| == 0 ==>
              ValidateWrite(ingredientCatalog, tagCatalog, w, partial).Err? &&
              NameBlank in ValidateWrite(ingredientCatalog, tagCatalog, w, partial).reasons
    ensures w.name.Some? && |Strip(w.name.value)| > MaxNameLength ==>
              ValidateWrite(ingredientCatalog, tagCatalog, w, partial).Err? &&
              NameTooLong in ValidateWrite(ingredientCatalog, tagCatalog, w, partial).reasons
    ensures w.text.Some? && |Strip(w.text.value)| == 0 ==>
              ValidateWrite(ingredientCatalog, tagCatalog, w, partial).Err? &&
              TextBlank in ValidateWrite(ingredientCatalog, tagCatalog, w, partial).reasons
    ensures w.text.Some? && |Strip(w.text.value)| > MaxTextLength ==>
              ValidateWrite(ingredientCatalog, tagCatalog, w, partial).Err? &&
              TextTooLong in ValidateWrite(ingredientCatalog, tagCatalog, w, partial).reasons
    ensures w.name.Some? && |Strip(w.name.value)| > 0 && '\0' in w.name.value ==>
              ValidateWrite(ingredientCatalog, tagCatalog, w, partial).Err? &&
              NameNullCharacter in ValidateWrite(ingredientCatalog, tagCatalog, w, partial).reasons
    ensures w.text.Some? && |Strip(w.text.value)| > 0 && '\0' in w.text.value ==>
              ValidateWrite(ingredientCatalog, tagCatalog, w, partial).Err? &&
              TextNullCharacter in ValidateWrite(ingredientCatalog, tagCatalog, w, partial).reasons
  {
    var errors := FieldErrors(tagCatalog, w, partial);
    assert w.name.Some? ==> ErrorsOf(ValidateChars(w.name.value, MaxNameLength, NameBlank, NameTooLong, NameNullCharacter)) <= errors;
    assert w.text.Some? ==> ErrorsOf(ValidateChars(w.text.value, MaxTextLength, TextBlank, TextTooLong, TextNullCharacter)) <= errors;
  }

  /** A refused write: duplicate ids among known ones, with every field in order. */
  lemma DuplicateIngredientRefused(ingredientCatalog: map<IngredientId, Ingredient>, tagCatalog: map<TagId, Tag>,
                                   w: RecipeWrite, partial: bool)
    requires FieldErrors(tagCatalog, w, partial) == {}
    requires w.ingredients.Some? && AllKnown(ingredientCatalog, w.ingredients.value)
    requires !DistinctIds(w.ingredients.value)
    ensures ValidateWrite(ingredientCatalog, tagCatalog, w, partial) == Err({DuplicateIngredient})
    ensures StatusOf({DuplicateIngredient}) == BadRequest400
  {
    IngredientCheckVerdicts(ingredientCatalog, w.ingredients.value);
  }

  /** An unknown ingredient among distinct ones answers 404. */
  lemma UnknownIngredientNotFound(ingredientCatalog: map<IngredientId, Ingredient>, tagCatalog: map<TagId, Tag>,
                                  w: RecipeWrite, partial: bool)
    requires FieldErrors(tagCatalog, w, partial) == {}
    requires w.ingredients.Some? && DistinctIds(w.ingredients.value)
    requires !AllKnown(ingredientCatalog, w.ingredients.value)
    ensures ValidateWrite(ingredientCatalog, tagCatalog, w, partial) == Err({IngredientNotFound})
    ensures StatusOf({IngredientNotFound}) == NotFound404
  {
    IngredientCheckVerdicts(ingredientCatalog, w.ingredients.value);
  }

  /** An empty tag list is refused once the ingredients pass. */
  lemma EmptyTagsRefused(ingredientCatalog: map<IngredientId, Ingredient>, tagCatalog: map<TagId, Tag>,
                         w: RecipeWrite, partial: bool)
    requires FieldErrors(tagCatalog, w, partial) == {}
    requires w.ingredients.Some? && AllKnown(ingredientCatalog, w.ingredients.value)
    requires DistinctIds(w.ingredients.value)
    requires w.tags == Some([])
    ensures ValidateWrite(ingredientCatalog, tagCatalog, w, partial) == Err({NoTags})
  {
    IngredientCheckVerdicts(ingredientCatalog, w.ingredients.value);
  }

  /** Out-of-range numbers and an empty ingredient list are refused, whatever else is wrong. */
  lemma OutOfRangeRefused(ingredientCatalog: map<IngredientId, Ingredient>, tagCatalog: map<TagId, Tag>,
                          w: RecipeWrite, partial: bool)
    ensures w.cookingTime.Some? && w.cookingTime.value < MinCookingTime ==>
              ValidateWrite(ingredientCatalog, tagCatalog, w, partial).Err? &&
              CookingTimeTooSmall in ValidateWrite(ingredientCatalog, tagCatalog, w, partial).reasons
    ensures w.ingredients.Some? && |w.ingredients.value| == 0 ==>
              ValidateWrite(ingredientCatalog, tagCatalog, w, partial).Err? &&
              NoIngredients in ValidateWrite(ingredientCatalog, tagCatalog, w, partial).reasons
    ensures w.ingredients.Some? && |w.ingredients.value| > 0 && !AmountsPositive(w.ingredients.value) ==>
              ValidateWrite(ingredientCatalog, tagCatalog, w, partial).Err? &&
              AmountTooSmall in ValidateWrite(ingredientCatalog, tagCatalog, w, partial).reasons
  {
  }

  /**
   * A partial write (PATCH) that leaves out the ingredients or the tags
   * never passes validate: the missing key is read and raises, a 500.
   */
  lemma PartialWriteNeedsBothLists(ingredientCatalog: map<IngredientId, Ingredient>, tagCatalog: map<TagId, Tag>,
                                   w: RecipeWrite)
    requires w.ingredients.None? || w.tags.None?
    ensures ValidateWrite(ingredientCatalog, tagCatalog, w, true).Err?
    ensures FieldErrors(tagCatalog, w, true) == {} &&
            (w.ingredients.None? || IngredientProblem(ingredientCatalog, w.ingredients.value) == None) ==>
              ValidateWrite(ingredientCatalog, tagCatalog, w, true) == Err({MissingKey})
              && StatusOf({MissingKey}) == ServerError500
  {
  }

  // ---------------------------------------------------------------------------
  // Rows and tag links written by create / update
  // ---------------------------------------------------------------------------

  function RowFor(recipe: RecipeId, e: IngredientEntry): RecipeIngredient {
    RecipeIngredient(recipe, e.id, e.amount)
  }

  /** The rows create_ingredients inserts: one per entry, in submission order. */
  function RowsFor(recipe: RecipeId, entries: seq<IngredientEntry>): seq<RecipeIngredient> {
    seq(|entries|, i requires 0 <= i < |entries| => RowFor(recipe, entries[i]))
  }

  /** The rows of one recipe, in table order. */
  function RowsOf(rows: seq<RecipeIngredient>, recipe: RecipeId): (r: seq<RecipeIngredient>)
    ensures forall x :: x in r <==> x in rows && x.recipe == recipe
  {
    if |rows| == 0 then []
    else
      assert rows == [rows[0]] + rows[1..];
      (if rows[0].recipe == recipe then [rows[0]] else []) + RowsOf(rows[1..], recipe)
  }

  /** The table after `ingredients.clear()` on one recipe: every other recipe's rows, in order. */
  function RowsWithout(rows: seq<RecipeIngredient>, recipe: RecipeId): (r: seq<RecipeIngredient>)
    ensures forall x :: x in r <==> x in rows && x.recipe != recipe
  {
    if |rows| == 0 then []
    else
      assert rows == [rows[0]] + rows[1..];
      (if rows[0].recipe != recipe then [rows[0]] else []) + RowsWithout(rows[1..], recipe)
  }

  /** The `{id, amount}` entries a sequence of rows stands for. */
  function EntriesOf(rows: seq<RecipeIngredient>): seq<IngredientEntry> {
    seq(|rows|, i requires 0 <= i < |rows| => IngredientEntry(rows[i].ingredient, rows[i].amount))
  }

  /** Reading the inserted rows back gives exactly the submitted entries. */
  lemma RowsForRoundTrip(recipe: RecipeId, entries: seq<IngredientEntry>)
    ensures EntriesOf(RowsFor(recipe, entries)) == entries
    ensures |RowsFor(recipe, entries)| == |entries|
  {
  }

  /** A recipe no row refers to has no rows. */
  lemma RowsOfAbsent(rows: seq<RecipeIngredient>, recipe: RecipeId)
    requires forall x :: x in rows ==> x.recipe != recipe
    ensures RowsOf(rows, recipe) == []
  {
    if RowsOf(rows, recipe) != [] {
      assert RowsOf(rows, recipe)[0] in RowsOf(rows, recipe);
    }
  }

  lemma {:induction false} RowsOfConcat(a: seq<RecipeIngredient>, b: seq<RecipeIngredient>, recipe: RecipeId)
    ensures RowsOf(a + b, recipe) == RowsOf(a, recipe) + RowsOf(b, recipe)
  {
    if |a| == 0 {
      assert a + b == b;
    } else {
      assert (a + b)[1..] == a[1..] + b;
      RowsOfConcat(a[1..], b, recipe);
    }
  }

  /** The inserted rows all belong to their recipe and to no other. */
  lemma {:induction false} RowsForOwnership(recipe: RecipeId, entries: seq<IngredientEntry>, other: RecipeId)
    ensures RowsOf(RowsFor(recipe, entries), recipe) == RowsFor(recipe, entries)
    ensures other != recipe ==> RowsOf(RowsFor(recipe, entries), other) == []
  {
    if |entries| > 0 {
      var rows := RowsFor(recipe, entries);
      assert rows[1..] == RowsFor(recipe, entries[1..]);
      RowsForOwnership(recipe, entries[1..], other);
      assert rows == [rows[0]] + rows[1..];
    }
  }

  /** Clearing one recipe's rows leaves it none and every other recipe its own. */
  lemma {:induction false} RowsWithoutOwnership(rows: seq<RecipeIngredient>, recipe: RecipeId, other: RecipeId)
    ensures RowsOf(RowsWithout(rows, recipe), recipe) == []
    ensures other != recipe ==> RowsOf(RowsWithout(rows, recipe), other) == RowsOf(rows, other)
  {
    if |rows| > 0 {
      RowsWithoutOwnership(rows[1..], recipe, other);
      var head: seq<RecipeIngredient> := if rows[0].recipe != recipe then [rows[0]] else [];
      RowsOfConcat(head, RowsWithout(rows[1..], recipe), recipe);
      RowsOfConcat(head, RowsWithout(rows[1..], recipe), other);
    }
  }

  /**
   * The ingredient half of update: after clear-then-insert the recipe has
   * exactly the new entries, and every other recipe keeps its rows.
   */
  lemma ReplaceIngredients(rows: seq<RecipeIngredient>, recipe: RecipeId, entries: seq<IngredientEntry>, other: RecipeId)
    ensures RowsOf(RowsWithout(rows, recipe) + RowsFor(recipe, entries), recipe) == RowsFor(recipe, entries)
    ensures other != recipe ==>
              RowsOf(RowsWithout(rows, recipe) + RowsFor(recipe, entries), other) == RowsOf(rows, other)
  {
    RowsOfConcat(RowsWithout(rows, recipe), RowsFor(recipe, entries), recipe);
    RowsOfConcat(RowsWithout(rows, recipe), RowsFor(recipe, entries), other);
    RowsWithoutOwnership(rows, recipe, other);
    RowsForOwnership(recipe, entries, other);
  }

  /** The ingredient half of create: a recipe without rows gets exactly the entries. */
  lemma AppendIngredients(rows: seq<RecipeIngredient>, recipe: RecipeId, entries: seq<IngredientEntry>, other: RecipeId)
    requires RowsOf(rows, recipe) == []
    ensures RowsOf(rows + RowsFor(recipe, entries), recipe) == RowsFor(recipe, entries)
    ensures other != recipe ==> RowsOf(rows + RowsFor(recipe, entries), other) == RowsOf(rows, other)
  {
    RowsOfConcat(rows, RowsFor(recipe, entries), recipe);
    RowsOfConcat(rows, RowsFor(recipe, entries), other);
    RowsForOwnership(recipe, entries, other);
  }

  /** The Recipe.tags many-to-many table, as (recipe, tag) links. */
  function Links(recipe: RecipeId, tags: seq<TagId>): set<(RecipeId, TagId)> {
    set t | t in tags :: (recipe, t)
  }

  function TagsOf(links: set<(RecipeId, TagId)>, recipe: RecipeId): set<TagId> {
    set p | p in links && p.0 == recipe :: p.1
  }

  function LinksWithout(links: set<(RecipeId, TagId)>, recipe: RecipeId): set<(RecipeId, TagId)> {
    set p | p in links && p.0 != recipe
  }

  /** `tags.set(...)`: the recipe's tag set becomes the submitted tags; other recipes keep theirs. */
  lemma SetTags(links: set<(RecipeId, TagId)>, recipe: RecipeId, tags: seq<TagId>, other: RecipeId)
    ensures TagsOf(LinksWithout(links, recipe) + Links(recipe, tags), recipe) == set t | t in tags
    ensures other != recipe ==> TagsOf(LinksWithout(links, recipe) + Links(recipe, tags), other) == TagsOf(links, other)
  {
    var after := LinksWithout(links, recipe) + Links(recipe, tags);
    forall t ensures t in TagsOf(after, recipe) <==> t in tags {
      if t in TagsOf(after, recipe) {
        assert (recipe, t) in after;
        assert (recipe, t) in Links(recipe, tags);
      }
      if t in tags {
        assert (recipe, t) in Links(recipe, tags);
      }
    }
    if other != recipe {
      forall t ensures t in TagsOf(after, other) <==> t in TagsOf(links, other) {
        assert t in TagsOf(after, other) ==> (other, t) in after;
        assert t in TagsOf(links, other) ==> (other, t) in links;
      }
    }
  }

  // ---------------------------------------------------------------------------
  // Viewer flags and follow validation
  // ---------------------------------------------------------------------------

  /** RecipeSerializer.get_is_favorited. */
  function IsFavorited(favorites: set<(UserId, RecipeId)>, viewer: Viewer, recipe: RecipeId): bool {
    viewer.Member? && (viewer.id, recipe) in favorites
  }

  /** RecipeSerializer.get_is_in_shopping_cart. */
  function IsInShoppingCart(cart: set<(UserId, RecipeId)>, viewer: Viewer, recipe: RecipeId): bool {
    viewer.Member? && (viewer.id, recipe) in cart
  }

  /** UserSerializer.get_is_subscribed; `request` is None when the context has no request. */
  function IsSubscribed(follows: set<(UserId, UserId)>, request: Option<Viewer>, user: UserId): bool {
    request.Some? && request.value.Member? && (request.value.id, user) in follows
  }

  /** The recipe flags are false for an anonymous viewer, and otherwise are membership in the table. */
  lemma FlagsAreMembership(favorites: set<(UserId, RecipeId)>, cart: set<(UserId, RecipeId)>, viewer: Viewer,
                           recipe: RecipeId)
    ensures viewer.Anonymous? ==> !IsFavorited(favorites, viewer, recipe) && !IsInShoppingCart(cart, viewer, recipe)
    ensures viewer.Member? ==>
              (IsFavorited(favorites, viewer, recipe) <==> (viewer.id, recipe) in favorites)
              && (IsInShoppingCart(cart, viewer, recipe) <==> (viewer.id, recipe) in cart)
  {
  }

  /** is_subscribed is false without a request or for an anonymous viewer, and otherwise is a Follow lookup. */
  lemma SubscribedIsMembership(follows: set<(UserId, UserId)>, request: Option<Viewer>, user: UserId)
    ensures request.None? || request.value.Anonymous? ==> !IsSubscribed(follows, request, user)
    ensures request.Some? && request.value.Member? ==>
              (IsSubscribed(follows, request, user) <==> (request.value.id, user) in follows)
  {
  }

  /** UserFollowSerializer.validate: an existing follow is refused first, then a self follow. */
  function ValidateFollow(follows: set<(UserId, UserId)>, user: UserId, author: UserId): (r: Option<Reason>)
    ensures r == None <==> (user, author) !in follows && user != author
    ensures (user, author) in follows ==> r == Some(AlreadySubscribed)
    ensures (user, author) !in follows && user == author ==> r == Some(SelfSubscription)
  {
    if (user, author) in follows then Some(AlreadySubscribed)
    else if user == author then Some(SelfSubscription)
    else None
  }

  // ---------------------------------------------------------------------------
  // UserFollowSerializer.get_recipes / get_recipes_count
  // ---------------------------------------------------------------------------

  /** The author's recipes, in the order of the listing they are drawn from. */
  function AuthorRecipes(listing: seq<Recipe>, author: UserId): seq<Recipe> {
    if |listing| == 0 then []
    else (if listing[0].author == author then [listing[0]] else []) + AuthorRecipes(listing[1..], author)
  }

  /** The author's recipes are exactly the listed recipes by that author, in the listing's order. */
  lemma {:induction false} AuthorRecipesSpec(listing: seq<Recipe>, author: UserId)
    ensures forall r :: r in AuthorRecipes(listing, author) <==> r in listing && r.author == author
    ensures IsSubsequence(AuthorRecipes(listing, author), listing)
    ensures |AuthorRecipes(listing, author)| <= |listing|
    decreases |listing|
  {
    if |listing| > 0 {
      AuthorRecipesSpec(listing[1..], author);
      assert listing == [listing[0]] + listing[1..];
      var rest := AuthorRecipes(listing[1..], author);
      if listing[0].author == author {
        assert AuthorRecipes(listing, author) == [listing[0]] + rest;
        assert ([listing[0]] + rest)[1..] == rest;
      } else {
        assert AuthorRecipes(listing, author) == rest;
      }
    }
  }

  /** Each of the author's recipes occurs as many times as it is listed; no other recipe occurs. */
  lemma {:induction false} AuthorRecipesMultiplicity(listing: seq<Recipe>, author: UserId)
    ensures forall r :: multiset(AuthorRecipes(listing, author))[r] ==
                          (if r.author == author then multiset(listing)[r] else 0)
    decreases |listing|
  {
    if |listing| > 0 {
      AuthorRecipesMultiplicity(listing[1..], author);
      assert listing == [listing[0]] + listing[1..];
    }
  }

  /** The author's recipes in a concatenation are those of each part, appended. */
  lemma {:induction false} AuthorRecipesAppend(a: seq<Recipe>, b: seq<Recipe>, author: UserId)
    ensures AuthorRecipes(a + b, author) == AuthorRecipes(a, author) + AuthorRecipes(b, author)
    decreases |a|
  {
    if |a| > 0 {
      assert (a + b)[1..] == a[1..] + b;
      AuthorRecipesAppend(a[1..], b, author);
    } else {
      assert a + b == b;
    }
  }

  /** The positions of the listing that hold a recipe by the author. */
  ghost function AuthorPositions(listing: seq<Recipe>, author: UserId): set<nat> {
    set i: nat | i < |listing| && listing[i].author == author
  }

  /** As many recipes are the author's as there are positions holding one. */
  lemma {:induction false} AuthorRecipesCount(listing: seq<Recipe>, author: UserId)
    ensures |AuthorRecipes(listing, author)| == |AuthorPositions(listing, author)|
    decreases |listing|
  {
    if |listing| == 0 {
      assert AuthorPositions(listing, author) == {};
    } else {
      var n := |listing| - 1;
      var init := listing[..n];
      assert listing == init + [listing[n]];
      AuthorRecipesAppend(init, [listing[n]], author);
      AuthorRecipesCount(init, author);
      assert [listing[n]][1..] == [];
      if listing[n].author == author {
        assert AuthorPositions(listing, author) == AuthorPositions(init, author) + {n};
      } else {
        assert AuthorPositions(listing, author) == AuthorPositions(init, author);
      }
    }
  }

  /**
   * get_recipes: with a limit, the first `limit` of the author's recipes
   * (a negative limit makes the query raise); without one, all of them.
   * `limit` is None when recipes_limit is absent or empty.
   */
  function GetRecipes(listing: seq<Recipe>, author: UserId, limit: Option<int>): (r: Result<seq<Recipe>>)
    ensures limit.None? ==> r == Ok(AuthorRecipes(listing, author))
    ensures limit.Some? && limit.value < 0 ==> r == Err({NegativeLimit})
    ensures limit.Some? && limit.value >= 0 ==>
              r.Ok?
              && |r.value| == (if limit.value < GetRecipesCount(listing, author)
                               then limit.value else GetRecipesCount(listing, author))
              && r.value == AuthorRecipes(listing, author)[..|r.value|]
  {
    var all := AuthorRecipes(listing, author);
    match limit
    case None => Ok(all)
    case Some(n) =>
      if n < 0 then Err({NegativeLimit})
      else if n < |all| then Ok(all[..n])
      else Ok(all)
  }

  /** get_recipes_count: the number of the author's recipes; zero exactly when the listing has none of theirs. */
  function GetRecipesCount(listing: seq<Recipe>, author: UserId): (n: nat)
    ensures n == |AuthorPositions(listing, author)|
    ensures n <= |listing|
    ensures n == 0 <==> forall r :: r in listing ==> r.author != author
  {
    AuthorRecipesSpec(listing, author);
    AuthorRecipesCount(listing, author);
    var all := AuthorRecipes(listing, author);
    assert |all| > 0 ==> all[0] in all;
    |all|
  }

  /**
   * Every recipe get_recipes returns is the author's, there are at most
   * `limit` of them, and they keep the listing's order: the first ones.
   */
  lemma LimitedRecipesAreTheAuthors(listing: seq<Recipe>, author: UserId, limit: Option<int>)
    requires GetRecipes(listing, author, limit).Ok?
    ensures forall r :: r in GetRecipes(listing, author, limit).value ==> r in listing && r.author == author
    ensures limit.Some? ==> |GetRecipes(listing, author, limit).value| <= limit.value
    ensures |GetRecipes(listing, author, limit).value| <= GetRecipesCount(listing, author)
    ensures IsSubsequence(GetRecipes(listing, author, limit).value, listing)
  {
    AuthorRecipesSpec(listing, author);
    var all := AuthorRecipes(listing, author);
    var got := GetRecipes(listing, author, limit).value;
    SubsequencePrefix(all, listing, |got|);
    forall r | r in got ensures r in all {
      var i :| 0 <= i < |got| && got[i] == r;
      assert all[i] == r;
    }
  }
}
