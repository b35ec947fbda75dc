/**
 * The logic of api/views.py that does not depend on where the tables live:
 * the transitions of the favorite / shopping-cart / subscribe toggles, the
 * grouped sum behind download_shopping_cart, and the text it renders.
 */
module Views {
  import opened Domain
  import opened Serializers

  // ---------------------------------------------------------------------------
  // Toggle actions
  // ---------------------------------------------------------------------------

  /** The status of a toggle request and the association table after it. */
  datatype Transition<P> = Transition(status: Status, table: set<P>)

  /**
   * AddDelMixin._add_del_obj on one association table (Favorites or Cart):
   * 404 for an unknown recipe; POST on an absent pair inserts it (201);
   * DELETE on a present pair removes it (204); anything else is a 400.
   */
  function AddDelStep(table: set<(UserId, RecipeId)>, targetExists: bool, user: UserId, target: RecipeId, verb: Verb)
    : Transition<(UserId, RecipeId)>
  {
    if !targetExists then Transition(NotFound404, table)
    else if verb == Post && (user, target) !in table then Transition(Created201, table + {(user, target)})
    else if verb == Delete && (user, target) in table then Transition(NoContent204, table - {(user, target)})
    else Transition(BadRequest400, table)
  }

  /** A toggle only ever touches the acting user's pair with the target; rows of other users stay. */
  lemma AddDelTouchesOnlyItsPair(table: set<(UserId, RecipeId)>, targetExists: bool, user: UserId, target: RecipeId,
                                 verb: Verb)
    ensures forall p :: p != (user, target) ==> (p in AddDelStep(table, targetExists, user, target, verb).table <==> p in table)
  {
  }

  /** Each status names the state change: 201 inserted, 204 removed, 400 and 404 changed nothing. */
  lemma AddDelStatusMeansState(table: set<(UserId, RecipeId)>, targetExists: bool, user: UserId, target: RecipeId,
                               verb: Verb)
    ensures var t := AddDelStep(table, targetExists, user, target, verb);
            && (t.status == Created201 <==> targetExists && verb == Post && (user, target) !in table)
            && (t.status == Created201 ==> t.table == table + {(user, target)})
            && (t.status == NoContent204 <==> targetExists && verb == Delete && (user, target) in table)
            && (t.status == NoContent204 ==> t.table == table - {(user, target)})
            && (t.status == NotFound404 <==> !targetExists)
            && (t.status in {BadRequest400, NotFound404} ==> t.table == table)
            && t.status in {Created201, NoContent204, BadRequest400, NotFound404}
  {
  }

  /** Adding and then removing restores the table; adding twice is refused the second time. */
  lemma AddDelRoundTrip(table: set<(UserId, RecipeId)>, user: UserId, target: RecipeId)
    requires (user, target) !in table
    ensures var added := AddDelStep(table, true, user, target, Post);
            && added.status == Created201
            && AddDelStep(added.table, true, user, target, Post) == Transition(BadRequest400, added.table)
            && AddDelStep(added.table, true, user, target, Delete) == Transition(NoContent204, table)
            && AddDelStep(table, true, user, target, Delete) == Transition(BadRequest400, table)
  {
  }

  /** After a successful toggle the viewer flags read the new state. */
  lemma FlagsFollowToggle(table: set<(UserId, RecipeId)>, targetExists: bool, user: UserId, target: RecipeId,
                          verb: Verb)
    ensures var t := AddDelStep(table, targetExists, user, target, verb);
            && (t.status == Created201 ==> IsFavorited(t.table, Member(user), target) && IsInShoppingCart(t.table, Member(user), target))
            && (t.status == NoContent204 ==> !IsFavorited(t.table, Member(user), target) && !IsInShoppingCart(t.table, Member(user), target))
            && (t.status in {BadRequest400, NotFound404} ==>
                  IsFavorited(t.table, Member(user), target) == IsFavorited(table, Member(user), target))
  {
  }

  /**
   * UserViewSet.subscribe as written: 404 for an unknown author; POST
   * creates the follow with no check (a duplicate breaks the unique
   * constraint on (user, author) and nothing catches it: a 500); DELETE
   * removes an existing follow (204) or answers 404.
   */
  function SubscribeStep(follows: set<(UserId, UserId)>, authorExists: bool, user: UserId, author: UserId, verb: Verb)
    : Transition<(UserId, UserId)>
  {
    if !authorExists then Transition(NotFound404, follows)
    else if verb == Post then
      if (user, author) in follows then Transition(ServerError500, follows)
      else Transition(Ok200, follows + {(user, author)})
    else if (user, author) in follows then Transition(NoContent204, follows - {(user, author)})
    else Transition(NotFound404, follows)
  }

  /** subscribe: what each request does to the follow table. */
  lemma SubscribeTransitions(follows: set<(UserId, UserId)>, authorExists: bool, user: UserId, author: UserId, verb: Verb)
    ensures var t := SubscribeStep(follows, authorExists, user, author, verb);
            && (forall p :: p != (user, author) ==> (p in t.table <==> p in follows))
            && (t.status == Ok200 <==> authorExists && verb == Post && (user, author) !in follows)
            && (t.status == Ok200 ==> t.table == follows + {(user, author)})
            && (t.status == ServerError500 <==> authorExists && verb == Post && (user, author) in follows)
            && (t.status == NoContent204 <==> authorExists && verb == Delete && (user, author) in follows)
            && (t.status == NoContent204 ==> t.table == follows - {(user, author)})
            && (t.status in {ServerError500, NotFound404} ==> t.table == follows)
  {
  }

  predicate NoSelfFollows(follows: set<(UserId, UserId)>) {
    forall p :: p in follows ==> p.0 != p.1
  }

  /**
   * subscribe as written lets a user follow themself: the request is
   * answered 200 and the pair stored, where UserFollowSerializer.validate
   * refuses the same pair.
   */
  lemma SubscribeAdmitsSelfFollow(follows: set<(UserId, UserId)>, user: UserId)
    requires (user, user) !in follows
    ensures SubscribeStep(follows, true, user, user, Post) == Transition(Ok200, follows + {(user, user)})
    ensures !NoSelfFollows(SubscribeStep(follows, true, user, user, Post).table)
    ensures ValidateFollow(follows, user, user) == Some(SelfSubscription)
  {
  }

  /** subscribe with UserFollowSerializer.validate run before the follow is created. */
  function CheckedSubscribeStep(follows: set<(UserId, UserId)>, authorExists: bool, user: UserId, author: UserId,
                                verb: Verb): Transition<(UserId, UserId)>
  {
    if !authorExists then Transition(NotFound404, follows)
    else if verb == Post then
      match ValidateFollow(follows, user, author)
      case Some(_) => Transition(BadRequest400, follows)
      case None => Transition(Ok200, follows + {(user, author)})
    else SubscribeStep(follows, authorExists, user, author, verb)
  }

  /**
   * The checked subscribe never stores a self follow, never fails with a
   * 500, and creates a follow exactly when validation admits it.
   */
  lemma CheckedSubscribeNeverSelfFollows(follows: set<(UserId, UserId)>, authorExists: bool, user: UserId,
                                         author: UserId, verb: Verb)
    requires NoSelfFollows(follows)
    ensures var t := CheckedSubscribeStep(follows, authorExists, user, author, verb);
            && NoSelfFollows(t.table)
            && t.status != ServerError500
            && (t.status == Ok200 <==> authorExists && verb == Post && ValidateFollow(follows, user, author) == None)
            && (t.status == BadRequest400 ==> t.table == follows)
  {
  }

  // ---------------------------------------------------------------------------
  // Shopping list: the grouped sum
  // ---------------------------------------------------------------------------

  /** One line of the shopping list: an ingredient name, its unit and the summed amount. */
  datatype Line = Line(name: string, unit: string, amount: int)

  type Key = (string, string)

  function LineKey(l: Line): Key {
    (l.name, l.unit)
  }

  /** Every row refers to a catalog ingredient (the foreign key). */
  predicate Known(catalog: map<IngredientId, Ingredient>, rows: seq<RecipeIngredient>) {
    forall r :: r in rows ==> r.ingredient in catalog
  }

  /** The (name, unit) pair a row is grouped under. */
  function KeyOf(catalog: map<IngredientId, Ingredient>, row: RecipeIngredient): Key
    requires row.ingredient in catalog
  {
    (catalog[row.ingredient].name, catalog[row.ingredient].measurementUnit)
  }

  predicate HasCart(cart: set<(UserId, RecipeId)>, user: UserId) {
    exists p :: p in cart && p.0 == user
  }

  /**
   * The RecipeIngredient rows of the recipes in the user's cart (the join
   * through Cart; the pair is unique, so no row is counted twice).
   */
  function CartRows(rows: seq<RecipeIngredient>, cart: set<(UserId, RecipeId)>, user: UserId): (r: seq<RecipeIngredient>)
    ensures forall x :: x in r <==> x in rows && (user, x.recipe) in cart
  {
    if |rows| == 0 then []
    else
      assert rows == [rows[0]] + rows[1..];
      (if (user, rows[0].recipe) in cart then [rows[0]] else []) + CartRows(rows[1..], cart, user)
  }

  predicate RowsHaveKey(catalog: map<IngredientId, Ingredient>, rows: seq<RecipeIngredient>, k: Key)
    requires Known(catalog, rows)
  {
    exists i :: 0 <= i < |rows| && KeyOf(catalog, rows[i]) == k
  }

  /** The reference sum: the amounts of all rows grouped under `k`. */
  function Total(catalog: map<IngredientId, Ingredient>, rows: seq<RecipeIngredient>, k: Key): int
    requires Known(catalog, rows)
  {
    if |rows| == 0 then 0
    else
      var last := rows[|rows| - 1];
      Total(catalog, rows[..|rows| - 1], k) + (if KeyOf(catalog, last) == k then last.amount else 0)
  }

  predicate HasKey(lines: seq<Line>, k: Key) {
    exists i :: 0 <= i < |lines| && LineKey(lines[i]) == k
  }

  predicate DistinctKeys(lines: seq<Line>) {
    forall i, j :: 0 <= i < j < |lines| ==> LineKey(lines[i]) != LineKey(lines[j])
  }

  /** The amount of the first line grouped under `k`, or 0 when there is none. */
  function AmountOf(lines: seq<Line>, k: Key): int {
    if |lines| == 0 then 0
    else if LineKey(lines[0]) == k then lines[0].amount
    else AmountOf(lines[1..], k)
  }

  /** Adds `amount` to the line grouped under `k`, starting a new line at the end when there is none. */
  function AddTo(lines: seq<Line>, k: Key, amount: int): seq<Line> {
    if |lines| == 0 then [Line(k.0, k.1, amount)]
    else if LineKey(lines[0]) == k then [lines[0].(amount := lines[0].amount + amount)] + lines[1..]
    else [lines[0]] + AddTo(lines[1..], k, amount)
  }

  /**
   * The grouped sum of the shopping-list query (values on name and unit,
   * annotated with Sum('amount')). The query fixes no order; this one keeps
   * the order in which each group first appears.
   */
  function Aggregate(catalog: map<IngredientId, Ingredient>, rows: seq<RecipeIngredient>): seq<Line>
    requires Known(catalog, rows)
  {
    if |rows| == 0 then []
    else
      var last := rows[|rows| - 1];
      AddTo(Aggregate(catalog, rows[..|rows| - 1]), KeyOf(catalog, last), last.amount)
  }

  lemma {:induction false} AddToSpec(lines: seq<Line>, k: Key, amount: int)
    ensures forall k' :: HasKey(AddTo(lines, k, amount), k') <==> HasKey(lines, k') || k' == k
    ensures forall k' :: AmountOf(AddTo(lines, k, amount), k') == AmountOf(lines, k') + (if k' == k then amount else 0)
    ensures DistinctKeys(lines) ==> DistinctKeys(AddTo(lines, k, amount))
  {
    var r := AddTo(lines, k, amount);
    if |lines| == 0 {
      assert LineKey(r[0]) == k;
    } else if LineKey(lines[0]) == k {
      forall k' ensures HasKey(r, k') <==> HasKey(lines, k') || k' == k {
        if HasKey(lines, k') {
          var i :| 0 <= i < |lines| && LineKey(lines[i]) == k';
          assert LineKey(r[i]) == k';
        }
        if HasKey(r, k') {
          var i :| 0 <= i < |r| && LineKey(r[i]) == k';
          assert LineKey(lines[i]) == k';
        }
        if k' == k {
          assert LineKey(r[0]) == k;
        }
      }
      if DistinctKeys(lines) {
        forall i, j | 0 <= i < j < |r| ensures LineKey(r[i]) != LineKey(r[j]) {
          assert LineKey(r[i]) == LineKey(lines[i]) && LineKey(r[j]) == LineKey(lines[j]);
        }
      }
    } else {
      var rest := AddTo(lines[1..], k, amount);
      AddToSpec(lines[1..], k, amount);
      assert r == [lines[0]] + rest;
      forall k' ensures HasKey(r, k') <==> HasKey(lines, k') || k' == k {
        if HasKey(lines, k') {
          var i :| 0 <= i < |lines| && LineKey(lines[i]) == k';
          if i == 0 {
            assert LineKey(r[0]) == k';
          } else {
            assert LineKey(lines[1..][i - 1]) == k';
            assert HasKey(lines[1..], k');
            assert HasKey(rest, k');
            var j :| 0 <= j < |rest| && LineKey(rest[j]) == k';
            assert LineKey(r[j + 1]) == k';
          }
        }
        if k' == k {
          assert HasKey(rest, k');
          var j :| 0 <= j < |rest| && LineKey(rest[j]) == k';
          assert LineKey(r[j + 1]) == k';
        }
        if HasKey(r, k') {
          var i :| 0 <= i < |r| && LineKey(r[i]) == k';
          if i == 0 {
            assert LineKey(lines[0]) == k';
          } else {
            assert LineKey(rest[i - 1]) == k';
            if HasKey(lines[1..], k') {
              var j :| 0 <= j < |lines[1..]| && LineKey(lines[1..][j]) == k';
              assert LineKey(lines[j + 1]) == k';
            }
          }
        }
      }
      if DistinctKeys(lines) {
        assert DistinctKeys(lines[1..]);
        assert !HasKey(lines[1..], LineKey(lines[0])) by {
          forall j | 0 <= j < |lines[1..]| ensures LineKey(lines[1..][j]) != LineKey(lines[0]) {
            assert lines[1..][j] == lines[j + 1];
          }
        }
        forall i, j | 0 <= i < j < |r| ensures LineKey(r[i]) != LineKey(r[j]) {
          if i == 0 {
            assert r[j] == rest[j - 1];
            assert HasKey(rest, LineKey(r[j]));
          }
        }
      }
    }
  }

  /** With distinct keys, AmountOf reads each line's own amount. */
  lemma {:induction false} AmountOfAt(lines: seq<Line>, i: nat)
    requires DistinctKeys(lines) && i < |lines|
    ensures AmountOf(lines, LineKey(lines[i])) == lines[i].amount
  {
    if i > 0 {
      assert LineKey(lines[0]) != LineKey(lines[i]);
      assert DistinctKeys(lines[1..]);
      AmountOfAt(lines[1..], i - 1);
    }
  }

  /**
   * The grouped sum is correct: one line per (name, unit) that occurs among
   * the rows, no group twice, and each group's amount is its total.
   */
  lemma {:induction false} AggregateSpec(catalog: map<IngredientId, Ingredient>, rows: seq<RecipeIngredient>)
    requires Known(catalog, rows)
    ensures DistinctKeys(Aggregate(catalog, rows))
    ensures forall k :: HasKey(Aggregate(catalog, rows), k) <==> RowsHaveKey(catalog, rows, k)
    ensures forall k :: AmountOf(Aggregate(catalog, rows), k) == Total(catalog, rows, k)
  {
    if |rows| > 0 {
      var init, last := rows[..|rows| - 1], rows[|rows| - 1];
      assert Known(catalog, init);
      AggregateSpec(catalog, init);
      AddToSpec(Aggregate(catalog, init), KeyOf(catalog, last), last.amount);
      forall k ensures RowsHaveKey(catalog, rows, k) <==> RowsHaveKey(catalog, init, k) || KeyOf(catalog, last) == k {
        if RowsHaveKey(catalog, rows, k) {
          var i :| 0 <= i < |rows| && KeyOf(catalog, rows[i]) == k;
          if i < |init| {
            assert KeyOf(catalog, init[i]) == k;
          }
        }
        if RowsHaveKey(catalog, init, k) {
          var i :| 0 <= i < |init| && KeyOf(catalog, init[i]) == k;
          assert KeyOf(catalog, rows[i]) == k;
        }
      }
    }
  }

  /** The lines of a user's shopping list, as download_shopping_cart promises them. */
  lemma ShoppingListLines(catalog: map<IngredientId, Ingredient>, rows: seq<RecipeIngredient>,
                          cart: set<(UserId, RecipeId)>, user: UserId)
    requires Known(catalog, rows)
    ensures Known(catalog, CartRows(rows, cart, user))
    ensures var cartRows := CartRows(rows, cart, user);
            var lines := Aggregate(catalog, cartRows);
            && DistinctKeys(lines)
            && (forall k :: HasKey(lines, k) <==> RowsHaveKey(catalog, cartRows, k))
            && (forall i :: 0 <= i < |lines| ==> lines[i].amount == Total(catalog, cartRows, LineKey(lines[i])))
  {
    var cartRows := CartRows(rows, cart, user);
    AggregateSpec(catalog, cartRows);
    var lines := Aggregate(catalog, cartRows);
    forall i | 0 <= i < |lines| ensures lines[i].amount == Total(catalog, cartRows, LineKey(lines[i])) {
      AmountOfAt(lines, i);
    }
  }

  /** The example of two recipes sharing an ingredient: one line, with the amounts summed. */
  lemma SharedIngredientIsSummed()
    ensures var catalog := map[1 := Ingredient("salt", "g")];
            var rows := [RecipeIngredient(10, 1, 5), RecipeIngredient(20, 1, 3)];
            var cart := {(7, 10), (7, 20)};
            Aggregate(catalog, CartRows(rows, cart, 7)) == [Line("salt", "g", 8)]
  {
    var catalog := map[1 := Ingredient("salt", "g")];
    var rows := [RecipeIngredient(10, 1, 5), RecipeIngredient(20, 1, 3)];
    assert CartRows(rows, {(7, 10), (7, 20)}, 7) == rows;
    assert rows[..1] == [RecipeIngredient(10, 1, 5)];
    assert Aggregate(catalog, rows[..1]) == [Line("salt", "g", 5)];
  }

  // ---------------------------------------------------------------------------
  // Shopping list: the text
  // ---------------------------------------------------------------------------

  /** The answer of download_shopping_cart: a refusal, or a text attachment. */
  datatype Download = Refused(status: Status) | Attachment(filename: string, body: string)

  /** The date of the download, taken as a parameter. */
  datatype Date = Date(year: nat, month: nat, day: nat)

  function DigitChar(d: nat): char
    requires d < 10
  {
    "0123456789"[d]
  }

  /** Decimal digits of a natural number, without leading zeros. */
  function NatToString(n: nat): string
    decreases n
  {
    if n < 10 then [DigitChar(n)] else NatToString(n / 10) + [DigitChar(n % 10)]
  }

  /** The value of a string of decimal digits. */
  function DecimalValue(s: string): int {
    if |s| == 0 then 0 else DecimalValue(s[..|s| - 1]) * 10 + (s[|s| - 1] as int - '0' as int)
  }

  /** Reading the digits back gives the number, and there is never a leading zero. */
  lemma {:induction false} NatToStringRoundTrip(n: nat)
    ensures DecimalValue(NatToString(n)) == n
    ensures |NatToString(n)| > 0 && (n > 0 ==> NatToString(n)[0] != '0')
    ensures forall i :: 0 <= i < |NatToString(n)| ==> '0' <= NatToString(n)[i] <= '9'
  {
    if n >= 10 {
      NatToStringRoundTrip(n / 10);
      var s := NatToString(n);
      assert s[..|s| - 1] == NatToString(n / 10);
    }
  }

  /** `str()` of an int: a minus sign before the digits of a negative number. */
  function IntToString(i: int): string {
    if i < 0 then "-" + NatToString(-i) else NatToString(i)
  }

  /** A zero-padded two-digit field (%m, %d). */
  function TwoDigits(n: nat): string {
    if n < 10 then "0" + NatToString(n) else NatToString(n)
  }

  /** `{today:%Y-%m-%d}` */
  function FormatDate(d: Date): string {
    NatToString(d.year) + "-" + TwoDigits(d.month) + "-" + TwoDigits(d.day)
  }

  /** A month or a day below 100 takes exactly two digits, which read back as the number. */
  lemma TwoDigitsRoundTrip(n: nat)
    requires n < 100
    ensures |TwoDigits(n)| == 2 && DecimalValue(TwoDigits(n)) == n
  {
    NatToStringRoundTrip(n);
    var s := TwoDigits(n);
    if n < 10 {
      assert s[..1] == "0";
      assert DecimalValue("0") == DecimalValue("") * 10 + 0;
    } else {
      NatToStringRoundTrip(n / 10);
      assert NatToString(n / 10) == [DigitChar(n / 10)];
    }
  }

  /**
   * The rendered date splits back into its fields: the year's digits, a
   * dash, two digits of month, a dash, two digits of day.
   */
  lemma FormatDateRoundTrip(d: Date)
    requires d.month < 100 && d.day < 100
    ensures var s, y := FormatDate(d), |NatToString(d.year)|;
            && |s| == y + 6 && s[y] == '-' && s[y + 3] == '-'
            && DecimalValue(s[..y]) == d.year
            && DecimalValue(s[y + 1..y + 3]) == d.month
            && DecimalValue(s[y + 4..]) == d.day
  {
    NatToStringRoundTrip(d.year);
    TwoDigitsRoundTrip(d.month);
    TwoDigitsRoundTrip(d.day);
    var s, y := FormatDate(d), |NatToString(d.year)|;
    assert s[..y] == NatToString(d.year);
    assert s[y + 1..y + 3] == TwoDigits(d.month);
    assert s[y + 4..] == TwoDigits(d.day);
  }

  function Header(fullName: string, today: Date): string {
    "Список покупок для: " + fullName + "\n\n" + "Дата: " + FormatDate(today) + "\n\n"
  }

  function RenderLine(l: Line): string {
    "- " + l.name + " (" + l.unit + ")" + " - " + IntToString(l.amount)
  }

  function RenderLines(lines: seq<Line>): seq<string> {
    seq(|lines|, i requires 0 <= i < |lines| => RenderLine(lines[i]))
  }

  function Footer(today: Date): string {
    "\n\nFoodgram (" + NatToString(today.year) + ")"
  }

  /** `sep.join(parts)` */
  function Join(sep: string, parts: seq<string>): string {
    if |parts| == 0 then ""
    else if |parts| == 1 then parts[0]
    else parts[0] + sep + Join(sep, parts[1..])
  }

  /** The attachment's file name. */
  function ShoppingListFilename(username: string): string {
    username + "_shopping_list.txt"
  }

  /** The body of the attachment: header, the lines joined by newlines, footer. */
  function ShoppingListText(fullName: string, today: Date, lines: seq<Line>): string {
    Header(fullName, today) + Join("\n", RenderLines(lines)) + Footer(today)
  }

  predicate OccursAt(text: string, part: string, p: int) {
    0 <= p <= |text| - |part| && text[p..p + |part|] == part
  }

  ghost predicate Contains(text: string, part: string) {
    exists p :: OccursAt(text, part, p)
  }

  lemma {:induction false} JoinContains(sep: string, parts: seq<string>, i: nat)
    requires i < |parts|
    ensures Contains(Join(sep, parts), parts[i])
  {
    var text := Join(sep, parts);
    if |parts| == 1 {
      assert OccursAt(text, parts[0], 0);
    } else if i == 0 {
      assert text == parts[0] + (sep + Join(sep, parts[1..]));
      assert OccursAt(text, parts[0], 0);
    } else {
      JoinContains(sep, parts[1..], i - 1);
      var rest := Join(sep, parts[1..]);
      var p :| OccursAt(rest, parts[i], p);
      var offset := |parts[0]| + |sep|;
      assert text == (parts[0] + sep) + rest;
      assert text[offset + p..offset + p + |parts[i]|] == rest[p..p + |parts[i]|];
      assert OccursAt(text, parts[i], offset + p);
    }
  }

  /** A part found in the middle of a text is found in the whole. */
  lemma ContainsInMiddle(before: string, middle: string, after: string, part: string)
    requires Contains(middle, part)
    ensures Contains(before + middle + after, part)
  {
    var p :| OccursAt(middle, part, p);
    var text := before + middle + after;
    assert text[|before| + p..|before| + p + |part|] == middle[p..p + |part|];
    assert OccursAt(text, part, |before| + p);
  }

  lemma Framed(before: string, middle: string, after: string)
    ensures var text := before + middle + after;
            text[..|before|] == before && text[|text| - |after|..] == after
  {
  }

  /**
   * The layout of the shopping list: it opens with the header, closes with
   * the footer, and every aggregated line appears in it.
   */
  lemma ShoppingListLayout(fullName: string, today: Date, lines: seq<Line>)
    ensures var text := ShoppingListText(fullName, today, lines);
            && text[..|Header(fullName, today)|] == Header(fullName, today)
            && text[|text| - |Footer(today)|..] == Footer(today)
            && forall i :: 0 <= i < |lines| ==> Contains(text, RenderLine(lines[i]))
  {
    var header, body, footer := Header(fullName, today), Join("\n", RenderLines(lines)), Footer(today);
    Framed(header, body, footer);
    forall i | 0 <= i < |lines| ensures Contains(header + body + footer, RenderLine(lines[i])) {
      JoinContains("\n", RenderLines(lines), i);
      ContainsInMiddle(header, body, footer, RenderLines(lines)[i]);
    }
  }
}
