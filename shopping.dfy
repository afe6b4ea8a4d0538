/** The shopping list of `download_shopping_cart` (`api/views.py`): the
    line items of the recipes in one user's cart, grouped by ingredient,
    their amounts summed, each group rendered as one line of text.

    The query is modelled with SQL join semantics. A line item is joined
    once with every cart row (user, recipe of that line item). The store
    keeps at most one such row, but no database constraint makes it so,
    and the lemma `TotalIsCartSum` makes explicit what the single-row
    case gives. The database does not fix the order of the groups, so the
    rendering takes that order as a parameter and the lemmas show what
    does not depend on it. */
module ShoppingList {
  import opened Domain
  import opened Collections

  /** How many rows the join yields for line item `li`: one per cart row of
      `user` for the recipe of `li`. */
  function Weight(cart: multiset<Membership>, user: UserId, li: LineItem): nat {
    cart[Membership(user, li.recipe)]
  }

  /** What line item `li` adds to the total of ingredient `ing`. */
  function Contribution(cart: multiset<Membership>, user: UserId, ing: IngredientId, li: LineItem): int {
    if li.ingredient == ing then li.amount * Weight(cart, user, li) else 0
  }

  /** Reference definition: `SUM(amount)` over the joined rows of `ing`. */
  function Total(items: seq<LineItem>, cart: multiset<Membership>, user: UserId, ing: IngredientId): int {
    if items == [] then 0
    else Total(items[..|items| - 1], cart, user, ing) + Contribution(cart, user, ing, items[|items| - 1])
  }

  /** `ing` has at least one joined row, so the grouped query has a group
      for it. */
  predicate Joined(items: seq<LineItem>, cart: multiset<Membership>, user: UserId, ing: IngredientId) {
    exists li :: li in items && li.ingredient == ing && Weight(cart, user, li) > 0
  }

  /** The grouped query `.values('ingredient').annotate(Sum('amount'))`,
      computed in a single pass over the line items: one group per
      ingredient with a joined row, holding the sum over its rows. */
  function Aggregate(items: seq<LineItem>, cart: multiset<Membership>, user: UserId): (totals: map<IngredientId, int>)
    ensures forall ing :: ing in totals <==> Joined(items, cart, user, ing)
    ensures forall ing | ing in totals :: totals[ing] == Total(items, cart, user, ing)
  {
    if items == [] then map[]
    else
      var rest := items[..|items| - 1];
      var li := items[|items| - 1];
      assert items == rest + [li];
      var acc := Aggregate(rest, cart, user);
      var w := Weight(cart, user, li);
      JoinedSnoc(rest, li, cart, user);
      if w == 0 then acc
      else
        assert li.ingredient !in acc ==> Total(rest, cart, user, li.ingredient) == 0 by {
          if li.ingredient !in acc { TotalWithoutRows(rest, cart, user, li.ingredient); }
        }
        acc[li.ingredient := (if li.ingredient in acc then acc[li.ingredient] else 0) + li.amount * w]
  }

  /** The groups after one more line item: the old ones, and the group of
      its ingredient when it has a joined row. */
  lemma JoinedSnoc(rest: seq<LineItem>, li: LineItem, cart: multiset<Membership>, user: UserId)
    ensures forall ing :: Joined(rest + [li], cart, user, ing) <==>
      Joined(rest, cart, user, ing) || (li.ingredient == ing && Weight(cart, user, li) > 0)
  {
    forall ing ensures Joined(rest + [li], cart, user, ing) <==>
      Joined(rest, cart, user, ing) || (li.ingredient == ing && Weight(cart, user, li) > 0)
    {
      if Joined(rest, cart, user, ing) {
        var x :| x in rest && x.ingredient == ing && Weight(cart, user, x) > 0;
        assert x in rest + [li];
      }
      if li.ingredient == ing && Weight(cart, user, li) > 0 {
        assert li in rest + [li];
      }
    }
  }

  /** An ingredient without joined rows sums to zero. */
  lemma {:induction false} TotalWithoutRows(items: seq<LineItem>, cart: multiset<Membership>, user: UserId, ing: IngredientId)
    requires !Joined(items, cart, user, ing)
    ensures Total(items, cart, user, ing) == 0
  {
    if items != [] {
      var rest := items[..|items| - 1];
      assert forall li | li in rest :: li in items;
      TotalWithoutRows(rest, cart, user, ing);
    }
  }

  lemma {:induction false} TotalAppend(a: seq<LineItem>, b: seq<LineItem>, cart: multiset<Membership>, user: UserId, ing: IngredientId)
    ensures Total(a + b, cart, user, ing) == Total(a, cart, user, ing) + Total(b, cart, user, ing)
  {
    if b != [] {
      var b' := b[..|b| - 1];
      assert (a + b)[..|a + b| - 1] == a + b';
      TotalAppend(a, b', cart, user, ing);
    } else {
      assert a + b == a;
    }
  }

  /** The totals depend only on which line items there are, not on the
      order the query meets them in. */
  lemma {:induction false} TotalPermutation(a: seq<LineItem>, b: seq<LineItem>, cart: multiset<Membership>, user: UserId, ing: IngredientId)
    requires multiset(a) == multiset(b)
    ensures Total(a, cart, user, ing) == Total(b, cart, user, ing)
  {
    if a == [] {
      assert b == [] by { assert |multiset(b)| == |b|; }
    } else {
      var a' := a[..|a| - 1];
      var x := a[|a| - 1];
      assert a == a' + [x];
      assert x in multiset(b);
      var k :| 0 <= k < |b| && b[k] == x;
      var b' := b[..k] + b[k + 1..];
      TotalRemoveOne(b, k, cart, user, ing);
      assert multiset(a) == multiset(a') + multiset{x};
      assert multiset(a') == multiset(b') by {
        forall y ensures multiset(a')[y] == multiset(b')[y] {
          assert multiset(a)[y] == multiset(b)[y];
        }
      }
      TotalPermutation(a', b', cart, user, ing);
    }
  }

  lemma TotalRemoveOne(b: seq<LineItem>, k: nat, cart: multiset<Membership>, user: UserId, ing: IngredientId)
    requires k < |b|
    ensures multiset(b) == multiset(b[..k] + b[k + 1..]) + multiset{b[k]}
    ensures Total(b, cart, user, ing) == Total(b[..k] + b[k + 1..], cart, user, ing) + Contribution(cart, user, ing, b[k])
  {
    var x := b[k];
    assert b == b[..k] + [x] + b[k + 1..];
    TotalAppend(b[..k] + [x], b[k + 1..], cart, user, ing);
    TotalAppend(b[..k], [x], cart, user, ing);
    TotalAppend(b[..k], b[k + 1..], cart, user, ing);
    assert Total([x], cart, user, ing) == Contribution(cart, user, ing, x) by {
      assert [x][..0] == [];
    }
  }

  /** Permuting the line items (or the cart recipes they come from) does
      not change the grouped totals. */
  lemma AggregatePermutation(a: seq<LineItem>, b: seq<LineItem>, cart: multiset<Membership>, user: UserId)
    requires multiset(a) == multiset(b)
    ensures Aggregate(a, cart, user) == Aggregate(b, cart, user)
  {
    var ta, tb := Aggregate(a, cart, user), Aggregate(b, cart, user);
    forall li ensures li in a <==> li in b {
      assert li in a <==> li in multiset(a);
      assert li in b <==> li in multiset(b);
    }
    assert ta.Keys == tb.Keys;
    forall ing | ing in ta ensures ta[ing] == tb[ing] {
      TotalPermutation(a, b, cart, user, ing);
    }
  }

  /** The recipes in `user`'s cart. */
  function CartRecipes(cart: multiset<Membership>, user: UserId): (r: set<RecipeId>)
    ensures forall recipe :: recipe in r <==> Membership(user, recipe) in cart
  {
    set m | m in cart && m.user == user :: m.recipe
  }

  /** Plain sum of the amounts of `ing` over the line items of `recipes`. */
  function SumOver(items: seq<LineItem>, recipes: set<RecipeId>, ing: IngredientId): int {
    if items == [] then 0
    else
      var li := items[|items| - 1];
      SumOver(items[..|items| - 1], recipes, ing)
        + (if li.ingredient == ing && li.recipe in recipes then li.amount else 0)
  }

  /** With at most one cart row per (user, recipe), as the serializer's
      pre-check keeps it, each total is the plain sum of the amounts of that
      ingredient over the recipes in the user's cart; other users' carts
      and recipes outside this cart contribute nothing. */
  lemma {:induction false} TotalIsCartSum(items: seq<LineItem>, cart: multiset<Membership>, user: UserId, ing: IngredientId)
    requires forall recipe :: cart[Membership(user, recipe)] <= 1
    ensures Total(items, cart, user, ing) == SumOver(items, CartRecipes(cart, user), ing)
  {
    if items != [] {
      TotalIsCartSum(items[..|items| - 1], cart, user, ing);
    }
  }

  /** Putting one more recipe in `user`'s cart adds, to the total of each
      ingredient, that ingredient's amount in the recipe. */
  lemma {:induction false} TotalAddRow(
    items: seq<LineItem>, cart: multiset<Membership>, user: UserId, recipe: RecipeId, ing: IngredientId)
    ensures Total(items, cart + multiset{Membership(user, recipe)}, user, ing)
         == Total(items, cart, user, ing) + SumOver(items, {recipe}, ing)
  {
    if items != [] {
      var li := items[|items| - 1];
      TotalAddRow(items[..|items| - 1], cart, user, recipe, ing);
      var w := Weight(cart, user, li);
      var cart' := cart + multiset{Membership(user, recipe)};
      assert Weight(cart', user, li) == w + (if li.recipe == recipe then 1 else 0);
      if li.ingredient == ing && li.recipe == recipe {
        assert li.amount * (w + 1) == li.amount * w + li.amount;
      }
    }
  }

  /** One line of the file: `'{} ({}) - {}'.format(name, unit, total) + '\n'`. */
  datatype Entry = Entry(name: string, unit: string, total: int)

  function DigitChar(d: nat): (c: char)
    requires d < 10
    ensures '0' <= c <= '9'
  {
    ('0' as int + d) as char
  }

  function DigitValue(c: char): (d: nat)
    requires '0' <= c <= '9'
    ensures d < 10
  {
    (c as int - '0' as int) as nat
  }

  /** `str(n)` for a natural number: decimal digits, no leading zero. */
  function NatToString(n: nat): (s: string)
    ensures |s| > 0
    ensures forall i | 0 <= i < |s| :: '0' <= s[i] <= '9'
    ensures s[0] == '0' ==> n == 0
  {
    if n < 10 then [DigitChar(n)] else NatToString(n / 10) + [DigitChar(n % 10)]
  }

  /** The number a string of decimal digits denotes. */
  function DigitsValue(s: string): nat
    requires forall i | 0 <= i < |s| :: '0' <= s[i] <= '9'
  {
    if s == [] then 0 else DigitsValue(s[..|s| - 1]) * 10 + DigitValue(s[|s| - 1])
  }

  /** Reading the printed total back gives the total. */
  lemma {:induction false} NatToStringRoundTrip(n: nat)
    ensures DigitsValue(NatToString(n)) == n
  {
    if n >= 10 {
      NatToStringRoundTrip(n / 10);
      var s := NatToString(n);
      assert s[..|s| - 1] == NatToString(n / 10);
    }
  }

  /** `str(i)` for any integer. */
  function IntToString(i: int): (s: string)
    ensures |s| > 0
    ensures (s[0] == '-') <==> i < 0
  {
    if i < 0 then "-" + NatToString(-i) else NatToString(i)
  }

  function Line(e: Entry): (s: string)
    ensures |s| > 0 && s[|s| - 1] == '\n'
  {
    e.name + " (" + e.unit + ") - " + IntToString(e.total) + "\n"
  }

  /** Python's `sep.join(parts)`. */
  function Join(sep: string, parts: seq<string>): string {
    if parts == [] then ""
    else if |parts| == 1 then parts[0]
    else parts[0] + sep + Join(sep, parts[1..])
  }

  lemma {:induction false} JoinConcat(sep: string, a: seq<string>, b: seq<string>)
    requires a != [] && b != []
    ensures Join(sep, a + b) == Join(sep, a) + sep + Join(sep, b)
  {
    if |a| == 1 {
      assert (a + b)[1..] == b;
    } else {
      assert (a + b)[1..] == a[1..] + b;
      JoinConcat(sep, a[1..], b);
    }
  }

  /** The file body: every line (which ends in a newline) joined with
      `"\n"`. */
  function Report(entries: seq<Entry>): string {
    Join("\n", MapSeq(Line, entries))
  }

  /** The report is empty exactly when there are no groups. */
  lemma {:induction false} ReportEmptyIff(entries: seq<Entry>)
    ensures Report(entries) == "" <==> entries == []
  {
    if entries != [] {
      var lines := MapSeq(Line, entries);
      if |lines| > 1 {
        assert Report(entries) == lines[0] + "\n" + Join("\n", lines[1..]);
      }
      assert |Report(entries)| > 0;
    }
  }

  /** Splitting the groups anywhere splits the report there: the part before
      ends with the newline of its last line and a further `"\n"` follows,
      so consecutive lines are separated by one empty line. */
  lemma ReportSplit(entries: seq<Entry>, k: nat)
    requires 0 < k < |entries|
    ensures Report(entries) == Report(entries[..k]) + "\n" + Report(entries[k..])
    ensures Report(entries[..k])[|Report(entries[..k])| - 1] == '\n'
  {
    assert entries == entries[..k] + entries[k..];
    MapConcat(Line, entries[..k], entries[k..]);
    JoinConcat("\n", MapSeq(Line, entries[..k]), MapSeq(Line, entries[k..]));
    ReportEndsWithNewline(entries[..k]);
  }

  lemma {:induction false} ReportEndsWithNewline(entries: seq<Entry>)
    requires entries != []
    ensures |Report(entries)| > 0 && Report(entries)[|Report(entries)| - 1] == '\n'
  {
    var lines := MapSeq(Line, entries);
    if |lines| > 1 {
      assert lines[1..] == MapSeq(Line, entries[1..]);
      ReportEndsWithNewline(entries[1..]);
    }
  }

  lemma ReportSingle(e: Entry)
    ensures Report([e]) == Line(e)
  {
  }

  /** The group of `ing` as the file shows it. */
  function EntryOf(totals: map<IngredientId, int>, catalog: map<IngredientId, Ingredient>, ing: IngredientId): Entry {
    if ing in totals && ing in catalog
    then Entry(catalog[ing].name, catalog[ing].measurementUnit, totals[ing])
    else Entry("", "", 0)
  }

  /** The groups in the order `order` the database returns them in. */
  function Entries(totals: map<IngredientId, int>, catalog: map<IngredientId, Ingredient>, order: seq<IngredientId>): (es: seq<Entry>)
    requires IsEnumeration(order, totals.Keys)
    requires totals.Keys <= catalog.Keys
    ensures |es| == |order| == |totals|
    ensures forall k | 0 <= k < |es| ::
      es[k] == Entry(catalog[order[k]].name, catalog[order[k]].measurementUnit, totals[order[k]])
  {
    DistinctIffElemsSize(order);
    MapSeq(ing => EntryOf(totals, catalog, ing), order)
  }

  /** The whole file for `user`, the groups listed in `order`. */
  function ShoppingReport(
    items: seq<LineItem>, cart: multiset<Membership>, catalog: map<IngredientId, Ingredient>,
    user: UserId, order: seq<IngredientId>): string
    requires IsEnumeration(order, Aggregate(items, cart, user).Keys)
    requires Aggregate(items, cart, user).Keys <= catalog.Keys
  {
    Report(Entries(Aggregate(items, cart, user), catalog, order))
  }

  /** Whatever order the database picks, the file holds the same lines,
      each as many times. */
  lemma ReportOrderIrrelevant(
    items: seq<LineItem>, cart: multiset<Membership>, catalog: map<IngredientId, Ingredient>,
    user: UserId, o1: seq<IngredientId>, o2: seq<IngredientId>)
    requires IsEnumeration(o1, Aggregate(items, cart, user).Keys)
    requires IsEnumeration(o2, Aggregate(items, cart, user).Keys)
    requires Aggregate(items, cart, user).Keys <= catalog.Keys
    ensures multiset(MapSeq(Line, Entries(Aggregate(items, cart, user), catalog, o1)))
         == multiset(MapSeq(Line, Entries(Aggregate(items, cart, user), catalog, o2)))
  {
    var totals := Aggregate(items, cart, user);
    var f := ing => EntryOf(totals, catalog, ing);
    EnumerationsArePermutations(o1, o2, totals.Keys);
    MapPreservesPermutation(f, o1, o2);
    MapPreservesPermutation(Line, MapSeq(f, o1), MapSeq(f, o2));
  }

  /** A user with nothing in the cart gets an empty file, not an error. */
  lemma EmptyCartEmptyReport(
    items: seq<LineItem>, cart: multiset<Membership>, catalog: map<IngredientId, Ingredient>,
    user: UserId, order: seq<IngredientId>)
    requires forall recipe :: Membership(user, recipe) !in cart
    requires IsEnumeration(order, Aggregate(items, cart, user).Keys)
    ensures ShoppingReport(items, cart, catalog, user, order) == ""
  {
    var totals := Aggregate(items, cart, user);
    assert totals.Keys == {};
    DistinctIffElemsSize(order);
    ReportEmptyIff(Entries(totals, catalog, order));
  }

  /** Flour from two recipes is summed, salt from one is kept, and a recipe
      outside the cart is ignored. */
  lemma TwoRecipeExample()
    ensures
      var flour, salt := 1, 2;
      var items := [LineItem(flour, 10, 200), LineItem(flour, 20, 100), LineItem(salt, 20, 5), LineItem(salt, 30, 7)];
      var cart := multiset{Membership(7, 10), Membership(7, 20), Membership(8, 30)};
      Aggregate(items, cart, 7) == map[flour := 300, salt := 5]
  {
    var flour, salt := 1, 2;
    var items := [LineItem(flour, 10, 200), LineItem(flour, 20, 100), LineItem(salt, 20, 5), LineItem(salt, 30, 7)];
    var cart := multiset{Membership(7, 10), Membership(7, 20), Membership(8, 30)};
    assert items[..3][..2][..1] == [LineItem(flour, 10, 200)];
    assert items[..3][..2] == [LineItem(flour, 10, 200), LineItem(flour, 20, 100)];
    assert items[..3] == [LineItem(flour, 10, 200), LineItem(flour, 20, 100), LineItem(salt, 20, 5)];
    assert cart[Membership(7, 10)] == 1 && cart[Membership(7, 20)] == 1 && cart[Membership(7, 30)] == 0;
    assert Aggregate(items[..3][..2][..1], cart, 7) == map[flour := 200];
    assert Aggregate(items[..3][..2], cart, 7) == map[flour := 300];
    assert Aggregate(items[..3], cart, 7) == map[flour := 300, salt := 5];
  }
}
