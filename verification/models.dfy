/**
 * The three tables of the recipe catalogue and the constraints their
 * declarations impose: Ingredient (unique name), Recipe (cook time at least
 * one minute) and the RecipeIngredient join table (one row per recipe and
 * ingredient, non-negative quantity, short unit), with cascading deletes,
 * the two many-to-many views and the detail URL of a recipe.
 */
module Models {
  import opened Wrappers
  import opened Text
  import opened Ordering

  const NameMaxLength: nat := 120
  const UnitMaxLength: nat := 32
  const MinCookTime: int := 1
  const DefaultPic: string := "no_picture.jpg"

  datatype Ingredient = Ingredient(pk: nat, name: string)

  datatype Recipe = Recipe(pk: nat, name: string, description: string, cookTimeMinutes: int, pic: string)

  datatype RecipeIngredient = RecipeIngredient(recipe: nat, ingredient: nat, quantity: real, unit: string)

  /** The identity of a join row: its recipe key and its ingredient key. */
  datatype Pair = Pair(recipe: nat, ingredient: nat)

  /** The whole store as a value: the three tables, each in insertion order. */
  datatype Db = Db(ingredients: seq<Ingredient>, recipes: seq<Recipe>, links: seq<RecipeIngredient>)

  function IngredientName(i: Ingredient): string { i.name }
  function IngredientPk(i: Ingredient): nat { i.pk }
  function RecipeName(r: Recipe): string { r.name }
  function RecipePk(r: Recipe): nat { r.pk }
  function KeyOf(l: RecipeIngredient): Pair { Pair(l.recipe, l.ingredient) }

  function PairsOf(links: seq<RecipeIngredient>): set<Pair>
  {
    set l | l in links :: KeyOf(l)
  }

  function IngredientPks(ings: seq<Ingredient>): set<nat>
  {
    set i | i in ings :: i.pk
  }

  function RecipePks(recipes: seq<Recipe>): set<nat>
  {
    set r | r in recipes :: r.pk
  }

  // ---------------------------------------------------------------------
  // Rows that keep their order, and columns without repeated values

  /** No two rows of `s` agree on `key`. */
  ghost predicate DistinctBy<T, K>(s: seq<T>, key: T -> K)
  {
    forall i, j {:trigger key(s[i]), key(s[j])} :: 0 <= i < j < |s| ==> key(s[i]) != key(s[j])
  }

  /** The primary keys of the ingredient table are unique. */
  ghost predicate UniqueIngredientPks(ings: seq<Ingredient>)
  {
    forall i, j {:trigger IngredientPk(ings[i]), IngredientPk(ings[j])} ::
      0 <= i < j < |ings| ==> IngredientPk(ings[i]) != IngredientPk(ings[j])
  }

  /** `Ingredient.name` is declared unique. */
  ghost predicate UniqueIngredientNames(ings: seq<Ingredient>)
  {
    forall i, j {:trigger IngredientName(ings[i]), IngredientName(ings[j])} ::
      0 <= i < j < |ings| ==> IngredientName(ings[i]) != IngredientName(ings[j])
  }

  /** The primary keys of the recipe table are unique. */
  ghost predicate UniqueRecipePks(recipes: seq<Recipe>)
  {
    forall i, j {:trigger RecipePk(recipes[i]), RecipePk(recipes[j])} ::
      0 <= i < j < |recipes| ==> RecipePk(recipes[i]) != RecipePk(recipes[j])
  }

  /** `unique_together = ("recipe", "ingredient")` on the join table. */
  ghost predicate UniquePairs(links: seq<RecipeIngredient>)
  {
    forall i, j {:trigger KeyOf(links[i]), KeyOf(links[j])} ::
      0 <= i < j < |links| ==> KeyOf(links[i]) != KeyOf(links[j])
  }

  /** The rows of `s` that satisfy `keep`, in their original order. */
  function Filter<T>(s: seq<T>, keep: T -> bool): (r: seq<T>)
    ensures forall k :: 0 <= k < |r| ==> r[k] in s && keep(r[k])
    ensures forall k :: 0 <= k < |s| && keep(s[k]) ==> s[k] in r
    ensures |r| <= |s|
  {
    if s == [] then []
    else if keep(s[0]) then [s[0]] + Filter(s[1..], keep)
    else Filter(s[1..], keep)
  }

  lemma {:induction false} FilterDistinct<T, K>(s: seq<T>, keep: T -> bool, key: T -> K)
    requires DistinctBy(s, key)
    ensures DistinctBy(Filter(s, keep), key)
  {
    if s != [] {
      FilterDistinct(s[1..], keep, key);
      if keep(s[0]) {
        var t := Filter(s[1..], keep);
        forall j | 0 <= j < |t|
          ensures key(s[0]) != key(t[j])
        {
          assert t[j] in s[1..];
        }
      }
    }
  }

  // ---------------------------------------------------------------------
  // Declared constraints

  /** `Ingredient.name`: at most 120 characters. */
  predicate ValidIngredient(i: Ingredient) { |i.name| <= NameMaxLength }

  /** `Recipe.name` at most 120 characters; `cook_time_minutes` at least 1. */
  predicate ValidRecipe(r: Recipe)
  {
    |r.name| <= NameMaxLength && r.cookTimeMinutes >= MinCookTime
  }

  /** `RecipeIngredient.quantity` at least 0; `unit` at most 32 characters (blank allowed). */
  predicate ValidLinkFields(quantity: real, unit: string)
  {
    quantity >= 0.0 && |unit| <= UnitMaxLength
  }

  /** Every constraint the three model declarations state, over the whole store. */
  ghost predicate ValidDb(db: Db)
  {
    && UniqueIngredientPks(db.ingredients)
    && UniqueIngredientNames(db.ingredients)
    && (forall i :: i in db.ingredients ==> ValidIngredient(i))
    && UniqueRecipePks(db.recipes)
    && (forall r :: r in db.recipes ==> ValidRecipe(r))
    && UniquePairs(db.links)
    && (forall l :: l in db.links ==>
          && ValidLinkFields(l.quantity, l.unit)
          && l.recipe in RecipePks(db.recipes)
          && l.ingredient in IngredientPks(db.ingredients))
  }

  // ---------------------------------------------------------------------
  // Lookups by name

  /** Index of the first ingredient row at or after `i` called `name`, or -1 when there is none. */
  function IngredientIndexFrom(ings: seq<Ingredient>, name: string, i: nat): (k: int)
    requires i <= |ings|
    ensures k == -1 || i <= k < |ings|
    ensures k == -1 <==> forall j :: i <= j < |ings| ==> ings[j].name != name
    ensures k >= 0 ==> ings[k].name == name
    decreases |ings| - i
  {
    if i == |ings| then -1
    else if ings[i].name == name then i
    else IngredientIndexFrom(ings, name, i + 1)
  }

  /** `Ingredient.objects.filter(name=name).first()`. */
  function FindIngredient(ings: seq<Ingredient>, name: string): (r: Option<Ingredient>)
    ensures r.Some? ==> r.value in ings && r.value.name == name
    ensures r.None? <==> forall k :: 0 <= k < |ings| ==> ings[k].name != name
  {
    var k := IngredientIndexFrom(ings, name, 0);
    if k == -1 then None else Some(ings[k])
  }

  /** Index of the first recipe row at or after `i` called `name`, or -1 when there is none. */
  function RecipeIndexFrom(recipes: seq<Recipe>, name: string, i: nat): (k: int)
    requires i <= |recipes|
    ensures k == -1 || i <= k < |recipes|
    ensures k == -1 <==> forall j :: i <= j < |recipes| ==> recipes[j].name != name
    ensures k >= 0 ==> recipes[k].name == name && forall j :: i <= j < k ==> recipes[j].name != name
    decreases |recipes| - i
  {
    if i == |recipes| then -1
    else if recipes[i].name == name then i
    else RecipeIndexFrom(recipes, name, i + 1)
  }

  /** Index of the first recipe row called `name`, or -1 when there is none. */
  function RecipeIndex(recipes: seq<Recipe>, name: string): (k: int)
    ensures -1 <= k < |recipes|
    ensures k == -1 <==> forall j :: 0 <= j < |recipes| ==> recipes[j].name != name
    ensures k >= 0 ==> recipes[k].name == name && forall j :: 0 <= j < k ==> recipes[j].name != name
  {
    RecipeIndexFrom(recipes, name, 0)
  }

  /**
   * `Recipe.objects.filter(name=name).first()`. Names need not be unique;
   * among rows of equal name the first in table order is taken.
   */
  function FindRecipe(recipes: seq<Recipe>, name: string): (r: Option<Recipe>)
    ensures r.Some? ==> r.value in recipes && r.value.name == name
    ensures r.None? <==> forall j :: 0 <= j < |recipes| ==> recipes[j].name != name
  {
    var k := RecipeIndex(recipes, name);
    if k == -1 then None else Some(recipes[k])
  }

  /** The recipe `FindRecipe` returns is the first row with that name in table order. */
  lemma FindRecipeIsFirst(recipes: seq<Recipe>, name: string)
    ensures FindRecipe(recipes, name).Some? ==> exists k :: (0 <= k < |recipes|
      && FindRecipe(recipes, name).value == recipes[k]
      && forall j :: 0 <= j < k ==> recipes[j].name != name)
  {
    var k := RecipeIndex(recipes, name);
    if k >= 0 {
      assert FindRecipe(recipes, name).value == recipes[k];
    }
  }

  /** Outcome of `Recipe.objects.get(name=name)`. */
  datatype Lookup = NotFound | Found(recipe: Recipe) | MultipleFound

  /**
   * `Recipe.objects.get(name=name)`: the one row with that name, DoesNotExist
   * when there is none, MultipleObjectsReturned when there are several.
   */
  function GetRecipe(recipes: seq<Recipe>, name: string): (r: Lookup)
    ensures r.NotFound? <==> forall j :: 0 <= j < |recipes| ==> recipes[j].name != name
    ensures r.Found? ==> r.recipe in recipes && r.recipe.name == name
    ensures r.Found? ==> forall j :: 0 <= j < |recipes| && recipes[j].name == name ==> recipes[j] == r.recipe
    ensures r.MultipleFound? ==>
      exists i, j :: 0 <= i < j < |recipes| && recipes[i].name == name && recipes[j].name == name
  {
    var k := RecipeIndex(recipes, name);
    if k == -1 then NotFound
    else if RecipeIndexFrom(recipes, name, k + 1) == -1 then Found(recipes[k])
    else MultipleFound
  }

  // ---------------------------------------------------------------------
  // The many-to-many views `recipe.ingredients` and `ingredient.recipes`

  /** Keys of the ingredients `recipe.ingredients.all()` yields for recipe `rpk`. */
  function IngredientsOf(links: seq<RecipeIngredient>, rpk: nat): set<nat>
  {
    set l | l in links && l.recipe == rpk :: l.ingredient
  }

  /** Keys of the recipes `ingredient.recipes.all()` yields for ingredient `ipk`. */
  function RecipesOf(links: seq<RecipeIngredient>, ipk: nat): set<nat>
  {
    set l | l in links && l.ingredient == ipk :: l.recipe
  }

  function LinksOfRecipe(links: seq<RecipeIngredient>, rpk: nat): seq<RecipeIngredient>
  {
    Filter(links, (l: RecipeIngredient) => l.recipe == rpk)
  }

  function LinksOfIngredient(links: seq<RecipeIngredient>, ipk: nat): seq<RecipeIngredient>
  {
    Filter(links, (l: RecipeIngredient) => l.ingredient == ipk)
  }

  /** `recipe.ingredients.count()` is the number of join rows of that recipe. */
  lemma {:induction false} IngredientsCount(links: seq<RecipeIngredient>, rpk: nat)
    requires UniquePairs(links)
    ensures |IngredientsOf(links, rpk)| == |LinksOfRecipe(links, rpk)|
  {
    if links != [] {
      var t := links[1..];
      assert UniquePairs(t);
      IngredientsCount(t, rpk);
      assert links == [links[0]] + t;
      if links[0].recipe == rpk {
        forall l | l in t && l.recipe == rpk
          ensures l.ingredient != links[0].ingredient
        {
          var j :| 0 <= j < |t| && t[j] == l;
          assert KeyOf(links[0]) != KeyOf(links[j + 1]);
        }
        assert IngredientsOf(links, rpk) == {links[0].ingredient} + IngredientsOf(t, rpk);
      } else {
        assert IngredientsOf(links, rpk) == IngredientsOf(t, rpk);
      }
    }
  }

  /** `ingredient.recipes.count()` is the number of join rows of that ingredient. */
  lemma {:induction false} RecipesCount(links: seq<RecipeIngredient>, ipk: nat)
    requires UniquePairs(links)
    ensures |RecipesOf(links, ipk)| == |LinksOfIngredient(links, ipk)|
  {
    if links != [] {
      var t := links[1..];
      assert UniquePairs(t);
      RecipesCount(t, ipk);
      assert links == [links[0]] + t;
      if links[0].ingredient == ipk {
        forall l | l in t && l.ingredient == ipk
          ensures l.recipe != links[0].recipe
        {
          var j :| 0 <= j < |t| && t[j] == l;
          assert KeyOf(links[0]) != KeyOf(links[j + 1]);
        }
        assert RecipesOf(links, ipk) == {links[0].recipe} + RecipesOf(t, ipk);
      } else {
        assert RecipesOf(links, ipk) == RecipesOf(t, ipk);
      }
    }
  }

  // ---------------------------------------------------------------------
  // Cascading deletes (`on_delete=CASCADE` on both foreign keys)

  /** Deleting recipe `pk` also deletes every join row that refers to it. */
  function DeleteRecipe(db: Db, pk: nat): (r: Db)
    ensures r.ingredients == db.ingredients
    ensures forall x :: x in r.recipes <==> x in db.recipes && x.pk != pk
    ensures forall l :: l in r.links <==> l in db.links && l.recipe != pk
  {
    Db(db.ingredients,
       Filter(db.recipes, (x: Recipe) => x.pk != pk),
       Filter(db.links, (l: RecipeIngredient) => l.recipe != pk))
  }

  /** Deleting ingredient `pk` also deletes every join row that refers to it. */
  function DeleteIngredient(db: Db, pk: nat): (r: Db)
    ensures r.recipes == db.recipes
    ensures forall x :: x in r.ingredients <==> x in db.ingredients && x.pk != pk
    ensures forall l :: l in r.links <==> l in db.links && l.ingredient != pk
  {
    Db(Filter(db.ingredients, (x: Ingredient) => x.pk != pk),
       db.recipes,
       Filter(db.links, (l: RecipeIngredient) => l.ingredient != pk))
  }

  lemma DeleteRecipeKeepsValid(db: Db, pk: nat)
    requires ValidDb(db)
    ensures ValidDb(DeleteRecipe(db, pk))
    ensures pk !in RecipePks(DeleteRecipe(db, pk).recipes)
  {
    var r := DeleteRecipe(db, pk);
    assert DistinctBy(db.recipes, RecipePk);
    FilterDistinct(db.recipes, (x: Recipe) => x.pk != pk, RecipePk);
    assert DistinctBy(db.links, KeyOf);
    FilterDistinct(db.links, (l: RecipeIngredient) => l.recipe != pk, KeyOf);
    assert UniqueRecipePks(r.recipes) && UniquePairs(r.links);
  }

  lemma DeleteIngredientKeepsValid(db: Db, pk: nat)
    requires ValidDb(db)
    ensures ValidDb(DeleteIngredient(db, pk))
    ensures pk !in IngredientPks(DeleteIngredient(db, pk).ingredients)
  {
    var r := DeleteIngredient(db, pk);
    assert DistinctBy(db.ingredients, IngredientPk) && DistinctBy(db.ingredients, IngredientName);
    FilterDistinct(db.ingredients, (x: Ingredient) => x.pk != pk, IngredientPk);
    FilterDistinct(db.ingredients, (x: Ingredient) => x.pk != pk, IngredientName);
    assert DistinctBy(db.links, KeyOf);
    FilterDistinct(db.links, (l: RecipeIngredient) => l.ingredient != pk, KeyOf);
    assert UniqueIngredientPks(r.ingredients) && UniqueIngredientNames(r.ingredients) && UniquePairs(r.links);
  }

  // ---------------------------------------------------------------------
  // Writing one join row

  /** Index of the first join row at or after `i` for pair `p`, or -1 when there is none. */
  function PairIndexFrom(links: seq<RecipeIngredient>, p: Pair, i: nat): (k: int)
    requires i <= |links|
    ensures k == -1 || i <= k < |links|
    ensures k == -1 <==> forall j :: i <= j < |links| ==> KeyOf(links[j]) != p
    ensures k >= 0 ==> KeyOf(links[k]) == p
    decreases |links| - i
  {
    if i == |links| then -1
    else if KeyOf(links[i]) == p then i
    else PairIndexFrom(links, p, i + 1)
  }

  /** Index of the join row for pair `p`, or -1 when there is none. */
  function PairIndex(links: seq<RecipeIngredient>, p: Pair): (k: int)
    ensures -1 <= k < |links|
    ensures k == -1 <==> p !in PairsOf(links)
    ensures k >= 0 ==> KeyOf(links[k]) == p
  {
    var k := PairIndexFrom(links, p, 0);
    assert k >= 0 ==> links[k] in links;
    assert p in PairsOf(links) ==> exists j :: 0 <= j < |links| && KeyOf(links[j]) == p;
    k
  }

  /**
   * `get_or_create(recipe=…, ingredient=…)` followed by setting quantity and
   * unit and `save(update_fields=["quantity", "unit"])`: the row of pair `p`
   * is updated where it stands, or appended when it did not exist.
   */
  function Upsert(links: seq<RecipeIngredient>, p: Pair, quantity: real, unit: string): (r: seq<RecipeIngredient>)
    ensures p !in PairsOf(links) ==> r == links + [RecipeIngredient(p.recipe, p.ingredient, quantity, unit)]
    ensures p in PairsOf(links) ==> |r| == |links|
    ensures p in PairsOf(links) && UniquePairs(links) ==>
      forall k :: 0 <= k < |links| ==>
        r[k] == if KeyOf(links[k]) == p then links[k].(quantity := quantity, unit := unit) else links[k]
  {
    var k := PairIndex(links, p);
    if k == -1 then links + [RecipeIngredient(p.recipe, p.ingredient, quantity, unit)]
    else
      links[k := links[k].(quantity := quantity, unit := unit)]
  }

  lemma PairsOfAppend(links: seq<RecipeIngredient>, l: RecipeIngredient)
    ensures PairsOf(links + [l]) == PairsOf(links) + {KeyOf(l)}
  {
    assert forall x :: x in links + [l] <==> x in links || x == l;
  }

  /** With unique pairs, the join table has exactly as many pairs as rows. */
  lemma {:induction false} DistinctPairsCount(links: seq<RecipeIngredient>)
    requires UniquePairs(links)
    ensures |PairsOf(links)| == |links|
  {
    if links != [] {
      var t := links[..|links| - 1];
      var l := links[|links| - 1];
      assert links == t + [l];
      assert UniquePairs(t) by {
        forall i, j | 0 <= i < j < |t| ensures KeyOf(t[i]) != KeyOf(t[j]) {
          assert t[i] == links[i] && t[j] == links[j];
        }
      }
      DistinctPairsCount(t);
      forall x | x in t
        ensures KeyOf(x) != KeyOf(l)
      {
        var k :| 0 <= k < |t| && t[k] == x;
        assert links[k] == x;
      }
      PairsOfAppend(t, l);
    }
  }

  /** A row whose pair is new may be appended without breaking pair uniqueness. */
  lemma AppendNewPair(links: seq<RecipeIngredient>, l: RecipeIngredient)
    requires UniquePairs(links) && KeyOf(l) !in PairsOf(links)
    ensures UniquePairs(links + [l])
    ensures PairsOf(links + [l]) == PairsOf(links) + {KeyOf(l)}
  {
    PairsOfAppend(links, l);
    var r := links + [l];
    forall i, j | 0 <= i < j < |r|
      ensures KeyOf(r[i]) != KeyOf(r[j])
    {
      if j == |links| {
        assert r[i] in links;
      }
    }
  }

  /** Writing one pair keeps pairs unique and adds exactly that pair. */
  lemma UpsertKeepsPairs(links: seq<RecipeIngredient>, p: Pair, quantity: real, unit: string)
    requires UniquePairs(links)
    ensures UniquePairs(Upsert(links, p, quantity, unit))
    ensures PairsOf(Upsert(links, p, quantity, unit)) == PairsOf(links) + {p}
  {
    var r := Upsert(links, p, quantity, unit);
    if p in PairsOf(links) {
      assert forall k :: 0 <= k < |r| ==> KeyOf(r[k]) == KeyOf(links[k]);
      assert forall l :: l in r ==> exists k :: 0 <= k < |r| && r[k] == l;
      assert PairsOf(r) == PairsOf(links) by {
        forall q | q in PairsOf(links) ensures q in PairsOf(r) {
          var l :| l in links && KeyOf(l) == q;
          var k :| 0 <= k < |links| && links[k] == l;
          assert KeyOf(r[k]) == q;
        }
      }
    } else {
      AppendNewPair(links, RecipeIngredient(p.recipe, p.ingredient, quantity, unit));
    }
  }

  /** Writing one pair keeps every constraint and adds exactly that pair. */
  lemma UpsertKeepsValid(db: Db, p: Pair, quantity: real, unit: string)
    requires ValidDb(db)
    requires p.recipe in RecipePks(db.recipes) && p.ingredient in IngredientPks(db.ingredients)
    requires ValidLinkFields(quantity, unit)
    ensures ValidDb(db.(links := Upsert(db.links, p, quantity, unit)))
    ensures PairsOf(Upsert(db.links, p, quantity, unit)) == PairsOf(db.links) + {p}
  {
    var r := Upsert(db.links, p, quantity, unit);
    UpsertKeepsPairs(db.links, p, quantity, unit);
    forall l | l in r
      ensures ValidLinkFields(l.quantity, l.unit)
      ensures l.recipe in RecipePks(db.recipes) && l.ingredient in IngredientPks(db.ingredients)
    {
      var k :| 0 <= k < |r| && r[k] == l;
      if k < |db.links| {
        assert db.links[k] in db.links;
      }
    }
  }

  // ---------------------------------------------------------------------
  // `Recipe.get_absolute_url` and the route that resolves it

  const RecipesPrefix: string := "/recipes/"

  /**
   * The path the route `recipes/<int:pk>/` (mounted under `recipes/`)
   * resolves to a detail page, with the key it names.
   */
  function ResolveDetail(path: string): Option<nat>
  {
    if StartsWith(path, RecipesPrefix) && EndsWith(path, "/") && |path| > |RecipesPrefix| + 1 then
      ParseNat(path[|RecipesPrefix|..|path| - 1])
    else
      None
  }

  /** `reverse('recipes:detail', kwargs={'pk': pk})`. */
  function AbsoluteUrl(pk: nat): (u: string)
    ensures StartsWith(u, RecipesPrefix) && EndsWith(u, "/")
    ensures ResolveDetail(u) == Some(pk)
    ensures u == RecipesPrefix + NatToString(pk) + "/"
    ensures u[|RecipesPrefix|] == '0' ==> u == RecipesPrefix + "0/"
  {
    NatToStringRoundTrip(pk);
    var u := RecipesPrefix + NatToString(pk) + "/";
    assert u[|RecipesPrefix|..|u| - 1] == NatToString(pk);
    u
  }

  /** Two recipes share a detail URL only if they share a key. */
  lemma AbsoluteUrlInjective(a: nat, b: nat)
    requires AbsoluteUrl(a) == AbsoluteUrl(b)
    ensures a == b
  {
    assert ResolveDetail(AbsoluteUrl(a)) == Some(a);
  }
}
