/**
 * The `backfill_seed_quantities` management command: for every (recipe name,
 * items) entry of its plan, fetch the recipe with `get`, and for each item
 * whose ingredient has a row write the item's quantity and unit on the join
 * row of that pair, creating the row when there is none. Ingredient names
 * with no row are collected and reported once each, sorted.
 */
module BackfillSeedQuantities {
  import opened Wrappers
  import opened Models
  import opened Ordering
  import opened Database

  /** One `(ingredient name, quantity, unit)` triple of the plan. */
  datatype PlanItem = PlanItem(ingredient: string, quantity: real, unit: string)

  /** `PLAN.items()`: recipe names with the items to write, in order. */
  type Plan = seq<(string, seq<PlanItem>)>

  /** Every item carries a quantity and unit the join row accepts. */
  predicate ItemsFit(items: seq<PlanItem>)
  {
    forall i :: 0 <= i < |items| ==> ValidLinkFields(items[i].quantity, items[i].unit)
  }

  predicate PlanFits(plan: Plan)
  {
    forall k :: 0 <= k < |plan| ==> ItemsFit(plan[k].1)
  }

  /** Quantity and unit to be written on the join row of `pair`. */
  datatype Assignment = Assignment(pair: Pair, quantity: real, unit: string)

  function AssignedPairs(xs: seq<Assignment>): set<Pair>
  {
    set a | a in xs :: a.pair
  }

  lemma AssignedPairsAppend(xs: seq<Assignment>, a: Assignment)
    ensures AssignedPairs(xs + [a]) == AssignedPairs(xs) + {a.pair}
  {
    assert forall x :: x in xs + [a] <==> x in xs || x == a;
  }

  // ---------------------------------------------------------------------
  // Which writes a run makes

  /** The writes and the missing names of the items of one recipe with key `rpk`. */
  datatype ItemsResult = ItemsResult(assignments: seq<Assignment>, missing: set<string>)

  function ItemAssignments(ings: seq<Ingredient>, rpk: nat, items: seq<PlanItem>): (r: ItemsResult)
    ensures forall a :: a in r.assignments ==> a.pair.recipe == rpk && a.pair.ingredient in IngredientPks(ings)
    ensures ItemsFit(items) ==> forall a :: a in r.assignments ==> ValidLinkFields(a.quantity, a.unit)
    ensures forall n :: n in r.missing ==> FindIngredient(ings, n).None?
    ensures forall i :: 0 <= i < |items| && FindIngredient(ings, items[i].ingredient).None? ==>
      items[i].ingredient in r.missing
    ensures forall i :: 0 <= i < |items| && FindIngredient(ings, items[i].ingredient).Some? ==>
      Assignment(Pair(rpk, FindIngredient(ings, items[i].ingredient).value.pk), items[i].quantity, items[i].unit)
        in r.assignments
  {
    if items == [] then ItemsResult([], {})
    else
      var front := items[..|items| - 1];
      var it := items[|items| - 1];
      assert forall i :: 0 <= i < |front| ==> front[i] == items[i];
      var r := ItemAssignments(ings, rpk, front);
      match FindIngredient(ings, it.ingredient)
      case None => ItemsResult(r.assignments, r.missing + {it.ingredient})
      case Some(ing) =>
        assert ing.pk in IngredientPks(ings);
        ItemsResult(r.assignments + [Assignment(Pair(rpk, ing.pk), it.quantity, it.unit)], r.missing)
  }

  /** `a` is the write the item `it` of the recipe with key `rpk` makes: its ingredient has a row, and `a` carries its pair and values. */
  predicate WritesItem(ings: seq<Ingredient>, rpk: nat, it: PlanItem, a: Assignment)
  {
    && FindIngredient(ings, it.ingredient).Some?
    && a == Assignment(Pair(rpk, FindIngredient(ings, it.ingredient).value.pk), it.quantity, it.unit)
  }

  /** Each write is the write of one of the items, and each missing name is one of the items' names. */
  lemma {:induction false} ItemProvenance(ings: seq<Ingredient>, rpk: nat, items: seq<PlanItem>)
    ensures var r := ItemAssignments(ings, rpk, items);
      && (forall a :: a in r.assignments ==> exists i :: 0 <= i < |items| && WritesItem(ings, rpk, items[i], a))
      && (forall n :: n in r.missing ==> exists i :: 0 <= i < |items| && items[i].ingredient == n)
  {
    if items != [] {
      var n := |items| - 1;
      var front := items[..n];
      ItemProvenance(ings, rpk, front);
      ItemAssignmentsStep(ings, rpk, items, n, []);
      assert items[..n + 1] == items;
      var e := ItemAssignments(ings, rpk, front);
      var r := ItemAssignments(ings, rpk, items);
      var ing := FindIngredient(ings, items[n].ingredient);
      if ing.Some? {
        assert r.assignments == e.assignments + [Assignment(Pair(rpk, ing.value.pk), items[n].quantity, items[n].unit)];
      }
      forall a | a in r.assignments
        ensures exists i :: 0 <= i < |items| && WritesItem(ings, rpk, items[i], a)
      {
        if a in e.assignments {
          var i :| 0 <= i < |front| && WritesItem(ings, rpk, front[i], a);
          assert front[i] == items[i];
        } else {
          assert WritesItem(ings, rpk, items[n], a);
        }
      }
      forall m | m in r.missing
        ensures exists i :: 0 <= i < |items| && items[i].ingredient == m
      {
        if m in e.missing {
          var i :| 0 <= i < |front| && front[i].ingredient == m;
          assert front[i] == items[i];
        } else {
          assert items[n].ingredient == m;
        }
      }
    }
  }

  /** Indices of the items whose ingredient has a row. */
  function FoundItems(ings: seq<Ingredient>, items: seq<PlanItem>): set<int>
  {
    set i | 0 <= i < |items| && FindIngredient(ings, items[i].ingredient).Some?
  }

  /** One more item adds its index to the found items exactly when its ingredient has a row. */
  lemma FoundItemsStep(ings: seq<Ingredient>, items: seq<PlanItem>, n: nat)
    requires n < |items|
    ensures FoundItems(ings, items[..n + 1]) == FoundItems(ings, items[..n])
      + (if FindIngredient(ings, items[n].ingredient).Some? then {n} else {})
    ensures n !in FoundItems(ings, items[..n])
  {
    var front, ext := items[..n], items[..n + 1];
    var found := FindIngredient(ings, items[n].ingredient).Some?;
    forall x
      ensures x in FoundItems(ings, ext) <==> x in FoundItems(ings, front) || (found && x == n)
    {
      if 0 <= x < n {
        assert front[x] == items[x] && ext[x] == items[x];
      }
    }
  }

  /** The counter grows by one for every item whose ingredient has a row, new row or not. */
  lemma {:induction false} ItemCount(ings: seq<Ingredient>, rpk: nat, items: seq<PlanItem>)
    ensures |ItemAssignments(ings, rpk, items).assignments| == |FoundItems(ings, items)|
  {
    if items != [] {
      var n := |items| - 1;
      ItemCount(ings, rpk, items[..n]);
      ItemAssignmentsStep(ings, rpk, items, n, []);
      FoundItemsStep(ings, items, n);
      assert items[..n + 1] == items;
    }
  }

  /** The writes and missing names of a run, and whether `get` raised. */
  datatype Resolution = Resolution(assignments: seq<Assignment>, missing: set<string>, aborted: bool)

  /**
   * One more plan entry: skipped when no recipe has its name, the end of the
   * run when several do (MultipleObjectsReturned is not caught), the
   * entry's writes otherwise.
   */
  function Extend(ings: seq<Ingredient>, recipes: seq<Recipe>, r: Resolution, entry: (string, seq<PlanItem>)): Resolution
  {
    if r.aborted then r
    else
      match GetRecipe(recipes, entry.0)
      case NotFound => r
      case MultipleFound => r.(aborted := true)
      case Found(rec) =>
        var e := ItemAssignments(ings, rec.pk, entry.1);
        Resolution(r.assignments + e.assignments, r.missing + e.missing, false)
  }

  /** The writes and missing names of the whole plan, in the order the loops visit the items. */
  function Resolve(ings: seq<Ingredient>, recipes: seq<Recipe>, plan: Plan): Resolution
  {
    if plan == [] then Resolution([], {}, false)
    else
      var front := plan[..|plan| - 1];
      Extend(ings, recipes, Resolve(ings, recipes, front), plan[|plan| - 1])
  }

  /**
   * Every write names an existing recipe and ingredient and, when the plan
   * fits, carries an acceptable quantity and unit; every reported name has
   * no ingredient row.
   */
  lemma {:induction false} ResolveSound(ings: seq<Ingredient>, recipes: seq<Recipe>, plan: Plan)
    ensures var r := Resolve(ings, recipes, plan);
      && (forall a :: a in r.assignments ==>
            a.pair.recipe in RecipePks(recipes) && a.pair.ingredient in IngredientPks(ings))
      && (PlanFits(plan) ==> forall a :: a in r.assignments ==> ValidLinkFields(a.quantity, a.unit))
      && (forall n :: n in r.missing ==> FindIngredient(ings, n).None?)
  {
    if plan != [] {
      var front := plan[..|plan| - 1];
      var entry := plan[|plan| - 1];
      ResolveSound(ings, recipes, front);
      assert PlanFits(plan) ==> PlanFits(front) && ItemsFit(entry.1) by {
        assert forall k :: 0 <= k < |front| ==> front[k] == plan[k];
      }
      var g := GetRecipe(recipes, entry.0);
      if g.Found? {
        assert g.recipe.pk in RecipePks(recipes);
      }
    }
  }

  /** Item `i` of entry `k` exists, and `get` finds exactly one recipe for that entry. */
  predicate ItemOfFoundRecipe(recipes: seq<Recipe>, plan: Plan, k: int, i: int)
  {
    0 <= k < |plan| && 0 <= i < |plan[k].1| && GetRecipe(recipes, plan[k].0).Found?
  }

  /** `a` is the write of some item of an entry whose recipe `get` finds. */
  ghost predicate WriteFromPlan(ings: seq<Ingredient>, recipes: seq<Recipe>, plan: Plan, a: Assignment)
  {
    exists k, i :: (ItemOfFoundRecipe(recipes, plan, k, i)
      && WritesItem(ings, GetRecipe(recipes, plan[k].0).recipe.pk, plan[k].1[i], a))
  }

  /** `n` is the ingredient name of some item of an entry whose recipe `get` finds. */
  ghost predicate NameFromPlan(recipes: seq<Recipe>, plan: Plan, n: string)
  {
    exists k, i :: ItemOfFoundRecipe(recipes, plan, k, i) && plan[k].1[i].ingredient == n
  }

  /** What an entry of the plan's front comes from, it comes from in the whole plan. */
  lemma FromPlanFront(ings: seq<Ingredient>, recipes: seq<Recipe>, plan: Plan)
    requires plan != []
    ensures forall a :: WriteFromPlan(ings, recipes, plan[..|plan| - 1], a) ==> WriteFromPlan(ings, recipes, plan, a)
    ensures forall n :: NameFromPlan(recipes, plan[..|plan| - 1], n) ==> NameFromPlan(recipes, plan, n)
  {
    var front := plan[..|plan| - 1];
    forall a | WriteFromPlan(ings, recipes, front, a)
      ensures WriteFromPlan(ings, recipes, plan, a)
    {
      var k, i :| ItemOfFoundRecipe(recipes, front, k, i)
        && WritesItem(ings, GetRecipe(recipes, front[k].0).recipe.pk, front[k].1[i], a);
      assert front[k] == plan[k];
      assert ItemOfFoundRecipe(recipes, plan, k, i);
    }
    forall m | NameFromPlan(recipes, front, m)
      ensures NameFromPlan(recipes, plan, m)
    {
      var k, i :| ItemOfFoundRecipe(recipes, front, k, i) && front[k].1[i].ingredient == m;
      assert front[k] == plan[k];
      assert ItemOfFoundRecipe(recipes, plan, k, i);
    }
  }

  /** The writes of the last entry's items come from the plan, when `get` finds its recipe. */
  lemma WritesFromPlanLast(ings: seq<Ingredient>, recipes: seq<Recipe>, plan: Plan, rpk: nat)
    requires plan != [] && GetRecipe(recipes, plan[|plan| - 1].0).Found?
    requires GetRecipe(recipes, plan[|plan| - 1].0).recipe.pk == rpk
    ensures forall a :: a in ItemAssignments(ings, rpk, plan[|plan| - 1].1).assignments ==> WriteFromPlan(ings, recipes, plan, a)
  {
    var k := |plan| - 1;
    var items := plan[k].1;
    ItemProvenance(ings, rpk, items);
    forall a | a in ItemAssignments(ings, rpk, items).assignments
      ensures WriteFromPlan(ings, recipes, plan, a)
    {
      assert a in ItemAssignments(ings, rpk, items).assignments;
      var i :| 0 <= i < |items| && WritesItem(ings, rpk, items[i], a);
      assert ItemOfFoundRecipe(recipes, plan, k, i);
    }
  }

  /** The missing names of the last entry's items come from the plan, when `get` finds its recipe. */
  lemma NamesFromPlanLast(ings: seq<Ingredient>, recipes: seq<Recipe>, plan: Plan, rpk: nat)
    requires plan != [] && GetRecipe(recipes, plan[|plan| - 1].0).Found?
    ensures forall n :: n in ItemAssignments(ings, rpk, plan[|plan| - 1].1).missing ==> NameFromPlan(recipes, plan, n)
  {
    var k := |plan| - 1;
    var items := plan[k].1;
    ItemProvenance(ings, rpk, items);
    forall m | m in ItemAssignments(ings, rpk, items).missing
      ensures NameFromPlan(recipes, plan, m)
    {
      assert m in ItemAssignments(ings, rpk, items).missing;
      var i :| 0 <= i < |items| && items[i].ingredient == m;
      assert ItemOfFoundRecipe(recipes, plan, k, i);
    }
  }

  /**
   * Every write of a run is the write of an item of a found recipe, and
   * every reported name is the ingredient name of such an item.
   */
  lemma {:induction false} ResolveProvenance(ings: seq<Ingredient>, recipes: seq<Recipe>, plan: Plan)
    ensures var r := Resolve(ings, recipes, plan);
      && (forall a :: a in r.assignments ==> WriteFromPlan(ings, recipes, plan, a))
      && (forall n :: n in r.missing ==> NameFromPlan(recipes, plan, n))
  {
    if plan != [] {
      var front := plan[..|plan| - 1];
      var last := plan[|plan| - 1];
      ResolveProvenance(ings, recipes, front);
      FromPlanFront(ings, recipes, plan);
      var r := Resolve(ings, recipes, front);
      var x := Resolve(ings, recipes, plan);
      assert x == Extend(ings, recipes, r, last);
      var g := GetRecipe(recipes, last.0);
      if !r.aborted && g.Found? {
        var e := ItemAssignments(ings, g.recipe.pk, last.1);
        WritesFromPlanLast(ings, recipes, plan, g.recipe.pk);
        NamesFromPlanLast(ings, recipes, plan, g.recipe.pk);
        assert x.assignments == r.assignments + e.assignments && x.missing == r.missing + e.missing;
      } else {
        assert x.assignments == r.assignments && x.missing == r.missing;
      }
    }
  }

  lemma AbortedStep(ings: seq<Ingredient>, recipes: seq<Recipe>, plan: Plan)
    requires plan != []
    ensures Resolve(ings, recipes, plan).aborted <==>
      Resolve(ings, recipes, plan[..|plan| - 1]).aborted || GetRecipe(recipes, plan[|plan| - 1].0).MultipleFound?
  {
  }

  /** A run raises exactly when some entry's recipe name is shared by several rows. */
  lemma ResolveAborts(ings: seq<Ingredient>, recipes: seq<Recipe>, plan: Plan)
    ensures Resolve(ings, recipes, plan).aborted <==>
      exists k :: 0 <= k < |plan| && GetRecipe(recipes, plan[k].0).MultipleFound?
  {
    if Resolve(ings, recipes, plan).aborted {
      AbortedHasCause(ings, recipes, plan);
    }
    if exists k :: 0 <= k < |plan| && GetRecipe(recipes, plan[k].0).MultipleFound? {
      var k :| 0 <= k < |plan| && GetRecipe(recipes, plan[k].0).MultipleFound?;
      AmbiguousEntryAborts(ings, recipes, plan, k);
    }
  }

  lemma AmbiguousEntryAborts(ings: seq<Ingredient>, recipes: seq<Recipe>, plan: Plan, k: nat)
    requires k < |plan| && GetRecipe(recipes, plan[k].0).MultipleFound?
    ensures Resolve(ings, recipes, plan).aborted
  {
    var prefix := plan[..k + 1];
    assert prefix[..|prefix| - 1] == plan[..k];
    AbortedStep(ings, recipes, prefix);
    AbortSticks(ings, recipes, plan, k + 1);
  }

  lemma {:induction false} AbortedHasCause(ings: seq<Ingredient>, recipes: seq<Recipe>, plan: Plan)
    requires Resolve(ings, recipes, plan).aborted
    ensures exists k :: 0 <= k < |plan| && GetRecipe(recipes, plan[k].0).MultipleFound?
  {
    var front := plan[..|plan| - 1];
    AbortedStep(ings, recipes, plan);
    if Resolve(ings, recipes, front).aborted {
      AbortedHasCause(ings, recipes, front);
      var k :| 0 <= k < |front| && GetRecipe(recipes, front[k].0).MultipleFound?;
      assert front[k] == plan[k];
    }
  }

  lemma ResolveStep(ings: seq<Ingredient>, recipes: seq<Recipe>, plan: Plan, i: nat)
    requires i < |plan|
    ensures Resolve(ings, recipes, plan[..i + 1]) == Extend(ings, recipes, Resolve(ings, recipes, plan[..i]), plan[i])
  {
    assert plan[..i + 1][..i] == plan[..i];
  }

  /** Once `get` has raised, later entries change nothing. */
  lemma {:induction false} AbortSticks(ings: seq<Ingredient>, recipes: seq<Recipe>, plan: Plan, j: nat)
    requires j <= |plan| && Resolve(ings, recipes, plan[..j]).aborted
    ensures Resolve(ings, recipes, plan) == Resolve(ings, recipes, plan[..j])
    decreases |plan|
  {
    if j == |plan| {
      assert plan[..j] == plan;
    } else {
      var front := plan[..|plan| - 1];
      assert front[..j] == plan[..j];
      AbortSticks(ings, recipes, front, j);
    }
  }

  /** An entry that does not raise keeps the writes and names found before it. */
  lemma ExtendKeeps(ings: seq<Ingredient>, recipes: seq<Recipe>, r: Resolution, entry: (string, seq<PlanItem>))
    requires !Extend(ings, recipes, r, entry).aborted
    ensures var x := Extend(ings, recipes, r, entry);
      !r.aborted && r.assignments <= x.assignments && r.missing <= x.missing
  {
  }

  /** Every item of a found recipe whose ingredient has a row is written, unless the run raised. */
  lemma {:induction false} ResolveCovers(ings: seq<Ingredient>, recipes: seq<Recipe>, plan: Plan, k: nat, i: nat)
    requires k < |plan| && i < |plan[k].1| && !Resolve(ings, recipes, plan).aborted
    requires GetRecipe(recipes, plan[k].0).Found?
    requires FindIngredient(ings, plan[k].1[i].ingredient).Some?
    ensures var it := plan[k].1[i];
      Assignment(Pair(GetRecipe(recipes, plan[k].0).recipe.pk, FindIngredient(ings, it.ingredient).value.pk), it.quantity, it.unit)
        in Resolve(ings, recipes, plan).assignments
  {
    var front := plan[..|plan| - 1];
    var last := plan[|plan| - 1];
    var r := Resolve(ings, recipes, front);
    var x := Resolve(ings, recipes, plan);
    assert x == Extend(ings, recipes, r, last);
    ExtendKeeps(ings, recipes, r, last);
    if k < |front| {
      assert front[k] == plan[k];
      ResolveCovers(ings, recipes, front, k, i);
    } else {
      var rec := GetRecipe(recipes, last.0).recipe;
      var e := ItemAssignments(ings, rec.pk, last.1);
      assert x.assignments == r.assignments + e.assignments;
    }
  }

  /** Every item of a found recipe whose ingredient has no row is reported, unless the run raised. */
  lemma {:induction false} ResolveReportsMissing(ings: seq<Ingredient>, recipes: seq<Recipe>, plan: Plan, k: nat, i: nat)
    requires k < |plan| && i < |plan[k].1| && !Resolve(ings, recipes, plan).aborted
    requires GetRecipe(recipes, plan[k].0).Found?
    requires FindIngredient(ings, plan[k].1[i].ingredient).None?
    ensures plan[k].1[i].ingredient in Resolve(ings, recipes, plan).missing
  {
    var front := plan[..|plan| - 1];
    var last := plan[|plan| - 1];
    var r := Resolve(ings, recipes, front);
    var x := Resolve(ings, recipes, plan);
    assert x == Extend(ings, recipes, r, last);
    ExtendKeeps(ings, recipes, r, last);
    if k < |front| {
      assert front[k] == plan[k];
      ResolveReportsMissing(ings, recipes, front, k, i);
    } else {
      var rec := GetRecipe(recipes, last.0).recipe;
      var e := ItemAssignments(ings, rec.pk, last.1);
      assert x.missing == r.missing + e.missing;
    }
  }

  // ---------------------------------------------------------------------
  // Applying the writes

  /** The join table after the writes `xs`, in order. */
  function UpsertAll(links: seq<RecipeIngredient>, xs: seq<Assignment>): seq<RecipeIngredient>
  {
    if xs == [] then links
    else
      var a := xs[|xs| - 1];
      Upsert(UpsertAll(links, xs[..|xs| - 1]), a.pair, a.quantity, a.unit)
  }

  lemma {:induction false} UpsertAllAppend(links: seq<RecipeIngredient>, xs: seq<Assignment>, ys: seq<Assignment>)
    ensures UpsertAll(links, xs + ys) == UpsertAll(UpsertAll(links, xs), ys)
  {
    if ys == [] {
      assert xs + ys == xs;
    } else {
      var ys' := ys[..|ys| - 1];
      UpsertAllAppend(links, xs, ys');
      assert (xs + ys)[..|xs + ys| - 1] == xs + ys';
    }
  }

  /** The last write for `pair` among `xs`, if any. */
  function LastFor(xs: seq<Assignment>, pair: Pair): (r: Option<Assignment>)
    ensures r.None? <==> pair !in AssignedPairs(xs)
    ensures r.Some? ==> r.value in xs && r.value.pair == pair
    ensures r.Some? ==> exists k :: LastWriteAt(xs, pair, k) && xs[k] == r.value
  {
    if xs == [] then None
    else
      var front := xs[..|xs| - 1];
      var a := xs[|xs| - 1];
      assert xs == front + [a];
      AssignedPairsAppend(front, a);
      if a.pair == pair then
        assert LastWriteAt(xs, pair, |xs| - 1);
        Some(a)
      else
        var r := LastFor(front, pair);
        if r.Some? then
          var k :| LastWriteAt(front, pair, k) && front[k] == r.value;
          assert LastWriteAt(xs, pair, k);
          r
        else r
  }

  /** `xs[k]` writes `pair`, and no later write in `xs` does. */
  predicate LastWriteAt(xs: seq<Assignment>, pair: Pair, k: int)
  {
    0 <= k < |xs| && xs[k].pair == pair && forall j :: k < j < |xs| ==> xs[j].pair != pair
  }

  /** The writes keep pairs unique and add exactly the written pairs. */
  lemma {:induction false} UpsertAllPairs(links: seq<RecipeIngredient>, xs: seq<Assignment>)
    requires UniquePairs(links)
    ensures UniquePairs(UpsertAll(links, xs))
    ensures PairsOf(UpsertAll(links, xs)) == PairsOf(links) + AssignedPairs(xs)
  {
    if xs != [] {
      var front := xs[..|xs| - 1];
      var a := xs[|xs| - 1];
      UpsertAllPairs(links, front);
      UpsertKeepsPairs(UpsertAll(links, front), a.pair, a.quantity, a.unit);
      assert xs == front + [a];
      AssignedPairsAppend(front, a);
    }
  }

  /** The writes keep every declared constraint when each fits and names existing rows. */
  lemma {:induction false} UpsertAllKeepsValid(db: Db, xs: seq<Assignment>)
    requires ValidDb(db)
    requires forall a :: a in xs ==>
      && a.pair.recipe in RecipePks(db.recipes) && a.pair.ingredient in IngredientPks(db.ingredients)
      && ValidLinkFields(a.quantity, a.unit)
    ensures ValidDb(db.(links := UpsertAll(db.links, xs)))
  {
    if xs != [] {
      var front := xs[..|xs| - 1];
      var a := xs[|xs| - 1];
      assert forall b :: b in front ==> b in xs;
      UpsertAllKeepsValid(db, front);
      UpsertKeepsValid(db.(links := UpsertAll(db.links, front)), a.pair, a.quantity, a.unit);
    }
  }

  /** After an upsert of `p`, every row of `p` carries the written values. */
  lemma UpsertRowsOfPair(u: seq<RecipeIngredient>, p: Pair, quantity: real, unit: string)
    requires UniquePairs(u)
    ensures forall l :: l in Upsert(u, p, quantity, unit) && KeyOf(l) == p ==> l.quantity == quantity && l.unit == unit
  {
    var r := Upsert(u, p, quantity, unit);
    forall l | l in r && KeyOf(l) == p
      ensures l.quantity == quantity && l.unit == unit
    {
      var k :| 0 <= k < |r| && r[k] == l;
      if p !in PairsOf(u) {
        assert k == |u|;
      }
    }
  }

  /** An upsert of `p` leaves the rows of every other pair as they were. */
  lemma UpsertRowsOfOtherPair(u: seq<RecipeIngredient>, p: Pair, quantity: real, unit: string, pair: Pair)
    requires UniquePairs(u) && p != pair
    ensures forall l :: l in Upsert(u, p, quantity, unit) && KeyOf(l) == pair ==> l in u
  {
    var r := Upsert(u, p, quantity, unit);
    forall l | l in r && KeyOf(l) == pair
      ensures l in u
    {
      var k :| 0 <= k < |r| && r[k] == l;
      if p !in PairsOf(u) {
        assert k < |u|;
      }
      assert r[k] == u[k];
    }
  }

  /** Every row of a written pair carries the quantity and unit of the last write to it. */
  lemma {:induction false} LastWriteWins(links: seq<RecipeIngredient>, xs: seq<Assignment>, pair: Pair)
    requires UniquePairs(links) && LastFor(xs, pair).Some?
    ensures pair in PairsOf(UpsertAll(links, xs))
    ensures forall l :: l in UpsertAll(links, xs) && KeyOf(l) == pair ==>
      l.quantity == LastFor(xs, pair).value.quantity && l.unit == LastFor(xs, pair).value.unit
  {
    var front := xs[..|xs| - 1];
    var a := xs[|xs| - 1];
    var u := UpsertAll(links, front);
    UpsertAllPairs(links, xs);
    UpsertAllPairs(links, front);
    if a.pair == pair {
      assert LastFor(xs, pair) == Some(a);
      UpsertRowsOfPair(u, a.pair, a.quantity, a.unit);
    } else {
      assert LastFor(xs, pair) == LastFor(front, pair);
      LastWriteWins(links, front, pair);
      UpsertRowsOfOtherPair(u, a.pair, a.quantity, a.unit, pair);
    }
  }

  /** Rows of a pair no write names are exactly the rows there were. */
  lemma {:induction false} UnwrittenPairsUnchanged(links: seq<RecipeIngredient>, xs: seq<Assignment>, pair: Pair)
    requires UniquePairs(links) && pair !in AssignedPairs(xs)
    ensures forall l :: KeyOf(l) == pair ==> (l in UpsertAll(links, xs) <==> l in links)
  {
    if xs != [] {
      var front := xs[..|xs| - 1];
      var a := xs[|xs| - 1];
      assert xs == front + [a];
      AssignedPairsAppend(front, a);
      UnwrittenPairsUnchanged(links, front, pair);
      var u := UpsertAll(links, front);
      UpsertAllPairs(links, front);
      var r := Upsert(u, a.pair, a.quantity, a.unit);
      forall l | KeyOf(l) == pair
        ensures l in r <==> l in u
      {
        if l in r {
          var k :| 0 <= k < |r| && r[k] == l;
          if a.pair !in PairsOf(u) {
            assert k < |u|;
          }
          assert r[k] == u[k];
        }
        if l in u {
          var k :| 0 <= k < |u| && u[k] == l;
          assert r[k] == u[k];
        }
      }
    }
  }

  /** `l` with the quantity and unit of the write `a`, when there is one. */
  function Apply(l: RecipeIngredient, a: Option<Assignment>): RecipeIngredient
  {
    match a
    case None => l
    case Some(x) => l.(quantity := x.quantity, unit := x.unit)
  }

  /** When every written pair already has a row, the writes update rows where they stand. */
  lemma {:induction false} UpsertAllInPlace(links: seq<RecipeIngredient>, xs: seq<Assignment>)
    requires UniquePairs(links) && AssignedPairs(xs) <= PairsOf(links)
    ensures |UpsertAll(links, xs)| == |links|
    ensures forall k :: 0 <= k < |links| ==>
      UpsertAll(links, xs)[k] == Apply(links[k], LastFor(xs, KeyOf(links[k])))
  {
    if xs != [] {
      var front := xs[..|xs| - 1];
      var a := xs[|xs| - 1];
      assert xs == front + [a];
      AssignedPairsAppend(front, a);
      UpsertAllInPlace(links, front);
      UpsertAllPairs(links, front);
      var u := UpsertAll(links, front);
      assert forall k :: 0 <= k < |u| ==> KeyOf(u[k]) == KeyOf(links[k]);
    }
  }

  /** Applying the same writes a second time changes nothing. */
  lemma UpsertAllIdempotent(links: seq<RecipeIngredient>, xs: seq<Assignment>)
    requires UniquePairs(links)
    ensures UpsertAll(UpsertAll(links, xs), xs) == UpsertAll(links, xs)
  {
    var u := UpsertAll(links, xs);
    UpsertAllPairs(links, xs);
    UpsertAllInPlace(u, xs);
    var v := UpsertAll(u, xs);
    forall k | 0 <= k < |u|
      ensures v[k] == u[k]
    {
      if LastFor(xs, KeyOf(u[k])).Some? {
        LastWriteWins(links, xs, KeyOf(u[k]));
        assert u[k] in u;
      }
    }
  }

  // ---------------------------------------------------------------------
  // One run

  /** The join table after a run, its counter, its missing names, and whether it raised. */
  datatype BackfillRun = BackfillRun(links: seq<RecipeIngredient>, aborted: bool, count: nat, missing: set<string>)

  function Backfill(db: Db, plan: Plan): BackfillRun
  {
    var r := Resolve(db.ingredients, db.recipes, plan);
    BackfillRun(UpsertAll(db.links, r.assignments), r.aborted, |r.assignments|, r.missing)
  }

  /** A run keeps every declared constraint and adds only pairs of existing rows. */
  lemma BackfillKeepsValid(db: Db, plan: Plan)
    requires ValidDb(db) && PlanFits(plan)
    ensures ValidDb(db.(links := Backfill(db, plan).links))
    ensures PairsOf(db.links) <= PairsOf(Backfill(db, plan).links)
  {
    var r := Resolve(db.ingredients, db.recipes, plan);
    ResolveSound(db.ingredients, db.recipes, plan);
    UpsertAllKeepsValid(db, r.assignments);
    UpsertAllPairs(db.links, r.assignments);
  }

  /**
   * After a run that did not raise, an item whose recipe and ingredient both
   * have rows finds its pair with the item's quantity and unit, provided no
   * other item writes different values to the same pair.
   */
  lemma BackfillWritesItem(db: Db, plan: Plan, k: nat, i: nat)
    requires UniquePairs(db.links)
    requires k < |plan| && i < |plan[k].1| && !Backfill(db, plan).aborted
    requires GetRecipe(db.recipes, plan[k].0).Found?
    requires FindIngredient(db.ingredients, plan[k].1[i].ingredient).Some?
    requires var pair := Pair(GetRecipe(db.recipes, plan[k].0).recipe.pk, FindIngredient(db.ingredients, plan[k].1[i].ingredient).value.pk);
      forall a :: a in Resolve(db.ingredients, db.recipes, plan).assignments && a.pair == pair ==>
        a.quantity == plan[k].1[i].quantity && a.unit == plan[k].1[i].unit
    ensures var pair := Pair(GetRecipe(db.recipes, plan[k].0).recipe.pk, FindIngredient(db.ingredients, plan[k].1[i].ingredient).value.pk);
      && pair in PairsOf(Backfill(db, plan).links)
      && forall l :: l in Backfill(db, plan).links && KeyOf(l) == pair ==>
           l.quantity == plan[k].1[i].quantity && l.unit == plan[k].1[i].unit
  {
    var xs := Resolve(db.ingredients, db.recipes, plan).assignments;
    var pair := Pair(GetRecipe(db.recipes, plan[k].0).recipe.pk, FindIngredient(db.ingredients, plan[k].1[i].ingredient).value.pk);
    ResolveCovers(db.ingredients, db.recipes, plan, k, i);
    assert pair in AssignedPairs(xs);
    LastWriteWins(db.links, xs, pair);
  }

  /** Some item of an entry whose recipe `get` finds has an ingredient row, and together they name `pair`. */
  ghost predicate PairNamedByPlan(ings: seq<Ingredient>, recipes: seq<Recipe>, plan: Plan, pair: Pair)
  {
    exists k, i :: (ItemOfFoundRecipe(recipes, plan, k, i)
      && FindIngredient(ings, plan[k].1[i].ingredient).Some?
      && pair == Pair(GetRecipe(recipes, plan[k].0).recipe.pk, FindIngredient(ings, plan[k].1[i].ingredient).value.pk))
  }

  /**
   * Rows of a pair that no plan item names (through a found recipe and an
   * existing ingredient) are left exactly as they were, whether or not the
   * run raised.
   */
  lemma BackfillLeavesOtherPairs(db: Db, plan: Plan, pair: Pair)
    requires UniquePairs(db.links)
    requires !PairNamedByPlan(db.ingredients, db.recipes, plan, pair)
    ensures forall l :: KeyOf(l) == pair ==> (l in Backfill(db, plan).links <==> l in db.links)
  {
    var xs := Resolve(db.ingredients, db.recipes, plan).assignments;
    ResolveProvenance(db.ingredients, db.recipes, plan);
    forall a | a in xs
      ensures a.pair != pair
    {
      assert WriteFromPlan(db.ingredients, db.recipes, plan, a);
      var k, i :| ItemOfFoundRecipe(db.recipes, plan, k, i)
        && WritesItem(db.ingredients, GetRecipe(db.recipes, plan[k].0).recipe.pk, plan[k].1[i], a);
    }
    assert pair !in AssignedPairs(xs);
    UnwrittenPairsUnchanged(db.links, xs, pair);
  }

  /** Positions `(k, i)` of the plan items whose recipe `get` finds and whose ingredient has a row. */
  function FoundPlanItems(ings: seq<Ingredient>, recipes: seq<Recipe>, plan: Plan): set<(int, int)>
  {
    set k, i | 0 <= k < |plan| && 0 <= i < |plan[k].1|
      && GetRecipe(recipes, plan[k].0).Found? && FindIngredient(ings, plan[k].1[i].ingredient).Some? :: (k, i)
  }

  /** Tagging every element of `s` (all of them below `j`) with `k` keeps the size. */
  lemma {:induction false} TaggedCard(k: int, s: set<int>, j: int)
    requires forall x :: x in s ==> 0 <= x < j
    ensures |set i | i in s :: (k, i)| == |s|
    decreases j
  {
    var tag := set i | i in s :: (k, i);
    if j <= 0 {
      assert forall x :: x !in s;
      assert s == {};
      assert tag == {};
    } else {
      var s' := s - {j - 1};
      var tag' := set i | i in s' :: (k, i);
      TaggedCard(k, s', j - 1);
      if j - 1 in s {
        assert s == s' + {j - 1};
        assert tag == tag' + {(k, j - 1)};
        assert (k, j - 1) !in tag';
      } else {
        assert s == s';
      }
    }
  }

  /** One more entry adds its found items, all at position `|front|`, or none when its recipe is not found. */
  lemma FoundPlanItemsStep(ings: seq<Ingredient>, recipes: seq<Recipe>, plan: Plan)
    requires plan != []
    ensures var front := plan[..|plan| - 1];
      var last := plan[|plan| - 1];
      FoundPlanItems(ings, recipes, plan) == FoundPlanItems(ings, recipes, front)
        + (if GetRecipe(recipes, last.0).Found? then set i | i in FoundItems(ings, last.1) :: (|front|, i) else {})
  {
    var front := plan[..|plan| - 1];
    var last := plan[|plan| - 1];
    var n := |front|;
    var tag := if GetRecipe(recipes, last.0).Found? then set i | i in FoundItems(ings, last.1) :: (n, i) else {};
    forall p: (int, int)
      ensures p in FoundPlanItems(ings, recipes, plan) <==> p in FoundPlanItems(ings, recipes, front) || p in tag
    {
      var (k, i) := p;
      if 0 <= k < n {
        assert front[k] == plan[k];
      }
    }
  }

  /** A run that does not raise counts exactly the plan items whose recipe and ingredient both have rows. */
  lemma {:induction false} BackfillCount(db: Db, plan: Plan)
    requires !Backfill(db, plan).aborted
    ensures Backfill(db, plan).count == |FoundPlanItems(db.ingredients, db.recipes, plan)|
  {
    ResolveCount(db.ingredients, db.recipes, plan);
  }

  lemma {:induction false} ResolveCount(ings: seq<Ingredient>, recipes: seq<Recipe>, plan: Plan)
    requires !Resolve(ings, recipes, plan).aborted
    ensures |Resolve(ings, recipes, plan).assignments| == |FoundPlanItems(ings, recipes, plan)|
  {
    if plan != [] {
      var front := plan[..|plan| - 1];
      var last := plan[|plan| - 1];
      var r := Resolve(ings, recipes, front);
      var x := Resolve(ings, recipes, plan);
      assert x == Extend(ings, recipes, r, last);
      ExtendKeeps(ings, recipes, r, last);
      ResolveCount(ings, recipes, front);
      FoundPlanItemsStep(ings, recipes, plan);
      var g := GetRecipe(recipes, last.0);
      if g.Found? {
        var e := ItemAssignments(ings, g.recipe.pk, last.1);
        assert x.assignments == r.assignments + e.assignments;
        ItemCount(ings, g.recipe.pk, last.1);
        var tag := set i | i in FoundItems(ings, last.1) :: (|front|, i);
        TaggedCard(|front|, FoundItems(ings, last.1), |last.1|);
        var f0 := FoundPlanItems(ings, recipes, front);
        assert f0 * tag == {} by {
          forall p | p in f0 ensures p.0 < |front| { }
        }
      }
    }
  }

  /** A second run on the output of the first makes the same writes and leaves the table as it is. */
  lemma BackfillIdempotent(db: Db, plan: Plan)
    requires UniquePairs(db.links)
    ensures var first := Backfill(db, plan);
      Backfill(db.(links := first.links), plan) == first
  {
    var r := Resolve(db.ingredients, db.recipes, plan);
    UpsertAllIdempotent(db.links, r.assignments);
  }

  /** A recipe name with no row is skipped and changes nothing. */
  lemma UnknownRecipeSkipped(db: Db, plan: Plan, entry: (string, seq<PlanItem>))
    requires GetRecipe(db.recipes, entry.0).NotFound?
    ensures Backfill(db, plan + [entry]) == Backfill(db, plan)
  {
    assert (plan + [entry])[..|plan|] == plan;
  }

  /**
   * A recipe name shared by several rows makes `get` raise: the run ends
   * there, and the writes already made stay, as no transaction wraps them.
   */
  lemma AmbiguousRecipeRaises(db: Db, plan: Plan, entry: (string, seq<PlanItem>))
    requires GetRecipe(db.recipes, entry.0).MultipleFound?
    ensures Backfill(db, plan + [entry]) == Backfill(db, plan).(aborted := true)
  {
    assert (plan + [entry])[..|plan|] == plan;
  }

  // ---------------------------------------------------------------------
  // The command itself

  /** What `handle` ends with: MultipleObjectsReturned, or its counter and sorted missing-name report. */
  datatype Report = Raised | Done(count: nat, missing: seq<string>)

  /** One more item: a missing name, or one more write. */
  lemma ItemAssignmentsStep(ings: seq<Ingredient>, rpk: nat, items: seq<PlanItem>, j: nat, links: seq<RecipeIngredient>)
    requires j < |items|
    ensures var e := ItemAssignments(ings, rpk, items[..j]);
      var e' := ItemAssignments(ings, rpk, items[..j + 1]);
      var it := items[j];
      match FindIngredient(ings, it.ingredient)
      case None => e'.assignments == e.assignments && e'.missing == e.missing + {it.ingredient}
      case Some(ing) =>
        && e'.missing == e.missing
        && |e'.assignments| == |e.assignments| + 1
        && UpsertAll(links, e'.assignments) == Upsert(UpsertAll(links, e.assignments), Pair(rpk, ing.pk), it.quantity, it.unit)
  {
    assert items[..j + 1][..j] == items[..j];
    var e := ItemAssignments(ings, rpk, items[..j]);
    var it := items[j];
    var ing := FindIngredient(ings, it.ingredient);
    if ing.Some? {
      var a := Assignment(Pair(rpk, ing.value.pk), it.quantity, it.unit);
      assert (e.assignments + [a])[..|e.assignments|] == e.assignments;
    }
  }

  /** The inner loop of `handle`, over the items of the recipe with key `rpk`. */
  method SaveItems(s: Store, rpk: nat, items: seq<PlanItem>) returns (count: nat, missing: set<string>)
    requires s.Valid() && rpk in RecipePks(s.recipes) && ItemsFit(items)
    modifies s
    ensures s.Valid()
    ensures s.ingredients == old(s.ingredients) && s.recipes == old(s.recipes)
    ensures s.nextIngredientPk == old(s.nextIngredientPk) && s.nextRecipePk == old(s.nextRecipePk)
    ensures var e := ItemAssignments(s.ingredients, rpk, items);
      s.links == UpsertAll(old(s.links), e.assignments) && count == |e.assignments| && missing == e.missing
  {
    count, missing := 0, {};
    ghost var links0 := s.links;
    for j := 0 to |items|
      invariant s.Valid()
      invariant s.ingredients == old(s.ingredients) && s.recipes == old(s.recipes)
      invariant s.nextIngredientPk == old(s.nextIngredientPk) && s.nextRecipePk == old(s.nextRecipePk)
      invariant var e := ItemAssignments(s.ingredients, rpk, items[..j]);
        s.links == UpsertAll(links0, e.assignments) && count == |e.assignments| && missing == e.missing
    {
      ItemAssignmentsStep(s.ingredients, rpk, items, j, links0);
      var it := items[j];
      var ing := FindIngredient(s.ingredients, it.ingredient);
      if ing.None? {
        missing := missing + {it.ingredient};
      } else {
        var p := Pair(rpk, ing.value.pk);
        assert p.ingredient in IngredientPks(s.ingredients);
        s.SaveLink(p, it.quantity, it.unit);
        count := count + 1;
      }
    }
    assert items[..|items|] == items;
  }

  /**
   * `Command.handle`: the writes of `Backfill`, in the same order; the run
   * raises where `Backfill` aborts, and otherwise reports the counter and
   * the missing names, sorted, each once.
   */
  method Handle(s: Store, plan: Plan) returns (report: Report)
    requires s.Valid() && PlanFits(plan)
    modifies s
    ensures s.Valid()
    ensures s.ingredients == old(s.ingredients) && s.recipes == old(s.recipes)
    ensures s.nextIngredientPk == old(s.nextIngredientPk) && s.nextRecipePk == old(s.nextRecipePk)
    ensures s.links == Backfill(old(s.State()), plan).links
    ensures report.Raised? <==> Backfill(old(s.State()), plan).aborted
    ensures report.Done? ==>
      && report.count == Backfill(old(s.State()), plan).count
      && SortedBy(report.missing, Self)
      && |report.missing| == |Backfill(old(s.State()), plan).missing|
      && forall n :: n in report.missing <==> n in Backfill(old(s.State()), plan).missing
  {
    var count: nat := 0;
    var missing: set<string> := {};
    ghost var links0 := s.links;
    for i := 0 to |plan|
      invariant s.Valid()
      invariant s.ingredients == old(s.ingredients) && s.recipes == old(s.recipes)
      invariant s.nextIngredientPk == old(s.nextIngredientPk) && s.nextRecipePk == old(s.nextRecipePk)
      invariant var r := Resolve(s.ingredients, s.recipes, plan[..i]);
        && !r.aborted && s.links == UpsertAll(links0, r.assignments)
        && count == |r.assignments| && missing == r.missing
    {
      ghost var r := Resolve(s.ingredients, s.recipes, plan[..i]);
      ResolveStep(s.ingredients, s.recipes, plan, i);
      assert ItemsFit(plan[i].1);
      var found := GetRecipe(s.recipes, plan[i].0);
      match found
      case NotFound =>
      case MultipleFound =>
        AbortSticks(s.ingredients, s.recipes, plan, i + 1);
        return Raised;
      case Found(recipe) =>
        assert recipe.pk in RecipePks(s.recipes);
        ghost var e := ItemAssignments(s.ingredients, recipe.pk, plan[i].1);
        UpsertAllAppend(links0, r.assignments, e.assignments);
        var c, ms := SaveItems(s, recipe.pk, plan[i].1);
        count, missing := count + c, missing + ms;
    }
    assert plan[..|plan|] == plan;
    var names := SortedNames(missing);
    report := Done(count, names);
  }
}
