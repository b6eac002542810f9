/**
 * The `auto_link_ingredients` management command: for every (recipe name,
 * ingredient names) entry of its recipe map, find the recipe, resolve each
 * ingredient name (exact match, then an alias, then a singular/plural swap)
 * and create the join row when the pair has none, counting created and
 * skipped rows.
 */
module AutoLinkIngredients {
  import opened Wrappers
  import opened Text
  import opened Models
  import opened Database

  /** `RECIPE_MAP.items()`: recipe names with the ingredient names to link, in order. */
  type RecipeMap = seq<(string, seq<string>)>

  /** `ALIASES`: ingredient name to the name it may be stored under. */
  type Aliases = map<string, string>

  /** `name[:-1]` when `name` ends in "s", `name + "s"` otherwise. */
  function PluralSwap(name: string): string
  {
    if |name| > 0 && name[|name| - 1] == 's' then name[..|name| - 1] else name + "s"
  }

  /** The swap drops a final "s" or adds one, so a name is one swap away from its swap. */
  lemma PluralSwapSpec(name: string)
    ensures EndsWith(name, "s") ==> PluralSwap(name) + "s" == name
    ensures !EndsWith(name, "s") ==> PluralSwap(name) == name + "s"
  {
    if |name| > 0 {
      assert EndsWith(name, "s") <==> name[|name| - 1] == 's' by {
        assert name[|name| - 1..] == [name[|name| - 1]];
      }
    }
  }

  /** `ALIASES.get(name)` when it is truthy (a non-empty string). */
  function AliasOf(aliases: Aliases, name: string): Option<string>
  {
    if name in aliases && aliases[name] != "" then Some(aliases[name]) else None
  }

  /** The names `normalize_ingredient_name` tries for `name`, in the order it tries them. */
  function Candidates(aliases: Aliases, name: string): seq<string>
  {
    [name] + (match AliasOf(aliases, name) case Some(a) => [a] case None => []) + [PluralSwap(name)]
  }

  /**
   * `normalize_ingredient_name`: the ingredient stored under the first
   * candidate name that has a row, or None when no candidate has one.
   */
  function NormalizeIngredientName(ings: seq<Ingredient>, aliases: Aliases, name: string): (r: Option<Ingredient>)
    ensures r.Some? ==> r.value in ings
  {
    var exact := FindIngredient(ings, name);
    if exact.Some? then exact
    else
      match AliasOf(aliases, name)
      case Some(a) =>
        if FindIngredient(ings, a).Some? then FindIngredient(ings, a)
        else FindIngredient(ings, PluralSwap(name))
      case None => FindIngredient(ings, PluralSwap(name))
  }

  /**
   * The exact name wins when it has a row; otherwise the result is the row
   * of the first candidate that has one, and None exactly when no candidate
   * has a row.
   */
  lemma NormalizeIngredientNameOrder(ings: seq<Ingredient>, aliases: Aliases, name: string)
    ensures var r := NormalizeIngredientName(ings, aliases, name);
      var cs := Candidates(aliases, name);
      && (FindIngredient(ings, name).Some? ==> r == FindIngredient(ings, name))
      && (r.None? <==> forall c :: c in cs ==> FindIngredient(ings, c).None?)
      && (r.Some? ==> r.value.name in cs)
      && (r.Some? ==>
            exists k :: 0 <= k < |cs| && r == FindIngredient(ings, cs[k]) &&
              forall j :: 0 <= j < k ==> FindIngredient(ings, cs[j]).None?)
  {
    var cs := Candidates(aliases, name);
    var r := NormalizeIngredientName(ings, aliases, name);
    var ps := PluralSwap(name);
    if FindIngredient(ings, name).Some? {
      assert cs[0] == name && r == FindIngredient(ings, cs[0]);
    } else if AliasOf(aliases, name).Some? {
      var a := AliasOf(aliases, name).value;
      assert cs == [name, a, ps];
      assert forall c :: c in cs <==> c == name || c == a || c == ps;
      if FindIngredient(ings, a).Some? {
        assert r == FindIngredient(ings, cs[1]);
      } else {
        assert r == FindIngredient(ings, cs[2]);
      }
    } else {
      assert cs == [name, ps];
      assert forall c :: c in cs <==> c == name || c == ps;
      assert r == FindIngredient(ings, cs[1]);
    }
  }

  /** An ingredient name matching no row is never answered through an alias of another key. */
  lemma AliasOnlyForKeys(ings: seq<Ingredient>, aliases: Aliases, name: string)
    requires name !in aliases
    ensures var r := NormalizeIngredientName(ings, aliases, name);
      r.Some? ==> r.value.name == name || r.value.name == PluralSwap(name)
  {
    NormalizeIngredientNameOrder(ings, aliases, name);
  }

  // ---------------------------------------------------------------------
  // What one run of `handle` does, as a value

  /** The pair one item resolves to: none when its name resolves to no ingredient. */
  function ItemPair(ings: seq<Ingredient>, aliases: Aliases, rpk: nat, item: string): seq<Pair>
  {
    match NormalizeIngredientName(ings, aliases, item)
    case None => []
    case Some(i) => [Pair(rpk, i.pk)]
  }

  /** The pairs the first `n` items of one entry resolve to, in item order; unresolved items drop out. */
  function ItemPairs(ings: seq<Ingredient>, aliases: Aliases, rpk: nat, items: seq<string>, n: nat): seq<Pair>
    requires n <= |items|
  {
    if n == 0 then []
    else ItemPairs(ings, aliases, rpk, items, n - 1) + ItemPair(ings, aliases, rpk, items[n - 1])
  }

  /** The pairs one map entry resolves to: none when no recipe has the entry's name. */
  function EntryPairs(ings: seq<Ingredient>, recipes: seq<Recipe>, aliases: Aliases, entry: (string, seq<string>)): seq<Pair>
  {
    match FindRecipe(recipes, entry.0)
    case None => []
    case Some(r) => ItemPairs(ings, aliases, r.pk, entry.1, |entry.1|)
  }

  /**
   * Every pair the first `n` entries of the map resolve to, in the order the
   * loops visit them, once per item whose recipe was found and whose
   * ingredient resolved.
   */
  function ResolvedPairs(ings: seq<Ingredient>, recipes: seq<Recipe>, aliases: Aliases, m: RecipeMap, n: nat): seq<Pair>
    requires n <= |m|
  {
    if n == 0 then []
    else ResolvedPairs(ings, recipes, aliases, m, n - 1) + EntryPairs(ings, recipes, aliases, m[n - 1])
  }

  /** Every pair of one entry names that entry's recipe and a stored ingredient. */
  lemma {:induction false} ItemPairsInStore(ings: seq<Ingredient>, aliases: Aliases, rpk: nat, items: seq<string>, n: nat)
    requires n <= |items|
    ensures forall p :: p in ItemPairs(ings, aliases, rpk, items, n) ==> p.recipe == rpk && p.ingredient in IngredientPks(ings)
  {
    if n > 0 {
      ItemPairsInStore(ings, aliases, rpk, items, n - 1);
      var a := ItemPairs(ings, aliases, rpk, items, n - 1);
      var b := ItemPair(ings, aliases, rpk, items[n - 1]);
      assert ItemPairs(ings, aliases, rpk, items, n) == a + b;
      forall p | p in b
        ensures p.recipe == rpk && p.ingredient in IngredientPks(ings)
      {
        var r := NormalizeIngredientName(ings, aliases, items[n - 1]);
        assert r.Some? && p == Pair(rpk, r.value.pk);
        assert r.value.pk in IngredientPks(ings);
      }
    }
  }

  /** Every resolved pair names a stored recipe and a stored ingredient. */
  lemma {:induction false} ResolvedPairsInStore(ings: seq<Ingredient>, recipes: seq<Recipe>, aliases: Aliases, m: RecipeMap, n: nat)
    requires n <= |m|
    ensures forall p :: p in ResolvedPairs(ings, recipes, aliases, m, n) ==>
      p.recipe in RecipePks(recipes) && p.ingredient in IngredientPks(ings)
  {
    if n > 0 {
      ResolvedPairsInStore(ings, recipes, aliases, m, n - 1);
      var r := FindRecipe(recipes, m[n - 1].0);
      if r.Some? {
        assert r.value.pk in RecipePks(recipes);
        ItemPairsInStore(ings, aliases, r.value.pk, m[n - 1].1, |m[n - 1].1|);
      }
    }
  }

  /** Only the entries visited so far matter. */
  lemma {:induction false} ResolvedPairsPrefix(ings: seq<Ingredient>, recipes: seq<Recipe>, aliases: Aliases, m: RecipeMap, m': RecipeMap, n: nat)
    requires n <= |m| && n <= |m'| && m[..n] == m'[..n]
    ensures ResolvedPairs(ings, recipes, aliases, m, n) == ResolvedPairs(ings, recipes, aliases, m', n)
  {
    if n > 0 {
      assert m[..n - 1] == m[..n][..n - 1] && m'[..n - 1] == m'[..n][..n - 1];
      ResolvedPairsPrefix(ings, recipes, aliases, m, m', n - 1);
      assert m[n - 1] == m[..n][n - 1] && m'[n - 1] == m'[..n][n - 1];
    }
  }

  /** The join table after a run, with the `created` and `skipped` counters. */
  datatype LinkRun = LinkRun(links: seq<RecipeIngredient>, created: nat, skipped: nat)

  /** The row `RecipeIngredient.objects.create(recipe=…, ingredient=…)` makes: default quantity and unit. */
  function NewLink(p: Pair): RecipeIngredient
  {
    RecipeIngredient(p.recipe, p.ingredient, 0.0, "")
  }

  /** Visits the first `n` pairs of `ps` in order: a pair with a row counts as skipped, any other gets a new row. */
  function VisitPairs(links: seq<RecipeIngredient>, ps: seq<Pair>, n: nat): LinkRun
    requires n <= |ps|
  {
    if n == 0 then LinkRun(links, 0, 0)
    else
      var r := VisitPairs(links, ps, n - 1);
      var p := ps[n - 1];
      if p in PairsOf(r.links) then r.(skipped := r.skipped + 1)
      else LinkRun(r.links + [NewLink(p)], r.created + 1, r.skipped)
  }

  /** Visits every pair of `ps`. */
  function InsertMissing(links: seq<RecipeIngredient>, ps: seq<Pair>): LinkRun
  {
    VisitPairs(links, ps, |ps|)
  }

  /** One run of the command on the store `db`. */
  function AutoLink(db: Db, aliases: Aliases, m: RecipeMap): LinkRun
  {
    InsertMissing(db.links, ResolvedPairs(db.ingredients, db.recipes, aliases, m, |m|))
  }

  // ---------------------------------------------------------------------
  // Properties of a run

  /** The first `n` pairs of `ps`, as a set. */
  function Elements(ps: seq<Pair>, n: nat): set<Pair>
    requires n <= |ps|
  {
    set k | 0 <= k < n :: ps[k]
  }

  lemma ElementsStep(ps: seq<Pair>, n: nat)
    requires 0 < n <= |ps|
    ensures Elements(ps, n) == Elements(ps, n - 1) + {ps[n - 1]}
  {
    assert ps[n - 1] in Elements(ps, n);
  }

  /**
   * Existing rows stay as they were, in front; new rows carry the default
   * quantity and unit; afterwards every visited pair has a row; and each
   * visited pair is counted once, as created or as skipped.
   */
  lemma {:induction false} VisitPairsEffect(links: seq<RecipeIngredient>, ps: seq<Pair>, n: nat)
    requires n <= |ps|
    ensures var r := VisitPairs(links, ps, n);
      && links <= r.links
      && |r.links| == |links| + r.created
      && (forall k :: |links| <= k < |r.links| ==> r.links[k] == NewLink(KeyOf(r.links[k])))
      && PairsOf(r.links) == PairsOf(links) + Elements(ps, n)
      && r.created + r.skipped == n
  {
    if n > 0 {
      var p := ps[n - 1];
      VisitPairsEffect(links, ps, n - 1);
      ElementsStep(ps, n);
      var r := VisitPairs(links, ps, n - 1);
      if p !in PairsOf(r.links) {
        PairsOfAppend(r.links, NewLink(p));
      }
    }
  }

  /** A run never creates a second row for a pair. */
  lemma {:induction false} VisitPairsKeepsPairsUnique(links: seq<RecipeIngredient>, ps: seq<Pair>, n: nat)
    requires n <= |ps| && UniquePairs(links)
    ensures UniquePairs(VisitPairs(links, ps, n).links)
  {
    if n > 0 {
      VisitPairsKeepsPairsUnique(links, ps, n - 1);
      var r := VisitPairs(links, ps, n - 1);
      var p := ps[n - 1];
      if p !in PairsOf(r.links) {
        AppendNewPair(r.links, NewLink(p));
      }
    }
  }

  /** `created` is the number of distinct visited pairs that had no row before the run. */
  lemma CreatedCountsNewPairs(links: seq<RecipeIngredient>, ps: seq<Pair>)
    requires UniquePairs(links)
    ensures InsertMissing(links, ps).created == |Elements(ps, |ps|) - PairsOf(links)|
  {
    var r := InsertMissing(links, ps);
    VisitPairsEffect(links, ps, |ps|);
    VisitPairsKeepsPairsUnique(links, ps, |ps|);
    DistinctPairsCount(links);
    DistinctPairsCount(r.links);
    assert PairsOf(r.links) == PairsOf(links) + (Elements(ps, |ps|) - PairsOf(links));
  }

  /** When every visited pair already has a row, nothing is created and the table is unchanged. */
  lemma {:induction false} VisitPairsNothingNew(links: seq<RecipeIngredient>, ps: seq<Pair>, n: nat)
    requires n <= |ps| && Elements(ps, n) <= PairsOf(links)
    ensures VisitPairs(links, ps, n) == LinkRun(links, 0, n)
  {
    if n > 0 {
      ElementsStep(ps, n);
      VisitPairsNothingNew(links, ps, n - 1);
    }
  }

  /** A run keeps every declared constraint of the store. */
  lemma AutoLinkKeepsValid(db: Db, aliases: Aliases, m: RecipeMap)
    requires ValidDb(db)
    ensures ValidDb(db.(links := AutoLink(db, aliases, m).links))
  {
    var ps := ResolvedPairs(db.ingredients, db.recipes, aliases, m, |m|);
    var r := InsertMissing(db.links, ps);
    VisitPairsEffect(db.links, ps, |ps|);
    VisitPairsKeepsPairsUnique(db.links, ps, |ps|);
    ResolvedPairsInStore(db.ingredients, db.recipes, aliases, m, |m|);
    forall l | l in r.links
      ensures ValidLinkFields(l.quantity, l.unit)
      ensures l.recipe in RecipePks(db.recipes) && l.ingredient in IngredientPks(db.ingredients)
    {
      var k :| 0 <= k < |r.links| && r.links[k] == l;
      if k < |db.links| {
        assert l in db.links;
      } else {
        assert KeyOf(l) in PairsOf(r.links);
        assert KeyOf(l) in Elements(ps, |ps|);
        var j :| 0 <= j < |ps| && ps[j] == KeyOf(l);
        assert ps[j] in ps;
      }
    }
  }

  /** Running the command on its own output creates nothing and changes nothing. */
  lemma AutoLinkIdempotent(db: Db, aliases: Aliases, m: RecipeMap)
    ensures var first := AutoLink(db, aliases, m);
      var second := AutoLink(db.(links := first.links), aliases, m);
      second.links == first.links && second.created == 0 && second.skipped == first.created + first.skipped
  {
    var ps := ResolvedPairs(db.ingredients, db.recipes, aliases, m, |m|);
    var first := InsertMissing(db.links, ps);
    VisitPairsEffect(db.links, ps, |ps|);
    VisitPairsNothingNew(first.links, ps, |ps|);
  }

  /** A map entry whose recipe name has no row contributes nothing. */
  lemma UnknownRecipeIgnored(db: Db, aliases: Aliases, m: RecipeMap, entry: (string, seq<string>))
    requires FindRecipe(db.recipes, entry.0).None?
    ensures AutoLink(db, aliases, m + [entry]) == AutoLink(db, aliases, m)
  {
    var m' := m + [entry];
    assert m'[..|m|] == m[..|m|];
    ResolvedPairsPrefix(db.ingredients, db.recipes, aliases, m', m, |m|);
    var ps := ResolvedPairs(db.ingredients, db.recipes, aliases, m, |m|);
    assert ResolvedPairs(db.ingredients, db.recipes, aliases, m', |m'|)
      == ps + EntryPairs(db.ingredients, db.recipes, aliases, entry);
    assert EntryPairs(db.ingredients, db.recipes, aliases, entry) == [];
    assert ps + [] == ps;
  }

  /** Only the pairs visited so far matter. */
  lemma {:induction false} VisitPairsPrefix(links: seq<RecipeIngredient>, ps: seq<Pair>, qs: seq<Pair>, n: nat)
    requires n <= |ps| && n <= |qs|
    requires forall k :: 0 <= k < n ==> ps[k] == qs[k]
    ensures VisitPairs(links, ps, n) == VisitPairs(links, qs, n)
  {
    if n > 0 {
      VisitPairsPrefix(links, ps, qs, n - 1);
    }
  }

  /** One more map entry: the run so far, then that entry's pairs visited from where it stopped. */
  lemma EntriesStep(ings: seq<Ingredient>, recipes: seq<Recipe>, aliases: Aliases, m: RecipeMap, i: nat,
                    links: seq<RecipeIngredient>, prev: LinkRun, next: LinkRun)
    requires i < |m|
    requires prev == InsertMissing(links, ResolvedPairs(ings, recipes, aliases, m, i))
    requires next == InsertMissing(prev.links, EntryPairs(ings, recipes, aliases, m[i]))
    ensures Combine(prev, next) == InsertMissing(links, ResolvedPairs(ings, recipes, aliases, m, i + 1))
  {
    InsertMissingAppend(links, ResolvedPairs(ings, recipes, aliases, m, i), EntryPairs(ings, recipes, aliases, m[i]));
  }

  /** The counters of two consecutive stretches of a run add up. */
  function Combine(r: LinkRun, next: LinkRun): LinkRun
  {
    LinkRun(next.links, r.created + next.created, r.skipped + next.skipped)
  }

  /** Visiting `a`, then the first `n` pairs of `b`, is visiting that much of `a + b`. */
  lemma {:induction false} VisitPairsAppend(links: seq<RecipeIngredient>, a: seq<Pair>, b: seq<Pair>, n: nat)
    requires n <= |b|
    ensures VisitPairs(links, a + b, |a| + n) ==
      Combine(InsertMissing(links, a), VisitPairs(InsertMissing(links, a).links, b, n))
  {
    if n == 0 {
      VisitPairsPrefix(links, a + b, a, |a|);
    } else {
      VisitPairsAppend(links, a, b, n - 1);
      assert (a + b)[|a| + n - 1] == b[n - 1];
    }
  }

  /** Visiting `a` then `b` is visiting `a + b`. */
  lemma InsertMissingAppend(links: seq<RecipeIngredient>, a: seq<Pair>, b: seq<Pair>)
    ensures InsertMissing(links, a + b) ==
      Combine(InsertMissing(links, a), InsertMissing(InsertMissing(links, a).links, b))
  {
    VisitPairsAppend(links, a, b, |b|);
  }

  // ---------------------------------------------------------------------
  // The command itself

  /** One more item: the run so far, then that item's pair visited from where it stopped. */
  lemma ItemsStep(ings: seq<Ingredient>, aliases: Aliases, rpk: nat, items: seq<string>, j: nat,
                  links: seq<RecipeIngredient>, prev: LinkRun, next: LinkRun)
    requires j < |items|
    requires prev == InsertMissing(links, ItemPairs(ings, aliases, rpk, items, j))
    requires next == InsertMissing(prev.links, ItemPair(ings, aliases, rpk, items[j]))
    ensures Combine(prev, next) == InsertMissing(links, ItemPairs(ings, aliases, rpk, items, j + 1))
  {
    InsertMissingAppend(links, ItemPairs(ings, aliases, rpk, items, j), ItemPair(ings, aliases, rpk, items[j]));
  }

  /**
   * The body of the inner loop of `handle`: resolve `item`; when it resolves
   * and the pair has a row, count it as skipped, otherwise create the row.
   */
  method LinkItem(s: Store, aliases: Aliases, rpk: nat, item: string) returns (created: nat, skipped: nat)
    requires s.Valid() && rpk in RecipePks(s.recipes)
    modifies s
    ensures s.Valid()
    ensures s.ingredients == old(s.ingredients) && s.recipes == old(s.recipes)
    ensures s.nextIngredientPk == old(s.nextIngredientPk) && s.nextRecipePk == old(s.nextRecipePk)
    ensures LinkRun(s.links, created, skipped) == InsertMissing(old(s.links), ItemPair(s.ingredients, aliases, rpk, item))
  {
    var ing := NormalizeIngredientName(s.ingredients, aliases, item);
    if ing.None? {
      return 0, 0;
    }
    var p := Pair(rpk, ing.value.pk);
    assert ItemPair(s.ingredients, aliases, rpk, item) == [p];
    assert VisitPairs(s.links, [p], 0) == LinkRun(s.links, 0, 0);
    if PairIndex(s.links, p) != -1 {
      return 0, 1;
    }
    var r := s.CreateLink(rpk, ing.value.pk, 0.0, "");
    assert r.Ok?;
    created, skipped := 1, 0;
  }

  /** The inner loop of `handle`: the items of one entry whose recipe has key `rpk`. */
  method LinkItems(s: Store, aliases: Aliases, rpk: nat, items: seq<string>) returns (created: nat, skipped: nat)
    requires s.Valid() && rpk in RecipePks(s.recipes)
    modifies s
    ensures s.Valid()
    ensures s.ingredients == old(s.ingredients) && s.recipes == old(s.recipes)
    ensures s.nextIngredientPk == old(s.nextIngredientPk) && s.nextRecipePk == old(s.nextRecipePk)
    ensures LinkRun(s.links, created, skipped) == InsertMissing(old(s.links), ItemPairs(s.ingredients, aliases, rpk, items, |items|))
  {
    created, skipped := 0, 0;
    ghost var links0, ings0 := s.links, s.ingredients;
    for j := 0 to |items|
      invariant s.Valid()
      invariant s.ingredients == ings0 && s.recipes == old(s.recipes)
      invariant s.nextIngredientPk == old(s.nextIngredientPk) && s.nextRecipePk == old(s.nextRecipePk)
      invariant LinkRun(s.links, created, skipped) == InsertMissing(links0, ItemPairs(ings0, aliases, rpk, items, j))
    {
      ghost var prev := LinkRun(s.links, created, skipped);
      var c, k := LinkItem(s, aliases, rpk, items[j]);
      ItemsStep(ings0, aliases, rpk, items, j, links0, prev, LinkRun(s.links, c, k));
      created, skipped := created + c, skipped + k;
    }
  }

  /**
   * One pass of the outer loop of `handle`, on the entry `m[i]`: the
   * entry's recipe by name, then its items. `done` is the run over the
   * entries before it, whose links are the store's on entry.
   */
  method LinkEntry(s: Store, aliases: Aliases, m: RecipeMap, i: nat, ghost links0: seq<RecipeIngredient>, ghost done: LinkRun)
      returns (created: nat, skipped: nat)
    requires s.Valid() && i < |m|
    requires done.links == s.links && done == InsertMissing(links0, ResolvedPairs(s.ingredients, s.recipes, aliases, m, i))
    modifies s
    ensures s.Valid()
    ensures s.ingredients == old(s.ingredients) && s.recipes == old(s.recipes)
    ensures s.nextIngredientPk == old(s.nextIngredientPk) && s.nextRecipePk == old(s.nextRecipePk)
    ensures LinkRun(s.links, created, skipped) == InsertMissing(old(s.links), EntryPairs(s.ingredients, s.recipes, aliases, m[i]))
    ensures Combine(done, LinkRun(s.links, created, skipped)) == InsertMissing(links0, ResolvedPairs(s.ingredients, s.recipes, aliases, m, i + 1))
  {
    var recipe := FindRecipe(s.recipes, m[i].0);
    if recipe.None? {
      created, skipped := 0, 0;
    } else {
      created, skipped := LinkItems(s, aliases, recipe.value.pk, m[i].1);
    }
    EntriesStep(s.ingredients, s.recipes, aliases, m, i, links0, done, LinkRun(s.links, created, skipped));
  }

  /**
   * `Command.handle`: one pass over the map, inserting a join row for each
   * resolved pair that has none. Returns the `created` and `skipped`
   * counters it reports.
   */
  method Handle(s: Store, m: RecipeMap, aliases: Aliases) returns (created: nat, skipped: nat)
    requires s.Valid()
    modifies s
    ensures s.Valid()
    ensures s.ingredients == old(s.ingredients) && s.recipes == old(s.recipes)
    ensures s.nextIngredientPk == old(s.nextIngredientPk) && s.nextRecipePk == old(s.nextRecipePk)
    ensures LinkRun(s.links, created, skipped) == AutoLink(old(s.State()), aliases, m)
  {
    created, skipped := 0, 0;
    ghost var links0 := s.links;
    ghost var run := LinkRun(links0, 0, 0);
    for i := 0 to |m|
      invariant s.Valid()
      invariant s.ingredients == old(s.ingredients) && s.recipes == old(s.recipes)
      invariant s.nextIngredientPk == old(s.nextIngredientPk) && s.nextRecipePk == old(s.nextRecipePk)
      invariant run == LinkRun(s.links, created, skipped)
      invariant run == InsertMissing(links0, ResolvedPairs(s.ingredients, s.recipes, aliases, m, i))
    {
      var c, k := LinkEntry(s, aliases, m, i, links0, run);
      run := Combine(run, LinkRun(s.links, c, k));
      created, skipped := created + c, skipped + k;
    }
  }
}
