/**
 * The `add_missing_ingredients` management command: `get_or_create` the
 * three base ingredients, reporting for each whether it was created, then
 * run the auto-linker on the enlarged ingredient table.
 */
module AddMissingIngredients {
  import opened Wrappers
  import opened Models
  import opened Database
  import opened AutoLinkIngredients

  /** The names the command makes sure exist, in the order it visits them. */
  const BaseIngredientNames: seq<string> := ["Salt", "Pepper", "Parsley"]

  /** The ingredient table and key counter after the loop, with each name's `created` flag. */
  datatype CreateRun = CreateRun(ingredients: seq<Ingredient>, nextPk: nat, created: seq<bool>)

  /** The get-or-create loop over `names`, starting from `ings` with next key `nextPk`. */
  function GetOrCreateAll(ings: seq<Ingredient>, nextPk: nat, names: seq<string>): (r: CreateRun)
    ensures |r.created| == |names|
  {
    if names == [] then CreateRun(ings, nextPk, [])
    else
      var r := GetOrCreateAll(ings, nextPk, names[..|names| - 1]);
      var n := names[|names| - 1];
      if FindIngredient(r.ingredients, n).Some? then CreateRun(r.ingredients, r.nextPk, r.created + [false])
      else CreateRun(r.ingredients + [Ingredient(r.nextPk, n)], r.nextPk + 1, r.created + [true])
  }

  /** `created_any`: some name was created. */
  function CreatedAny(r: CreateRun): bool
  {
    true in r.created
  }

  /** Names that do not occur twice. */
  ghost predicate NoRepeats(names: seq<string>)
  {
    forall i, j :: 0 <= i < j < |names| ==> names[i] != names[j]
  }

  lemma BaseNamesDistinct()
    ensures NoRepeats(BaseIngredientNames)
    ensures forall n :: n in BaseIngredientNames ==> |n| <= NameMaxLength
  {
  }

  lemma FindIngredientAppend(ings: seq<Ingredient>, row: Ingredient, name: string)
    ensures FindIngredient(ings + [row], name).None? <==> FindIngredient(ings, name).None? && row.name != name
  {
    assert forall k :: 0 <= k < |ings| ==> (ings + [row])[k] == ings[k];
    assert (ings + [row])[|ings|] == row;
  }

  /**
   * Rows there before stay, in front and unchanged; each new row takes the
   * next key and one of the names; afterwards every name has a row.
   */
  lemma {:induction false} GetOrCreateAllEffect(ings: seq<Ingredient>, nextPk: nat, names: seq<string>)
    ensures var r := GetOrCreateAll(ings, nextPk, names);
      && ings <= r.ingredients
      && r.nextPk == nextPk + (|r.ingredients| - |ings|)
      && (forall k :: |ings| <= k < |r.ingredients| ==>
            r.ingredients[k].pk == nextPk + (k - |ings|) && r.ingredients[k].name in names)
      && (forall n :: n in names ==> FindIngredient(r.ingredients, n).Some?)
  {
    if names != [] {
      var front := names[..|names| - 1];
      var n := names[|names| - 1];
      GetOrCreateAllEffect(ings, nextPk, front);
      var r := GetOrCreateAll(ings, nextPk, front);
      assert forall x :: x in names <==> x in front || x == n by {
        assert names == front + [n];
      }
      if FindIngredient(r.ingredients, n).None? {
        var row := Ingredient(r.nextPk, n);
        forall x | x in names
          ensures FindIngredient(r.ingredients + [row], x).Some?
        {
          FindIngredientAppend(r.ingredients, row, x);
        }
      }
    }
  }

  /**
   * With no repeated name, a name is reported as created exactly when no
   * row had it before the loop.
   */
  lemma {:induction false} CreatedIffAbsent(ings: seq<Ingredient>, nextPk: nat, names: seq<string>)
    requires NoRepeats(names)
    ensures var r := GetOrCreateAll(ings, nextPk, names);
      forall i :: 0 <= i < |names| ==> (r.created[i] <==> FindIngredient(ings, names[i]).None?)
  {
    if names != [] {
      var front := names[..|names| - 1];
      var n := names[|names| - 1];
      assert NoRepeats(front);
      CreatedIffAbsent(ings, nextPk, front);
      GetOrCreateAllEffect(ings, nextPk, front);
      var r := GetOrCreateAll(ings, nextPk, front);
      assert n !in front by {
        forall j | 0 <= j < |front| ensures front[j] != n {
          assert front[j] == names[j];
        }
      }
      // The rows added so far carry names of `front`, so `n` is found exactly where it was before.
      assert FindIngredient(r.ingredients, n).None? <==> FindIngredient(ings, n).None? by {
        forall k | 0 <= k < |r.ingredients|
          ensures r.ingredients[k].name == n ==> k < |ings|
        {
          if k >= |ings| {
            assert r.ingredients[k].name in front;
          }
        }
        assert forall k :: 0 <= k < |ings| ==> r.ingredients[k] == ings[k];
      }
      forall i | 0 <= i < |front|
        ensures front[i] == names[i]
      {
      }
    }
  }

  /** `created_any` is true exactly when some name had no row before the loop. */
  lemma CreatedAnyIffSomeAbsent(ings: seq<Ingredient>, nextPk: nat, names: seq<string>)
    requires NoRepeats(names)
    ensures CreatedAny(GetOrCreateAll(ings, nextPk, names)) <==>
      exists i :: 0 <= i < |names| && FindIngredient(ings, names[i]).None?
  {
    CreatedIffAbsent(ings, nextPk, names);
    var r := GetOrCreateAll(ings, nextPk, names);
    if CreatedAny(r) {
      var i :| 0 <= i < |r.created| && r.created[i];
    }
  }

  /** A second loop finds every name and reports each one as existing. */
  lemma SecondRunCreatesNothing(ings: seq<Ingredient>, nextPk: nat, names: seq<string>)
    ensures var r := GetOrCreateAll(ings, nextPk, names);
      var again := GetOrCreateAll(r.ingredients, r.nextPk, names);
      again.ingredients == r.ingredients && again.nextPk == r.nextPk && !CreatedAny(again)
  {
    var r := GetOrCreateAll(ings, nextPk, names);
    GetOrCreateAllEffect(ings, nextPk, names);
    AllFoundCreatesNothing(r.ingredients, r.nextPk, names);
  }

  lemma {:induction false} AllFoundCreatesNothing(ings: seq<Ingredient>, nextPk: nat, names: seq<string>)
    requires forall n :: n in names ==> FindIngredient(ings, n).Some?
    ensures var r := GetOrCreateAll(ings, nextPk, names);
      r.ingredients == ings && r.nextPk == nextPk && forall i :: 0 <= i < |names| ==> !r.created[i]
  {
    if names != [] {
      var front := names[..|names| - 1];
      assert forall n :: n in front ==> n in names;
      AllFoundCreatesNothing(ings, nextPk, front);
      assert names[|names| - 1] in names;
    }
  }

  /**
   * The loop keeps every declared constraint of the store: keys stay below
   * the counter and unique, and no name is stored twice.
   */
  lemma {:induction false} GetOrCreateAllKeepsValid(db: Db, nextPk: nat, names: seq<string>)
    requires ValidDb(db) && forall i :: i in db.ingredients ==> i.pk < nextPk
    requires forall n :: n in names ==> |n| <= NameMaxLength
    ensures var r := GetOrCreateAll(db.ingredients, nextPk, names);
      && ValidDb(db.(ingredients := r.ingredients))
      && forall i :: i in r.ingredients ==> i.pk < r.nextPk
  {
    if names != [] {
      var front := names[..|names| - 1];
      var n := names[|names| - 1];
      assert forall x :: x in front ==> x in names;
      GetOrCreateAllKeepsValid(db, nextPk, front);
      var r := GetOrCreateAll(db.ingredients, nextPk, front);
      if FindIngredient(r.ingredients, n).None? {
        var row := Ingredient(r.nextPk, n);
        var t := r.ingredients + [row];
        assert ValidIngredient(row);
        assert UniqueIngredientPks(t) by {
          forall i, j | 0 <= i < j < |t| ensures IngredientPk(t[i]) != IngredientPk(t[j]) {
            if j == |t| - 1 {
              assert t[i] in r.ingredients;
            } else {
              assert IngredientPk(r.ingredients[i]) != IngredientPk(r.ingredients[j]);
            }
          }
        }
        assert UniqueIngredientNames(t) by {
          forall i, j | 0 <= i < j < |t| ensures IngredientName(t[i]) != IngredientName(t[j]) {
            if j == |t| - 1 {
              assert t[i] == r.ingredients[i];
            } else {
              assert IngredientName(r.ingredients[i]) != IngredientName(r.ingredients[j]);
            }
          }
        }
        assert IngredientPks(r.ingredients) <= IngredientPks(t);
      }
    }
  }

  /** The final state of one command run: the loop, then the auto-linker on the enlarged table. */
  function AddMissing(db: Db, nextPk: nat, m: RecipeMap, aliases: Aliases): (Db, CreateRun, LinkRun)
  {
    var r := GetOrCreateAll(db.ingredients, nextPk, BaseIngredientNames);
    var run := AutoLink(db.(ingredients := r.ingredients), aliases, m);
    (Db(r.ingredients, db.recipes, run.links), r, run)
  }

  /**
   * After a run the three base names exist, the recipes are untouched, the
   * rows there before are still in front, and every constraint holds.
   */
  lemma AddMissingEffect(db: Db, nextPk: nat, m: RecipeMap, aliases: Aliases)
    requires ValidDb(db) && forall i :: i in db.ingredients ==> i.pk < nextPk
    ensures var (after, _, _) := AddMissing(db, nextPk, m, aliases);
      && ValidDb(after)
      && after.recipes == db.recipes
      && db.ingredients <= after.ingredients
      && forall n :: n in BaseIngredientNames ==> FindIngredient(after.ingredients, n).Some?
  {
    BaseNamesDistinct();
    GetOrCreateAllKeepsValid(db, nextPk, BaseIngredientNames);
    GetOrCreateAllEffect(db.ingredients, nextPk, BaseIngredientNames);
    var r := GetOrCreateAll(db.ingredients, nextPk, BaseIngredientNames);
    AutoLinkKeepsValid(db.(ingredients := r.ingredients), aliases, m);
  }

  // ---------------------------------------------------------------------
  // The command itself

  /** One more name: found, or added with the next key. */
  lemma GetOrCreateStep(ings: seq<Ingredient>, nextPk: nat, names: seq<string>, i: nat)
    requires i < |names|
    ensures var r := GetOrCreateAll(ings, nextPk, names[..i]);
      GetOrCreateAll(ings, nextPk, names[..i + 1]) ==
        if FindIngredient(r.ingredients, names[i]).Some? then CreateRun(r.ingredients, r.nextPk, r.created + [false])
        else CreateRun(r.ingredients + [Ingredient(r.nextPk, names[i])], r.nextPk + 1, r.created + [true])
  {
    assert names[..i + 1][..i] == names[..i];
  }

  /**
   * The loop of `Command.handle`: `get_or_create` each name in turn,
   * recording its `created` flag and whether any was created.
   */
  method GetOrCreateEach(s: Store, names: seq<string>) returns (created: seq<bool>, createdAny: bool)
    requires s.Valid() && forall n :: n in names ==> |n| <= NameMaxLength
    modifies s
    ensures s.Valid()
    ensures var r := GetOrCreateAll(old(s.ingredients), old(s.nextIngredientPk), names);
      s.ingredients == r.ingredients && s.nextIngredientPk == r.nextPk && created == r.created
    ensures createdAny == (true in created)
    ensures s.recipes == old(s.recipes) && s.links == old(s.links) && s.nextRecipePk == old(s.nextRecipePk)
  {
    created, createdAny := [], false;
    ghost var ings0, next0 := s.ingredients, s.nextIngredientPk;
    for i := 0 to |names|
      invariant s.Valid()
      invariant var r := GetOrCreateAll(ings0, next0, names[..i]);
        s.ingredients == r.ingredients && s.nextIngredientPk == r.nextPk && created == r.created
      invariant createdAny == (true in created)
      invariant s.recipes == old(s.recipes) && s.links == old(s.links) && s.nextRecipePk == old(s.nextRecipePk)
    {
      GetOrCreateStep(ings0, next0, names, i);
      assert names[i] in names;
      var row, c := s.GetOrCreateIngredient(names[i]);
      created := created + [c];
      createdAny := createdAny || c;
    }
    assert names[..|names|] == names;
  }

  /**
   * `Command.handle`: the get-or-create loop, then `call_command` of the
   * auto-linker with the map and aliases given. Returns each name's
   * `created` flag, `created_any`, and the linker's counters.
   */
  method Handle(s: Store, m: RecipeMap, aliases: Aliases)
    returns (created: seq<bool>, createdAny: bool, linked: nat, skipped: nat)
    requires s.Valid()
    modifies s
    ensures s.Valid()
    ensures var (after, r, run) := AddMissing(old(s.State()), old(s.nextIngredientPk), m, aliases);
      && s.State() == after && s.nextIngredientPk == r.nextPk
      && created == r.created && createdAny == CreatedAny(r)
      && linked == run.created && skipped == run.skipped
    ensures s.nextRecipePk == old(s.nextRecipePk)
  {
    BaseNamesDistinct();
    created, createdAny := GetOrCreateEach(s, BaseIngredientNames);
    linked, skipped := AutoLinkIngredients.Handle(s, m, aliases);
  }
}
