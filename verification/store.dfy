/**
 * The catalogue's database: the Ingredient, Recipe and RecipeIngredient
 * tables held by one object whose operations change them in place, the
 * way the ORM's `create`, `get_or_create`, `save` and `delete` do. Every
 * operation keeps the declared constraints (`Valid`).
 */
module Database {
  import opened Wrappers
  import opened Models
  import opened Ordering

  datatype StoreError =
    | IntegrityError   // a uniqueness or foreign-key constraint would break
    | ValidationError  // a field validator rejects a value

  datatype Result<T> = Ok(value: T) | Err(error: StoreError)

  class Store {
    var ingredients: seq<Ingredient>
    var recipes: seq<Recipe>
    var links: seq<RecipeIngredient>
    var nextIngredientPk: nat  // the next automatic primary key of each table
    var nextRecipePk: nat

    function State(): Db
      reads this
    {
      Db(ingredients, recipes, links)
    }

    ghost predicate Valid()
      reads this
    {
      && ValidDb(State())
      && (forall i :: i in ingredients ==> i.pk < nextIngredientPk)
      && (forall r :: r in recipes ==> r.pk < nextRecipePk)
    }

    constructor ()
      ensures Valid() && State() == Db([], [], [])
    {
      ingredients, recipes, links := [], [], [];
      nextIngredientPk, nextRecipePk := 1, 1;
    }

    /**
     * `Ingredient.objects.create(name=name)`: a taken name breaks the unique
     * index (an integrity error). The 120-character limit, which only
     * `full_clean()` enforces in the ORM, is checked here as well.
     */
    method CreateIngredient(name: string) returns (r: Result<Ingredient>)
      requires Valid()
      modifies this
      ensures Valid()
      ensures r.Ok? <==> |name| <= NameMaxLength && FindIngredient(old(ingredients), name).None?
      ensures r.Ok? ==> r.value.name == name && r.value.pk !in IngredientPks(old(ingredients))
      ensures r.Ok? ==> ingredients == old(ingredients) + [r.value]
      ensures r.Err? ==> ingredients == old(ingredients)
      ensures r.Err? ==> (r.error == IntegrityError <==> |name| <= NameMaxLength)
      ensures recipes == old(recipes) && links == old(links)
    {
      if |name| > NameMaxLength {
        return Err(ValidationError);
      }
      if FindIngredient(ingredients, name).Some? {
        return Err(IntegrityError);
      }
      var row := Ingredient(nextIngredientPk, name);
      ingredients := ingredients + [row];
      nextIngredientPk := nextIngredientPk + 1;
      r := Ok(row);
    }

    /**
     * `Ingredient.objects.get_or_create(name=name)`: the row with that name,
     * or a new row with the next key when there is none.
     */
    method GetOrCreateIngredient(name: string) returns (row: Ingredient, created: bool)
      requires Valid() && |name| <= NameMaxLength
      modifies this
      ensures Valid()
      ensures created <==> FindIngredient(old(ingredients), name).None?
      ensures !created ==> Some(row) == FindIngredient(old(ingredients), name)
      ensures !created ==> ingredients == old(ingredients) && nextIngredientPk == old(nextIngredientPk)
      ensures created ==> row == Ingredient(old(nextIngredientPk), name)
      ensures created ==> ingredients == old(ingredients) + [row] && nextIngredientPk == old(nextIngredientPk) + 1
      ensures recipes == old(recipes) && links == old(links) && nextRecipePk == old(nextRecipePk)
    {
      var found := FindIngredient(ingredients, name);
      if found.Some? {
        return found.value, false;
      }
      row := Ingredient(nextIngredientPk, name);
      ingredients := ingredients + [row];
      nextIngredientPk := nextIngredientPk + 1;
      created := true;
    }

    /**
     * `Recipe.objects.create(...)` with the name's length limit and the cook
     * time's `MinValueValidator(1)` checked, which in the ORM only
     * `full_clean()` enforces: a violation is a validation error. Recipe
     * names need not be unique.
     */
    method CreateRecipe(name: string, description: string, cookTimeMinutes: int) returns (r: Result<Recipe>)
      requires Valid()
      modifies this
      ensures Valid()
      ensures r.Ok? <==> |name| <= NameMaxLength && cookTimeMinutes >= MinCookTime
      ensures r.Ok? ==> r.value == Recipe(old(nextRecipePk), name, description, cookTimeMinutes, DefaultPic)
      ensures r.Ok? ==> r.value.pk !in RecipePks(old(recipes)) && recipes == old(recipes) + [r.value]
      ensures r.Err? ==> r.error == ValidationError && recipes == old(recipes)
      ensures ingredients == old(ingredients) && links == old(links)
    {
      if |name| > NameMaxLength || cookTimeMinutes < MinCookTime {
        return Err(ValidationError);
      }
      var row := Recipe(nextRecipePk, name, description, cookTimeMinutes, DefaultPic);
      recipes := recipes + [row];
      nextRecipePk := nextRecipePk + 1;
      r := Ok(row);
    }

    /**
     * `RecipeIngredient.objects.create(recipe=…, ingredient=…, quantity=…, unit=…)`:
     * a second row for the same pair, or a key with no row, is an integrity
     * error. The model also rejects a negative quantity or a unit over 32
     * characters as a validation error; `create()` itself runs neither
     * validator, so it would store such a row.
     */
    method CreateLink(recipePk: nat, ingredientPk: nat, quantity: real, unit: string)
      returns (r: Result<RecipeIngredient>)
      requires Valid()
      modifies this
      ensures Valid()
      ensures r.Ok? <==>
        && Pair(recipePk, ingredientPk) !in PairsOf(old(links))
        && recipePk in RecipePks(recipes) && ingredientPk in IngredientPks(ingredients)
        && ValidLinkFields(quantity, unit)
      ensures r.Ok? ==> r.value == RecipeIngredient(recipePk, ingredientPk, quantity, unit)
      ensures r.Ok? ==> links == old(links) + [r.value]
      ensures r.Err? ==> links == old(links)
      ensures Pair(recipePk, ingredientPk) in PairsOf(old(links)) ==> r == Err(IntegrityError)
      ensures ingredients == old(ingredients) && recipes == old(recipes)
      ensures nextIngredientPk == old(nextIngredientPk) && nextRecipePk == old(nextRecipePk)
    {
      var p := Pair(recipePk, ingredientPk);
      if PairIndex(links, p) != -1 || recipePk !in RecipePks(recipes) || ingredientPk !in IngredientPks(ingredients) {
        return Err(IntegrityError);
      }
      if !ValidLinkFields(quantity, unit) {
        return Err(ValidationError);
      }
      var row := RecipeIngredient(recipePk, ingredientPk, quantity, unit);
      AppendNewPair(links, row);
      links := links + [row];
      r := Ok(row);
    }

    /**
     * `get_or_create(recipe=…, ingredient=…)`, then setting `quantity` and
     * `unit` and saving those two fields.
     */
    method SaveLink(p: Pair, quantity: real, unit: string)
      requires Valid()
      requires p.recipe in RecipePks(recipes) && p.ingredient in IngredientPks(ingredients)
      requires ValidLinkFields(quantity, unit)
      modifies this
      ensures Valid()
      ensures links == Upsert(old(links), p, quantity, unit)
      ensures PairsOf(links) == PairsOf(old(links)) + {p}
      ensures ingredients == old(ingredients) && recipes == old(recipes)
      ensures nextIngredientPk == old(nextIngredientPk) && nextRecipePk == old(nextRecipePk)
    {
      UpsertKeepsValid(State(), p, quantity, unit);
      links := Upsert(links, p, quantity, unit);
    }

    /** `recipe.delete()`: the recipe row and, by cascade, its join rows. */
    method DeleteRecipe(pk: nat)
      requires Valid()
      modifies this
      ensures Valid()
      ensures State() == Models.DeleteRecipe(old(State()), pk)
      ensures nextIngredientPk == old(nextIngredientPk) && nextRecipePk == old(nextRecipePk)
    {
      DeleteRecipeKeepsValid(State(), pk);
      var db := Models.DeleteRecipe(State(), pk);
      recipes, links := db.recipes, db.links;
    }

    /** `ingredient.delete()`: the ingredient row and, by cascade, its join rows. */
    method DeleteIngredient(pk: nat)
      requires Valid()
      modifies this
      ensures Valid()
      ensures State() == Models.DeleteIngredient(old(State()), pk)
      ensures nextIngredientPk == old(nextIngredientPk) && nextRecipePk == old(nextRecipePk)
    {
      DeleteIngredientKeepsValid(State(), pk);
      var db := Models.DeleteIngredient(State(), pk);
      ingredients, links := db.ingredients, db.links;
    }

    /** `Ingredient.objects.all()` under `ordering = ["name"]`. */
    function IngredientListing(): (rows: seq<Ingredient>)
      reads this
      ensures SortedBy(rows, IngredientName)
      ensures multiset(rows) == multiset(ingredients)
    {
      SortBy(ingredients, IngredientName)
    }

    /** `Recipe.objects.all()` under `ordering = ["name"]`. */
    function RecipeListing(): (rows: seq<Recipe>)
      reads this
      ensures SortedBy(rows, RecipeName)
      ensures multiset(rows) == multiset(recipes)
    {
      SortBy(recipes, RecipeName)
    }
  }
}
