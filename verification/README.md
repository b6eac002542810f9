# Recipe catalogue: a Dafny model

This project models the core of a small Django recipe catalogue:

- **The three tables.** `Ingredient`, `Recipe` and the `RecipeIngredient` join table, with the constraints their declarations impose:
  - ingredient names are unique;
  - a recipe cooks for at least one minute;
  - there is one join row per (recipe, ingredient) pair, with a non-negative quantity and a unit of at most 32 characters;
  - deletes cascade;
  - `recipe.ingredients` and `ingredient.recipes` are two views of the same join rows;
  - `get_absolute_url` gives a recipe's detail URL.
- **The database.** A `Store` object holds the three tables. Its methods change them in place, the way `create`, `get_or_create`, `save` and `delete` do.
- **Three management commands**, each an imperative method on the store proved against a pure definition of one run:
  - `auto_link_ingredients` inserts the missing join rows that a map of recipe names to ingredient names asks for. Ingredient names are resolved exactly, then through an alias table, then by a plural swap.
  - `backfill_seed_quantities` writes a plan's quantities and units on join rows, creating them where needed, and reports the ingredient names that have no row.
  - `add_missing_ingredients` makes sure "Salt", "Pepper" and "Parsley" exist, then runs the auto-linker.
- **The search form.** `RecipeSearchForm` has five optional fields, cleaned as Django's `CharField`, `IntegerField` and `ChoiceField` clean them.
- **Two template-filter libraries:**
  - `image_chain` builds the media URL, normalizes stored file names into URLs, and writes the `src` and `data-srcs` attributes of a recipe image;
  - `recipe_extras` contains `pretty_qty`, which writes a quantity as a mixed number with a vulgar-fraction glyph after approximating it with a denominator of at most 8, and `ingredient_line`.

The files are:

| file | contents |
|---|---|
| `wrappers.dfy` | `Option` |
| `text.dfy` | Python's `str()`/`int()` on integers, `strip()`, `join`, `split` and prefixes |
| `ordering.dfy` | Python's string order and sorting by a key |
| `models.dfy` | the tables as values, their constraints, lookups, cascades, counts and URLs |
| `store.dfy` | the `Store` class |
| `auto_link.dfy` | the auto-link command |
| `backfill.dfy` | the backfill command |
| `add_missing.dfy` | the add-missing command |
| `forms.dfy` | the search form |
| `image_chain.dfy` | the `image_chain` filters |
| `recipe_extras.dfy` | the `recipe_extras` filters |

## Model

| member | source | states |
|---|---|---|
| Models.FindIngredient | recipes/models.py:5-6 | the row found has the name asked for; None exactly when no row has that name |
| Models.FindRecipe | recipes/management/commands/auto_link_ingredients.py:75 | `filter(name=…).first()`: the result is a row with that name, and None exactly when no recipe has it |
| Models.FindRecipeIsFirst | recipes/management/commands/auto_link_ingredients.py:75 | the row `first()` returns is the first one with that name in table order |
| Models.GetRecipe | recipes/management/commands/backfill_seed_quantities.py:107-111 | `Recipe.objects.get`: NotFound exactly when no recipe has the name; Found gives the only row with it; MultipleFound only when two rows share it |
| Models.DeleteRecipe | recipes/models.py:39 | deleting a recipe removes it and exactly the join rows that name it; ingredients are untouched |
| Models.DeleteIngredient | recipes/models.py:40 | deleting an ingredient removes it and exactly the join rows that name it; recipes are untouched |
| Models.DeleteRecipeKeepsValid | recipes/models.py:39 | a cascade delete of a recipe keeps every declared constraint, and its key is gone |
| Models.DeleteIngredientKeepsValid | recipes/models.py:40 | a cascade delete of an ingredient keeps every declared constraint, and its key is gone |
| Models.IngredientsCount | recipes/models.py:24-26 | with unique pairs, `recipe.ingredients.count()` equals the number of join rows of that recipe |
| Models.RecipesCount | recipes/models.py:24-25 | with unique pairs, `ingredient.recipes.count()` equals the number of join rows of that ingredient |
| Models.PairIndex | recipes/models.py:44-45 | the position of the join row for a pair; -1 exactly when no row has that pair |
| Models.Upsert | recipes/management/commands/backfill_seed_quantities.py:119-122 | `get_or_create` then setting quantity and unit: an absent pair is appended with them; a present pair's row gets them in place and every other row stays |
| Models.UpsertKeepsPairs | recipes/models.py:44-45 | an upsert keeps pairs unique and adds exactly its own pair |
| Models.UpsertKeepsValid | recipes/models.py:38-45 | an upsert of existing keys with acceptable quantity and unit keeps every declared constraint |
| Models.DistinctPairsCount | recipes/models.py:44-45 | with unique pairs, there are as many distinct pairs as join rows |
| Models.AppendNewPair | recipes/models.py:44-45 | appending a row whose pair is new keeps pairs unique |
| Models.AbsoluteUrl | recipes/models.py:35-36 | `get_absolute_url` is exactly "/recipes/" + `str(pk)` + "/", with no leading zero, and the detail route resolves it back to the same key |
| Models.AbsoluteUrlInjective | recipes/models.py:35-36 | two recipes share a detail URL only if they share a key |
| Models.Filter | recipes/models.py:24-26 | the selection keeps exactly the rows that match, from the input, and is no longer than it |
| Models.FilterDistinct | recipes/models.py:44-45 | a selection of rows with distinct keys still has distinct keys |
| Database.Store.constructor | recipes/models.py:5-45 | the three tables start empty and valid |
| Database.Store.CreateIngredient | recipes/models.py:6 | succeeds exactly when the name is within 120 characters and not yet used, appending a row with a fresh key; a taken name is an integrity error; nothing else changes |
| Database.Store.GetOrCreateIngredient | recipes/management/commands/add_missing_ingredients.py:12 | `created` exactly when no row had the name; then the row is new with the next key, otherwise it is the existing row and nothing changes |
| Database.Store.CreateRecipe | recipes/models.py:14-20 | succeeds exactly when the name is within 120 characters and the cook time is at least 1, appending a row with a fresh key and the default picture; otherwise a validation error and nothing changes |
| Database.Store.CreateLink | recipes/models.py:38-45 | succeeds exactly when the pair is new, both keys exist and quantity and unit pass the field validators; a second row for a pair, or a missing key, is an integrity error |
| Database.Store.SaveLink | recipes/management/commands/backfill_seed_quantities.py:119-122 | the join table becomes `Upsert` of the old one; its pairs gain exactly the written pair |
| Database.Store.DeleteRecipe | recipes/models.py:39 | the new state is `DeleteRecipe` of the old one, and the constraints still hold |
| Database.Store.DeleteIngredient | recipes/models.py:40 | the new state is `DeleteIngredient` of the old one, and the constraints still hold |
| Database.Store.IngredientListing | recipes/models.py:8-9 | the ingredients listed in ascending name order, a permutation of the table |
| Database.Store.RecipeListing | recipes/models.py:29-30 | the recipes listed in ascending name order, a permutation of the table |
| Ordering.LexLeTotal | recipes/models.py:9 | Python's string order compares any two names |
| Ordering.LexLeAntisymmetric | recipes/models.py:9 | names ordered both ways are equal |
| Ordering.LexLeTransitive | recipes/models.py:9 | the string order is transitive |
| Ordering.SortBy | recipes/models.py:9 | the sorted list is ordered by the key and a permutation of the input |
| Ordering.InsertBySorted | recipes/models.py:9 | inserting into a sorted list keeps it sorted |
| Ordering.SortedNames | recipes/management/commands/backfill_seed_quantities.py:129 | `sorted(set)`: ascending, holding exactly the set's names, each once |
| Text.NatToStringRoundTrip | recipes/models.py:35-36 | the digits written for a key parse back to that key |
| Text.IntToStringRoundTrip | recipes/templatetags/recipe_extras.py:20-22 | `int(str(i)) == i` for every integer |
| Text.Strip | recipes/templatetags/recipe_extras.py:33-34 | `strip()` returns a slice of the input with only whitespace cut from each end and no whitespace left at either end |
| Text.StripIdempotent | recipes/templatetags/recipe_extras.py:33 | stripping twice is stripping once |
| Text.SplitJoin | recipes/templatetags/image_chain.py:38 | splitting a "\|"-join of parts free of "\|" gives the parts back |
| Text.OrDefault | recipes/templatetags/recipe_extras.py:31 | `s or fallback`: the string unless it is missing or empty, then the fallback ("Ingredient" for the ingredient line, "recipe" for the image title at recipes/templatetags/image_chain.py line 24) |
| AutoLinkIngredients.PluralSwapSpec | recipes/management/commands/auto_link_ingredients.py:51-58 | a name ending in "s" swaps to itself minus that "s"; any other name swaps to itself plus "s" |
| AutoLinkIngredients.NormalizeIngredientNameOrder | recipes/management/commands/auto_link_ingredients.py:39-59 | an exact match wins; the result is None exactly when no candidate (exact, alias, swap) has a row; otherwise it is the row of the first candidate that has one |
| AutoLinkIngredients.AliasOnlyForKeys | recipes/management/commands/auto_link_ingredients.py:45-49 | for a name that is not an alias key, the row found has the name itself or its plural swap |
| AutoLinkIngredients.ItemPairsInStore | recipes/management/commands/auto_link_ingredients.py:79-83 | every pair an entry's items resolve to names that entry's recipe and a stored ingredient |
| AutoLinkIngredients.ResolvedPairsInStore | recipes/management/commands/auto_link_ingredients.py:74-83 | every resolved pair names a stored recipe and a stored ingredient |
| AutoLinkIngredients.VisitPairsEffect | recipes/management/commands/auto_link_ingredients.py:84-90 | a run only appends rows with blank quantity and unit, one per `created`; afterwards the pairs are the old ones plus the visited ones; created + skipped is the number of visited pairs |
| AutoLinkIngredients.VisitPairsKeepsPairsUnique | recipes/management/commands/auto_link_ingredients.py:84-89 | a row is inserted only for an absent pair, so pairs stay unique |
| AutoLinkIngredients.CreatedCountsNewPairs | recipes/management/commands/auto_link_ingredients.py:84-90 | `created` is the number of distinct resolved pairs that had no row before |
| AutoLinkIngredients.VisitPairsNothingNew | recipes/management/commands/auto_link_ingredients.py:84-87 | when every visited pair already has a row, nothing is created and every visit is a skip |
| AutoLinkIngredients.AutoLinkKeepsValid | recipes/management/commands/auto_link_ingredients.py:71-90 | a run keeps every declared constraint of the store |
| AutoLinkIngredients.AutoLinkIdempotent | recipes/management/commands/auto_link_ingredients.py:84-87 | a second run on the first run's output creates nothing, leaves the join table as it was and skips every resolved item |
| AutoLinkIngredients.UnknownRecipeIgnored | recipes/management/commands/auto_link_ingredients.py:75-78 | a map entry whose recipe has no row changes neither the table nor the counters |
| AutoLinkIngredients.ResolvedPairsPrefix | recipes/management/commands/auto_link_ingredients.py:74 | the pairs of the first n entries depend only on those entries |
| AutoLinkIngredients.InsertMissingAppend | recipes/management/commands/auto_link_ingredients.py:74-90 | visiting a + b is visiting a, then b from where a left the table, with the counters added |
| AutoLinkIngredients.LinkItem | recipes/management/commands/auto_link_ingredients.py:80-90 | one item: the table and counters become those of visiting its resolved pair, if any; ingredients and recipes stay |
| AutoLinkIngredients.LinkItems | recipes/management/commands/auto_link_ingredients.py:79-90 | the inner loop: the table and counters become those of visiting the pairs of all the items in order |
| AutoLinkIngredients.LinkEntry | recipes/management/commands/auto_link_ingredients.py:75-90 | one entry: nothing when the recipe is missing, otherwise its items' pairs visited; the run so far, extended by this entry, is the run over one more entry |
| AutoLinkIngredients.Handle | recipes/management/commands/auto_link_ingredients.py:64-92 | the join table and the `created`/`skipped` counters end as `AutoLink` of the old state; ingredients and recipes are untouched; every constraint still holds |
| AddMissingIngredients.GetOrCreateAllEffect | recipes/management/commands/add_missing_ingredients.py:9-12 | the loop only appends rows with consecutive fresh keys and listed names, and afterwards every listed name has a row |
| AddMissingIngredients.CreatedIffAbsent | recipes/management/commands/add_missing_ingredients.py:11-13 | each name's `created` flag is true exactly when it had no row beforehand |
| AddMissingIngredients.CreatedAnyIffSomeAbsent | recipes/management/commands/add_missing_ingredients.py:10-15 | `created_any` is true exactly when some name had no row beforehand |
| AddMissingIngredients.SecondRunCreatesNothing | recipes/management/commands/add_missing_ingredients.py:12-15 | a second loop reports every name as existing and changes nothing |
| AddMissingIngredients.AllFoundCreatesNothing | recipes/management/commands/add_missing_ingredients.py:12 | when every name has a row, the loop creates nothing and leaves the table as it was |
| AddMissingIngredients.GetOrCreateAllKeepsValid | recipes/management/commands/add_missing_ingredients.py:12 | the loop keeps every constraint, names stay unique, and the next key stays above every key |
| AddMissingIngredients.AddMissingEffect | recipes/management/commands/add_missing_ingredients.py:9-19 | after a run the three names exist, recipes are untouched, old rows stay in front, and every constraint holds |
| AddMissingIngredients.BaseNamesDistinct | recipes/management/commands/add_missing_ingredients.py:9 | the three base names are distinct and short enough for the name column |
| AddMissingIngredients.GetOrCreateEach | recipes/management/commands/add_missing_ingredients.py:10-15 | the loop leaves the ingredient table, key counter and flags that `GetOrCreateAll` computes; `created_any` is whether some flag is set |
| AddMissingIngredients.Handle | recipes/management/commands/add_missing_ingredients.py:8-20 | the final state, flags and linker counters are those of `AddMissing`: the loop, then the auto-linker on the enlarged table |
| BackfillSeedQuantities.ItemAssignments | recipes/management/commands/backfill_seed_quantities.py:113-123 | each item with an ingredient row yields a write of its quantity and unit on its pair; each item without one puts its name in `missing`; every missing name has no ingredient row |
| BackfillSeedQuantities.ItemProvenance | recipes/management/commands/backfill_seed_quantities.py:113-122 | every write is the write of one of the items, and every missing name is one of the items' names |
| BackfillSeedQuantities.ItemCount | recipes/management/commands/backfill_seed_quantities.py:119-123 | the counter grows once per item whose ingredient has a row, new join row or not |
| BackfillSeedQuantities.ResolveSound | recipes/management/commands/backfill_seed_quantities.py:106-123 | every write names an existing recipe and ingredient and carries acceptable values when the plan does; every reported name lacks a row |
| BackfillSeedQuantities.ResolveProvenance | recipes/management/commands/backfill_seed_quantities.py:106-122 | every write of a run comes from an item of an entry whose recipe `get` found, and every reported name is such an item's ingredient name |
| BackfillSeedQuantities.ResolveAborts | recipes/management/commands/backfill_seed_quantities.py:107-111 | the run raises exactly when some plan entry's name matches several recipes |
| BackfillSeedQuantities.AbortedHasCause | recipes/management/commands/backfill_seed_quantities.py:107-111 | a raised run had an entry whose name matches several recipes |
| BackfillSeedQuantities.AmbiguousEntryAborts | recipes/management/commands/backfill_seed_quantities.py:107-111 | an entry whose name matches several recipes makes the run raise |
| BackfillSeedQuantities.AbortSticks | recipes/management/commands/backfill_seed_quantities.py:107-111 | once `get` has raised, later entries change nothing |
| BackfillSeedQuantities.ResolveCovers | recipes/management/commands/backfill_seed_quantities.py:113-122 | every item whose recipe and ingredient exist produces a write of exactly its quantity and unit |
| BackfillSeedQuantities.ResolveReportsMissing | recipes/management/commands/backfill_seed_quantities.py:114-117 | every item of a found recipe whose ingredient has no row is reported missing |
| BackfillSeedQuantities.LastFor | recipes/management/commands/backfill_seed_quantities.py:119-122 | the write for a pair that no later write in the sequence overrides; None exactly when no write names it |
| BackfillSeedQuantities.UpsertAllAppend | recipes/management/commands/backfill_seed_quantities.py:113-122 | applying xs + ys is applying xs, then ys |
| BackfillSeedQuantities.UpsertAllPairs | recipes/management/commands/backfill_seed_quantities.py:119-122 | the writes keep pairs unique and add exactly the written pairs |
| BackfillSeedQuantities.UpsertAllKeepsValid | recipes/management/commands/backfill_seed_quantities.py:119-122 | writes on existing keys with acceptable values keep every declared constraint |
| BackfillSeedQuantities.LastWriteWins | recipes/management/commands/backfill_seed_quantities.py:119-122 | a written pair has a row, carrying the quantity and unit of the last write for it |
| BackfillSeedQuantities.UpsertRowsOfPair | recipes/management/commands/backfill_seed_quantities.py:119-122 | after one write of a pair, every row of that pair carries the written quantity and unit |
| BackfillSeedQuantities.UpsertRowsOfOtherPair | recipes/management/commands/backfill_seed_quantities.py:119-122 | one write of a pair leaves the rows of every other pair as they were |
| BackfillSeedQuantities.UnwrittenPairsUnchanged | recipes/management/commands/backfill_seed_quantities.py:119-122 | rows of pairs no write names are kept exactly |
| BackfillSeedQuantities.UpsertAllInPlace | recipes/management/commands/backfill_seed_quantities.py:119-122 | when every written pair has a row, each row is updated where it stands with its last write |
| BackfillSeedQuantities.UpsertAllIdempotent | recipes/management/commands/backfill_seed_quantities.py:119-122 | applying the same writes twice is applying them once |
| BackfillSeedQuantities.BackfillKeepsValid | recipes/management/commands/backfill_seed_quantities.py:119-122 | with the plan's quantities non-negative and units short, a run keeps every constraint and loses no pair |
| BackfillSeedQuantities.BackfillWritesItem | recipes/management/commands/backfill_seed_quantities.py:113-122 | after a run that did not raise, each item whose recipe and ingredient exist has a row with exactly its quantity and unit, unless the plan writes that pair differently elsewhere |
| BackfillSeedQuantities.BackfillLeavesOtherPairs | recipes/management/commands/backfill_seed_quantities.py:106-122 | rows of a pair that no plan item names, through a found recipe and an existing ingredient, are left exactly as they were, whether or not the run raised |
| BackfillSeedQuantities.BackfillCount | recipes/management/commands/backfill_seed_quantities.py:103-123 | a run that does not raise counts exactly the plan items whose recipe and ingredient both have rows |
| BackfillSeedQuantities.BackfillIdempotent | recipes/management/commands/backfill_seed_quantities.py:119-122 | running twice yields the same table, counter and report as running once |
| BackfillSeedQuantities.UnknownRecipeSkipped | recipes/management/commands/backfill_seed_quantities.py:107-111 | an entry whose recipe has no row changes nothing |
| BackfillSeedQuantities.AmbiguousRecipeRaises | recipes/management/commands/backfill_seed_quantities.py:107-111 | an entry whose name matches several recipes ends the run with a raise and no further writes |
| BackfillSeedQuantities.SaveItems | recipes/management/commands/backfill_seed_quantities.py:113-123 | the inner loop: the table becomes the old one with that recipe's writes applied; the counter and missing names are those of `ItemAssignments` |
| BackfillSeedQuantities.Handle | recipes/management/commands/backfill_seed_quantities.py:102-129 | the table ends as `Backfill` of the old state; it raises exactly when `Backfill` aborts; otherwise it reports `Backfill`'s counter and its missing names, sorted, each once |
| SearchForm.FieldOrderComplete | recipes/forms.py:25-63 | the five fields appear once each in declaration order, under distinct names |
| SearchForm.CleanChar | recipes/forms.py:25-38 | an absent value cleans to ""; otherwise the stripped value is accepted exactly when it is within the limit and has no NUL, and each failing check is reported |
| SearchForm.CleanInteger | recipes/forms.py:41-47 | an empty value cleans to None; an accepted number lies in [min, max] and is the value `int()` reads; an error is a single message |
| SearchForm.CookTimeByValue | recipes/forms.py:41-47 | a written integer n is accepted exactly when 1 ≤ n ≤ 500; above 500 the error is the maximum, below 1 the minimum |
| SearchForm.CleanChoice | recipes/forms.py:50-63 | accepted exactly when empty or one of the choices; otherwise a single invalid-choice error naming the value |
| SearchForm.ChoiceRule | recipes/forms.py:50-51 | with "" among the choices, a value is accepted exactly when it is one of them |
| SearchForm.FailingFields | recipes/forms.py:20-63 | exactly the listed fields that fail to clean |
| SearchForm.ValidIffEveryFieldCleans | recipes/forms.py:20-63 | a bound form is valid exactly when every field cleans; a field has an error exactly when it fails, with that field's messages |
| SearchForm.EmptySubmissionValid | recipes/forms.py:25-63 | an empty submission is valid; an unbound form is not |
| SearchForm.CookTimeZero | recipes/forms.py:43 | "0" is rejected with the minimum error |
| SearchForm.CookTimeAboveLimit | recipes/forms.py:44 | "501" is rejected with the maximum error |
| SearchForm.CookTimeThirty | recipes/forms.py:41-47 | "30" is accepted as 30 |
| SearchForm.NonIntegerCookTime | recipes/forms.py:41 | "thirty" is rejected as not an integer |
| SearchForm.BadCookTimeKeyed | recipes/forms.py:41-47 | a rejected max_cook_time makes the form invalid, with the error keyed to max_cook_time alone |
| SearchForm.SingleFieldValidIff | recipes/forms.py:20-63 | a submission of one field is valid exactly when that field cleans |
| SearchForm.NameRule | recipes/forms.py:25-27 | a recipe_name-only submission is valid exactly when the stripped name is within 120 characters and has no NUL |
| SearchForm.IngredientsRule | recipes/forms.py:33-35 | an ingredients-only submission is valid exactly when the stripped value is within 300 characters and has no NUL |
| SearchForm.CookTimeRule | recipes/forms.py:41-47 | a max_cook_time-only submission is valid exactly when the integer cleaning accepts it |
| SearchForm.DifficultyRule | recipes/forms.py:13-18 | a difficulty-only submission is valid exactly when it is "", "Easy", "Medium" or "Hard" |
| SearchForm.ChartRule | recipes/forms.py:5-10 | a chart_type-only submission is valid exactly when it is "", "#1", "#2" or "#3" |
| SearchForm.NameOnlyValid | recipes/forms.py:25-30 | a submission with only recipe_name "pasta" is valid |
| SearchForm.CookTimeOnlyValid | recipes/forms.py:41-47 | a submission with only max_cook_time "60" is valid |
| SearchForm.DifficultyOnlyValid | recipes/forms.py:50-55 | a submission with only difficulty "Easy" is valid |
| SearchForm.CleanCharIdempotent | recipes/forms.py:25-38 | cleaning an accepted text value again gives the same value |
| ImageChain.LStrip | recipes/templatetags/image_chain.py:9 | `lstrip(c)`: a suffix of the input, with only `c` removed in front and no `c` left at its head |
| ImageChain.MediaUrl | recipes/templatetags/image_chain.py:6-12 | the media URL always starts and ends with "/" |
| ImageChain.MediaUrlKeepsSlashed | recipes/templatetags/image_chain.py:8-12 | a setting that already starts and ends with "/" is returned unchanged |
| ImageChain.MediaUrlKeepsSetting | recipes/templatetags/image_chain.py:8-11 | the setting appears whole in the result, after at most one added "/" and before at most one |
| ImageChain.MediaUrlIdempotent | recipes/templatetags/image_chain.py:6-12 | tidying a tidied media URL changes nothing |
| ImageChain.NormalizeUrl | recipes/templatetags/image_chain.py:14-20 | "" exactly for None or ""; absolute input (leading "/", or "http://"/"https://" in any case) is returned unchanged; anything else becomes the media URL + the input, starting with "/" |
| ImageChain.NormalizeUrlIdempotent | recipes/templatetags/image_chain.py:14-20 | normalizing twice is normalizing once |
| ImageChain.Primary | recipes/templatetags/image_chain.py:26-29 | the picture URL is empty or absolute |
| ImageChain.ImgSrcAttrsShape | recipes/templatetags/image_chain.py:30-39 | the URL list is the picture, when there is one, then the four fallbacks; `src` is the first URL and `data-srcs` joins the rest with "\|" |
| ImageChain.AttrsRoundTrip | recipes/templatetags/image_chain.py:38-39 | the attribute text reads back as the `src` and the joined list |
| ImageChain.ImgSrcAttrsReadBack | recipes/templatetags/image_chain.py:30-39 | with no picture, `src` is the Unsplash URL and three fallbacks follow; with one, the picture is `src` and all four fallbacks follow |
| ImageChain.FallbacksLack | recipes/templatetags/image_chain.py:30-35 | no fallback URL contains a quote or "\|" unless the quoted title does |
| RecipeExtras.NearestNumerator | recipes/templatetags/recipe_extras.py:16 | the numerator rounded from q·d lies within half a step of q·d |
| RecipeExtras.NearestNumeratorBest | recipes/templatetags/recipe_extras.py:16 | no numerator at that denominator is nearer to q |
| RecipeExtras.Closest | recipes/templatetags/recipe_extras.py:16 | the fraction with denominator at most the bound that is nearest to q; nothing with a smaller denominator is as near |
| RecipeExtras.LimitDenominator | recipes/templatetags/recipe_extras.py:16-17 | the denominator lies in 1..8 |
| RecipeExtras.LimitDenominatorLowestTerms | recipes/templatetags/recipe_extras.py:16-17 | the approximation is in lowest terms |
| RecipeExtras.LimitDenominatorError | recipes/templatetags/recipe_extras.py:16 | the approximation lies within 1/16 of q |
| RecipeExtras.LimitDenominatorExact | recipes/templatetags/recipe_extras.py:16 | a value that is already a fraction with denominator at most 8 is kept exactly |
| RecipeExtras.GlyphsInvertible | recipes/templatetags/recipe_extras.py:26 | each of the 15 glyphs stands for one proper fraction in lowest terms and is not a digit, sign, slash or blank |
| RecipeExtras.FracUnicode | recipes/templatetags/recipe_extras.py:25-27 | one glyph exactly for the 15 listed pairs; "n/d" for any other |
| RecipeExtras.FracUnicodeValue | recipes/templatetags/recipe_extras.py:25-27 | the written fraction reads back as n/d |
| RecipeExtras.DivModParts | recipes/templatetags/recipe_extras.py:18 | `divmod` with floor semantics: n = whole·d + rem with 0 ≤ rem < d, also for negative n |
| RecipeExtras.PrettyQty | recipes/templatetags/recipe_extras.py:7-23 | "" exactly for None, an unconvertible input or zero; otherwise no blank at either end |
| RecipeExtras.MixedNumber | recipes/templatetags/recipe_extras.py:18-23 | the written mixed number is never empty and has no blank at either end |
| RecipeExtras.MixedNumberRoundTrip | recipes/templatetags/recipe_extras.py:18-23 | the text written for n/d reads back as n/d in each of the three layouts |
| RecipeExtras.PrettyQtyRoundTrip | recipes/templatetags/recipe_extras.py:7-23 | for non-zero q, the text `pretty_qty` writes reads back as the approximation n/d |
| RecipeExtras.TinyQuantityShowsZero | recipes/templatetags/recipe_extras.py:16-27 | a non-zero quantity within 1/16 of zero is written "0/1" |
| RecipeExtras.IngredientLine | recipes/templatetags/recipe_extras.py:30-34 | just the name when the quantity text is empty |
| RecipeExtras.IngredientLineShape | recipes/templatetags/recipe_extras.py:32-34 | with a quantity, the line is "name: qty unit", without a trailing blank when the stripped unit is empty |

## Left out

- Output to `stdout` and the message styling of the commands are left out. The command methods return the counters and reports those messages print.
- `transaction.atomic` in `auto_link_ingredients` is left out. The model is one sequential run and has no failure inside it to roll back.
- `created_at` (the clock), `description`'s widget and `__str__` (which returns the name field) are not modelled.
- `RECIPE_MAP`, `ALIASES` and `PLAN` are parameters of the commands, not the literal tables. The properties hold for every map, alias table and plan. `PlanFits` states what `PLAN`'s literal values satisfy: every quantity at least 0 and every unit within 32 characters.
- `call_command("auto_link_ingredients")` is modelled as a call to the linker's `Handle` with the map and aliases passed in.
- Quantities are exact rationals (`real`), not `FloatField` doubles. `Decimal(str(qty))` is not modelled. `Decimal(q)` in `pretty_qty` is abstracted to an input that is None, unconvertible, or a number.
- RecipeExtras.LimitDenominator: defined as the nearest fraction with denominator at most 8, ties going to the smaller denominator. CPython's `Fraction.limit_denominator` uses a continued-fraction search instead. The two are not proved to agree on ties.
- `quote` in `img_src_attrs` is a function parameter; URL quoting itself is not modelled.
- The picture of `img_src_attrs` is an optional reference with `url` and `name`. `Recipe` declares `pic`, not `image`, so for recipe rows the code always takes the no-picture branch. The model keeps the general filter.
- `int()` in `IntegerField` is modelled for optional sign and decimal digits after stripping, with a zero fraction dropped. Underscores, non-ASCII digits and other `int()` spellings are not.
- Python's string order compares characters by their code points. There is no collation, as with SQLite's default.
- Among recipes that share a name, `.first()` under `ordering = ["name"]` is modelled as the first in table order.
- Database.Store.CreateIngredient, Database.Store.CreateRecipe: model a bare `create()`, in which a taken ingredient name is the database's integrity error and a blank name is stored, plus the 120-character limit and, for recipes, `MinValueValidator(1)`. In the ORM only `full_clean()` checks those two, and `full_clean()` would also reject a blank name and report a taken name as a validation error. A bare `create()` on SQLite stores an over-long name or a zero cook time, which the model rejects.
- Database.Store.CreateLink: rejects a negative quantity or a unit over 32 characters as a validation error. `RecipeIngredient.objects.create()` runs no validators and SQLite checks neither, so the source would store such a row. The one caller, the auto-linker, always passes the defaults 0.0 and "", which both checks accept.
- Database.Store.GetOrCreateIngredient: requires a name within 120 characters. Its one caller passes the three fixed base names.
- Database.Store.SaveLink: requires existing keys and acceptable quantity and unit. The backfill loop guarantees them.
- `Recipe` has no `difficulty` field. `recipes/tests.py:15-16` creates recipes with one, but `recipes/models.py` declares none, and the model follows `recipes/models.py`. The search form's `difficulty` choice field is modelled.
- Views, charts, admin registrations, `image_fallbacks.py`, the fixture loader and the other apps are not part of this model.
