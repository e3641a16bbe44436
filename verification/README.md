# Recipe book: the comma-joined list codec

A Dafny model of the string and list logic at the heart of a recipe-book
application. The application has two generations: an older one that stores
recipes in CSV files (`modules/`) and a newer one that keeps them in MySQL
(`src/`). Both keep every list of a recipe as one string: ingredient names,
amounts, preparation steps and tags are joined with commas. Both rebuild those
strings as the recipe is edited.

The model covers:

- the serialisers that join lists into such strings. These are the recipe
  getters of both generations, the hand-written `list_to_str` loop and
  `Ingredient.get_amount`.
- the parser that takes apart the `name (amount unit)` concatenation the
  recipe query produces (`separate_ingredients`), and the mapping of a
  fetched row into the recipe dictionary (`format_recipe`).
- the comparison of the original and edited lists when an edited recipe is
  saved (`check_items`, `check_tags`).
- the edits the forms make on the joined strings. A field is appended with
  `f"{s},{x}"` and the last field is dropped. The forms also keep parallel
  lists of the ids added in the session.
- the small rules around them. These are the recipe-of-the-day date test, the
  `'Si'`/1 favourite mapping, the stored image path `images\` plus the file
  name, step numbering from 1, and the tag list of the new-recipe form.

Python's `str.split(',')` is modelled exactly (`Strings.Split`). It always gives
at least one field, so `"".split(',')` is `[""]`. `strip()` removes Python
whitespace and `strip(')')` removes a set of characters, both from each end.
`list.remove` removes the first equal element.

Modules follow the source files:

| module | file | models |
|---|---|---|
| `Wrappers` | wrappers.dfy | `Option`, `Result` with the Python exception raised, and a dictionary cell |
| `Seqs` | seqs.dfy | `list.index`, `list.remove`, `zip`, `enumerate`, subsequences |
| `Strings` | strings.dfy | `split`, `join`, `strip`, `replace(' ', '')`, `lower`, `str(int)` |
| `CommaList` | comma_list.dfy | appending and dropping fields; the `list_to_str` loop |
| `ImagePath` | image_path.dfy | `"images\\" + path.split('/')[-1]` |
| `Favorite` | favorite.dfy | `'Si'` ↔ 1 |
| `Ingredients` | ingredient.dfy | modules/Ingredient.py |
| `CsvRecipe` | csv_recipe.dfy | modules/Recipe.py |
| `DbRecipe` | db_recipe.dfy | src/Recipe.py |
| `DbUtils` | db_utils.dfy | the pure parts of src/utils/db_utils.py |
| `CsvEditRecipe` | csv_edit_recipe.dfy | modules/EditRecipe.py |
| `EditWindow` | edit_window.dfy | src/windows/EditRecipe.py |
| `NewWindow` | new_window.dfy | src/windows/NewRecipe.py |

Some things the program gets from outside become parameters:

- A dialog's result is an `Option`. `None` means the dialog was closed
  without adding anything.
  The database-backed edit form keeps what its dialogs store (`add_flag`,
  `ingredient_value`, `data_ing`, `prep_id`, `prep_desc`) as fields, since
  a failed refresh leaves `add_flag` set for the next call.
- Whether `shutil.copy` succeeds is a `copyOk` flag.
- The `etiquetas` table is a value holding its rows and its next AUTO_INCREMENT id.
- "today" is a `Date` argument.
- The rows of the temporary CSV files are sequences.
- The formatted creation time is a string argument.

## Model

| member | source | states |
|---|---|---|
| Strings.Split | src/utils/db_utils.py:233 | `split(',')` yields one more field than there are commas, and no field holds a comma |
| Strings.SplitJoin | src/utils/db_utils.py:239 | joining comma-free fields with `','` and splitting again gives back the same fields |
| Strings.StripTrailing | src/utils/db_utils.py:236-238 | `strip` removes exactly the stripped characters appended to a string whose ends are not stripped |
| Strings.RemoveSpaces | src/windows/NewRecipe.py:162 | `replace(' ', '')` leaves no space and keeps the count of every other character |
| Strings.Lower | src/Recipe.py:49 | `lower()` keeps the length, leaves no capital letter, keeps every other character and moves each capital to its lower-case letter |
| Strings.LowerIdempotent | src/Recipe.py:49 | lower-casing twice is lower-casing once |
| Strings.DecimalRoundTrip | src/Recipe.py:34-36 | `str(n)` parses back to `n` |
| Seqs.RemoveFirst | src/utils/db_utils.py:289 | `list.remove(x)` takes out the first `x` when present, keeping the items before and after it in order; otherwise nothing changes |
| Seqs.RemoveFirstIsSubsequence | src/utils/db_utils.py:289 | `list.remove` keeps the remaining elements in order |
| Seqs.Zip | modules/EditRecipe.py:161 | `zip` pairs elements at equal positions, up to the shorter list |
| Seqs.Enumerate | modules/EditRecipe.py:251 | `enumerate(xs, start)` numbers consecutively from `start` |
| CommaList.DropLastIsPrefix | src/windows/EditRecipe.py:154-157 | dropping the last field keeps a prefix of the string; when there is a comma, the prefix stops right before a comma |
| CommaList.DropAfterAppend | src/windows/EditRecipe.py:122-123 | appending `","+x` with a comma-free `x` adds exactly the field `x`, and dropping the last field afterwards gives back the original string |
| CommaList.DropLastFields | src/windows/EditRecipe.py:154-157 | a string with several fields keeps exactly its earlier fields after the last one is dropped |
| CommaList.JoinUnlessLastIsJoin | modules/EditRecipe.py:225-228 | the loop that adds a comma after every item not equal to the last is `','.join` when no earlier item equals the last |
| CommaList.ListToStrIsJoin | modules/EditRecipe.py:222-229 | `list_to_str` is `','.join` of the items' texts when only the final item equals the last |
| CommaList.ListToStrMergesRepeatedLast | modules/EditRecipe.py:227 | for any two distinct comma-free values `a` and `b`, an item equal to the last gets no comma even mid-list: `[a, b, a]` becomes `a + b + "," + a`, which splits into two fields, not three |
| Ingredients.New | modules/Ingredient.py:8-11 | the constructor keeps the name, and the amount and unit that `get_amount` shows |
| Ingredients.GetAmount | modules/Ingredient.py:17-19 | `get_amount()` is `str(amount)`, one space, then the unit |
| Ingredients.AmountRoundTrip | modules/Ingredient.py:17-19 | for an integer amount, splitting `get_amount()` at the first space gives back `str(amount)` and the unit, and the first part parses to the amount |
| Ingredients.AmountHasNoComma | modules/Ingredient.py:17-19 | an amount and unit without commas give a `get_amount()` without commas |
| CsvRecipe.GetId | modules/Recipe.py:29-31 | `get_id()` is a comma-free decimal string that parses back to the id |
| CsvRecipe.GetIngredients | modules/Recipe.py:37-44 | for distinct ingredient objects, the names joined with commas, case unchanged |
| CsvRecipe.GetAmounts | modules/Recipe.py:46-53 | for distinct ingredient objects, the `get_amount()` texts joined with commas |
| CsvRecipe.GetPreparation | modules/Recipe.py:55-57 | `','.join` of the steps: empty for no steps; comma-free steps split back into the same steps |
| CsvRecipe.MinutesText | modules/Recipe.py:59-65 | the text is a decimal number followed by `" min"`, and the number is the time |
| CsvRecipe.GetPrepTime | modules/Recipe.py:59-61 | the preparation time in minutes followed by `" min"` |
| CsvRecipe.GetCookingTime | modules/Recipe.py:63-65 | the cooking time in minutes followed by `" min"` |
| CsvRecipe.GetSource | modules/Recipe.py:71-81 | no image gives the text `'None'`; an image whose copy succeeds gives the `repr` of `images\` followed by the image's file name; a failed copy gives `None` |
| CsvRecipe.FormatValues | modules/Recipe.py:83-96 | exactly the nine keys id … imagen (no tags, no favourite), each holding its getter's text |
| CsvRecipe.OneFieldPerIngredient | modules/Recipe.py:37-53 | with distinct objects and comma-free texts, both strings split back into one field per ingredient, in order |
| DbRecipe.GetId | src/Recipe.py:34-36 | `get_id()` parses back to the id |
| DbRecipe.GetIngredients | src/Recipe.py:42-49 | for distinct objects, the lower-cased names joined with commas; in every case as long as the unlowered loop result |
| DbRecipe.GetAmounts | src/Recipe.py:51-58 | for distinct objects, the `get_amount()` texts joined with commas |
| DbRecipe.GetPreparation | src/Recipe.py:60-62 | `','.join` of the steps, which splits back into comma-free steps |
| DbRecipe.GetPrepTime | src/Recipe.py:64-66 | the preparation time followed by `" min"` |
| DbRecipe.GetCookingTime | src/Recipe.py:68-70 | the cooking time followed by `" min"` |
| DbRecipe.GetSource | src/Recipe.py:76-87 | no image gives the text `'None'`; a successful copy gives `images\` and the file name; a failed copy gives `None` |
| DbRecipe.FormatValues | src/Recipe.py:97-112 | the eleven keys, including etiquetas and favorito, each holding its getter's value |
| DbUtils.SeparateEntry | src/utils/db_utils.py:235-238 | one entry unpacks exactly when it has one `(`; otherwise `ValueError` |
| DbUtils.SeparateEntryCommaFree | src/utils/db_utils.py:235-238 | a comma-free entry gives a comma-free name and amount |
| DbUtils.SeparateAll | src/utils/db_utils.py:233-238 | the loop succeeds exactly when every entry has one `(`, giving one name and one amount per entry; otherwise `ValueError` |
| DbUtils.SeparateAllCommaFree | src/utils/db_utils.py:234-238 | comma-free entries give comma-free names and amounts |
| DbUtils.SeparateIngredients | src/utils/db_utils.py:230-239 | succeeds exactly when every comma-separated entry has one `(`; each result string has as many fields as the input has entries |
| DbUtils.EntrySplitsAtParenthesis | src/utils/db_utils.py:235 | a built entry splits at `(` into the name plus a space and the amount plus `)` |
| DbUtils.SeparateOneEntry | src/utils/db_utils.py:235-238 | a built entry of a clean name and amount unpacks to that name and amount |
| DbUtils.SeparateAllEntries | src/utils/db_utils.py:234-238 | built entries unpack to the names and amounts they were built from, in order |
| DbUtils.SeparateRoundTrip | src/utils/db_utils.py:230-239 | the concatenated column of clean names and amounts separates into the comma-joined names and the comma-joined amounts |
| DbUtils.SeparateEmptyFails | src/utils/db_utils.py:233-235 | an empty column is one entry without `(`, so it fails with `ValueError` |
| DbUtils.FormatRecipe | src/utils/db_utils.py:214-228 | columns 0, 1, 2, 3, 4, 5, 7 and 8 go to id, nombre, tiempo de preparacion, tiempo de coccion, imagen, favorito, preparacion and etiquetas; ingredientes and cantidades come from separating column 6; a short row, a non-text column 6 and a malformed entry raise, in that order |
| DbUtils.FormatRecipeIngredients | src/utils/db_utils.py:214-228 | a row whose column 6 the query built from clean names and amounts gives back those names and amounts, in order |
| DbUtils.DayUnchangedOnAtMostOneDay | src/utils/db_utils.py:514-523 | for one marked recipe, the day counts as unchanged on at most one date |
| DbUtils.HasDayChanged | src/utils/db_utils.py:508-526 | the day has not changed exactly when `fetchone` gives a row whose assignment date is today; no marked recipe, or a `NULL` or other date, means it has |
| DbUtils.RemoveEach | src/utils/db_utils.py:287-289 | removing each item of one list from another is multiset difference |
| DbUtils.RemoveEachIsSubsequence | src/utils/db_utils.py:287-289 | the survivors keep their original order |
| DbUtils.CheckItems | src/utils/db_utils.py:284-290 | the original fields minus the edited fields as multisets, in original order |
| DbUtils.CheckItemsSame | src/utils/db_utils.py:284-290 | an unchanged list yields nothing to delete |
| DbUtils.CheckTagsFrom | src/utils/db_utils.py:295-297 | the loop that removes from the list it walks keeps a subsequence and never removes a value absent from the original |
| DbUtils.CheckTags | src/utils/db_utils.py:292-298 | a subsequence of the edited tags that keeps every tag absent from the original, as often as it occurs |
| DbUtils.CheckTagsBounds | src/utils/db_utils.py:292-298 | the result is a sub-multiset of the edited tags and contains every edited tag the original lacks |
| DbUtils.CheckTagsSkipsShared | src/utils/db_utils.py:295-297 | with tags `a,b` before and after, `["b"]` is returned: the tag after a removed one is skipped |
| DbUtils.KeepAbsent | src/utils/db_utils.py:292-298 | the items absent from the original, each as often as it occurs, in order |
| DbUtils.NewTags | src/utils/db_utils.py:292-298 | the new tags of an edit: all edited tags absent from the original, in order, and no others |
| DbUtils.NewTagsSame | src/utils/db_utils.py:292-298 | unchanged tags give no new tag |
| CsvEditRecipe.ListToTextSmall | modules/EditRecipe.py:222-229 | `list_to_str([])` is `""` and `list_to_str([x])` is `x` |
| CsvEditRecipe.ListToTextIsJoin | modules/EditRecipe.py:222-229 | on strings, `list_to_str` is `','.join` when only the final item equals the last |
| CsvEditRecipe.ListToTextAppended | modules/EditRecipe.py:263-268 | the fields of a string plus new comma-free fields, joined by `list_to_str`, split into exactly those fields when no field repeats the last |
| CsvEditRecipe.DropLast | modules/EditRecipe.py:285-287 | a one-field list loses its only field and becomes `""` |
| CsvEditRecipe.DropLastIsDropLastField | modules/EditRecipe.py:200-205 | when no earlier field repeats the new last one, `pop(-1)` then `list_to_str` is `','.join(s.split(',')[:-1])`, leaving exactly the earlier fields |
| CsvEditRecipe.LoadIngredients | modules/EditRecipe.py:159-163 | table rows pair the name and amount at each position, as many as the shorter list |
| CsvEditRecipe.AddIngredientToDict | modules/EditRecipe.py:172-185 | fails with `UnboundLocalError` exactly when there is no temporary row; only the two lists change |
| CsvEditRecipe.AddIngredientUsesLastRow | modules/EditRecipe.py:176-181 | rows before the last make no difference |
| CsvEditRecipe.AddIngredientAppends | modules/EditRecipe.py:172-185 | with a new comma-free name and amount, each list grows by exactly the last row's field, and the strings gain `","` plus that field |
| CsvEditRecipe.DeleteIngredient | modules/EditRecipe.py:200-205 | only the two lists change; `pop(-1)` never fails, and a one-field list becomes `""` |
| CsvEditRecipe.DeleteIngredientDropsLast | modules/EditRecipe.py:200-205 | when no field repeats the last, both lists lose exactly their last field |
| CsvEditRecipe.AddThenDeleteIngredient | modules/EditRecipe.py:170-210 | adding a new comma-free ingredient and deleting it gives back the dictionary |
| CsvEditRecipe.RefreshIngredientTree | modules/EditRecipe.py:187-195 | with no temporary row, "No realizo ningun cambio" is shown and nothing changes; otherwise the recipe is the one `add_ingredient_to_dict` gives and the temporary rows are emptied |
| CsvEditRecipe.RefreshIngredientAppends | modules/EditRecipe.py:187-195 | refreshing after a comma-free ingredient new to both lists succeeds, and each list gains exactly the last row's field |
| CsvEditRecipe.AddMethodToDict | modules/EditRecipe.py:261-268 | only the step list changes |
| CsvEditRecipe.AddMethodAppendsSteps | modules/EditRecipe.py:263-268 | with comma-free steps, the step list grows by exactly the temporary steps, in file order |
| CsvEditRecipe.RefreshMethodTree | modules/EditRecipe.py:271-280 | never reports an error; the recipe is the one `add_method_to_dict` gives, and the temporary steps are emptied |
| CsvEditRecipe.RefreshMethodAppends | modules/EditRecipe.py:271-280 | refreshing with comma-free steps, none repeating the new last one, grows the step list by exactly those steps |
| CsvEditRecipe.DeleteMethod | modules/EditRecipe.py:282-287 | only the step list changes; a one-step list becomes `""` |
| CsvEditRecipe.DeleteMethodDropsLast | modules/EditRecipe.py:285-287 | when no step repeats the last, the step list loses exactly its last step |
| CsvEditRecipe.LoadMethodList | modules/EditRecipe.py:248-254 | one row per step, numbered 1 to n in order |
| ImagePath.StoredPath | src/windows/EditRecipe.py:238-239 | `images\` followed by a slash-free suffix of the chosen path, the whole path when it has no `/` |
| ImagePath.SuffixAfterLastSlash | src/windows/EditRecipe.py:238 | the last `/`-field is a suffix of the path |
| ImagePath.StoredPathOfFileInDir | src/windows/NewRecipe.py:150-151 | a file `name` chosen in directory `dir` is stored as `images\name` |
| Favorite.Display | src/windows/EditRecipe.py:94 | the form shows `'Si'` exactly when favorito is 1, and `'No'` otherwise |
| Favorite.Flag | src/windows/NewRecipe.py:158-159 | 1 exactly when the text is `'Si'`, else 0 |
| Favorite.RoundTrip | src/windows/EditRecipe.py:277 | showing and saving keeps 0 and 1; saving and showing keeps `'Si'` and maps the rest to `'No'` |
| EditWindow.Open | src/windows/EditRecipe.py:45-59 | the form starts with empty, hence parallel, id and data lists |
| EditWindow.OpenRecipe | src/windows/IBaseWindow.py:75-86 | opening fails with `IndexError` when ingredient fields outnumber amount fields, then with `AttributeError` when the step column is `NULL`; otherwise the form holds the recipe's strings and image with the flag cleared and empty lists |
| EditWindow.FormattedRecipeOpens | src/windows/EditRecipe.py:166-176 | a recipe read back by `format_recipe` opens exactly when its step column is a text; a recipe saved without steps raises `AttributeError` |
| EditWindow.IngredientRows | src/windows/EditRecipe.py:96-108 | the table raises `IndexError` exactly when there are more ingredient fields than amount fields; otherwise row `k` holds amount `k` and name `k` |
| EditWindow.IngredientRowsShowNames | src/windows/EditRecipe.py:96-108 | the name column of the table joins back into `ingredientes` |
| EditWindow.NewIngredient | src/windows/EditRecipe.py:110-140 | with the flag set, the stored name and amount are appended as fields and the id and name pushed; the refresh then raises `IndexError` exactly when ingredient fields outnumber amount fields, and the flag stays set exactly then; a set flag with no stored data raises `TypeError`; nothing else changes |
| EditWindow.NewIngredientRefreshes | src/windows/EditRecipe.py:110-140 | a comma-free name and amount added to strings with no more ingredients than amounts refresh without error and clear the flag |
| EditWindow.CommaNameLeavesFlagSet | src/windows/EditRecipe.py:110-140 | a name holding a comma, added to balanced strings, makes the refresh raise `IndexError` and leaves the flag set |
| EditWindow.StaleFlagReappends | src/windows/EditRecipe.py:110-127 | while the flag stays set, a cancelled dialog appends the stored ingredient again, with the same id |
| EditWindow.DropLastFieldCount | src/windows/EditRecipe.py:154-157 | dropping the last field removes one field, but never the only one |
| EditWindow.DeleteIngredient | src/windows/EditRecipe.py:142-162 | the last id is handed over and popped when there is one; with ids but no names the strings stay and `IndexError` is shown; otherwise both strings lose their last field and the refresh error is shown exactly when ingredient fields then outnumber amount fields; nothing else changes |
| EditWindow.DeleteIngredientRefreshes | src/windows/EditRecipe.py:142-162 | on parallel lists with no more ingredients than amounts, a delete shows no error and keeps that balance |
| EditWindow.NewThenDeleteIngredient | src/windows/EditRecipe.py:110-162 | adding a comma-free ingredient to balanced strings and deleting it gives back the form, except the stored dialog data, and hands the new id to the database |
| EditWindow.DeleteIngredientKeepsEarlierFields | src/windows/EditRecipe.py:154-157 | after a delete each string holds exactly its earlier fields |
| EditWindow.NewMethod | src/windows/EditRecipe.py:178-207 | with the flag set, the stored description is appended as field(s) and the stored id and description pushed together; the flag is cleared; nothing else changes |
| EditWindow.StaleFlagAppendsNone | src/windows/EditRecipe.py:178-194 | a flag left set with no step stored appends the text `None` and a `None` id |
| EditWindow.DeleteMethod | src/windows/EditRecipe.py:209-225 | the last id is handed over and popped when there is one; with ids but no descriptions `IndexError` is shown and `preparacion` stays; otherwise `preparacion` loses its last field; nothing else changes, and parallel lists never fail |
| EditWindow.NewThenDeleteMethod | src/windows/EditRecipe.py:178-225 | adding a comma-free step and deleting it gives back the form, except the stored dialog data, and hands the new id to the database |
| EditWindow.NumberStepsSound | src/windows/EditRecipe.py:174-176 | every shown row is a non-empty field with its own position, counted from 1 |
| EditWindow.NumberStepsComplete | src/windows/EditRecipe.py:174-176 | every non-empty field is shown with its position |
| EditWindow.NumberStepsIncreasing | src/windows/EditRecipe.py:174-176 | the shown numbers increase strictly |
| EditWindow.NumberStepsCorrect | src/windows/EditRecipe.py:174-176 | the rows built from the fields are exactly their numbered step table (sound, complete, strictly increasing) |
| EditWindow.NumberStepsKeepsGaps | src/windows/EditRecipe.py:174-175 | the fields `["a", "", "b"]` give the rows `(1, "a")` and `(3, "b")` |
| EditWindow.LoadPrepMethods | src/windows/EditRecipe.py:166-176 | the step table shows exactly the non-empty steps, numbered by position from 1, in order |
| EditWindow.LoadStepColumn | src/windows/EditRecipe.py:166-176 | a `NULL` step column raises `AttributeError`; a text column gives exactly its non-empty steps, numbered by position from 1 |
| EditWindow.LoadPrepMethodsKeepsGaps | src/windows/EditRecipe.py:174-175 | `"a,,b"` shows steps 1 and 3 |
| EditWindow.AddImage | src/windows/EditRecipe.py:235-242 | no choice changes nothing; a failed copy raises `OSError`; otherwise the image becomes `images\` and the file name |
| NewWindow.NewIngredient | src/windows/NewRecipe.py:63-72 | after an add the id and the `(amount, name)` pair are pushed together; parallel lists stay parallel |
| NewWindow.DeleteIngredient | src/windows/NewRecipe.py:79-88 | with no id, `IndexError` is shown and nothing changes; otherwise the last id is handed over and the last pair popped |
| NewWindow.NewMethod | src/windows/NewRecipe.py:98-107 | after an add the id and description are pushed together |
| NewWindow.DeleteMethod | src/windows/NewRecipe.py:114-121 | with no id, `IndexError` is shown and nothing changes; otherwise both step lists lose their last element |
| NewWindow.DeleteOnParallel | src/windows/NewRecipe.py:79-121 | on parallel lists a delete fails exactly when the lists are empty, and then changes nothing |
| NewWindow.NewThenDelete | src/windows/NewRecipe.py:63-121 | adding and then deleting gives back the form and hands the new id to the database |
| NewWindow.GetSource | src/windows/NewRecipe.py:145-156 | `None` without an image or when the copy fails; otherwise the stored path |
| NewWindow.GetTagList | src/windows/NewRecipe.py:161-163 | tags without spaces or commas, one more than the commas of the input, joining back to the input without spaces |
| NewWindow.TagListRoundTrip | src/windows/NewRecipe.py:161-163 | tags without spaces or commas come back as written |
| DbUtils.CreateTag | src/utils/db_utils.py:344-353 | every call inserts a new row with the next AUTO_INCREMENT id, which no earlier row holds |
| NewWindow.CreateTags | src/windows/NewRecipe.py:168-170 | one new row per name, in order, with consecutive fresh ids; the earlier rows stay |
| NewWindow.GetTagsId | src/windows/NewRecipe.py:165-171 | one id per tag, each the id of a new row holding that tag, consecutive and strictly increasing |
| NewWindow.RepeatedTagNewRow | src/windows/NewRecipe.py:165-171 | a tag written twice gets two different ids, neither of them an existing row's |
| NewWindow.RecipePrepMethods | src/windows/NewRecipe.py:181-183 | each step id paired with its order, 1 to n, in list order |
| NewWindow.PrepOrdersDense | src/windows/NewRecipe.py:181-183 | the orders are exactly 1..n, strictly increasing, with no gap |

## Left out

- Widgets, message boxes and window layout are left out. Only the message text is kept, where an error path picks one.
- SQL queries and the MySQL connector are left out, including the schema and seed data. The `GROUP_CONCAT` that builds the ingredient column is modelled as a join (`DbUtils.GroupConcat`).
- File reading and writing are left out: `get_recipe`, `save`, `reset_file` and the temporary CSV files. The temporary rows are passed in as sequences.
- `shutil.copy` and `os.remove` are left out. A copy's success is a flag.
- The file dialog is left out. Its answer is an `Option`. On cancel, tkinter's `askopenfilename` returns `""`, and the copy of `""` then fails.
- `EditWindow.AddImage` treats the cancel case above as a chosen path with `copyOk` false.
- `select_recipe_of_the_day` is left out because its choice is random.
- `date.today()` is left out; "today" is a parameter.
- `created_at.strftime` is left out. The formatted text is passed to `FormatValues`.
- `CsvRecipe.GetSource`: `repr` (modules/Recipe.py:77) is kept as a marker around the stored path. Python's literal escaping is not modelled.
- `Strings.Lower` covers only the Basic Latin and Latin-1 letters, whose lower case is one character. Other scripts are unchanged.
- `DbUtils.CheckTags` does not say which shared tags survive, only that the result is a subsequence that keeps every new tag. Which shared tags survive depends on their positions. `DbUtils.CheckTagsSkipsShared` shows one concrete case.
- `CsvRecipe.GetIngredients` states its result only for a list holding no ingredient object twice. A repeated last object loses its commas, as in `list_to_str`.
- `CsvRecipe.GetAmounts` has the same distinct-objects limit.
- `DbRecipe.GetIngredients` has the same distinct-objects limit.
- `DbRecipe.GetAmounts` has the same distinct-objects limit.
- `CsvEditRecipe.DeleteIngredientDropsLast` assumes that no field repeats the last one. A repeated value merges fields, as `CommaList.ListToStrMergesRepeatedLast` shows.
- `CsvEditRecipe.DeleteMethodDropsLast` assumes that no step repeats the last one, for the same reason.
- `CsvEditRecipe.AddIngredientAppends` assumes that the name and amount it adds differ from every existing field. Earlier fields may repeat among themselves.
- `CsvEditRecipe.AddMethodAppendsSteps` assumes that no field repeats the new last step, since `list_to_str` would merge them.
- `CsvEditRecipe.RefreshIngredientAppends` makes the same assumption as `AddIngredientAppends`, since a refresh adds through the same `list_to_str`.
- `CsvEditRecipe.RefreshMethodAppends` makes the same assumption as `AddMethodAppendsSteps`, for the same reason.
- `DbUtils.CreateTag` models AUTO_INCREMENT as consecutive ids from the table's next value. A server `auto_increment_increment` other than 1, concurrent inserts and database errors are not modelled.
- `delete_ingredient_to_recipe` and `delete_prep_method` (database deletes) are left out. The id they receive is returned as `removed`.
- `load_ingredients` and `refresh_ingredient_tree` of the database-backed edit form appear only through the error they can raise (`EditWindow.IngredientRows`). The widgets they fill are left out.
- `EditWindow.Window` holds `preparacion` as a text, because a recipe whose step column is `NULL` never gets a form: `EditWindow.OpenRecipe` fails first.
- `refresh_method_tree` of the edit form, the refreshes of the new-recipe form and `delete_image` are left out. They fill widgets without failing, or remove a file.
- `save` of both database-backed forms is left out. It only passes values to database calls. Its favourite mapping is `Favorite.Flag`.
- `add_image` of modules/EditRecipe.py is left out. It stores the dialog's answer and then reads an attribute the class never sets.
- `add_image` of src/windows/NewRecipe.py is left out. It only stores the dialog's answer; `NewWindow.GetSource` models the path.
- `recipe_tags` and `recipe_ingredients` are left out. They are loops of database calls.
- src/Ingredient.py is not part of this model.
- `DbRecipe.GetIngredients` and `DbRecipe.GetAmounts` use the `Ingredients` model of modules/Ingredient.py for `get_name`, `get_amount` and object identity, because src/Ingredient.py (imported by src/Recipe.py:1) is not part of this model.
- Getters that return a field unchanged (`get_name`, `get_tags`, `get_favorite`) have no member of their own. They appear through `FormatValues`.

## Findings

| source | as written | input that shows it | evidently intended | confidence | as-written member | corrected member |
|---|---|---|---|---|---|---|
| modules/EditRecipe.py:227 | the comma is skipped after every item equal to the last one, not only after the last position | `["a", "b", "a"]` gives `"ab,a"`, two fields for three items | `','.join(items)`, which splits back into the items | not executed | CommaList.ListToStrMergesRepeatedLast | Strings.SplitJoin |
| src/utils/db_utils.py:295-297 | `check_tags` removes from `new_item` while iterating over it, so the element after each removed one is skipped | `check_tags("a,b", "a,b")` gives `["b"]`, and the shared tag `b` is treated as new | the edited tags absent from the original | not executed | DbUtils.CheckTagsSkipsShared | DbUtils.NewTags |
