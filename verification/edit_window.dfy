/** The edit form of the database version of the application. Next to the
    comma-joined strings of the recipe it keeps two pairs of parallel lists:
    the ids of the ingredient rows added in this session with their names, and
    the ids of the steps added with their descriptions. A dialog that adds
    something stores its data on the form and sets `add_flag`, which both
    kinds of dialog share and which is cleared only after a refresh that
    raised nothing. Dialogs, the database and the file system are parameters:
    a dialog's result is `None` when it was closed without adding anything,
    and a copy's success is a flag. */
module EditWindow {
  import opened Wrappers
  import opened Strings
  import opened CommaList
  import ImagePath
  import DbUtils

  /** What the ingredient dialog stores: the id of the new ingredient row
      (`ingredient_value`) and `data_ing`, i.e. the amount text and the name. */
  datatype IngredientAdded = IngredientAdded(value: nat, amount: string, name: string)

  /** What the step dialog stores: `prep_id` and `prep_desc`. */
  datatype MethodAdded = MethodAdded(id: nat, desc: string)

  /** The part of the form's state the edits touch. `lastIngredient` and
      `lastStep` are `None` until a dialog of that kind has added something;
      the step lists hold `None` where a step was appended from that state. */
  datatype Window = Window(
    ingredientes: string, cantidades: string, preparacion: string, imagen: Option<string>,
    addFlag: bool,
    lastIngredient: Option<IngredientAdded>,
    ingredientsTemp: seq<nat>, treeIngData: seq<string>,
    lastStep: Option<MethodAdded>,
    prepIdList: seq<Option<nat>>, prepDescList: seq<Option<string>>)

  /** The outcome of an add: the new state and the exception that escaped, if any. */
  datatype Addition = Addition(window: Window, raised: Option<PyError>)

  /** The outcome of a delete: the new state, the id handed to the database
      for deletion, and the error message shown, if any. */
  datatype Deletion<Id> = Deletion(window: Window, removed: Option<Id>, error: Option<string>)

  const NoIngredient := "No hay ningun ingrediente en la lista"
  const NoStep := "No hay ningun paso en la lista"

  /** The parallel lists have equal lengths. */
  predicate Parallel(w: Window)
  {
    |w.ingredientsTemp| == |w.treeIngData| && |w.prepIdList| == |w.prepDescList|
  }

  /** The state right after the recipe is loaded: nothing added yet. */
  function Open(ingredientes: string, cantidades: string, preparacion: string, imagen: Option<string>): (w: Window)
    ensures Parallel(w) && w.ingredientsTemp == [] && w.prepIdList == []
    ensures !w.addFlag && w.lastIngredient.None? && w.lastStep.None?
  {
    Window(ingredientes, cantidades, preparacion, imagen, false, None, [], [], None, [], [])
  }

  /** `load_ingredients`: row `i` shows `amounts[i]` and `ingredients[i]`, so
      a list of ingredients longer than the list of amounts raises `IndexError`. */
  function IngredientRows(w: Window): (r: Result<seq<(string, string)>>)
    ensures r.Failure? <==> |Split(w.ingredientes, ',')| > |Split(w.cantidades, ',')|
    ensures r.Failure? ==> r.error == IndexError
    ensures r.Success? ==> |r.value| == |Split(w.ingredientes, ',')|
    ensures r.Success? ==> forall k :: 0 <= k < |r.value| ==>
      r.value[k] == (Split(w.cantidades, ',')[k], Split(w.ingredientes, ',')[k])
  {
    var names := Split(w.ingredientes, ',');
    var amounts := Split(w.cantidades, ',');
    if |names| > |amounts| then Failure(IndexError)
    else Success(seq(|names|, k requires 0 <= k < |names| => (amounts[k], names[k])))
  }

  /** The name column of the table. */
  function NameColumn(rows: seq<(string, string)>): (names: seq<string>)
    ensures |names| == |rows| && forall k :: 0 <= k < |rows| ==> names[k] == rows[k].1
  {
    seq(|rows|, k requires 0 <= k < |rows| => rows[k].1)
  }

  /** The table shows every ingredient: its name column joins back into `ingredientes`. */
  lemma IngredientRowsShowNames(w: Window)
    requires IngredientRows(w).Success?
    ensures Join(NameColumn(IngredientRows(w).value), ',') == w.ingredientes
  {
    assert NameColumn(IngredientRows(w).value) == Split(w.ingredientes, ',');
    JoinSplit(w.ingredientes, ',');
  }

  /** The state after the ingredient dialog closes: an add stores its data and sets the flag. */
  function IngredientDialog(w: Window, dialog: Option<IngredientAdded>): (v: Window)
    ensures dialog.None? ==> v == w
    ensures dialog.Some? ==> v == w.(addFlag := true, lastIngredient := dialog)
  {
    match dialog
    case None => w
    case Some(_) => w.(addFlag := true, lastIngredient := dialog)
  }

  /** `v` is `w` with the ingredient `added` appended: its name and amount
      as fields of the two strings, its id and name on the two lists. */
  predicate AppendsIngredient(w: Window, v: Window, added: IngredientAdded)
  {
    && Split(v.ingredientes, ',') == Split(w.ingredientes, ',') + Split(added.name, ',')
    && Split(v.cantidades, ',') == Split(w.cantidades, ',') + Split(added.amount, ',')
    && v.ingredientsTemp == w.ingredientsTemp + [added.value]
    && v.treeIngData == w.treeIngData + [added.name]
  }

  /** The two f-strings and the two `append` calls of `new_ingredient`. */
  function AppendIngredient(w: Window, added: IngredientAdded): (v: Window)
    ensures AppendsIngredient(w, v, added)
    ensures v == w.(ingredientes := v.ingredientes, cantidades := v.cantidades,
                    ingredientsTemp := v.ingredientsTemp, treeIngData := v.treeIngData)
  {
    SplitConcat(w.cantidades, added.amount, ',');
    SplitConcat(w.ingredientes, added.name, ',');
    w.(cantidades := AppendField(w.cantidades, added.amount),
       ingredientes := AppendField(w.ingredientes, added.name),
       ingredientsTemp := w.ingredientsTemp + [added.value],
       treeIngData := w.treeIngData + [added.name])
  }

  /** `new_ingredient`: when the flag is set, `","` and the stored amount go on
      the end of `cantidades`, `","` and the stored name on the end of
      `ingredientes`, and the id and the name are pushed onto the parallel
      lists. The refresh that follows catches only `UnboundLocalError`, so the
      `IndexError` of `load_ingredients` escapes and the flag stays set;
      without stored data `data_ing[0]` raises `TypeError` first. */
  function NewIngredient(w: Window, dialog: Option<IngredientAdded>): (r: Addition)
    ensures dialog.None? && !w.addFlag ==> r == Addition(w, None)
    ensures dialog.None? && w.addFlag && w.lastIngredient.None? ==> r == Addition(w, Some(TypeError))
    ensures (dialog.Some? || w.addFlag) && IngredientDialog(w, dialog).lastIngredient.Some? ==>
      && AppendsIngredient(w, r.window, IngredientDialog(w, dialog).lastIngredient.value)
      && r.window.lastIngredient == IngredientDialog(w, dialog).lastIngredient
      && (r.raised.Some? <==> |Split(r.window.ingredientes, ',')| > |Split(r.window.cantidades, ',')|)
      && (r.raised.Some? ==> r.raised.value == IndexError)
      && r.window.addFlag == r.raised.Some?
    ensures r.window == w.(ingredientes := r.window.ingredientes, cantidades := r.window.cantidades,
                           addFlag := r.window.addFlag, lastIngredient := r.window.lastIngredient,
                           ingredientsTemp := r.window.ingredientsTemp, treeIngData := r.window.treeIngData)
    ensures Parallel(w) ==> Parallel(r.window)
  {
    var v := IngredientDialog(w, dialog);
    if !v.addFlag then Addition(v, None)
    else match v.lastIngredient
      case None => Addition(v, Some(TypeError))
      case Some(added) =>
        var u := AppendIngredient(v, added);
        match IngredientRows(u)
        case Failure(e) => Addition(u, Some(e))
        case Success(_) => Addition(u.(addFlag := false), None)
  }

  /** A comma-free name and amount added to strings with no more ingredients
      than amounts refresh cleanly and clear the flag. */
  lemma NewIngredientRefreshes(w: Window, added: IngredientAdded)
    requires ',' !in added.name && ',' !in added.amount
    requires |Split(w.ingredientes, ',')| <= |Split(w.cantidades, ',')|
    ensures NewIngredient(w, Some(added)).raised.None?
    ensures !NewIngredient(w, Some(added)).window.addFlag
  {
    assert Split(added.name, ',') == [added.name];
    assert Split(added.amount, ',') == [added.amount];
  }

  /** A name holding a comma adds at least two ingredient fields but one
      amount to balanced strings, so the refresh raises `IndexError` and the
      flag stays set. */
  lemma CommaNameLeavesFlagSet(w: Window, added: IngredientAdded)
    requires |Split(w.ingredientes, ',')| == |Split(w.cantidades, ',')|
    requires ',' in added.name && ',' !in added.amount
    ensures NewIngredient(w, Some(added)).raised == Some(IndexError)
    ensures NewIngredient(w, Some(added)).window.addFlag
  {
    OneField(added.amount);
    assert Occurrences(added.name, ',') >= 1 by {
      assert ',' in multiset(added.name);
    }
  }

  /** A string without a comma is a single field. */
  lemma OneField(s: string)
    requires ',' !in s
    ensures Split(s, ',') == [s]
  {
  }

  /** While the flag stays set, a cancelled dialog appends the stored
      ingredient once more: the same fields and the same id. */
  lemma StaleFlagReappends(w: Window)
    requires w.addFlag && w.lastIngredient.Some?
    ensures NewIngredient(w, None).window.ingredientes == AppendField(w.ingredientes, w.lastIngredient.value.name)
    ensures NewIngredient(w, None).window.cantidades == AppendField(w.cantidades, w.lastIngredient.value.amount)
    ensures NewIngredient(w, None).window.ingredientsTemp == w.ingredientsTemp + [w.lastIngredient.value.value]
  {
    assert IngredientDialog(w, None) == w;
  }

  /** Dropping the last field leaves one field fewer, and never fewer than one. */
  lemma DropLastFieldCount(s: string)
    ensures |Split(DropLastField(s), ',')| == if |Split(s, ',')| > 1 then |Split(s, ',')| - 1 else 1
  {
    if ',' in s {
      DropLastFields(s);
    } else {
      assert Split(s, ',') == [s];
      assert DropLastField(s) == Join([], ',');
    }
  }

  /** `delete_ingredient`: the last id and name are popped when there is an id
      to pop, and both strings lose their last field before the refresh.
      Popping an empty name list raises `IndexError` after the id was already
      popped and before the strings change; so does the refresh when more
      ingredients than amounts remain. Both are caught and shown. */
  function DeleteIngredient(w: Window): (r: Deletion<nat>)
    ensures r.removed == (if w.ingredientsTemp == [] then None else Some(w.ingredientsTemp[|w.ingredientsTemp| - 1]))
    ensures w.ingredientsTemp != [] && w.treeIngData == [] ==>
      r.window == w.(ingredientsTemp := w.ingredientsTemp[..|w.ingredientsTemp| - 1]) && r.error == Some(NoIngredient)
    ensures w.ingredientsTemp == [] || w.treeIngData != [] ==>
      && r.window.ingredientes == DropLastField(w.ingredientes)
      && r.window.cantidades == DropLastField(w.cantidades)
      && (r.error.Some? <==> |Split(r.window.ingredientes, ',')| > |Split(r.window.cantidades, ',')|)
    ensures r.error.Some? ==> r.error.value == NoIngredient
    ensures w.ingredientsTemp != [] ==> r.window.ingredientsTemp == w.ingredientsTemp[..|w.ingredientsTemp| - 1]
    ensures w.ingredientsTemp != [] && w.treeIngData != [] ==> r.window.treeIngData == w.treeIngData[..|w.treeIngData| - 1]
    ensures w.ingredientsTemp == [] ==> r.window.ingredientsTemp == [] && r.window.treeIngData == w.treeIngData
    ensures r.window == w.(ingredientes := r.window.ingredientes, cantidades := r.window.cantidades,
                           ingredientsTemp := r.window.ingredientsTemp, treeIngData := r.window.treeIngData)
    ensures Parallel(w) ==> Parallel(r.window)
  {
    var popped :=
      if w.ingredientsTemp == [] then w
      else w.(ingredientsTemp := w.ingredientsTemp[..|w.ingredientsTemp| - 1]);
    var id := if w.ingredientsTemp == [] then None else Some(w.ingredientsTemp[|w.ingredientsTemp| - 1]);
    if w.ingredientsTemp != [] && w.treeIngData == [] then Deletion(popped, id, Some(NoIngredient))
    else
      var u := popped.(treeIngData := if w.ingredientsTemp == [] then w.treeIngData else w.treeIngData[..|w.treeIngData| - 1],
                       ingredientes := DropLastField(w.ingredientes),
                       cantidades := DropLastField(w.cantidades));
      Deletion(u, id, if IngredientRows(u).Failure? then Some(NoIngredient) else None)
  }

  /** On parallel lists, a delete from strings with no more ingredients than
      amounts shows no error and keeps that balance. */
  lemma DeleteIngredientRefreshes(w: Window)
    requires Parallel(w) && |Split(w.ingredientes, ',')| <= |Split(w.cantidades, ',')|
    ensures DeleteIngredient(w).error.None?
    ensures |Split(DeleteIngredient(w).window.ingredientes, ',')| <= |Split(DeleteIngredient(w).window.cantidades, ',')|
  {
    DropLastFieldCount(w.ingredientes);
    DropLastFieldCount(w.cantidades);
  }

  /** Adding a comma-free ingredient and deleting it again gives back the
      strings and the lists, and the id handed to the database is the new
      row's; only the stored dialog data remains. */
  lemma NewThenDeleteIngredient(w: Window, added: IngredientAdded)
    requires ',' !in added.name && ',' !in added.amount
    requires |Split(w.ingredientes, ',')| <= |Split(w.cantidades, ',')|
    ensures NewIngredient(w, Some(added)).raised.None?
    ensures DeleteIngredient(NewIngredient(w, Some(added)).window)
      == Deletion(w.(addFlag := false, lastIngredient := Some(added)), Some(added.value), None)
  {
    NewIngredientRefreshes(w, added);
    DropAfterAppend(w.ingredientes, added.name);
    DropAfterAppend(w.cantidades, added.amount);
    var v := NewIngredient(w, Some(added)).window;
    assert v.ingredientsTemp[..|v.ingredientsTemp| - 1] == w.ingredientsTemp;
    assert v.treeIngData[..|v.treeIngData| - 1] == w.treeIngData;
    var d := DeleteIngredient(v);
    assert d.window.ingredientes == w.ingredientes && d.window.cantidades == w.cantidades;
  }

  /** After a delete each string holds exactly its earlier fields. */
  lemma DeleteIngredientKeepsEarlierFields(w: Window)
    requires Parallel(w) && ',' in w.ingredientes && ',' in w.cantidades
    ensures Split(DeleteIngredient(w).window.ingredientes, ',') == Split(w.ingredientes, ',')[..|Split(w.ingredientes, ',')| - 1]
    ensures Split(DeleteIngredient(w).window.cantidades, ',') == Split(w.cantidades, ',')[..|Split(w.cantidades, ',')| - 1]
  {
    DropLastFields(w.ingredientes);
    DropLastFields(w.cantidades);
  }

  /** `f"{prep_desc}"`: Python's `None` prints as `None`. */
  function StepText(desc: Option<string>): (t: string)
    ensures desc.Some? ==> t == desc.value
    ensures desc.None? ==> t == "None"
  {
    match desc
    case None => "None"
    case Some(d) => d
  }

  /** The `prep_id` and `prep_desc` a step state holds, `None` before any step was added. */
  function StepId(step: Option<MethodAdded>): Option<nat>
  {
    match step
    case None => None
    case Some(s) => Some(s.id)
  }

  function StepDesc(step: Option<MethodAdded>): Option<string>
  {
    match step
    case None => None
    case Some(s) => Some(s.desc)
  }

  /** The state after the step dialog closes: an add stores its data and sets the flag. */
  function StepDialog(w: Window, dialog: Option<MethodAdded>): (v: Window)
    ensures dialog.None? ==> v == w
    ensures dialog.Some? ==> v == w.(addFlag := true, lastStep := dialog)
  {
    match dialog
    case None => w
    case Some(_) => w.(addFlag := true, lastStep := dialog)
  }

  /** `new_method`: when the flag is set, `","` and the stored description go
      on the end of `preparacion`, and the stored id and description are
      pushed together; the step refresh raises nothing, so the flag is
      cleared. A flag left set by a failed ingredient refresh makes a
      cancelled step dialog append the stored step again, or `None`. */
  function NewMethod(w: Window, dialog: Option<MethodAdded>): (r: Window)
    ensures dialog.None? && !w.addFlag ==> r == w
    ensures dialog.Some? || w.addFlag ==>
      var step := StepDialog(w, dialog).lastStep;
      && Split(r.preparacion, ',') == Split(w.preparacion, ',') + Split(StepText(StepDesc(step)), ',')
      && r.prepIdList == w.prepIdList + [StepId(step)]
      && r.prepDescList == w.prepDescList + [StepDesc(step)]
      && r.lastStep == step && !r.addFlag
    ensures r == w.(preparacion := r.preparacion, addFlag := r.addFlag, lastStep := r.lastStep,
                    prepIdList := r.prepIdList, prepDescList := r.prepDescList)
    ensures Parallel(w) ==> Parallel(r)
  {
    var v := StepDialog(w, dialog);
    if !v.addFlag then v
    else
      var text := StepText(StepDesc(v.lastStep));
      SplitConcat(w.preparacion, text, ',');
      v.(preparacion := AppendField(v.preparacion, text),
         prepIdList := v.prepIdList + [StepId(v.lastStep)],
         prepDescList := v.prepDescList + [StepDesc(v.lastStep)],
         addFlag := false)
  }

  /** A flag left set with no step ever added appends the text `None` and a `None` id. */
  lemma StaleFlagAppendsNone(w: Window)
    requires w.addFlag && w.lastStep.None?
    ensures NewMethod(w, None).preparacion == AppendField(w.preparacion, "None")
    ensures NewMethod(w, None).prepIdList == w.prepIdList + [None]
  {
  }

  /** `delete_method`: the last id and description are popped when there is
      an id to pop, and `preparacion` loses its last field; the same
      `IndexError` as for ingredients when only the descriptions are empty.
      The step refresh cannot fail. */
  function DeleteMethod(w: Window): (r: Deletion<Option<nat>>)
    ensures r.removed == (if w.prepIdList == [] then None else Some(w.prepIdList[|w.prepIdList| - 1]))
    ensures r.error.Some? <==> w.prepIdList != [] && w.prepDescList == []
    ensures r.error.Some? ==> r.error.value == NoStep && r.window == w.(prepIdList := w.prepIdList[..|w.prepIdList| - 1])
    ensures r.error.None? ==> r.window.preparacion == DropLastField(w.preparacion)
    ensures w.prepIdList != [] ==> r.window.prepIdList == w.prepIdList[..|w.prepIdList| - 1]
    ensures w.prepIdList != [] && w.prepDescList != [] ==> r.window.prepDescList == w.prepDescList[..|w.prepDescList| - 1]
    ensures w.prepIdList == [] ==> r.window.prepIdList == [] && r.window.prepDescList == w.prepDescList
    ensures r.window == w.(preparacion := r.window.preparacion, prepIdList := r.window.prepIdList,
                           prepDescList := r.window.prepDescList)
    ensures Parallel(w) ==> r.error.None? && Parallel(r.window)
  {
    if w.prepIdList == [] then
      Deletion(w.(preparacion := DropLastField(w.preparacion)), None, None)
    else
      var id := w.prepIdList[|w.prepIdList| - 1];
      var popped := w.(prepIdList := w.prepIdList[..|w.prepIdList| - 1]);
      if w.prepDescList == [] then Deletion(popped, Some(id), Some(NoStep))
      else
        Deletion(popped.(prepDescList := w.prepDescList[..|w.prepDescList| - 1],
                         preparacion := DropLastField(w.preparacion)),
                 Some(id), None)
  }

  /** Adding a comma-free step and deleting it again gives back the strings
      and the lists; only the stored dialog data remains. */
  lemma NewThenDeleteMethod(w: Window, added: MethodAdded)
    requires ',' !in added.desc
    ensures DeleteMethod(NewMethod(w, Some(added)))
      == Deletion(w.(addFlag := false, lastStep := Some(added)), Some(Some(added.id)), None)
  {
    DropAfterAppend(w.preparacion, added.desc);
    var v := NewMethod(w, Some(added));
    assert v.prepIdList[..|v.prepIdList| - 1] == w.prepIdList;
    assert v.prepDescList[..|v.prepDescList| - 1] == w.prepDescList;
  }

  /** The rows of `load_prep_methods` for the fields after position `start`:
      each non-empty field with its position, counted from 1. */
  function NumberSteps(fields: seq<string>, start: nat): (rows: seq<(nat, string)>)
    ensures |rows| <= |fields|
  {
    if fields == [] then []
    else if fields[0] == "" then NumberSteps(fields[1..], start + 1)
    else [(start + 1, fields[0])] + NumberSteps(fields[1..], start + 1)
  }

  /** Every row is a non-empty field with its own number. */
  predicate StepsSound(fields: seq<string>, start: nat, rows: seq<(nat, string)>)
  {
    forall j :: 0 <= j < |rows| ==>
      start < rows[j].0 <= start + |fields| && rows[j].1 == fields[rows[j].0 - start - 1] && rows[j].1 != ""
  }

  /** Every non-empty field has its row. */
  predicate StepsComplete(fields: seq<string>, start: nat, rows: seq<(nat, string)>)
  {
    forall k :: 0 <= k < |fields| && fields[k] != "" ==> (start + k + 1, fields[k]) in rows
  }

  /** The numbers increase strictly down the table. */
  predicate StepsIncreasing(rows: seq<(nat, string)>)
  {
    forall i, j :: 0 <= i < j < |rows| ==> rows[i].0 < rows[j].0
  }

  /** `rows` is the step table of `fields` numbered from `start + 1`. */
  predicate NumberedSteps(fields: seq<string>, start: nat, rows: seq<(nat, string)>)
  {
    StepsSound(fields, start, rows) && StepsComplete(fields, start, rows) && StepsIncreasing(rows)
  }

  lemma {:induction false} NumberStepsSound(fields: seq<string>, start: nat)
    ensures StepsSound(fields, start, NumberSteps(fields, start))
    decreases |fields|
  {
    if fields != [] {
      NumberStepsSound(fields[1..], start + 1);
      var rest := NumberSteps(fields[1..], start + 1);
      forall j | 0 <= j < |rest| ensures fields[rest[j].0 - start - 1] == rest[j].1 {
        assert fields[rest[j].0 - start - 1] == fields[1..][rest[j].0 - (start + 1) - 1];
      }
    }
  }

  lemma {:induction false} NumberStepsComplete(fields: seq<string>, start: nat)
    ensures StepsComplete(fields, start, NumberSteps(fields, start))
    decreases |fields|
  {
    if fields != [] {
      NumberStepsComplete(fields[1..], start + 1);
      forall k | 1 <= k < |fields| && fields[k] != ""
        ensures (start + k + 1, fields[k]) in NumberSteps(fields, start)
      {
        assert fields[k] == fields[1..][k - 1];
        assert (start + 1 + (k - 1) + 1, fields[1..][k - 1]) in NumberSteps(fields[1..], start + 1);
      }
    }
  }

  lemma {:induction false} NumberStepsIncreasing(fields: seq<string>, start: nat)
    ensures StepsIncreasing(NumberSteps(fields, start))
    decreases |fields|
  {
    if fields != [] {
      NumberStepsIncreasing(fields[1..], start + 1);
      NumberStepsSound(fields[1..], start + 1);
    }
  }

  /** `NumberSteps` builds exactly such a table. */
  lemma NumberStepsCorrect(fields: seq<string>, start: nat)
    ensures NumberedSteps(fields, start, NumberSteps(fields, start))
  {
    NumberStepsSound(fields, start);
    NumberStepsComplete(fields, start);
    NumberStepsIncreasing(fields, start);
  }

  /** `load_prep_methods`: the numbered rows of the step table, numbered from 1. */
  function LoadPrepMethods(w: Window): (rows: seq<(nat, string)>)
    ensures NumberedSteps(Split(w.preparacion, ','), 0, rows)
  {
    NumberStepsCorrect(Split(w.preparacion, ','), 0);
    NumberSteps(Split(w.preparacion, ','), 0)
  }

  /** `load_prep_methods` on the dictionary value itself: a `NULL` step
      column has no `split`, so it raises `AttributeError`. */
  function LoadStepColumn(preparacion: DbUtils.SqlValue): (r: Result<seq<(nat, string)>>)
    ensures r.Failure? <==> !preparacion.Text?
    ensures r.Failure? ==> r.error == AttributeError
    ensures r.Success? ==> NumberedSteps(Split(preparacion.s, ','), 0, r.value)
  {
    if !preparacion.Text? then Failure(AttributeError)
    else
      NumberStepsCorrect(Split(preparacion.s, ','), 0);
      Success(NumberSteps(Split(preparacion.s, ','), 0))
  }

  /** Opening the form on a fetched recipe: `create_ui` fills the ingredient
      table and then the step table before the form exists, so an error of
      either escapes the constructor. The stored image is a text or `NULL`. */
  function OpenRecipe(recipe: DbUtils.RecipeDict): (r: Result<Window>)
    ensures r.Success? <==>
      |Split(recipe.ingredientes, ',')| <= |Split(recipe.cantidades, ',')| && recipe.preparacion.Text?
    ensures |Split(recipe.ingredientes, ',')| > |Split(recipe.cantidades, ',')| ==> r == Failure(IndexError)
    ensures |Split(recipe.ingredientes, ',')| <= |Split(recipe.cantidades, ',')| && !recipe.preparacion.Text? ==>
      r == Failure(AttributeError)
    ensures r.Success? ==>
      && r.value.ingredientes == recipe.ingredientes && r.value.cantidades == recipe.cantidades
      && r.value.preparacion == recipe.preparacion.s
      && r.value.imagen == (if recipe.imagen.Text? then Some(recipe.imagen.s) else None)
      && Parallel(r.value) && r.value.ingredientsTemp == [] && r.value.prepIdList == []
      && !r.value.addFlag
  {
    var imagen := if recipe.imagen.Text? then Some(recipe.imagen.s) else None;
    var w := Open(recipe.ingredientes, recipe.cantidades, if recipe.preparacion.Text? then recipe.preparacion.s else "", imagen);
    match IngredientRows(w)
    case Failure(e) => Failure(e)
    case Success(_) =>
      match LoadStepColumn(recipe.preparacion)
      case Failure(e) => Failure(e)
      case Success(_) => Success(w)
  }

  /** A recipe read back by `format_recipe` opens exactly when its step
      column is a text: one saved without steps (`GROUP_CONCAT` over no rows
      gives `NULL`) cannot be opened for editing. */
  lemma FormattedRecipeOpens(row: seq<DbUtils.SqlValue>)
    requires DbUtils.FormatRecipe(row).Success?
    ensures OpenRecipe(DbUtils.FormatRecipe(row).value).Success? <==> row[7].Text?
    ensures row[7] == DbUtils.Null ==> OpenRecipe(DbUtils.FormatRecipe(row).value) == Failure(AttributeError)
  {
  }

  /** The table of `"a,,b"`: steps 1 and 3. */
  lemma NumberStepsKeepsGaps()
    ensures NumberSteps(["a", "", "b"], 0) == [(1, "a"), (3, "b")]
  {
    assert ["a", "", "b"][1..] == ["", "b"];
    assert ["", "b"][1..] == ["b"];
    assert ["b"][1..] == [];
  }

  /** An empty step keeps its number: `"a,,b"` shows steps 1 and 3. */
  lemma LoadPrepMethodsKeepsGaps(w: Window)
    requires w.preparacion == Join(["a", "", "b"], ',')
    ensures LoadPrepMethods(w) == [(1, "a"), (3, "b")]
  {
    SplitJoin(["a", "", "b"], ',');
    NumberStepsKeepsGaps();
  }

  /** `add_image`: the chosen file is copied into the image folder and the
      stored path becomes `images\` plus its name. A failed copy raises
      `OSError`; no choice leaves the state as it was. */
  function AddImage(w: Window, chosen: Option<string>, copyOk: bool): (r: Result<Window>)
    ensures chosen.None? ==> r == Success(w)
    ensures r.Failure? <==> chosen.Some? && !copyOk
    ensures r.Failure? ==> r.error == OSError
    ensures r.Success? && chosen.Some? ==>
      r.value == w.(imagen := Some(ImagePath.Prefix + ImagePath.FileName(chosen.value)))
  {
    match chosen
    case None => Success(w)
    case Some(path) =>
      if !copyOk then Failure(OSError)
      else Success(w.(imagen := Some(ImagePath.StoredPath(path))))
  }
}
