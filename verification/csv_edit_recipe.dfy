/** The edit form of the CSV version of the application: the recipe dictionary
    it reads, and the edits it makes on the comma-joined ingredient, amount and
    step strings before saving. Dialogs, tables and files are left to the
    caller: the rows of the temporary ingredient and step files are passed in. */
module CsvEditRecipe {
  import opened Wrappers
  import opened Strings
  import opened CommaList
  import Seqs
  import Ingredients

  /** The dictionary built from one CSV row; every value is the cell's text. */
  datatype RecipeDict = RecipeDict(
    id: string, nombre: string, ingredientes: string, cantidades: string,
    preparacion: string, tiempoPreparacion: string, tiempoCoccion: string,
    creado: string, imagen: string)

  /** One row of the temporary ingredient file (`nombre,cantidad,medida`). */
  datatype TempIngredient = TempIngredient(nombre: string, cantidad: string, medida: string)

  /** What `refresh_ingredient_tree` and `refresh_method_tree` leave behind:
      the dictionary, the rows still in the temporary file, and the error
      message shown, if any. */
  datatype Refresh<R> = Refresh(recipe: RecipeDict, pending: seq<R>, error: Option<string>)

  const NoChange := "No realizo ningun cambio"

  /** `list_to_str` on a list of strings. */
  function ListToText(items: seq<string>): string
  {
    ListToStr(items, Same)
  }

  lemma ListToTextSmall(x: string)
    ensures ListToText([]) == ""
    ensures ListToText([x]) == x
  {
    assert [x][1..] == [];
    assert JoinUnlessLast([x], x, Same) == Same(x) + "" + JoinUnlessLast([], x, Same);
  }

  lemma ListToTextIsJoin(items: seq<string>)
    requires LastIsUnique(items)
    ensures ListToText(items) == Join(items, ',')
  {
    ListToStrIsJoin(items, Same);
    assert Texts(items, Same) == items;
  }

  /** The fields of `s`, then `extra`: joined back, they split into exactly
      those fields when no field repeats the last one. */
  lemma ListToTextAppended(s: string, extra: seq<string>)
    requires SeparatorFree(extra, ',') && LastIsUnique(Split(s, ',') + extra)
    ensures Split(ListToText(Split(s, ',') + extra), ',') == Split(s, ',') + extra
  {
    var fields := Split(s, ',');
    var items := fields + extra;
    assert SeparatorFree(fields, ',');
    SeparatorFreeConcat(fields, extra, ',');
    ListToTextIsJoin(items);
    SplitJoin(items, ',');
  }

  /** The fields of `s` without the last one, joined back. */
  function DropLast(s: string): (r: string)
    ensures ',' !in s ==> r == ""
  {
    var fields := Split(s, ',');
    assert ',' !in s ==> Occurrences(s, ',') == 0 by {
      if ',' !in s { assert ',' !in multiset(s); }
    }
    ListToText(fields[..|fields| - 1])
  }

  /** When no earlier field repeats the one that becomes last, dropping the
      last field through `list_to_str` is `','.join(s.split(',')[:-1])`, and
      the remaining fields are the earlier fields of `s`. */
  lemma DropLastIsDropLastField(s: string)
    requires LastIsUnique(Split(s, ',')[..|Split(s, ',')| - 1])
    ensures DropLast(s) == DropLastField(s)
    ensures ',' in s ==> Split(DropLast(s), ',') == Split(s, ',')[..|Split(s, ',')| - 1]
  {
    ListToTextIsJoin(Split(s, ',')[..|Split(s, ',')| - 1]);
    if ',' in s {
      DropLastFields(s);
    }
  }

  /** `load_ingredients`: the rows of the ingredient table, a name with the
      amount at the same position, up to the shorter of the two lists. */
  function LoadIngredients(d: RecipeDict): (rows: seq<(string, string)>)
    ensures var names := Split(d.ingredientes, ',');
            var amounts := Split(d.cantidades, ',');
            |rows| <= |names| && |rows| <= |amounts|
            && (|rows| == |names| || |rows| == |amounts|)
            && forall k :: 0 <= k < |rows| ==> rows[k] == (names[k], amounts[k])
  {
    Seqs.Zip(Split(d.ingredientes, ','), Split(d.cantidades, ','))
  }

  /** `add_ingredient_to_dict`: the loop over the temporary rows keeps only the
      last one, whose name and `"<cantidad> <medida>"` are appended; with no
      rows the variable is never bound and the call raises `UnboundLocalError`. */
  function AddIngredientToDict(d: RecipeDict, rows: seq<TempIngredient>): (r: Result<RecipeDict>)
    ensures r.Failure? <==> rows == []
    ensures r.Failure? ==> r.error == UnboundLocalError
    ensures r.Success? ==> r.value == d.(ingredientes := r.value.ingredientes, cantidades := r.value.cantidades)
  {
    if rows == [] then Failure(UnboundLocalError)
    else
      var last := rows[|rows| - 1];
      var added := Ingredients.New(last.nombre, Ingredients.Text(last.cantidad), last.medida);
      Success(d.(ingredientes := ListToText(Split(d.ingredientes, ',') + [Ingredients.GetName(added)]),
                 cantidades := ListToText(Split(d.cantidades, ',') + [Ingredients.GetAmount(added)])))
  }

  /** The amount text a temporary row contributes. */
  function RowAmount(row: TempIngredient): string
  {
    row.cantidad + " " + row.medida
  }

  /** Earlier rows make no difference: only the last row is added. */
  lemma AddIngredientUsesLastRow(d: RecipeDict, earlier: seq<TempIngredient>, row: TempIngredient)
    ensures AddIngredientToDict(d, earlier + [row]) == AddIngredientToDict(d, [row])
  {
  }

  /** With a comma-free name and amount that are new to their lists, each list
      grows by exactly the last row's field, and the strings are the originals
      with `","` and the field appended. */
  lemma AddIngredientAppends(d: RecipeDict, rows: seq<TempIngredient>)
    requires rows != []
    requires ',' !in rows[|rows| - 1].nombre && ',' !in RowAmount(rows[|rows| - 1])
    requires rows[|rows| - 1].nombre !in Split(d.ingredientes, ',')
    requires RowAmount(rows[|rows| - 1]) !in Split(d.cantidades, ',')
    ensures AddIngredientToDict(d, rows).Success?
    ensures Split(AddIngredientToDict(d, rows).value.ingredientes, ',') == Split(d.ingredientes, ',') + [rows[|rows| - 1].nombre]
    ensures Split(AddIngredientToDict(d, rows).value.cantidades, ',') == Split(d.cantidades, ',') + [RowAmount(rows[|rows| - 1])]
    ensures AddIngredientToDict(d, rows).value.ingredientes == AppendField(d.ingredientes, rows[|rows| - 1].nombre)
    ensures AddIngredientToDict(d, rows).value.cantidades == AppendField(d.cantidades, RowAmount(rows[|rows| - 1]))
  {
    var last := rows[|rows| - 1];
    var r := AddIngredientToDict(d, rows).value;
    assert r.ingredientes == ListToText(Split(d.ingredientes, ',') + [last.nombre]);
    assert r.cantidades == ListToText(Split(d.cantidades, ',') + [RowAmount(last)]);
    AppendOne(d.ingredientes, last.nombre);
    AppendOne(d.cantidades, RowAmount(last));
  }

  /** Adding one new comma-free field through `list_to_str`. */
  lemma AppendOne(s: string, x: string)
    requires ',' !in x && x !in Split(s, ',')
    ensures Split(ListToText(Split(s, ',') + [x]), ',') == Split(s, ',') + [x]
    ensures ListToText(Split(s, ',') + [x]) == AppendField(s, x)
  {
    var fields := Split(s, ',');
    var items := fields + [x];
    assert LastIsUnique(items) by {
      forall k | 0 <= k < |items| - 1 ensures items[k] != items[|items| - 1] {
        assert items[k] == fields[k];
      }
    }
    ListToTextAppended(s, [x]);
    ListToTextIsJoin(items);
    JoinAppend(fields, x, ',');
    JoinSplit(s, ',');
  }

  /** `delete_ingredient`: both lists lose their last field; `pop(-1)` cannot
      fail because a split list is never empty. */
  function DeleteIngredient(d: RecipeDict): (r: RecipeDict)
    ensures r == d.(ingredientes := r.ingredientes, cantidades := r.cantidades)
    ensures ',' !in d.ingredientes ==> r.ingredientes == ""
    ensures ',' !in d.cantidades ==> r.cantidades == ""
  {
    d.(ingredientes := DropLast(d.ingredientes), cantidades := DropLast(d.cantidades))
  }

  /** When no field repeats the last one, deleting keeps exactly the earlier
      fields of each list, in order. */
  lemma DeleteIngredientDropsLast(d: RecipeDict)
    requires LastIsUnique(Split(d.ingredientes, ',')[..|Split(d.ingredientes, ',')| - 1])
    requires LastIsUnique(Split(d.cantidades, ',')[..|Split(d.cantidades, ',')| - 1])
    ensures DeleteIngredient(d).ingredientes == DropLastField(d.ingredientes)
    ensures DeleteIngredient(d).cantidades == DropLastField(d.cantidades)
    ensures ',' in d.ingredientes ==>
      Split(DeleteIngredient(d).ingredientes, ',') == Split(d.ingredientes, ',')[..|Split(d.ingredientes, ',')| - 1]
    ensures ',' in d.cantidades ==>
      Split(DeleteIngredient(d).cantidades, ',') == Split(d.cantidades, ',')[..|Split(d.cantidades, ',')| - 1]
  {
    DropLastIsDropLastField(d.ingredientes);
    DropLastIsDropLastField(d.cantidades);
  }

  /** Adding an ingredient and deleting it again gives back the dictionary. */
  lemma AddThenDeleteIngredient(d: RecipeDict, rows: seq<TempIngredient>)
    requires rows != []
    requires LastIsUnique(Split(d.ingredientes, ',')) && LastIsUnique(Split(d.cantidades, ','))
    requires ',' !in rows[|rows| - 1].nombre && ',' !in RowAmount(rows[|rows| - 1])
    requires rows[|rows| - 1].nombre !in Split(d.ingredientes, ',')
    requires RowAmount(rows[|rows| - 1]) !in Split(d.cantidades, ',')
    ensures AddIngredientToDict(d, rows).Success?
    ensures DeleteIngredient(AddIngredientToDict(d, rows).value) == d
  {
    AddIngredientAppends(d, rows);
    var last := rows[|rows| - 1];
    DeleteAppended(d.ingredientes, last.nombre);
    DeleteAppended(d.cantidades, RowAmount(last));
  }

  lemma DeleteAppended(s: string, x: string)
    requires ',' !in x && LastIsUnique(Split(s, ','))
    ensures DropLast(AppendField(s, x)) == s
  {
    DropAfterAppend(s, x);
    var fields := Split(AppendField(s, x), ',');
    assert fields[..|fields| - 1] == Split(s, ',');
    ListToTextIsJoin(Split(s, ','));
    JoinSplit(s, ',');
  }

  /** `refresh_ingredient_tree`: add the last temporary row and empty the
      file, or report that nothing changed and leave everything as it was. */
  function RefreshIngredientTree(d: RecipeDict, rows: seq<TempIngredient>): (r: Refresh<TempIngredient>)
    ensures r.error.Some? <==> rows == []
    ensures r.error.Some? ==> r.recipe == d && r.error.value == NoChange
    ensures r.error.None? ==> r.pending == [] && r.recipe.nombre == d.nombre && r.recipe.preparacion == d.preparacion
    ensures r.error.None? ==> Success(r.recipe) == AddIngredientToDict(d, rows)
  {
    match AddIngredientToDict(d, rows)
    case Failure(_) => Refresh(d, rows, Some(NoChange))
    case Success(edited) => Refresh(edited, [], None)
  }

  /** A refresh after adding a comma-free ingredient new to both lists
      succeeds, and each list ends with the last row's field. */
  lemma RefreshIngredientAppends(d: RecipeDict, rows: seq<TempIngredient>)
    requires rows != []
    requires ',' !in rows[|rows| - 1].nombre && ',' !in RowAmount(rows[|rows| - 1])
    requires rows[|rows| - 1].nombre !in Split(d.ingredientes, ',')
    requires RowAmount(rows[|rows| - 1]) !in Split(d.cantidades, ',')
    ensures RefreshIngredientTree(d, rows).error.None?
    ensures RefreshIngredientTree(d, rows).pending == []
    ensures Split(RefreshIngredientTree(d, rows).recipe.ingredientes, ',') == Split(d.ingredientes, ',') + [rows[|rows| - 1].nombre]
    ensures Split(RefreshIngredientTree(d, rows).recipe.cantidades, ',') == Split(d.cantidades, ',') + [RowAmount(rows[|rows| - 1])]
  {
    AddIngredientAppends(d, rows);
  }

  /** `add_method_to_dict`: every row of the temporary step file is appended,
      in file order. */
  function AddMethodToDict(d: RecipeDict, steps: seq<string>): (r: RecipeDict)
    ensures r == d.(preparacion := r.preparacion)
  {
    d.(preparacion := ListToText(Split(d.preparacion, ',') + steps))
  }

  /** With comma-free steps and no field repeating the new last one, the step
      list grows by exactly the steps, in order. */
  lemma AddMethodAppendsSteps(d: RecipeDict, steps: seq<string>)
    requires SeparatorFree(steps, ',') && LastIsUnique(Split(d.preparacion, ',') + steps)
    ensures Split(AddMethodToDict(d, steps).preparacion, ',') == Split(d.preparacion, ',') + steps
  {
    ListToTextAppended(d.preparacion, steps);
  }

  /** `refresh_method_tree`: the steps are added and the file emptied; the
      `UnboundLocalError` it guards against cannot arise here. */
  function RefreshMethodTree(d: RecipeDict, steps: seq<string>): (r: Refresh<string>)
    ensures r.error == None && r.pending == []
    ensures r.recipe == d.(preparacion := r.recipe.preparacion)
    ensures r.recipe == AddMethodToDict(d, steps)
  {
    Refresh(AddMethodToDict(d, steps), [], None)
  }

  /** A refresh with comma-free steps, none repeating the new last one,
      leaves the step list grown by exactly those steps, in order. */
  lemma RefreshMethodAppends(d: RecipeDict, steps: seq<string>)
    requires SeparatorFree(steps, ',') && LastIsUnique(Split(d.preparacion, ',') + steps)
    ensures RefreshMethodTree(d, steps).pending == []
    ensures Split(RefreshMethodTree(d, steps).recipe.preparacion, ',') == Split(d.preparacion, ',') + steps
  {
    AddMethodAppendsSteps(d, steps);
  }

  /** `delete_method`: the step list loses its last field. */
  function DeleteMethod(d: RecipeDict): (r: RecipeDict)
    ensures r == d.(preparacion := r.preparacion)
    ensures ',' !in d.preparacion ==> r.preparacion == ""
  {
    d.(preparacion := DropLast(d.preparacion))
  }

  /** When no field repeats the last one, deleting keeps exactly the earlier steps. */
  lemma DeleteMethodDropsLast(d: RecipeDict)
    requires LastIsUnique(Split(d.preparacion, ',')[..|Split(d.preparacion, ',')| - 1])
    ensures DeleteMethod(d).preparacion == DropLastField(d.preparacion)
    ensures ',' in d.preparacion ==>
      Split(DeleteMethod(d).preparacion, ',') == Split(d.preparacion, ',')[..|Split(d.preparacion, ',')| - 1]
  {
    DropLastIsDropLastField(d.preparacion);
  }

  /** `load_method_list`: `enumerate(steps, 1)`, one numbered row per step. */
  function LoadMethodList(d: RecipeDict): (rows: seq<(nat, string)>)
    ensures |rows| == |Split(d.preparacion, ',')|
    ensures forall k :: 0 <= k < |rows| ==> rows[k].0 == k + 1 && rows[k].1 == Split(d.preparacion, ',')[k]
  {
    Seqs.Enumerate(Split(d.preparacion, ','), 1)
  }
}
