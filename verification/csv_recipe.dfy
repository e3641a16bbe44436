/** The recipe class of the CSV-based version of the application: its
    getters turn the fields into the strings stored in one CSV row. */
module CsvRecipe {
  import opened Wrappers
  import opened Strings
  import opened Ingredients
  import CommaList
  import ImagePath

  /** `created_at` is kept out: only its formatted text is passed to `FormatValues`. */
  datatype Recipe = Recipe(
    id: int,
    name: string,
    ingredients: seq<IngredientObj>,
    preparation: seq<string>,
    preparationTime: int,
    cookingTime: int,
    image: Option<string>)

  /** `get_id()`: `str(id)`, which reads back as the id. */
  function GetId(r: Recipe): (s: string)
    ensures ParseDecimal(s) == Some(r.id)
    ensures ',' !in s
  {
    DecimalRoundTrip(r.id);
    DecimalHasNoComma(r.id);
    DecimalString(r.id)
  }

  /** `get_ingredients()`: the names with a comma after each entry that is not
      the last object. For distinct objects this is `','.join` of the names. */
  function GetIngredients(r: Recipe): (s: string)
    ensures DistinctObjects(r.ingredients) ==> s == Join(CommaList.Texts(r.ingredients, ObjName), ',')
  {
    if DistinctObjects(r.ingredients) then
      CommaList.ListToStrIsJoin(r.ingredients, ObjName);
      CommaList.ListToStr(r.ingredients, ObjName)
    else CommaList.ListToStr(r.ingredients, ObjName)
  }

  /** `get_amounts()`: the same loop over `get_amount()`. */
  function GetAmounts(r: Recipe): (s: string)
    ensures DistinctObjects(r.ingredients) ==> s == Join(CommaList.Texts(r.ingredients, ObjAmount), ',')
  {
    if DistinctObjects(r.ingredients) then
      CommaList.ListToStrIsJoin(r.ingredients, ObjAmount);
      CommaList.ListToStr(r.ingredients, ObjAmount)
    else CommaList.ListToStr(r.ingredients, ObjAmount)
  }

  /** `get_preparation()`: `','.join(preparation)`, which splits back into the
      steps when no step holds a comma. */
  function GetPreparation(r: Recipe): (s: string)
    ensures r.preparation == [] ==> s == ""
    ensures |r.preparation| >= 1 && SeparatorFree(r.preparation, ',') ==> Split(s, ',') == r.preparation
  {
    if |r.preparation| >= 1 && SeparatorFree(r.preparation, ',') then
      SplitJoin(r.preparation, ',');
      Join(r.preparation, ',')
    else Join(r.preparation, ',')
  }

  /** `s` is a number of minutes followed by " min", and that number is `t`. */
  predicate ShowsMinutes(s: string, t: int)
  {
    |s| >= 5 && s[|s| - 4..] == " min" && ParseDecimal(s[..|s| - 4]) == Some(t)
  }

  /** `f'{str(t)} min'`. */
  function MinutesText(t: int): (s: string)
    ensures ShowsMinutes(s, t)
  {
    var s := DecimalString(t) + " min";
    assert s[..|s| - 4] == DecimalString(t);
    DecimalRoundTrip(t);
    s
  }

  /** `get_prep_time()`. */
  function GetPrepTime(r: Recipe): (s: string)
    ensures ShowsMinutes(s, r.preparationTime)
  {
    MinutesText(r.preparationTime)
  }

  /** `get_cooking_time()`. */
  function GetCookingTime(r: Recipe): (s: string)
    ensures ShowsMinutes(s, r.cookingTime)
  {
    MinutesText(r.cookingTime)
  }

  /** `get_source()`: without an image, the four-letter string `'None'`; with
      one, `repr` of the stored path, or Python's `None` when the copy into the
      image folder fails (the exception is caught and only reported). */
  function GetSource(r: Recipe, copyOk: bool): (c: Cell)
    ensures c.Str? <==> r.image.None?
    ensures c.Str? ==> c.s == "None"
    ensures c.ReprOf? <==> r.image.Some? && copyOk
    ensures c.ReprOf? ==>
      |c.of| >= |ImagePath.Prefix| && c.of[..|ImagePath.Prefix|] == ImagePath.Prefix
      && c.of[|ImagePath.Prefix|..] == ImagePath.FileName(r.image.value)
  {
    match r.image
    case None => Str("None")
    case Some(path) => if copyOk then ReprOf(ImagePath.StoredPath(path)) else NoneValue
  }

  /** The dictionary `format_values()` returns, one field per key ("id",
      "nombre", "ingredientes", "cantidades", "preparacion", "tiempo de
      preparacion", "tiempo de coccion", "creado", "imagen"). This version has
      no "etiquetas" and no "favorito" key. */
  datatype Row = Row(
    id: Cell,
    nombre: Cell,
    ingredientes: Cell,
    cantidades: Cell,
    preparacion: Cell,
    tiempoDePreparacion: Cell,
    tiempoDeCoccion: Cell,
    creado: Cell,
    imagen: Cell)

  /** `format_values()`: every key holds its getter's text. */
  function FormatValues(r: Recipe, created: string, copyOk: bool): (row: Row)
    ensures row.id.Str? && ParseDecimal(row.id.s) == Some(r.id)
    ensures row.nombre == Str(r.name)
    ensures DistinctObjects(r.ingredients) ==> (
      row.ingredientes == Str(Join(CommaList.Texts(r.ingredients, ObjName), ','))
      && row.cantidades == Str(Join(CommaList.Texts(r.ingredients, ObjAmount), ',')))
    ensures row.preparacion == Str(Join(r.preparation, ','))
    ensures row.tiempoDePreparacion.Str? && ShowsMinutes(row.tiempoDePreparacion.s, r.preparationTime)
    ensures row.tiempoDeCoccion.Str? && ShowsMinutes(row.tiempoDeCoccion.s, r.cookingTime)
    ensures row.creado == Str(created)
    ensures row.imagen == GetSource(r, copyOk)
  {
    Row(
      Str(GetId(r)),
      Str(r.name),
      Str(GetIngredients(r)),
      Str(GetAmounts(r)),
      Str(GetPreparation(r)),
      Str(GetPrepTime(r)),
      Str(GetCookingTime(r)),
      Str(created),
      GetSource(r, copyOk))
  }

  /** With distinct ingredient objects and comma-free names, amounts and units,
      the two strings split back into one field per ingredient, in order. */
  lemma OneFieldPerIngredient(r: Recipe)
    requires |r.ingredients| >= 1 && DistinctObjects(r.ingredients)
    requires forall k :: 0 <= k < |r.ingredients| ==> ',' !in ObjName(r.ingredients[k])
    requires forall k :: 0 <= k < |r.ingredients| ==> CommaFreeAmount(r.ingredients[k])
    ensures Split(GetIngredients(r), ',') == CommaList.Texts(r.ingredients, ObjName)
    ensures Split(GetAmounts(r), ',') == CommaList.Texts(r.ingredients, ObjAmount)
  {
    var amounts := CommaList.Texts(r.ingredients, ObjAmount);
    forall k | 0 <= k < |r.ingredients| ensures ',' !in amounts[k] {
      AmountHasNoComma(r.ingredients[k]);
    }
    SplitJoin(CommaList.Texts(r.ingredients, ObjName), ',');
    SplitJoin(amounts, ',');
  }
}
