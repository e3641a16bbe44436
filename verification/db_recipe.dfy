/** The recipe class of the database version of the application. Compared
    with the CSV version, ingredient names are lower-cased, the stored image
    path is returned as is, and the recipe carries tags and a favourite mark. */
module DbRecipe {
  import opened Wrappers
  import opened Strings
  import opened Ingredients
  import CommaList
  import ImagePath
  import CsvRecipe

  /** `created_at` is kept out: only its formatted text is passed to `FormatValues`.
      `tags` and `favorite` are the strings the form produced. */
  datatype Recipe = Recipe(
    id: int,
    name: string,
    ingredients: seq<IngredientObj>,
    preparation: seq<string>,
    preparationTime: int,
    cookingTime: int,
    tags: string,
    favorite: string,
    image: Option<string>)

  /** The lower-cased names. */
  function LowerNames(objs: seq<IngredientObj>): (r: seq<string>)
    ensures |r| == |objs| && forall k :: 0 <= k < |objs| ==> r[k] == Lower(ObjName(objs[k]))
  {
    seq(|objs|, k requires 0 <= k < |objs| => Lower(ObjName(objs[k])))
  }

  /** `get_id()`. */
  function GetId(r: Recipe): (s: string)
    ensures ParseDecimal(s) == Some(r.id)
  {
    DecimalRoundTrip(r.id);
    DecimalString(r.id)
  }

  /** `get_ingredients()`: the names joined by the same last-object loop, then
      `.lower()`. For distinct objects this is `','.join` of the lower-cased names. */
  function GetIngredients(r: Recipe): (s: string)
    ensures |s| == |CommaList.ListToStr(r.ingredients, ObjName)|
    ensures DistinctObjects(r.ingredients) ==> s == Join(LowerNames(r.ingredients), ',')
  {
    var raw := CommaList.ListToStr(r.ingredients, ObjName);
    if DistinctObjects(r.ingredients) then
      CommaList.ListToStrIsJoin(r.ingredients, ObjName);
      var names := CommaList.Texts(r.ingredients, ObjName);
      LowerJoin(names);
      assert seq(|names|, k requires 0 <= k < |names| => Lower(names[k])) == LowerNames(r.ingredients);
      Lower(raw)
    else Lower(raw)
  }

  /** `get_amounts()`: unchanged from the CSV version. */
  function GetAmounts(r: Recipe): (s: string)
    ensures DistinctObjects(r.ingredients) ==> s == Join(CommaList.Texts(r.ingredients, ObjAmount), ',')
  {
    if DistinctObjects(r.ingredients) then
      CommaList.ListToStrIsJoin(r.ingredients, ObjAmount);
      CommaList.ListToStr(r.ingredients, ObjAmount)
    else CommaList.ListToStr(r.ingredients, ObjAmount)
  }

  /** `get_preparation()`: `','.join(preparation)`. */
  function GetPreparation(r: Recipe): (s: string)
    ensures r.preparation == [] ==> s == ""
    ensures |r.preparation| >= 1 && SeparatorFree(r.preparation, ',') ==> Split(s, ',') == r.preparation
  {
    if |r.preparation| >= 1 && SeparatorFree(r.preparation, ',') then
      SplitJoin(r.preparation, ',');
      Join(r.preparation, ',')
    else Join(r.preparation, ',')
  }

  /** `get_prep_time()`. */
  function GetPrepTime(r: Recipe): (s: string)
    ensures CsvRecipe.ShowsMinutes(s, r.preparationTime)
  {
    CsvRecipe.MinutesText(r.preparationTime)
  }

  /** `get_cooking_time()`. */
  function GetCookingTime(r: Recipe): (s: string)
    ensures CsvRecipe.ShowsMinutes(s, r.cookingTime)
  {
    CsvRecipe.MinutesText(r.cookingTime)
  }

  /** `get_source()`: without an image, the four-letter string `'None'`; with
      one, `"images\\"` and the file name, or Python's `None` when the copy
      into the image folder fails (the exception is caught and only reported). */
  function GetSource(r: Recipe, copyOk: bool): (c: Cell)
    ensures r.image.None? ==> c == Str("None")
    ensures r.image.Some? && !copyOk ==> c == NoneValue
    ensures r.image.Some? && copyOk ==>
      (c.Str? && |c.s| >= |ImagePath.Prefix| && c.s[..|ImagePath.Prefix|] == ImagePath.Prefix
       && c.s[|ImagePath.Prefix|..] == ImagePath.FileName(r.image.value))
  {
    match r.image
    case None => Str("None")
    case Some(path) => if copyOk then Str(ImagePath.StoredPath(path)) else NoneValue
  }

  /** The dictionary `format_values()` returns, one field per key: the nine
      keys of the CSV version plus "etiquetas" and "favorito". */
  datatype Row = Row(
    id: Cell,
    nombre: Cell,
    ingredientes: Cell,
    cantidades: Cell,
    preparacion: Cell,
    tiempoDePreparacion: Cell,
    tiempoDeCoccion: Cell,
    creado: Cell,
    imagen: Cell,
    etiquetas: Cell,
    favorito: Cell)

  /** `format_values()`: every key holds its getter's text. */
  function FormatValues(r: Recipe, created: string, copyOk: bool): (row: Row)
    ensures row.id.Str? && ParseDecimal(row.id.s) == Some(r.id)
    ensures row.nombre == Str(r.name)
    ensures DistinctObjects(r.ingredients) ==> (
      row.ingredientes == Str(Join(LowerNames(r.ingredients), ','))
      && row.cantidades == Str(Join(CommaList.Texts(r.ingredients, ObjAmount), ',')))
    ensures row.preparacion == Str(Join(r.preparation, ','))
    ensures row.tiempoDePreparacion.Str? && CsvRecipe.ShowsMinutes(row.tiempoDePreparacion.s, r.preparationTime)
    ensures row.tiempoDeCoccion.Str? && CsvRecipe.ShowsMinutes(row.tiempoDeCoccion.s, r.cookingTime)
    ensures row.creado == Str(created)
    ensures row.imagen == GetSource(r, copyOk)
    ensures row.etiquetas == Str(r.tags) && row.favorito == Str(r.favorite)
  {
    Row(
      Str(GetId(r)),
      Str(r.name),
      Str(GetIngredients(r)),
      Str(GetAmounts(r)),
      Str(GetPreparation(r)),
      Str(GetPrepTime(r)),
      Str(GetCookingTime(r)),
      Str(created),
      GetSource(r, copyOk),
      Str(r.tags),
      Str(r.favorite))
  }
}
