/** An ingredient of a recipe: a name, an amount and a unit of measure. */
module Ingredients {
  import opened Wrappers
  import opened Strings
  import Seqs

  /** What `str(amount)` sees: the class is meant for an integer amount, but
      the CSV-based editor passes the text read from the file. */
  datatype Amount = Number(n: int) | Text(s: string)

  /** `str(amount)`. */
  function AmountText(a: Amount): string
  {
    match a
    case Number(n) => DecimalString(n)
    case Text(s) => s
  }

  datatype Ingredient = Ingredient(name: string, amount: Amount, metric: string)

  /** `Ingredient(name, amount, metric)`: the three values are stored as given. */
  function New(name: string, amount: Amount, metric: string): (i: Ingredient)
    ensures GetName(i) == name
    ensures GetAmount(i) == AmountText(amount) + " " + metric
  {
    Ingredient(name, amount, metric)
  }

  /** `get_name()`. */
  function GetName(i: Ingredient): string
  {
    i.name
  }

  /** `get_amount()`: `f'{str(amount)} {metric}'`. */
  function GetAmount(i: Ingredient): (r: string)
    ensures |r| == |AmountText(i.amount)| + 1 + |i.metric|
    ensures r[..|AmountText(i.amount)|] == AmountText(i.amount)
    ensures r[|AmountText(i.amount)|] == ' '
    ensures r[|r| - |i.metric|..] == i.metric
  {
    AmountText(i.amount) + " " + i.metric
  }

  /** Reads `"<amount> <unit>"` back: the text before the first space and the text after it. */
  function SplitAmount(s: string): (string, string)
  {
    if ' ' in s then
      var k := Seqs.IndexOf(s, ' ');
      (s[..k], s[k + 1..])
    else (s, "")
  }

  /** For an integer amount, `get_amount()` keeps the amount and the unit apart:
      splitting at the first space gives back `str(amount)` and the unit. */
  lemma AmountRoundTrip(n: int, metric: string)
    ensures SplitAmount(GetAmount(New("", Number(n), metric))) == (DecimalString(n), metric)
    ensures ParseDecimal(SplitAmount(GetAmount(New("", Number(n), metric))).0) == Some(n)
  {
    var a := DecimalString(n);
    var r := a + " " + metric;
    assert ' ' !in a by {
      var d := NatString(if n < 0 then -n else n);
      assert forall k :: 0 <= k < |d| ==> d[k] != ' ';
    }
    var k := Seqs.IndexOf(r, ' ');
    assert r[|a|] == ' ';
    assert k == |a|;
    assert r[..k] == a && r[k + 1..] == metric;
    DecimalRoundTrip(n);
  }

  /** An `Ingredient` object held in a recipe's list. Python compares these
      objects with `!=`, which (the class defines no `__eq__`) is identity:
      `ref` stands for the object's identity. */
  datatype IngredientObj = IngredientObj(ref: nat, ing: Ingredient)

  /** Every list entry is a different object. */
  predicate DistinctObjects(objs: seq<IngredientObj>)
  {
    forall i, j :: 0 <= i < j < |objs| ==> objs[i].ref != objs[j].ref
  }

  function ObjName(o: IngredientObj): string
  {
    GetName(o.ing)
  }

  function ObjAmount(o: IngredientObj): string
  {
    GetAmount(o.ing)
  }

  /** A unit and an amount whose text holds no comma. */
  predicate CommaFreeAmount(o: IngredientObj)
  {
    ',' !in AmountText(o.ing.amount) && ',' !in o.ing.metric
  }

  lemma AmountHasNoComma(o: IngredientObj)
    requires CommaFreeAmount(o)
    ensures ',' !in ObjAmount(o)
  {
    var a := AmountText(o.ing.amount);
    var r := ObjAmount(o);
    forall k | 0 <= k < |r| ensures r[k] != ',' {
      if k < |a| { assert r[k] == a[k]; }
      else if k > |a| { assert r[k] == o.ing.metric[k - |a| - 1]; }
    }
  }
}
