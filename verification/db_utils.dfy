/** The pure parts of the database helper class: splitting the ingredient
    column that the recipe query builds, turning a fetched row into the recipe
    dictionary, comparing the comma-joined lists of an edited recipe with the
    original, and the recipe-of-the-day date rule. */
module DbUtils {
  import opened Wrappers
  import opened Strings
  import opened Seqs

  /** One ingredient as the recipe query concatenates it:
      `nombre, ' (', cantidad, ' ', medida, ')'`, with `amount` standing for
      `cantidad ' ' medida`. */
  function ConcatEntry(name: string, amount: string): string
  {
    name + " (" + amount + ")"
  }

  /** `GROUP_CONCAT(... SEPARATOR ',')` of the entries. */
  function GroupConcat(entries: seq<string>): string
  {
    Join(entries, ',')
  }

  /** One loop step of `separate_ingredients`: `name, amount = ingredient.split('(')`
      (a `ValueError` unless there are exactly two pieces), then
      `name.strip()` and `amount.strip(')')`. */
  function SeparateEntry(entry: string): (r: Result<(string, string)>)
    ensures r.Success? <==> Occurrences(entry, '(') == 1
    ensures r.Failure? ==> r.error == ValueError
  {
    var parts := Split(entry, '(');
    if |parts| != 2 then Failure(ValueError)
    else Success((Strip(parts[0], Whitespace), Strip(parts[1], Chars({')'}))))
  }

  lemma SeparateEntryCommaFree(entry: string)
    requires ',' !in entry && SeparateEntry(entry).Success?
    ensures ',' !in SeparateEntry(entry).value.0 && ',' !in SeparateEntry(entry).value.1
  {
    var parts := Split(entry, '(');
    SplitFieldsAvoid(entry, '(', ',');
    StripAvoid(parts[0], Whitespace, ',');
    StripAvoid(parts[1], Chars({')'}), ',');
  }

  /** Every entry has exactly one opening parenthesis. */
  predicate AllSeparable(entries: seq<string>)
  {
    forall k :: 0 <= k < |entries| ==> Occurrences(entries[k], '(') == 1
  }

  /** The loop of `separate_ingredients` over all entries: the names and the
      amounts, in entry order, or the first entry's error. */
  function SeparateAll(entries: seq<string>): (r: Result<(seq<string>, seq<string>)>)
    ensures r.Success? <==> AllSeparable(entries)
    ensures r.Failure? ==> r.error == ValueError
    ensures r.Success? ==> |r.value.0| == |entries| && |r.value.1| == |entries|
  {
    if entries == [] then Success(([], []))
    else
      var head := SeparateEntry(entries[0]);
      var tail := SeparateAll(entries[1..]);
      assert AllSeparable(entries) <==> head.Success? && AllSeparable(entries[1..]) by {
        assert forall k :: 0 <= k < |entries| - 1 ==> entries[1..][k] == entries[k + 1];
      }
      if head.Failure? then Failure(head.error)
      else if tail.Failure? then Failure(tail.error)
      else Success(([head.value.0] + tail.value.0, [head.value.1] + tail.value.1))
  }

  lemma SeparateAllCons(entries: seq<string>)
    requires entries != [] && AllSeparable(entries)
    ensures SeparateEntry(entries[0]).Success? && AllSeparable(entries[1..])
    ensures SeparateAll(entries).value
      == ([SeparateEntry(entries[0]).value.0] + SeparateAll(entries[1..]).value.0,
          [SeparateEntry(entries[0]).value.1] + SeparateAll(entries[1..]).value.1)
  {
  }

  /** Entries without commas give names and amounts without commas. */
  lemma {:induction false} SeparateAllCommaFree(entries: seq<string>)
    requires AllSeparable(entries) && SeparatorFree(entries, ',')
    ensures SeparatorFree(SeparateAll(entries).value.0, ',') && SeparatorFree(SeparateAll(entries).value.1, ',')
    decreases |entries|
  {
    if entries != [] {
      var rest := entries[1..];
      SeparateAllCons(entries);
      assert SeparatorFree(rest, ',') by {
        assert forall k :: 0 <= k < |rest| ==> rest[k] == entries[k + 1];
      }
      SeparateAllCommaFree(rest);
      assert ',' !in entries[0];
      SeparateEntryCommaFree(entries[0]);
      var head := SeparateEntry(entries[0]).value;
      var tail := SeparateAll(rest).value;
      SeparatorFreeCons(head.0, tail.0, ',');
      SeparatorFreeCons(head.1, tail.1, ',');
    }
  }

  /** `separate_ingredients(ingredients)`: split the concatenated column on
      commas, split each entry into name and amount, and join the names and the
      amounts back with commas. Each result has one field per entry. */
  function SeparateIngredients(ingredients: string): (r: Result<(string, string)>)
    ensures r.Success? <==> AllSeparable(Split(ingredients, ','))
    ensures r.Failure? ==> r.error == ValueError
    ensures r.Success? ==>
      |Split(r.value.0, ',')| == |Split(ingredients, ',')|
      && |Split(r.value.1, ',')| == |Split(ingredients, ',')|
  {
    var entries := Split(ingredients, ',');
    match SeparateAll(entries)
    case Failure(e) => Failure(e)
    case Success(lists) =>
      SeparateAllCommaFree(entries);
      SplitJoin(lists.0, ',');
      SplitJoin(lists.1, ',');
      Success((Join(lists.0, ','), Join(lists.1, ',')))
  }

  /** A name the query can carry through: no parenthesis or comma, and no
      whitespace at either end. */
  predicate CleanName(name: string)
  {
    '(' !in name && ',' !in name && (name == [] || (!IsSpace(name[0]) && !IsSpace(name[|name| - 1])))
  }

  /** An amount the query can carry through: no parenthesis and no comma. */
  predicate CleanAmount(amount: string)
  {
    '(' !in amount && ')' !in amount && ',' !in amount
  }

  lemma EntrySplitsAtParenthesis(name: string, amount: string)
    requires '(' !in name && '(' !in amount
    ensures Split(ConcatEntry(name, amount), '(') == [name + " ", amount + ")"]
  {
    var head := name + " ";
    var tail := amount + ")";
    assert ConcatEntry(name, amount) == head + ['('] + tail;
    assert '(' !in head by { assert head == name + [' ']; }
    assert '(' !in tail by { assert tail == amount + [')']; }
    assert Split(tail, '(') == [tail];
    SplitAtFirst(head, '(', tail);
  }

  lemma SeparateOneEntry(name: string, amount: string)
    requires CleanName(name) && CleanAmount(amount)
    ensures SeparateEntry(ConcatEntry(name, amount)) == Success((name, amount))
  {
    EntrySplitsAtParenthesis(name, amount);
    StripSpaceAfter(name);
    StripParenthesisAfter(amount);
  }

  /** `strip()` takes the space before ` (` back off a clean name. */
  lemma StripSpaceAfter(name: string)
    requires CleanName(name)
    ensures Strip(name + " ", Whitespace) == name
  {
    StripTrailing(name, " ", Whitespace);
  }

  /** `strip(')')` takes the closing parenthesis back off a clean amount. */
  lemma StripParenthesisAfter(amount: string)
    requires CleanAmount(amount)
    ensures Strip(amount + ")", Chars({')'})) == amount
  {
    StripTrailing(amount, ")", Chars({')'}));
  }

  /** The entries the query builds for parallel lists of names and amounts. */
  function Entries(names: seq<string>, amounts: seq<string>): (r: seq<string>)
    requires |names| == |amounts|
    ensures |r| == |names| && forall k :: 0 <= k < |r| ==> r[k] == ConcatEntry(names[k], amounts[k])
  {
    seq(|names|, k requires 0 <= k < |names| => ConcatEntry(names[k], amounts[k]))
  }

  lemma EntriesSeparable(names: seq<string>, amounts: seq<string>)
    requires |names| == |amounts|
    requires forall k :: 0 <= k < |names| ==> CleanName(names[k]) && CleanAmount(amounts[k])
    ensures AllSeparable(Entries(names, amounts))
  {
    var entries := Entries(names, amounts);
    forall k | 0 <= k < |entries| ensures Occurrences(entries[k], '(') == 1 {
      SeparateOneEntry(names[k], amounts[k]);
    }
  }

  /** Parallel lists of names and amounts the query can carry through. */
  predicate CleanPairs(names: seq<string>, amounts: seq<string>)
  {
    |names| == |amounts| && forall k :: 0 <= k < |names| ==> CleanName(names[k]) && CleanAmount(amounts[k])
  }

  lemma CleanPairsTail(names: seq<string>, amounts: seq<string>)
    requires CleanPairs(names, amounts) && names != []
    ensures CleanPairs(names[1..], amounts[1..])
    ensures CleanName(names[0]) && CleanAmount(amounts[0])
  {
    assert forall k :: 0 <= k < |names| - 1 ==> names[1..][k] == names[k + 1] && amounts[1..][k] == amounts[k + 1];
  }

  lemma {:induction false} SeparateAllEntries(names: seq<string>, amounts: seq<string>)
    requires CleanPairs(names, amounts)
    ensures SeparateAll(Entries(names, amounts)) == Success((names, amounts))
    decreases |names|
  {
    if names != [] {
      CleanPairsTail(names, amounts);
      EntriesCons(names, amounts);
      SeparateAllEntries(names[1..], amounts[1..]);
      SeparateOneEntry(names[0], amounts[0]);
      SeparateAllPrepend(ConcatEntry(names[0], amounts[0]), Entries(names[1..], amounts[1..]));
      HeadTail(names);
      HeadTail(amounts);
    }
  }

  /** The entries of non-empty lists: the first pair's entry, then the rest's. */
  lemma EntriesCons(names: seq<string>, amounts: seq<string>)
    requires |names| == |amounts| > 0
    ensures Entries(names, amounts) == [ConcatEntry(names[0], amounts[0])] + Entries(names[1..], amounts[1..])
  {
  }

  /** One more entry that unpacks puts its name and amount in front. */
  lemma SeparateAllPrepend(entry: string, entries: seq<string>)
    requires SeparateEntry(entry).Success? && SeparateAll(entries).Success?
    ensures SeparateAll([entry] + entries)
      == Success(([SeparateEntry(entry).value.0] + SeparateAll(entries).value.0,
                  [SeparateEntry(entry).value.1] + SeparateAll(entries).value.1))
  {
    assert ([entry] + entries)[0] == entry;
    assert ([entry] + entries)[1..] == entries;
  }

  /** Round trip: the column the query concatenates from clean names and
      amounts separates back into the comma-joined names and amounts. */
  lemma SeparateRoundTrip(names: seq<string>, amounts: seq<string>)
    requires |names| == |amounts| >= 1
    requires forall k :: 0 <= k < |names| ==> CleanName(names[k]) && CleanAmount(amounts[k])
    ensures SeparateIngredients(GroupConcat(Entries(names, amounts))) == Success((Join(names, ','), Join(amounts, ',')))
  {
    var entries := Entries(names, amounts);
    forall k | 0 <= k < |entries| ensures ',' !in entries[k] {
      var e := ConcatEntry(names[k], amounts[k]);
      assert forall j :: 0 <= j < |e| ==> e[j] != ',' by {
        assert e == names[k] + " (" + amounts[k] + ")";
      }
    }
    SplitJoin(entries, ',');
    SeparateAllEntries(names, amounts);
  }

  /** An empty column is one empty entry, which has no parenthesis: the
      unpack fails. */
  lemma SeparateEmptyFails()
    ensures SeparateIngredients("") == Failure(ValueError)
  {
    assert Split("", ',') == [""];
    assert Occurrences("", '(') == 0;
  }

  /** A calendar date. */
  datatype Date = Date(year: int, month: int, day: int)

  /** A column value of a fetched row. */
  datatype SqlValue = Null | Int(i: int) | Text(s: string) | Day(d: Date)

  /** The dictionary `format_recipe` builds, one field per key. */
  datatype RecipeDict = RecipeDict(
    id: SqlValue,
    nombre: SqlValue,
    ingredientes: string,
    cantidades: string,
    preparacion: SqlValue,
    tiempoDePreparacion: SqlValue,
    tiempoDeCoccion: SqlValue,
    imagen: SqlValue,
    etiquetas: SqlValue,
    favorito: SqlValue)

  /** `format_recipe(recipe)` for a fetched row: column 6 (the concatenated
      ingredients) is separated first, so a short row fails with `IndexError`
      at column 6, a `NULL` or non-text column 6 with `AttributeError` (no
      `split`), a malformed entry with `ValueError`, and only then are columns
      0 to 8 read. */
  function FormatRecipe(row: seq<SqlValue>): (r: Result<RecipeDict>)
    ensures |row| <= 6 ==> r == Failure(IndexError)
    ensures |row| > 6 && !row[6].Text? ==> r == Failure(AttributeError)
    ensures |row| > 6 && row[6].Text? && SeparateIngredients(row[6].s).Failure? ==> r == Failure(ValueError)
    ensures r.Success? <==> |row| >= 9 && row[6].Text? && SeparateIngredients(row[6].s).Success?
    ensures r.Success? ==>
      && r.value.id == row[0] && r.value.nombre == row[1]
      && r.value.tiempoDePreparacion == row[2] && r.value.tiempoDeCoccion == row[3]
      && r.value.imagen == row[4] && r.value.favorito == row[5]
      && (r.value.ingredientes, r.value.cantidades) == SeparateIngredients(row[6].s).value
      && r.value.preparacion == row[7] && r.value.etiquetas == row[8]
  {
    if |row| <= 6 then Failure(IndexError)
    else if !row[6].Text? then Failure(AttributeError)
    else
      match SeparateIngredients(row[6].s)
      case Failure(e) => Failure(e)
      case Success(lists) =>
        if |row| < 9 then Failure(IndexError)
        else Success(RecipeDict(row[0], row[1], lists.0, lists.1, row[7], row[2], row[3], row[4], row[8], row[5]))
  }

  /** Reading back a recipe: the ingredients of a row whose column 6 the query
      built from clean names and amounts come back in order. */
  lemma FormatRecipeIngredients(row: seq<SqlValue>, names: seq<string>, amounts: seq<string>)
    requires |row| >= 9 && |names| == |amounts| >= 1
    requires forall k :: 0 <= k < |names| ==> CleanName(names[k]) && CleanAmount(amounts[k])
    requires row[6] == Text(GroupConcat(Entries(names, amounts)))
    ensures FormatRecipe(row).Success?
    ensures Split(FormatRecipe(row).value.ingredientes, ',') == names
    ensures Split(FormatRecipe(row).value.cantidades, ',') == amounts
  {
    SeparateRoundTrip(names, amounts);
    SplitJoin(names, ',');
    SplitJoin(amounts, ',');
  }

  /** `has_day_changed()`: `flagged` is what `fetchone()` returns for the
      recipe marked as recipe of the day (`None` when none is marked), holding
      its assignment date (`None` when that column is `NULL`). */
  function HasDayChanged(flagged: Option<Option<Date>>, today: Date): (changed: bool)
    ensures !changed <==> flagged == Some(Some(today))
  {
    match flagged
    case None => true
    case Some(assignedOn) => Some(today) != assignedOn
  }

  /** For one state of the table, the day counts as unchanged on at most one
      date: a new recipe of the day is due on every other day. */
  lemma DayUnchangedOnAtMostOneDay(flagged: Option<Option<Date>>, d1: Date, d2: Date)
    requires !HasDayChanged(flagged, d1) && !HasDayChanged(flagged, d2)
    ensures d1 == d2
  {
  }

  /** The removal loop of `check_items`: for each item of `remove`, the first
      equal item of `xs` is removed, if there is one. */
  function RemoveEach(xs: seq<string>, remove: seq<string>): (r: seq<string>)
    ensures multiset(r) == multiset(xs) - multiset(remove)
    decreases |remove|
  {
    if remove == [] then xs
    else
      var y := remove[0];
      var xs' := if y in xs then RemoveFirst(xs, y) else xs;
      assert remove == [y] + remove[1..];
      assert multiset(xs') == multiset(xs) - multiset{y};
      RemoveEach(xs', remove[1..])
  }

  lemma {:induction false} RemoveEachIsSubsequence(xs: seq<string>, remove: seq<string>)
    ensures IsSubsequence(RemoveEach(xs, remove), xs)
    decreases |remove|
  {
    if remove == [] {
      SubsequenceRefl(xs);
    } else {
      var y := remove[0];
      var xs' := if y in xs then RemoveFirst(xs, y) else xs;
      RemoveEachIsSubsequence(xs', remove[1..]);
      if y in xs {
        RemoveFirstIsSubsequence(xs, y);
      } else {
        SubsequenceRefl(xs);
      }
      SubsequenceTrans(RemoveEach(xs', remove[1..]), xs', xs);
    }
  }

  /** `check_items(original, edited)`: the fields of `original` that `edited` no
      longer has, one occurrence removed per matching field of `edited` (multiset
      difference), the survivors in their original order. */
  function CheckItems(original: string, edited: string): (r: seq<string>)
    ensures multiset(r) == multiset(Split(original, ',')) - multiset(Split(edited, ','))
    ensures IsSubsequence(r, Split(original, ','))
  {
    RemoveEachIsSubsequence(Split(original, ','), Split(edited, ','));
    RemoveEach(Split(original, ','), Split(edited, ','))
  }

  /** An unchanged list removes nothing. */
  lemma CheckItemsSame(s: string)
    ensures CheckItems(s, s) == []
  {
    var r := CheckItems(s, s);
    assert multiset(r) == multiset{};
    assert |multiset(r)| == 0;
  }

  /** The loop of `check_tags`, which removes from the list it iterates over.
      Python's list iterator keeps a position `i`; removing an element shifts
      the later ones down, so the element after each removed one is skipped. */
  function CheckTagsFrom(original: seq<string>, items: seq<string>, i: nat): (r: seq<string>)
    ensures IsSubsequence(r, items)
    ensures forall x :: x !in original ==> multiset(r)[x] == multiset(items)[x]
    decreases |items| + 1 - i
  {
    if i >= |items| then
      SubsequenceRefl(items);
      items
    else
      var item := items[i];
      if item in original then
        var items' := RemoveFirst(items, item);
        var r := CheckTagsFrom(original, items', i + 1);
        RemoveFirstIsSubsequence(items, item);
        SubsequenceTrans(r, items', items);
        r
      else CheckTagsFrom(original, items, i + 1)
  }

  /** `check_tags(original, edited)`: a subsequence of the fields of `edited` that
      keeps every field absent from `original`. */
  function CheckTags(original: string, edited: string): (r: seq<string>)
    ensures IsSubsequence(r, Split(edited, ','))
    ensures forall x :: x !in Split(original, ',') ==> multiset(r)[x] == multiset(Split(edited, ','))[x]
  {
    CheckTagsFrom(Split(original, ','), Split(edited, ','), 0)
  }

  /** Every returned tag is a field of `edited`, and none is lost that `original` lacks. */
  lemma CheckTagsBounds(original: string, edited: string)
    ensures multiset(CheckTags(original, edited)) <= multiset(Split(edited, ','))
    ensures forall k :: 0 <= k < |Split(edited, ',')| && Split(edited, ',')[k] !in Split(original, ',') ==>
      Split(edited, ',')[k] in CheckTags(original, edited)
  {
    var r := CheckTags(original, edited);
    var n := Split(edited, ',');
    SubsequenceMultiset(r, n);
    forall k | 0 <= k < |n| && n[k] !in Split(original, ',') ensures n[k] in r {
      assert n[k] in multiset(n);
      assert n[k] in multiset(r);
    }
  }

  /** Shared tags can survive: with the same two tags before and after the
      edit, removing the first makes the loop skip the second, which is then
      treated as new. */
  lemma CheckTagsSkipsShared()
    ensures CheckTags("a,b", "a,b") == ["b"]
  {
    var fields := ["a", "b"];
    assert fields[1..] == ["b"];
    assert Join(fields, ',') == "a,b";
    SplitJoin(fields, ',');
    assert RemoveFirst(fields, "a") == ["b"] by {
      assert IndexOf(fields, "a") == 0;
    }
    assert CheckTagsFrom(fields, ["b"], 1) == ["b"];
  }

  /** The evidently intended result of `check_tags`: the fields of `edited` that
      `original` does not have. */
  function KeepAbsent(original: seq<string>, items: seq<string>): (r: seq<string>)
    ensures forall k :: 0 <= k < |r| ==> r[k] !in original
    ensures forall x :: x !in original ==> multiset(r)[x] == multiset(items)[x]
    ensures IsSubsequence(r, items)
  {
    if items == [] then []
    else
      var rest := KeepAbsent(original, items[1..]);
      assert items == [items[0]] + items[1..];
      if items[0] in original then
        SubsequenceSkip(rest, items);
        rest
      else
        var r := [items[0]] + rest;
        assert r[1..] == rest;
        r
  }

  /** The new tags of an edit: every field of `edited` absent from `original`,
      in order, and nothing else. */
  function NewTags(original: string, edited: string): (r: seq<string>)
    ensures forall k :: 0 <= k < |r| ==> r[k] !in Split(original, ',')
    ensures forall x :: x !in Split(original, ',') ==> multiset(r)[x] == multiset(Split(edited, ','))[x]
    ensures IsSubsequence(r, Split(edited, ','))
  {
    KeepAbsent(Split(original, ','), Split(edited, ','))
  }

  /** Unchanged tags give no new tag. */
  lemma NewTagsSame(s: string)
    ensures NewTags(s, s) == []
  {
    var r := NewTags(s, s);
    SubsequenceMultiset(r, Split(s, ','));
  }

  /** The `etiquetas` table: its rows `(id_etiqueta, nombre)` and the next
      AUTO_INCREMENT value. `nombre` carries no uniqueness constraint. */
  datatype TagTable = TagTable(rows: seq<(nat, string)>, next: nat)

  /** Every id in the table was handed out before `next`. */
  predicate IdsBelowNext(t: TagTable)
  {
    forall k :: 0 <= k < |t.rows| ==> t.rows[k].0 < t.next
  }

  /** `create_tag(name)`: an INSERT of a new row, whether or not a row already
      holds that name; `LAST_INSERT_ID()` returns its AUTO_INCREMENT id. */
  function CreateTag(t: TagTable, name: string): (r: (nat, TagTable))
    ensures r.1.rows == t.rows + [(r.0, name)] && r.1.next == r.0 + 1
    ensures IdsBelowNext(t) ==> IdsBelowNext(r.1) && forall k :: 0 <= k < |t.rows| ==> t.rows[k].0 != r.0
  {
    (t.next, TagTable(t.rows + [(t.next, name)], t.next + 1))
  }
}
