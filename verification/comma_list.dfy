/** The comma-joined list strings the application keeps in its recipe
    dictionaries, and the edits it makes on them: appending a field with an
    f-string, dropping the last field with `split(',')[:-1]`, and the
    hand-written join that skips the comma after any item equal to the last. */
module CommaList {
  import opened Strings

  /** `f"{s},{x}"`: add one field at the end. */
  function AppendField(s: string, x: string): string
  {
    s + [','] + x
  }

  /** `','.join(s.split(',')[:-1])`: drop the last field. */
  function DropLastField(s: string): string
  {
    var fields := Split(s, ',');
    Join(fields[..|fields| - 1], ',')
  }

  /** Dropping the last field keeps a prefix of the string: only the final
      field and the comma before it go. */
  lemma DropLastIsPrefix(s: string)
    ensures |DropLastField(s)| <= |s| && DropLastField(s) == s[..|DropLastField(s)|]
    ensures ',' in s ==> |DropLastField(s)| < |s| && s[|DropLastField(s)|] == ','
  {
    var fields := Split(s, ',');
    if |fields| > 1 {
      var d := Join(fields[..|fields| - 1], ',');
      assert DropLastField(s) == d;
      SplitInitLast(s, ',');
      PrefixBeforeSeparator(s, d, fields[|fields| - 1], ',');
    } else {
      JoinSplit(s, ',');
      assert fields == [s];
      assert fields[..0] == [];
    }
  }

  /** Appending a comma-free field and dropping the last field gives back the
      string, and the appended string has exactly one more field. */
  lemma DropAfterAppend(s: string, x: string)
    requires ',' !in x
    ensures Split(AppendField(s, x), ',') == Split(s, ',') + [x]
    ensures DropLastField(AppendField(s, x)) == s
  {
    SplitAppend(s, x, ',');
    var fields := Split(s, ',');
    assert (fields + [x])[..|fields|] == fields;
    JoinSplit(s, ',');
  }

  /** Dropping the last field of a string with several fields leaves exactly the earlier fields. */
  lemma DropLastFields(s: string)
    requires ',' in s
    ensures Split(DropLastField(s), ',') == Split(s, ',')[..|Split(s, ',')| - 1]
  {
    var fields := Split(s, ',');
    assert multiset(s)[','] > 0;
    var init := fields[..|fields| - 1];
    assert SeparatorFree(init, ',') by {
      forall k | 0 <= k < |init| ensures ',' !in init[k] { assert init[k] == fields[k]; }
    }
    SplitJoin(init, ',');
  }

  /** The loop `for item in items: out += text(item); if items[-1] != item: out += ','`.
      `last` is `items[-1]`, compared with `!=` on every item. */
  function JoinUnlessLast<T(==)>(items: seq<T>, last: T, text: T -> string): string
  {
    if items == [] then ""
    else text(items[0]) + (if items[0] != last then "," else "") + JoinUnlessLast(items[1..], last, text)
  }

  /** The whole loop, including the empty list. */
  function ListToStr<T(==)>(items: seq<T>, text: T -> string): string
  {
    if items == [] then "" else JoinUnlessLast(items, items[|items| - 1], text)
  }

  /** The texts of the items, in order. */
  function Texts<T>(items: seq<T>, text: T -> string): (r: seq<string>)
    ensures |r| == |items| && forall k :: 0 <= k < |items| ==> r[k] == text(items[k])
  {
    seq(|items|, k requires 0 <= k < |items| => text(items[k]))
  }

  /** Only the final item equals the last item. */
  predicate LastIsUnique<T(==)>(items: seq<T>)
  {
    forall k :: 0 <= k < |items| - 1 ==> items[k] != items[|items| - 1]
  }

  lemma {:induction false} JoinUnlessLastIsJoin<T>(items: seq<T>, last: T, text: T -> string)
    requires |items| >= 1 && items[|items| - 1] == last
    requires forall k :: 0 <= k < |items| - 1 ==> items[k] != last
    ensures JoinUnlessLast(items, last, text) == Join(Texts(items, text), ',')
    decreases |items|
  {
    if |items| > 1 {
      JoinUnlessLastIsJoin(items[1..], last, text);
      assert Texts(items, text)[1..] == Texts(items[1..], text);
    }
  }

  /** When nothing before the final item equals it, the loop is `','.join`. */
  lemma ListToStrIsJoin<T>(items: seq<T>, text: T -> string)
    requires LastIsUnique(items)
    ensures ListToStr(items, text) == Join(Texts(items, text), ',')
  {
    if items != [] {
      JoinUnlessLastIsJoin(items, items[|items| - 1], text);
    }
  }

  /** The text of a string item: the string itself. */
  function Same(x: string): string
  {
    x
  }

  /** No comma is ever added after an item equal to the last one, even in the
      middle of the list: `[a, b, a]` becomes `a + b + "," + a`, two fields for
      three items (`["a", "b", "a"]` gives `"ab,a"`). */
  lemma ListToStrMergesRepeatedLast(a: string, b: string)
    requires a != b && ',' !in a && ',' !in b
    ensures ListToStr([a, b, a], Same) == a + b + "," + a
    ensures Split(ListToStr([a, b, a], Same), ',') == [a + b, a]
  {
    JoinUnlessLastOfThree(a, b);
    SplitTwoFields(a + b, a);
  }

  lemma JoinUnlessLastOfThree(a: string, b: string)
    requires a != b
    ensures ListToStr([a, b, a], Same) == a + b + "," + a
  {
    var items := [a, b, a];
    assert items[1..] == [b, a];
    assert [b, a][1..] == [a];
    assert JoinUnlessLast([a], a, Same) == a by {
      assert [a][1..] == [];
    }
    assert JoinUnlessLast([b, a], a, Same) == b + "," + a;
  }

  lemma SplitTwoFields(f: string, g: string)
    requires ',' !in f && ',' !in g
    ensures Split(f + "," + g, ',') == [f, g]
  {
    SplitAtFirst(f, ',', g);
  }
}
