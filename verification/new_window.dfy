/** The new-recipe form of the database version of the application. It keeps
    the ids of the ingredient rows and steps created in this session, each with
    a parallel list of what the tables show, and turns the form's fields into
    the values the new recipe is saved with. Dialogs, the database and the file
    system are parameters, as in the edit form. */
module NewWindow {
  import opened Wrappers
  import opened Strings
  import Seqs
  import ImagePath
  import EditWindow
  import DbUtils

  /** The part of the form's state the edits touch; a shown ingredient is the
      dialog's `(amount, name)` pair. */
  datatype Window = Window(
    ingredientsTemp: seq<nat>, treeIngData: seq<(string, string)>,
    prepIdList: seq<nat>, prepDescList: seq<string>)

  /** The outcome of a delete: the new state, the id handed to the database
      for deletion, and the error message shown, if any. */
  datatype Deletion = Deletion(window: Window, removed: Option<nat>, error: Option<string>)

  const NoIngredient := "No hay ningun ingrediente en la lista"
  const NoStep := "No hay ningun paso en la lista"

  /** The parallel lists have equal lengths. */
  predicate Parallel(w: Window)
  {
    |w.ingredientsTemp| == |w.treeIngData| && |w.prepIdList| == |w.prepDescList|
  }

  /** The state of a fresh form. */
  const Empty: Window := Window([], [], [], [])

  /** `new_ingredient`: after an add the id and the shown pair are pushed together. */
  function NewIngredient(w: Window, dialog: Option<EditWindow.IngredientAdded>): (r: Window)
    ensures dialog.None? ==> r == w
    ensures dialog.Some? ==>
      r.ingredientsTemp == w.ingredientsTemp + [dialog.value.value]
      && r.treeIngData == w.treeIngData + [(dialog.value.amount, dialog.value.name)]
    ensures r.prepIdList == w.prepIdList && r.prepDescList == w.prepDescList
    ensures Parallel(w) ==> Parallel(r)
  {
    match dialog
    case None => w
    case Some(added) =>
      w.(ingredientsTemp := w.ingredientsTemp + [added.value],
         treeIngData := w.treeIngData + [(added.amount, added.name)])
  }

  /** `delete_ingredient`: pop the last id, then the last shown pair. On an
      empty id list `pop` raises `IndexError` before anything changes; on an
      empty pair list the id is already gone when it does. */
  function DeleteIngredient(w: Window): (r: Deletion)
    ensures w.ingredientsTemp == [] ==> r == Deletion(w, None, Some(NoIngredient))
    ensures w.ingredientsTemp != [] ==>
      r.removed == Some(w.ingredientsTemp[|w.ingredientsTemp| - 1])
      && r.window.ingredientsTemp == w.ingredientsTemp[..|w.ingredientsTemp| - 1]
    ensures r.error.None? <==> w.ingredientsTemp != [] && w.treeIngData != []
    ensures r.error.None? ==> r.window.treeIngData == w.treeIngData[..|w.treeIngData| - 1]
    ensures r.window.prepIdList == w.prepIdList && r.window.prepDescList == w.prepDescList
    ensures Parallel(w) ==> Parallel(r.window)
  {
    if w.ingredientsTemp == [] then Deletion(w, None, Some(NoIngredient))
    else
      var id := w.ingredientsTemp[|w.ingredientsTemp| - 1];
      var popped := w.(ingredientsTemp := w.ingredientsTemp[..|w.ingredientsTemp| - 1]);
      if w.treeIngData == [] then Deletion(popped, Some(id), Some(NoIngredient))
      else Deletion(popped.(treeIngData := w.treeIngData[..|w.treeIngData| - 1]), Some(id), None)
  }

  /** `new_method`: after an add the id and the description are pushed together. */
  function NewMethod(w: Window, dialog: Option<EditWindow.MethodAdded>): (r: Window)
    ensures dialog.None? ==> r == w
    ensures dialog.Some? ==>
      r.prepIdList == w.prepIdList + [dialog.value.id]
      && r.prepDescList == w.prepDescList + [dialog.value.desc]
    ensures r.ingredientsTemp == w.ingredientsTemp && r.treeIngData == w.treeIngData
    ensures Parallel(w) ==> Parallel(r)
  {
    match dialog
    case None => w
    case Some(added) =>
      w.(prepIdList := w.prepIdList + [added.id], prepDescList := w.prepDescList + [added.desc])
  }

  /** `delete_method`: as `delete_ingredient`, for the step lists. */
  function DeleteMethod(w: Window): (r: Deletion)
    ensures w.prepIdList == [] ==> r == Deletion(w, None, Some(NoStep))
    ensures w.prepIdList != [] ==>
      r.removed == Some(w.prepIdList[|w.prepIdList| - 1])
      && r.window.prepIdList == w.prepIdList[..|w.prepIdList| - 1]
    ensures r.error.None? <==> w.prepIdList != [] && w.prepDescList != []
    ensures r.error.None? ==> r.window.prepDescList == w.prepDescList[..|w.prepDescList| - 1]
    ensures r.window.ingredientsTemp == w.ingredientsTemp && r.window.treeIngData == w.treeIngData
    ensures Parallel(w) ==> Parallel(r.window)
  {
    if w.prepIdList == [] then Deletion(w, None, Some(NoStep))
    else
      var id := w.prepIdList[|w.prepIdList| - 1];
      var popped := w.(prepIdList := w.prepIdList[..|w.prepIdList| - 1]);
      if w.prepDescList == [] then Deletion(popped, Some(id), Some(NoStep))
      else Deletion(popped.(prepDescList := w.prepDescList[..|w.prepDescList| - 1]), Some(id), None)
  }

  /** On a form whose lists are parallel, a delete fails exactly when there is
      nothing to delete, and then nothing changes. */
  lemma DeleteOnParallel(w: Window)
    requires Parallel(w)
    ensures DeleteIngredient(w).error.Some? <==> w.ingredientsTemp == []
    ensures DeleteIngredient(w).error.Some? ==> DeleteIngredient(w).window == w
    ensures DeleteMethod(w).error.Some? <==> w.prepIdList == []
    ensures DeleteMethod(w).error.Some? ==> DeleteMethod(w).window == w
  {
  }

  /** Adding and then deleting gives back the form and hands the new id to
      the database. */
  lemma NewThenDelete(w: Window, ing: EditWindow.IngredientAdded, step: EditWindow.MethodAdded)
    ensures DeleteIngredient(NewIngredient(w, Some(ing))) == Deletion(w, Some(ing.value), None)
    ensures DeleteMethod(NewMethod(w, Some(step))) == Deletion(w, Some(step.id), None)
  {
    var v := NewIngredient(w, Some(ing));
    assert v.ingredientsTemp[..|v.ingredientsTemp| - 1] == w.ingredientsTemp;
    assert v.treeIngData[..|v.treeIngData| - 1] == w.treeIngData;
    var u := NewMethod(w, Some(step));
    assert u.prepIdList[..|u.prepIdList| - 1] == w.prepIdList;
    assert u.prepDescList[..|u.prepDescList| - 1] == w.prepDescList;
  }

  /** `get_source(image)`: no image gives `None`; otherwise the file is copied
      and the stored path returned. A failed copy is caught, reported, and the
      method falls off its end, so the result is `None` as well. */
  function GetSource(image: Option<string>, copyOk: bool): (r: Option<string>)
    ensures r.Some? <==> image.Some? && copyOk
    ensures r.Some? ==> r.value == ImagePath.StoredPath(image.value)
  {
    match image
    case None => None
    case Some(path) => if copyOk then Some(ImagePath.StoredPath(path)) else None
  }

  /** `get_tag_list(tags)`: the spaces are removed and the rest split on commas. */
  function GetTagList(tags: string): (r: seq<string>)
    ensures |r| == Occurrences(tags, ',') + 1
    ensures forall k :: 0 <= k < |r| ==> ' ' !in r[k] && ',' !in r[k]
    ensures Join(r, ',') == RemoveSpaces(tags)
  {
    var compact := RemoveSpaces(tags);
    SplitFieldsAvoid(compact, ',', ' ');
    JoinSplit(compact, ',');
    Split(compact, ',')
  }

  /** Tags written without spaces or commas come back as they were written. */
  lemma TagListRoundTrip(tags: seq<string>)
    requires |tags| >= 1
    requires forall k :: 0 <= k < |tags| ==> ' ' !in tags[k] && ',' !in tags[k]
    ensures GetTagList(Join(tags, ',')) == tags
  {
    NoSpaceJoin(tags);
    SplitJoin(tags, ',');
  }

  lemma {:induction false} NoSpaceJoin(tags: seq<string>)
    requires forall k :: 0 <= k < |tags| ==> ' ' !in tags[k]
    ensures RemoveSpaces(Join(tags, ',')) == Join(tags, ',')
    decreases |tags|
  {
    if |tags| > 1 {
      NoSpaceJoin(tags[1..]);
      NoSpaceConcat(tags[0] + [','], Join(tags[1..], ','));
      NoSpaceConcat(tags[0], [',']);
      NoSpaceUnchanged(tags[0]);
    } else if |tags| == 1 {
      NoSpaceUnchanged(tags[0]);
    }
  }

  lemma {:induction false} NoSpaceConcat(a: string, b: string)
    ensures RemoveSpaces(a + b) == RemoveSpaces(a) + RemoveSpaces(b)
    decreases |a|
  {
    if a != [] {
      NoSpaceConcat(a[1..], b);
      assert (a + b)[1..] == a[1..] + b;
    } else {
      assert a + b == b;
    }
  }

  lemma {:induction false} NoSpaceUnchanged(s: string)
    requires ' ' !in s
    ensures RemoveSpaces(s) == s
    decreases |s|
  {
    if s != [] {
      NoSpaceUnchanged(s[1..]);
    }
  }

  /** The `create_tag` loop of `get_tags_id` over the names: one new row per
      name, with consecutive ids from the table's next AUTO_INCREMENT value. */
  function CreateTags(names: seq<string>, t: DbUtils.TagTable): (r: (seq<nat>, DbUtils.TagTable))
    ensures |r.0| == |names| && r.1.next == t.next + |names|
    ensures forall k :: 0 <= k < |names| ==> r.0[k] == t.next + k
    ensures |r.1.rows| == |t.rows| + |names| && r.1.rows[..|t.rows|] == t.rows
    ensures forall k :: 0 <= k < |names| ==> r.1.rows[|t.rows| + k] == (r.0[k], names[k])
    decreases |names|
  {
    if names == [] then ([], t)
    else
      var first := DbUtils.CreateTag(t, names[0]);
      var rest := CreateTags(names[1..], first.1);
      var ids := [first.0] + rest.0;
      var rows := rest.1.rows;
      assert rows[..|first.1.rows|] == t.rows + [(first.0, names[0])];
      assert rows[..|t.rows|] == t.rows by {
        assert rows[..|t.rows|] == rows[..|first.1.rows|][..|t.rows|];
      }
      forall k | 0 <= k < |names| ensures ids[k] == t.next + k && rows[|t.rows| + k] == (ids[k], names[k]) {
        if k == 0 {
          assert rows[|t.rows|] == rows[..|first.1.rows|][|t.rows|];
        } else {
          assert ids[k] == rest.0[k - 1] && names[k] == names[1..][k - 1];
          assert rows[|t.rows| + k] == rows[|first.1.rows| + (k - 1)];
        }
      }
      (ids, rest.1)
  }

  /** `get_tags_id(tags)`: one new `etiquetas` row per tag, the tags in order,
      each tag's id the one its INSERT received. */
  function GetTagsId(tags: string, t: DbUtils.TagTable): (r: (seq<nat>, DbUtils.TagTable))
    ensures |r.0| == Occurrences(tags, ',') + 1 && |r.1.rows| == |t.rows| + |r.0|
    ensures r.1.rows[..|t.rows|] == t.rows
    ensures forall k :: 0 <= k < |r.0| ==> r.1.rows[|t.rows| + k] == (r.0[k], GetTagList(tags)[k])
    ensures forall k :: 0 <= k < |r.0| ==> r.0[k] == t.next + k
    ensures forall i, j :: 0 <= i < j < |r.0| ==> r.0[i] < r.0[j]
  {
    CreateTags(GetTagList(tags), t)
  }

  /** A tag written twice is inserted twice: the two get different ids, and
      with a table whose ids are all below its next value, no new id is an
      old one. */
  lemma RepeatedTagNewRow(tags: string, t: DbUtils.TagTable, i: nat, j: nat)
    requires i < j < |GetTagList(tags)|
    ensures GetTagsId(tags, t).0[i] != GetTagsId(tags, t).0[j]
    ensures DbUtils.IdsBelowNext(t) ==>
      forall k :: 0 <= k < |t.rows| ==> t.rows[k].0 != GetTagsId(tags, t).0[i]
  {
  }

  /** `recipe_prep_methods`: each step id paired with its order, 1 to n. */
  function RecipePrepMethods(ids: seq<nat>): (links: seq<(nat, nat)>)
    ensures |links| == |ids|
    ensures forall k :: 0 <= k < |links| ==> links[k] == (ids[k], k + 1)
  {
    var numbered := Seqs.Enumerate(ids, 1);
    seq(|numbered|, k requires 0 <= k < |numbered| => (numbered[k].1, numbered[k].0))
  }

  /** The orders are exactly 1, 2, ..., n: no gap and no repeat. */
  lemma PrepOrdersDense(ids: seq<nat>, order: nat)
    requires 1 <= order <= |ids|
    ensures exists k :: 0 <= k < |ids| && RecipePrepMethods(ids)[k].1 == order
    ensures forall i, j :: 0 <= i < j < |ids| ==> RecipePrepMethods(ids)[i].1 < RecipePrepMethods(ids)[j].1
  {
    assert RecipePrepMethods(ids)[order - 1].1 == order;
  }
}
