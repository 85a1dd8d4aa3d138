/**
 * The list of saved forms kept under the `forms` key of the browser's local
 * storage, as both storage helpers (src/utils/storage.js and
 * utils/storage.js) read and write it: look-up by id, insert-or-replace and
 * delete-by-id.
 */
module FormList {
  import opened Wrappers
  import opened Forms

  predicate HasId(forms: seq<FormRecord>, id: string) {
    exists i :: 0 <= i < |forms| && forms[i].id == id
  }

  /** `findIndex(f => f.id === id)`: the first position holding that id, or -1. */
  method FindIndex(forms: seq<FormRecord>, id: string) returns (index: int)
    ensures -1 <= index < |forms|
    ensures index == -1 <==> !HasId(forms, id)
    ensures 0 <= index ==> forms[index].id == id && forall i :: 0 <= i < index ==> forms[i].id != id
  {
    var i := 0;
    while i < |forms|
      invariant 0 <= i <= |forms|
      invariant forall k :: 0 <= k < i ==> forms[k].id != id
    {
      if forms[i].id == id {
        return i;
      }
      i := i + 1;
    }
    return -1;
  }

  /** `find(form => form.id === id)`: an entry with that id, if there is one (the first: see FindFirst). */
  function Find(forms: seq<FormRecord>, id: string): (r: Option<FormRecord>)
    ensures r.None? <==> !HasId(forms, id)
    ensures r.Some? ==> r.value in forms && r.value.id == id
  {
    if forms == [] then None
    else if forms[0].id == id then Some(forms[0])
    else
      assert forall k :: 1 <= k < |forms| ==> forms[k] == forms[1..][k - 1];
      Find(forms[1..], id)
  }

  /**
   * What saving leaves in the list: the first entry with the form's id is
   * replaced in place, or the form is appended when no entry has its id.
   */
  function Upsert(forms: seq<FormRecord>, form: FormRecord): seq<FormRecord> {
    if forms == [] then [form]
    else if forms[0].id == form.id then [form] + forms[1..]
    else [forms[0]] + Upsert(forms[1..], form)
  }

  /** `filter(form => form.id !== id)`. */
  function RemoveId(forms: seq<FormRecord>, id: string): (r: seq<FormRecord>)
    ensures |r| <= |forms|
  {
    if forms == [] then []
    else
      var rest := RemoveId(forms[1..], id);
      if forms[0].id == id then rest else [forms[0]] + rest
  }

  /** Deleting keeps exactly the entries with another id, and changes nothing when none has this one. */
  lemma {:induction false} RemoveIdExact(forms: seq<FormRecord>, id: string)
    ensures forall g :: g in RemoveId(forms, id) <==> g in forms && g.id != id
    ensures !HasId(forms, id) ==> RemoveId(forms, id) == forms
    decreases |forms|
  {
    if forms != [] {
      RemoveIdExact(forms[1..], id);
      assert forall k :: 1 <= k < |forms| ==> forms[k] == forms[1..][k - 1];
      assert forms == [forms[0]] + forms[1..];
    }
  }

  /** Replacing where the first match sits. */
  lemma {:induction false} UpsertReplacesFirst(forms: seq<FormRecord>, form: FormRecord, k: nat)
    requires k < |forms| && forms[k].id == form.id
    requires forall i :: 0 <= i < k ==> forms[i].id != form.id
    ensures Upsert(forms, form) == forms[k := form]
    decreases k
  {
    if k > 0 {
      UpsertReplacesFirst(forms[1..], form, k - 1);
      assert forms[k := form] == [forms[0]] + forms[1..][k - 1 := form];
    }
  }

  /** Appending when nothing matches. */
  lemma {:induction false} UpsertAppendsNew(forms: seq<FormRecord>, form: FormRecord)
    requires !HasId(forms, form.id)
    ensures Upsert(forms, form) == forms + [form]
    decreases |forms|
  {
    if forms != [] {
      assert forall k :: 1 <= k < |forms| ==> forms[k] == forms[1..][k - 1];
      UpsertAppendsNew(forms[1..], form);
      assert forms == [forms[0]] + forms[1..];
    }
  }

  /** Saving replaces exactly one entry when the id is present, and grows the list by one otherwise. */
  lemma UpsertShape(forms: seq<FormRecord>, form: FormRecord)
    ensures HasId(forms, form.id) ==>
      |Upsert(forms, form)| == |forms|
      && exists k :: 0 <= k < |forms| && forms[k].id == form.id && Upsert(forms, form) == forms[k := form]
    ensures !HasId(forms, form.id) ==> Upsert(forms, form) == forms + [form]
  {
    if HasId(forms, form.id) {
      var k := FirstIndexOf(forms, form.id);
      UpsertReplacesFirst(forms, form, k);
    } else {
      UpsertAppendsNew(forms, form);
    }
  }

  /** The first position of an id that is present. */
  lemma FirstIndexOf(forms: seq<FormRecord>, id: string) returns (k: nat)
    requires HasId(forms, id)
    ensures k < |forms| && forms[k].id == id && forall i :: 0 <= i < k ==> forms[i].id != id
  {
    var j :| 0 <= j < |forms| && forms[j].id == id;
    k := j;
    while exists i :: 0 <= i < k && forms[i].id == id
      invariant k < |forms| && forms[k].id == id
      decreases k
    {
      var i :| 0 <= i < k && forms[i].id == id;
      k := i;
    }
  }

  /** After saving, looking the form's id up gives the saved form. */
  lemma FindAfterUpsert(forms: seq<FormRecord>, form: FormRecord)
    ensures Find(Upsert(forms, form), form.id) == Some(form)
  {
    var u := Upsert(forms, form);
    UpsertShape(forms, form);
    if HasId(forms, form.id) {
      var k := FirstIndexOf(forms, form.id);
      UpsertReplacesFirst(forms, form, k);
      assert u[k] == form;
      FindFirst(u, form.id, k);
    } else {
      assert u[|forms|] == form;
      FindFirst(u, form.id, |forms|);
    }
  }

  /** Find returns the entry at the first position holding the id. */
  lemma {:induction false} FindFirst(forms: seq<FormRecord>, id: string, k: nat)
    requires k < |forms| && forms[k].id == id && forall i :: 0 <= i < k ==> forms[i].id != id
    ensures Find(forms, id) == Some(forms[k])
    decreases k
  {
    if k > 0 {
      assert forms[0].id != id;
      FindFirst(forms[1..], id, k - 1);
    }
  }

  /** Saving the same form twice is saving it once. */
  lemma UpsertIdempotent(forms: seq<FormRecord>, form: FormRecord)
    ensures Upsert(Upsert(forms, form), form) == Upsert(forms, form)
  {
    var u := Upsert(forms, form);
    if HasId(forms, form.id) {
      var k := FirstIndexOf(forms, form.id);
      UpsertReplacesFirst(forms, form, k);
      UpsertReplacesFirst(u, form, k);
      assert u[k := form] == u;
    } else {
      UpsertAppendsNew(forms, form);
      assert u[|forms|] == form;
      assert forall i :: 0 <= i < |forms| ==> u[i] == forms[i];
      UpsertReplacesFirst(u, form, |forms|);
      assert u[|forms| := form] == u;
    }
  }

  /** Deleting keeps the other entries in their order: it distributes over concatenation. */
  lemma {:induction false} RemoveIdAppend(a: seq<FormRecord>, b: seq<FormRecord>, id: string)
    ensures RemoveId(a + b, id) == RemoveId(a, id) + RemoveId(b, id)
    decreases |a|
  {
    if a != [] {
      assert (a + b)[1..] == a[1..] + b;
      RemoveIdAppend(a[1..], b, id);
    } else {
      assert a + b == b;
    }
  }

  /** After deleting, the id is gone. */
  lemma FindAfterRemove(forms: seq<FormRecord>, id: string)
    ensures Find(RemoveId(forms, id), id) == None
  {
    var r := RemoveId(forms, id);
    RemoveIdExact(forms, id);
    assert forall k :: 0 <= k < |r| ==> r[k] in r;
  }

  /** Deleting an id drops an entry with that id from between any two lists. */
  lemma RemoveIdAround(a: seq<FormRecord>, x: FormRecord, b: seq<FormRecord>, id: string)
    requires x.id == id
    ensures RemoveId(a + [x] + b, id) == RemoveId(a, id) + RemoveId(b, id)
  {
    RemoveIdAppend(a + [x], b, id);
    RemoveIdAppend(a, [x], id);
    assert [x][1..] == [];
    assert RemoveId([x], id) == [];
    assert RemoveId(a, id) + [] == RemoveId(a, id);
  }

  /** Saving a form and then deleting its id is the same as only deleting it. */
  lemma SaveThenDelete(forms: seq<FormRecord>, form: FormRecord)
    ensures RemoveId(Upsert(forms, form), form.id) == RemoveId(forms, form.id)
  {
    if HasId(forms, form.id) {
      var k := FirstIndexOf(forms, form.id);
      UpsertReplacesFirst(forms, form, k);
      var a, b := forms[..k], forms[k + 1..];
      assert forms == a + [forms[k]] + b;
      assert forms[k := form] == a + [form] + b;
      RemoveIdAround(a, forms[k], b, form.id);
      RemoveIdAround(a, form, b, form.id);
    } else {
      UpsertAppendsNew(forms, form);
      RemoveIdAppend(forms, [form], form.id);
      assert RemoveId([form], form.id) == [];
    }
  }
}

/**
 * src/utils/storage.js. The storage entry is modelled by the list it holds;
 * `None` stands for a missing (or empty) entry, which reads as `[]`.
 */
module LocalFormStore {
  import opened Wrappers
  import opened Forms
  import opened FormList

  class FormStore {
    var item: Option<seq<FormRecord>>

    constructor (item: Option<seq<FormRecord>>)
      ensures this.item == item
    {
      this.item := item;
    }

    /** `getForms`: the stored list, or `[]` when nothing is stored. */
    function GetForms(): (forms: seq<FormRecord>)
      reads this
      ensures item.None? ==> forms == []
      ensures item.Some? ==> forms == item.value
    {
      match item
      case None => []
      case Some(forms) => forms
    }

    /** `getForm`: the first stored form with that id, if any. */
    function GetForm(id: string): (r: Option<FormRecord>)
      reads this
      ensures r == Find(GetForms(), id)
    {
      Find(GetForms(), id)
    }

    /** `saveForm`: find the id, replace that entry in place or push the form, and store the list. */
    method SaveForm(form: FormRecord)
      modifies this
      ensures item == Some(Upsert(old(GetForms()), form))
    {
      var forms := GetForms();
      var existingIndex := FindIndex(forms, form.id);
      if existingIndex >= 0 {
        UpsertReplacesFirst(forms, form, existingIndex);
        forms := forms[existingIndex := form];
      } else {
        UpsertAppendsNew(forms, form);
        forms := forms + [form];
      }
      item := Some(forms);
    }

    /** `deleteForm`: store the list without the entries with that id. */
    method DeleteForm(id: string)
      modifies this
      ensures item == Some(RemoveId(old(GetForms()), id))
    {
      item := Some(RemoveId(GetForms(), id));
    }
  }
}

/**
 * utils/storage.js: the same operations guarded for server-side rendering:
 * without a `window` the list reads as `[]`, and writing is impossible (the
 * global `localStorage` does not exist there).
 */
module WindowFormStore {
  import opened Wrappers
  import opened Forms
  import opened FormList

  class FormStore {
    const hasWindow: bool
    var item: Option<seq<FormRecord>>

    constructor (hasWindow: bool, item: Option<seq<FormRecord>>)
      ensures this.hasWindow == hasWindow && this.item == item
    {
      this.hasWindow := hasWindow;
      this.item := item;
    }

    /** `loadForms`: `[]` without a window or without a stored entry. */
    function LoadForms(): (forms: seq<FormRecord>)
      reads this
      ensures !hasWindow || item.None? ==> forms == []
      ensures hasWindow && item.Some? ==> forms == item.value
    {
      if !hasWindow then [] else item.GetOr([])
    }

    /** `saveForm`: insert or replace by id, then write the list back. */
    method SaveForm(form: FormRecord)
      requires hasWindow
      modifies this
      ensures item == Some(Upsert(old(LoadForms()), form))
    {
      var forms := LoadForms();
      var existingFormIndex := FindIndex(forms, form.id);
      if existingFormIndex >= 0 {
        UpsertReplacesFirst(forms, form, existingFormIndex);
        forms := forms[existingFormIndex := form];
      } else {
        UpsertAppendsNew(forms, form);
        forms := forms + [form];
      }
      item := Some(forms);
    }

    /** `deleteForms`: write back the list without the entries with that id. */
    method DeleteForms(id: string)
      requires hasWindow
      modifies this
      ensures item == Some(RemoveId(old(LoadForms()), id))
    {
      item := Some(RemoveId(LoadForms(), id));
    }
  }
}
