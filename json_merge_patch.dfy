/**
  JSON values and the JSON Merge Patch algorithm of RFC 7396 (section 2),
  which SQLite's json_patch() implements and the document table relies on
  for every partial update of a stored record.
*/
module JsonMergePatch {

  /** A parsed JSON value. Object members are a map from name to value. */
  datatype Json =
    | JNull
    | JBool(b: bool)
    | JNum(n: real)
    | JStr(s: string)
    | JArr(items: seq<Json>)
    | JObj(fields: map<string, Json>)

  /** The members of a value; a value that is not an object has none. */
  function Members(j: Json): (m: map<string, Json>)
    ensures j.JObj? ==> m == j.fields
    ensures !j.JObj? ==> m == map[]
  {
    if j.JObj? then j.fields else map[]
  }

  /**
    The top-level member `key` of `doc`, or null when `doc` is not an object
    or has no such member: what the JSON path `$.key` selects.
  */
  function Get(doc: Json, key: string): (v: Json)
    ensures key in Members(doc) ==> v == doc.fields[key]
    ensures key !in Members(doc) ==> v == JNull
  {
    if doc.JObj? && key in doc.fields then doc.fields[key] else JNull
  }

  /**
    MergePatch(Target, Patch) of RFC 7396, section 2. A patch that is not an
    object replaces the target wholesale. An object patch turns a non-object
    target into the empty object, removes every member the patch maps to
    null, merges every other member of the patch recursively into the
    target's member of that name (a missing member counts as null), and keeps
    every member the patch does not mention.
  */
  function MergePatch(target: Json, patch: Json): (r: Json)
    ensures !patch.JObj? ==> r == patch
    ensures patch.JObj? ==> r.JObj?
    decreases patch
  {
    if patch.JObj? then
      var t := Members(target);
      JObj(map k | k in t.Keys + patch.fields.Keys && !(k in patch.fields && patch.fields[k].JNull?) ::
        if k in patch.fields then MergePatch(Get(target, k), patch.fields[k]) else t[k])
    else
      patch
  }

  /**
    The members of an object patch's result: a member the patch maps to null
    is removed, any other member the patch names is merged recursively into
    the target's member of that name (null when missing), and every member
    the patch does not name keeps its value.
  */
  lemma MergePatchMembers(target: Json, patch: Json)
    requires patch.JObj?
    ensures forall k :: k in MergePatch(target, patch).fields <==>
      (k in Members(target) && k !in patch.fields) || (k in patch.fields && !patch.fields[k].JNull?)
    ensures forall k :: k in patch.fields && patch.fields[k].JNull? ==> k !in MergePatch(target, patch).fields
    ensures forall k :: k in Members(target) && k !in patch.fields ==>
      MergePatch(target, patch).fields[k] == target.fields[k]
    ensures forall k :: k in patch.fields && !patch.fields[k].JNull? ==>
      MergePatch(target, patch).fields[k] == MergePatch(Get(target, k), patch.fields[k])
  {
  }

  /** True when no object anywhere inside `j` (through nested objects) has a null member. */
  predicate NoNullMembers(j: Json)
    decreases j
  {
    j.JObj? ==> forall k :: k in j.fields ==> !j.fields[k].JNull? && NoNullMembers(j.fields[k])
  }

  /** Applying the same merge patch twice has the effect of applying it once. */
  lemma {:induction false} MergePatchIdempotent(target: Json, patch: Json)
    ensures MergePatch(MergePatch(target, patch), patch) == MergePatch(target, patch)
    decreases patch
  {
    if patch.JObj? {
      var r := MergePatch(target, patch);
      var r2 := MergePatch(r, patch);
      forall k | k in patch.fields && !patch.fields[k].JNull?
        ensures r2.fields[k] == r.fields[k]
      {
        MergePatchIdempotent(Get(target, k), patch.fields[k]);
        assert Get(r, k) == MergePatch(Get(target, k), patch.fields[k]);
      }
      assert r2.fields.Keys == r.fields.Keys;
      assert r2.fields == r.fields;
    }
  }

  /**
    A patch without null members, applied to anything that is not an object
    (in particular to a missing member), yields the patch itself.
  */
  lemma {:induction false} MergePatchOntoNonObject(target: Json, patch: Json)
    requires !target.JObj? && NoNullMembers(patch)
    ensures MergePatch(target, patch) == patch
    decreases patch
  {
    if patch.JObj? {
      var r := MergePatch(target, patch);
      forall k | k in patch.fields
        ensures r.fields[k] == patch.fields[k]
      {
        MergePatchOntoNonObject(JNull, patch.fields[k]);
      }
      assert r.fields == patch.fields;
    }
  }

  /** A document without null members, used as a patch on itself, changes nothing. */
  lemma {:induction false} MergePatchSelf(doc: Json)
    requires NoNullMembers(doc)
    ensures MergePatch(doc, doc) == doc
    decreases doc
  {
    if doc.JObj? {
      var r := MergePatch(doc, doc);
      forall k | k in doc.fields
        ensures r.fields[k] == doc.fields[k]
      {
        MergePatchSelf(doc.fields[k]);
      }
      assert r.fields == doc.fields;
    }
  }

  /** True when every member of an object patch is a value that is neither null nor an object. */
  predicate IsFlat(patch: map<string, Json>)
  {
    forall k :: k in patch ==> !patch[k].JNull? && !patch[k].JObj?
  }

  /**
    A flat object patch (such as `{id}`, `{training_end}` or
    `{stop_signal, training_end}`) on an object sets exactly the members it
    names and keeps all the others: the result is the map override.
  */
  lemma MergePatchFlat(target: map<string, Json>, patch: map<string, Json>)
    requires IsFlat(patch)
    ensures MergePatch(JObj(target), JObj(patch)) == JObj(target + patch)
  {
  }

  /** An empty object patch leaves an object unchanged and turns any other value into `{}`. */
  lemma MergePatchEmpty(target: Json)
    ensures MergePatch(target, JObj(map[])) == JObj(Members(target))
  {
  }
}
