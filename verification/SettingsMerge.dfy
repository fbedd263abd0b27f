/** The recursive settings update (`merge_json` in user_handlers.rs). */
module SettingsMerge {
  import opened Options

  datatype Json =
    | Null
    | Flag(flag: bool)
    | Number(digits: string)
    | Text(text: string)
    | Array(items: seq<Json>)
    | Object(fields: map<string, Json>)

  /** What the update must come to: objects are merged field by field, anything else is replaced. */
  function Merge(base: Json, patch: Json): Json {
    if base.Object? && patch.Object? then
      Object(map key | key in base.fields.Keys + patch.fields.Keys ::
               if key !in patch.fields then base.fields[key]
               else if key in base.fields then Merge(base.fields[key], patch.fields[key])
               else patch.fields[key])
    else patch
  }

  /** The update as it is written: the patch's fields one after another, in whatever order. */
  method MergeJson(base: Json, patch: Json) returns (merged: Json)
    ensures merged == Merge(base, patch)
    decreases patch
  {
    if base.Object? && patch.Object? {
      var fields := base.fields;
      var rest := patch.fields.Keys;
      while rest != {}
        invariant rest <= patch.fields.Keys
        invariant fields.Keys == base.fields.Keys + (patch.fields.Keys - rest)
        invariant forall key :: key in fields ==>
          fields[key] == if key in rest || key !in patch.fields then base.fields[key] else Merge(base, patch).fields[key]
      {
        var key :| key in rest;
        if key in fields {
          var value := MergeJson(fields[key], patch.fields[key]);
          fields := fields[key := value];
        } else {
          fields := fields[key := patch.fields[key]];
        }
        rest := rest - {key};
      }
      merged := Object(fields);
      assert fields == Merge(base, patch).fields;
    } else {
      merged := patch;
    }
  }

  /** The value at the end of a path of field names. */
  function At(json: Json, path: seq<string>): Option<Json> {
    if path == [] then Some(json)
    else if json.Object? && path[0] in json.fields then At(json.fields[path[0]], path[1..])
    else None
  }

  /** The patch neither reaches the end of the path nor replaces anything on the way. */
  predicate Leaves(patch: Json, path: seq<string>) {
    path != [] && patch.Object? && (path[0] in patch.fields ==> Leaves(patch.fields[path[0]], path[1..]))
  }

  /** Every value that is not an object comes from the patch, or from the base where the patch leaves it; and all of those are there. */
  lemma {:induction false} LeafIff(base: Json, patch: Json, path: seq<string>, leaf: Json)
    requires !leaf.Object?
    ensures At(Merge(base, patch), path) == Some(leaf)
      <==> At(patch, path) == Some(leaf) || (At(base, path) == Some(leaf) && Leaves(patch, path))
  {
    if path != [] && base.Object? && patch.Object? && path[0] in base.fields && path[0] in patch.fields {
      LeafIff(base.fields[path[0]], patch.fields[path[0]], path[1..], leaf);
    }
  }

  /** What the patch leaves alone, whole objects too, is as it was. */
  lemma {:induction false} UntouchedIsKept(base: Json, patch: Json, path: seq<string>)
    requires Leaves(patch, path) && At(base, path).Some?
    ensures At(Merge(base, patch), path) == At(base, path)
  {
    if path[0] in patch.fields {
      UntouchedIsKept(base.fields[path[0]], patch.fields[path[0]], path[1..]);
    }
  }

  lemma {:induction false} MergeWithItself(json: Json)
    ensures Merge(json, json) == json
    decreases json
  {
    if json.Object? {
      forall key | key in json.fields
        ensures Merge(json, json).fields[key] == json.fields[key]
      {
        MergeWithItself(json.fields[key]);
      }
      assert Merge(json, json).fields == json.fields;
    }
  }

  /** Sending the same patch twice is sending it once. */
  lemma {:induction false} MergeTwice(base: Json, patch: Json)
    ensures Merge(Merge(base, patch), patch) == Merge(base, patch)
    decreases patch
  {
    if !patch.Object? || !base.Object? {
      MergeWithItself(patch);
    } else {
      var once := Merge(base, patch);
      forall key | key in once.fields
        ensures Merge(once, patch).fields[key] == once.fields[key]
      {
        if key in patch.fields {
          if key in base.fields {
            MergeTwice(base.fields[key], patch.fields[key]);
          } else {
            MergeWithItself(patch.fields[key]);
          }
        }
      }
      assert Merge(once, patch).fields == once.fields;
    }
  }
}
