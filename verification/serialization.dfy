/** The `toJSON`/`toObject` transform both schemas install: it exposes the store key
    as a string `id` and hides `_id` and the version key `__v`. */
module Serialization {

  import opened Common
  import opened Js

  /** `ret[key] !== undefined`: the key is present with a value other than undefined. */
  predicate Defined(fields: map<string, JsValue>, key: string)
  {
    key in fields && fields[key] != Undefined
  }

  /** `scrubIdentifiers(doc, ret)`. `toText` is JavaScript's `toString()` on the `_id`
      value, `None` where that call throws (as it does on `null`); then the transform
      throws too and the result is `None`. */
  function ScrubIdentifiers(ret: JsValue, toText: JsValue -> Option<string>): (r: Option<JsValue>)
    // a falsy value, and any value that is not an object, comes back unchanged
    ensures !Truthy(ret) || !ret.Obj? ==> r == Some(ret)
    ensures ret.Obj? && Defined(ret.fields, "_id") && toText(ret.fields["_id"]).None? ==> r.None?
    // an object is transformed unless `toString` of its `_id` throws
    ensures ret.Obj? && !(Defined(ret.fields, "_id") && toText(ret.fields["_id"]).None?) ==> r.Some?
    ensures ret.Obj? && r.Some? ==> r.value.Obj?
    ensures ret.Obj? && r.Some? ==>
      var before, after := ret.fields, r.value.fields;
      // `_id` and `__v` are gone
      && !Defined(after, "_id") && !Defined(after, "__v")
      // `id` is the text of the old `_id`, or untouched when there was none
      && (Defined(before, "_id") ==> "id" in after && after["id"] == Str(toText(before["_id"]).value))
      && (!Defined(before, "_id") ==> ("id" in after <==> "id" in before))
      && (!Defined(before, "_id") && "id" in before ==> after["id"] == before["id"])
      // every other key is kept with its value
      && (forall k :: k != "id" && k != "_id" && k != "__v" ==>
            (k in after <==> k in before) && (k in before ==> after[k] == before[k]))
  {
    match ret
    case Obj(fields) =>
      if Defined(fields, "_id") && toText(fields["_id"]).None? then
        None
      else
        var withId :=
          if Defined(fields, "_id") then fields["id" := Str(toText(fields["_id"]).value)] - {"_id"}
          else fields;
        var scrubbed := if Defined(withId, "__v") then withId - {"__v"} else withId;
        Some(Obj(scrubbed))
    case _ => Some(ret)
  }

  /** Scrubbing an already scrubbed value changes nothing: `_id` and `__v` are gone. */
  lemma {:induction false} ScrubIdempotent(ret: JsValue, toText: JsValue -> Option<string>)
    requires ScrubIdentifiers(ret, toText).Some?
    ensures ScrubIdentifiers(ScrubIdentifiers(ret, toText).value, toText) == ScrubIdentifiers(ret, toText)
  {
    var once := ScrubIdentifiers(ret, toText).value;
    if once.Obj? {
      assert !Defined(once.fields, "_id") && !Defined(once.fields, "__v");
    }
  }
}
