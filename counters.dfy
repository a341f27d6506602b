/** app/api/v1/counters.go: the partial update of `EditCounter` and the `global` flag
    of the statistics handlers. */
module CountersApi {
  import opened Common
  import opened Models
  import GoLib
  import Utils

  /** A decoded JSON value, as `map[string]interface{}` holds it. */
  datatype Json =
    | JNull
    | JBool(b: bool)
    | JNumber(n: int)
    | JString(s: string)
    | JArray(items: seq<Json>)
    | JObject(fields: map<string, Json>)

  /** How `EditCounter` answers. */
  datatype EditResponse =
    | LookupFailed            // 500: the counter could not be read
    | BadBody                 // 400: "Cannot parse JSON"
    | NotModified(counter: Counter)
    | SaveFailed              // 400: the store refused the update
    | Saved(counter: Counter)

  /** The non-empty string stored under `key`, if there is one. */
  function NonEmptyString(updates: map<string, Json>, key: string): (r: Option<string>)
    ensures r.Some? <==> key in updates && updates[key].JString? && updates[key].s != ""
    ensures r.Some? ==> r.value == updates[key].s
  {
    if key in updates && updates[key].JString? && updates[key].s != "" then Some(updates[key].s) else None
  }

  /** The counter after a non-empty update map has been merged into `c` at time `now`;
      `parse` is `time.Parse(time.RFC3339, ·)` followed by the conversion to milliseconds. */
  function Merge(c: Counter, updates: map<string, Json>, now: DateTime, parse: string -> Option<DateTime>): (r: Counter)
    // identity and creation time never change; the update time is always stamped
    ensures r.id == c.id && r.createdAt == c.createdAt && r.updatedAt == now
    // softReset: JSON null clears it, a parsable non-empty string sets it, anything else keeps it
    ensures "softReset" in updates && updates["softReset"] == JNull ==> r.softReset == None
    ensures NonEmptyString(updates, "softReset").Some? && parse(NonEmptyString(updates, "softReset").value).Some?
            ==> r.softReset == parse(NonEmptyString(updates, "softReset").value)
    ensures r.softReset != c.softReset ==>
              ("softReset" in updates && updates["softReset"] == JNull) ||
              (NonEmptyString(updates, "softReset").Some? && parse(NonEmptyString(updates, "softReset").value).Some? &&
               r.softReset == parse(NonEmptyString(updates, "softReset").value))
    // name: replaced by a non-empty string only
    ensures NonEmptyString(updates, "name").Some? ==> r.name == NonEmptyString(updates, "name").value
    ensures NonEmptyString(updates, "name").None? ==> r.name == c.name
  {
    var softReset :=
      if "softReset" in updates && updates["softReset"] == JNull then None
      else match NonEmptyString(updates, "softReset")
        case Some(text) => if parse(text).Some? then parse(text) else c.softReset
        case None => c.softReset;
    var name := if NonEmptyString(updates, "name").Some? then NonEmptyString(updates, "name").value else c.name;
    c.(softReset := softReset, name := name, updatedAt := now)
  }

  /** `EditCounter`. `lookup` is what `db.Q.GetCounter` returned, `body` the decoded request
      body (`None` when it could not be parsed), `now` the clock reading, and `stored` whether
      `db.Q.EditCounter` accepted the merged counter. The local copy `counter` is updated
      field by field as in the handler. */
  method EditCounter(lookup: Option<Counter>, body: Option<map<string, Json>>, now: DateTime,
                     parse: string -> Option<DateTime>, stored: Counter -> bool)
    returns (resp: EditResponse)
    ensures lookup.None? ==> resp == LookupFailed
    ensures lookup.Some? && body.None? ==> resp == BadBody
    ensures lookup.Some? && body.Some? && |body.value| == 0 ==> resp == NotModified(lookup.value)
    ensures lookup.Some? && body.Some? && |body.value| > 0 ==>
              var merged := Merge(lookup.value, body.value, now, parse);
              resp == if stored(merged) then Saved(merged) else SaveFailed
  {
    if lookup.None? {
      return LookupFailed;
    }
    var counter := lookup.value;
    if body.None? {
      return BadBody;
    }
    var updatedData := body.value;
    if |updatedData| == 0 {
      return NotModified(counter);
    }
    if "softReset" in updatedData && updatedData["softReset"] == JNull {
      counter := counter.(softReset := None);
    } else if "softReset" in updatedData && updatedData["softReset"].JString? && updatedData["softReset"].s != "" {
      var newSoftReset := parse(updatedData["softReset"].s);
      if newSoftReset.Some? {
        counter := counter.(softReset := newSoftReset);
      }
    }
    if "name" in updatedData && updatedData["name"].JString? && updatedData["name"].s != "" {
      counter := counter.(name := updatedData["name"].s);
    }
    counter := counter.(updatedAt := now);
    if !stored(counter) {
      return SaveFailed;
    }
    return Saved(counter);
  }

  /** Keys other than `softReset` and `name` have no effect on the merge. */
  lemma MergeIgnoresOtherKeys(c: Counter, updates: map<string, Json>, key: string, v: Json,
                              now: DateTime, parse: string -> Option<DateTime>)
    requires key != "softReset" && key != "name"
    ensures Merge(c, updates[key := v], now, parse) == Merge(c, updates, now, parse)
  {
    assert NonEmptyString(updates[key := v], "softReset") == NonEmptyString(updates, "softReset");
    assert NonEmptyString(updates[key := v], "name") == NonEmptyString(updates, "name");
  }

  /** Applying the same update twice at the same time is the same as applying it once. */
  lemma MergeIdempotent(c: Counter, updates: map<string, Json>, now: DateTime, parse: string -> Option<DateTime>)
    ensures Merge(Merge(c, updates, now, parse), updates, now, parse) == Merge(c, updates, now, parse)
  {
  }

  /** An update map that only carries keys the handler does not know changes nothing but
      the update time. */
  lemma MergeUnknownKeysOnly(c: Counter, updates: map<string, Json>, now: DateTime, parse: string -> Option<DateTime>)
    requires "softReset" !in updates && "name" !in updates
    ensures Merge(c, updates, now, parse) == c.(updatedAt := now)
  {
  }

  /** A `softReset` that is an empty string, not a string, or not RFC 3339 leaves the reset
      instant as it was, and no error is reported. */
  lemma SoftResetKeptOnBadValue(c: Counter, updates: map<string, Json>, now: DateTime, parse: string -> Option<DateTime>)
    requires "softReset" in updates && updates["softReset"] != JNull
    requires NonEmptyString(updates, "softReset").None? || parse(NonEmptyString(updates, "softReset").value).None?
    ensures Merge(c, updates, now, parse).softReset == c.softReset
  {
  }

  /** The `global` query flag of the statistics handlers: `c.Query("global", "")` read by
      `StringToBool`. */
  function GlobalFlag(query: map<string, string>): (global: bool)
    ensures "global" !in query ==> !global
    ensures "global" in query ==> (global <==> Utils.StringToBool(query["global"]))
  {
    Utils.StringToBool(GoLib.Query(query, "global", ""))
  }
}
