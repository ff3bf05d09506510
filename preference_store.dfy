/** The per-region preference store behind `GetKey<T>` and `SetKey<T>`.

    The flat preference collaborator keeps one string per key. For a
    region-keyed field that string is the JSON of a `Dictionary<string, T>`
    from region to value; the JSON codec is taken to round-trip, so a
    document is kept here in its decoded form. */
module PreferenceStore {

  /** What the flat store holds under one key: nothing (`GetValue` answers
      null), the empty string, or a well-formed JSON document. */
  datatype Document<T> = Missing | Blank | Json(value: T)

  /** The dictionary `SetKey` starts from: the stored one, or a new empty one
      when the key holds nothing or the empty string. */
  function Dictionary<T>(stored: Document<map<string, T>>): map<string, T>
  {
    if stored.Json? then stored.value else map[]
  }

  /** `region` has a value of its own in the document. */
  predicate Recorded<T>(stored: Document<map<string, T>>, region: string)
  {
    stored.Json? && region in stored.value
  }

  /** `GetKey<T>(region, key, def)`: the value stored for `region`, or `def`
      when the document is missing or empty or has no entry for `region`. */
  function GetKey<T>(stored: Document<map<string, T>>, region: string, def: T): (r: T)
    ensures Recorded(stored, region) ==> r == stored.value[region]
    ensures !Recorded(stored, region) ==> r == def
  {
    if stored.Json? && region in stored.value then stored.value[region] else def
  }

  /** `SetKey<T>(region, key, created)`: the document written back after
      `newDict[region] = created`. */
  method SetKey<T>(stored: Document<map<string, T>>, region: string, created: T)
    returns (written: Document<map<string, T>>)
    ensures written.Json?
    ensures written.value.Keys == Dictionary(stored).Keys + {region}
    ensures forall def :: GetKey(written, region, def) == created
    ensures forall other, def :: other != region ==>
              GetKey(written, other, def) == GetKey(stored, other, def)
  {
    var newDict: map<string, T>;
    if stored.Json? {
      newDict := stored.value;
    } else {
      newDict := map[];
    }
    newDict := newDict[region := created];
    written := Json(newDict);
  }
}
