/** `extract_field_value`: one value out of the shapes a custom field takes
    (plain text, a single-select object, a multi-select list). */
module Fields {
  import opened Values

  /** Python's `repr` of a decoded JSON value, which is also what `str()`
      gives for every value that is not a string. */
  function Repr(j: Json): string
    decreases j
  {
    match j
    case JNull => "None"
    case JBool(b) => if b then "True" else "False"
    case JNum(n) => IntToString(n)
    case JStr(s) => "'" + s + "'"
    case JList(xs) => "[" + ReprItems(xs) + "]"
    case JDict(es) => "{" + ReprEntries(es) + "}"
  }

  function ReprItems(xs: seq<Json>): string
    decreases xs
  {
    if xs == [] then ""
    else if |xs| == 1 then Repr(xs[0])
    else Repr(xs[0]) + ", " + ReprItems(xs[1..])
  }

  function ReprEntries(es: seq<(string, Json)>): string
    decreases es
  {
    if es == [] then ""
    else
      var (key, value) := es[0];
      assert value < es[0];
      var entry := "'" + key + "': " + Repr(value);
      if |es| == 1 then entry else entry + ", " + ReprEntries(es[1..])
  }

  /** The keys a select-style object is read by, in priority order. */
  const LookupKeys: seq<string> := ["value", "displayValue", "name", "key"]

  /** The value under the first of keys that m has. */
  function FirstPresent(m: FieldMap, keys: seq<string>): (r: Option<Json>)
    ensures r.None? <==> forall i :: 0 <= i < |keys| ==> !HasKey(m, keys[i])
    ensures r.Some? ==> exists i :: 0 <= i < |keys| && HasKey(m, keys[i]) && r.value == Get(m, keys[i]) &&
                                    forall j :: 0 <= j < i ==> !HasKey(m, keys[j])
  {
    if keys == [] then None
    else if HasKey(m, keys[0]) then Some(Get(m, keys[0]))
    else
      var r := FirstPresent(m, keys[1..]);
      assert forall i :: 1 <= i < |keys| ==> keys[i] == keys[1..][i - 1];
      r
  }

  /** `extract_field_value(field, default)`. A select object gives its raw
      entry, which need not be a string. */
  function ExtractFieldValue(field: Json, default: string): Json
    decreases field
  {
    match field
    case JNull => JStr(default)
    case JStr(_) => field
    case JDict(es) =>
      (match FirstPresent(es, LookupKeys)
       case Some(v) => v
       case None => JStr(Repr(field)))
    case JList(xs) => if xs != [] then ExtractFieldValue(xs[0], default) else JStr(Repr(field))
    case _ => JStr(Repr(field))
  }

  /** The value reached by following first elements of non-empty lists. */
  function FirstLeaf(field: Json): (leaf: Json)
    ensures !(leaf.JList? && leaf.items != [])
    decreases field
  {
    if field.JList? && field.items != [] then FirstLeaf(field.items[0]) else field
  }

  /** A non-empty list is read through its first element, at any depth. */
  lemma {:induction false} ExtractReadsFirstLeaf(field: Json, default: string)
    ensures ExtractFieldValue(field, default) == ExtractFieldValue(FirstLeaf(field), default)
    decreases field
  {
    if field.JList? && field.items != [] {
      ExtractReadsFirstLeaf(field.items[0], default);
    }
  }

  /** The default is used only for a missing value: once the first leaf is
      not null, which default is passed makes no difference. */
  lemma {:induction false} DefaultOnlyForNull(field: Json, d1: string, d2: string)
    requires FirstLeaf(field) != JNull
    ensures ExtractFieldValue(field, d1) == ExtractFieldValue(field, d2)
    decreases field
  {
    if field.JList? && field.items != [] {
      DefaultOnlyForNull(field.items[0], d1, d2);
    }
  }

  /** The result is text, except when the first leaf is an object whose
      highest-priority lookup key holds something other than text. */
  lemma {:induction false} ExtractGivesText(field: Json, default: string)
    ensures var leaf := FirstLeaf(field);
      !ExtractFieldValue(field, default).JStr? ==>
        leaf.JDict? && FirstPresent(leaf.entries, LookupKeys) == Some(ExtractFieldValue(field, default))
    decreases field
  {
    if field.JList? && field.items != [] {
      ExtractGivesText(field.items[0], default);
    }
  }

  /** Key priority: "value" wins over "displayValue", "name" and "key". */
  lemma ExtractPrefersValue(entries: FieldMap, default: string)
    requires HasKey(entries, "value")
    ensures ExtractFieldValue(JDict(entries), default) == Get(entries, "value")
  {
  }

  lemma ExtractExamples()
    ensures ExtractFieldValue(JDict([("value", JStr("BCBSLA"))]), "Unknown") == JStr("BCBSLA")
    ensures ExtractFieldValue(JList([JStr("a"), JStr("b")]), "Unknown") == ExtractFieldValue(JStr("a"), "Unknown")
    ensures ExtractFieldValue(JNull, "Unknown") == JStr("Unknown")
    ensures ExtractFieldValue(JList([]), "Unknown") == JStr("[]")
  {
  }

  /** A dictionary with none of the lookup keys is written as Python prints it. */
  lemma ExtractRendersDict()
    ensures ExtractFieldValue(JDict([("id", JNum(7))]), "") == JStr("{'id': 7}")
  {
    var m := [("id", JNum(7))];
    assert !HasKey(m, "value") && !HasKey(m, "displayValue") && !HasKey(m, "name") && !HasKey(m, "key");
    assert FirstPresent(m, LookupKeys) == None;
  }
}
