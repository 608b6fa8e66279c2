/**
 * The part of the browser's `FormData` the poll forms use: an ordered list
 * of name/value entries, `append` at the end and `get`, which answers the
 * value of the FIRST entry with that name or `null`.
 */
module Forms {
  import opened Wrappers

  /** The field names the poll forms submit. The dynamic names `option-0`,
      `option-1`, ... are `OptionField(0)`, `OptionField(1)`, ...: distinct
      for distinct indices and never equal to a fixed name. */
  datatype FieldName =
    | Title
    | Description
    | AllowMultipleVotes
    | ExpiresAt
    | OptionField(index: nat)

  datatype Entry = Entry(name: FieldName, value: string)

  type FormData = seq<Entry>

  /** `formData.get(name)`: the value of the first entry named `name`, or
      `None` when there is none. */
  function Get(formData: FormData, name: FieldName): Option<string> {
    if formData == [] then None
    else if formData[0].name == name then Some(formData[0].value)
    else Get(formData[1..], name)
  }

  /** `get` answers `null` exactly when no entry has the name, and otherwise
      the value of the first entry that has it. */
  lemma {:induction false} GetFindsFirst(formData: FormData, name: FieldName)
    ensures Get(formData, name).None? <==> forall k :: 0 <= k < |formData| ==> formData[k].name != name
    ensures Get(formData, name).Some? ==>
              exists k :: 0 <= k < |formData| && formData[k] == Entry(name, Get(formData, name).value)
                          && forall j :: 0 <= j < k ==> formData[j].name != name
  {
    if formData != [] && formData[0].name != name {
      GetFindsFirst(formData[1..], name);
      assert forall k :: 1 <= k < |formData| ==> formData[k] == formData[1..][k - 1];
      if Get(formData, name).Some? {
        var k :| 0 <= k < |formData[1..]| && formData[1..][k] == Entry(name, Get(formData, name).value)
                 && forall j :: 0 <= j < k ==> formData[1..][j].name != name;
        assert formData[k + 1] == Entry(name, Get(formData, name).value);
      }
    }
  }

  /** `formData.append(name, value)`. */
  function Append(formData: FormData, name: FieldName, value: string): (r: FormData)
    ensures |r| == |formData| + 1 && r[..|formData|] == formData
    ensures r[|formData|] == Entry(name, value)
  {
    formData + [Entry(name, value)]
  }

  /** JavaScript truthiness of `formData.get(...)` for a text field: `null`
      and the empty string are falsy. */
  predicate Truthy(value: Option<string>) {
    value.Some? && value.value != ""
  }

  /** One past the largest `option-i` index present: no `OptionField` at or
      above it occurs in the form. */
  function OptionBound(formData: FormData): (bound: nat)
    ensures forall k :: 0 <= k < |formData| && formData[k].name.OptionField? ==>
              formData[k].name.index < bound
  {
    if formData == [] then 0
    else
      var rest := OptionBound(formData[1..]);
      assert forall k :: 1 <= k < |formData| ==> formData[k] == formData[1..][k - 1];
      match formData[0].name
      case OptionField(i) => if i + 1 > rest then i + 1 else rest
      case _ => rest
  }

  /** Only indices below the bound can have a value. */
  lemma GetBelowBound(formData: FormData, index: nat)
    requires Get(formData, OptionField(index)).Some?
    ensures index < OptionBound(formData)
  {
    GetFindsFirst(formData, OptionField(index));
  }

  /** The form holds no `option-i` entry at all. */
  ghost predicate NoOptionFields(formData: FormData) {
    forall k :: 0 <= k < |formData| ==> !formData[k].name.OptionField?
  }
}
