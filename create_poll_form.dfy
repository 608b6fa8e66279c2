/**
 * The poll creation form: an editable list of 2 to 10 option strings, and a
 * submit handler that appends them to the form as `option-0`, `option-1`,
 * ... before calling `createPoll`.
 */
module CreatePollForm {
  import opened Wrappers
  import opened Text
  import opened Forms
  import opened Database
  import opened Polls

  const MinOptions := 2
  const MaxOptions := 10

  /** The list the form starts with: two empty options. */
  const InitialOptions: seq<string> := ["", ""]

  // ---------------------------------------------------------------------
  // Editing the option list
  // ---------------------------------------------------------------------

  /** The entries of `options` at positions `from` and later whose position
      is not `index`: `options.filter((_, i) => i !== index)` from `from` on. */
  function KeepPositions(options: seq<string>, from: nat, index: int): seq<string>
    decreases |options| - from
  {
    if from >= |options| then []
    else (if from != index then [options[from]] else []) + KeepPositions(options, from + 1, index)
  }

  /** `options.filter((_, i) => i !== index)`. */
  function WithoutIndex(options: seq<string>, index: int): seq<string> {
    KeepPositions(options, 0, index)
  }

  lemma {:induction false} KeepPositionsSplice(options: seq<string>, from: nat, index: int)
    requires from <= |options|
    ensures KeepPositions(options, from, index) ==
            if from <= index < |options| then options[from..index] + options[index + 1..]
            else options[from..]
    decreases |options| - from
  {
    if from < |options| {
      KeepPositionsSplice(options, from + 1, index);
      assert options[from..] == [options[from]] + options[from + 1..];
      if from < index < |options| {
        assert options[from..index] == [options[from]] + options[from + 1..index];
      }
    }
  }

  /** The filter removes exactly the entry at `index`, and nothing when
      `index` is out of range. */
  lemma WithoutIndexRemovesExactlyOne(options: seq<string>, index: int)
    ensures WithoutIndex(options, index) ==
            if 0 <= index < |options| then options[..index] + options[index + 1..] else options
  {
    KeepPositionsSplice(options, 0, index);
  }

  /** The three edits the form offers. */
  datatype Edit = Add | Remove(index: int) | Update(index: int, value: string)

  /** The form only updates an option it displays. */
  predicate Applicable(options: seq<string>, edit: Edit) {
    edit.Update? ==> 0 <= edit.index < |options|
  }

  /** The new option list after one edit: `addOption` appends an empty option
      below the limit of 10, `removeOption` filters out one position above
      the minimum of 2, `updateOption` replaces one entry. */
  function Apply(options: seq<string>, edit: Edit): seq<string>
    requires Applicable(options, edit)
  {
    match edit
    case Add => if |options| < MaxOptions then options + [""] else options
    case Remove(index) => if |options| > MinOptions then WithoutIndex(options, index) else options
    case Update(index, value) => options[index := value]
  }

  /** `removeOption(i)` drops exactly entry `i` when more than two options
      are shown; with two, or with an index outside the list, nothing
      changes. */
  lemma RemoveDeletesExactlyOne(options: seq<string>, index: int)
    ensures Apply(options, Remove(index)) ==
            if |options| > MinOptions && 0 <= index < |options|
            then options[..index] + options[index + 1..]
            else options
  {
    WithoutIndexRemovesExactlyOne(options, index);
  }

  /** One edit keeps the list between 2 and 10 options. */
  lemma EditKeepsBounds(options: seq<string>, edit: Edit)
    requires MinOptions <= |options| <= MaxOptions && Applicable(options, edit)
    ensures MinOptions <= |Apply(options, edit)| <= MaxOptions
  {
    if edit.Remove? {
      RemoveDeletesExactlyOne(options, edit.index);
    }
  }

  /** A sequence of edits the form can perform one after the other. */
  ghost predicate Replayable(options: seq<string>, edits: seq<Edit>)
    decreases |edits|
  {
    edits == [] || (Applicable(options, edits[0]) && Replayable(Apply(options, edits[0]), edits[1..]))
  }

  function ApplyAll(options: seq<string>, edits: seq<Edit>): seq<string>
    requires Replayable(options, edits)
    decreases |edits|
  {
    if edits == [] then options else ApplyAll(Apply(options, edits[0]), edits[1..])
  }

  /** From the initial two empty options, any sequence of adds, removes and
      updates keeps between 2 and 10 options. */
  lemma {:induction false} EditsKeepBounds(options: seq<string>, edits: seq<Edit>)
    requires MinOptions <= |options| <= MaxOptions && Replayable(options, edits)
    ensures MinOptions <= |ApplyAll(options, edits)| <= MaxOptions
    decreases |edits|
  {
    if edits != [] {
      EditKeepsBounds(options, edits[0]);
      EditsKeepBounds(Apply(options, edits[0]), edits[1..]);
    }
  }

  lemma InitialEditsKeepBounds(edits: seq<Edit>)
    requires Replayable(InitialOptions, edits)
    ensures MinOptions <= |ApplyAll(InitialOptions, edits)| <= MaxOptions
  {
    EditsKeepBounds(InitialOptions, edits);
  }

  // ---------------------------------------------------------------------
  // The submit encoding and its round trip through createPoll
  // ---------------------------------------------------------------------

  /** The entries `handleSubmit` appends: `option-k` holding the k-th option. */
  function OptionEntries(options: seq<string>): (entries: seq<Entry>)
    ensures |entries| == |options|
    ensures forall k :: 0 <= k < |options| ==> entries[k] == Entry(OptionField(k), options[k])
  {
    if options == [] then []
    else OptionEntries(options[..|options| - 1]) + [Entry(OptionField(|options| - 1), options[|options| - 1])]
  }

  /** The `forEach` loop of `handleSubmit`. */
  method AppendOptions(formData: FormData, options: seq<string>) returns (submitted: FormData)
    ensures submitted == formData + OptionEntries(options)
  {
    submitted := formData;
    for index := 0 to |options|
      invariant submitted == formData + OptionEntries(options[..index])
    {
      assert options[..index + 1][..index] == options[..index];
      submitted := Append(submitted, OptionField(index), options[index]);
    }
    assert options[..|options|] == options;
  }

  /** The length of the longest prefix of non-empty options. */
  function FirstEmpty(options: seq<string>): (k: nat)
    ensures k <= |options|
    ensures forall j :: 0 <= j < k ==> options[j] != ""
    ensures k < |options| ==> options[k] == ""
  {
    if options == [] || options[0] == "" then 0 else 1 + FirstEmpty(options[1..])
  }

  /** `get` on a concatenation looks in the first part before the second. */
  lemma {:induction false} GetConcat(a: FormData, b: FormData, name: FieldName)
    ensures Get(a + b, name) == if Get(a, name).Some? then Get(a, name) else Get(b, name)
  {
    if a == [] {
      assert a + b == b;
    } else {
      assert (a + b)[1..] == a[1..] + b;
      GetConcat(a[1..], b, name);
    }
  }

  /** After the encoding, `option-k` reads back the k-th option, and no
      other index is present. */
  lemma GetEncoded(formData: FormData, options: seq<string>, k: nat)
    requires NoOptionFields(formData)
    ensures Get(formData + OptionEntries(options), OptionField(k)) ==
            if k < |options| then Some(options[k]) else None
  {
    var entries := OptionEntries(options);
    GetConcat(formData, entries, OptionField(k));
    GetFindsFirst(formData, OptionField(k));
    GetFindsFirst(entries, OptionField(k));
    if k < |options| {
      assert entries[k].name == OptionField(k);
    }
  }

  lemma {:induction false} ScanEncodedFrom(formData: FormData, options: seq<string>, index: nat)
    requires NoOptionFields(formData) && index <= FirstEmpty(options)
    ensures ScanFrom(formData + OptionEntries(options), index) == Kept(options[index..FirstEmpty(options)])
    decreases FirstEmpty(options) - index
  {
    var submitted := formData + OptionEntries(options);
    var stop := FirstEmpty(options);
    GetEncoded(formData, options, index);
    if index < stop {
      ScanEncodedFrom(formData, options, index + 1);
      ScanUnfolds(submitted, index);
      KeptUnfoldsAt(options, index, stop);
    } else {
      assert options[index..stop] == [];
    }
  }

  lemma KeptUnfoldsAt(values: seq<string>, from: nat, to: nat)
    requires from < to <= |values|
    ensures Kept(values[from..to]) == KeepOption(values[from]) + Kept(values[from + 1..to])
  {
    assert values[from..to][1..] == values[from + 1..to];
  }

  /** Round trip: what `handleSubmit` encodes, `createPoll` collects as the
      trimmed, non-blank entries of the longest prefix of non-empty options. */
  lemma SubmitRoundTrip(formData: FormData, options: seq<string>)
    requires NoOptionFields(formData)
    ensures ScanOptions(formData + OptionEntries(options)) == Kept(options[..FirstEmpty(options)])
  {
    ScanEncodedFrom(formData, options, 0);
  }

  lemma {:induction false} ScanAllEncodedFrom(formData: FormData, options: seq<string>, index: nat)
    requires NoOptionFields(formData) && index <= |options|
    ensures ScanPresentFrom(formData + OptionEntries(options), index) == Kept(options[index..])
    decreases |options| - index
  {
    GetEncoded(formData, options, index);
    if index < |options| {
      ScanAllEncodedFrom(formData, options, index + 1);
      assert options[index..][1..] == options[index + 1..];
    }
  }

  /** With the intended scan, every non-blank option the form shows reaches
      `createPoll`, trimmed and in order. */
  lemma SubmitRoundTripAllOptions(formData: FormData, options: seq<string>)
    requires NoOptionFields(formData)
    ensures ScanAllOptions(formData + OptionEntries(options)) == Kept(options)
  {
    ScanAllEncodedFrom(formData, options, 0);
    assert options[0..] == options;
  }

  /** A non-blank option with no white space at its ends, such as "A". */
  ghost predicate PlainOption(s: string) {
    s != "" && Trimmed(s)
  }

  /** The prefix before the first empty option at `i` is `i` long. */
  lemma FirstEmptyAt(options: seq<string>, i: nat)
    requires i < |options| && options[i] == ""
    requires forall k :: 0 <= k < i ==> options[k] != ""
    ensures FirstEmpty(options) == i
  {
  }

  /** As written, the scan stops at the first empty option. */
  lemma AsWrittenStopsAtEmpty(formData: FormData, options: seq<string>, i: nat)
    requires NoOptionFields(formData)
    requires i < |options| && options[i] == ""
    requires forall k :: 0 <= k < i ==> options[k] != ""
    ensures ScanOptions(formData + OptionEntries(options)) == Kept(options[..i])
  {
    SubmitRoundTrip(formData, options);
    FirstEmptyAt(options, i);
  }

  /** The intended scan goes past an empty option. */
  lemma IntendedGoesPastEmpty(formData: FormData, options: seq<string>, i: nat)
    requires NoOptionFields(formData) && i <= |options|
    ensures ScanAllOptions(formData + OptionEntries(options)) == Kept(options[..i]) + Kept(options[i..])
  {
    SubmitRoundTripAllOptions(formData, options);
    KeptSplit(options, i);
  }

  lemma KeptSplit(values: seq<string>, i: nat)
    requires i <= |values|
    ensures Kept(values) == Kept(values[..i]) + Kept(values[i..])
  {
    assert values == values[..i] + values[i..];
    KeptAppend(values[..i], values[i..]);
  }

  /** A value that is not blank once trimmed is kept. */
  lemma KeptNonBlank(values: seq<string>, j: nat)
    requires j < |values| && Trim(values[j]) != ""
    ensures |Kept(values)| > 0
  {
    KeptSplit(values, j);
    assert values[j..][0] == values[j];
  }

  /** As written, an option left empty in the middle of the list hides every
      option after it: with options `A`, `B`, ``, `D` the poll gets `A` and
      `B` only, where the intended scan also collects `D`. */
  lemma EmptyOptionHidesLaterOptions(formData: FormData, options: seq<string>, i: nat, j: nat)
    requires NoOptionFields(formData)
    requires i < j < |options| && options[i] == "" && Trim(options[j]) != ""
    requires forall k :: 0 <= k < i ==> options[k] != ""
    ensures var submitted := formData + OptionEntries(options);
            && ScanOptions(submitted) == Kept(options[..i])
            && ScanAllOptions(submitted) == Kept(options[..i]) + Kept(options[i..])
            && |ScanAllOptions(submitted)| > |ScanOptions(submitted)|
  {
    AsWrittenStopsAtEmpty(formData, options, i);
    IntendedGoesPastEmpty(formData, options, i);
    KeptAfterEmpty(options, i, j);
  }

  lemma KeptAfterEmpty(options: seq<string>, i: nat, j: nat)
    requires i < j < |options| && Trim(options[j]) != ""
    ensures |Kept(options[i..])| > 0
  {
    assert options[i..][j - i] == options[j];
    KeptNonBlank(options[i..], j - i);
  }

  /** With every option filled in, the poll gets each option, trimmed, in
      order; with every option already trimmed, exactly the options. */
  lemma FilledOptionsRoundTrip(formData: FormData, options: seq<string>)
    requires NoOptionFields(formData)
    requires forall k :: 0 <= k < |options| ==> options[k] != ""
    ensures ScanOptions(formData + OptionEntries(options)) == Kept(options)
    ensures (forall k :: 0 <= k < |options| ==> PlainOption(options[k])) ==>
              ScanOptions(formData + OptionEntries(options)) == options
  {
    SubmitRoundTrip(formData, options);
    assert options[..FirstEmpty(options)] == options;
    if forall k :: 0 <= k < |options| ==> PlainOption(options[k]) {
      KeptOfTrimmed(options);
    }
  }

  /** The form filled as in the component's tests (a title such as "My test
      poll" and at least two options such as "Option A" and "Option B"): a
      rejected poll insert shows "Failed to create poll"; accepted writes
      redirect to the new poll. */
  lemma FilledFormScenario(
    title: string, options: seq<string>, store: Store, now: Timestamp, shareCode: string, thrown: Thrown)
    requires PlainOption(title) && |options| >= 2
    requires forall k :: 0 <= k < |options| ==> PlainOption(options[k])
    ensures var submitted := [Entry(Title, title)] + OptionEntries(options);
            && ScanOptions(submitted) == options
            && CreatePollOutcome(submitted, store, now, shareCode, Rejected(thrown), Accepted).result
               == Failed("Failed to create poll")
            && CreatePollOutcome(submitted, store, now, shareCode, Accepted, Accepted).result
               == Redirected(store.nextId)
  {
    var formData := [Entry(Title, title)];
    var submitted := formData + OptionEntries(options);
    assert ScanOptions(submitted) == options by {
      assert NoOptionFields(formData);
      FilledOptionsRoundTrip(formData, options);
    }
    assert !TitleMissing(Get(submitted, Title)) by {
      TitleReadBack(title, options);
      TrimOfTrimmed(title);
    }
    PollInsertFailureWritesNothing(submitted, store, now, shareCode, thrown, Accepted);
    CreatedPollRecord(submitted, store, now, shareCode);
  }

  /** The title entry put before the options is read back as is. */
  lemma TitleReadBack(title: string, options: seq<string>)
    ensures Get([Entry(Title, title)] + OptionEntries(options), Title) == Some(title)
  {
    GetConcat([Entry(Title, title)], OptionEntries(options), Title);
  }

  // ---------------------------------------------------------------------
  // The component state
  // ---------------------------------------------------------------------

  class FormState {
    var options: seq<string>
    var isSubmitting: bool
    var error: Option<string>

    /** The list always holds between 2 and 10 options. */
    ghost predicate Valid()
      reads this
    {
      MinOptions <= |options| <= MaxOptions
    }

    constructor ()
      ensures Valid()
      ensures options == InitialOptions && !isSubmitting && error == None
    {
      options := InitialOptions;
      isSubmitting := false;
      error := None;
    }

    method AddOption()
      requires Valid()
      modifies this`options
      ensures Valid()
      ensures options == Apply(old(options), Add)
    {
      if |options| < MaxOptions {
        options := options + [""];
      }
    }

    method RemoveOption(index: int)
      requires Valid()
      modifies this`options
      ensures Valid()
      ensures options == Apply(old(options), Remove(index))
    {
      EditKeepsBounds(options, Remove(index));
      if |options| > MinOptions {
        options := WithoutIndex(options, index);
      }
    }

    method UpdateOption(index: int, value: string)
      requires Valid() && 0 <= index < |options|
      modifies this`options
      ensures Valid()
      ensures options == Apply(old(options), Update(index, value))
      ensures |options| == |old(options)| && options[index] == value
      ensures forall k :: 0 <= k < |options| && k != index ==> options[k] == old(options)[k]
    {
      var newOptions := options;
      newOptions := newOptions[index := value];
      options := newOptions;
    }

    /** Submitting appends the options to the form and calls `createPoll`
        once. A failure shows its message and re-enables the form; on
        success the form stays disabled while the browser is redirected. */
    method HandleSubmit(
      formData: FormData, store: Store, now: Timestamp, shareCode: string,
      pollWrite: WriteOutcome, optionsWrite: WriteOutcome)
      returns (submitted: FormData, store': Store)
      requires Valid()
      modifies this`isSubmitting, this`error
      ensures Valid()
      ensures submitted == formData + OptionEntries(options)
      ensures var out := CreatePollOutcome(submitted, store, now, shareCode, pollWrite, optionsWrite);
              && store' == out.store
              && (out.result.Failed? ==> error == Some(out.result.message) && !isSubmitting)
              && (out.result.Redirected? ==> error == None && isSubmitting)
    {
      isSubmitting := true;
      error := None;
      submitted := AppendOptions(formData, options);
      var result;
      result, store' := CreatePoll(submitted, store, now, shareCode, pollWrite, optionsWrite);
      if result.Failed? {
        error := Some(result.message);
        isSubmitting := false;
      }
    }
  }
}
