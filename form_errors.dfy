/**
 * `setValidationErrors`: a server's validation errors (field to list of
 * messages) become one `setError` call per field, carrying the first message.
 * The form's error state is a map from field to the message last set on it.
 */
module FormErrors {
  import opened Wrappers

  /** The entries of the `errors` record, in `Object.entries` order. */
  type ValidationErrors = seq<(string, seq<string>)>

  /** Field to the message of its current error (`message: undefined` is `None`). */
  type FieldErrors = map<string, Option<string>>

  datatype SetErrorCall = SetErrorCall(field: string, message: Option<string>)

  /** `value[0]`, which is `undefined` for an empty list. */
  function FirstMessage(messages: seq<string>): (m: Option<string>)
    ensures m.Some? <==> |messages| > 0
    ensures m.Some? ==> m.value == messages[0]
  {
    if |messages| > 0 then Some(messages[0]) else None
  }

  function ErrorKeys(errors: ValidationErrors): set<string> {
    KeysBefore(errors, |errors|)
  }

  /** The fields of the first `n` entries. */
  function KeysBefore(errors: ValidationErrors, n: int): set<string>
    requires 0 <= n <= |errors|
  {
    set i | 0 <= i < n :: errors[i].0
  }

  /** Record keys are distinct. */
  predicate DistinctFields(errors: ValidationErrors) {
    forall i, j :: 0 <= i < j < |errors| ==> errors[i].0 != errors[j].0
  }

  method SetValidationErrors(errors: ValidationErrors, form: FieldErrors)
    returns (calls: seq<SetErrorCall>, next: FieldErrors)
    ensures |calls| == |errors|
    ensures forall i :: 0 <= i < |errors| ==> calls[i] == SetErrorCall(errors[i].0, FirstMessage(errors[i].1))
    ensures next.Keys == form.Keys + ErrorKeys(errors)
    ensures forall f :: f in form && f !in ErrorKeys(errors) ==> next[f] == form[f]
    ensures DistinctFields(errors) ==>
      forall i :: 0 <= i < |errors| ==> next[errors[i].0] == FirstMessage(errors[i].1)
  {
    calls := [];
    next := form;
    for i := 0 to |errors|
      invariant |calls| == i
      invariant forall j :: 0 <= j < i ==> calls[j] == SetErrorCall(errors[j].0, FirstMessage(errors[j].1))
      invariant next.Keys == form.Keys + KeysBefore(errors, i)
      invariant forall f :: f in form && f !in KeysBefore(errors, i) ==> next[f] == form[f]
      invariant DistinctFields(errors) ==>
        forall j :: 0 <= j < i ==> next[errors[j].0] == FirstMessage(errors[j].1)
    {
      var key := errors[i].0;
      var message := FirstMessage(errors[i].1);
      calls := calls + [SetErrorCall(key, message)];
      next := next[key := message];
      KeysBeforeStep(errors, i);
    }
  }

  /** One more entry adds exactly its field to the touched fields. */
  lemma KeysBeforeStep(errors: ValidationErrors, n: int)
    requires 0 <= n < |errors|
    ensures KeysBefore(errors, n + 1) == KeysBefore(errors, n) + {errors[n].0}
  {
    assert errors[n].0 in KeysBefore(errors, n + 1);
  }
}
