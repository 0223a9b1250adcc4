/** The item form and `validateForm`'s rule: the five keys are checked in a
    fixed order and the first one that is falsy or blank is reported. */
module Validation {
  import opened Outcomes
  import opened JsValues

  /** An item as a JavaScript object (the form, a row of the list, a fetched
      item): the keys it has and their values. */
  type Record = map<string, Value>

  /** `rec[key]`: `undefined` for a key the object does not have. */
  function Get(rec: Record, key: string): Value {
    if key in rec then rec[key] else Missing
  }

  /** `itemKeys`: the fields of an item, in the order they are checked. */
  const ItemKeys: seq<string> := ["id", "name", "category", "stock", "price"]

  /** The form as first created and as every reset leaves it: each of the
      five fields holds the empty string. */
  const EmptyForm: Record :=
    map["id" := Str(""), "name" := Str(""), "category" := Str(""), "stock" := Str(""), "price" := Str("")]

  /** A field passes the check of `validateForm`: it is truthy and its string
      form has a character that is not whitespace, so that trimming leaves
      something (CheckField ties this to the test as written). */
  predicate Filled(v: Value) {
    Truthy(v) && exists i | 0 <= i < |ToJsString(v)| :: !IsWhitespace(ToJsString(v)[i])
  }

  /** The test `validateForm` applies to one field, as written: the field
      fails when `!value || value.toString().trim() === ''`. */
  method CheckField(v: Value) returns (passed: bool)
    ensures passed <==> Filled(v)
  {
    TrimIsEmptyIffBlank(ToJsString(v));
    passed := !(!Truthy(v) || Trim(ToJsString(v)) == "");
  }

  /** Which values pass, kind by kind: a string with at least one
      non-whitespace character, a non-zero number, and never null or a
      missing key. In particular 0 and whitespace-only strings fail. */
  lemma FilledIff(v: Value)
    ensures Filled(v) <==> match v
                           case Str(s) => exists i | 0 <= i < |s| :: !IsWhitespace(s[i])
                           case Num(n) => n != 0
                           case Null => false
                           case Missing => false
  {
    if v.Num? && v.n != 0 {
      assert !IsWhitespace(ToJsString(v)[0]);
    }
  }

  /** The first of `keys` whose value in `form` does not pass, or None when
      all pass. */
  function FirstUnfilled(form: Record, keys: seq<string>): (r: Option<string>)
    ensures r == None <==> forall j | 0 <= j < |keys| :: Filled(Get(form, keys[j]))
    ensures r.Some? ==> r.value in keys && !Filled(Get(form, r.value))
  {
    if keys == [] then None
    else if !Filled(Get(form, keys[0])) then Some(keys[0])
    else FirstUnfilled(form, keys[1..])
  }

  /** The key reported is the first failing one: every key before it
      passes. */
  lemma {:induction false} FirstUnfilledIsFirst(form: Record, keys: seq<string>, i: nat)
    requires i < |keys|
    requires forall j | 0 <= j < i :: Filled(Get(form, keys[j]))
    requires !Filled(Get(form, keys[i]))
    ensures FirstUnfilled(form, keys) == Some(keys[i])
  {
    if i > 0 {
      assert Filled(Get(form, keys[0]));
      FirstUnfilledIsFirst(form, keys[1..], i - 1);
    }
  }

  /** What `validateForm` reports for `form`: the first of the five keys, in
      the order of ItemKeys, whose field does not pass, or None when the form
      is valid. */
  function ValidationFailure(form: Record): Option<string> {
    FirstUnfilled(form, ItemKeys)
  }

  /** The report names the first failing key and no later one. */
  lemma ValidationFailureAt(form: Record, i: nat)
    requires i < |ItemKeys|
    requires forall j | 0 <= j < i :: Filled(Get(form, ItemKeys[j]))
    requires !Filled(Get(form, ItemKeys[i]))
    ensures ValidationFailure(form) == Some(ItemKeys[i])
  {
    FirstUnfilledIsFirst(form, ItemKeys, i);
  }

  /** The prompt `validateForm` shows for the failing `key`. It names the key
      at a fixed place, so distinct keys give distinct prompts. */
  function FillPrompt(key: string): (r: string)
    ensures |r| == |key| + 27 && r[20..20 + |key|] == key
  {
    "Please fill out the " + key + " field."
  }

  /** A form holding the number 0 in any of the five fields fails validation,
      since `!0` is true. */
  lemma ZeroFieldFails(form: Record, i: nat)
    requires i < |ItemKeys|
    requires Get(form, ItemKeys[i]) == Num(0)
    ensures ValidationFailure(form) != None
  {
    assert !Filled(Get(form, ItemKeys[i]));
  }

  /** A form holding a whitespace-only string in any of the five fields fails
      validation, since it trims to the empty string. */
  lemma BlankFieldFails(form: Record, i: nat, s: string)
    requires i < |ItemKeys|
    requires Get(form, ItemKeys[i]) == Str(s)
    requires forall k | 0 <= k < |s| :: IsWhitespace(s[k])
    ensures ValidationFailure(form) != None
  {
    FilledIff(Str(s));
    assert !Filled(Get(form, ItemKeys[i]));
  }

  /** Submitting a freshly reset form reports the first key, `id`. */
  lemma EmptyFormReportsId()
    ensures ValidationFailure(EmptyForm) == Some("id")
  {
    assert !Truthy(Get(EmptyForm, ItemKeys[0]));
    ValidationFailureAt(EmptyForm, 0);
  }
}
