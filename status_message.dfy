/** The status line above the form: the texts the handlers put there and the
    rule that decides how it is shown (hidden when empty, red when it reads
    as an error, green otherwise). */
module StatusMessage {
  import opened JsValues
  import opened Validation

  const AddedMessage := "Item added successfully."
  const AddErrorMessage := "Error adding item."
  const UpdatedMessage := "Item updated successfully."
  const UpdateErrorMessage := "Error updating item."
  const DeleteErrorMessage := "Error deleting item."
  const FetchAllErrorMessage := "Failed to fetch inventory items."
  const NotFoundMessage := "Item not found."

  /** The notice `handleEdit` shows for the item whose `id` field is `id`:
      a fixed lead-in followed by the id's string form, which for a numeric
      id reads back as the id. */
  function EditingMessage(id: Value): (r: string)
    ensures |r| == 21 + |ToJsString(id)| && r[21..] == ToJsString(id)
    ensures id.Num? ==> DecimalValue(r[21..]) == id.n
  {
    "Editing item with ID " + ToJsString(id)
  }

  /** `message.toLowerCase().includes('error')`. */
  predicate IsErrorMessage(msg: string) {
    Includes(ToLowerCase(msg), "error")
  }

  datatype Banner = Hidden | Red | Green

  /** How the message is rendered: not at all when empty, red when it reads
      as an error, green otherwise. Red means exactly that the message holds
      the word "error" in some mix of upper and lower case. */
  function BannerOf(msg: string): (r: Banner)
    ensures r == Hidden <==> msg == ""
    ensures r == Red <==> exists i: nat :: SpellsErrorAt(msg, i)
  {
    ErrorMessageIff(msg);
    if msg == "" then Hidden else if IsErrorMessage(msg) then Red else Green
  }

  /** The five characters of `msg` from index `i` spell "error" in some mix
      of upper and lower case. */
  predicate SpellsErrorAt(msg: string, i: nat) {
    i + 5 <= |msg| && ToLowerCase(msg[i..i + 5]) == "error"
  }

  /** `IsErrorMessage` looks for "error" in the lower-cased message, which is
      the same as looking for a part of the message that lower-cases to it. */
  lemma ErrorMessageIff(msg: string)
    ensures IsErrorMessage(msg) <==> exists i: nat :: SpellsErrorAt(msg, i)
  {
    forall i: nat
      ensures OccursAt(ToLowerCase(msg), "error", i) <==> SpellsErrorAt(msg, i)
    {
      if i + 5 <= |msg| {
        ToLowerCaseSlice(msg, i, i + 5);
      }
    }
  }

  /** No lower-cased 'e' directly followed by a lower-cased 'r'. */
  predicate NoEr(s: string) {
    forall i | 0 <= i < |s| - 1 :: !(LowerChar(s[i]) == 'e' && LowerChar(s[i + 1]) == 'r')
  }

  /** "error" begins with "er", so a message without that pair is never
      classified as an error. */
  lemma {:induction false} NoErIsNotError(s: string)
    requires NoEr(s)
    ensures !IsErrorMessage(s)
  {
    forall i: nat | i <= |ToLowerCase(s)| ensures !OccursAt(ToLowerCase(s), "error", i) {
      if i + 5 <= |s| {
        assert !(LowerChar(s[i]) == 'e' && LowerChar(s[i + 1]) == 'r');
      }
    }
  }

  /** Gluing two strings creates no "er" pair when neither has one and the
      seam does not form one. */
  lemma NoErConcat(a: string, b: string)
    requires NoEr(a) && NoEr(b)
    requires a == [] || b == [] || !(LowerChar(a[|a| - 1]) == 'e' && LowerChar(b[0]) == 'r')
    ensures NoEr(a + b)
  {
    var s := a + b;
    forall i | 0 <= i < |s| - 1 ensures !(LowerChar(s[i]) == 'e' && LowerChar(s[i + 1]) == 'r') {
      if i + 1 < |a| {
        assert s[i] == a[i] && s[i + 1] == a[i + 1];
      } else if i >= |a| {
        assert s[i] == b[i - |a|] && s[i + 1] == b[i + 1 - |a|];
      } else {
        assert s[i] == a[|a| - 1] && s[i + 1] == b[0];
      }
    }
  }

  /** The three failure texts of the mutating handlers are shown in red. */
  lemma MutationFailuresAreRed()
    ensures BannerOf(AddErrorMessage) == Red
    ensures BannerOf(UpdateErrorMessage) == Red
    ensures BannerOf(DeleteErrorMessage) == Red
  {
    assert OccursAt(ToLowerCase(AddErrorMessage), "error", 0);
    assert OccursAt(ToLowerCase(UpdateErrorMessage), "error", 0);
    assert OccursAt(ToLowerCase(DeleteErrorMessage), "error", 0);
  }

  // One lemma per fixed text keeps each literal's proof small.
  lemma AddedHasNoEr() ensures NoEr(AddedMessage) {}
  lemma UpdatedHasNoEr() ensures NoEr(UpdatedMessage) {}
  lemma FetchAllErrorHasNoEr() ensures NoEr(FetchAllErrorMessage) {}
  lemma NotFoundHasNoEr() ensures NoEr(NotFoundMessage) {}

  /** The success texts of add and update are green. */
  lemma SuccessMessagesAreGreen()
    ensures BannerOf(AddedMessage) == Green
    ensures BannerOf(UpdatedMessage) == Green
  {
    AddedHasNoEr();
    NoErIsNotError(AddedMessage);
    UpdatedHasNoEr();
    NoErIsNotError(UpdatedMessage);
  }

  /** A failed list refresh and a failed lookup are reported in green, since
      their texts do not contain the word "error"; a successful lookup clears
      the message, which hides the banner. */
  lemma LookupAndRefreshMessagesAreNotRed()
    ensures BannerOf(FetchAllErrorMessage) == Green
    ensures BannerOf(NotFoundMessage) == Green
    ensures BannerOf("") == Hidden
  {
    FetchAllErrorHasNoEr();
    NoErIsNotError(FetchAllErrorMessage);
    NotFoundHasNoEr();
    NoErIsNotError(NotFoundMessage);
  }

  lemma PromptPartsHaveNoEr()
    ensures NoEr("Please fill out the ") && NoEr(" field.")
  {
  }

  lemma ItemKeysHaveNoEr(key: string)
    requires key in ItemKeys
    ensures NoEr(key)
  {
  }

  /** Every validation prompt for the five keys is green. */
  lemma FillPromptsAreGreen(key: string)
    requires key in ItemKeys
    ensures BannerOf(FillPrompt(key)) == Green
  {
    PromptPartsHaveNoEr();
    ItemKeysHaveNoEr(key);
    NoErConcat("Please fill out the ", key);
    NoErConcat("Please fill out the " + key, " field.");
    NoErIsNotError(FillPrompt(key));
  }

  /** The edit notice for an item with a numeric id is green. */
  lemma {:induction false} EditingNumericIdIsGreen(n: int)
    ensures BannerOf(EditingMessage(Num(n))) == Green
  {
    var digits := NumberToString(n);
    assert NoEr(digits) by {
      forall i | 0 <= i < |digits| ensures LowerChar(digits[i]) == digits[i] != 'e' {
        assert IsDigit(digits[i]) || digits[i] == '-';
      }
    }
    NoErConcat("Editing item with ID ", digits);
    NoErIsNotError(EditingMessage(Num(n)));
  }

  /** An id whose string form holds "error" in any letter case turns the
      edit notice red: the colour is decided by the text alone. */
  lemma EditingErrorIdIsRed(id: Value, k: nat)
    requires SpellsErrorAt(ToJsString(id), k)
    ensures BannerOf(EditingMessage(id)) == Red
  {
    var m := EditingMessage(id);
    assert m[21 + k..21 + k + 5] == ToJsString(id)[k..k + 5];
    assert SpellsErrorAt(m, 21 + k);
  }
}
