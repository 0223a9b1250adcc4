/** The inventory view-model: the six pieces of state the component holds
    and the handlers that overwrite them. Each network request is awaited in
    the source; here its outcome is a parameter, so a handler's effect is a
    function of the state before it and that outcome. */
module InventoryManager {
  import opened Outcomes
  import opened JsValues
  import opened Validation
  import opened StatusMessage

  /** The requests the component sends to the inventory service: list all,
      get by id, add, update and delete. */
  datatype Request =
    | ListAll
    | GetById(id: string)
    | Add(body: Record)
    | Update(body: Record)
    | Delete(id: string)

  class InventoryManager {
    /** The list of all items as the server last returned it. */
    var items: seq<Record>
    /** The add/edit form. */
    var item: Record
    /** The text of the "Get Item By ID" input. */
    var idToFetch: string
    /** The result of the last lookup by id; None is `null`. */
    var fetchedItem: Option<Record>
    /** The status line. */
    var message: string
    /** True while the form edits an existing item, false while it adds one. */
    var editMode: bool

    /** The state on mount, before the first list request. */
    constructor ()
      ensures items == [] && item == EmptyForm && idToFetch == ""
      ensures fetchedItem == None && message == "" && !editMode
    {
      items := [];
      item := EmptyForm;
      idToFetch := "";
      fetchedItem := None;
      message := "";
      editMode := false;
    }

    /** `fetchAllItems`: on success the list is replaced by the response as
        a whole; on failure the old list stays and the message says so.
        Nothing else changes. */
    method FetchAllItems(res: Outcome<seq<Record>>) returns (sent: Request)
      modifies this`items, this`message
      ensures sent == ListAll
      ensures res.Ok? ==> items == res.payload && message == old(message)
      ensures res.Fail? ==> items == old(items) && message == FetchAllErrorMessage
    {
      sent := ListAll;
      match res
      case Ok(data) =>
        items := data;
      case Fail =>
        message := FetchAllErrorMessage;
    }

    /** `handleChange`: the input named `name` now holds `value`; every other
        field of the form keeps its value. */
    method HandleChange(name: string, value: string)
      modifies this`item
      ensures Get(item, name) == Str(value)
      ensures forall k | k != name :: Get(item, k) == Get(old(item), k)
      ensures item.Keys == old(item).Keys + {name}
    {
      item := item[name := Str(value)];
    }

    /** The `onChange` of the lookup input: it records the text typed. */
    method SetIdToFetch(value: string)
      modifies this`idToFetch
      ensures idToFetch == value
    {
      idToFetch := value;
    }

    /** `validateForm`: walks the five keys in order and stops at the first
        field that is falsy or blank, putting a prompt naming it in the
        message. The result says whether every field passed. */
    method ValidateForm() returns (ok: bool)
      modifies this`message
      ensures ok <==> ValidationFailure(item) == None
      ensures ok ==> message == old(message)
      ensures !ok ==> message == FillPrompt(ValidationFailure(item).value)
    {
      for i := 0 to |ItemKeys|
        invariant forall j | 0 <= j < i :: Filled(Get(item, ItemKeys[j]))
        invariant message == old(message)
      {
        var key := ItemKeys[i];
        var v := Get(item, key);
        var passed := CheckField(v);
        if !passed {
          message := FillPrompt(key);
          ValidationFailureAt(item, i);
          return false;
        }
      }
      return true;
    }

    /** `resetForm`: empties the five fields and leaves editing mode,
        whatever the form held; the message is left alone. */
    method ResetForm()
      modifies this`item, this`editMode
      ensures item == EmptyForm && !editMode
    {
      item := EmptyForm;
      editMode := false;
    }

    /** `addItem`. An invalid form sends nothing and changes nothing but the
        message. Otherwise the form is posted; on success the message
        reports it, a list refresh is launched (`refresh`; its effect is a
        later FetchAllItems) and the form is reset; on failure the message
        reports the error and the form and mode are kept for a retry. */
    method AddItem(res: Outcome<()>) returns (sent: Option<Request>, refresh: bool)
      modifies this`item, this`editMode, this`message
      ensures ValidationFailure(old(item)).Some? ==>
        && sent == None && !refresh
        && item == old(item) && editMode == old(editMode)
        && message == FillPrompt(ValidationFailure(old(item)).value)
      ensures ValidationFailure(old(item)) == None ==> sent == Some(Add(old(item)))
      ensures ValidationFailure(old(item)) == None && res.Ok? ==>
        && refresh && message == AddedMessage
        && item == EmptyForm && !editMode
      ensures ValidationFailure(old(item)) == None && res.Fail? ==>
        && !refresh && message == AddErrorMessage
        && item == old(item) && editMode == old(editMode)
    {
      var ok := ValidateForm();
      if !ok {
        return None, false;
      }
      sent := Some(Add(item));
      match res
      case Ok(_) =>
        message := AddedMessage;
        refresh := true;
        ResetForm();
      case Fail =>
        message := AddErrorMessage;
        refresh := false;
    }

    /** `updateItem`: as AddItem, with a PUT of the form and its own texts. */
    method UpdateItem(res: Outcome<()>) returns (sent: Option<Request>, refresh: bool)
      modifies this`item, this`editMode, this`message
      ensures ValidationFailure(old(item)).Some? ==>
        && sent == None && !refresh
        && item == old(item) && editMode == old(editMode)
        && message == FillPrompt(ValidationFailure(old(item)).value)
      ensures ValidationFailure(old(item)) == None ==> sent == Some(Update(old(item)))
      ensures ValidationFailure(old(item)) == None && res.Ok? ==>
        && refresh && message == UpdatedMessage
        && item == EmptyForm && !editMode
      ensures ValidationFailure(old(item)) == None && res.Fail? ==>
        && !refresh && message == UpdateErrorMessage
        && item == old(item) && editMode == old(editMode)
    {
      var ok := ValidateForm();
      if !ok {
        return None, false;
      }
      sent := Some(Update(item));
      match res
      case Ok(_) =>
        message := UpdatedMessage;
        refresh := true;
        ResetForm();
      case Fail =>
        message := UpdateErrorMessage;
        refresh := false;
    }

    /** `deleteItem(id)`: on success the server's reply becomes the message
        word for word and a list refresh is launched; on failure a fixed
        error text. Only the message changes. */
    method DeleteItem(id: Value, res: Outcome<string>) returns (sent: Request, refresh: bool)
      modifies this`message
      ensures sent == Delete(ToJsString(id))
      ensures res.Ok? ==> refresh && message == res.payload
      ensures res.Fail? ==> !refresh && message == DeleteErrorMessage
    {
      sent := Delete(ToJsString(id));
      match res
      case Ok(reply) =>
        message := reply;
        refresh := true;
      case Fail =>
        message := DeleteErrorMessage;
        refresh := false;
    }

    /** `getItemById`: asks for the id typed in the lookup input; on success
        the reply becomes the fetched item and the message is cleared, on
        failure the fetched item is cleared and the message says it was not
        found. The form, the mode and the list are untouched. */
    method GetItemById(res: Outcome<Record>) returns (sent: Request)
      modifies this`fetchedItem, this`message
      ensures sent == GetById(idToFetch)
      ensures res.Ok? ==> fetchedItem == Some(res.payload) && message == ""
      ensures res.Fail? ==> fetchedItem == None && message == NotFoundMessage
    {
      sent := GetById(idToFetch);
      match res
      case Ok(data) =>
        fetchedItem := Some(data);
        message := "";
      case Fail =>
        fetchedItem := None;
        message := NotFoundMessage;
    }

    /** `handleEdit(itm)`: the form becomes the chosen row as it is, editing
        mode is entered and the message names the row's id. */
    method HandleEdit(itm: Record)
      modifies this`item, this`editMode, this`message
      ensures item == itm && editMode
      ensures message == EditingMessage(Get(itm, "id"))
    {
      item := itm;
      editMode := true;
      message := EditingMessage(Get(itm, "id"));
    }
  }

  /** A session built from the contracts alone: mount and list, edit a row,
      clear its id, try to save (refused locally, before any request), cancel,
      and find the form empty and the mode back to adding. */
  method EditThenCancel(row: Record, list: seq<Record>)
  {
    var m := new InventoryManager();
    var sent := m.FetchAllItems(Ok(list));
    assert m.items == list;
    m.HandleEdit(row);
    assert m.editMode && m.item == row;
    m.HandleChange("id", "");
    ValidationFailureAt(m.item, 0);
    var put, refresh := m.UpdateItem(Ok(()));
    assert put == None && !refresh && m.editMode;
    assert m.message == FillPrompt("id");
    m.ResetForm();
    assert m.item == EmptyForm && !m.editMode && m.items == list;
    assert m.message == FillPrompt("id");
  }

  /** Deleting a row whose reply is "Item deleted": that text is the message
      and a refresh is launched; a failing refresh then leaves the list as it
      was and overwrites the message. */
  method DeleteThenFailedRefresh(list: seq<Record>)
  {
    var m := new InventoryManager();
    var sent := m.FetchAllItems(Ok(list));
    var del, refresh := m.DeleteItem(Num(1), Ok("Item deleted"));
    assert del == Delete("1") && refresh && m.message == "Item deleted";
    sent := m.FetchAllItems(Fail);
    assert m.items == list && m.message == FetchAllErrorMessage;
  }
}
