/**
 The client-side state of the wishlist editor and its handlers. Each async
 handler is modelled by its final state: the server's answer (or the error
 it threw) is a parameter, and the request the handler sends is a separate
 function, `None` when a guard returns before any call.
 */
module Editor {
  import opened Options
  import opened Text
  import Actions

  /** An item as the editor holds it. */
  datatype Entry = Entry(id: string, name: string, url: Option<string>, price: Option<string>, image: Option<string>)

  datatype EditorState = EditorState(
    items: seq<Entry>,
    newItemName: string,
    newItemUrl: string,
    newItemPrice: string,
    newItemImage: Option<string>,
    isSubmitting: bool,
    isAiSearching: bool,
    aiError: string,
    aiMessage: string,
    newPin: string,
    showPinForm: bool,
    editingId: Option<string>,
    editName: string,
    editUrl: string,
    editPrice: string)

  /** How a server call ended: with a value, or with a thrown error. */
  datatype Reply<T> = Done(value: T) | Threw

  const MinPinLength: nat := 4
  const EnterNameText: string := "Введите название, чтобы AI понимал что искать"
  const AiFailedText: string := "AI запрос не удался"
  const AiNoAnswerText: string := "Не удалось получить ответ AI"
  const AiFilledText: string := "AI заполнил карточку. Проверьте и сохраните!"
  const AiNothingText: string := "AI не нашёл данные. Попробуйте уточнить название."

  /** The state the editor mounts with. */
  function Initial(initialItems: seq<Entry>, isPinSet: bool): (st: EditorState)
    ensures st.items == initialItems && st.showPinForm == !isPinSet
    ensures st.editingId.None? && !st.isSubmitting && !st.isAiSearching
  {
    EditorState(initialItems, "", "", "", None, false, false, "", "", "", !isPinSet, None, "", "", "")
  }

  // ----- adding -----

  /** What `handleAddItem` sends to `addItem`: nothing when the name is blank. */
  function AddItemRequest(st: EditorState): (r: Option<Actions.ItemData>)
    ensures r.None? <==> IsBlank(st.newItemName)
    ensures r.Some? ==>
      && r.value.name == st.newItemName
      && r.value.url == Some(st.newItemUrl)
      && r.value.price == Some(st.newItemPrice)
      && r.value.image == NonEmpty(st.newItemImage)
  {
    TrimEmptyIffBlank(st.newItemName);
    if Trim(st.newItemName) == [] then None
    else Some(Actions.ItemData(st.newItemName, Some(st.newItemUrl), Some(st.newItemPrice), NonEmpty(st.newItemImage)))
  }

  /**
   `handleAddItem`: a blank name changes nothing; otherwise the returned item
   is appended and the form cleared, and submitting ends on both paths.
   */
  function HandleAddItem(st: EditorState, reply: Reply<Entry>): (r: EditorState)
    ensures IsBlank(st.newItemName) ==> r == st
    ensures !IsBlank(st.newItemName) ==> !r.isSubmitting
    ensures !IsBlank(st.newItemName) && reply.Done? ==>
      && r.items == st.items + [reply.value]
      && r.newItemName == "" && r.newItemUrl == "" && r.newItemPrice == "" && r.newItemImage.None?
    ensures !IsBlank(st.newItemName) && reply.Done? ==>
      r.(items := st.items, newItemName := st.newItemName, newItemUrl := st.newItemUrl,
         newItemPrice := st.newItemPrice, newItemImage := st.newItemImage, isSubmitting := st.isSubmitting) == st
    ensures !IsBlank(st.newItemName) && reply.Threw? ==> r == st.(isSubmitting := false)
  {
    TrimEmptyIffBlank(st.newItemName);
    if Trim(st.newItemName) == [] then st
    else
      match reply
      case Done(added) =>
        st.(items := st.items + [added], newItemName := "", newItemUrl := "", newItemPrice := "",
            newItemImage := None, isSubmitting := false)
      case Threw => st.(isSubmitting := false)
  }

  // ----- deleting -----

  /** The items whose id differs from `id`, in their original order (`items.filter(item => item.id !== id)`). */
  function RemoveById(items: seq<Entry>, id: string): (r: seq<Entry>)
    ensures |r| <= |items|
    ensures forall e :: e in r <==> e in items && e.id != id
  {
    if items == [] then []
    else if items[0].id != id then [items[0]] + RemoveById(items[1..], id)
    else RemoveById(items[1..], id)
  }

  /** Removing by id distributes over concatenation, so the kept items stay in order. */
  lemma {:induction false} RemoveByIdAppend(a: seq<Entry>, b: seq<Entry>, id: string)
    ensures RemoveById(a + b, id) == RemoveById(a, id) + RemoveById(b, id)
  {
    if a == [] {
      assert a + b == b;
    } else {
      assert (a + b)[1..] == a[1..] + b;
      RemoveByIdAppend(a[1..], b, id);
    }
  }

  /** A list without `id` is left as it is. */
  lemma {:induction false} RemoveAbsentId(items: seq<Entry>, id: string)
    requires forall i :: 0 <= i < |items| ==> items[i].id != id
    ensures RemoveById(items, id) == items
  {
    if items != [] {
      RemoveAbsentId(items[1..], id);
    }
  }

  /** Removing the same id twice removes nothing more. */
  lemma RemoveByIdIdempotent(items: seq<Entry>, id: string)
    ensures RemoveById(RemoveById(items, id), id) == RemoveById(items, id)
  {
    var r := RemoveById(items, id);
    forall i | 0 <= i < |r|
      ensures r[i].id != id
    {
      assert r[i] in r;
    }
    RemoveAbsentId(r, id);
  }

  /** `handleDeleteItem`: after confirmation and a successful delete, the list keeps exactly the other ids. */
  function HandleDeleteItem(st: EditorState, id: string, confirmed: bool, reply: Reply<()>): (r: EditorState)
    ensures !confirmed || reply.Threw? ==> r == st
    ensures confirmed && reply.Done? ==> r == st.(items := RemoveById(st.items, id))
  {
    if !confirmed then st
    else
      match reply
      case Done(_) => st.(items := RemoveById(st.items, id))
      case Threw => st
  }

  /** Deleting the item just added (with a fresh id) gives back the previous list. */
  lemma AddThenDeleteItem(st: EditorState, added: Entry)
    requires !IsBlank(st.newItemName)
    requires forall i :: 0 <= i < |st.items| ==> st.items[i].id != added.id
    ensures HandleDeleteItem(HandleAddItem(st, Done(added)), added.id, true, Done(())).items == st.items
  {
    RemoveByIdAppend(st.items, [added], added.id);
    RemoveAbsentId(st.items, added.id);
  }

  // ----- editing -----

  /** `startEdit`: the edit fields copy the item, a null url or price showing as "". */
  function StartEdit(st: EditorState, e: Entry): (r: EditorState)
    ensures r.editingId == Some(e.id) && r.editName == e.name
    ensures r.editUrl == e.url.GetOr("") && r.editPrice == e.price.GetOr("")
    ensures r.(editingId := st.editingId, editName := st.editName, editUrl := st.editUrl, editPrice := st.editPrice) == st
  {
    st.(editingId := Some(e.id), editName := e.name, editUrl := e.url.GetOr(""), editPrice := e.price.GetOr(""))
  }

  /** `cancelEdit`: no item is being edited and the edit fields are empty. */
  function CancelEdit(st: EditorState): (r: EditorState)
    ensures r.editingId.None? && r.editName == "" && r.editUrl == "" && r.editPrice == ""
    ensures r.(editingId := st.editingId, editName := st.editName, editUrl := st.editUrl, editPrice := st.editPrice) == st
  {
    st.(editingId := None, editName := "", editUrl := "", editPrice := "")
  }

  /** Cancelling forgets everything `startEdit` recorded. */
  lemma StartThenCancel(st: EditorState, e: Entry)
    ensures CancelEdit(StartEdit(st, e)) == CancelEdit(st)
  {
  }

  /** `items.findIndex(i => i.id === id)`, with `None` for -1. */
  function FindIndex(items: seq<Entry>, id: string): (r: Option<nat>)
    ensures r.None? <==> forall i :: 0 <= i < |items| ==> items[i].id != id
    ensures r.Some? ==> r.value < |items| && items[r.value].id == id
    ensures r.Some? ==> forall j :: 0 <= j < r.value ==> items[j].id != id
  {
    if items == [] then None
    else if items[0].id == id then Some(0)
    else match FindIndex(items[1..], id)
      case None => None
      case Some(k) => Some(k + 1)
  }

  /**
   The item `handleUpdateItem` builds: a blank edited name keeps the old name,
   an empty url or price becomes null, and the id and image stay.
   */
  function Merge(e: Entry, name: string, url: string, price: string): (r: Entry)
    ensures r.id == e.id && r.image == e.image
    ensures r.name == OrElse(name, e.name)
    ensures r.url == NonEmpty(Some(url)) && r.price == NonEmpty(Some(price))
  {
    Entry(e.id, OrElse(name, e.name), NonEmpty(Some(url)), NonEmpty(Some(price)), e.image)
  }

  /**
   The index `handleUpdateItem` edits: the first item holding the edited id,
   and none exactly when nothing (or the falsy id "") is being edited or no
   item holds that id.
   */
  function EditIndex(st: EditorState): (r: Option<nat>)
    ensures r.Some? ==> r.value < |st.items| && Truthy(st.editingId) && st.items[r.value].id == st.editingId.value
    ensures r.None? <==> !Truthy(st.editingId) || forall i :: 0 <= i < |st.items| ==> st.items[i].id != st.editingId.value
    ensures r.Some? ==> forall j :: 0 <= j < r.value ==> st.items[j].id != st.editingId.value
  {
    if !Truthy(st.editingId) then None else FindIndex(st.items, st.editingId.value)
  }

  /** What `handleUpdateItem` sends to `updateItem`: name, url and price, and the image untouched. */
  function UpdateRequest(st: EditorState): (r: Option<(string, Actions.ItemPatch)>)
    ensures r.None? <==> EditIndex(st).None?
    ensures r.Some? ==>
      && r.value.0 == st.editingId.value
      && r.value.1.image.Keep?
      && r.value.1.name == Actions.SetTo(OrElse(st.editName, st.items[EditIndex(st).value].name))
      && r.value.1.url == Actions.SetTo(NonEmpty(Some(st.editUrl)))
      && r.value.1.price == Actions.SetTo(NonEmpty(Some(st.editPrice)))
  {
    match EditIndex(st)
    case None => None
    case Some(idx) =>
      var updated := Merge(st.items[idx], st.editName, st.editUrl, st.editPrice);
      Some((st.editingId.value, Actions.ItemPatch(Actions.SetTo(updated.name), Actions.SetTo(updated.url),
                                                  Actions.SetTo(updated.price), Actions.Keep)))
  }

  /**
   `handleUpdateItem`: on success only index `idx` changes, to the merged
   item, and editing ends; on failure, or with nothing to edit, nothing changes.
   */
  function HandleUpdateItem(st: EditorState, reply: Reply<()>): (r: EditorState)
    ensures EditIndex(st).None? || reply.Threw? ==> r == st
    ensures EditIndex(st).Some? && reply.Done? ==>
      var idx := EditIndex(st).value;
      && |r.items| == |st.items|
      && r.items[idx] == Merge(st.items[idx], st.editName, st.editUrl, st.editPrice)
      && (forall j :: 0 <= j < |st.items| && j != idx ==> r.items[j] == st.items[j])
      && r.editingId.None? && r.editName == "" && r.editUrl == "" && r.editPrice == ""
    ensures EditIndex(st).Some? && reply.Done? ==>
      r.(items := st.items, editingId := st.editingId, editName := st.editName,
         editUrl := st.editUrl, editPrice := st.editPrice) == st
  {
    match EditIndex(st)
    case None => st
    case Some(idx) =>
      match reply
      case Threw => st
      case Done(_) =>
        var updated := Merge(st.items[idx], st.editName, st.editUrl, st.editPrice);
        CancelEdit(st.(items := st.items[idx := updated]))
  }

  /** The url and price of an entry are never the empty string (null stands for "no value"). */
  predicate Normalised(e: Entry) {
    e.url != Some("") && e.price != Some("")
  }

  /** Opening an item for editing and saving without changes leaves the list as it was. */
  lemma EditRoundTrip(st: EditorState, k: nat)
    requires k < |st.items| && st.items[k].id != [] && Normalised(st.items[k])
    requires forall j :: 0 <= j < k ==> st.items[j].id != st.items[k].id
    ensures HandleUpdateItem(StartEdit(st, st.items[k]), Done(())).items == st.items
  {
    var e := st.items[k];
    var st' := StartEdit(st, e);
    assert EditIndex(st') == Some(k);
    assert Merge(e, st'.editName, st'.editUrl, st'.editPrice) == e;
    assert st.items[k := e] == st.items;
  }

  /** Agreement with the server: the request `handleUpdateItem` sends turns the stored item into the merged entry. */
  lemma UpdateAgreesWithStore(st: EditorState, store: Actions.Store, slug: string)
    requires UpdateRequest(st).Some?
    requires var id := st.editingId.value;
      id in store.items && store.items[id].image == st.items[EditIndex(st).value].image
    ensures var id := st.editingId.value;
      var stored := Actions.UpdateItem(store, id, slug, UpdateRequest(st).value.1).value.items[id];
      var merged := Merge(st.items[EditIndex(st).value], st.editName, st.editUrl, st.editPrice);
      stored.name == merged.name && stored.url == merged.url && stored.price == merged.price
      && stored.image == merged.image
  {
  }

  // ----- PIN -----

  /** What `handleSetPin` sends to `setWishlistPin`: nothing for a PIN shorter than four characters. */
  function SetPinRequest(st: EditorState): (r: Option<string>)
    ensures r.None? <==> |st.newPin| < MinPinLength
    ensures r.Some? ==> r.value == st.newPin
  {
    if |st.newPin| < MinPinLength then None else Some(st.newPin)
  }

  /** `handleSetPin`: the PIN form closes only after a PIN of at least four characters was stored. */
  function HandleSetPin(st: EditorState, reply: Reply<bool>): (r: EditorState)
    ensures r.showPinForm != st.showPinForm ==> SetPinRequest(st).Some? && reply.Done?
    ensures SetPinRequest(st).Some? && reply.Done? ==> !r.showPinForm
    ensures r.(showPinForm := st.showPinForm) == st
  {
    if |st.newPin| < MinPinLength then st
    else
      match reply
      case Done(_) => st.(showPinForm := false)
      case Threw => st
  }

  /** A PIN shorter than four characters is refused before any call, whatever the server would have answered. */
  lemma ShortPinChangesNothing(st: EditorState, reply: Reply<bool>)
    requires |st.newPin| < MinPinLength
    ensures SetPinRequest(st).None?
    ensures HandleSetPin(st, reply) == st
  {
  }

  // ----- AI search -----

  /** The fields of an enrichment result; absent or null fields are `None`. */
  datatype AiFields = AiFields(title: Option<string>, url: Option<string>, price: Option<string>, image: Option<string>)

  /** How the request to the enrichment route ended. */
  datatype AiReply =
    | AiThrown(message: Option<string>)   // fetch or JSON decoding threw; `None` when the value thrown is not an Error
    | AiResponse(ok: bool, error: Option<string>, result: Option<AiFields>)

  /** At least one field of the result is truthy. */
  predicate AnyField(f: AiFields) {
    Truthy(f.title) || Truthy(f.url) || Truthy(f.price) || Truthy(f.image)
  }

  /** Overwrites each form field whose result value is truthy. */
  function MergeAiResult(st: EditorState, f: AiFields): (r: EditorState)
    ensures r.newItemName == (if Truthy(f.title) then f.title.value else st.newItemName)
    ensures r.newItemUrl == (if Truthy(f.url) then f.url.value else st.newItemUrl)
    ensures r.newItemPrice == (if Truthy(f.price) then f.price.value else st.newItemPrice)
    ensures r.newItemImage == (if Truthy(f.image) then f.image else st.newItemImage)
    ensures r.(newItemName := st.newItemName, newItemUrl := st.newItemUrl,
               newItemPrice := st.newItemPrice, newItemImage := st.newItemImage) == st
  {
    st.(newItemName := if Truthy(f.title) then f.title.value else st.newItemName,
        newItemUrl := if Truthy(f.url) then f.url.value else st.newItemUrl,
        newItemPrice := if Truthy(f.price) then f.price.value else st.newItemPrice,
        newItemImage := if Truthy(f.image) then f.image else st.newItemImage)
  }

  /** The four fields of the add-item form. */
  datatype Form = Form(name: string, url: string, price: string, image: Option<string>)

  function FormOf(st: EditorState): Form {
    Form(st.newItemName, st.newItemUrl, st.newItemPrice, st.newItemImage)
  }

  const NoFields := AiFields(None, None, None, None)

  /**
   The end of `handleAiSearch` once a request was sent: a failed request
   shows its error and keeps the form, a result fills the truthy fields and
   shows the success message iff one of them was truthy (else the "nothing
   found" error). A thrown error shows its own message, even an empty one,
   and the fallback text only when what was thrown is not an `Error`.
   Searching has ended in every case, and nothing outside the form and the
   AI status changes.
   */
  function AfterAiReply(st: EditorState, reply: AiReply): (r: EditorState)
    ensures !r.isAiSearching && r.items == st.items
    ensures r.(newItemName := st.newItemName, newItemUrl := st.newItemUrl, newItemPrice := st.newItemPrice,
               newItemImage := st.newItemImage, isAiSearching := st.isAiSearching,
               aiError := st.aiError, aiMessage := st.aiMessage) == st
    ensures reply.AiResponse? ==> (r.aiMessage == AiFilledText <==> r.aiError == "")
    ensures reply.AiResponse? && reply.ok && !Truthy(reply.error) ==>
      && (AnyField(reply.result.GetOr(NoFields)) <==> r.aiMessage == AiFilledText)
      && (!AnyField(reply.result.GetOr(NoFields)) ==> r.aiError == AiNothingText && r.aiMessage == "")
      && FormOf(r) == FormOf(MergeAiResult(st, reply.result.GetOr(NoFields)))
    ensures reply.AiResponse? && (!reply.ok || Truthy(reply.error)) ==>
      && r.aiError == (if Truthy(reply.error) then reply.error.value else AiFailedText)
      && r.aiMessage == ""
      && FormOf(r) == FormOf(st)
    ensures reply.AiThrown? ==>
      && r.aiError == (if reply.message.Some? then reply.message.value else AiNoAnswerText)
      && r.aiMessage == ""
      && FormOf(r) == FormOf(st)
  {
    var cleared := st.(aiError := "", aiMessage := "", isAiSearching := false);
    match reply
    case AiThrown(m) =>
      cleared.(aiError := if m.Some? then m.value else AiNoAnswerText)
    case AiResponse(ok, error, result) =>
      if !ok || Truthy(error) then
        cleared.(aiError := if Truthy(error) then error.value else AiFailedText)
      else
        var f := result.GetOr(NoFields);
        var merged := MergeAiResult(cleared, f);
        if AnyField(f) then merged.(aiMessage := AiFilledText)
        else merged.(aiError := AiNothingText)
  }

  /** `handleAiSearch`: a blank name only shows a hint and sends nothing. */
  function HandleAiSearch(st: EditorState, reply: AiReply): (r: EditorState)
    ensures IsBlank(st.newItemName) ==> r == st.(aiError := EnterNameText)
    ensures !IsBlank(st.newItemName) ==> r == AfterAiReply(st, reply)
  {
    TrimEmptyIffBlank(st.newItemName);
    if Trim(st.newItemName) == [] then st.(aiError := EnterNameText)
    else AfterAiReply(st, reply)
  }
}
