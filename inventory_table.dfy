/** The table of `src/components/inventory/InventoryTable.tsx`: what each
    row shows (the count cell, the mismatch highlight, the verification
    cell, the delete button), and the in-flight bookkeeping of its three
    handlers, which call into the row store. The `confirm()` answer is an
    input. */
module InventoryTable {
  import opened Wrappers
  import opened JsValues
  import opened InventoryTypes
  import ListaInventario
  import InventoryListClient
  import EditInventoryModal

  // ---------------------------------------------------------------------
  // What a row shows

  /** `hasBothCounts && item.unidades !== item.unidades_2`. */
  predicate HasCountMismatch(item: InventoryItem) {
    item.unidades.Some? && item.unidades_2.Some? && item.unidades.value != item.unidades_2.value
  }

  /** One count badge: a number, or the dash shown for null. */
  datatype Cell = Count(n: int) | Dash

  function CellOf(count: Option<int>): (c: Cell)
    ensures c.Count? <==> count.Some?
    ensures c.Count? ==> c.n == count.value
  {
    if count.Some? then Count(count.value) else Dash
  }

  /** The count column: admins get both badges and the mismatch badge;
      everybody else gets one badge. */
  datatype CountDisplay = BothCounts(first: Cell, second: Cell, mismatchBadge: bool) | OneCount(shown: Cell)

  function CountDisplayFor(item: InventoryItem, isAdmin: bool): (d: CountDisplay)
    ensures isAdmin <==> d.BothCounts?
    ensures d.BothCounts? ==>
      d.first == CellOf(item.unidades) && d.second == CellOf(item.unidades_2) &&
      (d.mismatchBadge <==> HasCountMismatch(item))
    ensures d.OneCount? && item.unidades.Some? ==> d.shown == Count(item.unidades.value)
    ensures d.OneCount? && item.unidades.None? ==> d.shown == CellOf(item.unidades_2)
  {
    if isAdmin then BothCounts(CellOf(item.unidades), CellOf(item.unidades_2), HasCountMismatch(item))
    else if item.unidades.Some? then OneCount(Count(item.unidades.value))
    else if item.unidades_2.Some? then OneCount(Count(item.unidades_2.value))
    else OneCount(Dash)
  }

  /** The red row background, in both views. */
  predicate RowHighlighted(item: InventoryItem) {
    HasCountMismatch(item)
  }

  /** The verification column: a spinner while a toggle of this row is in
      flight, otherwise the checkbox. */
  datatype VerifyCell = Spinner | Checkbox(checked: bool, disabled: bool)

  function VerifyCellFor(item: InventoryItem, verifyingIds: seq<string>, canVerify: bool): (c: VerifyCell)
    ensures c.Spinner? <==> item.id in verifyingIds
    ensures c.Checkbox? ==> (c.checked <==> item.confirmado_por.Some? && item.confirmado_por.value != "")
    ensures c.Checkbox? ==> (c.disabled <==> !canVerify)
  {
    if item.id in verifyingIds then Spinner
    else Checkbox(StrOr(item.confirmado_por, "") != "", !canVerify)
  }

  /** The "Contado 2" line of the attribution column appears only for a
      non-empty second counter. */
  predicate ShowsSecondCounter(item: InventoryItem) {
    item.contado_por_2.Some? && item.contado_por_2.value != ""
  }

  /** `editingItem.contado_por === currentUserEmail`, handed to the dialog. */
  predicate IsCreator(item: InventoryItem, currentUserEmail: string) {
    item.contado_por == currentUserEmail
  }

  /** The delete button is disabled while that row's delete is running. */
  predicate DeleteDisabled(item: InventoryItem, deletingId: Option<string>) {
    deletingId == Some(item.id)
  }

  // ---------------------------------------------------------------------
  // In-flight bookkeeping

  predicate NoDuplicates(s: seq<string>) {
    forall i, j :: 0 <= i < j < |s| ==> s[i] != s[j]
  }

  /** `ids.filter(x => x !== id)`. */
  function Without(ids: seq<string>, id: string): (r: seq<string>)
    ensures id !in r
    ensures forall x :: x != id ==> (x in r <==> x in ids)
    ensures NoDuplicates(ids) ==> NoDuplicates(r)
  {
    if ids == [] then []
    else if ids[0] == id then Without(ids[1..], id)
    else
      var rest := Without(ids[1..], id);
      assert NoDuplicates(ids) ==> ids[0] !in ids[1..] by {
        if NoDuplicates(ids) {
          forall j | 0 <= j < |ids[1..]| ensures ids[1..][j] != ids[0] {
            assert ids[1..][j] == ids[j + 1];
          }
        }
      }
      [ids[0]] + rest
  }

  class TableState {
    var editingItem: Option<InventoryItem>
    var deletingId: Option<string>
    var verifyingIds: seq<string>

    /** Each id is in flight at most once. */
    predicate Valid()
      reads this
    {
      NoDuplicates(verifyingIds)
    }

    constructor()
      ensures Valid()
      ensures editingItem.None? && deletingId.None? && verifyingIds == []
    {
      editingItem := None;
      deletingId := None;
      verifyingIds := [];
    }

    /** The start of `handleVerifyToggle`: ignored while the id is in
      flight, otherwise the id is added. */
    method BeginVerifyToggle(id: string) returns (started: bool)
      requires Valid()
      modifies this
      ensures Valid()
      ensures started <==> id !in old(verifyingIds)
      ensures verifyingIds == if started then old(verifyingIds) + [id] else old(verifyingIds)
      ensures editingItem == old(editingItem) && deletingId == old(deletingId)
    {
      if id in verifyingIds {
        started := false;
        return;
      }
      verifyingIds := verifyingIds + [id];
      started := true;
    }

    /** The `finally` of `handleVerifyToggle`: that id leaves the in-flight
      list and every other id stays. */
    method EndVerifyToggle(id: string)
      requires Valid()
      modifies this
      ensures Valid()
      ensures verifyingIds == Without(old(verifyingIds), id)
      ensures editingItem == old(editingItem) && deletingId == old(deletingId)
    {
      verifyingIds := Without(verifyingIds, id);
    }

    /** `handleVerifyToggle` run to completion against the row store: the
      store sees the toggle only when the id was not already in flight,
      and afterwards the in-flight list is what it was. */
    method HandleVerifyToggle(list: InventoryListClient.ItemList, id: string, verified: bool,
                              reply: InventoryListClient.Reply<InventoryItem>)
      returns (sent: Option<InventoryListClient.Request>, thrown: Option<string>)
      requires Valid()
      modifies this, list
      ensures Valid()
      ensures verifyingIds == old(verifyingIds)
      ensures id in old(verifyingIds) ==> sent.None? && thrown.None? && list.items == old(list.items)
      ensures id !in old(verifyingIds) && InventoryListClient.FindById(old(list.items), id).None? ==>
        sent.None? && thrown.None? && list.items == old(list.items)
      ensures id !in old(verifyingIds) && InventoryListClient.FindById(old(list.items), id).Some? ==>
        sent == Some(InventoryListClient.Patch(id, InventoryListClient.ToggleBody(verified))) &&
        thrown == InventoryListClient.ThrownMessage(reply, InventoryListClient.UpdateError)
      ensures id !in old(verifyingIds) && InventoryListClient.FindById(old(list.items), id).Some? && reply.Ok? ==>
        list.items == InventoryListClient.ReplaceById(old(list.items), id, reply.value)
      ensures !reply.Ok? ==> list.items == old(list.items)
      ensures editingItem == old(editingItem) && deletingId == old(deletingId)
    {
      var started := BeginVerifyToggle(id);
      if !started {
        sent, thrown := None, None;
        return;
      }
      sent, thrown := list.HandleToggleVerified(id, verified, reply);
      EndVerifyToggle(id);
      WithoutAppended(old(verifyingIds), id);
    }

    /** The start of `handleDelete`: after a confirmed `confirm()` the one
      `deletingId` slot takes the id, whatever delete was running before;
      a declined confirmation does nothing. */
    method BeginDelete(id: string, confirmed: bool) returns (started: bool)
      requires Valid()
      modifies this
      ensures Valid()
      ensures started == confirmed
      ensures confirmed ==> deletingId == Some(id)
      ensures !confirmed ==> deletingId == old(deletingId)
      ensures editingItem == old(editingItem) && verifyingIds == old(verifyingIds)
    {
      started := confirmed;
      if confirmed {
        deletingId := Some(id);
      }
    }

    /** The awaited `onDelete(id)` and its `finally`: the store's delete
      runs, and the slot is emptied, even when it holds another row's id. */
    method EndDelete(list: InventoryListClient.ItemList, id: string, reply: InventoryListClient.Reply<()>)
      returns (sent: InventoryListClient.Request, thrown: Option<string>)
      requires Valid()
      modifies this, list
      ensures Valid()
      ensures sent == InventoryListClient.Delete(id)
      ensures thrown == InventoryListClient.ThrownMessage(reply, InventoryListClient.DeleteError)
      ensures reply.Ok? ==> list.items == InventoryListClient.RemoveById(old(list.items), id)
      ensures !reply.Ok? ==> list.items == old(list.items)
      ensures deletingId.None?
      ensures editingItem == old(editingItem) && verifyingIds == old(verifyingIds)
    {
      sent, thrown := list.HandleDelete(id, reply);
      deletingId := None;
    }

    /** `handleDelete` run to completion with no other delete in between:
      a declined confirmation does nothing; otherwise the DELETE is sent,
      and the row's button is enabled again whatever the outcome. */
    method HandleDelete(list: InventoryListClient.ItemList, id: string, confirmed: bool,
                        reply: InventoryListClient.Reply<()>)
      returns (sent: Option<InventoryListClient.Request>, thrown: Option<string>)
      requires Valid()
      modifies this, list
      ensures Valid()
      ensures !confirmed ==> sent.None? && thrown.None? && list.items == old(list.items) && deletingId == old(deletingId)
      ensures confirmed ==> sent == Some(InventoryListClient.Delete(id)) && deletingId.None?
      ensures confirmed ==> thrown == InventoryListClient.ThrownMessage(reply, InventoryListClient.DeleteError)
      ensures confirmed && reply.Ok? ==> list.items == InventoryListClient.RemoveById(old(list.items), id)
      ensures confirmed && !reply.Ok? ==> list.items == old(list.items) && thrown.Some?
      ensures editingItem == old(editingItem) && verifyingIds == old(verifyingIds)
    {
      var started := BeginDelete(id, confirmed);
      if !started {
        sent, thrown := None, None;
        return;
      }
      var request;
      request, thrown := EndDelete(list, id, reply);
      sent := Some(request);
    }

    /** The pencil button of a row. */
    method OpenEdit(item: InventoryItem)
      requires Valid()
      modifies this
      ensures Valid()
      ensures editingItem == Some(item)
      ensures deletingId == old(deletingId) && verifyingIds == old(verifyingIds)
    {
      editingItem := Some(item);
    }

    /** The dialog's `onClose`. */
    method CloseEdit()
      requires Valid()
      modifies this
      ensures Valid()
      ensures editingItem.None?
      ensures deletingId == old(deletingId) && verifyingIds == old(verifyingIds)
    {
      editingItem := None;
    }

    /** `handleSaveEdit`: send the dialog's data as an update of the row
      being edited; the dialog closes only when the update succeeded, and
      a failure propagates to the dialog with the dialog still open. */
    method HandleSaveEdit(list: InventoryListClient.ItemList, data: Json,
                          reply: InventoryListClient.Reply<InventoryItem>)
      returns (sent: Option<InventoryListClient.Request>, thrown: Option<string>)
      requires Valid()
      modifies this, list
      ensures Valid()
      ensures old(editingItem).None? ==> sent.None? && thrown.None? && list.items == old(list.items)
      ensures old(editingItem).Some? ==>
        sent == Some(InventoryListClient.Patch(old(editingItem).value.id, data)) &&
        thrown == InventoryListClient.ThrownMessage(reply, InventoryListClient.UpdateError)
      ensures old(editingItem).Some? && reply.Ok? ==>
        list.items == InventoryListClient.ReplaceById(old(list.items), old(editingItem).value.id, reply.value)
      ensures !reply.Ok? ==> list.items == old(list.items)
      ensures thrown.None? ==> editingItem.None?
      ensures thrown.Some? ==> editingItem == old(editingItem)
      ensures deletingId == old(deletingId) && verifyingIds == old(verifyingIds)
    {
      if editingItem.None? {
        sent, thrown := None, None;
        return;
      }
      var request;
      request, thrown := list.HandleUpdate(editingItem.value.id, data, reply);
      sent := Some(request);
      if thrown.None? {
        editingItem := None;
      }
    }

    /** The edit path end to end: the dialog, open on the row being edited,
      hands its form to `handleSaveEdit`; the PATCH carries that form as
      the dialog serialises it, a failure is shown in the dialog, and the
      dialog is closed only when the update went through. */
    method SaveFromDialog(modal: EditInventoryModal.EditModal, list: InventoryListClient.ItemList,
                          reply: InventoryListClient.Reply<InventoryItem>)
      returns (sent: Option<InventoryListClient.Request>, thrown: Option<string>)
      requires Valid() && editingItem == Some(modal.item)
      modifies this, list, modal
      ensures Valid()
      ensures sent == Some(InventoryListClient.Patch(modal.item.id, EditInventoryModal.EditJson(old(modal.formData))))
      ensures thrown == InventoryListClient.ThrownMessage(reply, InventoryListClient.UpdateError)
      ensures reply.Ok? ==> list.items == InventoryListClient.ReplaceById(old(list.items), modal.item.id, reply.value)
      ensures !reply.Ok? ==> list.items == old(list.items)
      ensures reply.Ok? ==> editingItem.None? && modal.error.None?
      ensures !reply.Ok? ==> editingItem == old(editingItem) && modal.error == thrown
      ensures !modal.isSaving && modal.formData == old(modal.formData)
      ensures deletingId == old(deletingId) && verifyingIds == old(verifyingIds)
    {
      var form := modal.BeginSubmit();
      sent, thrown := HandleSaveEdit(list, EditInventoryModal.EditJson(form), reply);
      var outcome := if thrown.None? then EditInventoryModal.Saved else EditInventoryModal.SaveFailed(thrown);
      modal.FinishSubmit(outcome);
    }
  }

  /** Two overlapping deletes share the one slot: starting the delete of
      row b re-enables row a's button while a's DELETE still runs, and a's
      `finally` re-enables b's button while b's DELETE still runs. */
  method OverlappingDeletes(a: InventoryItem, b: InventoryItem, rows: seq<InventoryItem>,
                            replyA: InventoryListClient.Reply<()>)
    returns (aDisabledAtStart: bool, aDisabledDuringB: bool, bDisabledAfterA: bool)
    requires a.id != b.id
    ensures aDisabledAtStart && !aDisabledDuringB && !bDisabledAfterA
  {
    var table := new TableState();
    var list := new InventoryListClient.ItemList(rows);
    var startedA := table.BeginDelete(a.id, true);
    aDisabledAtStart := DeleteDisabled(a, table.deletingId);
    var startedB := table.BeginDelete(b.id, true);
    aDisabledDuringB := DeleteDisabled(a, table.deletingId);
    var sentA, thrownA := table.EndDelete(list, a.id, replyA);
    // b's EndDelete has not run: its DELETE is still awaited.
    bDisabledAfterA := DeleteDisabled(b, table.deletingId);
  }

  /** Adding an id that was not in flight and then removing it gives the
      list back. */
  lemma {:induction false} WithoutAppended(ids: seq<string>, id: string)
    requires id !in ids
    ensures Without(ids + [id], id) == ids
  {
    if ids == [] {
      assert [] + [id] == [id];
    } else {
      assert (ids + [id])[0] == ids[0];
      assert (ids + [id])[1..] == ids[1..] + [id];
      WithoutAppended(ids[1..], id);
      assert ids == [ids[0]] + ids[1..];
    }
  }

  /** Finishing one toggle keeps every other in-flight id in its place. */
  lemma {:induction false} WithoutKeepsOrder(a: seq<string>, b: seq<string>, id: string)
    ensures Without(a + b, id) == Without(a, id) + Without(b, id)
  {
    if a == [] {
      assert a + b == b;
    } else {
      assert (a + b)[0] == a[0];
      assert (a + b)[1..] == a[1..] + b;
      WithoutKeepsOrder(a[1..], b, id);
    }
  }

  // ---------------------------------------------------------------------
  // Properties of what a row shows

  /** A null count never mismatches, and the mismatch does not depend on
      which count is which. */
  lemma MismatchNeedsBothCounts(item: InventoryItem)
    ensures item.unidades.None? || item.unidades_2.None? ==> !HasCountMismatch(item)
    ensures HasCountMismatch(item) <==>
      HasCountMismatch(item.(unidades := item.unidades_2, unidades_2 := item.unidades))
  {
  }

  /** On the list page a non-admin's one badge shows a count that viewer
      recorded, or the dash; and their row is red only when they recorded
      both counts themselves. */
  lemma NonAdminSeesOnlyOwnCount(email: string, item: InventoryItem)
    ensures var shown := CountDisplayFor(ListaInventario.MaskCounts(email, item), false).shown;
      shown.Count? ==>
        (item.contado_por == email && item.unidades == Some(shown.n)) ||
        (item.contado_por_2 == Some(email) && item.unidades_2 == Some(shown.n))
    ensures RowHighlighted(ListaInventario.MaskCounts(email, item)) ==>
      item.contado_por == email && item.contado_por_2 == Some(email)
  {
  }

  /** The creator of a row, viewing it as a non-admin, sees the first count
      in the badge. */
  lemma CreatorSeesFirstCount(email: string, item: InventoryItem)
    requires IsCreator(item, email) && item.unidades.Some?
    ensures CountDisplayFor(ListaInventario.MaskCounts(email, item), false) == OneCount(Count(item.unidades.value))
  {
  }

  /** Two counters disagree on a row: each non-admin sees only the count
      they entered, and an admin sees both and the mismatch. */
  lemma DualCountScenario(row: InventoryItem)
    requires row.contado_por == "alice" && row.unidades == Some(10)
    requires row.contado_por_2 == Some("bob") && row.unidades_2 == Some(9)
    ensures var bobView := ListaInventario.MaskCounts("bob", row);
      bobView.unidades.None? && bobView.unidades_2 == Some(9) && CountDisplayFor(bobView, false) == OneCount(Count(9))
    ensures var aliceView := ListaInventario.MaskCounts("alice", row);
      aliceView.unidades == Some(10) && aliceView.unidades_2.None? && CountDisplayFor(aliceView, false) == OneCount(Count(10))
    ensures CountDisplayFor(row, true) == BothCounts(Count(10), Count(9), true) && RowHighlighted(row)
    ensures !RowHighlighted(ListaInventario.MaskCounts("bob", row))
  {
  }

  /** A row being toggled shows the spinner instead of the checkbox; once it
      is no longer in flight, the checkbox is back, ticked exactly for a
      non-empty verifier. */
  lemma VerifyCellAfterToggle(item: InventoryItem, ids: seq<string>, canVerify: bool)
    ensures VerifyCellFor(item, ids + [item.id], canVerify) == Spinner
    ensures VerifyCellFor(item, Without(ids, item.id), canVerify) ==
      Checkbox(item.confirmado_por.Some? && item.confirmado_por.value != "", !canVerify)
  {
  }
}
