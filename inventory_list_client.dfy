/** The client-side row store of
    `src/components/inventory/InventoryListClient.tsx`: the list of rows the
    table shows, updated in place after each successful PATCH or DELETE.
    The HTTP replies are inputs; each handler returns the request it sent
    and the message of the Error it throws, if any. */
module InventoryListClient {
  import opened Wrappers
  import opened JsValues
  import opened InventoryTypes

  /** The requests the store sends to `/api/inventory/{id}`. */
  datatype Request = Patch(id: string, body: Json) | Delete(id: string)

  /** How a request ends: a 2xx reply with its parsed body; a non-2xx
      reply whose JSON `error` is given (None when absent or not text); or
      a thrown Error (network failure, unparsable body) with its message. */
  datatype Reply<T> = Ok(value: T) | NotOk(error: Option<string>) | Failed(message: string)

  const UpdateError := "Error updating item"
  const DeleteError := "Error deleting item"

  /** The message a failed reply is thrown with. */
  function ThrownMessage<T>(reply: Reply<T>, fallback: string): (m: Option<string>)
    ensures m.None? <==> reply.Ok?
    ensures reply.NotOk? ==> m == Some(StrOr(reply.error, fallback))
    ensures reply.Failed? ==> m == Some(reply.message)
  {
    match reply
    case Ok(_) => None
    case NotOk(e) => Some(StrOr(e, fallback))
    case Failed(m) => Some(m)
  }

  /** `items.map(item => item.id === id ? updated : item)`. */
  function ReplaceById(items: seq<InventoryItem>, id: string, updated: InventoryItem): (r: seq<InventoryItem>)
    ensures |r| == |items|
    ensures forall i :: 0 <= i < |items| ==> r[i] == (if items[i].id == id then updated else items[i])
  {
    if items == [] then [] else [if items[0].id == id then updated else items[0]] + ReplaceById(items[1..], id, updated)
  }

  /** `items.filter(item => item.id !== id)`. */
  function RemoveById(items: seq<InventoryItem>, id: string): (r: seq<InventoryItem>)
    ensures |r| <= |items|
    ensures forall x :: x in r ==> x in items && x.id != id
    ensures forall x: InventoryItem :: x.id != id ==> multiset(r)[x] == multiset(items)[x]
  {
    if items == [] then []
    else
      assert items == [items[0]] + items[1..];
      (if items[0].id == id then [] else [items[0]]) + RemoveById(items[1..], id)
  }

  /** `items.find(i => i.id === id)`: the first row with that id. */
  function FindById(items: seq<InventoryItem>, id: string): (r: Option<InventoryItem>)
    ensures r.None? <==> forall i :: 0 <= i < |items| ==> items[i].id != id
    ensures r.Some? ==> r.value.id == id && r.value in items
  {
    if items == [] then None
    else if items[0].id == id then Some(items[0])
    else FindById(items[1..], id)
  }

  /** The body of the verification toggle: only `confirmado_por`, set to
      the placeholder "pending" when ticked and null when cleared. */
  function ToggleBody(verified: bool): (j: Json)
    ensures j.JObj? && j.fields.Keys == {"confirmado_por"}
    ensures verified ==> j.fields["confirmado_por"] == JStr("pending")
    ensures !verified ==> j.fields["confirmado_por"] == JNull
  {
    JObj(map["confirmado_por" := if verified then JStr("pending") else JNull])
  }

  class ItemList {
    var items: seq<InventoryItem>

    constructor(initialItems: seq<InventoryItem>)
      ensures items == initialItems
    {
      items := initialItems;
    }

    /** `handleUpdate`: PATCH the row; on success every row with that id is
      replaced by the record the server sent back. A failure throws and
      leaves the list as it was. */
    method HandleUpdate(id: string, body: Json, reply: Reply<InventoryItem>) returns (sent: Request, thrown: Option<string>)
      modifies this
      ensures sent == Patch(id, body)
      ensures thrown == ThrownMessage(reply, UpdateError)
      ensures reply.Ok? ==> items == ReplaceById(old(items), id, reply.value)
      ensures !reply.Ok? ==> items == old(items)
    {
      sent := Patch(id, body);
      thrown := ThrownMessage(reply, UpdateError);
      if reply.Ok? {
        items := ReplaceById(items, id, reply.value);
      }
    }

    /** `handleDelete`: DELETE the row; on success every row with that id is
      dropped. A failure throws and leaves the list as it was. */
    method HandleDelete(id: string, reply: Reply<()>) returns (sent: Request, thrown: Option<string>)
      modifies this
      ensures sent == Delete(id)
      ensures thrown == ThrownMessage(reply, DeleteError)
      ensures reply.Ok? ==> items == RemoveById(old(items), id)
      ensures !reply.Ok? ==> items == old(items)
    {
      sent := Delete(id);
      thrown := ThrownMessage(reply, DeleteError);
      if reply.Ok? {
        items := RemoveById(items, id);
      }
    }

    /** `handleToggleVerified`: nothing at all for an id the list does not
      hold; otherwise an update carrying only the new `confirmado_por`. */
    method HandleToggleVerified(id: string, verified: bool, reply: Reply<InventoryItem>)
      returns (sent: Option<Request>, thrown: Option<string>)
      modifies this
      ensures FindById(old(items), id).None? ==> sent.None? && thrown.None? && items == old(items)
      ensures FindById(old(items), id).Some? ==>
        sent == Some(Patch(id, ToggleBody(verified))) && thrown == ThrownMessage(reply, UpdateError)
      ensures FindById(old(items), id).Some? && reply.Ok? ==> items == ReplaceById(old(items), id, reply.value)
      ensures FindById(old(items), id).Some? && !reply.Ok? ==> items == old(items)
    {
      var item := FindById(items, id);
      if item.None? {
        sent := None;
        thrown := None;
        return;
      }
      var request;
      request, thrown := HandleUpdate(id, ToggleBody(verified), reply);
      sent := Some(request);
    }
  }

  // ---------------------------------------------------------------------
  // Properties of the list operations

  /** Rows with another id keep their place and contents across an update. */
  lemma ReplaceKeepsOthers(items: seq<InventoryItem>, id: string, updated: InventoryItem, i: nat)
    requires i < |items| && items[i].id != id
    ensures ReplaceById(items, id, updated)[i] == items[i]
  {
  }

  /** Updating or deleting an id the list does not hold changes nothing. */
  lemma {:induction false} AbsentIdIsNoOp(items: seq<InventoryItem>, id: string, updated: InventoryItem)
    requires forall i :: 0 <= i < |items| ==> items[i].id != id
    ensures ReplaceById(items, id, updated) == items
    ensures RemoveById(items, id) == items
  {
    if items != [] {
      AbsentIdIsNoOp(items[1..], id, updated);
      assert items == [items[0]] + items[1..];
    }
  }

  /** Repeating a successful update or delete with the same answer changes
      nothing more. */
  lemma {:induction false} UpdateAndDeleteIdempotent(items: seq<InventoryItem>, id: string, updated: InventoryItem)
    ensures ReplaceById(ReplaceById(items, id, updated), id, updated) == ReplaceById(items, id, updated)
    ensures RemoveById(RemoveById(items, id), id) == RemoveById(items, id)
  {
    var once := RemoveById(items, id);
    forall i | 0 <= i < |once| ensures once[i].id != id {
      assert once[i] in once;
    }
    AbsentIdIsNoOp(once, id, updated);
  }

  /** Deletion keeps the order of what remains: deleting from two lists
      placed end to end is deleting from each and placing the results end
      to end. */
  lemma {:induction false} RemoveByIdAppend(a: seq<InventoryItem>, b: seq<InventoryItem>, id: string)
    ensures RemoveById(a + b, id) == RemoveById(a, id) + RemoveById(b, id)
  {
    if a == [] {
      assert a + b == b;
    } else {
      var ab := a + b;
      assert ab[0] == a[0];
      assert ab[1..] == a[1..] + b;
      var first := if a[0].id == id then [] else [a[0]];
      RemoveByIdCons(ab, id);
      RemoveByIdCons(a, id);
      RemoveByIdAppend(a[1..], b, id);
      calc {
        RemoveById(ab, id);
        first + RemoveById(a[1..] + b, id);
        first + (RemoveById(a[1..], id) + RemoveById(b, id));
        { AppendAssoc(first, RemoveById(a[1..], id), RemoveById(b, id)); }
        (first + RemoveById(a[1..], id)) + RemoveById(b, id);
        RemoveById(a, id) + RemoveById(b, id);
      }
    }
  }

  lemma AppendAssoc(x: seq<InventoryItem>, y: seq<InventoryItem>, z: seq<InventoryItem>)
    ensures x + (y + z) == (x + y) + z
  {
  }

  lemma RemoveByIdCons(items: seq<InventoryItem>, id: string)
    requires items != []
    ensures RemoveById(items, id) == (if items[0].id == id then [] else [items[0]]) + RemoveById(items[1..], id)
  {
  }

  /** After a delete, no row with that id is left, and the rest are all
      still there, as often as before. */
  lemma DeleteRemovesExactlyThatId(items: seq<InventoryItem>, id: string)
    ensures forall i :: 0 <= i < |RemoveById(items, id)| ==> RemoveById(items, id)[i].id != id
    ensures forall x :: x in items && x.id != id ==> x in RemoveById(items, id)
  {
    var r := RemoveById(items, id);
    forall i | 0 <= i < |r| ensures r[i].id != id {
      assert r[i] in r;
    }
    forall x | x in items && x.id != id ensures x in r {
      assert multiset(r)[x] == multiset(items)[x];
    }
  }

  /** The first row found has the id, and every row before it has another. */
  lemma {:induction false} FindByIdIsFirst(items: seq<InventoryItem>, id: string)
    requires FindById(items, id).Some?
    ensures exists k ::
      0 <= k < |items| && items[k] == FindById(items, id).value && (forall j :: 0 <= j < k ==> items[j].id != id)
  {
    if items[0].id != id {
      FindByIdIsFirst(items[1..], id);
      var k :| 0 <= k < |items[1..]| && items[1..][k] == FindById(items[1..], id).value &&
        (forall j :: 0 <= j < k ==> items[1..][j].id != id);
      assert items[k + 1] == FindById(items, id).value;
      assert forall j :: 0 <= j < k + 1 ==> items[j].id != id by {
        forall j | 0 <= j < k + 1 ensures items[j].id != id {
          if j > 0 { assert items[j] == items[1..][j - 1]; }
        }
      }
    }
  }
}
