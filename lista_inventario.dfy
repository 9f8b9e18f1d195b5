/** `getInventoryAndUser` of `src/app/lista-inventario/page.tsx`: the list
    page loads the identity and the stored rows together and hides, from
    anyone who is not an admin, every count that somebody else recorded
    (blind double entry). The identity lookup and the store query are
    inputs; the label next to the email is `RoleFormat.RoleDisplay`. */
module ListaInventario {
  import opened Wrappers
  import opened InventoryTypes
  import opened Auth

  /** What the page renders from: the visible rows and the identity fields. */
  datatype PageData = PageData(
    items: seq<InventoryItem>,
    email: string,
    isAdmin: bool,
    canVerify: bool,
    roleName: string)

  /** The page when anything in the loading step threw. */
  const GuestPage := PageData([], "Unknown", false, false, "viewer")

  /** The row as a non-admin with this email sees it: each count survives
      only for the person recorded as its counter. */
  function MaskCounts(email: string, item: InventoryItem): (r: InventoryItem)
    ensures SameExceptCounts(item, r)
    ensures r.unidades.Some? ==> item.contado_por == email
    ensures r.unidades_2.Some? ==> item.contado_por_2 == Some(email)
    ensures item.contado_por == email ==> r.unidades == item.unidades
    ensures item.contado_por_2 == Some(email) ==> r.unidades_2 == item.unidades_2
  {
    item.(
      unidades := if item.contado_por == email then item.unidades else None,
      unidades_2 := if item.contado_por_2 == Some(email) then item.unidades_2 else None)
  }

  /** `items.map(item => ({ ...item, unidades: …, unidades_2: … }))`. */
  function MaskAll(email: string, items: seq<InventoryItem>): (r: seq<InventoryItem>)
    ensures |r| == |items|
    ensures forall i :: 0 <= i < |items| ==> r[i] == MaskCounts(email, items[i])
  {
    if items == [] then [] else [MaskCounts(email, items[0])] + MaskAll(email, items[1..])
  }

  /** The rows the viewer is shown. Admins get them unchanged; for everybody
      else the list keeps its length, its order and every column but the
      counts, and a count is kept exactly when the viewer recorded it. */
  function VisibleItems(viewer: CurrentUser, items: seq<InventoryItem>): (r: seq<InventoryItem>)
    ensures |r| == |items|
    ensures viewer.isAdmin ==> r == items
    ensures forall i :: 0 <= i < |items| ==> SameExceptCounts(items[i], r[i])
    ensures !viewer.isAdmin ==> forall i :: 0 <= i < |items| ==>
      r[i].unidades == (if items[i].contado_por == viewer.email then items[i].unidades else None)
    ensures !viewer.isAdmin ==> forall i :: 0 <= i < |items| ==>
      r[i].unidades_2 == (if items[i].contado_por_2 == Some(viewer.email) then items[i].unidades_2 else None)
  {
    if viewer.isAdmin then items else MaskAll(viewer.email, items)
  }

  /** `getInventoryAndUser`. `identity` is None when `getCurrentUser` threw;
      `reply` is the inventory query, whose `data` may be null. */
  function GetInventoryAndUser(identity: Option<CurrentUser>, reply: StoreReply<Option<seq<InventoryItem>>>): (p: PageData)
    ensures identity.None? || reply.Threw? ==> p == GuestPage
    ensures identity.Some? && !reply.Threw? ==>
      p.email == identity.value.email && p.isAdmin == identity.value.isAdmin &&
      p.canVerify == identity.value.canVerify && p.roleName == identity.value.roleName
    ensures reply.Error? ==> p.items == []
    ensures identity.Some? && reply.Data? ==> p.items == VisibleItems(identity.value, reply.data.GetOr([]))
    ensures identity.Some? && reply.Data? ==> |p.items| == |reply.data.GetOr([])|
    ensures identity.Some? && reply.Data? && reply.data.None? ==> p.items == []
  {
    match (identity, reply)
    case (None, _) => GuestPage
    case (_, Threw) => GuestPage
    case (Some(u), Error(_)) => PageData([], u.email, u.isAdmin, u.canVerify, u.roleName)
    case (Some(u), Data(data)) => PageData(VisibleItems(u, data.GetOr([])), u.email, u.isAdmin, u.canVerify, u.roleName)
  }

  // ---------------------------------------------------------------------
  // Properties

  /** Masking twice is masking once. */
  lemma {:induction false} VisibleItemsIdempotent(viewer: CurrentUser, items: seq<InventoryItem>)
    ensures VisibleItems(viewer, VisibleItems(viewer, items)) == VisibleItems(viewer, items)
  {
    var once := VisibleItems(viewer, items);
    var twice := VisibleItems(viewer, once);
    forall i | 0 <= i < |items|
      ensures twice[i] == once[i]
    {
      if !viewer.isAdmin {
        assert twice[i] == MaskCounts(viewer.email, once[i]);
      }
    }
  }

  /** The filter keeps the newest-first order in which the rows arrive. */
  lemma VisibleItemsKeepsOrder(viewer: CurrentUser, items: seq<InventoryItem>)
    requires NewestFirst(items)
    ensures NewestFirst(VisibleItems(viewer, items))
  {
    var r := VisibleItems(viewer, items);
    assert forall i :: 0 <= i < |items| ==> r[i].created_at == items[i].created_at;
  }

  /** Whatever the lookups return, a page rendered for a non-admin never
      carries a count recorded by anybody other than the page's own user. */
  lemma PageHidesForeignCounts(identity: Option<CurrentUser>, reply: StoreReply<Option<seq<InventoryItem>>>, i: nat)
    requires var p := GetInventoryAndUser(identity, reply); !p.isAdmin && i < |p.items|
    ensures var p := GetInventoryAndUser(identity, reply);
      reply.Data? && reply.data.Some? && i < |reply.data.value| &&
      (p.items[i].unidades.Some? ==> p.items[i].contado_por == p.email) &&
      (p.items[i].unidades_2.Some? ==> p.items[i].contado_por_2 == Some(p.email))
  {
  }

  /** A page rendered for a non-admin shows each count its user recorded. */
  lemma PageShowsOwnCounts(u: CurrentUser, rows: seq<InventoryItem>, i: nat)
    requires i < |rows|
    ensures var p := GetInventoryAndUser(Some(u), Data(Some(rows)));
      (rows[i].contado_por == u.email ==> p.items[i].unidades == rows[i].unidades) &&
      (rows[i].contado_por_2 == Some(u.email) ==> p.items[i].unidades_2 == rows[i].unidades_2)
  {
  }

  /** End to end from the session: a signed-in counter with an email and a
      role below the admin level sees a row's first count exactly when that
      row was counted under their own email. */
  lemma SignedInCounterSeesOwnCounts(su: SessionUser, role: Option<Role>, rows: seq<InventoryItem>, i: nat)
    requires su.email.Some? && su.email.value != ""
    requires !GetCurrentUser(Some(su), role).isAdmin && i < |rows|
    ensures var p := GetInventoryAndUser(Some(GetCurrentUser(Some(su), role)), Data(Some(rows)));
      p.email == su.email.value &&
      (rows[i].contado_por == su.email.value ==> p.items[i].unidades == rows[i].unidades) &&
      (rows[i].contado_por != su.email.value ==> p.items[i].unidades.None?)
  {
  }

  /** A store error keeps the real identity and empties the list; a throw
      falls back to the guest identity. */
  lemma ErrorFallbacks(u: CurrentUser, message: string)
    ensures GetInventoryAndUser(Some(u), Error(message)) ==
      PageData([], u.email, u.isAdmin, u.canVerify, u.roleName)
    ensures GetInventoryAndUser(Some(u), Threw) == PageData([], "Unknown", false, false, "viewer")
    ensures GetInventoryAndUser(None, Data(Some([]))) == PageData([], "Unknown", false, false, "viewer")
  {
  }
}
