/** The legacy collection handlers of `src/app/api/inventory/route.ts`.
    The parsed request body and the store's replies are inputs. POST checks
    the three required fields, builds the row to insert and stamps every
    attribution with the fixed user name "Admin". */
module InventoryRoute {
  import opened Wrappers
  import opened JsValues
  import opened InventoryTypes
  import opened Http

  /** The hard-coded attribution the legacy handler uses. */
  const CurrentUserName := "Admin"

  /** `GET`: the stored rows as they came (the store sorts them by
      `created_at`, newest first), or a 500. */
  function Get(reply: StoreReply<Json>): (r: Response)
    ensures reply.Data? <==> r.status == 200
    ensures reply.Data? ==> r.body == reply.data
    ensures reply.Error? ==> r == Response(500, ErrorBody(reply.message))
    ensures reply.Threw? ==> r == Response(500, ErrorBody("Error fetching inventory"))
  {
    match reply
    case Data(d) => Response(200, d)
    case Error(m) => Response(500, ErrorBody(m))
    case Threw => Response(500, ErrorBody("Error fetching inventory"))
  }

  /** The row POST sends to the store. The three request fields are passed
      through as they came; `confirmacion` falls back to `false`. */
  datatype NewRow = NewRow(
    etiquetado: Json,
    ubicacion: Json,
    unidades: Json,
    confirmacion: Json,
    etiquetado_por: string,
    ubicado_por: string,
    contado_por: string,
    confirmado_por: Option<string>)

  /** What a POST did: the row it asked the store to insert, if any, and
      the response it returned. */
  datatype PostOutcome = PostOutcome(inserted: Option<NewRow>, response: Response)

  /** `!etiquetado || !ubicacion || unidades === undefined` fails: both text
      fields truthy and a count present (any value, `0` and `null` too). */
  predicate HasRequiredFields(body: Json) {
    TruthyOpt(Prop(body, "etiquetado")) && TruthyOpt(Prop(body, "ubicacion")) && Prop(body, "unidades").Some?
  }

  /** The insert payload built from an accepted body. */
  function RowFor(body: Json): (row: NewRow)
    requires HasRequiredFields(body)
    ensures Some(row.etiquetado) == Prop(body, "etiquetado") && Truthy(row.etiquetado)
    ensures Some(row.ubicacion) == Prop(body, "ubicacion") && Truthy(row.ubicacion)
    ensures Some(row.unidades) == Prop(body, "unidades")
    ensures row.etiquetado_por == CurrentUserName && row.ubicado_por == CurrentUserName
    ensures row.contado_por == CurrentUserName
    ensures row.confirmado_por == Some(CurrentUserName) <==> TruthyOpt(Prop(body, "confirmacion"))
    ensures row.confirmado_por.None? <==> !TruthyOpt(Prop(body, "confirmacion"))
    ensures Truthy(row.confirmacion) <==> TruthyOpt(Prop(body, "confirmacion"))
    ensures TruthyOpt(Prop(body, "confirmacion")) ==> Some(row.confirmacion) == Prop(body, "confirmacion")
    ensures !TruthyOpt(Prop(body, "confirmacion")) ==> row.confirmacion == JBool(false)
  {
    var confirmacion := Prop(body, "confirmacion");
    NewRow(
      etiquetado := Prop(body, "etiquetado").value,
      ubicacion := Prop(body, "ubicacion").value,
      unidades := Prop(body, "unidades").value,
      confirmacion := if TruthyOpt(confirmacion) then confirmacion.value else JBool(false),
      etiquetado_por := CurrentUserName,
      ubicado_por := CurrentUserName,
      contado_por := CurrentUserName,
      confirmado_por := if TruthyOpt(confirmacion) then Some(CurrentUserName) else None)
  }

  /** `POST`. `body` is None when `request.json()` failed; destructuring a
      `null` body throws as well. `insert` is the store's answer to the
      insert, used only when one is made. */
  function Post(body: Option<Json>, insert: StoreReply<Json>): (o: PostOutcome)
    ensures o.inserted.Some? <==> body.Some? && body.value != JNull && HasRequiredFields(body.value)
    ensures o.inserted.Some? ==> o.inserted.value == RowFor(body.value)
    ensures body.None? || body == Some(JNull) ==>
      o.response == Response(500, ErrorBody("Error creating inventory item"))
    ensures body.Some? && body.value != JNull && !HasRequiredFields(body.value) ==>
      o.response == Response(400, ErrorBody("Missing required fields"))
    ensures o.inserted.Some? && insert.Data? ==> o.response == Response(201, insert.data)
    ensures o.inserted.Some? && insert.Error? ==> o.response == Response(500, ErrorBody(insert.message))
    ensures o.inserted.Some? && insert.Threw? ==>
      o.response == Response(500, ErrorBody("Error creating inventory item"))
    ensures o.response.status == 201 <==> o.inserted.Some? && insert.Data?
    ensures o.response.status in {201, 400, 500}
  {
    match body
    case None => PostOutcome(None, Response(500, ErrorBody("Error creating inventory item")))
    case Some(b) =>
      if b == JNull then PostOutcome(None, Response(500, ErrorBody("Error creating inventory item")))
      else if !HasRequiredFields(b) then PostOutcome(None, Response(400, ErrorBody("Missing required fields")))
      else
        var row := RowFor(b);
        match insert
        case Data(d) => PostOutcome(Some(row), Response(201, d))
        case Error(m) => PostOutcome(Some(row), Response(500, ErrorBody(m)))
        case Threw => PostOutcome(Some(row), Response(500, ErrorBody("Error creating inventory item")))
  }

  // ---------------------------------------------------------------------
  // Properties

  /** A body with the three fields. */
  function Body(etiquetado: Json, ubicacion: Json, unidades: Json): (j: Json)
    ensures Prop(j, "etiquetado") == Some(etiquetado) && Prop(j, "ubicacion") == Some(ubicacion)
    ensures Prop(j, "unidades") == Some(unidades)
  {
    JObj(map["etiquetado" := etiquetado, "ubicacion" := ubicacion, "unidades" := unidades])
  }

  /** The body built from two texts and a count passes the server check
      exactly when both texts are non-empty, whatever the count. */
  lemma BodyRequired(etiquetado: string, ubicacion: string, unidades: Json)
    ensures HasRequiredFields(Body(JStr(etiquetado), JStr(ubicacion), unidades)) <==> etiquetado != "" && ubicacion != ""
  {
  }

  /** A count of zero, and even a null count, passes the server check (only
      an absent count is refused), while an empty tag or location is refused
      and nothing is inserted. */
  lemma ServerCountRule(insert: StoreReply<Json>)
    ensures Post(Some(Body(JStr("E-1"), JStr("A1"), JNum(0))), insert).inserted.Some?
    ensures Post(Some(Body(JStr("E-1"), JStr("A1"), JNull)), insert).inserted.Some?
    ensures Post(Some(Body(JStr(""), JStr("A1"), JNum(5))), insert) ==
      PostOutcome(None, Response(400, ErrorBody("Missing required fields")))
    ensures Post(Some(Body(JStr("E-1"), JStr(""), JNum(5))), insert).response.status == 400
    ensures Post(Some(JObj(map["etiquetado" := JStr("E-1"), "ubicacion" := JStr("A1")])), insert).response.status == 400
  {
    BodyRequired("E-1", "A1", JNum(0));
    BodyRequired("E-1", "A1", JNull);
    BodyRequired("", "A1", JNum(5));
    BodyRequired("E-1", "", JNum(5));
    var noCount := JObj(map["etiquetado" := JStr("E-1"), "ubicacion" := JStr("A1")]);
    assert "unidades" !in noCount.fields;
  }

  /** Whatever the request says about who did the work, every attribution
      of the inserted row is "Admin", and it is verified exactly when the
      request asked for confirmation. */
  lemma StampsAreFixed(body: Json, insert: StoreReply<Json>, someone: string)
    requires HasRequiredFields(body)
    ensures var o := Post(Some(body.(fields := body.fields["contado_por" := JStr(someone)])), insert);
      o.inserted.Some? && o.inserted.value.contado_por == "Admin" &&
      o.inserted.value.etiquetado_por == "Admin" && o.inserted.value.ubicado_por == "Admin"
  {
    var b := body.(fields := body.fields["contado_por" := JStr(someone)]);
    assert Prop(b, "etiquetado") == Prop(body, "etiquetado");
    assert Prop(b, "ubicacion") == Prop(body, "ubicacion");
    assert Prop(b, "unidades") == Prop(body, "unidades");
  }

  /** A body that is not an object has none of the fields, so it gets 400. */
  lemma NonObjectBodyIsMissingFields(v: Json, insert: StoreReply<Json>)
    requires !v.JObj? && v != JNull
    ensures Post(Some(v), insert) == PostOutcome(None, Response(400, ErrorBody("Missing required fields")))
  {
  }
}
