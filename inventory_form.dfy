/** The create form of `src/components/inventory/InventoryForm.tsx`: its
    field updates, its validity rule and the life cycle of a submission.
    The POST itself is an input (its reply), and the 3-second timer that
    hides the success banner is an event. */
module InventoryForm {
  import opened Wrappers
  import opened JsValues
  import opened InventoryTypes
  import InventoryRoute

  /** `initialFormData`. */
  const InitialFormData := InventoryFormData("", "", 0)

  /** `isFormValid`: both text fields have a visible character after
      trimming and the count is positive. */
  predicate IsFormValid(f: InventoryFormData) {
    Trim(f.etiquetado) != "" && Trim(f.ubicacion) != "" && f.unidades > 0
  }

  /** The inputs wired to `handleChange`: the location text box and the
      count number box. The tag goes through `handleEtiquetadoChange`. */
  datatype FormInput = UbicacionInput | UnidadesInput

  /** The form after `handleChange` on `input` with the raw text `raw`: only
      the named field changes; the count becomes `parseInt(raw) || 0`. */
  function WithInput(f: InventoryFormData, input: FormInput, raw: string): (g: InventoryFormData)
    ensures g.etiquetado == f.etiquetado
    ensures input.UbicacionInput? ==> g == f.(ubicacion := raw)
    ensures input.UnidadesInput? ==> g.ubicacion == f.ubicacion && g.unidades == NumberInputValue(raw)
  {
    match input
    case UbicacionInput => f.(ubicacion := raw)
    case UnidadesInput => f.(unidades := NumberInputValue(raw))
  }

  /** The JSON the form posts: `JSON.stringify(formData)`. */
  function FormJson(f: InventoryFormData): (j: Json)
    ensures j.JObj? && j.fields.Keys == {"etiquetado", "ubicacion", "unidades"}
    ensures j.fields["etiquetado"] == JStr(f.etiquetado) && j.fields["ubicacion"] == JStr(f.ubicacion)
    ensures j.fields["unidades"] == JNum(f.unidades)
  {
    JObj(map["etiquetado" := JStr(f.etiquetado), "ubicacion" := JStr(f.ubicacion), "unidades" := JNum(f.unidades)])
  }

  /** The submit button is disabled while the form is invalid or a
      submission is running. */
  predicate SubmitDisabled(f: InventoryFormData, isSubmitting: bool) {
    !IsFormValid(f) || isSubmitting
  }

  /** How a submission ends: a 2xx reply; a non-2xx reply whose JSON has
      `error` (None when it is absent or not text); or a thrown Error (the
      request failing, or the error reply not being JSON) with its message. */
  datatype SubmitReply = Created | Rejected(error: Option<string>) | Failed(message: string)

  const DefaultSubmitError := "Error al guardar el registro"

  class CreateForm {
    var formData: InventoryFormData
    var isSubmitting: bool
    var submitSuccess: bool
    var error: Option<string>

    constructor()
      ensures formData == InitialFormData && !isSubmitting && !submitSuccess && error.None?
    {
      formData := InitialFormData;
      isSubmitting := false;
      submitSuccess := false;
      error := None;
    }

    /** `handleChange`. */
    method HandleChange(input: FormInput, raw: string)
      modifies this
      ensures formData == WithInput(old(formData), input, raw)
      ensures isSubmitting == old(isSubmitting) && submitSuccess == old(submitSuccess) && error == old(error)
    {
      formData := WithInput(formData, input, raw);
    }

    /** `handleEtiquetadoChange`: the code chosen or typed in the search box. */
    method HandleEtiquetadoChange(code: string)
      modifies this
      ensures formData == old(formData).(etiquetado := code)
      ensures isSubmitting == old(isSubmitting) && submitSuccess == old(submitSuccess) && error == old(error)
    {
      formData := formData.(etiquetado := code);
    }

    /** The synchronous part of `handleSubmit`: flags set, request body
      built from the current form. */
    method BeginSubmit() returns (body: Json)
      modifies this
      ensures body == FormJson(formData) && formData == old(formData)
      ensures isSubmitting && !submitSuccess && error.None?
    {
      isSubmitting := true;
      submitSuccess := false;
      error := None;
      body := FormJson(formData);
    }

    /** The rest of `handleSubmit`, once the reply is known. Success resets
      the form; a failure keeps what was typed and records the message.
      Either way the submission is over. */
    method FinishSubmit(reply: SubmitReply)
      modifies this
      ensures !isSubmitting
      ensures reply.Created? ==> formData == InitialFormData && submitSuccess && error == old(error)
      ensures !reply.Created? ==> formData == old(formData) && submitSuccess == old(submitSuccess)
      ensures reply.Rejected? ==> error == Some(StrOr(reply.error, DefaultSubmitError))
      ensures reply.Failed? ==> error == Some(reply.message)
    {
      match reply {
        case Created =>
          submitSuccess := true;
          formData := InitialFormData;
        case Rejected(e) =>
          error := Some(StrOr(e, DefaultSubmitError));
        case Failed(m) =>
          error := Some(m);
      }
      isSubmitting := false;
    }

    /** The 3-second timer started by a success. */
    method SuccessTimerExpired()
      modifies this
      ensures !submitSuccess
      ensures formData == old(formData) && isSubmitting == old(isSubmitting) && error == old(error)
    {
      submitSuccess := false;
    }
  }

  // ---------------------------------------------------------------------
  // Properties

  /** The empty initial form cannot be submitted. */
  lemma InitialFormInvalid()
    ensures !IsFormValid(InitialFormData)
    ensures SubmitDisabled(InitialFormData, false)
  {
  }

  /** Validity in terms of the characters typed: each text field needs a
      character that is not whitespace. */
  lemma IsFormValidIff(f: InventoryFormData)
    ensures IsFormValid(f) <==> HasVisibleChar(f.etiquetado) && HasVisibleChar(f.ubicacion) && f.unidades > 0
  {
    TrimEmptyIff(f.etiquetado);
    TrimEmptyIff(f.ubicacion);
  }

  /** Typing the digits of `n` into the count box stores `n`; clearing it
      stores 0, which makes the form invalid. */
  lemma CountInputReadsBack(f: InventoryFormData, n: nat)
    ensures WithInput(f, UnidadesInput, Decimal(n)).unidades == n
    ensures !IsFormValid(WithInput(f, UnidadesInput, ""))
  {
    NumberInputReadsBack(n);
  }

  /** Every form the client lets through is accepted by the server check,
      and the row the server builds carries the typed values and no
      verifier. */
  lemma ClientValidIsServerValid(f: InventoryFormData, insert: StoreReply<Json>)
    requires IsFormValid(f)
    ensures var o := InventoryRoute.Post(Some(FormJson(f)), insert);
      o.inserted.Some? && o.inserted.value.etiquetado == JStr(f.etiquetado) &&
      o.inserted.value.ubicacion == JStr(f.ubicacion) && o.inserted.value.unidades == JNum(f.unidades) &&
      o.inserted.value.confirmado_por.None? && o.inserted.value.confirmacion == JBool(false)
  {
    FormJsonRequired(f);
    assert f.etiquetado != "" && f.ubicacion != "";
    FormRow(f);
  }

  /** The row the server builds from a posted form with non-empty texts. */
  lemma FormRow(f: InventoryFormData)
    requires f.etiquetado != "" && f.ubicacion != ""
    ensures InventoryRoute.HasRequiredFields(FormJson(f))
    ensures InventoryRoute.RowFor(FormJson(f)) == InventoryRoute.NewRow(
      JStr(f.etiquetado), JStr(f.ubicacion), JNum(f.unidades), JBool(false),
      InventoryRoute.CurrentUserName, InventoryRoute.CurrentUserName, InventoryRoute.CurrentUserName, None)
  {
    assert "confirmacion" !in FormJson(f).fields;
  }

  /** The posted form passes the server check exactly when both texts are
      non-empty, whatever the count. */
  lemma FormJsonRequired(f: InventoryFormData)
    ensures InventoryRoute.HasRequiredFields(FormJson(f)) <==> f.etiquetado != "" && f.ubicacion != ""
  {
  }

  /** The two rules disagree: the server accepts a zero count and a
      whitespace-only tag, both of which the client refuses. */
  lemma ServerLaxerThanClient(insert: StoreReply<Json>)
    ensures !IsFormValid(InventoryFormData("E-1", "A1", 0))
    ensures InventoryRoute.Post(Some(FormJson(InventoryFormData("E-1", "A1", 0))), insert).inserted.Some?
    ensures !IsFormValid(InventoryFormData(" ", "A1", 3))
    ensures InventoryRoute.Post(Some(FormJson(InventoryFormData(" ", "A1", 3))), insert).inserted.Some?
  {
    FormJsonRequired(InventoryFormData("E-1", "A1", 0));
    FormJsonRequired(InventoryFormData(" ", "A1", 3));
    assert Trim(" ") == "";
  }
}
