/** The edit dialog of `src/components/inventory/EditInventoryModal.tsx`.
    Its form starts from the row being edited; the count may be null (the
    row's own count) and the confirmation flag starts undefined, because it
    is read from a column the row type does not have. Saving hands the form
    to the caller, whose outcome is an input. */
module EditInventoryModal {
  import opened Wrappers
  import opened JsValues
  import opened InventoryTypes
  import InventoryForm

  /** The dialog's form. `confirmacion` is None while it is still the
      undefined value read from the row. */
  datatype EditFormData = EditFormData(
    etiquetado: string,
    ubicacion: string,
    unidades: Option<int>,
    confirmacion: Option<bool>)

  /** The initial form: the row's tag, location and first count, and an
      undefined confirmation flag. */
  function InitialEditForm(item: InventoryItem): (f: EditFormData)
    ensures f.etiquetado == item.etiquetado && f.ubicacion == item.ubicacion
    ensures f.unidades == item.unidades
    ensures f.confirmacion.None?
  {
    EditFormData(item.etiquetado, item.ubicacion, item.unidades, None)
  }

  /** `isFormValid`; a null count fails `formData.unidades > 0`. */
  predicate IsFormValid(f: EditFormData) {
    Trim(f.etiquetado) != "" && Trim(f.ubicacion) != "" && f.unidades.Some? && f.unidades.value > 0
  }

  /** The inputs wired to `handleChange`: location text, count number and
      confirmation checkbox. */
  datatype EditInput = UbicacionInput | UnidadesInput | ConfirmacionInput

  /** The form after `handleChange`: the checkbox stores `checked`, the
      number box `parseInt(raw) || 0`, the text box the raw text; nothing
      else changes. */
  function WithInput(f: EditFormData, input: EditInput, raw: string, checked: bool): (g: EditFormData)
    ensures g.etiquetado == f.etiquetado
    ensures input.UbicacionInput? ==> g == f.(ubicacion := raw)
    ensures input.UnidadesInput? ==> g == f.(unidades := Some(NumberInputValue(raw)))
    ensures input.ConfirmacionInput? ==> g == f.(confirmacion := Some(checked))
  {
    match input
    case UbicacionInput => f.(ubicacion := raw)
    case UnidadesInput => f.(unidades := Some(NumberInputValue(raw)))
    case ConfirmacionInput => f.(confirmacion := Some(checked))
  }

  /** The form as `JSON.stringify` sends it: an undefined flag is dropped,
      a null count stays null. */
  function EditJson(f: EditFormData): (j: Json)
    ensures j.JObj?
    ensures j.fields.Keys == {"etiquetado", "ubicacion", "unidades"} + (if f.confirmacion.Some? then {"confirmacion"} else {})
    ensures j.fields["etiquetado"] == JStr(f.etiquetado) && j.fields["ubicacion"] == JStr(f.ubicacion)
    ensures j.fields["unidades"] == (if f.unidades.Some? then JNum(f.unidades.value) else JNull)
    ensures f.confirmacion.Some? ==> j.fields["confirmacion"] == JBool(f.confirmacion.value)
  {
    var base := map["etiquetado" := JStr(f.etiquetado), "ubicacion" := JStr(f.ubicacion),
                     "unidades" := if f.unidades.Some? then JNum(f.unidades.value) else JNull];
    if f.confirmacion.Some? then JObj(base["confirmacion" := JBool(f.confirmacion.value)]) else JObj(base)
  }

  /** Save is disabled while the form is invalid or a save is running. */
  predicate SaveDisabled(f: EditFormData, isSaving: bool) {
    !IsFormValid(f) || isSaving
  }

  /** How `onSave` ended: it resolved, or it threw (with the message of an
      Error, None for anything else). */
  datatype SaveOutcome = Saved | SaveFailed(message: Option<string>)

  const DefaultSaveError := "Error al guardar"

  class EditModal {
    const item: InventoryItem
    var formData: EditFormData
    var isSaving: bool
    var error: Option<string>

    constructor(item: InventoryItem)
      ensures this.item == item && formData == InitialEditForm(item) && !isSaving && error.None?
    {
      this.item := item;
      formData := InitialEditForm(item);
      isSaving := false;
      error := None;
    }

    /** `handleChange`. */
    method HandleChange(input: EditInput, raw: string, checked: bool)
      modifies this
      ensures formData == WithInput(old(formData), input, raw, checked)
      ensures isSaving == old(isSaving) && error == old(error)
    {
      formData := WithInput(formData, input, raw, checked);
    }

    /** `handleEtiquetadoChange`. */
    method HandleEtiquetadoChange(code: string)
      modifies this
      ensures formData == old(formData).(etiquetado := code)
      ensures isSaving == old(isSaving) && error == old(error)
    {
      formData := formData.(etiquetado := code);
    }

    /** The synchronous part of `handleSubmit`: the form as handed to
      `onSave`. */
    method BeginSubmit() returns (data: EditFormData)
      modifies this
      ensures data == formData && formData == old(formData)
      ensures isSaving && error.None?
    {
      isSaving := true;
      error := None;
      data := formData;
    }

    /** The rest of `handleSubmit`: a failure records its message and the
      form keeps what was typed; the save is over either way. */
    method FinishSubmit(outcome: SaveOutcome)
      modifies this
      ensures !isSaving && formData == old(formData)
      ensures outcome.Saved? ==> error == old(error)
      ensures outcome.SaveFailed? ==> error == Some(outcome.message.GetOr(DefaultSaveError))
    {
      if outcome.SaveFailed? {
        error := Some(outcome.message.GetOr(DefaultSaveError));
      }
      isSaving := false;
    }
  }

  // ---------------------------------------------------------------------
  // Properties

  /** The dialog applies the create form's rule to a non-null count, and a
      null count is never valid. */
  lemma SameRuleAsCreateForm(f: EditFormData)
    ensures f.unidades.Some? ==>
      (IsFormValid(f) <==> InventoryForm.IsFormValid(InventoryFormData(f.etiquetado, f.ubicacion, f.unidades.value)))
    ensures f.unidades.None? ==> !IsFormValid(f)
  {
  }

  /** A row whose first count is null, or zero, opens an invalid form; a
      row with visible text and a positive count opens a valid one. */
  lemma InitialValidity(item: InventoryItem)
    ensures item.unidades.None? ==> !IsFormValid(InitialEditForm(item))
    ensures item.unidades == Some(0) ==> !IsFormValid(InitialEditForm(item))
    ensures (HasVisibleChar(item.etiquetado) && HasVisibleChar(item.ubicacion) &&
             item.unidades.Some? && item.unidades.value > 0) ==> IsFormValid(InitialEditForm(item))
  {
    TrimEmptyIff(item.etiquetado);
    TrimEmptyIff(item.ubicacion);
  }

  /** Unless the checkbox was touched, the saved form carries no
      confirmation flag at all. */
  lemma UntouchedFlagIsNotSent(item: InventoryItem, raw: string)
    ensures "confirmacion" !in EditJson(InitialEditForm(item)).fields
    ensures "confirmacion" !in EditJson(WithInput(InitialEditForm(item), UnidadesInput, raw, true)).fields
    ensures EditJson(WithInput(InitialEditForm(item), ConfirmacionInput, raw, true)).fields["confirmacion"] == JBool(true)
  {
  }
}
