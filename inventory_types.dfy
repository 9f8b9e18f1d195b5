/** The records of `src/types/inventory.ts`. Nullable columns are `Option`s:
    the two counts are independently nullable, the first counter and the
    tag and location attributions are always present, the second counter and
    the verifier may be null. */
module InventoryTypes {
  import opened Wrappers

  /** One row of the inventory table (one batch of glass parts). */
  datatype InventoryItem = InventoryItem(
    id: string,
    etiquetado: string,
    ubicacion: string,
    unidades: Option<int>,
    unidades_2: Option<int>,
    etiquetado_por: string,
    ubicado_por: string,
    contado_por: string,
    contado_por_2: Option<string>,
    confirmado_por: Option<string>,
    created_at: string,
    updated_at: string)

  /** What the create form holds: a count that is never null, and the tag and
      location strings. */
  datatype InventoryFormData = InventoryFormData(etiquetado: string, ubicacion: string, unidades: int)

  /** What a call to the external store gives back: the `data` of a reply, the
      `error` of a reply, or an exception thrown while making the call. */
  datatype StoreReply<T> = Data(data: T) | Error(message: string) | Threw

  /** `a` and `b` agree on every column except, possibly, the two counts. */
  predicate SameExceptCounts(a: InventoryItem, b: InventoryItem) {
    a.(unidades := b.unidades, unidades_2 := b.unidades_2) == b
  }

  /** Lexicographic order on strings (creation timestamps are ISO-8601 text). */
  predicate StrLe(a: string, b: string) {
    if a == "" then true
    else if b == "" then false
    else if a[0] != b[0] then a[0] < b[0]
    else StrLe(a[1..], b[1..])
  }

  /** Newest first: `created_at` never increases along the list. */
  predicate NewestFirst(items: seq<InventoryItem>) {
    forall i, j :: 0 <= i < j < |items| ==> StrLe(items[j].created_at, items[i].created_at)
  }
}
