/**
 * The shape of the JSON document the ledger is loaded from. Every property that the
 * loading code tests with `||` or `Array.isArray` is an `Option`: `None` stands for a
 * missing, `null` or otherwise falsy value.
 */
module StoredDoc {
  import opened Common

  /** The `monto` of a stored item: missing, a JSON number (in cents) or a JSON string. */
  datatype RawAmount = Absent | Number(cents: int) | Text(text: string)

  /** One element of the stored `items` array. */
  datatype RawItem = RawItem(
    id: Option<int>,
    fecha: Option<string>,
    evento: Option<string>,
    tipo: Option<string>,
    categoria: Option<string>,
    monto: RawAmount,
    descripcion: Option<string>)

  /**
   * A loaded JSON value that is truthy: its `record` property (None when falsy) and its
   * `items` property (None when it is not an array). An element of `items` is None when
   * it is `null` or `undefined`, the two values whose properties cannot be read. A
   * truthy non-object reads as a value with neither property.
   */
  datatype Doc = Doc(record: Option<Doc>, items: Option<seq<Option<RawItem>>>)

  /** The literal `{}`. */
  const EmptyDoc: Doc := Doc(None, None)
}
