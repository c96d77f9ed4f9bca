/**
 * Loading and saving the ledger in `assets/js/church.js`: the defensive mapping of a
 * stored `items` array onto entries, and the payload the "save" handler sends, with
 * the lemma that a saved ledger loads back to the same entries.
 */
module ChurchHydrate {
  import opened Common
  import opened StoredDoc
  import opened ChurchMovements
  import opened ChurchTotals

  /** A stored string property that `||` skips: missing, `null` or ''. */
  predicate Falsy(v: Option<string>) {
    v.None? || v.value == ""
  }

  /** `v || fallback` for a stored string property. */
  function Or(v: Option<string>, fallback: string): (r: string)
    ensures Falsy(v) ==> r == fallback
    ensures !Falsy(v) ==> r == v.value
    ensures r == "" <==> Falsy(v) && fallback == ""
  {
    if v.Some? && v.value != "" then v.value else fallback
  }

  /** An entry that loading reproduces: its identifier, date and kind are not falsy. */
  predicate Persistable(m: Movement) {
    m.id != 0 && m.fecha != "" && m.tipo != ""
  }

  /**
   * The entry built from the stored item at position `idx` (`today` is `hoyISO`): each
   * property the item holds is kept, and each falsy one takes its default.
   */
  function NormalizeItem(it: RawItem, idx: nat, today: string, parse: string -> Option<int>): (m: Movement)
    ensures it.id.None? || it.id == Some(0) ==> m.id == idx + 1
    ensures it.id.Some? && it.id.value != 0 ==> m.id == it.id.value
    ensures Falsy(it.fecha) ==> m.fecha == today
    ensures !Falsy(it.fecha) ==> m.fecha == it.fecha.value
    ensures Falsy(it.evento) ==> m.evento == ""
    ensures !Falsy(it.evento) ==> m.evento == it.evento.value
    ensures Falsy(it.tipo) ==> m.tipo == INGRESO
    ensures !Falsy(it.tipo) ==> m.tipo == it.tipo.value
    ensures Falsy(it.categoria) ==> m.categoria == ""
    ensures !Falsy(it.categoria) ==> m.categoria == it.categoria.value
    ensures Falsy(it.descripcion) ==> m.descripcion == ""
    ensures !Falsy(it.descripcion) ==> m.descripcion == it.descripcion.value
    ensures m.monto == ParseNum(it.monto, parse)
    ensures m.id != 0 && m.tipo != ""
    ensures today != "" ==> Persistable(m)
  {
    Movement(
      if it.id.Some? && it.id.value != 0 then it.id.value else idx + 1,
      Or(it.fecha, today),
      Or(it.evento, ""),
      Or(it.tipo, INGRESO),
      Or(it.categoria, ""),
      ParseNum(it.monto, parse),
      Or(it.descripcion, ""))
  }

  /**
   * `record.items.map((it, idx) => ...)`: one entry per item, in the same order. Reading
   * a property of a `null` element throws, and the surrounding `catch` drops the whole
   * load, so one such element gives None.
   */
  function HydrateItems(items: seq<Option<RawItem>>, today: string, parse: string -> Option<int>): (r: Option<seq<Movement>>)
    ensures r.None? <==> exists i :: 0 <= i < |items| && items[i].None?
    ensures r.Some? ==> |r.value| == |items|
    ensures r.Some? ==> forall i :: 0 <= i < |items| ==> r.value[i] == NormalizeItem(items[i].value, i, today, parse)
    ensures r.Some? && today != "" ==> forall i :: 0 <= i < |r.value| ==> Persistable(r.value[i])
  {
    if forall i :: 0 <= i < |items| ==> items[i].Some? then
      Some(seq(|items|, i requires 0 <= i < |items| => NormalizeItem(items[i].value, i, today, parse)))
    else
      None
  }

  /** The `meta` block of the payload. */
  datatype Meta = Meta(iglesia: string, updatedAt: string)

  /** The object the "save" handler sends to the store. */
  datatype Payload = Payload(meta: Meta, items: seq<Movement>, totales: Totals)

  /** The organisation name written into every payload. */
  const IGLESIA: string := "Misión Pentecostal de Jesucristo"

  /** An entry as it reads back once stored as JSON: every property present, `monto` a number. */
  function StoredItem(m: Movement): (it: RawItem)
    ensures it.id == Some(m.id) && it.monto == Number(m.monto)
  {
    RawItem(Some(m.id), Some(m.fecha), Some(m.evento), Some(m.tipo), Some(m.categoria),
      Number(m.monto), Some(m.descripcion))
  }

  /** The payload as it reads back from the store: its `items` array of stored entries. */
  function PayloadDoc(p: Payload): (d: Doc)
    ensures d.record == None && d.items.Some? && |d.items.value| == |p.items|
    ensures forall i :: 0 <= i < |p.items| ==> d.items.value[i] == Some(StoredItem(p.items[i]))
  {
    Doc(None, Some(seq(|p.items|, i requires 0 <= i < |p.items| => Some(StoredItem(p.items[i])))))
  }

  /** Every field of a persistable entry survives storing and loading, whatever the date. */
  lemma NormalizeStoredItem(m: Movement, idx: nat, today: string, parse: string -> Option<int>)
    requires Persistable(m)
    ensures NormalizeItem(StoredItem(m), idx, today, parse) == m
  {
  }

  /** Loading the items of a saved payload gives back exactly the saved entries. */
  lemma HydratePayloadItems(p: Payload, today: string, parse: string -> Option<int>)
    requires forall i :: 0 <= i < |p.items| ==> Persistable(p.items[i])
    ensures HydrateItems(PayloadDoc(p).items.value, today, parse) == Some(p.items)
  {
    var items := PayloadDoc(p).items.value;
    var r := HydrateItems(items, today, parse);
    assert forall i :: 0 <= i < |items| ==> items[i].Some?;
    forall i | 0 <= i < |p.items| ensures r.value[i] == p.items[i] {
      NormalizeStoredItem(p.items[i], i, today, parse);
    }
    assert r.value == p.items;
  }

  /** An item without an identifier takes its position plus one, which can repeat a stored one. */
  lemma HydrationCanRepeatIds(today: string, parse: string -> Option<int>)
    ensures var blank := RawItem(None, None, None, None, None, Absent, None);
      var r := HydrateItems([Some(blank.(id := Some(2))), Some(blank)], today, parse);
      r.Some? && r.value[0].id == r.value[1].id == 2
  {
  }
}
