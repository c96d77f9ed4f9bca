/**
 * The state the page script of `assets/js/church.js` keeps in its closure — the list of
 * entries, the `autoId` counter, the selected kind and the filter record — with the
 * handlers that change it. Its invariant: every identifier in the list is below
 * `autoId`, so the identifier the next entry takes is fresh.
 */
module ChurchLedger {
  import opened Common
  import opened JsStrings
  import opened StoredDoc
  import opened ChurchMovements
  import opened ChurchFilters
  import opened ChurchTotals
  import opened ChurchHydrate
  import AppChurch

  /** The values of the entry form when "add" is pressed; `monto` is `parseNum` of the amount box, in cents. */
  datatype Draft = Draft(fecha: string, evento: string, categoria: string, monto: int, descripcion: string)

  /** The four warnings `addMovement` can raise, in the order it checks them. */
  datatype AddError = FechaRequerida | TipoRequerido | CategoriaRequerida | MontoInvalido

  /** `!currentType`: no kind selected (or an empty one). */
  predicate NoType(t: Option<string>) {
    t.None? || t.value == ""
  }

  class Ledger {
    var movements: seq<Movement>
    var autoId: int
    var currentType: Option<string>
    var filters: Filters

    /** The identifier the next entry takes is above every identifier in the list. */
    ghost predicate Valid()
      reads this
    {
      IdsBelow(movements, autoId)
    }

    /** The page's initial state. */
    constructor ()
      ensures Valid()
      ensures movements == [] && autoId == 1 && currentType == None && filters == NoFilters
    {
      movements, autoId, currentType, filters := [], 1, None, NoFilters;
    }

    /**
     * Loading the stored record: only an `items` array replaces the list, and then
     * `autoId` becomes one past the largest identifier (1 for no items). Otherwise
     * nothing changes; neither does anything when an element of `items` is `null`,
     * since the exception it raises is caught around the whole load.
     */
    method Hydrate(record: Doc, today: string, parse: string -> Option<int>)
      requires Valid()
      modifies this`movements, this`autoId
      ensures Valid()
      ensures record.items.Some? && HydrateItems(record.items.value, today, parse).Some? ==>
        movements == HydrateItems(record.items.value, today, parse).value && autoId == NextId(movements)
      ensures record.items.None? || HydrateItems(record.items.value, today, parse).None? ==>
        movements == old(movements) && autoId == old(autoId)
    {
      if record.items.Some? {
        var loaded := HydrateItems(record.items.value, today, parse);
        if loaded.Some? {
          movements := loaded.value;
          autoId := NextId(movements);
        }
      }
    }

    /** `setCurrentType(type)`, run by the two kind buttons. */
    method SetCurrentType(tipo: string)
      modifies this`currentType
      ensures currentType == Some(tipo)
    {
      currentType := Some(tipo);
    }

    /**
     * `addMovement()`. The date, event and description boxes are trimmed; the checks
     * run in order date, kind, category, amount, and the first that fails is reported
     * with nothing changed. Otherwise one entry is appended that takes `autoId`, which
     * is then incremented.
     */
    method AddMovement(d: Draft) returns (r: Result<Movement, AddError>)
      requires Valid()
      modifies this`movements, this`autoId
      ensures Valid()
      ensures r.Success? <==>
        Trim(d.fecha) != "" && !NoType(currentType) && d.categoria != "" && d.monto > 0
      ensures Trim(d.fecha) == "" ==> r == Failure(FechaRequerida)
      ensures Trim(d.fecha) != "" && NoType(currentType) ==> r == Failure(TipoRequerido)
      ensures Trim(d.fecha) != "" && !NoType(currentType) && d.categoria == "" ==>
        r == Failure(CategoriaRequerida)
      ensures Trim(d.fecha) != "" && !NoType(currentType) && d.categoria != "" && d.monto <= 0 ==>
        r == Failure(MontoInvalido)
      ensures r.Failure? ==> movements == old(movements) && autoId == old(autoId)
      ensures r.Success? ==>
        && r.value == Movement(old(autoId), Trim(d.fecha), Trim(d.evento), currentType.value,
                               d.categoria, d.monto, Trim(d.descripcion))
        && movements == old(movements) + [r.value]
        && autoId == old(autoId) + 1
      ensures r.Success? ==> forall i :: 0 <= i < |old(movements)| ==> old(movements)[i].id < r.value.id
    {
      var fecha := Trim(d.fecha);
      var evento := Trim(d.evento);
      var tipo := currentType;
      var categoria := d.categoria;
      var monto := d.monto;
      var descripcion := Trim(d.descripcion);

      if fecha == "" {
        return Failure(FechaRequerida);
      }
      if NoType(tipo) {
        return Failure(TipoRequerido);
      }
      if categoria == "" {
        return Failure(CategoriaRequerida);
      }
      if !(monto > 0) {
        return Failure(MontoInvalido);
      }

      var movement := Movement(autoId, fecha, evento, tipo.value, categoria, monto, descripcion);
      AppendKeepsIdsBelow(movements, autoId, movement);
      autoId := autoId + 1;
      movements := movements + [movement];
      r := Success(movement);
    }

    /** The "apply filters" handler: reads the three filter boxes. */
    method SetFilters(fromInput: string, toInput: string, textInput: string)
      modifies this`filters
      ensures filters == FiltersFromInputs(fromInput, toInput, textInput)
    {
      filters := Filters(BoundFromInput(fromInput), BoundFromInput(toInput), Lower(Trim(textInput)));
    }

    /** The "clear filters" handler. */
    method ClearFilters()
      modifies this`filters
      ensures filters == NoFilters
    {
      filters := Filters(None, None, "");
    }

    /** The entries on screen: `applyFilters(movements)`. */
    function Visible(): (v: seq<Movement>)
      reads this
      ensures IsSubsequence(v, movements)
      ensures filters == NoFilters ==> v == movements
    {
      ApplyFiltersIsSubsequence(movements, filters);
      assert filters == NoFilters ==> ApplyFilters(movements, filters) == movements by {
        if filters == NoFilters {
          NoFiltersShowEverything(movements, filters);
        }
      }
      ApplyFilters(movements, filters)
    }

    /**
     * A confirmed delete: every entry carrying `id` goes, the others stay in order; an
     * unknown `id` changes nothing. The counter is not touched, so ids are never reused.
     */
    method Delete(id: int)
      requires Valid()
      modifies this`movements
      ensures Valid()
      ensures movements == WithoutId(old(movements), id)
      ensures IsSubsequence(movements, old(movements))
      ensures (forall i :: 0 <= i < |old(movements)| ==> old(movements)[i].id != id) ==>
        movements == old(movements)
    {
      WithoutIdIsSubsequence(movements, id);
      WithoutIdKeepsIdsBelow(movements, id, autoId);
      if forall i :: 0 <= i < |movements| ==> movements[i].id != id {
        WithoutAbsentId(movements, id);
      }
      movements := WithoutId(movements, id);
    }

    /** A confirmed "clear all": a non-empty list is emptied and the counter restarts at 1. */
    method ClearAll()
      requires Valid()
      modifies this`movements, this`autoId
      ensures Valid()
      ensures old(movements) != [] ==> movements == [] && autoId == 1
      ensures old(movements) == [] ==> movements == old(movements) && autoId == old(autoId)
    {
      if |movements| == 0 {
        return;
      }
      movements := [];
      autoId := 1;
    }

    /**
     * The payload of the "save" handler, built from the whole unfiltered list at call
     * time (`nowIso` is the clock reading). None for an empty list, which saves nothing.
     */
    method SavePayload(nowIso: string) returns (p: Option<Payload>)
      ensures movements == [] <==> p.None?
      ensures p.Some? ==> p.value.meta == Meta(IGLESIA, nowIso) && p.value.items == movements
      ensures p.Some? ==>
        && p.value.totales.ingresos == SumOf(movements, INGRESO)
        && p.value.totales.egresos == SumOf(movements, EGRESO)
        && p.value.totales.saldo == p.value.totales.ingresos - p.value.totales.egresos
    {
      if |movements| == 0 {
        return None;
      }
      var totales := CalculateTotals(movements);
      var items := seq(|movements|, i requires 0 <= i < |movements| reads this =>
        var m := movements[i];
        Movement(m.id, m.fecha, m.evento, m.tipo, m.categoria, m.monto, m.descripcion));
      assert items == movements;
      p := Some(Payload(Meta(IGLESIA, nowIso), items, totales));
    }
  }

  /**
   * Saving and loading back: a payload whose entries are persistable, read through
   * JSONBin's `record` envelope, hydrates to the very entries that were saved, with
   * the counter one past the largest of their identifiers.
   */
  lemma SaveLoadRoundTrip(p: Payload, today: string, parse: string -> Option<int>)
    requires forall i :: 0 <= i < |p.items| ==> Persistable(p.items[i])
    ensures var rec := AppChurch.UnwrapRecord(AppChurch.Loaded(Some(Doc(Some(PayloadDoc(p)), None))));
      && rec.items.Some?
      && HydrateItems(rec.items.value, today, parse) == Some(p.items)
      && IdsBelow(p.items, NextId(p.items))
  {
    AppChurch.UnwrapEnvelope(PayloadDoc(p));
    HydratePayloadItems(p, today, parse);
  }

  /** A failed load yields `{}`, which has no `items`, so hydration keeps the list as it was. */
  lemma FailedLoadKeepsLedger()
    ensures AppChurch.UnwrapRecord(AppChurch.LoadFailed).items.None?
    ensures AppChurch.UnwrapRecord(AppChurch.Loaded(None)).items.None?
  {
  }

  /**
   * Adding an entry and then deleting the identifier it was given restores the list:
   * the identifier was fresh, so the delete removes that entry alone. The counter stays
   * advanced, so the identifier is not handed out again.
   */
  method AddThenDelete(l: Ledger, d: Draft) returns (added: bool)
    requires l.Valid()
    modifies l
    ensures l.Valid()
    ensures l.movements == old(l.movements)
    ensures l.autoId == old(l.autoId) + (if added then 1 else 0)
  {
    var before := l.movements;
    var r := l.AddMovement(d);
    added := r.Success?;
    if added {
      WithoutAbsentId(before, r.value.id);
      assert WithoutId([r.value], r.value.id) == [];
      assert l.movements == before + [r.value];
      WithoutIdConcat(before, [r.value], r.value.id);
      l.Delete(r.value.id);
    }
  }
}
