/**
 * `calculateTotals` of `assets/js/church.js`: income, expense and balance of a list of
 * entries. In cents the rounding `fix2` applied to each total is the identity, so the
 * balance is exactly the difference of the two sums.
 */
module ChurchTotals {
  import opened ChurchMovements

  /** `{ ingresos, egresos, saldo }`. */
  datatype Totals = Totals(ingresos: int, egresos: int, saldo: int)

  /** The sum of `monto` over the entries of `list` whose `tipo` is `kind`. */
  function SumOf(list: seq<Movement>, kind: string): (r: int)
    ensures (forall i :: 0 <= i < |list| ==> list[i].monto >= 0) ==> r >= 0
  {
    if list == [] then 0
    else (if list[0].tipo == kind then list[0].monto else 0) + SumOf(list[1..], kind)
  }

  /** Sums over a concatenation add up. */
  lemma {:induction false} SumOfConcat(a: seq<Movement>, b: seq<Movement>, kind: string)
    ensures SumOf(a + b, kind) == SumOf(a, kind) + SumOf(b, kind)
  {
    if a == [] {
      assert a + b == b;
    } else {
      assert (a + b)[0] == a[0] && (a + b)[1..] == a[1..] + b;
      SumOfConcat(a[1..], b, kind);
    }
  }

  /** An entry of another kind leaves the sum unchanged; one of the kind adds its amount. */
  lemma SumOfAppend(list: seq<Movement>, m: Movement, kind: string)
    ensures SumOf(list + [m], kind) == SumOf(list, kind) + (if m.tipo == kind then m.monto else 0)
  {
    SumOfConcat(list, [m], kind);
  }

  /** Entries whose `tipo` is neither kind contribute to neither total. */
  lemma {:induction false} SumOfOtherKind(list: seq<Movement>, kind: string)
    requires forall i :: 0 <= i < |list| ==> list[i].tipo != kind
    ensures SumOf(list, kind) == 0
  {
    if list != [] {
      SumOfOtherKind(list[1..], kind);
    }
  }

  /** When every amount is positive, a sub-list (a filtered view) sums to no more than the list. */
  lemma {:induction false} SumOfSubsequenceBounded(sub: seq<Movement>, list: seq<Movement>, kind: string)
    requires Common.IsSubsequence(sub, list)
    requires forall i :: 0 <= i < |list| ==> list[i].monto > 0
    ensures 0 <= SumOf(sub, kind) <= SumOf(list, kind)
    decreases |list|
  {
    if list == [] {
    } else if sub != [] && sub[0] == list[0] {
      SumOfSubsequenceBounded(sub[1..], list[1..], kind);
    } else {
      SumOfSubsequenceBounded(sub, list[1..], kind);
    }
  }

  /** `calculateTotals(list)`: one pass that accumulates both sums. */
  method CalculateTotals(list: seq<Movement>) returns (t: Totals)
    ensures t.ingresos == SumOf(list, INGRESO)
    ensures t.egresos == SumOf(list, EGRESO)
    ensures t.saldo == t.ingresos - t.egresos
  {
    var ingresos, egresos := 0, 0;
    var i := 0;
    while i < |list|
      invariant 0 <= i <= |list|
      invariant ingresos == SumOf(list[..i], INGRESO)
      invariant egresos == SumOf(list[..i], EGRESO)
    {
      var m := list[i];
      assert list[..i + 1] == list[..i] + [m];
      SumOfAppend(list[..i], m, INGRESO);
      SumOfAppend(list[..i], m, EGRESO);
      if m.tipo == INGRESO {
        ingresos := ingresos + m.monto;
      } else if m.tipo == EGRESO {
        egresos := egresos + m.monto;
      }
      i := i + 1;
    }
    assert list[..i] == list;
    t := Totals(ingresos, egresos, ingresos - egresos);
  }
}
