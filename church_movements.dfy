/**
 * The ledger entries of `assets/js/church.js` ("movimientos"), the identifier discipline
 * around the `autoId` counter, deletion by identifier and the `parseNum` helper.
 * Amounts are integer cents: `fix2` (rounding to two decimals) is the identity on them.
 */
module ChurchMovements {
  import opened Common
  import opened JsStrings
  import opened StoredDoc

  /** The two kinds the form offers. Loaded entries may carry any other string. */
  const INGRESO: string := "ingreso"
  const EGRESO: string := "egreso"

  /** One ledger line. `monto` is in cents. */
  datatype Movement = Movement(
    id: int,
    fecha: string,
    evento: string,
    tipo: string,
    categoria: string,
    monto: int,
    descripcion: string)

  /** Every identifier in `ms` is below `bound`: `bound` is a fresh identifier. */
  predicate IdsBelow(ms: seq<Movement>, bound: int) {
    forall i :: 0 <= i < |ms| ==> ms[i].id < bound
  }

  /** `Math.max(...ms.map(m => m.id))` on a non-empty list. */
  function MaxId(ms: seq<Movement>): (r: int)
    requires |ms| > 0
    ensures forall i :: 0 <= i < |ms| ==> ms[i].id <= r
    ensures exists i :: 0 <= i < |ms| && ms[i].id == r
  {
    if |ms| == 1 then ms[0].id
    else
      var rest := MaxId(ms[1..]);
      assert forall i :: 1 <= i < |ms| ==> ms[i] == ms[1..][i - 1];
      if ms[0].id >= rest then ms[0].id else rest
  }

  /** The counter set after loading: one past the largest identifier, or 1 for no entries. */
  function NextId(ms: seq<Movement>): (r: int)
    ensures IdsBelow(ms, r)
    ensures ms == [] ==> r == 1
    ensures ms != [] ==> exists i :: 0 <= i < |ms| && ms[i].id == r - 1
  {
    if |ms| > 0 then MaxId(ms) + 1 else 1
  }

  /** Appending an entry that takes the fresh identifier keeps the next one fresh. */
  lemma AppendKeepsIdsBelow(ms: seq<Movement>, bound: int, m: Movement)
    requires IdsBelow(ms, bound) && m.id == bound
    ensures IdsBelow(ms + [m], bound + 1)
    ensures forall i :: 0 <= i < |ms| ==> ms[i].id != m.id
  {
  }

  /** How many entries carry identifier `id`. */
  function CountId(ms: seq<Movement>, id: int): nat {
    if ms == [] then 0 else (if ms[0].id == id then 1 else 0) + CountId(ms[1..], id)
  }

  /** `ms.filter(m => m.id !== id)`: the list without the entries that carry `id`. */
  function WithoutId(ms: seq<Movement>, id: int): (r: seq<Movement>)
    ensures |r| == |ms| - CountId(ms, id)
    ensures forall i :: 0 <= i < |r| ==> r[i].id != id
    ensures forall m :: m in ms && m.id != id ==> m in r
  {
    if ms == [] then []
    else (if ms[0].id == id then [] else [ms[0]]) + WithoutId(ms[1..], id)
  }

  /** Deleting from a concatenation deletes from each part. */
  lemma {:induction false} WithoutIdConcat(a: seq<Movement>, b: seq<Movement>, id: int)
    ensures WithoutId(a + b, id) == WithoutId(a, id) + WithoutId(b, id)
  {
    if a == [] {
      assert a + b == b;
    } else {
      assert (a + b)[0] == a[0] && (a + b)[1..] == a[1..] + b;
      WithoutIdConcat(a[1..], b, id);
    }
  }

  /** Deletion keeps the remaining entries in their original order. */
  lemma {:induction false} WithoutIdIsSubsequence(ms: seq<Movement>, id: int)
    ensures IsSubsequence(WithoutId(ms, id), ms)
  {
    if ms != [] {
      WithoutIdIsSubsequence(ms[1..], id);
      SubsequenceStep(WithoutId(ms[1..], id), ms, ms[0].id != id);
    }
  }

  /** Deleting an identifier that no entry carries leaves the list as it was. */
  lemma {:induction false} WithoutAbsentId(ms: seq<Movement>, id: int)
    requires forall i :: 0 <= i < |ms| ==> ms[i].id != id
    ensures WithoutId(ms, id) == ms
  {
    if ms != [] {
      WithoutAbsentId(ms[1..], id);
      assert ms == [ms[0]] + ms[1..];
    }
  }

  /** Deletion keeps every identifier fresh with respect to the same counter. */
  lemma WithoutIdKeepsIdsBelow(ms: seq<Movement>, id: int, bound: int)
    requires IdsBelow(ms, bound)
    ensures IdsBelow(WithoutId(ms, id), bound)
  {
    WithoutIdIsSubsequence(ms, id);
    SubsequenceMembers(WithoutId(ms, id), ms);
    var r := WithoutId(ms, id);
    forall i | 0 <= i < |r| ensures r[i].id < bound {
      assert r[i] in ms;
    }
  }

  /**
   * `parseNum`: 0 for a missing value; a JSON number reads back as itself; a string has
   * its first `,` turned into `.` and is then read by `parseFloat`, which is the
   * parameter `parse` (None standing for NaN, which becomes 0).
   */
  function ParseNum(v: RawAmount, parse: string -> Option<int>): (n: int)
    ensures v.Absent? ==> n == 0
    ensures v.Number? ==> n == v.cents
    ensures v.Text? ==>
      var k := IndexOf(v.text, ',');
      var normal := if k < 0 then v.text else v.text[..k] + "." + v.text[k + 1..];
      n == (if parse(normal).Some? then parse(normal).value else 0)
  {
    match v
    case Absent => 0
    case Number(c) => c
    case Text(t) =>
      ReplaceFirstChangesFirstOnly(t, ',', '.');
      var p := parse(ReplaceFirst(t, ',', '.'));
      if p.Some? then p.value else 0
  }
}
