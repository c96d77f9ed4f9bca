/**
 * The filter of `assets/js/church.js`: the `currentFilters` record, the values the
 * "apply" handler stores in it, and `applyFilters`, which keeps the entries whose date
 * lies in the range and whose text contains the search string.
 */
module ChurchFilters {
  import opened Common
  import opened JsStrings
  import opened ChurchMovements

  /** `currentFilters`: `from` and `to` are `null` or a date string; `text` is lower case. */
  datatype Filters = Filters(from: Option<string>, to: Option<string>, text: string)

  /** The record as created, and as reset by the "clear" handler. */
  const NoFilters: Filters := Filters(None, None, "")

  /** JavaScript truthiness of a `from` or `to` value. */
  predicate IsSet(bound: Option<string>) {
    bound.Some? && bound.value != ""
  }

  /** `filterFrom.value || null`. */
  function BoundFromInput(input: string): (b: Option<string>)
    ensures IsSet(b) <==> input != ""
    ensures IsSet(b) ==> b.value == input
  {
    if input == "" then None else Some(input)
  }

  /** What the "apply" handler stores, given the three input boxes. */
  function FiltersFromInputs(fromInput: string, toInput: string, textInput: string): (f: Filters)
    ensures f.text == Lower(Trim(textInput))
    ensures IsSet(f.from) <==> fromInput != ""
    ensures IsSet(f.to) <==> toInput != ""
  {
    Filters(BoundFromInput(fromInput), BoundFromInput(toInput), Lower(Trim(textInput)))
  }

  /**
   * The lower-cased `evento descripcion categoria tipo` that the text is searched in:
   * the four fields, each lower-cased, joined by single spaces.
   */
  function Haystack(m: Movement): (h: string)
    ensures h == Lower(m.evento) + " " + Lower(m.descripcion) + " " + Lower(m.categoria) + " " + Lower(m.tipo)
    ensures forall i :: 0 <= i < |h| ==> LowerChar(h[i]) == h[i]
  {
    var e := m.evento + " " + m.descripcion;
    var ec := e + " " + m.categoria;
    LowerConcat(m.evento, " ");
    LowerConcat(m.evento + " ", m.descripcion);
    LowerConcat(e, " ");
    LowerConcat(e + " ", m.categoria);
    LowerConcat(ec, " ");
    LowerConcat(ec + " ", m.tipo);
    assert Lower(" ") == " ";
    Lower(ec + " " + m.tipo)
  }

  /** An entry cannot be at or after `from` and at or before `to` when `to` is below `from`. */
  lemma InvertedRangeEmpty(f: Filters, m: Movement)
    ensures IsSet(f.from) && IsSet(f.to) && LexLess(f.to.value, f.from.value) ==>
      LexLess(m.fecha, f.from.value) || LexLess(f.to.value, m.fecha)
  {
    if IsSet(f.from) && IsSet(f.to) && LexLess(f.to.value, f.from.value) {
      if m.fecha != f.from.value && !LexLess(m.fecha, f.from.value) {
        LexLessTotal(m.fecha, f.from.value);
        LexLessTransitive(f.to.value, f.from.value, m.fecha);
      }
    }
  }

  /**
   * The test inside `list.filter(...)`. With no bound and no text every entry passes;
   * with `to` below `from` none does.
   */
  predicate Keeps(f: Filters, m: Movement)
    ensures !IsSet(f.from) && !IsSet(f.to) && f.text == "" ==> Keeps(f, m)
    ensures IsSet(f.from) && IsSet(f.to) && LexLess(f.to.value, f.from.value) ==> !Keeps(f, m)
  {
    InvertedRangeEmpty(f, m);
    && !(IsSet(f.from) && LexLess(m.fecha, f.from.value))
    && !(IsSet(f.to) && LexLess(f.to.value, m.fecha))
    && (f.text == "" || Includes(Haystack(m), f.text))
  }

  /** `applyFilters(list)` under the filter record `f`. */
  function ApplyFilters(list: seq<Movement>, f: Filters): (r: seq<Movement>)
    ensures |r| <= |list|
    ensures forall i :: 0 <= i < |r| ==> Keeps(f, r[i])
    ensures forall m :: m in list && Keeps(f, m) ==> m in r
  {
    if list == [] then []
    else (if Keeps(f, list[0]) then [list[0]] else []) + ApplyFilters(list[1..], f)
  }

  /** The filtered view keeps the order of the list it is taken from. */
  lemma {:induction false} ApplyFiltersIsSubsequence(list: seq<Movement>, f: Filters)
    ensures IsSubsequence(ApplyFilters(list, f), list)
  {
    if list != [] {
      ApplyFiltersIsSubsequence(list[1..], f);
      SubsequenceStep(ApplyFilters(list[1..], f), list, Keeps(f, list[0]));
    }
  }

  /** Filtering changes nothing exactly when every entry passes the test. */
  lemma {:induction false} ApplyFiltersIdentityIff(list: seq<Movement>, f: Filters)
    ensures ApplyFilters(list, f) == list <==> forall i :: 0 <= i < |list| ==> Keeps(f, list[i])
  {
    if list != [] {
      ApplyFiltersIdentityIff(list[1..], f);
      if forall i :: 0 <= i < |list| ==> Keeps(f, list[i]) {
        assert forall i :: 0 <= i < |list[1..]| ==> Keeps(f, list[1..][i]) by {
          forall i | 0 <= i < |list[1..]| ensures Keeps(f, list[1..][i]) {
            assert list[1..][i] == list[i + 1];
          }
        }
        assert list == [list[0]] + list[1..];
      }
      if ApplyFilters(list, f) == list {
        forall i | 0 <= i < |list| ensures Keeps(f, list[i]) {
          assert list[i] == ApplyFilters(list, f)[i];
        }
      }
    }
  }

  /** Applying the same filter twice gives what applying it once gives. */
  lemma ApplyFiltersIdempotent(list: seq<Movement>, f: Filters)
    ensures ApplyFilters(ApplyFilters(list, f), f) == ApplyFilters(list, f)
  {
    ApplyFiltersIdentityIff(ApplyFilters(list, f), f);
  }

  /** With no date bound and no text set, the filter shows every entry. */
  lemma NoFiltersShowEverything(list: seq<Movement>, f: Filters)
    requires !IsSet(f.from) && !IsSet(f.to) && f.text == ""
    ensures ApplyFilters(list, f) == list
  {
    ApplyFiltersIdentityIff(list, f);
  }

  /** Applying blank input boxes (a search box of spaces included) shows every entry. */
  lemma BlankInputsShowEverything(list: seq<Movement>, textInput: string)
    requires forall i :: 0 <= i < |textInput| ==> IsSpace(textInput[i])
    ensures ApplyFilters(list, FiltersFromInputs("", "", textInput)) == list
  {
    TrimEmptyIffBlank(textInput);
    NoFiltersShowEverything(list, FiltersFromInputs("", "", textInput));
  }

  /**
   * Every entry of the view lies in the date range, read in the total order of strings,
   * and contains the search text at some position of its lower-cased haystack.
   */
  lemma ApplyFiltersSound(list: seq<Movement>, f: Filters, i: int)
    requires 0 <= i < |ApplyFilters(list, f)|
    ensures var m := ApplyFilters(list, f)[i];
      && (IsSet(f.from) ==> m.fecha == f.from.value || LexLess(f.from.value, m.fecha))
      && (IsSet(f.to) ==> m.fecha == f.to.value || LexLess(m.fecha, f.to.value))
      && (f.text != "" ==> exists k :: SliceAt(Haystack(m), f.text, k))
  {
    var m := ApplyFilters(list, f)[i];
    if IsSet(f.from) && m.fecha != f.from.value {
      LexLessTotal(m.fecha, f.from.value);
    }
    if IsSet(f.to) && m.fecha != f.to.value {
      LexLessTotal(m.fecha, f.to.value);
    }
    IncludesAt(Haystack(m), f.text);
  }

  /** The view of a concatenation is the concatenation of the views. */
  lemma {:induction false} ApplyFiltersConcat(a: seq<Movement>, b: seq<Movement>, f: Filters)
    ensures ApplyFilters(a + b, f) == ApplyFilters(a, f) + ApplyFilters(b, f)
  {
    if a == [] {
      assert a + b == b;
    } else {
      assert (a + b)[0] == a[0] && (a + b)[1..] == a[1..] + b;
      ApplyFiltersConcat(a[1..], b, f);
    }
  }
}
