/** The product page: its technical-specification table, the quantity
    stepper, the FAQ accordion and the recommendation strip. */
module ProductPage {
  import opened Optional
  import Text

  /** A JSON value as the product record holds it. Numbers are integers. */
  datatype Json =
    | Null
    | Bool(b: bool)
    | Num(n: int)
    | Str(s: string)
    | Arr(items: seq<Json>)
    | Obj(entries: seq<(string, Json)>)

  /** A value `!v` holds for: null, false, 0 and the empty string. A missing
      field (`undefined`) is passed as `Null`. */
  predicate Falsy(v: Json)
  {
    v == Null || v == Bool(false) || v == Num(0) || v == Str("")
  }

  /** `typeof v === 'object' && v !== null` */
  predicate IsObject(v: Json)
  {
    v.Arr? || v.Obj?
  }

  /** `Object.entries(v)`: an object's own entries, an array's or a string's
      elements under their decimal indices, nothing for other values. */
  function Entries(v: Json): (r: seq<(string, Json)>)
    ensures v.Obj? ==> r == v.entries
    ensures v.Arr? ==> (|r| == |v.items| &&
      forall i :: 0 <= i < |r| ==> r[i] == (Text.NatToString(i), v.items[i]))
    ensures v.Str? ==> (|r| == |v.s| &&
      forall i :: 0 <= i < |r| ==> r[i] == (Text.NatToString(i), Str([v.s[i]])))
    ensures v.Null? || v.Bool? || v.Num? ==> r == []
  {
    match v
    case Obj(es) => es
    case Arr(xs) => seq(|xs|, i requires 0 <= i < |xs| => (Text.NatToString(i), xs[i]))
    case Str(s) => seq(|s|, i requires 0 <= i < |s| => (Text.NatToString(i), Str([s[i]])))
    case _ => []
  }

  /** One row of the table. */
  datatype Row = Row(caption: string, value: Json)

  /** The rows `addSpec(key, value)` pushes. */
  function Contribution(key: string, value: Json): seq<Row>
  {
    if IsObject(value) then
      var sub := Entries(value);
      seq(|sub|, i requires 0 <= i < |sub| => Row(key + " " + sub[i].0, sub[i].1))
    else [Row(key, value)]
  }

  /** How many rows an entry contributes. */
  function Width(value: Json): nat
  {
    if IsObject(value) then |Entries(value)| else 1
  }

  /** The rows of a list of entries, each entry's rows in turn. */
  function Rows(es: seq<(string, Json)>): seq<Row>
  {
    if es == [] then []
    else Rows(es[..|es| - 1]) + Contribution(es[|es| - 1].0, es[|es| - 1].1)
  }

  /** The total width of a list of entries. */
  function TotalWidth(es: seq<(string, Json)>): nat
  {
    if es == [] then 0 else TotalWidth(es[..|es| - 1]) + Width(es[|es| - 1].1)
  }

  /** What `flattenSpecifications(specs)` returns. */
  function Flattened(specs: Json): seq<Row>
  {
    if Falsy(specs) then [] else Rows(Entries(specs))
  }

  /** `flattenSpecifications`: for each entry, either one row or one row per
      sub-entry, pushed onto `result`. */
  method FlattenSpecifications(specs: Json) returns (result: seq<Row>)
    ensures result == Flattened(specs)
  {
    if Falsy(specs) {
      return [];
    }
    result := [];
    var es := Entries(specs);
    var n := 0;
    while n < |es|
      invariant 0 <= n <= |es|
      invariant result == Rows(es[..n])
    {
      var (key, value) := es[n];
      result := AddSpec(result, key, value);
      RowsStep(es[..n + 1]);
      assert es[..n + 1][..n] == es[..n];
      n := n + 1;
    }
    assert es[..n] == es;
  }

  /** `addSpec(key, value)`: pushes the entry's rows onto `result`. */
  method AddSpec(result: seq<Row>, key: string, value: Json) returns (pushed: seq<Row>)
    ensures pushed == result + Contribution(key, value)
  {
    pushed := result;
    if IsObject(value) {
      var sub := Entries(value);
      ghost var rows := Contribution(key, value);
      var m := 0;
      while m < |sub|
        invariant 0 <= m <= |sub|
        invariant pushed == result + rows[..m]
      {
        assert rows[..m + 1] == rows[..m] + [Row(key + " " + sub[m].0, sub[m].1)];
        pushed := pushed + [Row(key + " " + sub[m].0, sub[m].1)];
        m := m + 1;
      }
      assert rows[..m] == rows;
    } else {
      pushed := pushed + [Row(key, value)];
    }
  }

  // ---------------------------------------------------------------------
  // What the table holds

  /** A falsy specification gives an empty table; so do a non-zero number
      and `true`, which have no entries. */
  lemma EmptyTables(n: int, b: bool)
    ensures Flattened(Null) == [] && Flattened(Bool(b)) == [] && Flattened(Num(n)) == []
    ensures Flattened(Str("")) == []
  {
  }

  /** Each entry's rows: a scalar or null value gives the single row labelled
      with its key; an object gives one row per sub-entry, labelled
      `key subKey`, holding the sub-value itself, flattened no further. */
  lemma ContributionMeaning(key: string, value: Json)
    ensures !IsObject(value) ==> Contribution(key, value) == [Row(key, value)]
    ensures IsObject(value) ==> (|Contribution(key, value)| == |Entries(value)| &&
      forall i :: 0 <= i < |Entries(value)| ==>
        Contribution(key, value)[i] == Row(key + " " + Entries(value)[i].0, Entries(value)[i].1))
    ensures |Contribution(key, value)| == Width(value)
  {
  }

  /** The rows of two runs of entries are the rows of each, in order. */
  lemma {:induction false} RowsAppend(a: seq<(string, Json)>, b: seq<(string, Json)>)
    ensures Rows(a + b) == Rows(a) + Rows(b)
    decreases |b|
  {
    if b == [] {
      assert a + b == a;
    } else {
      var b', last := b[..|b| - 1], b[|b| - 1];
      DropLast(a, b);
      RowsAppend(a, b');
      RowsStep(a + b);
      RowsStep(b);
      Regroup(Rows(a), Rows(b'), Contribution(last.0, last.1));
    }
  }

  /** One unfolding of `Rows`: the last entry's rows come last. */
  lemma RowsStep(es: seq<(string, Json)>)
    requires es != []
    ensures Rows(es) == Rows(es[..|es| - 1]) + Contribution(es[|es| - 1].0, es[|es| - 1].1)
  {
  }

  lemma Regroup<T>(x: seq<T>, y: seq<T>, z: seq<T>)
    ensures x + y + z == x + (y + z)
  {
  }

  /** Entry order is kept: entry `k`'s rows sit, contiguous, after the rows
      of every earlier entry and before those of every later one. */
  lemma RowsAround(es: seq<(string, Json)>, k: nat)
    requires k < |es|
    ensures Rows(es) == Rows(es[..k]) + Contribution(es[k].0, es[k].1) + Rows(es[k + 1..])
  {
    var before, here, after := es[..k], [es[k]], es[k + 1..];
    Pieces(es, k);
    RowsAppend(before + here, after);
    RowsAppend(before, here);
    RowsSingle(es[k]);
  }

  lemma DropLast<T>(a: seq<T>, b: seq<T>)
    requires b != []
    ensures (a + b)[..|a + b| - 1] == a + b[..|b| - 1] && (a + b)[|a + b| - 1] == b[|b| - 1]
  {
  }

  lemma Pieces<T>(s: seq<T>, k: nat)
    requires k < |s|
    ensures s == s[..k] + [s[k]] + s[k + 1..]
  {
  }

  lemma RowsSingle(e: (string, Json))
    ensures Rows([e]) == Contribution(e.0, e.1)
  {
    assert [e][..0] == [];
  }

  /** The table has as many rows as the entries' widths add up to. */
  lemma {:induction false} RowCount(es: seq<(string, Json)>)
    ensures |Rows(es)| == TotalWidth(es)
  {
    if es != [] {
      RowCount(es[..|es| - 1]);
      ContributionMeaning(es[|es| - 1].0, es[|es| - 1].1);
    }
  }

  /** Entry `k`'s rows start at the total width of the entries before it. */
  lemma EntryRows(es: seq<(string, Json)>, k: nat)
    requires k < |es|
    ensures var start := TotalWidth(es[..k]);
      start + Width(es[k].1) <= |Rows(es)| &&
      Rows(es)[start..start + Width(es[k].1)] == Contribution(es[k].0, es[k].1)
  {
    RowsAround(es, k);
    RowCount(es[..k]);
    ContributionMeaning(es[k].0, es[k].1);
  }

  /** A specification object of scalar fields gives one row per field, in
      field order, labelled with the field names. */
  lemma {:induction false} FlatFields(es: seq<(string, Json)>)
    requires forall k :: 0 <= k < |es| ==> !IsObject(es[k].1)
    ensures |Rows(es)| == |es|
    ensures forall k :: 0 <= k < |es| ==> Rows(es)[k] == Row(es[k].0, es[k].1)
  {
    if es != [] {
      var last := es[|es| - 1];
      FlatFields(es[..|es| - 1]);
      assert Rows(es) == Rows(es[..|es| - 1]) + [Row(last.0, last.1)];
    }
  }

  /** A string in place of the specification object is listed character by
      character under the indices "0", "1", … */
  lemma StringSpecs(s: string)
    requires s != ""
    ensures |Flattened(Str(s))| == |s|
    ensures forall i :: 0 <= i < |s| ==> Flattened(Str(s))[i] == Row(Text.NatToString(i), Str([s[i]]))
  {
    FlatFields(Entries(Str(s)));
  }

  /** The nested example: a group of fields becomes `group field` rows and
      a deeper object stays whole as a value. */
  lemma OneLevelOnly()
    ensures Flattened(Obj([("Voltage", Num(12)),
                           ("Size", Obj([("Height", Num(200)), ("Extra", Obj([("Unit", Str("mm"))]))]))]))
         == [Row("Voltage", Num(12)), Row("Size Height", Num(200)), Row("Size Extra", Obj([("Unit", Str("mm"))]))]
  {
    var es := [("Voltage", Num(12)),
               ("Size", Obj([("Height", Num(200)), ("Extra", Obj([("Unit", Str("mm"))]))]))];
    assert es[..1] == [es[0]];
    RowsSingle(es[0]);
    ContributionMeaning("Size", es[1].1);
    var size := Contribution("Size", es[1].1);
    assert size[0] == Row("Size Height", Num(200));
    assert size[1] == Row("Size Extra", Obj([("Unit", Str("mm"))]));
    assert size == [size[0], size[1]];
    assert Flattened(Obj(es)) == Rows(es) == Rows([es[0]]) + size;
  }

  // ---------------------------------------------------------------------
  // The quantity stepper

  /** `Math.max(1, prev + change)` */
  function NextQuantity(prev: int, change: int): (q: int)
    ensures q >= 1
    ensures q >= prev + change
    ensures q == prev + change || (q == 1 && prev + change < 1)
  {
    if prev + change > 1 then prev + change else 1
  }

  /** The quantity after a run of presses, starting from `start`. */
  function QuantityAfter(start: int, changes: seq<int>): int
  {
    if changes == [] then start
    else NextQuantity(QuantityAfter(start, changes[..|changes| - 1]), changes[|changes| - 1])
  }

  function Sum(xs: seq<int>): int
  {
    if xs == [] then 0 else Sum(xs[..|xs| - 1]) + xs[|xs| - 1]
  }

  /** After any run of presses the quantity is at least 1 and never below
      what the changes add up to: clamping only raises it. */
  lemma {:induction false} QuantityBounds(start: int, changes: seq<int>)
    requires start >= 1
    ensures QuantityAfter(start, changes) >= 1
    ensures QuantityAfter(start, changes) >= start + Sum(changes)
  {
    if changes != [] {
      QuantityBounds(start, changes[..|changes| - 1]);
    }
  }

  /** With the quantity at least 1 and no press going negative, the quantity
      is exactly the start plus the changes: nothing is clamped. */
  lemma {:induction false} NoClampUpward(start: int, changes: seq<int>)
    requires start >= 1
    requires forall k :: 0 <= k < |changes| ==> changes[k] >= 0
    ensures QuantityAfter(start, changes) == start + Sum(changes)
  {
    if changes != [] {
      NoClampUpward(start, changes[..|changes| - 1]);
      QuantityBounds(start, changes[..|changes| - 1]);
    }
  }

  /** The − button at 1 leaves 1; − after + restores the quantity. */
  lemma StepperButtons(q: int)
    requires q >= 1
    ensures NextQuantity(1, -1) == 1
    ensures NextQuantity(NextQuantity(q, 1), -1) == q
    ensures q > 1 ==> NextQuantity(NextQuantity(q, -1), 1) == q
  {
  }

  // ---------------------------------------------------------------------
  // The FAQ accordion

  /** `setOpenFaq(openFaq === index ? null : index)` */
  function ToggleFaq(open: Option<int>, index: int): (r: Option<int>)
    ensures r.None? <==> open == Some(index)
    ensures r.Some? ==> r.value == index
  {
    if open == Some(index) then None else Some(index)
  }

  /** At most one answer is shown: after a click the clicked one is shown
      exactly when it was hidden, and every other one is hidden. */
  lemma ToggleShows(open: Option<int>, index: int, other: int)
    requires other != index
    ensures ToggleFaq(open, index) == Some(index) <==> open != Some(index)
    ensures ToggleFaq(open, index) != Some(other)
  {
  }

  /** Two clicks on the same question leave it as it was. */
  lemma ToggleTwice(open: Option<int>, index: int)
    ensures (ToggleFaq(ToggleFaq(open, index), index) == Some(index)) <==> (open == Some(index))
  {
  }

  // ---------------------------------------------------------------------
  // Recommendations

  /** `res.data.data.slice(0, 4)` when the response succeeds; otherwise the
      list stays as it was. */
  function Recommended<T>(current: seq<T>, success: bool, data: seq<T>): (r: seq<T>)
    ensures success ==> |r| <= 4 && |r| == (if |data| < 4 then |data| else 4) && r == data[..|r|]
    ensures !success ==> r == current
  {
    if !success then current
    else if |data| <= 4 then data
    else data[..4]
  }
}
