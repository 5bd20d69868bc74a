/**
 * `TestDataBase` and its four concrete collections (`TestData`,
 * `TestData<T>`, `TestData<T1, T2>`, `TestData<T1, T2, T3>`): an
 * insertion-ordered, append-only list of rows, filled one row at a time or by
 * `AddRange` loops that stop at the first null element.
 *
 * The four classes are one class here whose `variant` records which of them
 * an object is; the generic type arguments become the shape a raw row and a
 * row must have for that variant.
 */
module TestDataCollections {
  import opened Values
  import opened TestDataRows

  /** Which concrete collection: `TestData<T>` carries `default(T)`, which its `Add` override uses. */
  datatype Variant = Untyped | Typed1(defaultValue: Value) | Typed2 | Typed3

  /** A `TRawTestDataRow`: an `object?[]`, a `T`, a `(T1, T2)` or a `(T1, T2, T3)`. */
  datatype RawRow =
    | RawArray(items: ObjArray)
    | Raw1(p1: Value)
    | Raw2(pair: (Value, Value))
    | Raw3(triple: (Value, Value, Value))

  /** The raw-row type argument of the variant. */
  predicate RawFits(variant: Variant, raw: RawRow) {
    match variant
    case Untyped => raw.RawArray?
    case Typed1(_) => raw.Raw1?
    case Typed2 => raw.Raw2?
    case Typed3 => raw.Raw3?
  }

  /** The row type argument of the variant. */
  predicate RowFits(variant: Variant, row: TestDataRow) {
    match variant
    case Untyped => row.Untyped?
    case Typed1(_) => row.Row1?
    case Typed2 => row.Row2?
    case Typed3 => row.Row3?
  }

  /**
   * What `ArgumentNullException.ThrowIfNull` rejects among raw rows: a null
   * array or a null `T`. Tuples are value types and are never null.
   */
  predicate IsNullRaw(raw: RawRow) {
    raw == RawArray(None) || raw == Raw1(Null)
  }

  /** A null row reference. */
  predicate IsNullRow(row: Option<TestDataRow>) {
    row.None?
  }

  /**
   * The variant's `Convert`: the row built from a raw row holds its components
   * in order, and the untyped row hands back the very array it was given.
   */
  function Convert(variant: Variant, raw: RawRow): (row: TestDataRow)
    requires RawFits(variant, raw)
    ensures RowFits(variant, row)
    ensures raw.RawArray? ==> row.GetData() == raw.items
    ensures raw.Raw1? ==> row.GetData() == Some([raw.p1])
    ensures raw.Raw2? ==> row.Pair() == raw.pair && row.GetData() == Some([raw.pair.0, raw.pair.1])
    ensures raw.Raw3? ==> row.Triple() == raw.triple
                          && row.GetData() == Some([raw.triple.0, raw.triple.1, raw.triple.2])
  {
    match raw
    case RawArray(items) => TestDataRow.Untyped(items)
    case Raw1(p1) => Row1(p1)
    case Raw2(pair) => Row2(pair.0, pair.1)
    case Raw3(triple) => Row3(triple.0, triple.1, triple.2)
  }

  /** Every row of a collection has the variant's row type. */
  ghost predicate AllFit(variant: Variant, rows: seq<TestDataRow>) {
    forall k :: 0 <= k < |rows| ==> RowFits(variant, rows[k])
  }

  class TestData {
    /** Which of the four collections this is. */
    const variant: Variant
    /** The private `List<TTestDataRow> _data`. */
    var data: seq<TestDataRow>

    /**
     * Every row has the variant's row type: this records the generic type
     * argument `TTestDataRow` of the list, and nothing more.
     */
    ghost predicate Valid()
      reads this
    {
      AllFit(variant, data)
    }

    /** The parameterless constructor: an empty collection. */
    constructor (variant: Variant)
      ensures this.variant == variant && data == [] && Valid()
    {
      this.variant := variant;
      data := [];
    }

    /** `Count`: the number of rows enumeration yields. */
    function Count(): (n: nat)
      reads this
      ensures n == |Rows()|
    {
      |data|
    }

    /** `GetEnumerator()`: the rows in insertion order. */
    function Rows(): seq<TestDataRow>
      reads this
    {
      data
    }

    /** `Add(TRawTestDataRow row)`: appends the converted row, whatever it holds. */
    method AddRaw(raw: RawRow)
      requires Valid() && RawFits(variant, raw)
      modifies this
      ensures Valid()
      ensures data == old(data) + [Convert(variant, raw)]
      ensures Count() == old(Count()) + 1
    {
      data := data + [Convert(variant, raw)];
    }

    /**
     * `Add(TTestDataRow row)`: a null row throws and changes nothing, except
     * in `TestData<T>`, whose override appends `Convert(default(T))` instead.
     */
    method Add(row: Option<TestDataRow>) returns (r: Outcome)
      requires Valid() && (row.Some? ==> RowFits(variant, row.value))
      modifies this
      ensures Valid()
      ensures row.Some? ==> r == Pass && data == old(data) + [row.value]
      ensures row.None? && variant.Typed1? ==>
                r == Pass && data == old(data) + [Convert(variant, Raw1(variant.defaultValue))]
      ensures row.None? && !variant.Typed1? ==> r == Fail(ArgumentNull("row")) && data == old(data)
    {
      var toAdd := row;
      if variant.Typed1? && row.None? {
        toAdd := Some(Convert(variant, Raw1(variant.defaultValue)));
      }
      if toAdd.None? {
        return Fail(ArgumentNull("row"));
      }
      data := data + [toAdd.value];
      r := Pass;
    }

    /** `TestData<T1, T2>.Add(p1, p2)`: appends the row whose data is `(p1, p2)`. */
    method AddPair(p1: Value, p2: Value)
      requires Valid() && variant == Typed2
      modifies this
      ensures Valid()
      ensures |data| == |old(data)| + 1 && data[..|old(data)|] == old(data)
      ensures data[|old(data)|].Pair() == (p1, p2) && data[|old(data)|].GetData() == Some([p1, p2])
    {
      var r := Add(Some(Row2(p1, p2)));
      assert data[..|old(data)|] == old(data);
    }

    /** `TestData<T1, T2, T3>.Add(p1, p2, p3)`: appends the row whose data is `(p1, p2, p3)`. */
    method AddTriple(p1: Value, p2: Value, p3: Value)
      requires Valid() && variant == Typed3
      modifies this
      ensures Valid()
      ensures |data| == |old(data)| + 1 && data[..|old(data)|] == old(data)
      ensures data[|old(data)|].Triple() == (p1, p2, p3) && data[|old(data)|].GetData() == Some([p1, p2, p3])
    {
      var r := Add(Some(Row3(p1, p2, p3)));
      assert data[..|old(data)|] == old(data);
    }

    /**
     * Both `AddRange` overloads over raw rows: the rows before the first null
     * one are converted and appended in order and stay appended; the null one
     * throws.
     */
    method AddRange(raws: seq<RawRow>) returns (r: Outcome)
      requires Valid() && forall k :: 0 <= k < |raws| ==> RawFits(variant, raws[k])
      modifies this
      ensures Valid()
      ensures var n := FirstIndex(raws, IsNullRaw);
              && |data| == |old(data)| + n && data[..|old(data)|] == old(data)
              && (forall k :: 0 <= k < n ==> data[|old(data)| + k] == Convert(variant, raws[k]))
              && (r == Pass <==> n == |raws|)
              && (r.Fail? ==> r.error == ArgumentNull("row"))
    {
      var i := 0;
      while i < |raws|
        invariant 0 <= i <= |raws| && Valid()
        invariant forall j :: 0 <= j < i ==> !IsNullRaw(raws[j])
        invariant |data| == |old(data)| + i && data[..|old(data)|] == old(data)
        invariant forall k :: 0 <= k < i ==> data[|old(data)| + k] == Convert(variant, raws[k])
      {
        if IsNullRaw(raws[i]) {
          FirstIndexAt(raws, IsNullRaw, i);
          return Fail(ArgumentNull("row"));
        }
        AddRaw(raws[i]);
        i := i + 1;
      }
      FirstIndexAt(raws, IsNullRaw, i);
      r := Pass;
    }

    /**
     * Both `AddRange` overloads over rows: the null check runs before `Add`, so
     * a null row throws in every variant, `TestData<T>` included; the rows
     * before it stay appended.
     */
    method AddRangeRows(rows: seq<Option<TestDataRow>>) returns (r: Outcome)
      requires Valid() && forall k :: 0 <= k < |rows| && rows[k].Some? ==> RowFits(variant, rows[k].value)
      modifies this
      ensures Valid()
      ensures var n := FirstIndex(rows, IsNullRow);
              && |data| == |old(data)| + n && data[..|old(data)|] == old(data)
              && (forall k :: 0 <= k < n ==> Some(data[|old(data)| + k]) == rows[k])
              && (r == Pass <==> n == |rows|)
              && (r.Fail? ==> r.error == ArgumentNull("row"))
    {
      var i := 0;
      while i < |rows|
        invariant 0 <= i <= |rows| && Valid()
        invariant forall j :: 0 <= j < i ==> !IsNullRow(rows[j])
        invariant |data| == |old(data)| + i && data[..|old(data)|] == old(data)
        invariant forall k :: 0 <= k < i ==> Some(data[|old(data)| + k]) == rows[k]
      {
        if IsNullRow(rows[i]) {
          FirstIndexAt(rows, IsNullRow, i);
          return Fail(ArgumentNull("row"));
        }
        var added := Add(rows[i]);
        i := i + 1;
      }
      FirstIndexAt(rows, IsNullRow, i);
      r := Pass;
    }

    /**
     * The typed constructors over raw rows: a new collection filled by
     * `AddRange`; a null element makes the constructor throw.
     */
    static method FromRaws(variant: Variant, raws: seq<RawRow>) returns (r: Result<TestData>)
      requires !variant.Untyped? && forall k :: 0 <= k < |raws| ==> RawFits(variant, raws[k])
      ensures r.Ok? <==> forall k :: 0 <= k < |raws| ==> !IsNullRaw(raws[k])
      ensures r.Err? ==> r.error == ArgumentNull("row")
      ensures r.Ok? ==> fresh(r.value) && r.value.variant == variant && r.value.Valid()
                        && |r.value.data| == |raws|
                        && forall k :: 0 <= k < |raws| ==> r.value.data[k] == Convert(variant, raws[k])
    {
      var d := new TestData(variant);
      var o := d.AddRange(raws);
      ghost var n := FirstIndex(raws, IsNullRaw);
      if o.Fail? {
        assert IsNullRaw(raws[n]);
        return Err(o.error);
      }
      assert forall k :: 0 <= k < |raws| ==> d.data[k] == d.data[0 + k];
      r := Ok(d);
    }

    /**
     * The typed constructors over rows: a new collection filled by
     * `AddRange`; a null row makes the constructor throw.
     */
    static method FromRows(variant: Variant, rows: seq<Option<TestDataRow>>) returns (r: Result<TestData>)
      requires !variant.Untyped? && forall k :: 0 <= k < |rows| && rows[k].Some? ==> RowFits(variant, rows[k].value)
      ensures r.Ok? <==> forall k :: 0 <= k < |rows| ==> rows[k].Some?
      ensures r.Err? ==> r.error == ArgumentNull("row")
      ensures r.Ok? ==> fresh(r.value) && r.value.variant == variant && r.value.Valid()
                        && |r.value.data| == |rows|
                        && forall k :: 0 <= k < |rows| ==> Some(r.value.data[k]) == rows[k]
    {
      var d := new TestData(variant);
      var o := d.AddRangeRows(rows);
      ghost var n := FirstIndex(rows, IsNullRow);
      if o.Fail? {
        assert IsNullRow(rows[n]);
        return Err(o.error);
      }
      assert forall k :: 0 <= k < |rows| ==> d.data[k] == d.data[0 + k];
      r := Ok(d);
    }
  }

  /** `FirstIndex` is the position a left-to-right scan stops at. */
  lemma FirstIndexAt<T>(s: seq<T>, p: T -> bool, i: nat)
    requires i <= |s|
    requires forall j :: 0 <= j < i ==> !p(s[j])
    requires i < |s| ==> p(s[i])
    ensures FirstIndex(s, p) == i
  {
  }
}
