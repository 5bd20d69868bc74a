/**
 * `TheoryDataRowBase` (a row of theory data plus settable metadata) and its
 * subclasses: the untyped `TheoryDataRow`, which wraps an argument array, and
 * the typed `TheoryDataRow<T1, ..., TN>` for every arity N from 1 to 15.
 *
 * The fifteen typed classes are one shape here, `Typed(values)` with
 * `|values| == N`: the `Data` tuple's item K is `values[K - 1]`.
 */
module TheoryDataRows {
  import opened Values

  /** The largest arity a typed theory row is declared for. */
  const MaxArity: nat := 15

  /** The C# `int` that `Timeout` holds. */
  newtype Int32 = x: int | -0x8000_0000 <= x < 0x8000_0000

  /** `Dictionary<string, HashSet<string>>`. */
  type Traits = map<string, set<string>>

  /** What a row was built from: the captured array, or the N typed values. */
  datatype Shape = UntypedData(data: ObjArray) | Typed(values: seq<Value>)

  /** The typed classes exist for arities 1 to 15 only. */
  predicate ValidShape(shape: Shape) {
    shape.Typed? ==> 1 <= |shape.values| <= MaxArity
  }

  /** `GetData()`: the captured array, or the typed values in constructor order. */
  function ShapeData(shape: Shape): ObjArray {
    match shape
    case UntypedData(data) => data
    case Typed(values) => Some(values)
  }

  class TheoryDataRow {
    const shape: Shape

    /** The auto-properties of `TheoryDataRowBase`; `None` is `null`. */
    var explicit: Option<bool>
    var rowLabel: Option<string>  // `Label`
    var skip: Option<string>
    var skipType: Option<TypeRef>
    var skipUnless: Option<string>
    var skipWhen: Option<string>
    var testDisplayName: Option<string>
    var timeout: Option<Int32>
    /** The `traits` backing field: a dictionary, never null. */
    var traits: Traits

    /** Every metadata property still has its initial value. */
    ghost predicate HasDefaults()
      reads this
    {
      && explicit == None && rowLabel == None && skip == None && skipType == None
      && skipUnless == None && skipWhen == None && testDisplayName == None && timeout == None
      && traits == map[]
    }

    /** `new TheoryDataRow(data)`. */
    constructor Untyped(data: ObjArray)
      ensures shape == UntypedData(data) && HasDefaults()
    {
      shape := UntypedData(data);
      explicit, rowLabel, skip, skipType := None, None, None, None;
      skipUnless, skipWhen, testDisplayName, timeout := None, None, None, None;
      traits := map[];
    }

    /** `new TheoryDataRow<T1, ..., TN>(p1, ..., pN)`. */
    constructor OfValues(values: seq<Value>)
      requires 1 <= |values| <= MaxArity
      ensures shape == Typed(values) && HasDefaults()
      ensures ValidShape(shape) && GetData() == Some(values)
    {
      shape := Typed(values);
      explicit, rowLabel, skip, skipType := None, None, None, None;
      skipUnless, skipWhen, testDisplayName, timeout := None, None, None, None;
      traits := map[];
    }

    /** `ITheoryDataRow.GetData()`. */
    function GetData(): (d: ObjArray)
      ensures shape.UntypedData? ==> d == shape.data
      ensures shape.Typed? ==> d.Some? && |d.value| == |shape.values|
                               && forall k :: 0 <= k < |d.value| ==> d.value[k] == Item(k + 1)
    {
      ShapeData(shape)
    }

    /** The untyped row's `Data`: the captured array. */
    function Data(): ObjArray
      requires shape.UntypedData?
    {
      shape.data
    }

    /** Item `k` (from 1) of a typed row's `Data` tuple (for arity 1, `Data` itself). */
    function Item(k: nat): Value
      requires shape.Typed? && 1 <= k <= |shape.values|
    {
      shape.values[k - 1]
    }

    /** The `Traits` setter: null throws and keeps the old dictionary; anything else is stored. */
    method SetTraits(value: Option<Traits>) returns (r: Outcome)
      modifies this`traits
      ensures value.None? ==> r == Fail(ArgumentNull("Traits")) && traits == old(traits)
      ensures value.Some? ==> r == Pass && traits == value.value
    {
      if value.None? {
        return Fail(ArgumentNull("Traits"));
      }
      traits := value.value;
      r := Pass;
    }

    /** `implicit operator TheoryDataRow<T1>(T1 p1)`. */
    static method FromValue(p1: Value) returns (row: TheoryDataRow)
      ensures fresh(row) && row.shape == Typed([p1]) && row.HasDefaults()
      ensures row.Item(1) == p1
    {
      row := new TheoryDataRow.OfValues([p1]);
    }

    /**
     * `implicit operator TheoryDataRow<T1, ..., TN>((T1, ..., TN) row)` for N
     * from 2 to 15: the tuple's components, in order.
     */
    static method FromTuple(tuple: seq<Value>) returns (row: TheoryDataRow)
      requires 2 <= |tuple| <= MaxArity
      ensures fresh(row) && row.shape.Typed? && row.HasDefaults()
      ensures |row.shape.values| == |tuple|
      ensures forall k :: 1 <= k <= |tuple| ==> row.Item(k) == tuple[k - 1]
    {
      row := new TheoryDataRow.OfValues(tuple);
    }
  }

  /** `implicit operator T1(TheoryDataRow<T1> p1)`: a null row throws. */
  function ToValue(row: TheoryDataRow?): (r: Result<Value>)
    requires row != null ==> row.shape.Typed? && |row.shape.values| == 1
    ensures row == null <==> r == Err(ArgumentNull("p1"))
    ensures row != null ==> r.Ok? && row.GetData() == Some([r.value])
  {
    if row == null then Err(ArgumentNull("p1"))
    else
      assert row.shape.values == [row.Item(1)];
      Ok(row.Item(1))
  }

  /** A value converted to a one-value row and back is the value. */
  lemma TheoryValueRoundTrip(row: TheoryDataRow, p1: Value)
    requires row.shape == Typed([p1])
    ensures ToValue(row) == Ok(p1)
    ensures row.GetData() == Some([p1])
  {
  }

  /** The untyped row hands back the very array it was built from, as `Data` and as `GetData()`. */
  lemma UntypedDataUnchanged(row: TheoryDataRow, data: ObjArray)
    requires row.shape == UntypedData(data)
    ensures row.Data() == data && row.GetData() == data
  {
  }
}
