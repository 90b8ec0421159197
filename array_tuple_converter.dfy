/**
 * ArrayTupleConverter: a tuple of 1 to 7 typed fields is written as a JSON array
 * with one element per field, in field order, and read back positionally.
 * The reflection over generic arguments is replaced by an explicit shape, the
 * list of the tuple's declared field types.
 */
module ArrayTupleConverter {
  import opened Wrappers
  import opened Json

  /** The field types the model gives a serialiser for. */
  datatype FieldType = DecimalField | Int32Field | StringField | BoolField

  /** A field value; NullValue is a null String reference. */
  datatype FieldValue =
    | DecimalValue(d: real)
    | Int32Value(i: int)
    | StringValue(s: string)
    | NullValue
    | BoolValue(b: bool)

  /** The declared field types of a tuple type: the tuple types modelled here have 1 to 7 fields. */
  type Shape = s: seq<FieldType> | 1 <= |s| <= 7 witness [StringField]

  predicate IsInt32(i: int) { -0x8000_0000 <= i < 0x8000_0000 }

  /** v is a value of the field type t. */
  predicate HasType(v: FieldValue, t: FieldType) {
    match t
    case DecimalField => v.DecimalValue?
    case Int32Field => v.Int32Value? && IsInt32(v.i)
    case StringField => v.StringValue? || v.NullValue?
    case BoolField => v.BoolValue?
  }

  /** Why the serialiser refused to read one element as its field type. */
  datatype FieldError =
    | UnexpectedToken(expected: FieldType, found: Json)
    | NotAnInt32(n: real)

  /** Why a whole tuple could not be read. */
  datatype DecodeError =
    | UnexpectedNumberOfValues(expected: nat, actual: nat)
    | MoreThanExpected(expected: nat)
    | FieldFailed(cause: FieldError)

  /** What JsonSerializer.Serialize writes for one field. */
  function SerializeField(t: FieldType, v: FieldValue): (j: Json)
    requires HasType(v, t)
    ensures t == DecimalField || t == Int32Field ==> j.JNum?
    ensures t == StringField ==> j.JStr? || j.JNull?
    ensures t == BoolField ==> j.JBool?
  {
    match v
    case DecimalValue(d) => JNum(d)
    case Int32Value(i) => JNum(i as real)
    case StringValue(s) => JStr(s)
    case NullValue => JNull
    case BoolValue(b) => JBool(b)
  }

  /** What JsonSerializer.Deserialize reads for one field. */
  function DeserializeField(t: FieldType, j: Json): (r: Result<FieldValue, FieldError>)
    ensures r.Ok? ==> HasType(r.value, t)
  {
    match (t, j)
    case (DecimalField, JNum(n)) => Ok(DecimalValue(n))
    case (Int32Field, JNum(n)) =>
      if n.Floor as real == n && IsInt32(n.Floor) then Ok(Int32Value(n.Floor)) else Err(NotAnInt32(n))
    case (StringField, JStr(s)) => Ok(StringValue(s))
    case (StringField, JNull) => Ok(NullValue)
    case (BoolField, JBool(b)) => Ok(BoolValue(b))
    case _ => Err(UnexpectedToken(t, j))
  }

  /** The per-field round trip the converter relies on. */
  lemma FieldRoundTrip(t: FieldType, v: FieldValue)
    requires HasType(v, t)
    ensures DeserializeField(t, SerializeField(t, v)) == Ok(v)
  {
  }

  /** A tuple value: System.Tuple`1 to System.Tuple`7 (or the value-tuple equivalents). */
  datatype Tuple =
    | Tuple1(item1: FieldValue)
    | Tuple2(item1: FieldValue, item2: FieldValue)
    | Tuple3(item1: FieldValue, item2: FieldValue, item3: FieldValue)
    | Tuple4(item1: FieldValue, item2: FieldValue, item3: FieldValue, item4: FieldValue)
    | Tuple5(item1: FieldValue, item2: FieldValue, item3: FieldValue, item4: FieldValue, item5: FieldValue)
    | Tuple6(item1: FieldValue, item2: FieldValue, item3: FieldValue, item4: FieldValue, item5: FieldValue,
             item6: FieldValue)
    | Tuple7(item1: FieldValue, item2: FieldValue, item3: FieldValue, item4: FieldValue, item5: FieldValue,
             item6: FieldValue, item7: FieldValue)

  /** The tuple's fields in order, the ITuple indexer. */
  function Fields(t: Tuple): (fs: seq<FieldValue>)
    ensures 1 <= |fs| <= 7
  {
    match t
    case Tuple1(a) => [a]
    case Tuple2(a, b) => [a, b]
    case Tuple3(a, b, c) => [a, b, c]
    case Tuple4(a, b, c, d) => [a, b, c, d]
    case Tuple5(a, b, c, d, e) => [a, b, c, d, e]
    case Tuple6(a, b, c, d, e, f) => [a, b, c, d, e, f]
    case Tuple7(a, b, c, d, e, f, g) => [a, b, c, d, e, f, g]
  }

  /** t is a value of the tuple type whose field types are shape. */
  predicate Conforms(t: Tuple, shape: Shape) {
    |Fields(t)| == |shape| && forall i :: 0 <= i < |shape| ==> HasType(Fields(t)[i], shape[i])
  }

  /**
   * TupleCreator.CreateTuple: the creator in slot arity-1 of the seven-entry table,
   * instantiated at the shape's field types, applied to the arguments.
   */
  function CreateTuple(shape: Shape, arguments: seq<FieldValue>): (t: Tuple)
    requires |arguments| == |shape|
    requires forall i :: 0 <= i < |shape| ==> HasType(arguments[i], shape[i])
    ensures Fields(t) == arguments && Conforms(t, shape)
  {
    var a := arguments;
    match |shape| - 1
    case 0 => Tuple1(a[0])
    case 1 => Tuple2(a[0], a[1])
    case 2 => Tuple3(a[0], a[1], a[2])
    case 3 => Tuple4(a[0], a[1], a[2], a[3])
    case 4 => Tuple5(a[0], a[1], a[2], a[3], a[4])
    case 5 => Tuple6(a[0], a[1], a[2], a[3], a[4], a[5])
    case 6 => Tuple7(a[0], a[1], a[2], a[3], a[4], a[5], a[6])
  }

  /** Creating a tuple from an existing tuple's fields recreates that tuple. */
  lemma CreateFromFields(t: Tuple, shape: Shape)
    requires Conforms(t, shape)
    ensures CreateTuple(shape, Fields(t)) == t
  {
  }

  /** The JSON array Write produces for a tuple. */
  function Encode(shape: Shape, t: Tuple): (json: Json)
    requires Conforms(t, shape)
  {
    JArr(seq(|shape|, i requires 0 <= i < |shape| => SerializeField(shape[i], Fields(t)[i])))
  }

  /** Every element of an encoded tuple is the corresponding field serialised with its declared type. */
  lemma EncodeElements(shape: Shape, t: Tuple)
    requires Conforms(t, shape)
    ensures Encode(shape, t).JArr? && |Encode(shape, t).elems| == |Fields(t)| == |shape|
    ensures forall i :: 0 <= i < |shape| ==> Encode(shape, t).elems[i] == SerializeField(shape[i], Fields(t)[i])
  {
  }

  /** The first n elements read as the first n field types, stopping at the first failure. */
  function DecodePrefix(shape: Shape, elems: seq<Json>, n: nat): (r: Result<seq<FieldValue>, FieldError>)
    requires n <= |shape| && n <= |elems|
    ensures r.Ok? ==> |r.value| == n
    decreases n
  {
    if n == 0 then Ok([])
    else
      match DecodePrefix(shape, elems, n - 1)
      case Err(e) => Err(e)
      case Ok(vs) =>
        match DeserializeField(shape[n - 1], elems[n - 1])
        case Err(e) => Err(e)
        case Ok(v) => Ok(vs + [v])
  }

  function Min(a: nat, b: nat): nat { if a <= b then a else b }

  /**
   * What Read returns for the elements of a JSON array: as many elements as the
   * shape has fields are read eagerly (a field failure ends the read); then too few
   * values and leftover elements are reported, in that order.
   */
  function Decode(shape: Shape, elems: seq<Json>): Result<Tuple, DecodeError> {
    match DecodePrefix(shape, elems, Min(|shape|, |elems|))
    case Err(e) => Err(FieldFailed(e))
    case Ok(arguments) =>
      if |arguments| != |shape| then Err(UnexpectedNumberOfValues(|shape|, |arguments|))
      else if |elems| > |shape| then Err(MoreThanExpected(|shape|))
      else
        DecodePrefixTyped(shape, elems, |shape|);
        Ok(CreateTuple(shape, arguments))
  }

  lemma {:induction false} DecodePrefixTyped(shape: Shape, elems: seq<Json>, n: nat)
    requires n <= |shape| && n <= |elems|
    ensures DecodePrefix(shape, elems, n).Ok? ==>
      forall i :: 0 <= i < n ==> HasType(DecodePrefix(shape, elems, n).value[i], shape[i])
  {
    if n > 0 {
      DecodePrefixTyped(shape, elems, n - 1);
    }
  }

  /**
   * A prefix reads successfully exactly when each of its elements reads as its field
   * type, and then value i is element i read as field type i.
   */
  lemma {:induction false} DecodePrefixOk(shape: Shape, elems: seq<Json>, n: nat)
    requires n <= |shape| && n <= |elems|
    ensures DecodePrefix(shape, elems, n).Ok? <==> forall i :: 0 <= i < n ==> DeserializeField(shape[i], elems[i]).Ok?
    ensures DecodePrefix(shape, elems, n).Ok? ==>
      forall i :: 0 <= i < n ==> DecodePrefix(shape, elems, n).value[i] == DeserializeField(shape[i], elems[i]).value
  {
    if n > 0 {
      DecodePrefixOk(shape, elems, n - 1);
    }
  }

  /** A failed prefix is reported with the error of its first failing element. */
  lemma {:induction false} DecodePrefixFirstError(shape: Shape, elems: seq<Json>, n: nat, k: nat)
    requires k < n <= |shape| && n <= |elems|
    requires forall i :: 0 <= i < k ==> DeserializeField(shape[i], elems[i]).Ok?
    requires DeserializeField(shape[k], elems[k]).Err?
    ensures DecodePrefix(shape, elems, n) == Err(DeserializeField(shape[k], elems[k]).error)
  {
    if n == k + 1 {
      DecodePrefixOk(shape, elems, k);
    } else {
      DecodePrefixFirstError(shape, elems, n - 1, k);
    }
  }

  /** Once a prefix fails, every longer prefix fails with the same error. */
  lemma {:induction false} DecodePrefixErrorPersists(shape: Shape, elems: seq<Json>, m: nat, n: nat)
    requires m <= n <= |shape| && n <= |elems|
    requires DecodePrefix(shape, elems, m).Err?
    ensures DecodePrefix(shape, elems, n) == DecodePrefix(shape, elems, m)
    decreases n - m
  {
    if m < n {
      DecodePrefixErrorPersists(shape, elems, m + 1, n);
    }
  }

  /** ArrayTupleConverter<TTuple>.Read, on the elements of the array the reader is on. */
  method Read(shape: Shape, node: Json) returns (r: Result<Tuple, DecodeError>)
    requires node.JArr?
    ensures r == Decode(shape, node.elems)
  {
    var elems := node.elems;
    var arguments: seq<FieldValue> := [];
    var i := 0;
    while i < |shape| && i < |elems|
      invariant i <= |shape| && i <= |elems|
      invariant |arguments| == i <= |shape|
      invariant DecodePrefix(shape, elems, i) == Ok(arguments)
    {
      var field := DeserializeField(shape[i], elems[i]);
      if field.Err? {
        DecodePrefixErrorPersists(shape, elems, i + 1, Min(|shape|, |elems|));
        return Err(FieldFailed(field.error));
      }
      arguments := arguments + [field.value];
      i := i + 1;
    }
    if |arguments| != |shape| {
      return Err(UnexpectedNumberOfValues(|shape|, |arguments|));
    }
    if i < |elems| {
      return Err(MoreThanExpected(|shape|));
    }
    DecodePrefixTyped(shape, elems, |shape|);
    r := Ok(CreateTuple(shape, arguments));
  }

  /** ArrayTupleConverter<TTuple>.Write: each field serialised with its declared type, into one array. */
  method Write(shape: Shape, value: Tuple) returns (node: Json)
    requires Conforms(value, shape)
    ensures node == Encode(shape, value)
  {
    var fields := Fields(value);
    var elems: seq<Json> := [];
    var i := 0;
    while i < |fields|
      invariant i <= |fields| == |shape|
      invariant |elems| == i
      invariant forall j :: 0 <= j < i ==> elems[j] == SerializeField(shape[j], fields[j])
    {
      elems := elems + [SerializeField(shape[i], fields[i])];
      i := i + 1;
    }
    node := JArr(elems);
  }

  /** Read succeeds exactly when the array has one element per field and every element reads. */
  lemma DecodeSucceedsIff(shape: Shape, elems: seq<Json>)
    ensures Decode(shape, elems).Ok? <==>
      |elems| == |shape| && forall i :: 0 <= i < |shape| ==> DeserializeField(shape[i], elems[i]).Ok?
  {
    DecodePrefixOk(shape, elems, Min(|shape|, |elems|));
  }

  /** On success, field i is element i read as the i-th declared field type. */
  lemma DecodePositional(shape: Shape, elems: seq<Json>)
    requires Decode(shape, elems).Ok?
    ensures Conforms(Decode(shape, elems).value, shape) && |elems| == |shape|
    ensures forall i :: 0 <= i < |shape| ==>
      DeserializeField(shape[i], elems[i]) == Ok(Fields(Decode(shape, elems).value)[i])
  {
    DecodePrefixOk(shape, elems, Min(|shape|, |elems|));
  }

  /** Too few elements, all of which read: the count error, carrying arity and elements seen. */
  lemma DecodeTooFew(shape: Shape, elems: seq<Json>)
    requires |elems| < |shape|
    requires forall i :: 0 <= i < |elems| ==> DeserializeField(shape[i], elems[i]).Ok?
    ensures Decode(shape, elems) == Err(UnexpectedNumberOfValues(|shape|, |elems|))
  {
    DecodePrefixOk(shape, elems, |elems|);
  }

  /** More elements than fields, the first arity of which read: the "more than expected" error. */
  lemma DecodeTooMany(shape: Shape, elems: seq<Json>)
    requires |elems| > |shape|
    requires forall i :: 0 <= i < |shape| ==> DeserializeField(shape[i], elems[i]).Ok?
    ensures Decode(shape, elems) == Err(MoreThanExpected(|shape|))
  {
    DecodePrefixOk(shape, elems, |shape|);
  }

  /** An element that does not read is reported, when every earlier element reads, whatever the count. */
  lemma DecodeFieldFailure(shape: Shape, elems: seq<Json>, k: nat)
    requires k < |shape| && k < |elems|
    requires forall i :: 0 <= i < k ==> DeserializeField(shape[i], elems[i]).Ok?
    requires DeserializeField(shape[k], elems[k]).Err?
    ensures Decode(shape, elems) == Err(FieldFailed(DeserializeField(shape[k], elems[k]).error))
  {
    DecodePrefixFirstError(shape, elems, Min(|shape|, |elems|), k);
  }

  lemma {:induction false} DecodePrefixOfEncoding(shape: Shape, t: Tuple, n: nat)
    requires Conforms(t, shape) && n <= |shape|
    ensures DecodePrefix(shape, Encode(shape, t).elems, n) == Ok(Fields(t)[..n])
  {
    if n > 0 {
      DecodePrefixOfEncoding(shape, t, n - 1);
      FieldRoundTrip(shape[n - 1], Fields(t)[n - 1]);
      assert Fields(t)[..n - 1] + [Fields(t)[n - 1]] == Fields(t)[..n];
    }
  }

  /** Reading the array written for a tuple gives back that tuple. */
  lemma RoundTrip(shape: Shape, t: Tuple)
    requires Conforms(t, shape)
    ensures Decode(shape, Encode(shape, t).elems) == Ok(t)
  {
    DecodePrefixOfEncoding(shape, t, |shape|);
    assert Fields(t)[..|shape|] == Fields(t);
    CreateFromFields(t, shape);
  }

  /** The (Decimal Timestamp, String Value) sample pair of a query result. */
  const SampleShape: Shape := [DecimalField, StringField]

  /** A sample pair is written as a number followed by a quoted string, and read back unchanged. */
  lemma SamplePairWire(timestamp: real, value: string)
    ensures Encode(SampleShape, Tuple2(DecimalValue(timestamp), StringValue(value)))
         == JArr([JNum(timestamp), JStr(value)])
    ensures Decode(SampleShape, [JNum(timestamp), JStr(value)]) == Ok(Tuple2(DecimalValue(timestamp), StringValue(value)))
  {
    RoundTrip(SampleShape, Tuple2(DecimalValue(timestamp), StringValue(value)));
  }
}
