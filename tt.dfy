/**
 * Converters from strings to Tarantool field types (tt.go): the type names,
 * the factory interface, the default string factory with its separators
 * and null sentinel, dispatch by type name, and the assembly of one
 * converter per field of a space format.
 */
module TT {
  import opened Values
  import opened Strconv
  import opened Converters

  type TypeName = string

  const TypeBoolean: TypeName := "boolean"
  const TypeString: TypeName := "string"
  const TypeInteger: TypeName := "integer"
  const TypeUnsigned: TypeName := "unsigned"
  const TypeDouble: TypeName := "double"
  const TypeNumber: TypeName := "number"
  const TypeDecimal: TypeName := "decimal"
  const TypeDatetime: TypeName := "datetime"
  const TypeUUID: TypeName := "uuid"
  const TypeArray: TypeName := "array"
  const TypeMap: TypeName := "map"
  const TypeVarbinary: TypeName := "varbinary"
  const TypeScalar: TypeName := "scalar"
  const TypeAny: TypeName := "any"
  const TypeInterval: TypeName := "interval"

  /** The fifteen supported Tarantool types. */
  const TypeNames: set<TypeName> := {
    TypeBoolean, TypeString, TypeInteger, TypeUnsigned, TypeDouble,
    TypeNumber, TypeDecimal, TypeDatetime, TypeUUID, TypeArray,
    TypeMap, TypeVarbinary, TypeScalar, TypeAny, TypeInterval
  }

  const DefaultThousandSeparators: string := ""
  const DefaultDecimalSeparators: string := "."
  const DefaultNullValue: string := ""

  /** TTConvFactory: one converter per type, and the nullable wrapper. */
  datatype ConvFactory<!S> = ConvFactory(
    booleanConv: Converter<S, Value>,
    stringConv: Converter<S, Value>,
    unsignedConv: Converter<S, Value>,
    datetimeConv: Converter<S, Value>,
    uuidConv: Converter<S, Value>,
    mapConv: Converter<S, Value>,
    arrayConv: Converter<S, Value>,
    varbinaryConv: Converter<S, Value>,
    doubleConv: Converter<S, Value>,
    decimalConv: Converter<S, Value>,
    integerConv: Converter<S, Value>,
    numberConv: Converter<S, Value>,
    anyConv: Converter<S, Value>,
    scalarConv: Converter<S, Value>,
    intervalConv: Converter<S, Value>,
    makeNullable: Converter<S, Value> -> Converter<S, Value>)

  /**
   * The default factory for strings. Thousand separators are ignored by the
   * numeric converters; decimal separators become `.` for the float and
   * decimal converters; the null value is read as nil by nullable fields.
   */
  datatype StringToTTConvFactory = StringToTTConvFactory(
    thousandSeparators: string,
    decimalSeparators: string,
    nullValue: string)
  {
    function GetBooleanConverter(): Converter<string, Value> {
      BoolConvert
    }

    function GetStringConverter(): Converter<string, Value> {
      IdentityConvert
    }

    function GetUnsignedConverter(): Converter<string, Value> {
      src => UIntConvert(thousandSeparators, src)
    }

    function GetDatetimeConverter(lib: Library): Converter<string, Value> {
      src => DatetimeConvert(lib, src)
    }

    function GetUUIDConverter(lib: Library): Converter<string, Value> {
      src => UuidConvert(lib, src)
    }

    function GetMapConverter(lib: Library): Converter<string, Value> {
      src => MapConvert(lib, src)
    }

    function GetArrayConverter(lib: Library): Converter<string, Value> {
      src => SliceConvert(lib, src)
    }

    function GetVarbinaryConverter(): Converter<string, Value> {
      BinaryConvert
    }

    function GetDoubleConverter(lib: Library): Converter<string, Value> {
      src => FloatConvert(lib, thousandSeparators, decimalSeparators, src)
    }

    function GetDecimalConverter(lib: Library): Converter<string, Value> {
      src => DecimalConvert(lib, thousandSeparators, decimalSeparators, src)
    }

    /** Unsigned first, then signed. */
    function GetIntegerConverter(): Converter<string, Value> {
      MakeSequenceConverter([
        src => UIntConvert(thousandSeparators, src),
        src => IntConvert(thousandSeparators, src)])
    }

    /** Unsigned, then signed, then floating point. */
    function GetNumberConverter(lib: Library): Converter<string, Value> {
      MakeSequenceConverter([
        src => UIntConvert(thousandSeparators, src),
        src => IntConvert(thousandSeparators, src),
        src => FloatConvert(lib, thousandSeparators, decimalSeparators, src)])
    }

    function GetIntervalConverter(): Converter<string, Value> {
      IntervalConvert
    }

    /** The alternatives tried, in order, for the `any` and `scalar` types; the string comes last. */
    function AnyAlternatives(lib: Library): seq<Converter<string, Value>> {
      [GetNumberConverter(lib), GetDecimalConverter(lib), GetBooleanConverter(),
       GetDatetimeConverter(lib), GetUUIDConverter(lib), GetIntervalConverter(),
       GetStringConverter()]
    }

    function GetAnyConverter(lib: Library): Converter<string, Value> {
      MakeSequenceConverter(AnyAlternatives(lib))
    }

    function GetScalarConverter(lib: Library): Converter<string, Value> {
      MakeSequenceConverter(AnyAlternatives(lib))
    }

    /** The null sentinel first, then the given converter. */
    function MakeNullableConverter(converter: Converter<string, Value>): Converter<string, Value> {
      MakeSequenceConverter([src => NullConvert(nullValue, src), converter])
    }

    function WithNullValue(nullValue: string): (r: StringToTTConvFactory)
      ensures r.nullValue == nullValue
      ensures r.thousandSeparators == thousandSeparators && r.decimalSeparators == decimalSeparators
    {
      this.(nullValue := nullValue)
    }

    function WithThousandSeparators(separators: string): (r: StringToTTConvFactory)
      ensures r.thousandSeparators == separators
      ensures r.decimalSeparators == decimalSeparators && r.nullValue == nullValue
    {
      this.(thousandSeparators := separators)
    }

    function WithDecimalSeparators(separators: string): (r: StringToTTConvFactory)
      ensures r.decimalSeparators == separators
      ensures r.thousandSeparators == thousandSeparators && r.nullValue == nullValue
    {
      this.(decimalSeparators := separators)
    }

    /** The factory as an implementation of the interface. */
    function AsFactory(lib: Library): ConvFactory<string> {
      ConvFactory(
        GetBooleanConverter(), GetStringConverter(), GetUnsignedConverter(),
        GetDatetimeConverter(lib), GetUUIDConverter(lib), GetMapConverter(lib),
        GetArrayConverter(lib), GetVarbinaryConverter(), GetDoubleConverter(lib),
        GetDecimalConverter(lib), GetIntegerConverter(), GetNumberConverter(lib),
        GetAnyConverter(lib), GetScalarConverter(lib), GetIntervalConverter(),
        MakeNullableConverter)
    }
  }

  /** MakeStringToTTConvFactory: no thousand separators, `.` as the decimal separator, "" as null. */
  function MakeStringToTTConvFactory(): (fac: StringToTTConvFactory)
    ensures fac.thousandSeparators == DefaultThousandSeparators
    ensures fac.decimalSeparators == DefaultDecimalSeparators
    ensures fac.nullValue == DefaultNullValue
  {
    StringToTTConvFactory(DefaultThousandSeparators, DefaultDecimalSeparators, DefaultNullValue)
  }

  /** The setters touch different fields, so the order in which they are applied does not matter. */
  lemma SettersCommute(fac: StringToTTConvFactory, thousand: string, decimal: string, nullValue: string)
    ensures fac.WithThousandSeparators(thousand).WithDecimalSeparators(decimal).WithNullValue(nullValue)
      == fac.WithNullValue(nullValue).WithDecimalSeparators(decimal).WithThousandSeparators(thousand)
    ensures fac.WithThousandSeparators(thousand).WithDecimalSeparators(decimal).WithNullValue(nullValue)
      == StringToTTConvFactory(thousand, decimal, nullValue)
  {
  }

  // ---------------------------------------------------------------------------
  // What the composed converters of the string factory do

  /**
   * The number converter: a digit string up to 2^64 - 1 (after the thousand
   * separators are deleted) becomes an unsigned integer; failing that, a
   * signed 64-bit literal becomes a signed integer; failing that, the float
   * parser decides.
   */
  lemma NumberConverterOutcome(fac: StringToTTConvFactory, lib: Library, src: string)
    ensures var t := Substitute(src, fac.thousandSeparators, "");
      IsUnsignedLiteral(t) && DigitsValue(t) <= MAX_UINT64 ==>
        fac.GetNumberConverter(lib)(src) == Success(UInt(DigitsValue(t)))
    ensures var t := Substitute(src, fac.thousandSeparators, "");
      !(IsUnsignedLiteral(t) && DigitsValue(t) <= MAX_UINT64)
      && IsSignedLiteral(t) && MIN_INT64 <= SignedValue(t) <= MAX_INT64 ==>
        fac.GetNumberConverter(lib)(src) == Success(Int(SignedValue(t)))
    ensures var t := Substitute(src, fac.thousandSeparators, "");
      !(IsUnsignedLiteral(t) && DigitsValue(t) <= MAX_UINT64)
      && !(IsSignedLiteral(t) && MIN_INT64 <= SignedValue(t) <= MAX_INT64) ==>
        fac.GetNumberConverter(lib)(src) ==
          var f := FloatConvert(lib, fac.thousandSeparators, fac.decimalSeparators, src);
          if f.Success? then f else Failure(NoMatch)
  {
    var convs := [
      (s: string) => UIntConvert(fac.thousandSeparators, s),
      (s: string) => IntConvert(fac.thousandSeparators, s),
      (s: string) => FloatConvert(lib, fac.thousandSeparators, fac.decimalSeparators, s)];
    assert fac.GetNumberConverter(lib)(src) == FirstSuccess(convs, src);
    assert convs[1..][1..] == convs[2..];
  }

  /** A negative literal is never read as unsigned, so in range it becomes a signed integer. */
  lemma NegativeNumberIsSigned(fac: StringToTTConvFactory, lib: Library, src: string)
    requires var t := Substitute(src, fac.thousandSeparators, "");
      IsNegative(t) && IsSignedLiteral(t) && MIN_INT64 <= SignedValue(t) <= MAX_INT64
    ensures var t := Substitute(src, fac.thousandSeparators, "");
      fac.GetNumberConverter(lib)(src) == Success(Int(SignedValue(t)))
      && fac.GetIntegerConverter()(src) == Success(Int(SignedValue(t)))
  {
    var t := Substitute(src, fac.thousandSeparators, "");
    assert !IsDigit(t[0]);
    NumberConverterOutcome(fac, lib, src);
    IntegerConverterOutcome(fac, src);
  }

  /** The integer converter: unsigned first, then signed, and no other fallback. */
  lemma IntegerConverterOutcome(fac: StringToTTConvFactory, src: string)
    ensures var t := Substitute(src, fac.thousandSeparators, "");
      fac.GetIntegerConverter()(src) ==
        if IsUnsignedLiteral(t) && DigitsValue(t) <= MAX_UINT64 then Success(UInt(DigitsValue(t)))
        else if IsSignedLiteral(t) && MIN_INT64 <= SignedValue(t) <= MAX_INT64 then Success(Int(SignedValue(t)))
        else Failure(NoMatch)
  {
    var convs := [
      (s: string) => UIntConvert(fac.thousandSeparators, s),
      (s: string) => IntConvert(fac.thousandSeparators, s)];
    assert fac.GetIntegerConverter()(src) == FirstSuccess(convs, src);
    assert convs[1..][1..] == [];
  }

  /** A text that keeps a point is not an integer: "1.2" fails unless `.` is a thousand separator. */
  lemma IntegerRejectsFraction(fac: StringToTTConvFactory)
    requires '.' !in fac.thousandSeparators
    ensures fac.GetIntegerConverter()("1.2") == Failure(NoMatch)
  {
    var t := Substitute("1.2", fac.thousandSeparators, "");
    SubstituteDeletes("1.2", fac.thousandSeparators);
    assert "1.2"[1] == '.';
    assert '.' in t;
    var k :| 0 <= k < |t| && t[k] == '.';
    assert !AllDigits(t);
    IntegerConverterOutcome(fac, src := "1.2");
  }

  /**
   * The `any` and `scalar` converters never fail: when none of number,
   * decimal, boolean, datetime, uuid and interval accepts the text, it is
   * kept as a string.
   */
  lemma AnyConverterOutcome(fac: StringToTTConvFactory, lib: Library, src: string)
    ensures fac.GetAnyConverter(lib)(src).Success?
    ensures fac.GetScalarConverter(lib)(src) == fac.GetAnyConverter(lib)(src)
    ensures (forall i :: 0 <= i < 6 ==> fac.AnyAlternatives(lib)[i](src).Failure?) ==>
      fac.GetAnyConverter(lib)(src) == Success(Str(src))
  {
    var alts := fac.AnyAlternatives(lib);
    assert alts[6](src).Success?;
    var r := FirstSuccess(alts, src);
    if forall i :: 0 <= i < 6 ==> alts[i](src).Failure? {
      var i :| 0 <= i < |alts| && alts[i](src) == r && forall j :: 0 <= j < i ==> alts[j](src).Failure?;
      assert i == 6;
    }
  }

  /**
   * The nullable wrapper: the null value gives nil even when the base
   * converter would accept it; any other text is accepted exactly when the
   * base converter accepts it, with the base converter's result.
   */
  lemma NullableConverterOutcome(fac: StringToTTConvFactory, converter: Converter<string, Value>, src: string)
    ensures src == fac.nullValue ==> fac.MakeNullableConverter(converter)(src) == Success(Null)
    ensures src != fac.nullValue ==>
      fac.MakeNullableConverter(converter)(src) ==
        if converter(src).Success? then converter(src) else Failure(NoMatch)
  {
    var convs := [(s: string) => NullConvert(fac.nullValue, s), converter];
    assert fac.MakeNullableConverter(converter)(src) == FirstSuccess(convs, src);
    assert convs[1..][1..] == [];
  }

  // ---------------------------------------------------------------------------
  // Dispatch by type name

  /** GetConverterByType: the getter for a known type name, an error for any other name. */
  function GetConverterByType<S>(fac: ConvFactory<S>, typ: TypeName): (r: Result<Converter<S, Value>>)
    ensures r.Success? <==> typ in TypeNames
    ensures r.Failure? ==> r.error == UnexpectedType(typ)
  {
    if typ == TypeBoolean then Success(fac.booleanConv)
    else if typ == TypeString then Success(fac.stringConv)
    else if typ == TypeUnsigned then Success(fac.unsignedConv)
    else if typ == TypeDatetime then Success(fac.datetimeConv)
    else if typ == TypeUUID then Success(fac.uuidConv)
    else if typ == TypeMap then Success(fac.mapConv)
    else if typ == TypeArray then Success(fac.arrayConv)
    else if typ == TypeVarbinary then Success(fac.varbinaryConv)
    else if typ == TypeDouble then Success(fac.doubleConv)
    else if typ == TypeDecimal then Success(fac.decimalConv)
    else if typ == TypeInteger then Success(fac.integerConv)
    else if typ == TypeNumber then Success(fac.numberConv)
    else if typ == TypeAny then Success(fac.anyConv)
    else if typ == TypeScalar then Success(fac.scalarConv)
    else if typ == TypeInterval then Success(fac.intervalConv)
    else Failure(UnexpectedType(typ))
  }

  /** A space field: its number, name, Tarantool type and whether it may hold null. */
  datatype SpaceField = SpaceField(id: uint32, name: string, typ: TypeName, isNullable: bool)

  /** The converter of one field: any failure is reported as an unexpected value for the field's type. */
  function WrapField<S>(conv: Converter<S, Value>, typ: TypeName): Converter<S, Value> {
    s => match conv(s)
      case Success(v) => Success(v)
      case Failure(_) => Failure(UnexpectedFieldValue(typ))
  }

  lemma WrapFieldBehaviour<S>(conv: Converter<S, Value>, typ: TypeName, s: S)
    ensures WrapField(conv, typ)(s) == if conv(s).Success? then conv(s) else Failure(UnexpectedFieldValue(typ))
  {
  }

  /** The converter for a field of a known type: by type, and made nullable if the field is. */
  function BaseConverter<S>(fac: ConvFactory<S>, field: SpaceField): Converter<S, Value>
    requires field.typ in TypeNames
  {
    var conv := GetConverterByType(fac, field.typ).value;
    if field.isNullable then fac.makeNullable(conv) else conv
  }

  /** The converter built for one field: by type, made nullable if the field is, with its errors wrapped. */
  function FieldConverter<S>(fac: ConvFactory<S>, field: SpaceField): Result<Converter<S, Value>> {
    match GetConverterByType(fac, field.typ)
    case Failure(e) => Failure(e)
    case Success(conv) =>
      Success(WrapField(if field.isNullable then fac.makeNullable(conv) else conv, field.typ))
  }

  /**
   * A field converter exists exactly for a known type. It accepts what the
   * converter for the type (made nullable for a nullable field) accepts,
   * with the same result, and turns every refusal into an unexpected-value
   * error for the field's type.
   */
  lemma FieldConverterBehaviour<S>(fac: ConvFactory<S>, field: SpaceField, s: S)
    ensures FieldConverter(fac, field).Success? <==> field.typ in TypeNames
    ensures FieldConverter(fac, field).Failure? ==> FieldConverter(fac, field).error == UnexpectedType(field.typ)
    ensures field.typ in TypeNames ==>
      FieldConverter(fac, field).value(s) ==
        if BaseConverter(fac, field)(s).Success? then BaseConverter(fac, field)(s)
        else Failure(UnexpectedFieldValue(field.typ))
  {
    if field.typ in TypeNames {
      var base := BaseConverter(fac, field);
      assert FieldConverter(fac, field) == Success(WrapField(base, field.typ));
      WrapFieldBehaviour(base, field.typ, s);
    }
  }

  /** The position of the first field whose type is unknown, or the number of fields if there is none. */
  function FirstUnknown(spaceFmt: seq<SpaceField>): (f: nat)
    ensures f <= |spaceFmt|
    ensures forall j :: 0 <= j < f ==> spaceFmt[j].typ in TypeNames
    ensures f < |spaceFmt| ==> spaceFmt[f].typ !in TypeNames
  {
    if |spaceFmt| == 0 || spaceFmt[0].typ !in TypeNames then 0
    else
      assert forall j :: 1 <= j < |spaceFmt| ==> spaceFmt[j] == spaceFmt[1..][j - 1];
      1 + FirstUnknown(spaceFmt[1..])
  }

  /**
   * The outcome of MakeTypeToTTConverters: one field converter per field, in
   * order, or the error of the first field whose type is unknown.
   */
  function TypeToTTConverters<S>(fac: ConvFactory<S>, spaceFmt: seq<SpaceField>): (r: Result<seq<Converter<S, Value>>>)
    ensures r.Success? <==> forall i :: 0 <= i < |spaceFmt| ==> spaceFmt[i].typ in TypeNames
    ensures r.Success? ==> |r.value| == |spaceFmt|
    ensures r.Success? ==> forall i :: 0 <= i < |spaceFmt| ==> FieldConverter(fac, spaceFmt[i]) == Success(r.value[i])
    ensures r.Failure? ==>
      var f := FirstUnknown(spaceFmt);
      f < |spaceFmt| && r.error == UnexpectedType(spaceFmt[f].typ)
  {
    if |spaceFmt| == 0 then Success([])
    else match FieldConverter(fac, spaceFmt[0])
      case Failure(e) => Failure(e)
      case Success(c) =>
        var rest := TypeToTTConverters(fac, spaceFmt[1..]);
        assert forall i :: 1 <= i < |spaceFmt| ==> spaceFmt[i] == spaceFmt[1..][i - 1];
        match rest
        case Failure(e) => Failure(e)
        case Success(cs) => Success([c] + cs)
  }

  /** MakeTypeToTTConverters: fills a preallocated list field by field and stops at the first unknown type. */
  method MakeTypeToTTConverters<S>(fac: ConvFactory<S>, spaceFmt: seq<SpaceField>)
    returns (r: Result<seq<Converter<S, Value>>>)
    ensures r == TypeToTTConverters(fac, spaceFmt)
  {
    var converters := new Converter<S, Value>[|spaceFmt|];
    for i := 0 to |spaceFmt|
      invariant forall k :: 0 <= k < i ==>
        spaceFmt[k].typ in TypeNames && FieldConverter(fac, spaceFmt[k]) == Success(converters[k])
    {
      var fieldFmt := spaceFmt[i];
      var typ := fieldFmt.typ;
      var byType := GetConverterByType(fac, typ);
      if byType.Failure? {
        assert TypeToTTConverters(fac, spaceFmt).Failure?;
        assert FirstUnknown(spaceFmt) == i;
        return Failure(byType.error);
      }
      var conv := byType.value;
      if fieldFmt.isNullable {
        conv := fac.makeNullable(conv);
      }
      converters[i] := WrapField(conv, typ);
    }
    ghost var spec := TypeToTTConverters(fac, spaceFmt);
    assert forall k :: 0 <= k < |spaceFmt| ==> spec.value[k] == converters[k];
    assert spec.value == converters[..];
    r := Success(converters[..]);
  }

  // ---------------------------------------------------------------------------
  // A factory whose converters report their own type name

  /** Every converter answers with its type name, and a nullable one with "null", whatever the input. */
  function TaggingFactory<S>(): ConvFactory<S> {
    ConvFactory(
      _ => Success(Str(TypeBoolean)), _ => Success(Str(TypeString)),
      _ => Success(Str(TypeUnsigned)), _ => Success(Str(TypeDatetime)),
      _ => Success(Str(TypeUUID)), _ => Success(Str(TypeMap)),
      _ => Success(Str(TypeArray)), _ => Success(Str(TypeVarbinary)),
      _ => Success(Str(TypeDouble)), _ => Success(Str(TypeDecimal)),
      _ => Success(Str(TypeInteger)), _ => Success(Str(TypeNumber)),
      _ => Success(Str(TypeAny)), _ => Success(Str(TypeScalar)),
      _ => Success(Str(TypeInterval)),
      _ => (_ => Success(Str("null"))))
  }

  /** Dispatch picks the getter of the requested type, for each of the fifteen names. */
  lemma DispatchMatchesType<S>(typ: TypeName, s: S)
    requires typ in TypeNames
    ensures GetConverterByType(TaggingFactory<S>(), typ).value(s) == Success(Str(typ))
  {
  }

  /**
   * Every assembled converter answers with its field's type name, or with
   * "null" for a nullable field: nullable fields, and only they, go through
   * the factory's nullable wrapper.
   */
  lemma AssembledConvertersMatchFields<S>(spaceFmt: seq<SpaceField>, s: S)
    requires forall i :: 0 <= i < |spaceFmt| ==> spaceFmt[i].typ in TypeNames
    ensures var r := TypeToTTConverters(TaggingFactory<S>(), spaceFmt);
      r.Success? && |r.value| == |spaceFmt|
      && forall i :: 0 <= i < |spaceFmt| ==>
           r.value[i](s) == Success(Str(if spaceFmt[i].isNullable then "null" else spaceFmt[i].typ))
  {
    var fac := TaggingFactory<S>();
    var r := TypeToTTConverters(fac, spaceFmt);
    forall i | 0 <= i < |spaceFmt|
      ensures r.value[i](s) == Success(Str(if spaceFmt[i].isNullable then "null" else spaceFmt[i].typ))
    {
      assert FieldConverter(fac, spaceFmt[i]) == Success(r.value[i]);
      DispatchMatchesType<S>(spaceFmt[i].typ, s);
    }
  }

  /** A known field followed by an unknown one: the whole assembly fails on the unknown type. */
  lemma UnknownTypeAfterKnown<S>(fac: ConvFactory<S>)
    ensures TypeToTTConverters(fac, [SpaceField(0, "", TypeInteger, false), SpaceField(0, "", "fake", true)])
      == Failure(UnexpectedType("fake"))
  {
    var spaceFmt := [SpaceField(0, "", TypeInteger, false), SpaceField(0, "", "fake", true)];
    assert spaceFmt[1].typ !in TypeNames;
  }
}
