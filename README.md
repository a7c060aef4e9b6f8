# go-tupleconv in Dafny

A model of the conversion engine of go-tupleconv. go-tupleconv turns the text fields of a tuple into
typed Tarantool values. The model has three layers:

- **Converters (`converter.go`).**
  - A converter is a fallible function, modelled as a Dafny arrow `S -> Result<T>`.
  - The primitive converters are identity, boolean, unsigned and signed 64-bit integers, float and
    decimal (their preprocessing only), UUID, datetime, JSON map and slice, binary, and the null
    sentinel.
  - The first-success sequence combinator tries converters in order.
  - Intervals are converted in both directions, with nine comma-separated fields.
- **Factory (`tt.go`).**
  - The default string factory holds its thousand separators, decimal separators and null value.
    Its getters compose the primitive converters: integer is uint then int; number is uint, int,
    then float; any and scalar end with the identity converter.
  - The nullable wrapper tries the null sentinel first.
  - Dispatch over the fifteen Tarantool type names.
  - The per-field assembly of converters from a space format.
- **Mapper (`mapper.go`).** Applies the converters to a tuple position by position. Past the end of
  the list it uses an optional default converter. It checks the tuple length first and stops at the
  first failing field.

Modules:

- `values.dfy` (`Values`): fixed-width integer types, `Result`, the error kinds, the `Interval`
  record and the dynamically typed `Value` that stands for Go's `any`.
- `gostrings.dfy` (`GoStrings`), `strconv.dfy` (`Strconv`) and `utf8.dfy` (`Utf8`): the parts of Go's
  standard library that the model writes out (the other standard-library parsers stay opaque; see
  below).
  - `strings.ReplaceAll`, `Split` and `Cut`. `GoStrings.Join` over the nine `%d` fields of an
    interval renders the `fmt.Sprintf("%d,%d,...")` of the interval formatter; the source does not
    call `strings.Join`, so `Join` is defined only for the nonempty lists that formatter needs.
  - `strconv.ParseUint`, `ParseInt` and `ParseBool` in base 10 over 64 bits, and `%d` formatting.
  - The UTF-8 encoding behind `[]byte(s)`.
- `converter.dfy` (`Converters`), `tt.dfy` (`TT`) and `mapper.dfy` (`TupleMapper`): the three source
  files.
- `cases.dfy` (`ConverterCases`): rows of the converter tables, derived from the general contracts.

Parts of the source that work by updating variables are written as methods with loops. Each method
is proved equal to a specification function, and the properties are proved about that function:

- `replaceCharacters` and the sequence converter;
- the interval parser, which fills an array of nine integers;
- `MakeTypeToTTConverters` and `Mapper.Map`, which fill a preallocated array by index.

The model leaves some parsers opaque. They are fields of a `Library` record, passed as a parameter:
- from the Go standard library: `strconv.ParseFloat`, the two `time` layouts with
  `time.LoadLocation`, and `json.Unmarshal`;
- from other libraries: `decimal.NewDecimalFromString`, `uuid.Parse` and `datetime.NewDatetime`.

The model states only how the converters prepare the text for these parsers and how they use the
answer.

## Model

| member | source | states |
|---|---|---|
| Converters.FirstSuccess | converter.go:69-79 | the first converter of the list that succeeds gives the result, and every converter before it fails; the result is a failure exactly when every converter fails, so an empty list always fails |
| Converters.SequenceConvert | converter.go:71-77 | the loop with its early return gives exactly the first-success outcome |
| Converters.ReplaceEach | converter.go:82-87 | no contract of its own: what `replaceCharacters` computes, one ReplaceAll per character in order; ReplaceEachSubstitutes states its meaning |
| Converters.ReplaceCharacters | converter.go:82-87 | the loop applies ReplaceAll once per character of the set; when the replacement is empty or one character, this is a single substitution over the set |
| Converters.ReplaceEachSubstitutes | converter.go:82-87 | replacing the characters one after another equals substituting each character of the set at once (for a replacement of at most one character) |
| Converters.SubstituteDeletes | converter.go:82-87 | with an empty replacement, a character is in the output exactly when it is in the input and not in the set |
| Converters.SubstituteKeeps | converter.go:82-87 | a text without any character of the set passes unchanged |
| Converters.BoolConvert | converter.go:98-100 | accepts exactly Go's twelve boolean literals; true exactly for the six true spellings |
| Converters.UIntConvert | converter.go:113-116 | after the ignored characters are deleted: succeeds exactly on a nonempty digit string of value at most 2^64 - 1, with that value |
| Converters.IntConvert | converter.go:129-132 | after the ignored characters are deleted: succeeds exactly on an optionally signed digit string in [-2^63, 2^63 - 1], with its signed value |
| Converters.SeparatorInsensitive | converter.go:113-116 | inserting an ignored character anywhere changes neither integer converter's outcome |
| Converters.UIntReadsDecimal | converter.go:113-116 | every decimal spelling is read back exactly when the number is at most 2^64 - 1 |
| Converters.IntReadsDecimal | converter.go:129-132 | every `%d` spelling is read back exactly when the number is in the signed 64-bit range |
| Converters.FloatConvert | converter.go:146-150 | the float parser sees the text with ignored characters deleted and decimal separators turned into `.`; its answer decides the outcome, and a refusal quotes that prepared text |
| Converters.DecimalConvert | converter.go:164-168 | the same preprocessing, then the decimal parser decides; a refusal quotes the prepared text |
| Converters.NumeralText | converter.go:147-148 | no contract of its own: the two `replaceCharacters` passes (also converter.go:165-166) whose output the float and decimal parsers see; NumeralTextSubstitutes and DecimalSeparatorFolded state its meaning |
| Converters.NumeralTextSubstitutes | converter.go:147-148 | the two replacement passes of the float and decimal converters amount to one deleting substitution followed by one folding substitution |
| Converters.DecimalSeparatorFolded | converter.go:147-148 | a decimal separator between two plain runs of text reaches the parser as `.` |
| Converters.FractionalSeparatorInsensitive | converter.go:146-150 | inserting an ignored character anywhere changes nothing for the float and decimal converters, errors included |
| Converters.UuidConvert | converter.go:179-181 | succeeds exactly when the UUID parser accepts the text, with its octets |
| Converters.DatetimeConvert | converter.go:200-220 | without a space, the offset layout decides; otherwise the text before the first space is parsed in the zone named after it; failures report the input |
| Converters.CutIsUnique | converter.go:201 | the split at the first space is the only split into a space-free date, a space and a zone |
| Converters.MapConvert | converter.go:232-239 | succeeds exactly when the JSON decoder accepts the text, with the decoded value unchanged, whatever its shape |
| Converters.SliceIsMap | converter.go:251-258 | the slice converter decodes exactly as the map converter does |
| Converters.TotalConverters | converter.go:49-51 | the identity converter never fails and returns its input; the binary converter never fails and its bytes decode back to the input |
| Converters.IdentityConvert | converter.go:49-51 | no contract of its own: TotalConverters states that it never fails and returns its input |
| Converters.MakeSequenceConverter | converter.go:69-79 | no contract of its own: the converter it builds answers with FirstSuccess over the list, whose contract states the first-success outcome |
| Converters.SliceConvert | converter.go:251-258 | no contract of its own: SliceIsMap shows it equals the map converter, whose contract states the pass-through |
| Converters.BinaryConvert | converter.go:269-271 | never fails, and its bytes (the UTF-8 encoding) decode back to the input |
| Converters.NullConvert | converter.go:284-289 | succeeds, with nil, exactly on the null sentinel |
| Converters.ParseEach | converter.go:311-316 | parses every part or none: the result exists exactly when every part parses, with one value per part, in order |
| Converters.ParseInts | converter.go:311-316 | every part is a signed 64-bit literal exactly when the list of their values exists, in part order |
| Converters.ParseIntervalSpec | converter.go:300-334 | succeeds exactly on nine comma-separated signed 64-bit integers whose last one is an adjust code; the fields are year, month, week, day, hour, min, sec, nsec, adjust; every failure is the interval-format error |
| Converters.ParseParts | converter.go:310-316 | the loop that fills the fixed array of nine values gives the values of all parts, or nothing at the first part that does not parse |
| Converters.ParseInterval | converter.go:305-334 | no contract of its own: ParseIntervalSpec states its grammar, field order and error, and ParseFormatInterval the round trip |
| Converters.IntervalConvert | converter.go:305-334 | succeeds exactly when the interval parser does, with its interval; every refusal is the interval-format error |
| Converters.ConvertInterval | converter.go:305-334 | the imperative converter, with its three early returns, computes the interval parser's outcome |
| Converters.ParseIntsOf | converter.go:310-316 | parts that each parse to the given numbers yield exactly those numbers |
| Converters.FormatInts | converter.go:366-368 | one `%d` field per number, in order |
| Converters.IntervalFieldsSplit | converter.go:365-370 | splitting the formatted interval at commas gives back its nine fields |
| Converters.ParseFormatInts | converter.go:366-368 | parsing the `%d` spellings of a list of signed 64-bit integers gives the list back |
| Converters.FormatInterval | converter.go:366-368 | no contract of its own: IntervalFieldsSplit states that it splits back into the nine `%d` fields |
| Converters.IntervalToStringConvert | converter.go:365-370 | never fails; the interval converter reads its text back to the same interval when the adjust code is valid, and refuses it with the interval-format error otherwise |
| Converters.ParseFormatInterval | converter.go:365-370 | round trip: parsing the formatted interval gives it back when its adjust code is valid, and otherwise fails with the interval-format error |
| Strconv.ParseUint | converter.go:115 | base 10, 64 bits: succeeds exactly on one or more digits of value at most 2^64 - 1, with that value; failures quote the input |
| Strconv.ParseInt | converter.go:131 | base 10, 64 bits: succeeds exactly on an optional sign then digits, of value in [-2^63, 2^63 - 1], with that value |
| Strconv.ParseBool | converter.go:99 | accepts exactly the six true and six false spellings |
| Strconv.ShowNat | converter.go:366-368 | the decimal spelling of a natural number is a digit string that denotes it |
| Strconv.FormatInt | converter.go:366-368 | no contract of its own: FormatIntIsSigned and ParseFormatInt state that it prints a signed literal that ParseInt reads back |
| Strconv.FormatIntIsSigned | converter.go:366-368 | `%d` of any integer is a signed literal that denotes it |
| Strconv.ParseFormatInt | converter.go:366-368 | ParseInt reads back what `%d` printed, for every signed 64-bit integer |
| GoStrings.ReplaceAll | converter.go:84 | a text without the character is unchanged; a one-character replacement keeps the length |
| GoStrings.ReplaceAllConcat | converter.go:84 | replacing in a concatenation is replacing in each piece |
| GoStrings.Split | converter.go:306 | a split has at least one part, so the empty text has one |
| GoStrings.SplitJoin | converter.go:306 | splitting what was joined gives the parts back when no part holds the separator |
| GoStrings.Cut | converter.go:201 | the text is cut at the first separator into a separator-free prefix and the rest, or left whole when it has none |
| Utf8.Encode | converter.go:270 | the UTF-8 bytes of `[]byte(src)`: between one and four bytes per character; DecodeEncode proves they decode back to the string |
| Utf8.DecodeEncode | converter.go:269-271 | the bytes of a string (its UTF-8 encoding) decode back to the string |
| TT.MakeStringToTTConvFactory | tt.go:107-113 | the defaults: no thousand separators, `.` as the decimal separator, the empty string as null |
| TT.StringToTTConvFactory.WithNullValue | tt.go:206-210 | sets the null value; the separators are unchanged |
| TT.StringToTTConvFactory.WithThousandSeparators | tt.go:212-217 | sets the thousand separators; the other fields are unchanged |
| TT.StringToTTConvFactory.WithDecimalSeparators | tt.go:219-223 | sets the decimal separators; the other fields are unchanged |
| TT.StringToTTConvFactory.GetBooleanConverter | tt.go:115-117 | no contract of its own: the boolean converter, whose contract is BoolConvert's |
| TT.StringToTTConvFactory.GetStringConverter | tt.go:119-121 | no contract of its own: the identity converter (TotalConverters) |
| TT.StringToTTConvFactory.GetUnsignedConverter | tt.go:123-125 | no contract of its own: UIntConvert with the factory's thousand separators |
| TT.StringToTTConvFactory.GetDatetimeConverter | tt.go:127-129 | no contract of its own: DatetimeConvert |
| TT.StringToTTConvFactory.GetUUIDConverter | tt.go:131-133 | no contract of its own: UuidConvert |
| TT.StringToTTConvFactory.GetMapConverter | tt.go:135-137 | no contract of its own: MapConvert |
| TT.StringToTTConvFactory.GetArrayConverter | tt.go:139-141 | no contract of its own: the slice converter, equal to MapConvert (SliceIsMap) |
| TT.StringToTTConvFactory.GetVarbinaryConverter | tt.go:143-145 | no contract of its own: BinaryConvert |
| TT.StringToTTConvFactory.GetDoubleConverter | tt.go:147-149 | no contract of its own: FloatConvert with the factory's thousand and decimal separators |
| TT.StringToTTConvFactory.GetDecimalConverter | tt.go:151-153 | no contract of its own: DecimalConvert with the factory's thousand and decimal separators |
| TT.StringToTTConvFactory.GetIntegerConverter | tt.go:155-160 | no contract of its own: IntegerConverterOutcome states its outcome |
| TT.StringToTTConvFactory.GetNumberConverter | tt.go:162-168 | no contract of its own: NumberConverterOutcome states its outcome |
| TT.StringToTTConvFactory.GetIntervalConverter | tt.go:170-172 | no contract of its own: IntervalConvert |
| TT.StringToTTConvFactory.AnyAlternatives | tt.go:174-184 | no contract of its own: the seven alternatives of any and scalar, in the source's order, the string last |
| TT.StringToTTConvFactory.GetAnyConverter | tt.go:174-184 | no contract of its own: AnyConverterOutcome states that it never fails and falls back to the string |
| TT.StringToTTConvFactory.GetScalarConverter | tt.go:186-196 | no contract of its own: AnyConverterOutcome states that it equals the any converter |
| TT.StringToTTConvFactory.MakeNullableConverter | tt.go:198-204 | no contract of its own: NullableConverterOutcome states its outcome |
| TT.StringToTTConvFactory.AsFactory | tt.go:225 | no contract of its own: the string factory as a record of its getters and its nullable wrapper; dispatch and assembly are proved for every such record |
| TT.SettersCommute | tt.go:206-223 | the setters touch disjoint fields: applied in either order they give the same factory, holding exactly the three values set |
| TT.NumberConverterOutcome | tt.go:162-168 | a digit string of value at most 2^64 - 1 becomes unsigned; otherwise a signed 64-bit literal becomes signed; otherwise the float converter decides |
| TT.NegativeNumberIsSigned | tt.go:155-168 | a negative literal in range becomes a signed integer under both the number and the integer converter |
| TT.IntegerConverterOutcome | tt.go:155-160 | the integer converter is unsigned, then signed, with no further fallback |
| TT.IntegerRejectsFraction | tt.go:155-160 | "1.2" is not an integer unless `.` is a thousand separator |
| TT.AnyConverterOutcome | tt.go:174-196 | any and scalar are the same converter and never fail; when none of the first six alternatives accepts the text, it becomes a string |
| TT.NullableConverterOutcome | tt.go:198-204 | the null value gives nil even when the base converter would accept it; any other text gets the base converter's result, or a failure when it fails |
| TT.GetConverterByType | tt.go:228-265 | succeeds exactly for the fifteen type names, and reports any other name as an unexpected type |
| TT.DispatchMatchesType | tt.go:228-265 | each of the fifteen names selects the getter of that very type |
| TT.WrapField | tt.go:290-296 | no contract of its own: WrapFieldBehaviour states its outcome |
| TT.BaseConverter | tt.go:283-289 | no contract of its own: the converter of a known type, made nullable for a nullable field |
| TT.FieldConverter | tt.go:282-296 | no contract of its own: FieldConverterBehaviour states its outcome |
| TT.WrapFieldBehaviour | tt.go:290-296 | an assembled converter passes a success through unchanged and turns every failure into an unexpected value for the field's type |
| TT.FieldConverterBehaviour | tt.go:282-296 | a field converter exists exactly for a known type; it is the type's converter, made nullable exactly for a nullable field, with its errors wrapped |
| TT.FirstUnknown | tt.go:281-286 | the position of the first field of unknown type: every earlier field has a known type |
| TT.TypeToTTConverters | tt.go:277-299 | succeeds exactly when every field has a known type, with one converter per field in order; otherwise fails with the first unknown type |
| TT.MakeTypeToTTConverters | tt.go:277-299 | the loop that fills a preallocated array by index, with its early return, computes exactly that outcome |
| TT.AssembledConvertersMatchFields | tt.go:287-296 | with a factory whose converters answer with their type name, each assembled converter answers with its field's type, or with "null" exactly for a nullable field |
| TT.UnknownTypeAfterKnown | tt.go:283-286 | an unknown type after a known one fails the whole assembly |
| TupleMapper.MakeMapper | mapper.go:14-16 | the given converter list and no default converter |
| TupleMapper.Mapper.WithDefaultConverter | mapper.go:19-22 | the converter list unchanged, the default converter set |
| TupleMapper.Mapper.ValidateTuple | mapper.go:25-31 | a length error exactly when the tuple is longer than the list and there is no default converter |
| TupleMapper.Mapper.ConverterAt | mapper.go:41-45 | the list's converter at a position inside the list, the default converter past its end |
| TupleMapper.Mapper.FirstFailure | mapper.go:40-48 | the lowest failing position: every field before it converts |
| TupleMapper.Mapper.MapFrom | mapper.go:40-49 | converts every field or reports the error of the lowest failing position |
| TupleMapper.Mapper.Mapped | mapper.go:34-51 | a length error for an uncovered tuple; otherwise success exactly when every field converts, with one result per field from the converter at its position; otherwise the error of the lowest failing field |
| TupleMapper.Mapper.Map | mapper.go:34-51 | the loop that fills a preallocated array by index, with its early returns, computes exactly that outcome |
| TupleMapper.ShortTupleUsesPrefix | mapper.go:40-42 | a tuple no longer than the list is mapped by the matching prefix of the list alone |
| TupleMapper.DefaultOnly | mapper_test.go:12-28 | with only a default converter, the empty tuple maps to the empty result, and every field goes through that converter |
| ConverterCases.BoolCases | converter_test.go:72-83 | "true" and "f" are read; "truth" is refused |
| ConverterCases.UIntRefusesSign | converter_test.go:95 | the unsigned converter refuses "-101010" |
| ConverterCases.UIntBounds | converter_test.go:84-94 | 2^64 - 1 is read by the unsigned converter, 2^64 is refused |
| ConverterCases.IntBounds | converter_test.go:100-113 | -2^63 is read by the signed converter; 2^63 and -2^63 - 1 are refused |
| ConverterCases.IntRefusesFraction | converter_test.go:116 | the signed converter refuses "2.5" |
| ConverterCases.IntervalTable | converter_test.go:280-296 | the two table intervals with adjust codes 1 and 2 read back; the one with adjust code 3 is refused |
| ConverterCases.IntervalTooShort | converter_test.go:297 | "1,2,3" is refused with the interval-format error |
| ConverterCases.IntervalEmpty | converter_test.go:299 | the empty text is refused with the interval-format error |

## Left out

- The opaque parsers are parameters of the model (`Library`), so IEEE-754 rounding, decimal
  arithmetic, time layouts, the tz database, `NewDatetime` and JSON decoding are not modelled. These
  are `strconv.ParseFloat`, `time.Parse`/`LoadLocation`/`ParseInLocation` and `json.Unmarshal` from
  the Go standard library, and the decimal, uuid and datetime libraries. The model keeps what the
  converters do around the parsers: the text preparation, which parsing path is taken, and how the
  answer is wrapped.
- `DatetimeToStringConverter` (converter.go:336-353) is left out. It depends on Go's `time`
  formatting and on the zone of a foreign datetime value.
- The text of error messages is left out. Each error is a kind with at most one argument, so some
  messages carry less than Go's:
  - `NumError` keeps the text that `strconv` was given. For the integer converters that is the text
    after the ignored characters are deleted, as in Go.
  - `LibraryError` keeps the text handed to the opaque parser: the prepared text for the float and
    decimal converters, and the converter's input for the others. What each Go library prints in its
    own message is not modelled.
  - Go's syntax and range errors from `strconv` share one kind.
- Converters.FirstSuccess: the sequence converter's error `NoMatch` carries no input, whereas
  Go's message quotes `src` (converter.go:77). The combinator is generic in its input type and the
  error kinds are not.
- Converters.DatetimeConvert: a failure on the zone path carries the whole input, whereas Go's error
  comes from `LoadLocation` or `ParseInLocation` and quotes the zone name or the date. The one
  `parseInZone` parameter does not say which of the two refused.
- TT.WrapFieldBehaviour: the wrapped error keeps the field's type but not the offending value, which
  the Go message also prints.
- `FuncConverter` and `MakeFuncConverter` are not separate members: a Dafny arrow is already a
  converter.
- Go generics, the `TTConvFactory` interface and struct embedding (the custom factory of the
  examples) are replaced by a datatype of converter functions. Any factory, custom or not, is such a
  record, and dispatch and assembly are proved for every record.
- TupleMapper.Mapper: the result type must have a default value (`T(0)`) so that `Map` can
  preallocate its array, as Go's `make([]T, n)` does with zero values. The model returns a copy of
  the filled array, so whether the returned slice aliases `result` is not modelled.
- Interval adjust codes are the `int64` parsed from the ninth field. Go converts it with
  `datetime.Adjust(...)` (converter.go:317), which the model treats as the identity. That holds only
  when Go's `Adjust` type is at least 64 bits wide. The type is defined in the datetime library,
  which is not part of this model. A narrower type would truncate the value before the range check,
  and that case is not modelled.
- Strings are sequences of code points, so Go strings holding invalid UTF-8 are not modelled. The
  binary converter returns the UTF-8 encoding of the string.
- The examples that start or connect to Tarantool are process and network I/O and are left out.
- Some table rows are left out because long literals are too costly for the verifier to evaluate.
  They are the separator rows ("111'111'111'111", "111@111@111'111", "-115 92 28 239"), the 20-digit
  rows and "1,2,3,4,5,6,7a,8,0". The general contracts cover them instead:
  - Converters.SeparatorInsensitive for the separator rows;
  - ConverterCases.UIntBounds and ConverterCases.IntBounds for the range rows;
  - Converters.ParseIntervalSpec for the malformed interval.
