/**
 * The primitive converters from a string to a typed value, the sequence
 * (first-success) combinator, and the interval converters in both
 * directions (converter.go).
 */
module Converters {
  import opened Values
  import opened GoStrings
  import opened Strconv
  import Utf8

  /**
   * The standard-library and third-party parsers that some converters call.
   * The model does not look inside them: each is a partial function, given
   * as a parameter.
   */
  datatype Library = Library(
    parseFloat: string -> Option<bv64>,                     // strconv.ParseFloat(s, 64)
    parseDecimal: string -> Option<DecimalValue>,           // decimal.NewDecimalFromString
    parseUuid: string -> Option<seq<uint8>>,                // uuid.Parse
    parseWithOffset: string -> Option<DatetimeValue>,       // time.Parse with a numeric offset, then NewDatetime
    parseInZone: (string, string) -> Option<DatetimeValue>, // LoadLocation, ParseInLocation, NewDatetime
    unmarshalJson: string -> Option<Value>)                 // json.Unmarshal into `any`

  // ---------------------------------------------------------------------------
  // Sequence converter

  /** The outcome of the first converter in the list that succeeds on `src`. */
  function FirstSuccess<S, T>(converters: seq<Converter<S, T>>, src: S): (r: Result<T>)
    ensures r.Success? <==> exists i :: 0 <= i < |converters| && converters[i](src).Success?
    ensures r.Success? ==>
      exists i :: 0 <= i < |converters| && converters[i](src) == r
        && forall j :: 0 <= j < i ==> converters[j](src).Failure?
    ensures r.Failure? ==> r == Failure(NoMatch)
  {
    if |converters| == 0 then Failure(NoMatch)
    else if converters[0](src).Success? then converters[0](src)
    else
      var r := FirstSuccess(converters[1..], src);
      assert forall i :: 1 <= i < |converters| ==> converters[i] == converters[1..][i - 1];
      r
  }

  /** `MakeSequenceConverter`: tries the converters in order and keeps the first success. */
  function MakeSequenceConverter<S, T>(converters: seq<Converter<S, T>>): Converter<S, T> {
    src => FirstSuccess(converters, src)
  }

  /** The loop of the sequence converter, with its early return. */
  method SequenceConvert<S, T>(converters: seq<Converter<S, T>>, src: S) returns (r: Result<T>)
    ensures r == FirstSuccess(converters, src)
  {
    for i := 0 to |converters|
      invariant FirstSuccess(converters, src) == FirstSuccess(converters[i..], src)
    {
      assert converters[i..][1..] == converters[i + 1..];
      var result := converters[i](src);
      if result.Success? {
        return result;
      }
    }
    return Failure(NoMatch);
  }

  // ---------------------------------------------------------------------------
  // Character replacement

  /**
   * What `replaceCharacters` computes: `strings.ReplaceAll` applied once for
   * every character of `chars`, in order.
   */
  function ReplaceEach(src: string, chars: string, to: string): string
    decreases |chars|
  {
    if |chars| == 0 then src else ReplaceEach(ReplaceAll(src, chars[0], to), chars[1..], to)
  }

  /** `replaceCharacters`: reassigns `src` once for every character to replace. */
  method ReplaceCharacters(src: string, charsToReplace: string, replaceTo: string) returns (r: string)
    ensures r == ReplaceEach(src, charsToReplace, replaceTo)
    ensures |replaceTo| <= 1 ==> r == Substitute(src, charsToReplace, replaceTo)
  {
    r := src;
    for i := 0 to |charsToReplace|
      invariant ReplaceEach(src, charsToReplace, replaceTo) == ReplaceEach(r, charsToReplace[i..], replaceTo)
    {
      assert charsToReplace[i..][1..] == charsToReplace[i + 1..];
      r := ReplaceAll(r, charsToReplace[i], replaceTo);
    }
    if |replaceTo| <= 1 {
      ReplaceEachSubstitutes(src, charsToReplace, replaceTo);
    }
  }

  /** Every character of `chars` becomes `to`; every other character stays, in order. */
  function Substitute(src: string, chars: string, to: string): string {
    if |src| == 0 then "" else (if src[0] in chars then to else [src[0]]) + Substitute(src[1..], chars, to)
  }

  lemma {:induction false} SubstituteConcat(a: string, b: string, chars: string, to: string)
    ensures Substitute(a + b, chars, to) == Substitute(a, chars, to) + Substitute(b, chars, to)
  {
    if |a| > 0 {
      assert (a + b)[1..] == a[1..] + b;
      SubstituteConcat(a[1..], b, chars, to);
    } else {
      assert a + b == b;
    }
  }

  lemma {:induction false} SubstituteNothing(src: string, to: string)
    ensures Substitute(src, "", to) == src
  {
    if |src| > 0 {
      SubstituteNothing(src[1..], to);
      assert src == [src[0]] + src[1..];
    }
  }

  /** Replacing `c` after the characters of `chars` is replacing the characters of `chars + [c]`. */
  lemma {:induction false} ReplaceAllAfterSubstitute(src: string, chars: string, c: char, to: string)
    requires |to| <= 1
    ensures ReplaceAll(Substitute(src, chars, to), c, to) == Substitute(src, chars + [c], to)
  {
    if |src| > 0 {
      var piece := if src[0] in chars then to else [src[0]];
      ReplaceAllConcat(piece, Substitute(src[1..], chars, to), c, to);
      ReplaceAllAfterSubstitute(src[1..], chars, c, to);
      if src[0] in chars {
        if |to| == 1 {
          assert ReplaceAll(to, c, to) == (if to[0] == c then to else [to[0]]) + ReplaceAll(to[1..], c, to);
          assert to == [to[0]];
        }
      } else {
        assert ReplaceAll([src[0]], c, to) == (if src[0] == c then to else [src[0]]) + ReplaceAll([], c, to);
      }
    }
  }

  lemma {:induction false} ReplaceEachAfterSubstitute(src: string, done: string, chars: string, to: string)
    requires |to| <= 1
    ensures ReplaceEach(Substitute(src, done, to), chars, to) == Substitute(src, done + chars, to)
    decreases |chars|
  {
    if |chars| == 0 {
      assert done + chars == done;
    } else {
      var once := Substitute(src, done, to);
      assert ReplaceEach(once, chars, to) == ReplaceEach(ReplaceAll(once, chars[0], to), chars[1..], to);
      ReplaceAllAfterSubstitute(src, done, chars[0], to);
      ReplaceEachAfterSubstitute(src, done + [chars[0]], chars[1..], to);
      assert done + [chars[0]] + chars[1..] == done + chars;
    }
  }

  /**
   * When the replacement is empty or a single character, replacing the
   * characters one after the other is the same as substituting each
   * character of the set at once.
   */
  lemma ReplaceEachSubstitutes(src: string, chars: string, to: string)
    requires |to| <= 1
    ensures ReplaceEach(src, chars, to) == Substitute(src, chars, to)
  {
    SubstituteNothing(src, to);
    ReplaceEachAfterSubstitute(src, "", chars, to);
    assert "" + chars == chars;
  }

  /** With an empty replacement, exactly the characters outside `chars` are kept. */
  lemma {:induction false} SubstituteDeletes(src: string, chars: string)
    ensures forall c :: c in Substitute(src, chars, "") <==> c in src && c !in chars
  {
    if |src| > 0 {
      SubstituteDeletes(src[1..], chars);
      assert src == [src[0]] + src[1..];
    }
  }

  /** Deleting `c` from a string that has it inserted gives the same as deleting from the original. */
  lemma InsertedSeparatorIgnored(a: string, b: string, c: char, chars: string)
    requires c in chars
    ensures Substitute(a + [c] + b, chars, "") == Substitute(a + b, chars, "")
  {
    SubstituteConcat(a + [c], b, chars, "");
    SubstituteConcat(a, [c], chars, "");
    SubstituteConcat(a, b, chars, "");
  }

  // ---------------------------------------------------------------------------
  // Primitive converters

  /** IdentityConverter[string]: the input itself. */
  function IdentityConvert(src: string): Result<Value> {
    Success(Str(src))
  }

  /** StringToBoolConverter. */
  function BoolConvert(src: string): (r: Result<Value>)
    ensures r.Success? <==> src in TrueLiterals + FalseLiterals
    ensures r.Success? ==> r.value == Bool(src in TrueLiterals)
  {
    match ParseBool(src)
    case Success(b) => Success(Bool(b))
    case Failure(e) => Failure(e)
  }

  /** StringToUIntConverter: delete the ignored characters, then ParseUint. */
  function UIntConvert(ignoreChars: string, src: string): (r: Result<Value>)
    ensures var t := Substitute(src, ignoreChars, "");
      (r.Success? <==> IsUnsignedLiteral(t) && DigitsValue(t) <= MAX_UINT64)
      && (r.Success? ==> r.value == UInt(DigitsValue(t)))
  {
    ReplaceEachSubstitutes(src, ignoreChars, "");
    match ParseUint(ReplaceEach(src, ignoreChars, ""))
    case Success(u) => Success(UInt(u))
    case Failure(e) => Failure(e)
  }

  /** StringToIntConverter: delete the ignored characters, then ParseInt. */
  function IntConvert(ignoreChars: string, src: string): (r: Result<Value>)
    ensures var t := Substitute(src, ignoreChars, "");
      (r.Success? <==> IsSignedLiteral(t) && MIN_INT64 <= SignedValue(t) <= MAX_INT64)
      && (r.Success? ==> r.value == Int(SignedValue(t)))
  {
    ReplaceEachSubstitutes(src, ignoreChars, "");
    match ParseInt(ReplaceEach(src, ignoreChars, ""))
    case Success(i) => Success(Int(i))
    case Failure(e) => Failure(e)
  }

  /** Inserting a thousand separator between digits changes nothing for either integer converter. */
  lemma SeparatorInsensitive(ignoreChars: string, a: string, b: string, c: char)
    requires c in ignoreChars
    ensures UIntConvert(ignoreChars, a + [c] + b) == UIntConvert(ignoreChars, a + b)
    ensures IntConvert(ignoreChars, a + [c] + b) == IntConvert(ignoreChars, a + b)
  {
    InsertedSeparatorIgnored(a, b, c, ignoreChars);
    ReplaceEachSubstitutes(a + [c] + b, ignoreChars, "");
    ReplaceEachSubstitutes(a + b, ignoreChars, "");
  }

  /** The unsigned converter reads every decimal spelling back, exactly up to 2^64 - 1. */
  lemma UIntReadsDecimal(ignoreChars: string, n: nat)
    requires forall k :: 0 <= k < |ignoreChars| ==> !IsDigit(ignoreChars[k])
    ensures UIntConvert(ignoreChars, ShowNat(n)).Success? <==> n <= MAX_UINT64
    ensures n <= MAX_UINT64 ==> UIntConvert(ignoreChars, ShowNat(n)) == Success(UInt(n))
  {
    var s := ShowNat(n);
    assert forall k :: 0 <= k < |s| ==> s[k] !in ignoreChars;
    SubstituteKeeps(s, ignoreChars, "");
  }

  /** The signed converter reads back what `%d` prints, exactly for the signed 64-bit range. */
  lemma IntReadsDecimal(ignoreChars: string, i: int)
    requires forall k :: 0 <= k < |ignoreChars| ==> !IsDigit(ignoreChars[k]) && ignoreChars[k] != '-'
    ensures IntConvert(ignoreChars, FormatInt(i)).Success? <==> MIN_INT64 <= i <= MAX_INT64
    ensures MIN_INT64 <= i <= MAX_INT64 ==> IntConvert(ignoreChars, FormatInt(i)) == Success(Int(i))
  {
    var s := FormatInt(i);
    FormatIntDigits(i);
    assert forall k :: 0 <= k < |s| ==> s[k] !in ignoreChars;
    SubstituteKeeps(s, ignoreChars, "");
    FormatIntIsSigned(i);
  }

  /**
   * The text the float and decimal converters hand to their parser: the
   * ignored characters are deleted, then every decimal separator becomes `.`.
   */
  function NumeralText(ignoreChars: string, decSeparators: string, src: string): string {
    ReplaceEach(ReplaceEach(src, ignoreChars, ""), decSeparators, ".")
  }

  /** Character by character: ignored characters vanish, separators turn into points, the rest stay. */
  lemma NumeralTextSubstitutes(ignoreChars: string, decSeparators: string, src: string)
    ensures NumeralText(ignoreChars, decSeparators, src)
      == Substitute(Substitute(src, ignoreChars, ""), decSeparators, ".")
  {
    ReplaceEachSubstitutes(src, ignoreChars, "");
    ReplaceEachSubstitutes(Substitute(src, ignoreChars, ""), decSeparators, ".");
  }

  /** For a separator not among the ignored characters, `a` + separator + `b` reaches the parser as `a.b`. */
  lemma {:induction false} DecimalSeparatorFolded(ignoreChars: string, decSeparators: string, a: string, d: char, b: string)
    requires d in decSeparators && d !in ignoreChars
    requires forall k :: 0 <= k < |a| ==> a[k] !in ignoreChars && a[k] !in decSeparators
    requires forall k :: 0 <= k < |b| ==> b[k] !in ignoreChars && b[k] !in decSeparators
    ensures NumeralText(ignoreChars, decSeparators, a + [d] + b) == a + "." + b
  {
    NumeralTextSubstitutes(ignoreChars, decSeparators, a + [d] + b);
    SubstituteAround(a, d, b, ignoreChars, "", [d]);
    SubstituteAround(a, d, b, decSeparators, ".", ".");
  }

  /** Substituting in `a + [d] + b` when only `d` is affected: `d` becomes `dTo`. */
  lemma SubstituteAround(a: string, d: char, b: string, chars: string, to: string, dTo: string)
    requires dTo == if d in chars then to else [d]
    requires forall k :: 0 <= k < |a| ==> a[k] !in chars
    requires forall k :: 0 <= k < |b| ==> b[k] !in chars
    ensures Substitute(a + [d] + b, chars, to) == a + dTo + b
  {
    SubstituteChar(d, chars, to);
    SubstituteKeeps(a, chars, to);
    SubstituteConcat(a, [d], chars, to);
    assert Substitute(a + [d], chars, to) == a + dTo;
    SubstituteKeeps(b, chars, to);
    SubstituteConcat(a + [d], b, chars, to);
  }

  lemma SubstituteChar(d: char, chars: string, to: string)
    ensures Substitute([d], chars, to) == if d in chars then to else [d]
  {
    assert Substitute([d], chars, to) == (if d in chars then to else [d]) + Substitute([], chars, to);
  }

  lemma {:induction false} SubstituteKeeps(s: string, chars: string, to: string)
    requires forall k :: 0 <= k < |s| ==> s[k] !in chars
    ensures Substitute(s, chars, to) == s
  {
    if |s| > 0 {
      SubstituteKeeps(s[1..], chars, to);
      assert s == [s[0]] + s[1..];
    }
  }

  /** StringToFloatConverter: prepare the numeral, then ParseFloat; its error quotes the prepared text. */
  function FloatConvert(lib: Library, ignoreChars: string, decSeparators: string, src: string): (r: Result<Value>)
    ensures var t := NumeralText(ignoreChars, decSeparators, src);
      (r.Success? <==> lib.parseFloat(t).Some?)
      && (r.Success? ==> r.value == Float(lib.parseFloat(t).value))
      && (r.Failure? ==> r.error == LibraryError(t))
  {
    var t := NumeralText(ignoreChars, decSeparators, src);
    match lib.parseFloat(t)
    case Some(f) => Success(Float(f))
    case None => Failure(LibraryError(t))
  }

  /** StringToDecimalConverter: prepare the numeral, then decimal.NewDecimalFromString, which sees only the prepared text. */
  function DecimalConvert(lib: Library, ignoreChars: string, decSeparators: string, src: string): (r: Result<Value>)
    ensures var t := NumeralText(ignoreChars, decSeparators, src);
      (r.Success? <==> lib.parseDecimal(t).Some?)
      && (r.Success? ==> r.value == Decimal(lib.parseDecimal(t).value))
      && (r.Failure? ==> r.error == LibraryError(t))
  {
    var t := NumeralText(ignoreChars, decSeparators, src);
    match lib.parseDecimal(t)
    case Some(d) => Success(Decimal(d))
    case None => Failure(LibraryError(t))
  }

  /** Inserting an ignored character anywhere changes nothing for the float and decimal converters, errors included. */
  lemma FractionalSeparatorInsensitive(lib: Library, ignoreChars: string, decSeparators: string, a: string, b: string, c: char)
    requires c in ignoreChars
    ensures FloatConvert(lib, ignoreChars, decSeparators, a + [c] + b) == FloatConvert(lib, ignoreChars, decSeparators, a + b)
    ensures DecimalConvert(lib, ignoreChars, decSeparators, a + [c] + b) == DecimalConvert(lib, ignoreChars, decSeparators, a + b)
  {
    NumeralTextSubstitutes(ignoreChars, decSeparators, a + [c] + b);
    NumeralTextSubstitutes(ignoreChars, decSeparators, a + b);
    InsertedSeparatorIgnored(a, b, c, ignoreChars);
  }

  /** StringToUUIDConverter. */
  function UuidConvert(lib: Library, src: string): (r: Result<Value>)
    ensures r.Success? <==> lib.parseUuid(src).Some?
    ensures r.Success? ==> r.value == Uuid(lib.parseUuid(src).value)
    ensures r.Failure? ==> r.error == LibraryError(src)
  {
    match lib.parseUuid(src)
    case Some(u) => Success(Uuid(u))
    case None => Failure(LibraryError(src))
  }

  /**
   * StringToDatetimeConverter: without a space the whole text carries a
   * numeric offset; otherwise the text before the first space is a local time
   * in the zone named after it.
   */
  function DatetimeConvert(lib: Library, src: string): (r: Result<Value>)
    ensures ' ' !in src ==>
      (r.Success? <==> lib.parseWithOffset(src).Some?)
      && (r.Success? ==> r.value == Datetime(lib.parseWithOffset(src).value))
    ensures forall date, zone :: ' ' !in date && src == date + " " + zone ==>
      (r.Success? <==> lib.parseInZone(date, zone).Some?)
      && (r.Success? ==> r.value == Datetime(lib.parseInZone(date, zone).value))
    ensures r.Failure? ==> r.error == LibraryError(src)
  {
    var (date, tzName, ok) := Cut(src, ' ');
    if !ok then
      match lib.parseWithOffset(src)
      case Some(dt) => Success(Datetime(dt))
      case None => Failure(LibraryError(src))
    else
      CutIsUnique(src, date, tzName);
      match lib.parseInZone(date, tzName)
      case Some(dt) => Success(Datetime(dt))
      case None => Failure(LibraryError(src))
  }

  lemma CutIsUnique(src: string, date: string, zone: string)
    requires ' ' !in date && src == date + " " + zone
    ensures forall d, z :: ' ' !in d && src == d + " " + z ==> d == date && z == zone
  {
    forall d, z | ' ' !in d && src == d + " " + z
      ensures d == date && z == zone
    {
      IndexOfAfterPrefix(d, z, ' ');
      IndexOfAfterPrefix(date, zone, ' ');
      assert d == src[..|d|] == date;
      assert z == src[|d| + 1..] == zone;
    }
  }

  /** StringToMapConverter: json.Unmarshal; the decoded shape is not checked. */
  function MapConvert(lib: Library, src: string): (r: Result<Value>)
    ensures r.Success? <==> lib.unmarshalJson(src).Some?
    ensures r.Success? ==> r.value == lib.unmarshalJson(src).value
    ensures r.Failure? ==> r.error == LibraryError(src)
  {
    match lib.unmarshalJson(src)
    case Some(v) => Success(v)
    case None => Failure(LibraryError(src))
  }

  /** StringToSliceConverter: the same decoding as the map converter. */
  function SliceConvert(lib: Library, src: string): Result<Value> {
    match lib.unmarshalJson(src)
    case Some(v) => Success(v)
    case None => Failure(LibraryError(src))
  }

  /** The slice converter decodes exactly as the map converter does: neither checks the decoded shape. */
  lemma SliceIsMap(lib: Library, src: string)
    ensures SliceConvert(lib, src) == MapConvert(lib, src)
  {
  }

  /** StringToBinaryConverter: the bytes of the string, which decode back to it; it never fails. */
  function BinaryConvert(src: string): (r: Result<Value>)
    ensures r.Success? && r.value.Bytes? && Utf8.Decode(r.value.bytes) == Some(src)
  {
    Utf8.DecodeEncode(src);
    Success(Bytes(Utf8.Encode(src)))
  }

  /** The identity and binary converters accept everything; the bytes decode back to the input. */
  lemma TotalConverters(src: string)
    ensures IdentityConvert(src).Success? && IdentityConvert(src).value == Str(src)
    ensures BinaryConvert(src).Success? && Utf8.Decode(BinaryConvert(src).value.bytes) == Some(src)
  {
    Utf8.DecodeEncode(src);
  }

  /** StringToNullConverter: nil for the null sentinel, an error for anything else. */
  function NullConvert(nullValue: string, src: string): (r: Result<Value>)
    ensures r.Success? <==> src == nullValue
    ensures r.Success? ==> r.value == Null
  {
    if src != nullValue then Failure(UnexpectedValue(src)) else Success(Null)
  }

  // ---------------------------------------------------------------------------
  // Intervals

  const IntervalFieldsNumber: nat := 9

  /** `parse` of every part, or None as soon as `parse` refuses one. */
  function ParseEach<T>(parse: string -> Result<T>, parts: seq<string>): (r: Option<seq<T>>)
    ensures r.Some? <==> forall k :: 0 <= k < |parts| ==> parse(parts[k]).Success?
    ensures r.Some? ==> |r.value| == |parts|
    ensures r.Some? ==> forall k :: 0 <= k < |parts| ==> r.value[k] == parse(parts[k]).value
  {
    if |parts| == 0 then Some([])
    else match parse(parts[0])
      case Failure(_) => None
      case Success(v) =>
        match ParseEach(parse, parts[1..])
        case None =>
          assert forall k :: 0 <= k < |parts| - 1 ==> parts[1..][k] == parts[k + 1];
          None
        case Some(vs) =>
          assert forall k :: 1 <= k < |parts| ==> parts[k] == parts[1..][k - 1];
          Some([v] + vs)
  }

  /** ParseInt of every part, or None as soon as one part is not a signed 64-bit literal. */
  function ParseInts(parts: seq<string>): (r: Option<seq<int64>>)
    ensures r.Some? <==> forall k :: 0 <= k < |parts| ==> ParseInt(parts[k]).Success?
    ensures r.Some? ==> |r.value| == |parts|
    ensures r.Some? ==> forall k :: 0 <= k < |parts| ==> r.value[k] == ParseInt(parts[k]).value
  {
    ParseEach(ParseInt, parts)
  }

  /**
   * StringToIntervalConverter.Convert: exactly nine comma-separated signed
   * 64-bit integers, in the order year, month, week, day, hour, min, sec,
   * nsec, adjust, where adjust is one of the three adjust codes.
   */
  function ParseInterval(src: string): Result<Interval> {
    var parts := Split(src, ',');
    if |parts| != IntervalFieldsNumber then Failure(UnexpectedIntervalFormat)
    else match ParseInts(parts)
      case None => Failure(UnexpectedIntervalFormat)
      case Some(v) =>
        if !ValidAdjust(v[8]) then Failure(UnexpectedIntervalFormat)
        else Success(Interval(v[0], v[1], v[2], v[3], v[4], v[5], v[6], v[7], v[8]))
  }

  /**
   * The interval parser succeeds exactly on nine comma-separated signed
   * 64-bit integers whose last one is an adjust code, and then takes the
   * fields in the order year, month, week, day, hour, min, sec, nsec, adjust.
   */
  lemma ParseIntervalSpec(src: string)
    ensures var parts := Split(src, ',');
      ParseInterval(src).Success? <==>
        && |parts| == IntervalFieldsNumber
        && (forall k :: 0 <= k < |parts| ==> ParseInt(parts[k]).Success?)
        && ValidAdjust(ParseInt(parts[8]).value)
    ensures var parts := Split(src, ',');
      ParseInterval(src).Success? ==> ParseInterval(src).value == Interval(
        ParseInt(parts[0]).value, ParseInt(parts[1]).value, ParseInt(parts[2]).value,
        ParseInt(parts[3]).value, ParseInt(parts[4]).value, ParseInt(parts[5]).value,
        ParseInt(parts[6]).value, ParseInt(parts[7]).value, ParseInt(parts[8]).value)
    ensures ParseInterval(src).Failure? ==> ParseInterval(src).error == UnexpectedIntervalFormat
  {
    var parts := Split(src, ',');
    if |parts| == IntervalFieldsNumber {
      var r := ParseInts(parts);
      if r.Some? {
        var v := r.value;
        assert forall k :: 0 <= k < 9 ==> v[k] == ParseInt(parts[k]).value;
        assert ParseInterval(src) == if ValidAdjust(v[8])
          then Success(Interval(v[0], v[1], v[2], v[3], v[4], v[5], v[6], v[7], v[8]))
          else Failure(UnexpectedIntervalFormat);
      } else {
        assert ParseInterval(src) == Failure(UnexpectedIntervalFormat);
      }
    }
  }

  /**
   * The loop of StringToIntervalConverter.Convert: parses the parts into a
   * fixed array of nine integers, stopping at the first that is not one.
   */
  method ParseParts(parts: seq<string>) returns (r: Option<seq<int64>>)
    requires |parts| == IntervalFieldsNumber
    ensures r == ParseInts(parts)
  {
    var partsAsInt64 := new int64[IntervalFieldsNumber];
    for i := 0 to |parts|
      invariant forall k :: 0 <= k < i ==> ParseInt(parts[k]) == Success(partsAsInt64[k])
    {
      var p := ParseInt(parts[i]);
      if p.Failure? {
        return None;
      }
      partsAsInt64[i] := p.value;
    }
    ParseIntsOf(parts, partsAsInt64[..]);
    r := Some(partsAsInt64[..]);
  }

  /** StringToIntervalConverter.Convert: nine comma-separated integers, the last an adjust code. */
  method ConvertInterval(src: string) returns (r: Result<Interval>)
    ensures r == ParseInterval(src)
  {
    var parts := Split(src, ',');
    if |parts| != IntervalFieldsNumber {
      return Failure(UnexpectedIntervalFormat);
    }
    var numbers := ParseParts(parts);
    if numbers.None? {
      return Failure(UnexpectedIntervalFormat);
    }
    var v := numbers.value;
    var adjust := v[8];
    if !ValidAdjust(adjust) {
      return Failure(UnexpectedIntervalFormat);
    }
    r := Success(Interval(v[0], v[1], v[2], v[3], v[4], v[5], v[6], v[7], adjust));
  }

  /** Parts that each parse give exactly the numbers they parse to. */
  lemma ParseIntsOf(parts: seq<string>, v: seq<int64>)
    requires |v| == |parts| && forall k :: 0 <= k < |parts| ==> ParseInt(parts[k]) == Success(v[k])
    ensures ParseInts(parts) == Some(v)
  {
    var r := ParseInts(parts);
    assert forall k :: 0 <= k < |parts| ==> ParseInt(parts[k]).Success?;
    assert r.Some?;
    assert |r.value| == |v|;
    assert forall k :: 0 <= k < |v| ==> r.value[k] == v[k];
    assert r.value == v;
  }

  /** The interval converter as it is offered to the factory: every refusal is the interval-format error. */
  function IntervalConvert(src: string): (r: Result<Value>)
    ensures r.Success? <==> ParseInterval(src).Success?
    ensures r.Success? ==> r.value == IntervalValue(ParseInterval(src).value)
    ensures r.Failure? ==> r.error == UnexpectedIntervalFormat
  {
    ParseIntervalSpec(src);
    match ParseInterval(src)
    case Success(iv) => Success(IntervalValue(iv))
    case Failure(e) => Failure(e)
  }

  /** The nine numbers of an interval, in the order the parser expects them. */
  function IntervalNumbers(iv: Interval): seq<int64> {
    [iv.year, iv.month, iv.week, iv.day, iv.hour, iv.min, iv.sec, iv.nsec, iv.adjust]
  }

  /** `%d` of every number. */
  function FormatInts(vs: seq<int64>): (r: seq<string>)
    ensures |r| == |vs|
    ensures forall k :: 0 <= k < |vs| ==> r[k] == FormatInt(vs[k])
  {
    if |vs| == 0 then [] else [FormatInt(vs[0])] + FormatInts(vs[1..])
  }

  /** The nine `%d` fields of an interval. */
  function IntervalFields(iv: Interval): seq<string> {
    FormatInts(IntervalNumbers(iv))
  }

  /** The text IntervalToStringConverter.Convert prints: the nine fields joined by commas. */
  function FormatInterval(iv: Interval): string {
    Join(IntervalFields(iv), ',')
  }

  /** IntervalToStringConverter never fails, and the interval converter reads its text back when the adjust code is valid. */
  function IntervalToStringConvert(iv: Interval): (r: Result<string>)
    ensures r.Success?
    ensures ValidAdjust(iv.adjust) ==> IntervalConvert(r.value) == Success(IntervalValue(iv))
    ensures !ValidAdjust(iv.adjust) ==> IntervalConvert(r.value) == Failure(UnexpectedIntervalFormat)
  {
    ParseFormatInterval(iv);
    Success(FormatInterval(iv))
  }

  /**
   * Round trip: the parser gives back every interval the formatter printed
   * whose adjust code is valid, and refuses the others.
   */
  lemma ParseFormatInterval(iv: Interval)
    ensures ParseInterval(FormatInterval(iv))
      == if ValidAdjust(iv.adjust) then Success(iv) else Failure(UnexpectedIntervalFormat)
  {
    IntervalFieldsSplit(iv);
    ParseFormatInts(IntervalNumbers(iv));
  }

  lemma IntervalFieldsSplit(iv: Interval)
    ensures Split(FormatInterval(iv), ',') == IntervalFields(iv)
  {
    var fields := IntervalFields(iv);
    forall k | 0 <= k < |fields|
      ensures ',' !in fields[k]
    {
      FormatIntDigits(IntervalNumbers(iv)[k]);
    }
    SplitJoin(fields, ',');
  }

  /** Parsing the `%d` spellings of signed 64-bit integers gives them all back. */
  lemma {:induction false} ParseFormatInts(vs: seq<int64>)
    ensures ParseInts(FormatInts(vs)) == Some(vs)
  {
    if |vs| > 0 {
      ParseFormatInt(vs[0]);
      ParseFormatInts(vs[1..]);
      assert FormatInts(vs)[1..] == FormatInts(vs[1..]);
      assert vs == [vs[0]] + vs[1..];
    }
  }
}
