/**
 * Tuple mapping (mapper.go): each field of a tuple goes through the
 * converter at its position, or through the default converter past the end
 * of the list; the first failure aborts the whole tuple.
 */
module TupleMapper {
  import opened Values

  /**
   * A converter list and an optional converter for the positions past its
   * end. Results have a zero value, as every Go type does, so that Map can
   * preallocate them.
   */
  datatype Mapper<!S, T(0)> = Mapper(converters: seq<Converter<S, T>>, defaultConverter: Option<Converter<S, T>>)
  {
    /** WithDefaultConverter: the same list, now with a default converter. */
    function WithDefaultConverter(converter: Converter<S, T>): (m: Mapper<S, T>)
      ensures m.converters == converters
      ensures m.defaultConverter == Some(converter)
    {
      this.(defaultConverter := Some(converter))
    }

    /** Whether every position of a tuple of this length has a converter. */
    predicate Covers(tuple: seq<S>) {
      |tuple| <= |converters| || defaultConverter.Some?
    }

    /** validateTuple: a tuple longer than the list needs a default converter. */
    function ValidateTuple(tuple: seq<S>): (r: Option<Error>)
      ensures r.None? <==> Covers(tuple)
      ensures r.Some? ==> r.value == TupleLengthMismatch
    {
      if |tuple| > |converters| && defaultConverter.None? then Some(TupleLengthMismatch) else None
    }

    /** The converter for position `i`: the list's, or past its end the default one. */
    function ConverterAt(i: nat): (c: Converter<S, T>)
      requires i < |converters| || defaultConverter.Some?
      ensures i < |converters| ==> c == converters[i]
      ensures i >= |converters| ==> c == defaultConverter.value
    {
      if i < |converters| then converters[i] else defaultConverter.value
    }

    /** The position of the first field from `i` on that its converter refuses, or the tuple's length if none. */
    function FirstFailure(tuple: seq<S>, i: nat): (f: nat)
      requires Covers(tuple) && i <= |tuple|
      ensures i <= f <= |tuple|
      ensures forall j :: i <= j < f ==> ConverterAt(j)(tuple[j]).Success?
      ensures f < |tuple| ==> ConverterAt(f)(tuple[f]).Failure?
      decreases |tuple| - i
    {
      if i == |tuple| || ConverterAt(i)(tuple[i]).Failure? then i else FirstFailure(tuple, i + 1)
    }

    /** The outcome of converting the fields from position `i` on: all their results, or the first error. */
    function MapFrom(tuple: seq<S>, i: nat): (r: Result<seq<T>>)
      requires Covers(tuple) && i <= |tuple|
      ensures r.Success? <==> forall k :: i <= k < |tuple| ==> ConverterAt(k)(tuple[k]).Success?
      ensures r.Success? ==> |r.value| == |tuple| - i
      ensures r.Success? ==> forall k :: i <= k < |tuple| ==> r.value[k - i] == ConverterAt(k)(tuple[k]).value
      ensures r.Failure? ==>
        var f := FirstFailure(tuple, i);
        f < |tuple| && r.error == ConverterAt(f)(tuple[f]).error
      decreases |tuple| - i
    {
      if i == |tuple| then Success([])
      else match ConverterAt(i)(tuple[i])
        case Failure(e) => Failure(e)
        case Success(v) =>
          match MapFrom(tuple, i + 1)
          case Failure(e) => Failure(e)
          case Success(vs) => Success([v] + vs)
    }

    /**
     * The outcome of Map: a length error when some position has no
     * converter; otherwise one result per field, each from the converter at
     * its position, or the error of the first field that fails.
     */
    function Mapped(tuple: seq<S>): (r: Result<seq<T>>)
      ensures !Covers(tuple) ==> r == Failure(TupleLengthMismatch)
      ensures Covers(tuple) ==>
        (r.Success? <==> forall k :: 0 <= k < |tuple| ==> ConverterAt(k)(tuple[k]).Success?)
      ensures r.Success? ==> Covers(tuple) && |r.value| == |tuple|
      ensures r.Success? ==> forall k :: 0 <= k < |tuple| ==> r.value[k] == ConverterAt(k)(tuple[k]).value
      ensures Covers(tuple) && r.Failure? ==>
        var f := FirstFailure(tuple, 0);
        f < |tuple| && ConverterAt(f)(tuple[f]).Failure?
          && (forall j :: 0 <= j < f ==> ConverterAt(j)(tuple[j]).Success?)
          && r.error == ConverterAt(f)(tuple[f]).error
    {
      match ValidateTuple(tuple)
      case Some(e) => Failure(e)
      case None => MapFrom(tuple, 0)
    }

    /** Map: converts field by field and returns at the first error, without a partial result. */
    method Map(tuple: seq<S>) returns (r: Result<seq<T>>)
      ensures r == Mapped(tuple)
    {
      var invalid := ValidateTuple(tuple);
      if invalid.Some? {
        return Failure(invalid.value);
      }
      var result := new T[|tuple|];
      for i := 0 to |tuple|
        invariant forall k :: 0 <= k < i ==>
          ConverterAt(k)(tuple[k]).Success? && result[k] == ConverterAt(k)(tuple[k]).value
      {
        var field := tuple[i];
        var converted;
        if i < |converters| {
          converted := converters[i](field);
        } else {
          converted := defaultConverter.value(field);
        }
        if converted.Failure? {
          assert Mapped(tuple).Failure?;
          assert FirstFailure(tuple, 0) == i;
          return Failure(converted.error);
        }
        result[i] := converted.value;
      }
      ghost var spec := Mapped(tuple);
      assert forall k :: 0 <= k < |tuple| ==> spec.value[k] == result[k];
      assert spec.value == result[..];
      r := Success(result[..]);
    }
  }

  /** MakeMapper: the given list and no default converter. */
  function MakeMapper<S, T(0)>(converters: seq<Converter<S, T>>): (m: Mapper<S, T>)
    ensures m.converters == converters && m.defaultConverter.None?
  {
    Mapper(converters, None)
  }

  /** A tuple no longer than the list is mapped by the matching prefix of the list alone. */
  lemma ShortTupleUsesPrefix<S, T(0)>(m: Mapper<S, T>, tuple: seq<S>)
    requires |tuple| <= |m.converters|
    ensures m.Mapped(tuple) == Mapper(m.converters[..|tuple|], None).Mapped(tuple)
  {
    var p := Mapper(m.converters[..|tuple|], None);
    var r := m.Mapped(tuple);
    var q := p.Mapped(tuple);
    assert forall k :: 0 <= k < |tuple| ==> p.ConverterAt(k) == m.ConverterAt(k);
    if r.Success? {
      assert q.Success?;
      assert q.value == r.value;
    } else {
      assert q.Failure?;
      assert m.FirstFailure(tuple, 0) == p.FirstFailure(tuple, 0);
    }
  }

  /** With only a default converter, every field goes through it, and the empty tuple maps to nothing. */
  lemma DefaultOnly<S, T(0)>(converter: Converter<S, T>, tuple: seq<S>)
    ensures var m := MakeMapper<S, T>([]).WithDefaultConverter(converter);
      m.Mapped([]) == Success([])
      && (m.Mapped(tuple).Success? <==> forall k :: 0 <= k < |tuple| ==> converter(tuple[k]).Success?)
      && (m.Mapped(tuple).Success? ==> forall k :: 0 <= k < |tuple| ==> m.Mapped(tuple).value[k] == converter(tuple[k]).value)
  {
    var m := MakeMapper<S, T>([]).WithDefaultConverter(converter);
    assert forall k: nat :: m.ConverterAt(k) == converter;
    assert m.Mapped([]).Success?;
  }
}
