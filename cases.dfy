/**
 * Inputs from the converter tables of the repository, derived from the
 * general contracts; the thousand separators there are "@ '".
 */
module ConverterCases {
  import opened Values
  import opened GoStrings
  import opened Strconv
  import opened Converters

  const Separators: string := "@ '"

  /** Go's spellings of true and false are read; near misses are refused. */
  lemma BoolCases(t: string, f: string, bad: string)
    requires t == "true" && f == "f" && bad == "truth"
    ensures BoolConvert(t) == Success(Bool(true))
    ensures BoolConvert(f) == Success(Bool(false))
    ensures BoolConvert(bad).Failure?
  {
    assert t in TrueLiterals && f in FalseLiterals && f !in TrueLiterals;
    assert bad !in TrueLiterals + FalseLiterals by {
      assert |bad| == 5 && bad[4] == 'h';
    }
  }

  /** The unsigned converter refuses a sign. */
  lemma UIntRefusesSign(seps: string, s: string)
    requires seps == Separators && s == "-101010"
    ensures UIntConvert(seps, s).Failure?
  {
    SubstituteKeeps(s, seps, "");
    assert !IsDigit(s[0]);
  }

  /** No thousand separator of the table is a digit or a minus sign. */
  lemma SeparatorsAreNotNumeric(seps: string)
    requires seps == Separators
    ensures forall k :: 0 <= k < |seps| ==> !IsDigit(seps[k]) && seps[k] != '-'
  {
  }

  /** 2^64 - 1 is the largest number the unsigned converter reads. */
  lemma UIntBounds(seps: string, u: nat)
    requires seps == Separators && u == MAX_UINT64
    ensures UIntConvert(seps, ShowNat(u)) == Success(UInt(u))
    ensures UIntConvert(seps, ShowNat(u + 1)).Failure?
  {
    SeparatorsAreNotNumeric(seps);
    UIntReadsDecimal(seps, u);
    UIntReadsDecimal(seps, u + 1);
  }

  /** 2^63 is refused by the signed converter, -2^63 is read, -2^63 - 1 is refused. */
  lemma IntBounds(seps: string, lo: int, hi: int)
    requires seps == Separators && lo == MIN_INT64 && hi == MAX_INT64
    ensures IntConvert(seps, FormatInt(hi + 1)).Failure?
    ensures IntConvert(seps, FormatInt(lo)) == Success(Int(lo))
    ensures IntConvert(seps, FormatInt(lo - 1)).Failure?
  {
    SeparatorsAreNotNumeric(seps);
    IntReadsDecimal(seps, hi + 1);
    IntReadsDecimal(seps, lo);
    IntReadsDecimal(seps, lo - 1);
  }

  /** The signed converter refuses a fraction. */
  lemma IntRefusesFraction(seps: string, s: string)
    requires seps == Separators && s == "2.5"
    ensures IntConvert(seps, s).Failure?
  {
    SubstituteKeeps(s, seps, "");
    assert Unsigned(s) == s && !IsDigit(s[1]);
  }

  /**
   * The intervals of the converter table, written out by the interval
   * formatter: the two with adjust codes 1 and 2 read back unchanged, the
   * one with adjust code 3 is refused.
   */
  lemma IntervalTable()
    ensures IntervalConvert(FormatInterval(Interval(1, 2, 3, 4, 5, 6, 7, 8, 1)))
      == Success(IntervalValue(Interval(1, 2, 3, 4, 5, 6, 7, 8, 1)))
    ensures IntervalConvert(FormatInterval(Interval(-11, -1110, 0, 0, 0, 0, 0, 1, 2)))
      == Success(IntervalValue(Interval(-11, -1110, 0, 0, 0, 0, 0, 1, 2)))
    ensures IntervalConvert(FormatInterval(Interval(1, 2, 3, 4, 5, 6, 7, 8, 3)))
      == Failure(UnexpectedIntervalFormat)
  {
    ParseFormatInterval(Interval(1, 2, 3, 4, 5, 6, 7, 8, 1));
    ParseFormatInterval(Interval(-11, -1110, 0, 0, 0, 0, 0, 1, 2));
    ParseFormatInterval(Interval(1, 2, 3, 4, 5, 6, 7, 8, 3));
  }

  /** Too few fields are refused. */
  lemma IntervalTooShort(s: string)
    requires s == "1,2,3"
    ensures IntervalConvert(s) == Failure(UnexpectedIntervalFormat)
  {
    var three := ["1", "2", "3"];
    assert Join(three, ',') == s;
    SplitJoin(three, ',');
  }

  /** The empty text is refused. */
  lemma IntervalEmpty(s: string)
    requires s == ""
    ensures IntervalConvert(s) == Failure(UnexpectedIntervalFormat)
  {
    assert Split(s, ',') == [s];
  }
}
