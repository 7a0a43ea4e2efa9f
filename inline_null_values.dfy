/**
 * The integer NULL sentinels of the execution engine: given a column's type
 * information, the value stored in place of SQL NULL.
 *
 * `inline_int_null_value<T>()` itself is not part of this model; the
 * sentinel of an integer type of a given width and signedness is kept
 * symbolic (`NullOf`), so nothing here depends on its actual value.
 * A failed `CHECK` and `abort()` become error results.
 */
module InlineNullValues {
  import opened Wrappers

  /** SQLTypes. */
  datatype SqlType =
    | Boolean | TinyInt | SmallInt | Int | BigInt | Float | Double
    | Decimal | Numeric | Time | Timestamp | Date
    | IntervalDayTime | IntervalYearMonth
    | Text | Varchar | Char | Array | Geometry | NullType

  /** EncodingType. */
  datatype Encoding = NoEncoding | Fixed | RunLength | Diff | Dict | Sparse | GeoInt | DateInDays

  /** The parts of SQLTypeInfo the sentinels depend on. */
  datatype TypeInfo = TypeInfo(sqlType: SqlType, compression: Encoding, compParam: int, size: int, logicalSize: int)

  // The type classes of SQLTypeInfo (sqltypes.h, which is not part of this model).
  predicate IsString(ti: TypeInfo)  { ti.sqlType == Text || ti.sqlType == Varchar || ti.sqlType == Char }
  predicate IsInteger(ti: TypeInfo) { ti.sqlType == TinyInt || ti.sqlType == SmallInt || ti.sqlType == Int || ti.sqlType == BigInt }
  predicate IsTime(ti: TypeInfo)    { ti.sqlType == Time || ti.sqlType == Timestamp || ti.sqlType == Date }
  predicate IsDecimal(ti: TypeInfo) { ti.sqlType == Decimal || ti.sqlType == Numeric }

  /** A C++ integer type: int8_t, uint16_t, int64_t, ... */
  datatype IntType = IntType(bits: nat, signed: bool)

  const Int8   := IntType(8, true)
  const Int16  := IntType(16, true)
  const Int32  := IntType(32, true)
  const Int64  := IntType(64, true)
  const UInt8  := IntType(8, false)
  const UInt16 := IntType(16, false)

  /** A sentinel: `inline_int_null_value<T>()` for the C++ type `T`, or a value computed in place. */
  datatype NullValue = NullOf(of: IntType) | Literal(value: int)

  /** How the lookup fails: a `CHECK` that does not hold, or `abort()`. */
  datatype Failure = CheckFailed | Aborted

  /** The integer types whose sentinel comes from the width table, by that width. */
  const Width8Types  := {Boolean, TinyInt}
  const Width16Types := {SmallInt}
  const Width32Types := {Int}
  const Width64Types := {BigInt, Timestamp, Time, Date, IntervalDayTime, IntervalYearMonth, Decimal, Numeric}

  /** The checks `inline_int_null_val` makes before the width table: a dictionary-encoded 4-byte string, or no encoding. */
  predicate IntChecksHold(ti: TypeInfo)
  {
    if IsString(ti) then ti.compression == Dict && ti.logicalSize == 4 else ti.compression == NoEncoding
  }

  /** The sentinel of an integer column (`inline_int_null_val`); a string column uses its 32-bit dictionary ids. */
  function InlineIntNullVal(ti: TypeInfo): (r: Result<NullValue, Failure>)
    ensures r == Err(CheckFailed) <==> !IntChecksHold(ti)
    ensures r == Err(Aborted) <==>
              IntChecksHold(ti) && !IsString(ti) &&
              ti.sqlType !in Width8Types + Width16Types + Width32Types + Width64Types
    ensures r.Ok? ==> r.value.NullOf? && r.value.of.signed && r.value.of.bits in {8, 16, 32, 64}
    ensures r.Ok? && IsString(ti) ==> r.value == NullOf(Int32)
  {
    var t :=
      if IsString(ti) then
        if ti.compression != Dict || ti.logicalSize != 4 then Err(CheckFailed) else Ok(Int)
      else if ti.compression != NoEncoding then Err(CheckFailed)
      else Ok(ti.sqlType);
    match t
    case Err(e) => Err(e)
    case Ok(ty) =>
      match ty
      case Boolean => Ok(NullOf(Int8))
      case TinyInt => Ok(NullOf(Int8))
      case SmallInt => Ok(NullOf(Int16))
      case Int => Ok(NullOf(Int32))
      case BigInt => Ok(NullOf(Int64))
      case Timestamp | Time | Date | IntervalDayTime | IntervalYearMonth => Ok(NullOf(Int64))
      case Decimal | Numeric => Ok(NullOf(Int64))
      case _ => Err(Aborted)
  }

  /**
   * The width table: once the checks hold, a non-string column's sentinel is
   * that of the signed integer of its type's width; types of the same width
   * share one sentinel.
   */
  lemma WidthTable(ti: TypeInfo)
    requires IntChecksHold(ti) && !IsString(ti)
    ensures InlineIntNullVal(ti) == Ok(NullOf(Int8))  <==> ti.sqlType in Width8Types
    ensures InlineIntNullVal(ti) == Ok(NullOf(Int16)) <==> ti.sqlType in Width16Types
    ensures InlineIntNullVal(ti) == Ok(NullOf(Int32)) <==> ti.sqlType in Width32Types
    ensures InlineIntNullVal(ti) == Ok(NullOf(Int64)) <==> ti.sqlType in Width64Types
  {
  }

  /** The sentinel depends on the column's type alone, not on its parameters or sizes. */
  lemma SentinelDependsOnTypeOnly(a: TypeInfo, b: TypeInfo)
    requires a.sqlType == b.sqlType
    requires InlineIntNullVal(a).Ok? && InlineIntNullVal(b).Ok?
    ensures InlineIntNullVal(a) == InlineIntNullVal(b)
  {
  }

  /** A dictionary-encoded string shares the sentinel of an unencoded INT column. */
  lemma StringsShareIntSentinel(ti: TypeInfo)
    requires IsString(ti) && InlineIntNullVal(ti).Ok?
    ensures InlineIntNullVal(ti) == InlineIntNullVal(TypeInfo(Int, NoEncoding, 0, 4, 4))
  {
  }

  /** For a 4-byte dictionary-encoded string both lookups agree. */
  lemma DictFourBytesAgree(ti: TypeInfo)
    requires IsString(ti) && ti.compression == Dict && ti.size == 4 && ti.logicalSize == 4
    ensures InlineFixedEncodingNullVal(ti) == InlineIntNullVal(ti) == Ok(NullOf(Int32))
  {
  }

  /** 2^n. */
  function Pow2(n: nat): (r: int)
    ensures r >= 1
  {
    if n == 0 then 1 else 2 * Pow2(n - 1)
  }

  /** The shift in the FIXED case is defined: a parameter that passes the checks lies in 8..56. */
  predicate FixedShiftDefined(ti: TypeInfo)
  {
    ti.compression == Fixed && (IsInteger(ti) || IsTime(ti) || IsDecimal(ti)) && ti.compParam % 8 == 0 ==>
      0 < ti.compParam < 64
  }

  /** The sentinel of a column under its compression (`inline_fixed_encoding_null_val`). */
  function InlineFixedEncodingNullVal(ti: TypeInfo): (r: Result<NullValue, Failure>)
    requires FixedShiftDefined(ti)
    ensures ti.compression == NoEncoding ==> r == InlineIntNullVal(ti)
    ensures ti.compression == DateInDays ==>
              && (r.Ok? <==> ti.compParam in {0, 16, 32})
              && (r.Ok? ==> r.value == NullOf(if ti.compParam == 16 then Int16 else Int32))
    ensures ti.compression == Dict ==>
              && (r.Ok? <==> IsString(ti) && ti.size in {1, 2, 4})
              && (r.Ok? ==> r.value.NullOf? && r.value.of.bits == 8 * ti.size && (r.value.of.signed <==> ti.size == 4))
    ensures ti.compression == Fixed ==>
              && (r.Ok? <==> (IsInteger(ti) || IsTime(ti) || IsDecimal(ti)) && ti.compParam % 8 == 0)
              && (r.Ok? ==> r.value.Literal? && IsSignedMinimum(r.value.value, ti.compParam) && FitsSigned(r.value.value, 64))
    ensures ti.compression !in {NoEncoding, DateInDays, Dict, Fixed} ==> r == Err(CheckFailed)
    ensures r != Err(Aborted) || ti.compression == NoEncoding
  {
    if ti.compression == NoEncoding then InlineIntNullVal(ti)
    else if ti.compression == DateInDays then
      if ti.compParam == 0 || ti.compParam == 32 then Ok(NullOf(Int32))
      else if ti.compParam == 16 then Ok(NullOf(Int16))
      else Err(CheckFailed)
    else if ti.compression == Dict then
      if !IsString(ti) then Err(CheckFailed)
      else if ti.size == 1 then Ok(NullOf(UInt8))
      else if ti.size == 2 then Ok(NullOf(UInt16))
      else if ti.size == 4 then Ok(NullOf(Int32))
      else Err(CheckFailed)
    else if ti.compression != Fixed then Err(CheckFailed)
    else if !(IsInteger(ti) || IsTime(ti) || IsDecimal(ti)) then Err(CheckFailed)
    else if ti.compParam % 8 != 0 then Err(CheckFailed)
    else
      FixedSentinelIsMinimum(ti.compParam);
      Ok(Literal(-Pow2(ti.compParam - 1)))
  }

  /** `x` is representable in `bits`-bit two's complement. */
  predicate FitsSigned(x: int, bits: nat)
  {
    bits > 0 && -Pow2(bits - 1) <= x < Pow2(bits - 1)
  }

  /** `v` is the smallest value a `bits`-bit two's-complement integer can hold. */
  predicate IsSignedMinimum(v: int, bits: nat)
  {
    FitsSigned(v, bits) && !FitsSigned(v - 1, bits)
  }

  lemma {:induction false} Pow2Monotonic(m: nat, n: nat)
    requires m < n
    ensures Pow2(m) < Pow2(n)
    decreases n
  {
    if m < n - 1 {
      Pow2Monotonic(m, n - 1);
    }
  }

  /**
   * The FIXED sentinel `-(1 << (p - 1))` is the smallest `p`-bit signed
   * value, it fits the 64-bit result, and it is negative.
   */
  lemma FixedSentinelIsMinimum(p: nat)
    requires 0 < p < 64
    ensures IsSignedMinimum(-Pow2(p - 1), p)
    ensures FitsSigned(-Pow2(p - 1), 64) && -Pow2(p - 1) < 0
  {
    Pow2Monotonic(p - 1, 63);
  }

  /** Wider FIXED encodings have strictly smaller sentinels, so no two widths share one. */
  lemma FixedSentinelsDistinct(p: nat, q: nat)
    requires 0 < p < q
    ensures -Pow2(q - 1) < -Pow2(p - 1)
  {
    Pow2Monotonic(p - 1, q - 1);
  }
}
