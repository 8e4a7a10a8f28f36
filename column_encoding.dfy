/**
 * The writer's column encoding `to_uint32` used by the test fixtures: how a
 * frame column becomes a uint32 archive column. Prices are scaled by 1000
 * and truncated, volumes are cast as they are, and days are turned from
 * nanoseconds into whole seconds. Numbers are exact reals here; the
 * rounding of binary floating point is not modelled.
 */
module ColumnEncoding {
  import opened Wrappers

  /** One more than the largest value a uint32 column holds. */
  const Uint32Modulus: int := 0x1_0000_0000

  /** The fixed-point scale for open, high, low and close. */
  const PriceScale: int := 1000

  const NanosPerSecond: int := 1000 * 1000 * 1000

  /** The column names that are encoded as prices. */
  const OHLC: set<string> := {"open", "high", "low", "close"}

  /** The cast of an integer to uint32: the value modulo 2^32. */
  function CastUint32(x: int): (r: nat)
    ensures r < Uint32Modulus
    ensures 0 <= x < Uint32Modulus ==> r == x
    ensures (x - r) % Uint32Modulus == 0
  {
    x % Uint32Modulus
  }

  /** The cast of a number to an integer type: truncation toward zero. */
  function Truncate(x: real): (r: int)
    ensures 0.0 <= x ==> r as real <= x < r as real + 1.0
    ensures x < 0.0 ==> r as real - 1.0 < x <= r as real
  {
    if x >= 0.0 then x.Floor else -((-x).Floor)
  }

  function EncodePrice(x: real): nat
  {
    CastUint32(Truncate(x * PriceScale as real))
  }

  function EncodeVolume(x: real): nat
  {
    CastUint32(Truncate(x))
  }

  /** Nanoseconds to whole seconds by integer division, then the uint32 cast. */
  function EncodeDay(nanos: real): nat
  {
    CastUint32(Truncate(nanos) / NanosPerSecond)
  }

  /**
   * `to_uint32(column, colname)`: the encoded column, or `None` for a column
   * name the encoding does not know (the source then returns nothing).
   */
  function ToUint32(column: seq<real>, colname: string): (r: Option<seq<nat>>)
    ensures r.Some? <==> colname in OHLC || colname == "volume" || colname == "day"
    ensures r.Some? ==> |r.value| == |column|
    ensures r.Some? ==> forall i :: 0 <= i < |r.value| ==> r.value[i] < Uint32Modulus
  {
    if colname in OHLC then Some(seq(|column|, i requires 0 <= i < |column| => EncodePrice(column[i])))
    else if colname == "volume" then Some(seq(|column|, i requires 0 <= i < |column| => EncodeVolume(column[i])))
    else if colname == "day" then Some(seq(|column|, i requires 0 <= i < |column| => EncodeDay(column[i])))
    else None
  }

  /** A price given to the thousandth, within range, is stored as that many thousandths. */
  lemma PriceRoundTrip(thousandths: nat)
    requires thousandths < Uint32Modulus
    ensures EncodePrice(thousandths as real / PriceScale as real) == thousandths
  {
    assert (thousandths as real / PriceScale as real) * PriceScale as real == thousandths as real;
  }

  /** A volume within range is stored unchanged. */
  lemma VolumeRoundTrip(volume: nat)
    requires volume < Uint32Modulus
    ensures EncodeVolume(volume as real) == volume
  {
  }

  /**
   * A timestamp of `seconds` whole seconds plus a sub-second remainder is
   * stored as `seconds`, when `seconds` fits the column.
   */
  lemma DayRoundTrip(seconds: nat, rest: nat)
    requires seconds < Uint32Modulus && rest < NanosPerSecond
    ensures EncodeDay((seconds * NanosPerSecond + rest) as real) == seconds
  {
    var n := seconds * NanosPerSecond + rest;
    assert Truncate(n as real) == n;
    assert n / NanosPerSecond == seconds;
  }

  /** Between 1970 and the end of the uint32 range, a later timestamp never encodes to an earlier day. */
  lemma {:induction false} DayMonotone(n1: nat, n2: nat)
    requires n1 <= n2 < Uint32Modulus * NanosPerSecond
    ensures EncodeDay(n1 as real) <= EncodeDay(n2 as real)
  {
    assert Truncate(n1 as real) == n1 && Truncate(n2 as real) == n2;
  }
}
