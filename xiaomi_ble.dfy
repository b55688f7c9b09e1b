/**
 * `parse_xiaomi_data_byte` of the Xiaomi BLE component: one service-data
 * record, a type byte and its payload, decoded into the fields of a parse
 * result. Readings are kept as the integers the firmware assembles from the
 * payload bytes; the float scaling applied to them afterwards is not modelled.
 */
module XiaomiBle {
  import opened Wrappers

  /** `uint16_t(lo) | (uint16_t(hi) << 8)`: the 16-bit pattern of two little-endian bytes. */
  function Pattern16(lo: bv8, hi: bv8): bv16
  {
    (lo as bv16) | ((hi as bv16) << 8)
  }

  /** The pattern read as an unsigned 16-bit value. */
  function U16(lo: bv8, hi: bv8): (v: nat)
    ensures v == lo as int + 256 * hi as int && v < 0x1_0000
    ensures v == Pattern16(lo, hi) as int
  {
    ((lo as bv16) | ((hi as bv16) << 8)) as int
  }

  /** A 16-bit pattern stored into an `int16_t`: patterns from 0x8000 up wrap to negatives. */
  function Signed16(p: bv16): (v: int)
    ensures -0x8000 <= v < 0x8000
    ensures (v - p as int) % 0x1_0000 == 0
  {
    if p < 0x8000 then p as int else p as int - 0x1_0000
  }

  /** A signed 16-bit little-endian value. */
  function I16(lo: bv8, hi: bv8): int
  {
    Signed16(Pattern16(lo, hi))
  }

  /** `uint32_t(b0) | (uint32_t(b1) << 8) | (uint32_t(b2) << 16)`: the 32-bit pattern of three little-endian bytes. */
  function Pattern24(b0: bv8, b1: bv8, b2: bv8): bv32
  {
    (b0 as bv32) | ((b1 as bv32) << 8) | ((b2 as bv32) << 16)
  }

  /** The pattern read as an unsigned 24-bit value. */
  function U24(b0: bv8, b1: bv8, b2: bv8): (v: nat)
    ensures v == b0 as int + 256 * b1 as int + 0x1_0000 * b2 as int && v < 0x100_0000
    ensures v == Pattern24(b0, b1, b2) as int
  {
    ((b0 as bv32) | ((b1 as bv32) << 8) | ((b2 as bv32) << 16)) as int
  }

  /** The little-endian bytes of a 16-bit pattern, as a sensor sends them. */
  function Bytes16(p: bv16): (b: seq<bv8>)
    ensures |b| == 2
  {
    [(p & 0xFF) as bv8, (p >> 8) as bv8]
  }

  /** The little-endian bytes of the low 24 bits of a pattern. */
  function Bytes24(p: bv32): (b: seq<bv8>)
    requires p < 0x100_0000
    ensures |b| == 3
  {
    [(p & 0xFF) as bv8, ((p >> 8) & 0xFF) as bv8, (p >> 16) as bv8]
  }

  /** Assembling the bytes of a pattern gives the pattern. */
  lemma Pattern16RoundTrip(p: bv16)
    ensures Pattern16(Bytes16(p)[0], Bytes16(p)[1]) == p
  {
  }

  /** Splitting an assembled pattern gives the bytes again, so two byte pairs never read the same. */
  lemma Bytes16RoundTrip(lo: bv8, hi: bv8)
    ensures Bytes16(Pattern16(lo, hi)) == [lo, hi]
  {
  }

  lemma Pattern24RoundTrip(p: bv32)
    requires p < 0x100_0000
    ensures var b := Bytes24(p); Pattern24(b[0], b[1], b[2]) == p
  {
  }

  /** The sensor family the record came from; the parser only tells a Mi scale from the rest. */
  datatype DeviceType = MiScale | OtherDevice

  /**
   * How a raw scale weight becomes kilograms: `raw * 0.01 / 2`, `raw * 0.01 * 0.6`
   * (a reading in catty) or `raw * 0.01 * 0.453592` (a reading in pounds).
   */
  datatype WeightScale = HalfHundredthsKg | HundredthsCatty | HundredthsPound

  datatype Weight = Weight(raw: nat, scale: WeightScale)

  /**
   * The `struct tm` handed to `mktime` for a scale's measurement time:
   * year less 1900, month less 1, then day, hour, minute and second as sent.
   */
  datatype MeasuredAt = MeasuredAt(tmYear: int, tmMon: int, tmMday: int, tmHour: int, tmMin: int, tmSec: int)

  /**
   * The optional fields of a parse result; temperature and humidity are in
   * tenths of a degree and of a percent.
   */
  datatype Readings = Readings(
    temperature: Option<int>, humidity: Option<int>, batteryLevel: Option<int>,
    conductivity: Option<int>, illuminance: Option<int>, moisture: Option<int>,
    weight: Option<Weight>, impedance: Option<int>, datetime: Option<MeasuredAt>)

  const NoReadings := Readings(None, None, None, None, None, None, None, None, None)

  /** `before` with every field that `writes` holds replaced. */
  function Merge(before: Readings, writes: Readings): (r: Readings)
    ensures writes == NoReadings ==> r == before
  {
    Readings(
      if writes.temperature.Some? then writes.temperature else before.temperature,
      if writes.humidity.Some? then writes.humidity else before.humidity,
      if writes.batteryLevel.Some? then writes.batteryLevel else before.batteryLevel,
      if writes.conductivity.Some? then writes.conductivity else before.conductivity,
      if writes.illuminance.Some? then writes.illuminance else before.illuminance,
      if writes.moisture.Some? then writes.moisture else before.moisture,
      if writes.weight.Some? then writes.weight else before.weight,
      if writes.impedance.Some? then writes.impedance else before.impedance,
      if writes.datetime.Some? then writes.datetime else before.datetime)
  }

  /** Six payload bytes from `at` on: the year as two little-endian bytes, then month, day, hour, minute, second. */
  function MeasuredAtFrom(data: seq<bv8>, at: nat): MeasuredAt
    requires at + 7 <= |data|
  {
    MeasuredAt(U16(data[at], data[at + 1]) - 1900, data[at + 2] as int - 1, data[at + 3] as int,
               data[at + 4] as int, data[at + 5] as int, data[at + 6] as int)
  }

  /** The unit byte of a Mi scale 1 record. */
  function Scale10(unit: bv8): Option<WeightScale>
  {
    if unit == 0x22 || unit == 0xa2 then Some(HalfHundredthsKg)
    else if unit == 0x12 || unit == 0xb2 then Some(HundredthsCatty)
    else if unit == 0x03 || unit == 0xb3 then Some(HundredthsPound)
    else None
  }

  /** The unit byte of a Mi scale 2 or body composition scale record. */
  function Scale13(unit: bv8): Option<WeightScale>
  {
    if unit == 0x02 then Some(HalfHundredthsKg)
    else if unit == 0x03 then Some(HundredthsPound)
    else None
  }

  /** A weight, when the unit byte names a scale. */
  function WeightIn(raw: nat, scale: Option<WeightScale>): Option<Weight>
  {
    if scale.Some? then Some(Weight(raw, scale.value)) else None
  }

  /**
   * The fields a record writes into the parse result, whether or not it is
   * then accepted (fields it leaves alone are None).
   */
  function Writes(dataType: bv8, data: seq<bv8>, device: DeviceType): Readings
  {
    if dataType == 0x16 then ScaleWrites(data, device) else SensorWrites(dataType, data)
  }

  /** The sensor records: one reading, or two for 0x0D, written when the payload length matches. */
  function SensorWrites(dataType: bv8, data: seq<bv8>): (w: Readings)
    ensures w.weight == None && w.impedance == None && w.datetime == None
    ensures w.temperature.Some? ==> -0x8000 <= w.temperature.value < 0x8000
    ensures w.humidity.Some? ==> -0x8000 <= w.humidity.value < 0x8000
    ensures w.batteryLevel.Some? ==> 0 <= w.batteryLevel.value < 256
    ensures w.moisture.Some? ==> 0 <= w.moisture.value < 256
    ensures w.conductivity.Some? ==> 0 <= w.conductivity.value < 0x1_0000
    ensures w.illuminance.Some? ==> 0 <= w.illuminance.value < 0x100_0000
  {
    if dataType == 0x0D then
      if |data| != 4 then NoReadings
      else NoReadings.(temperature := Some(I16(data[0], data[1])), humidity := Some(I16(data[2], data[3])))
    else if dataType == 0x0A then
      if |data| != 1 then NoReadings else NoReadings.(batteryLevel := Some(data[0] as int))
    else if dataType == 0x06 then
      if |data| != 2 then NoReadings else NoReadings.(humidity := Some(I16(data[0], data[1])))
    else if dataType == 0x04 then
      if |data| != 2 then NoReadings else NoReadings.(temperature := Some(I16(data[0], data[1])))
    else if dataType == 0x09 then
      if |data| != 2 then NoReadings else NoReadings.(conductivity := Some(U16(data[0], data[1])))
    else if dataType == 0x07 then
      if |data| != 3 then NoReadings else NoReadings.(illuminance := Some(U24(data[0], data[1], data[2])))
    else if dataType == 0x08 then
      if |data| != 1 then NoReadings else NoReadings.(moisture := Some(data[0] as int))
    else NoReadings
  }

  /** The weight records (type 0x16) of a Mi scale, 10 or 13 bytes long. */
  function ScaleWrites(data: seq<bv8>, device: DeviceType): (w: Readings)
    ensures w == NoReadings.(weight := w.weight, impedance := w.impedance, datetime := w.datetime)
    ensures w.weight.Some? ==> w.weight.value.raw < 0x1_0000
    ensures w.impedance.Some? ==> 0 < w.impedance.value < 3000
  {
    if device == MiScale && |data| == 10 then
      NoReadings.(datetime := Some(MeasuredAtFrom(data, 3)),
                  weight := WeightIn(U16(data[1], data[2]), Scale10(data[0])))
    else if device == MiScale && |data| == 13 then
      var impedance := U16(data[9], data[10]);
      NoReadings.(datetime := Some(MeasuredAtFrom(data, 2)),
                  impedance := if data[1] & 0x02 == 0x02 && impedance < 3000 && impedance != 0 then Some(impedance) else None,
                  weight := if data[1] & 0x20 == 0x20 then WeightIn(U16(data[11], data[12]), Scale13(data[0])) else None)
    else NoReadings
  }

  /** The records the parser accepts: each type with its payload length, and the scale records whose unit it knows. */
  predicate Accepted(dataType: bv8, data: seq<bv8>, device: DeviceType)
  {
    || (dataType == 0x0D && |data| == 4)
    || ((dataType == 0x0A || dataType == 0x08) && |data| == 1)
    || ((dataType == 0x06 || dataType == 0x04 || dataType == 0x09) && |data| == 2)
    || (dataType == 0x07 && |data| == 3)
    || (dataType == 0x16 && device == MiScale && |data| == 10
        && data[0] in {0x22, 0xa2, 0x12, 0xb2, 0x03, 0xb3})
    || (dataType == 0x16 && device == MiScale && |data| == 13
        && data[1] & 0x20 == 0x20 && (data[0] == 0x02 || data[0] == 0x03))
  }

  /** The parse result a record is decoded into: its device type and its optional readings. */
  class XiaomiParseResult {
    var deviceType: DeviceType
    var temperature: Option<int>
    var humidity: Option<int>
    var batteryLevel: Option<int>
    var conductivity: Option<int>
    var illuminance: Option<int>
    var moisture: Option<int>
    var weight: Option<Weight>
    var impedance: Option<int>
    var datetime: Option<MeasuredAt>

    /** A result for a device of type `deviceType` with no readings yet. */
    constructor(deviceType: DeviceType)
      ensures this.deviceType == deviceType && Fields() == NoReadings
    {
      this.deviceType := deviceType;
      temperature, humidity, batteryLevel := None, None, None;
      conductivity, illuminance, moisture := None, None, None;
      weight, impedance, datetime := None, None, None;
    }

    function Fields(): Readings
      reads this
    {
      Readings(temperature, humidity, batteryLevel, conductivity, illuminance, moisture, weight, impedance, datetime)
    }
  }

  /**
   * `parse_xiaomi_data_byte`: decodes one record into `result` and reports
   * whether it was accepted. `data` holds the `data_length` payload bytes.
   */
  method ParseXiaomiDataByte(dataType: bv8, data: seq<bv8>, result: XiaomiParseResult) returns (ok: bool)
    requires |data| < 256
    modifies result
    ensures ok == Accepted(dataType, data, result.deviceType)
    ensures result.deviceType == old(result.deviceType)
    ensures result.Fields() == Merge(old(result.Fields()), Writes(dataType, data, result.deviceType))
  {
    if dataType == 0x0D {
      if |data| != 4 {
        return false;
      }
      result.temperature := Some(I16(data[0], data[1]));
      result.humidity := Some(I16(data[2], data[3]));
      return true;
    } else if dataType == 0x0A {
      if |data| != 1 {
        return false;
      }
      result.batteryLevel := Some(data[0] as int);
      return true;
    } else if dataType == 0x06 {
      if |data| != 2 {
        return false;
      }
      result.humidity := Some(I16(data[0], data[1]));
      return true;
    } else if dataType == 0x04 {
      if |data| != 2 {
        return false;
      }
      result.temperature := Some(I16(data[0], data[1]));
      return true;
    } else if dataType == 0x09 {
      if |data| != 2 {
        return false;
      }
      result.conductivity := Some(U16(data[0], data[1]));
      return true;
    } else if dataType == 0x07 {
      if |data| != 3 {
        return false;
      }
      result.illuminance := Some(U24(data[0], data[1], data[2]));
      return true;
    } else if dataType == 0x08 {
      if |data| != 1 {
        return false;
      }
      result.moisture := Some(data[0] as int);
      return true;
    } else if dataType == 0x16 {
      ok := ParseScaleRecord(data, result);
      return;
    }
    return false;
  }

  /** Case 0x16 of `parse_xiaomi_data_byte`: a Mi scale's weight record; every other case falls through to `false`. */
  method ParseScaleRecord(data: seq<bv8>, result: XiaomiParseResult) returns (ok: bool)
    modifies result
    ensures ok == Accepted(0x16, data, result.deviceType)
    ensures result.deviceType == old(result.deviceType)
    ensures result.Fields() == Merge(old(result.Fields()), ScaleWrites(data, result.deviceType))
  {
    if result.deviceType == MiScale {
      if |data| == 10 {
        var raw := U16(data[1], data[2]);
        result.datetime := Some(MeasuredAtFrom(data, 3));
        if data[0] == 0x22 || data[0] == 0xa2 {
          result.weight := Some(Weight(raw, HalfHundredthsKg));
        } else if data[0] == 0x12 || data[0] == 0xb2 {
          result.weight := Some(Weight(raw, HundredthsCatty));
        } else if data[0] == 0x03 || data[0] == 0xb3 {
          result.weight := Some(Weight(raw, HundredthsPound));
        } else {
          return false;
        }
        return true;
      } else if |data| == 13 {
        var raw := U16(data[11], data[12]);
        var impedance := U16(data[9], data[10]);
        result.datetime := Some(MeasuredAtFrom(data, 2));
        if data[1] & 0x02 == 0x02 && impedance < 3000 && impedance != 0 {
          result.impedance := Some(impedance);
        }
        if data[1] & 0x20 == 0x20 {
          if data[0] == 0x02 {
            result.weight := Some(Weight(raw, HalfHundredthsKg));
          } else if data[0] == 0x03 {
            result.weight := Some(Weight(raw, HundredthsPound));
          } else {
            return false;
          }
        } else {
          return false;
        }
        return true;
      }
    }
    return false;
  }

  /** A record is accepted exactly when it carries a reading: a weight for a scale record, any field otherwise. */
  lemma AcceptedIffReading(dataType: bv8, data: seq<bv8>, device: DeviceType)
    ensures dataType == 0x16 ==> (Accepted(dataType, data, device) <==> Writes(dataType, data, device).weight.Some?)
    ensures dataType != 0x16 ==> (Accepted(dataType, data, device) <==> Writes(dataType, data, device) != NoReadings)
  {
  }

  /** A rejected record of any type but 0x16 leaves the parse result as it was. */
  lemma RejectedWritesNothing(dataType: bv8, data: seq<bv8>, device: DeviceType, before: Readings)
    requires dataType != 0x16 && !Accepted(dataType, data, device)
    ensures Merge(before, Writes(dataType, data, device)) == before
  {
  }

  /**
   * A rejected scale record still leaves its measurement time, and for the
   * 13-byte form possibly its impedance, but never a weight or any other reading.
   */
  lemma RejectedScaleRecord(data: seq<bv8>, device: DeviceType)
    requires !Accepted(0x16, data, device)
    ensures var w := Writes(0x16, data, device);
      && w == NoReadings.(datetime := w.datetime, impedance := w.impedance)
      && (w.datetime.Some? <==> device == MiScale && (|data| == 10 || |data| == 13))
      && (w.impedance.Some? ==> |data| == 13)
  {
  }

  /** The impedance of a 13-byte record is kept only when its flag bit is set and it lies strictly between 0 and 3000. */
  lemma ImpedanceRecorded(dataType: bv8, data: seq<bv8>, device: DeviceType)
    ensures Writes(dataType, data, device).impedance.Some? <==>
      dataType == 0x16 && device == MiScale && |data| == 13
      && data[1] & 0x02 == 0x02 && 0 < U16(data[9], data[10]) < 3000
    ensures Writes(dataType, data, device).impedance.Some? ==>
      Writes(dataType, data, device).impedance.value == U16(data[9], data[10])
  {
  }

  /** The unit byte of an accepted Mi scale 1 record fixes the weight's scale, and the raw weight is bytes 1 and 2. */
  lemma Scale10Units(data: seq<bv8>)
    requires |data| == 10 && Accepted(0x16, data, MiScale)
    ensures Writes(0x16, data, MiScale).weight == Some(Weight(data[1] as int + 256 * data[2] as int,
      if data[0] in {0x22, 0xa2} then HalfHundredthsKg
      else if data[0] in {0x12, 0xb2} then HundredthsCatty
      else HundredthsPound))
  {
  }

  /** A temperature-and-humidity record built from two 16-bit patterns decodes to their signed values. */
  lemma TemperatureHumidityRoundTrip(temperature: bv16, humidity: bv16, device: DeviceType)
    ensures var data := Bytes16(temperature) + Bytes16(humidity);
      && Accepted(0x0D, data, device)
      && Writes(0x0D, data, device) == NoReadings.(temperature := Some(Signed16(temperature)), humidity := Some(Signed16(humidity)))
  {
    var data := Bytes16(temperature) + Bytes16(humidity);
    Pattern16RoundTrip(temperature);
    Pattern16RoundTrip(humidity);
    assert data[0] == Bytes16(temperature)[0] && data[1] == Bytes16(temperature)[1];
    assert data[2] == Bytes16(humidity)[0] && data[3] == Bytes16(humidity)[1];
  }

  /** An illuminance record built from a 24-bit reading decodes back to it. */
  lemma IlluminanceRoundTrip(lux: bv32, device: DeviceType)
    requires lux < 0x100_0000
    ensures Accepted(0x07, Bytes24(lux), device)
    ensures Writes(0x07, Bytes24(lux), device) == NoReadings.(illuminance := Some(lux as int))
  {
    Pattern24RoundTrip(lux);
  }
}
