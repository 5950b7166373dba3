/**
  The values the pipeline passes around after `pyais` has decoded a
  sentence: Python scalars, the dictionaries built from them, and the
  attributes of a decoded AIS message.
*/
module Decoded {
  import opened Common

  /** A Python value as it appears in a decoded message or in one of the
      dictionaries built from it. Timestamps are seconds since the epoch. */
  datatype Scalar = Null | Str(s: string) | Int(i: int) | Real(r: real) | Bool(b: bool) | Time(t: int)

  /** Python truthiness: `None`, `""`, `0`, `0.0` and `False` are false,
      every other value (a datetime included) is true. */
  predicate Truthy(v: Scalar) {
    match v
    case Null => false
    case Str(s) => s != []
    case Int(i) => i != 0
    case Real(r) => r != 0.0
    case Bool(b) => b
    case Time(_) => true
  }

  /** A Python dictionary from field names to values. */
  type Record = map<string, Scalar>

  /** `d.get(k)`. */
  function Get(d: Record, k: string): Option<Scalar> {
    if k in d then Some(d[k]) else None
  }

  /** The `lat` or `lon` attribute of a decoded message: missing (not a
      position message), present but `None`, or a number of degrees. */
  datatype Coordinate = NoAttribute | NoValue | Degrees(deg: real)

  /** A message as `pyais.decode` returns it. `attrs` holds every other
      attribute the message has; an attribute the message lacks is not a
      key (`hasattr` is false), one set to `None` maps to `Null`. */
  datatype DecodedMessage = DecodedMessage(
    mmsi: int,
    msgType: int,
    lat: Coordinate,
    lon: Coordinate,
    attrs: map<string, Scalar>)
}
