/** Values shared by both services: optional values, gRPC status codes,
    handler results, timestamps and their protobuf conversion, the faults
    and outcomes of a listing, and the version probe. */
module Common {

  datatype Option<+T> = None | Some(value: T)

  /** The gRPC status codes the handlers return on failure. */
  datatype Code = InvalidArgument | NotFound | Internal | Unavailable

  /** The outcome of a unary handler: a response message or a status code. */
  datatype Result<+T> = Ok(value: T) | Err(code: Code)

  /** A point in time as seconds and nanoseconds since the Unix epoch, the shape
      of the protobuf Timestamp message. A Go time.Time always has its
      nanoseconds in [0, 10^9); a Timestamp received in a request may not. */
  datatype Timestamp = Timestamp(seconds: int, nanos: int)

  const NanosPerSecond := 1_000_000_000

  /** time.Unix(0, 0), which is what AsTime gives for an absent Timestamp message. */
  const UnixEpoch := Timestamp(0, 0)

  /** Go's zero time.Time (January 1, year 1, UTC) in seconds since the Unix epoch. */
  const GoZeroTime := Timestamp(-62135596800, 0)

  /** The range ptypes.TimestampProto accepts: from 0001-01-01T00:00:00Z up to,
      but not including, 10000-01-01T00:00:00Z. */
  const MinProtoSeconds := -62135596800
  const MaxProtoSeconds := 253402300800

  const SecondsPerHour := 3600

  /** The instant a Timestamp denotes, in nanoseconds since the epoch. */
  function Instant(t: Timestamp): int {
    t.seconds * NanosPerSecond + t.nanos
  }

  /** time.Unix(t.Seconds, 0): the seconds field is kept and the nanoseconds
      field is dropped as it stands, without first carrying it into the seconds. */
  function WholeSeconds(t: Timestamp): (r: Timestamp)
    ensures r.nanos == 0 && r.seconds == t.seconds
    ensures t.nanos == 0 ==> r == t
    ensures 0 <= t.nanos < NanosPerSecond ==> Instant(r) <= Instant(t) < Instant(r) + NanosPerSecond
  {
    Timestamp(t.seconds, 0)
  }

  /** t.Add(time.Second * n) */
  function AddSeconds(t: Timestamp, n: int): (r: Timestamp)
    ensures r.seconds - t.seconds == n && r.nanos == t.nanos
    ensures Instant(r) == Instant(t) + n * NanosPerSecond
    ensures 0 <= t.nanos < NanosPerSecond ==> 0 <= r.nanos < NanosPerSecond
  {
    Timestamp(t.seconds + n, t.nanos)
  }

  /** ts.AsTime() on a possibly absent protobuf Timestamp, that is
      time.Unix(ts.Seconds, ts.Nanos): the nil message reads as the epoch, and
      nanoseconds outside [0, 10^9) are carried into the seconds. */
  function AsTime(ts: Option<Timestamp>): (r: Timestamp)
    ensures ts.None? ==> r == UnixEpoch
    ensures 0 <= r.nanos < NanosPerSecond
    ensures ts.Some? ==>
      r.seconds * NanosPerSecond + r.nanos == ts.value.seconds * NanosPerSecond + ts.value.nanos
    ensures ts.Some? && 0 <= ts.value.nanos < NanosPerSecond ==> r == ts.value
  {
    if ts.None? then UnixEpoch
    else Timestamp(ts.value.seconds + ts.value.nanos / NanosPerSecond, ts.value.nanos % NanosPerSecond)
  }

  /** A time ptypes.TimestampProto converts without error. */
  predicate InProtoRange(t: Timestamp) {
    MinProtoSeconds <= t.seconds < MaxProtoSeconds && 0 <= t.nanos < NanosPerSecond
  }

  /** ptypes.TimestampProto(t) with its error discarded, as every response
      mapping does: a time outside the representable range gives the nil
      message, so the field is absent from the response. */
  function ToProto(t: Timestamp): (r: Option<Timestamp>)
    ensures r.Some? <==> InProtoRange(t)
    ensures r.Some? ==> r.value == t
    ensures r.Some? ==> AsTime(r) == t
  {
    if InProtoRange(t) then Some(t) else None
  }

  /** A response field shows t: t itself when TimestampProto accepts it,
      otherwise the absent message. */
  predicate Shows(field: Option<Timestamp>, t: Timestamp) {
    (field.Some? <==> InProtoRange(t)) && (field.Some? ==> field.value == t)
  }

  /** Go's zero time and the epoch both convert; the first second of year
      10000 does not. */
  lemma ProtoRangeEdges()
    ensures ToProto(GoZeroTime) == Some(GoZeroTime)
    ensures ToProto(UnixEpoch) == Some(UnixEpoch)
    ensures ToProto(Timestamp(253402300800, 0)) == None
    ensures ToProto(Timestamp(253402300799, 999999999)).Some?
    ensures ToProto(Timestamp(-62135596801, 0)) == None
  {
  }

  /** AsTime carries whole seconds out of the nanoseconds, in both directions. */
  lemma AsTimeCarries()
    ensures AsTime(Some(Timestamp(10, 2000000000))) == Timestamp(12, 0)
    ensures AsTime(Some(Timestamp(10, -1))) == Timestamp(9, 999999999)
    ensures AsTime(None) == Timestamp(0, 0)
  {
  }

  /** Faults of a listing: the Find call fails, the document of a given
      position does not decode, or the cursor breaks before a given position. */
  datatype ListFault = NoFault | FindFails | DecodeFailsAt(k: nat) | CursorFailsAt(k: nat)

  /** How a listing ends: the stream is complete, or it ends with an error
      status after the messages already sent. */
  datatype Outcome = Pass | Fail(code: Code)

  /** metaServiceVersion, the same in both services. */
  const ServiceVersion := "1.0.0"

  /** GetVersion: "v" followed by the service version. */
  function GetVersion(): (v: string)
    ensures |v| == 1 + |ServiceVersion| && v[0] == 'v' && v[1..] == ServiceVersion
    ensures v == "v1.0.0"
  {
    "v" + ServiceVersion
  }
}
