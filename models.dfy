/** The packet summary that the capture front end produces and both analytics
    components consume, and the clock values they work with. */
module Models {
  import opened GoStrings

  /** A clock reading in nanoseconds since the Unix epoch; it replaces `time.Now()`. */
  type Time = int

  /** A duration in nanoseconds, as Go's `time.Duration`. */
  type Duration = int

  const Microsecond: Duration := 1_000
  const Millisecond: Duration := 1_000_000
  const Second: Duration := 1_000_000_000

  /** Go's zero `time.Time` (1 January of year 1, UTC), the value of a time field nobody has set. */
  const GoZeroTime: Time := -62_135_596_800 * Second

  /** `models.PacketData`: the fields are best effort; an absent field is "" or 0. */
  datatype PacketData = PacketData(
    timestamp: Time,
    srcIP: GoString,
    dstIP: GoString,
    srcPort: int,
    dstPort: int,
    protocol: GoString,
    length: int,
    hostname: GoString,  // best available hostname: TLS SNI, else DNS query, else HTTP Host
    ethDst: GoString     // destination MAC address as text, for broadcast detection
  )
}
