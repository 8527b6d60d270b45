/**
 * component/logger.go: request identifiers and the latency shown in the access log.
 * int64 values are handled as their 64-bit two's-complement patterns (`bv64`), so
 * Go's wrapping additions are bit-vector additions.
 */
module Logger {

  /**
   * The identifier for clock reading `nanos` (UnixNano) and counter value `index`:
   * the low 31 bits of their wrapping sum, with bit 31 set, as a uint32.
   */
  function RequestID(nanos: bv64, index: bv64): (r: bv32)
    ensures r & 0x8000_0000 == 0x8000_0000
    ensures r >= 0x8000_0000
    ensures (r & 0x7FFF_FFFF) as bv64 == (nanos + index) & 0x7FFF_FFFF
  {
    (((nanos + index) & 0x7FFF_FFFF) | 0x8000_0000) as bv32
  }

  /** The identifiers of two consecutive counter values differ, even at the same clock reading and across the int64 wrap. */
  lemma ConsecutiveRequestIDsDiffer(nanos: bv64, index: bv64)
    ensures RequestID(nanos, index) != RequestID(nanos, index + 1)
  {
  }

  /** The process-wide counter `requestIDIndex`. */
  class RequestIDs {
    var requestIDIndex: bv64

    constructor ()
      ensures requestIDIndex == 0
    {
      requestIDIndex := 0;
    }

    method NewRequestID(nanos: bv64) returns (id: bv32)
      modifies this
      ensures requestIDIndex == old(requestIDIndex) + 1
      ensures id == RequestID(nanos, requestIDIndex)
    {
      requestIDIndex := requestIDIndex + 1;
      id := RequestID(nanos, requestIDIndex);
    }
  }

  /** Two requests in the same clock tick get different identifiers. */
  method SameTickRequests(nanos: bv64) returns (first: bv32, second: bv32)
    ensures first != second && first >= 0x8000_0000 && second >= 0x8000_0000
  {
    var ids := new RequestIDs();
    first := ids.NewRequestID(nanos);
    second := ids.NewRequestID(nanos);
    ConsecutiveRequestIDsDiffer(nanos, ids.requestIDIndex - 1);
  }

  // ---- latency (time.Duration, int64 nanoseconds)

  const Second: int := 1_000_000_000
  const Minute: int := 60 * Second

  /** `Duration.Truncate(m)`: rounds toward zero to a multiple of `m`; unchanged when `m <= 0`. */
  function Truncate(d: int, m: int): int {
    if m <= 0 then d
    else if d >= 0 then d - d % m
    else d + (-d) % m
  }

  /** The latency printed for a request: above one minute, truncated to whole seconds. */
  function LogLatency(latency: int): (r: int)
    ensures latency <= Minute ==> r == latency
    ensures latency > Minute ==> r % Second == 0 && r <= latency && latency - r < Second && r >= Minute
  {
    if latency > Minute then Truncate(latency, Second) else latency
  }

  /** Printing a printed latency again changes nothing. */
  lemma LogLatencyIdempotent(latency: int)
    ensures LogLatency(LogLatency(latency)) == LogLatency(latency)
  {
  }
}
