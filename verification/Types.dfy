/** Values shared by every component: the message DTO, server time and bounded durations. */
module Types {

  datatype Option<+T> = None | Some(value: T)

  /** Nanoseconds on the server's clock. 0 is Go's zero time. */
  type Time = int

  const ZERO_TIME: Time := 0

  const MIN_DURATION: int := -0x8000_0000_0000_0000
  const MAX_DURATION: int := 0x7FFF_FFFF_FFFF_FFFF

  /** A 64-bit duration. */
  type Duration = d: int | MIN_DURATION <= d <= MAX_DURATION

  datatype Message = Message(id: nat, username: string, text: string, timestamp: Time, edited: bool)

  /** The difference of two times saturates instead of wrapping around. */
  function Elapsed(now: Time, since: Time): (d: Duration)
  {
    var d := now - since;
    if d < MIN_DURATION then MIN_DURATION else if d > MAX_DURATION then MAX_DURATION else d
  }

  /** The test with which every in-memory cache entry is declared out of date. */
  predicate Stale(now: Time, since: Time, ttl: Duration) {
    Elapsed(now, since) > ttl
  }

  /** For every lifetime but the largest representable one, saturation is not observable. */
  lemma StaleIsArithmetic(now: Time, since: Time, ttl: Duration)
    requires ttl < MAX_DURATION
    ensures Stale(now, since, ttl) <==> now - since > ttl
  {
  }

  /** The last n elements of s, or all of them. */
  function LastN<T>(s: seq<T>, n: nat): (r: seq<T>)
    ensures |r| == if |s| < n then |s| else n
  {
    if |s| <= n then s else s[|s| - n..]
  }

  /** Keeping the last n after each append is keeping the last n of everything appended. */
  lemma LastNAppend<T>(s: seq<T>, t: seq<T>, n: nat)
    ensures LastN(LastN(s, n) + t, n) == LastN(s + t, n)
  {
  }
}
