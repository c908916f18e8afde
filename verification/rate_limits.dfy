/** What every limiter reports. */
module RateLimits {

  import opened Wrappers

  datatype RateLimitResult = RateLimitResult(
    allowed: bool, remaining: nat, resetAfterSeconds: real, limit: nat, degraded: bool)

  /** What a script call may raise. */
  datatype Outage = RedisError

  /** The outcome of counting `count` hits against `times`. */
  function Counted(count: nat, times: nat, resetAfterSeconds: real): RateLimitResult {
    RateLimitResult(count <= times, if times > count then times - count else 0, resetAfterSeconds, times, false)
  }

  /** The guess made when the backend is unreachable. */
  function FailOpen(times: nat, seconds: real): RateLimitResult {
    RateLimitResult(true, times, seconds, times, true)
  }

  /** The `except RedisError` branch of both Redis limiters. */
  function OnOutage(e: Outage, times: nat, seconds: real, failOpen: bool): Result<RateLimitResult, Outage> {
    if !failOpen then Err(e) else Ok(FailOpen(times, seconds))
  }

  /** What a caller of a Redis limiter is owed when its script failed. */
  predicate OutageHonest(result: Result<RateLimitResult, Outage>, times: nat, seconds: real, failOpen: bool) {
    && (result.Err? <==> !failOpen)
    && (result.Err? ==> result.error == RedisError)
    && (result.Ok? ==>
          && result.value.allowed && result.value.degraded
          && result.value.remaining == times && result.value.limit == times
          && result.value.resetAfterSeconds == seconds)
  }
}
