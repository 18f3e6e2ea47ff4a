/**
 * `retryRequest` (`lib/retry.ts`): await one fixed promise up to `attempts`
 * times, sleeping `backoff` milliseconds after each rejection, and throw the
 * last error when no attempt succeeded.
 *
 * The promise is modelled by how it settled: awaiting the same promise again
 * yields the same outcome. Timers are not modelled; each sleep is recorded by
 * its length.
 */
module Retry {
  import opened Wrappers

  /** An HTTP response as `fetch` resolves it; its status is not inspected. */
  datatype Response = Response(status: int, body: string)

  /** How the promise passed in settled. */
  datatype Settled = Resolved(response: Response) | Rejected(error: string)

  /**
   * The loop of `retryRequest`. `r` is the returned response, or the thrown
   * value (`None` for the initial `null`); `awaits` counts the iterations and
   * `sleeps` lists the pauses taken, in order.
   */
  method RetryRequest(promise: Settled, attempts: int := 5, backoff: int := 1000)
    returns (r: Result<Response, Option<string>>, awaits: nat, sleeps: seq<int>)
    requires attempts >= 0 || promise.Resolved?
    ensures promise.Resolved? && attempts != 0 ==> r == Ok(promise.response) && awaits == 1 && sleeps == []
    ensures promise.Rejected? ==>
      awaits == attempts && sleeps == seq(attempts, _ => backoff)
      && r == Err(if attempts == 0 then None else Some(promise.error))
    ensures attempts == 0 ==> r == Err(None) && awaits == 0 && sleeps == []
  {
    var n := attempts;
    var error: Option<string> := None;
    awaits, sleeps := 0, [];
    while n != 0
      invariant promise.Rejected? ==>
        0 <= n <= attempts && awaits == attempts - n && sleeps == seq(awaits, _ => backoff)
        && error == (if awaits == 0 then None else Some(promise.error))
      invariant promise.Resolved? ==> n == attempts && awaits == 0 && sleeps == [] && error == None
      decreases if n < 0 then 0 else n
    {
      n := n - 1;
      awaits := awaits + 1;
      match promise {
        case Resolved(response) =>
          return Ok(response), awaits, sleeps;
        case Rejected(e) =>
          error := Some(e);
      }
      sleeps := sleeps + [backoff];
    }
    r := Err(error);
  }

  /** `retryRequest(promise)` with the default 5 attempts and 1000 ms backoff. */
  method RetryWithDefaults(promise: Settled) returns (r: Result<Response, Option<string>>, awaits: nat, sleeps: seq<int>)
    ensures promise.Resolved? ==> r == Ok(promise.response) && awaits == 1 && sleeps == []
    ensures promise.Rejected? ==>
      r == Err(Some(promise.error)) && awaits == 5 && sleeps == [1000, 1000, 1000, 1000, 1000]
  {
    r, awaits, sleeps := RetryRequest(promise);
  }
}
