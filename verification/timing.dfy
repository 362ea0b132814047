/** The poll counters of the two receivers. The header, confirmation and
    checksum phases count single polls in a uint32 and stop when the counter
    equals the timeout; the payload phase steps its counter by 10. */
module Timing {
  import opened Bytes

  /** The number of failed polls after which a uint32 counter stepped by one
      first equals `timeout`: `timeout` itself, or 2^32 for a timeout of 0,
      which the counter only reaches by wrapping around. */
  function Polls(timeout: uint32): (n: nat)
    ensures 1 <= n <= TWO_TO_THE_32 && n % TWO_TO_THE_32 == timeout
  {
    if timeout == 0 then TWO_TO_THE_32 else timeout
  }

  /** No earlier poll fires: `Polls` is the first hit of the counter. */
  lemma PollsFirstHit(timeout: uint32, k: nat)
    requires 1 <= k < Polls(timeout)
    ensures k % TWO_TO_THE_32 != timeout
  {
  }

  /** The counter after `k` polls, and whether it fires, as the loop steps it. */
  lemma UnitClockStep(timeout: uint32, time: uint32, k: nat)
    requires k < Polls(timeout) && time == k % TWO_TO_THE_32
    ensures (time + 1) % TWO_TO_THE_32 == (k + 1) % TWO_TO_THE_32
    ensures ((time + 1) % TWO_TO_THE_32 == timeout) <==> k + 1 == Polls(timeout)
  {
  }

  /** The payload counter as written: 10 per poll, in a uint32. Every value it
      takes is even. */
  function PayloadClockAsWritten(polls: nat): (c: uint32)
    ensures c % 2 == 0
  {
    var t := 10 * polls;
    assert t == 2 * (5 * polls);
    t % TWO_TO_THE_32
  }

  /** With an odd timeout the as-written payload counter never equals it: the
      payload phase polls for ever. */
  lemma OddTimeoutNeverFires(timeout: uint32, polls: nat)
    requires timeout % 2 == 1
    ensures PayloadClockAsWritten(polls) != timeout
  {
  }

  /** With a positive multiple of 10 below 2^32 the as-written counter first
      equals the timeout after timeout/10 polls. */
  lemma DecimalTimeoutFires(timeout: uint32, polls: nat)
    requires timeout > 0 && timeout % 10 == 0 && 1 <= polls <= timeout / 10
    ensures PayloadClockAsWritten(polls) == timeout <==> polls == timeout / 10
  {
    assert 10 * polls <= timeout;
  }

  /** The payload phase as corrected: the number of polls after which a
      counter stepped by 10 first reaches or passes the timeout. */
  function CoarsePolls(timeout: uint32): (n: nat)
    ensures 1 <= n && timeout <= 10 * n
    ensures n == 1 || 10 * (n - 1) < timeout
  {
    if timeout <= 10 then 1 else (timeout + 9) / 10
  }

  /** One more poll of the corrected payload counter, and whether it stops. */
  lemma CoarseClockStep(timeout: uint32, k: nat)
    requires k < CoarsePolls(timeout)
    ensures 10 * (k + 1) >= timeout <==> k + 1 == CoarsePolls(timeout)
  {
  }

  /** Wherever the as-written payload counter works, the corrected one stops
      after the same number of polls. */
  lemma CoarsePollsAgrees(timeout: uint32)
    requires timeout > 0 && timeout % 10 == 0
    ensures CoarsePolls(timeout) == timeout / 10
    ensures PayloadClockAsWritten(CoarsePolls(timeout)) == timeout
  {
  }
}
