/**
 Epoch acceptance windows. The issuer signs for the current and the previous epoch
 (token-issuer/epoch-keys.js); the relay accepts a published key until two epochs after it was
 declared (ohttp-relay/issuer-key-cache.js). The two rules are the same interval.
 */
module EpochWindow {
  import opened Prelude

  /** Math.floor(ms / 1000 / seconds). */
  function EpochAt(ms: nat, seconds: nat): nat
    requires seconds >= 1
  {
    Quotient(ms, 1000 * seconds)
  }

  function Quotient(t: nat, period: nat): (q: nat)
    requires period >= 1
    ensures q * period <= t < (q + 1) * period
  {
    t / period
  }

  /** The issuer's rule: only the current and the previous epoch are live. */
  predicate IsLive(epoch: int, now: nat) {
    SafeNat(epoch) && (epoch == now || epoch == now - 1)
  }

  /** When the relay stops accepting a key declared for `epoch`. */
  function ExpiresAt(epoch: int, seconds: nat): int {
    (epoch + 2) * seconds * 1000
  }

  lemma EpochMonotone(t0: nat, t: nat, seconds: nat)
    requires seconds >= 1 && t0 <= t
    ensures EpochAt(t0, seconds) <= EpochAt(t, seconds)
  {
    QuotientBelow(t0, 1000 * seconds, EpochAt(t, seconds) + 1);
    QuotientBelow(t, 1000 * seconds, EpochAt(t, seconds) + 1);
  }

  lemma QuotientBelow(t: nat, period: nat, q: int)
    requires period >= 1
    ensures Quotient(t, period) < q <==> t < q * period
  {
    var d := Quotient(t, period);
    if d < q {
      assert (d + 1) * period <= q * period by { MulMonotone(d + 1, q, period); }
    } else {
      assert q * period <= d * period by { MulMonotone(q, d, period); }
    }
  }

  lemma MulMonotone(a: int, b: int, c: nat)
    requires a <= b
    ensures a * c <= b * c
  {
  }

  /** Expiry in milliseconds is exactly "at most one epoch later". */
  lemma ExpiryIsNextEpoch(epoch: int, seconds: nat, t: nat)
    requires seconds >= 1
    ensures t < ExpiresAt(epoch, seconds) <==> EpochAt(t, seconds) <= epoch + 1
  {
    QuotientBelow(t, 1000 * seconds, epoch + 2);
    assert ExpiresAt(epoch, seconds) == (epoch + 2) * (1000 * seconds) by {
      assert (epoch + 2) * seconds * 1000 == (epoch + 2) * (seconds * 1000);
    }
  }
}
