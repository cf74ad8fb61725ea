/** The background loop that renews the Vault token: sleep two thirds of the lease (at least
    ten seconds), renew, repeat. Times are seconds since the login took effect. */
module TokenRenewal {
  import opened Decimal

  /** One round after the sleep: until the renewal takes effect at Vault, then until the loop
      resumes, and the lease Vault grants. Oversleeping counts as part of the first. */
  datatype Round = Round(toRenewal: nat, toReply: nat, granted: nat)

  /** The doubling is done in 64 bits; release builds wrap around. */
  function Interval(lease: u64): nat {
    var third := (lease * 2) % U64_LIMIT / 3;
    if third > 10 then third else 10
  }

  /** Exactly the leases above ten seconds leave any time to renew. */
  lemma IntervalWithinLease(lease: u64)
    ensures Interval(lease) < lease <==> lease > 10
    ensures lease < 0x8000_0000_0000_0000 ==> Interval(lease) == if 2 * lease / 3 > 10 then 2 * lease / 3 else 10
  {
  }

  /** The loop is at `clock`, about to sleep, and the token expires at `expiry`: every renewal
      still to come takes effect while the token is valid, and the token outlives the run. */
  predicate NeverLapses(clock: nat, expiry: nat, interval: nat, rounds: seq<Round>)
    decreases |rounds|
  {
    if rounds == [] then clock < expiry
    else
      var renewAt := clock + interval + rounds[0].toRenewal;
      && renewAt < expiry
      && NeverLapses(renewAt + rounds[0].toReply, renewAt + rounds[0].granted, interval, rounds[1..])
  }

  /** Some grant covers instant `t`. */
  predicate CoveredAt(t: nat, clock: nat, from: nat, expiry: nat, interval: nat, rounds: seq<Round>)
    decreases |rounds|
  {
    || from <= t < expiry
    || (rounds != [] &&
        var renewAt := clock + interval + rounds[0].toRenewal;
        CoveredAt(t, renewAt + rounds[0].toReply, renewAt, renewAt + rounds[0].granted, interval, rounds[1..]))
  }

  function EndOf(clock: nat, interval: nat, rounds: seq<Round>): nat
    decreases |rounds|
  {
    if rounds == [] then clock
    else EndOf(clock + interval + rounds[0].toRenewal + rounds[0].toReply, interval, rounds[1..])
  }

  /** "Never lapses" means what it says: every instant of the run lies within a grant. */
  lemma {:induction false} EveryInstantCovered(t: nat, clock: nat, from: nat, expiry: nat, interval: nat,
                                               rounds: seq<Round>)
    requires NeverLapses(clock, expiry, interval, rounds)
    requires from <= t <= EndOf(clock, interval, rounds)
    ensures CoveredAt(t, clock, from, expiry, interval, rounds)
    decreases |rounds|
  {
    if rounds == [] {
    } else {
      var renewAt := clock + interval + rounds[0].toRenewal;
      if t >= expiry {
        EveryInstantCovered(t, renewAt + rounds[0].toReply, renewAt, renewAt + rounds[0].granted, interval,
                            rounds[1..]);
      }
    }
  }

  /** The loop itself, stopped when the token has lapsed before a renewal. */
  method RenewalLoop(lease: u64, loginReply: nat, rounds: seq<Round>) returns (ok: bool, clock: nat, expiry: nat)
    ensures ok <==> NeverLapses(loginReply, lease, Interval(lease), rounds)
    ensures ok ==> clock == EndOf(loginReply, Interval(lease), rounds) && clock < expiry
  {
    var interval := Interval(lease);
    clock, expiry := loginReply, lease;
    var i := 0;
    while i < |rounds|
      invariant 0 <= i <= |rounds|
      invariant NeverLapses(loginReply, lease, interval, rounds) <==> NeverLapses(clock, expiry, interval, rounds[i..])
      invariant EndOf(loginReply, interval, rounds) == EndOf(clock, interval, rounds[i..])
    {
      assert rounds[i..][0] == rounds[i] && rounds[i..][1..] == rounds[i + 1..];
      var renewAt := clock + interval + rounds[i].toRenewal;
      if renewAt >= expiry {
        return false, clock, expiry;
      }
      clock, expiry := renewAt + rounds[i].toReply, renewAt + rounds[i].granted;
      i := i + 1;
    }
    ok := clock < expiry;
  }

  /** The slow reply of one round and the slow renewal of the next together stay within what
      the sleep leaves of the lease; `reply` is the delay already spent. */
  predicate WithinBudget(reply: nat, lease: nat, interval: nat, rounds: seq<Round>)
    decreases |rounds|
  {
    if rounds == [] then reply < lease
    else reply + interval + rounds[0].toRenewal < lease
         && WithinBudget(rounds[0].toReply, lease, interval, rounds[1..])
  }

  lemma {:induction false} BudgetSuffices(at: nat, granted: nat, reply: nat, lease: nat, interval: nat,
                                          rounds: seq<Round>)
    requires granted >= lease && forall r | r in rounds :: r.granted >= lease
    requires WithinBudget(reply, lease, interval, rounds)
    ensures NeverLapses(at + reply, at + granted, interval, rounds)
    decreases |rounds|
  {
    if rounds == [] {
    } else {
      BudgetSuffices(at + reply + interval + rounds[0].toRenewal, rounds[0].granted, rounds[0].toReply,
                     lease, interval, rounds[1..]);
    }
  }

  lemma {:induction false} BudgetNeeded(at: nat, reply: nat, lease: nat, interval: nat, rounds: seq<Round>)
    requires forall r | r in rounds :: r.granted == lease
    requires NeverLapses(at + reply, at + lease, interval, rounds)
    ensures WithinBudget(reply, lease, interval, rounds)
    decreases |rounds|
  {
    if rounds == [] {
    } else {
      BudgetNeeded(at + reply + interval + rounds[0].toRenewal, rounds[0].toReply, lease, interval, rounds[1..]);
    }
  }

  /** Main result: with renewals granting at least the initial lease the token never lapses if
      the delays stay within budget; with renewals granting exactly that, only then. */
  lemma TokenNeverLapses(lease: u64, loginReply: nat, rounds: seq<Round>)
    requires forall r | r in rounds :: r.granted >= lease
    ensures WithinBudget(loginReply, lease, Interval(lease), rounds)
            ==> NeverLapses(loginReply, lease, Interval(lease), rounds)
    ensures (forall r | r in rounds :: r.granted == lease) && NeverLapses(loginReply, lease, Interval(lease), rounds)
            ==> WithinBudget(loginReply, lease, Interval(lease), rounds)
  {
    if WithinBudget(loginReply, lease, Interval(lease), rounds) {
      BudgetSuffices(0, lease, loginReply, lease, Interval(lease), rounds);
    }
    if (forall r | r in rounds :: r.granted == lease) && NeverLapses(loginReply, lease, Interval(lease), rounds) {
      BudgetNeeded(0, loginReply, lease, Interval(lease), rounds);
    }
  }

  /** Rounds that each take less than half of what the sleep leaves are within budget. */
  lemma {:induction false} HalfBudgetSuffices(reply: nat, lease: u64, rounds: seq<Round>)
    requires lease > 10 && 2 * reply < lease - Interval(lease)
    requires forall r | r in rounds :: 2 * (r.toRenewal + r.toReply) < lease - Interval(lease)
    ensures WithinBudget(reply, lease, Interval(lease), rounds)
    decreases |rounds|
  {
    if rounds == [] {
    } else {
      assert rounds[0] in rounds;
      HalfBudgetSuffices(rounds[0].toReply, lease, rounds[1..]);
    }
  }

  /** Bounding each round by the whole remainder is not enough: with a 30-second lease the
      loop has 10 seconds to spare, and two rounds of 9 seconds lose the token. */
  lemma FullBudgetPerRoundLapses()
    ensures Interval(30) == 20
    ensures !NeverLapses(0, 30, Interval(30), [Round(0, 9, 30), Round(9, 0, 30)])
  {
  }

  /** A lease of ten seconds or less is always lost, however fast the renewals are. */
  lemma ShortLeaseLapses(lease: u64, loginReply: nat, rounds: seq<Round>)
    requires lease <= 10 && rounds != []
    ensures !NeverLapses(loginReply, lease, Interval(lease), rounds)
  {
  }
}
