/**
 Renewal of privately issued certificates: when one falls due, and how far
 apart the worker's attempts on it are. Times are nanoseconds; two thirds of a
 lifetime is rounded down to a whole nanosecond.
 */
module AcmRenewal {
  import opened Wrappers

  const SECOND: int := 1_000_000_000
  const MINUTE: int := 60 * SECOND
  const HOUR: int := 60 * MINUTE

  const MIN_WINDOW := HOUR
  const JITTER_SPREAD := 10 * MINUTE
  const FAILURE_BACKOFF := HOUR
  const LEAF_VALIDITY := 90 * 24 * HOUR
  const BACKDATE := 5 * MINUTE

  type Arn = seq<bv8>

  function Window(lifetime: int): int {
    var w := 2 * lifetime / 3;
    if w < MIN_WINDOW then MIN_WINDOW else w
  }

  function Fnv1a(bytes: seq<bv8>): bv64 {
    if bytes == [] then 0xcbf29ce484222325
    else (Fnv1a(bytes[..|bytes| - 1]) ^ (bytes[|bytes| - 1] as bv64)) * 0x100000001b3
  }

  function Jitter(arn: Arn): (j: int)
    ensures 0 <= j < JITTER_SPREAD
  {
    (Fnv1a(arn) as int) % JITTER_SPREAD
  }

  datatype Summary = NoSummary | RenewalFailed(at: int) | RenewalSucceeded(at: int)

  datatype Cert = Cert(kind: string, status: string, eligibility: string, notBefore: int, notAfter: int, summary: Summary)

  /** When a certificate falls due with a given offset. */
  function DueWith(c: Cert, jitter: int): int { c.notBefore + Window(c.notAfter - c.notBefore) + jitter }

  function DueAt(arn: Arn, c: Cert): int { DueWith(c, Jitter(arn)) }

  predicate Renewable(arn: Arn, c: Cert, now: int) {
    && c.kind == "PRIVATE"
    && c.status == "ISSUED"
    && c.eligibility == "ELIGIBLE"
    && !(c.summary.RenewalFailed? && now - c.summary.at < FAILURE_BACKOFF)
    && DueAt(arn, c) <= now
  }

  /** A certificate falls due before it expires, whatever its offset, exactly when it lives at least seventy minutes. */
  lemma DueBeforeExpiry(c: Cert)
    ensures (forall j :: 0 <= j < JITTER_SPREAD ==> DueWith(c, j) < c.notAfter) <==> c.notAfter - c.notBefore >= 70 * MINUTE
  {
    var lifetime := c.notAfter - c.notBefore;
    if lifetime < 70 * MINUTE {
      assert DueWith(c, JITTER_SPREAD - 1) >= c.notAfter;
    } else {
      forall j | 0 <= j < JITTER_SPREAD ensures DueWith(c, j) < c.notAfter { }
    }
  }

  /**
   A certificate falls due two thirds into its lifetime, to the nanosecond below,
   but at least an hour in, and at most ten minutes after that.
   */
  lemma DueMeaning(arn: Arn, c: Cert)
    ensures var lifetime, late := c.notAfter - c.notBefore, DueAt(arn, c) - c.notBefore;
      && (lifetime >= 90 * MINUTE ==> 2 * lifetime - 3 < 3 * (late - Jitter(arn)) <= 2 * lifetime)
      && (lifetime <= 90 * MINUTE ==> late == 60 * MINUTE + Jitter(arn))
  {
    hide Jitter;
  }

  /** An issued, eligible private certificate past two thirds of its lifetime, an hour and the spread, with no failure in the last hour, is renewable. */
  lemma PastDueRenewable(arn: Arn, c: Cert, now: int)
    requires c.kind == "PRIVATE" && c.status == "ISSUED" && c.eligibility == "ELIGIBLE"
    requires c.summary.RenewalFailed? ==> c.summary.at + 60 * MINUTE <= now
    requires 3 * (now - c.notBefore - 10 * MINUTE) >= 2 * (c.notAfter - c.notBefore) && now >= c.notBefore + 70 * MINUTE
    ensures Renewable(arn, c, now)
  {
    hide Jitter;
  }

  /** Nothing else is: another kind, status or eligibility, a failure in the last hour, or too early a time each prevent it. */
  lemma NotRenewable(arn: Arn, c: Cert, now: int)
    ensures c.kind != "PRIVATE" || c.status != "ISSUED" || c.eligibility != "ELIGIBLE" ==> !Renewable(arn, c, now)
    ensures c.summary.RenewalFailed? && now < c.summary.at + 60 * MINUTE ==> !Renewable(arn, c, now)
    ensures 3 * (now - c.notBefore) <= 2 * (c.notAfter - c.notBefore) - 3 || now < c.notBefore + 60 * MINUTE ==> !Renewable(arn, c, now)
  {
    hide Jitter;
  }

  /** The offset is the FNV-1a hash, as its published test vectors have it. */
  lemma FnvVectors()
    ensures Fnv1a([]) == 0xcbf29ce484222325
    ensures Fnv1a([0x61]) == 0xaf63dc4c8601ec8c
    ensures Fnv1a([0x66, 0x6f]) == 0x08985907b541d342
  {
    var a: seq<bv8>, fo: seq<bv8> := [0x61], [0x66, 0x6f];
    assert a[..0] == [] && fo[..1] == [0x66] && fo[..1][..0] == [];
  }

  // Attempts.

  /** A time as a certificate holds it, in whole seconds. */
  function WholeSeconds(t: int): (r: int)
    ensures r <= t < r + SECOND
  {
    t / SECOND * SECOND
  }

  datatype Outcome = Failed(at: int) | Succeeded(issued: int)

  datatype Attempt = Attempt(arn: Arn, decided: int, outcome: Outcome)

  /** The record an attempt leaves behind. */
  ghost predicate Reflects(a: Attempt, c: Cert) {
    match a.outcome
    case Failed(at) => c.summary == RenewalFailed(at) && a.decided <= at
    case Succeeded(issued) =>
      && c.notBefore == WholeSeconds(issued - BACKDATE) && c.notAfter == WholeSeconds(issued + LEAF_VALIDITY)
      && a.decided <= issued
  }

  /** The least time from an attempt to the next on the same certificate. */
  ghost function Gap(a: Attempt): int {
    match a.outcome case Failed(_) => HOUR case Succeeded(_) => 2 * (LEAF_VALIDITY + BACKDATE) / 3 - BACKDATE - SECOND
  }

  lemma DueAfterAttempt(a: Attempt, c: Cert, now: int)
    requires Reflects(a, c) && Renewable(a.arn, c, now)
    ensures now - a.decided >= Gap(a)
  {
    hide Jitter;
    if a.outcome.Succeeded? { LeafLifetime(a.outcome.issued); }
  }

  lemma LeafLifetime(issued: int)
    ensures WholeSeconds(issued + LEAF_VALIDITY) - WholeSeconds(issued - BACKDATE) == LEAF_VALIDITY + BACKDATE
  {
    var t, k := issued - BACKDATE, (LEAF_VALIDITY + BACKDATE) / SECOND;
    assert issued + LEAF_VALIDITY == t + k * SECOND;
    assert (t + k * SECOND) / SECOND == t / SECOND + k;
  }

  /** The last attempt on a certificate. */
  ghost function LastOf(history: seq<Attempt>, arn: Arn): (r: Option<Attempt>)
    ensures r.Some? ==> r.value.arn == arn
  {
    if history == [] then None
    else if history[|history| - 1].arn == arn then Some(history[|history| - 1])
    else LastOf(history[..|history| - 1], arn)
  }

  /** Each attempt keeps its distance from the last one on the same certificate. */
  ghost predicate Spaced(history: seq<Attempt>) {
    history != [] ==>
      var front, a := history[..|history| - 1], history[|history| - 1];
      Spaced(front) && (LastOf(front, a.arn).Some? ==> a.decided - LastOf(front, a.arn).value.decided >= Gap(LastOf(front, a.arn).value))
  }

  lemma {:induction false} LastOfIndex(history: seq<Attempt>, i: int)
    requires 0 <= i < |history| && forall k :: i < k < |history| ==> history[k].arn != history[i].arn
    ensures LastOf(history, history[i].arn) == Some(history[i])
  {
    if i < |history| - 1 { LastOfIndex(history[..|history| - 1], i); }
  }

  /** Any two consecutive attempts on one certificate are spaced. */
  lemma {:induction false} SpacedMeaning(history: seq<Attempt>, i: int, j: int)
    requires Spaced(history) && 0 <= i < j < |history| && history[i].arn == history[j].arn
    requires forall k :: i < k < j ==> history[k].arn != history[i].arn
    ensures history[j].decided - history[i].decided >= Gap(history[i])
  {
    var front := history[..|history| - 1];
    if j == |history| - 1 { LastOfIndex(front, i); } else { SpacedMeaning(front, i, j); }
  }

  /** What the store, the lease and the issuing CA make of one attempt, and how long it takes. */
  datatype Fate = LeaseHeldElsewhere | Deleted | CannotIssue(delay: nat) | Issued(delay: nat, recording: nat)

  /** `after` extends `before` by attempts on certificates renewable at `now`. */
  ghost predicate Decided(before: seq<Attempt>, after: seq<Attempt>, certs: map<Arn, Cert>, now: int) {
    && before <= after
    && forall k :: |before| <= k < |after| ==> after[k].decided == now && after[k].arn in certs && Renewable(after[k].arn, certs[after[k].arn], now)
  }

  /** The lease was won and the certificate was still there. */
  predicate Attempts(f: Fate) { f.CannotIssue? || f.Issued? }

  ghost predicate Tried(before: seq<Attempt>, after: seq<Attempt>, arn: Arn) { exists k :: |before| <= k < |after| && after[k].arn == arn }

  lemma StillTried(before: seq<Attempt>, after: seq<Attempt>, more: seq<Attempt>, arn: Arn)
    requires Tried(before, after, arn) && after <= more
    ensures Tried(before, more, arn)
  {
    var k :| |before| <= k < |after| && after[k].arn == arn;
    assert more[k].arn == arn;
  }

  lemma TriedLast(before: seq<Attempt>, after: seq<Attempt>, arn: Arn)
    requires |before| < |after| && after[|after| - 1].arn == arn
    ensures Tried(before, after, arn)
  {
  }

  class Worker {
    var clock: int
    var certs: map<Arn, Cert>
    ghost var history: seq<Attempt>

    ghost predicate Valid()
      reads this
    {
      && (forall arn :: arn in certs && LastOf(history, arn).Some? ==> Reflects(LastOf(history, arn).value, certs[arn]))
      && Spaced(history)
    }

    constructor (certs: map<Arn, Cert>, clock: int)
      ensures Valid() && history == [] && this.certs == certs && this.clock == clock
    {
      this.certs, this.clock := certs, clock;
      history := [];
    }

    /** Renews under the lease and records the outcome on the certificate. */
    method RenewOne(arn: Arn, fate: Fate, ghost decided: int)
      modifies this
      requires Valid() && arn in certs && decided <= clock && Renewable(arn, certs[arn], decided)
      ensures Valid()
      ensures clock >= old(clock)
      ensures forall other :: other != arn ==> (other in certs <==> other in old(certs)) && (other in certs ==> certs[other] == old(certs)[other])
      ensures fate.LeaseHeldElsewhere? ==> history == old(history) && certs == old(certs)
      ensures fate.Deleted? ==> history == old(history) && certs == old(certs) - {arn}
      ensures fate.CannotIssue? || fate.Issued? ==>
        exists outcome: Outcome ::
          && history == old(history) + [Attempt(arn, decided, outcome)] && outcome.Succeeded? == fate.Issued?
          && arn in certs && Reflects(Attempt(arn, decided, outcome), certs[arn])
    {
      match fate
      case LeaseHeldElsewhere =>
      case Deleted => certs := certs - {arn};
      case CannotIssue(delay) =>
        clock := clock + delay;
        Record(arn, certs[arn].(summary := RenewalFailed(clock)), Attempt(arn, decided, Failed(clock)));
      case Issued(delay, recording) =>
        clock := clock + delay;
        var notBefore, notAfter := WholeSeconds(clock - BACKDATE), WholeSeconds(clock + LEAF_VALIDITY);
        ghost var a := Attempt(arn, decided, Succeeded(clock));
        clock := clock + recording;
        Record(arn, certs[arn].(notBefore := notBefore, notAfter := notAfter, summary := RenewalSucceeded(clock)), a);
    }

    method Record(arn: Arn, c: Cert, ghost a: Attempt)
      modifies this`certs, this`history
      requires Valid() && arn in certs && a.arn == arn && Reflects(a, c) && Renewable(arn, certs[arn], a.decided)
      ensures Valid() && certs == old(certs)[arn := c] && history == old(history) + [a]
    {
      hide Renewable, Gap, Reflects;
      if LastOf(history, arn).Some? { DueAfterAttempt(LastOf(history, arn).value, certs[arn], a.decided); }
      certs := certs[arn := c];
      history := history + [a];
      assert history[..|history| - 1] == old(history);
    }

    /** One scan: every certificate renewable at the scan's time is tried, each at most once. */
    method ScanOnce(hasCA: bool, fates: Arn -> Fate)
      modifies this
      requires Valid()
      ensures Valid() && clock >= old(clock)
      ensures !hasCA ==> history == old(history) && certs == old(certs)
      ensures Decided(old(history), history, old(certs), old(clock))
      ensures hasCA ==> forall arn :: arn in old(certs) && Renewable(arn, old(certs)[arn], old(clock)) && (fates(arn).CannotIssue? || fates(arn).Issued?) ==>
        Tried(old(history), history, arn)
      ensures forall k :: |old(history)| <= k < |history| ==> history[k].arn in old(certs) && Renewable(history[k].arn, old(certs)[history[k].arn], old(clock))
      ensures forall arn :: arn in old(certs) && !Renewable(arn, old(certs)[arn], old(clock)) ==> arn in certs && certs[arn] == old(certs)[arn]
    {
      hide Renewable, Reflects, Spaced, LastOf, Tried;
      if !hasCA { return; }
      var recs := certs;
      var now := clock;
      var todo := recs.Keys;
      while todo != {}
        invariant Valid() && clock >= now && todo <= recs.Keys
        invariant forall arn :: arn in todo ==> arn in certs && certs[arn] == recs[arn]
        invariant forall arn :: arn in recs && !Renewable(arn, recs[arn], now) ==> arn in certs && certs[arn] == recs[arn]
        invariant Decided(old(history), history, recs, now)
        invariant forall arn :: arn in recs && arn !in todo && Renewable(arn, recs[arn], now) && Attempts(fates(arn)) ==> Tried(old(history), history, arn)
        decreases |todo|
      {
        var arn :| arn in todo;
        todo := todo - {arn};
        ghost var before := history;
        if Renewable(arn, recs[arn], now) { RenewOne(arn, fates(arn), now); }
        assert before <= history;
        forall a | Tried(old(history), before, a) ensures Tried(old(history), history, a) { StillTried(old(history), before, history, a); }
        if Renewable(arn, recs[arn], now) && Attempts(fates(arn)) { TriedLast(old(history), history, arn); }
      }
    }

    /** Scans forever; here, for any number of ticks. Attempts stay spaced over the whole run. */
    method Run(ticks: seq<(nat, bool, Arn -> Fate)>)
      modifies this
      requires Valid()
      ensures Valid() && Spaced(history)
    {
      hide Reflects, LastOf, Spaced, Renewable;
      for i := 0 to |ticks|
        invariant Valid()
      {
        clock := clock + ticks[i].0;
        ScanOnce(ticks[i].1, ticks[i].2);
      }
    }
  }
}
