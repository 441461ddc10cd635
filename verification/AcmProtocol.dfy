/**
 Nodes leasing, renewing and updating one certificate record concurrently. A
 step is one read or one write of the store, so any two flows interleave. Each
 node runs one flow at a time under its own non-empty holder ID, and all share
 a clock that never goes back.
 */
module AcmProtocol {
  import opened Wrappers
  import opened AcmStore

  datatype Flow =
    | Idle
    | AcquireStarted(now: int)
    | AcquireRead(now: int, rev: nat, seen: Cert)
    | Holding(expires: int)
    | RenewRead(expires: int, seen: Cert)
    | Releasing
    | ReleaseRead(rev: nat, seen: Cert)
    | Mutating(op: Op, attempts: nat)
    | MutateRead(op: Op, attempts: nat, rev: nat, seen: Cert)

  /** `grants` holds each node's last unreleased lease, `commits` the updates in the order they took effect. */
  datatype State = State(clock: int, rev: nat, cert: Cert, flows: map<string, Flow>, grants: map<string, int>, commits: seq<Op>)

  function FlowOf(s: State, p: string): Flow { if p in s.flows then s.flows[p] else Idle }

  datatype Step =
    | Tick(now: int)
    | AcquireBegin(node: string)
    | AcquireGet(node: string)
    | AcquireCas(node: string)
    | RenewGet(node: string)
    | RenewPut(node: string, material: string)
    | ReleaseBegin(node: string)
    | ReleaseGet(node: string)
    | ReleaseCas(node: string)
    | MutateBegin(node: string, op: Op)
    | MutateGet(node: string)
    | MutateCas(node: string)
    | Crash(node: string)

  function Goto(s: State, p: string, f: Flow): State { s.(flows := s.flows[p := f]) }

  function Write(s: State, c: Cert): State { s.(cert := c, rev := s.rev + 1) }

  function Lease(p: string, ttl: string -> nat, now: int): int { now + ttl(p) }

  /**
   One step of one node. A compare-and-set takes effect only at the revision it
   read; a renewal's write is unguarded and lands while its own lease is live.
   */
  ghost predicate Next(ttl: string -> nat, s: State, step: Step, t: State) {
    match step
    case Tick(now) => s.clock <= now && t == s.(clock := now)
    case AcquireBegin(p) => p != "" && FlowOf(s, p).Idle? && t == Goto(s, p, AcquireStarted(s.clock))
    case AcquireGet(p) =>
      && FlowOf(s, p).AcquireStarted?
      && var now := FlowOf(s, p).now;
         t == Goto(s, p, if LeaseRefused(s.cert, p, now) then Idle else AcquireRead(now, s.rev, s.cert))
    case AcquireCas(p) =>
      && FlowOf(s, p).AcquireRead?
      && var f := FlowOf(s, p);
         var expires := Lease(p, ttl, f.now);
         t == if f.rev == s.rev
              then Goto(Write(s, Leased(f.seen, p, expires)), p, Holding(expires)).(grants := s.grants[p := expires])
              else Goto(s, p, Idle)
    case RenewGet(p) => FlowOf(s, p).Holding? && t == Goto(s, p, RenewRead(FlowOf(s, p).expires, s.cert))
    case RenewPut(p, material) =>
      && FlowOf(s, p).RenewRead?
      && s.clock < FlowOf(s, p).expires
      && t == Goto(Write(s, FlowOf(s, p).seen.(material := material)), p, Releasing)
    case ReleaseBegin(p) => (FlowOf(s, p).Holding? || FlowOf(s, p).RenewRead?) && t == Goto(s, p, Releasing)
    case ReleaseGet(p) =>
      && FlowOf(s, p).Releasing?
      && t == Goto(s, p, if s.cert.leaseHolder != p then Idle else ReleaseRead(s.rev, s.cert))
    case ReleaseCas(p) =>
      && FlowOf(s, p).ReleaseRead?
      && var f := FlowOf(s, p);
         t == if f.rev == s.rev then Goto(Write(s, Released(f.seen)), p, Idle).(grants := s.grants - {p}) else Goto(s, p, Idle)
    case MutateBegin(p, op) => p != "" && FlowOf(s, p).Idle? && t == Goto(s, p, Mutating(op, 0))
    case MutateGet(p) =>
      && FlowOf(s, p).Mutating?
      && var f := FlowOf(s, p);
         t == if Mutation(s.cert, f.op).None?
              then Goto(s, p, Idle).(commits := s.commits + [f.op])
              else Goto(s, p, MutateRead(f.op, f.attempts + 1, s.rev, s.cert))
    case MutateCas(p) =>
      && FlowOf(s, p).MutateRead?
      && var f := FlowOf(s, p);
         t == if f.rev == s.rev
              then Goto(Write(s, After(f.seen, f.op)), p, Idle).(commits := s.commits + [f.op])
              else Goto(s, p, if f.attempts < MAX_CAS_ATTEMPTS then Mutating(f.op, f.attempts) else Idle)
    case Crash(p) => p != "" && t == Goto(s, p, Idle)
  }

  // What a flow meets when nobody is in the way.

  /** An acquire goes on from its read exactly when the lease it finds is nobody's, its own or run out. */
  lemma AcquireProceeds(ttl: string -> nat, s: State, q: string, t: State)
    requires Next(ttl, s, AcquireGet(q), t)
    ensures FlowOf(t, q).AcquireRead? <==> s.cert.leaseHolder in {"", q} || s.cert.leaseExpires <= FlowOf(s, q).now
    ensures FlowOf(t, q).AcquireRead? ==> FlowOf(t, q).rev == t.rev && FlowOf(t, q).seen == t.cert
    ensures t.cert == s.cert && t.rev == s.rev
  {
    LeaseRefusedMeaning(s.cert, q, FlowOf(s, q).now);
  }

  /** Once a release has written the record, the next acquire of any node goes on, and gets the lease if it writes next. */
  lemma ReleaseFrees(ttl: string -> nat, s: State, p: string, t: State, q: string, u: State, v: State)
    requires Next(ttl, s, ReleaseCas(p), t) && t.rev > s.rev
    requires Next(ttl, t, AcquireGet(q), u) && Next(ttl, u, AcquireCas(q), v)
    ensures FlowOf(u, q).AcquireRead?
    ensures FlowOf(v, q) == Holding(Lease(q, ttl, FlowOf(t, q).now)) && v.cert.leaseHolder == q && v.cert.leaseExpires == Lease(q, ttl, FlowOf(t, q).now)
    ensures v.cert.(leaseHolder := "", leaseExpires := 0) == FlowOf(s, p).seen.(leaseHolder := "", leaseExpires := 0)
  {
    AcquireProceeds(ttl, t, q, u);
  }

  ghost predicate Init(s: State) { s.flows == map[] && s.grants == map[] && s.commits == [] }

  ghost predicate Run(ttl: string -> nat, states: seq<State>, steps: seq<Step>) {
    && |states| == |steps| + 1
    && Init(states[0])
    && forall i :: 0 <= i < |steps| ==> Next(ttl, states[i], steps[i], states[i + 1])
  }

  // The invariant.

  /** What was read at the current revision is the current record. */
  ghost predicate Fresh(s: State, rev: nat, seen: Cert) { rev <= s.rev && (rev == s.rev ==> seen == s.cert) }

  ghost predicate Bounded(ttl: string -> nat, s: State, p: string, now: int) {
    now <= s.clock && (p in s.grants ==> s.grants[p] <= Lease(p, ttl, now))
  }

  ghost predicate FlowInv(ttl: string -> nat, s: State, p: string) {
    match FlowOf(s, p)
    case AcquireStarted(now) => p != "" && Bounded(ttl, s, p, now)
    case AcquireRead(now, rev, seen) => p != "" && Bounded(ttl, s, p, now) && Fresh(s, rev, seen) && !LeaseRefused(seen, p, now)
    case Holding(expires) => p != "" && p in s.grants && s.grants[p] == expires
    case RenewRead(expires, seen) =>
      && p != "" && p in s.grants && s.grants[p] == expires
      && (s.clock < expires ==> seen.leaseHolder == p && seen.leaseExpires == expires)
    case Releasing => p != ""
    case ReleaseRead(rev, seen) => p != "" && Fresh(s, rev, seen) && seen.leaseHolder == p
    case MutateRead(op, attempts, rev, seen) => Fresh(s, rev, seen) && Mutation(seen, op).Some?
    case _ => true
  }

  /** A live lease is the one on the record, so at most one node holds one. */
  ghost predicate LeaseInv(ttl: string -> nat, s: State, p: string) {
    p in s.grants ==>
      && p != ""
      && s.grants[p] <= Lease(p, ttl, s.clock)
      && (s.clock < s.grants[p] ==> s.cert.leaseHolder == p && s.cert.leaseExpires == s.grants[p])
  }

  ghost predicate Inv(ttl: string -> nat, s: State) { forall p :: FlowInv(ttl, s, p) && LeaseInv(ttl, s, p) }

  /** Nothing a waiting flow relies on is disturbed by a later clock, a write, or another node's lease. */
  ghost predicate Later(s: State, t: State, q: string) {
    && s.clock <= t.clock
    && (s.rev < t.rev || (s.rev == t.rev && s.cert == t.cert))
    && (q in s.grants <==> q in t.grants)
    && (q in s.grants ==> s.grants[q] == t.grants[q])
    && FlowOf(s, q) == FlowOf(t, q)
  }

  lemma FlowStable(ttl: string -> nat, s: State, t: State, q: string)
    requires FlowInv(ttl, s, q) && Later(s, t, q)
    ensures FlowInv(ttl, t, q)
  {
  }

  function NodeOf(step: Step): string { if step.Tick? then "" else step.node }

  lemma OthersLater(ttl: string -> nat, s: State, step: Step, t: State, q: string)
    requires Next(ttl, s, step, t) && (step.Tick? || q != NodeOf(step))
    ensures Later(s, t, q)
  {
    hide LeaseRefused, Mutation, After, Leased, Released;
  }

  /** The step's own node keeps the invariant. */
  lemma OwnFlow(ttl: string -> nat, s: State, step: Step, t: State)
    requires Inv(ttl, s) && Next(ttl, s, step, t) && !step.Tick?
    ensures FlowInv(ttl, t, NodeOf(step))
  {
    assert FlowInv(ttl, s, NodeOf(step)) && LeaseInv(ttl, s, NodeOf(step));
    hide Next, Inv, FlowInv, LeaseInv;
    match step
    case AcquireBegin(p) => OwnBegin(ttl, s, step, t);
    case AcquireGet(p) => OwnRead(ttl, s, step, t);
    case AcquireCas(p) => OwnWrite(ttl, s, step, t);
    case RenewGet(p) => OwnRenewal(ttl, s, p, t);
    case RenewPut(p, material) => OwnWrite(ttl, s, step, t);
    case ReleaseBegin(p) => OwnBegin(ttl, s, step, t);
    case ReleaseGet(p) => OwnRead(ttl, s, step, t);
    case ReleaseCas(p) => OwnWrite(ttl, s, step, t);
    case MutateBegin(p, op) => OwnBegin(ttl, s, step, t);
    case MutateGet(p) => OwnRead(ttl, s, step, t);
    case MutateCas(p) => OwnWrite(ttl, s, step, t);
    case Crash(p) => OwnBegin(ttl, s, step, t);
  }

  lemma OwnBegin(ttl: string -> nat, s: State, step: Step, t: State)
    requires step.AcquireBegin? || step.ReleaseBegin? || step.MutateBegin? || step.Crash?
    requires Next(ttl, s, step, t) && FlowInv(ttl, s, step.node) && LeaseInv(ttl, s, step.node)
    ensures FlowInv(ttl, t, step.node)
  {
    hide LeaseRefused, Mutation, After, Leased, Released;
  }

  lemma OwnRead(ttl: string -> nat, s: State, step: Step, t: State)
    requires step.AcquireGet? || step.ReleaseGet? || step.MutateGet?
    requires Next(ttl, s, step, t) && FlowInv(ttl, s, step.node)
    ensures FlowInv(ttl, t, step.node)
  {
    hide LeaseRefused, Mutation, After, Leased, Released;
  }

  lemma OwnWrite(ttl: string -> nat, s: State, step: Step, t: State)
    requires step.AcquireCas? || step.RenewPut? || step.ReleaseCas? || step.MutateCas?
    requires Next(ttl, s, step, t) && FlowInv(ttl, s, step.node)
    ensures FlowInv(ttl, t, step.node)
  {
    hide LeaseRefused, Mutation, After, Leased, Released;
  }

  lemma OwnRenewal(ttl: string -> nat, s: State, p: string, t: State)
    requires Next(ttl, s, RenewGet(p), t) && FlowInv(ttl, s, p) && LeaseInv(ttl, s, p)
    ensures FlowInv(ttl, t, p)
  {
  }

  lemma LeaseKept(ttl: string -> nat, s: State, step: Step, t: State, q: string)
    requires Inv(ttl, s) && Next(ttl, s, step, t)
    ensures LeaseInv(ttl, t, q)
  {
    assert LeaseInv(ttl, s, q) && FlowInv(ttl, s, q);
    if !step.Tick? {
      var p := NodeOf(step);
      assert LeaseInv(ttl, s, p) && FlowInv(ttl, s, p);
    }
    hide Inv;
    if step.MutateCas? || step.MutateGet? { UpdateKeepsLease(ttl, s, step, t); }
    hide After, Mutation;
  }

  lemma UpdateKeepsLease(ttl: string -> nat, s: State, step: Step, t: State)
    requires Next(ttl, s, step, t) && (step.MutateCas? || step.MutateGet?) && FlowInv(ttl, s, step.node)
    ensures t.grants == s.grants && t.clock == s.clock
    ensures t.cert.leaseHolder == s.cert.leaseHolder && t.cert.leaseExpires == s.cert.leaseExpires
  {
    if step.MutateCas? { WriteKeepsLease(ttl, s, step.node, t); } else { ReadKeepsLease(ttl, s, step.node, t); }
  }

  /** An update's write takes effect on the record it read, or not at all. */
  lemma UpdateFrame(ttl: string -> nat, s: State, p: string, t: State)
    requires FlowInv(ttl, s, p) && Next(ttl, s, MutateCas(p), t)
    ensures t.grants == s.grants && t.clock == s.clock && FlowOf(s, p).MutateRead?
    ensures || (t.commits == s.commits && t.cert == s.cert)
            || (t.commits == s.commits + [FlowOf(s, p).op] && t.cert == After(s.cert, FlowOf(s, p).op))
  {
    hide After, Mutation;
  }

  lemma WriteKeepsLease(ttl: string -> nat, s: State, p: string, t: State)
    requires Next(ttl, s, MutateCas(p), t) && FlowInv(ttl, s, p)
    ensures t.grants == s.grants && t.clock == s.clock
    ensures t.cert.leaseHolder == s.cert.leaseHolder && t.cert.leaseExpires == s.cert.leaseExpires
  {
    UpdateFrame(ttl, s, p, t);
    hide Next, FlowInv;
    OpOwnsFields(s.cert, FlowOf(s, p).op);
    hide After;
  }

  lemma ReadKeepsLease(ttl: string -> nat, s: State, p: string, t: State)
    requires Next(ttl, s, MutateGet(p), t)
    ensures t.grants == s.grants && t.clock == s.clock && t.cert == s.cert
  {
    hide Mutation;
  }

  lemma StepKeepsInv(ttl: string -> nat, s: State, step: Step, t: State)
    requires Inv(ttl, s) && Next(ttl, s, step, t)
    ensures Inv(ttl, t)
  {
    hide Next, FlowInv, LeaseInv, Later;
    forall q ensures FlowInv(ttl, t, q) && LeaseInv(ttl, t, q) {
      LeaseKept(ttl, s, step, t, q);
      if !step.Tick? && q == NodeOf(step) {
        OwnFlow(ttl, s, step, t);
      } else {
        OthersLater(ttl, s, step, t, q);
        FlowStable(ttl, s, t, q);
      }
    }
  }

  lemma {:induction false} RunInv(ttl: string -> nat, states: seq<State>, steps: seq<Step>, i: nat)
    requires Run(ttl, states, steps) && i < |states|
    ensures Inv(ttl, states[i])
  {
    hide Next;
    if i > 0 {
      RunInv(ttl, states, steps, i - 1);
      StepKeepsInv(ttl, states[i - 1], steps[i - 1], states[i]);
    }
  }

  // Exclusion.

  /** Step `i` makes `p`'s acquire return true with a lease until `expires`. */
  ghost predicate Granted(states: seq<State>, steps: seq<Step>, i: nat, p: string, expires: int)
    requires |states| == |steps| + 1
  {
    i < |steps| && steps[i] == AcquireCas(p) && FlowOf(states[i + 1], p) == Holding(expires)
  }

  ghost predicate ReleasedAt(states: seq<State>, steps: seq<Step>, i: nat, p: string)
    requires |states| == |steps| + 1
  {
    i < |steps| && steps[i] == ReleaseCas(p) && states[i + 1].rev > states[i].rev
  }

  lemma GrantGrows(ttl: string -> nat, s: State, step: Step, t: State, p: string)
    requires Inv(ttl, s) && Next(ttl, s, step, t) && p in s.grants
    requires !(step == ReleaseCas(p) && t.rev > s.rev)
    ensures p in t.grants && s.grants[p] <= t.grants[p]
  {
    hide Leased, Released, After, LeaseRefused, Mutation;
    assert FlowInv(ttl, s, p);
  }

  lemma {:induction false} GrantPersists(ttl: string -> nat, states: seq<State>, steps: seq<Step>, i: nat, j: nat, p: string, expires: int)
    requires Run(ttl, states, steps) && i < j < |states| && Granted(states, steps, i, p, expires)
    requires forall k :: i < k < j ==> !ReleasedAt(states, steps, k, p)
    ensures p in states[j].grants && expires <= states[j].grants[p]
  {
    if j == i + 1 {
      assert Next(ttl, states[i], steps[i], states[i + 1]);
      hide LeaseRefused, Leased, Mutation, After, Released, ReleasedAt;
    } else {
      hide Next, Inv;
      GrantPersists(ttl, states, steps, i, j - 1, p, expires);
      RunInv(ttl, states, steps, j - 1);
      assert !ReleasedAt(states, steps, j - 1, p);
      GrantGrows(ttl, states[j - 1], steps[j - 1], states[j], p);
    }
  }

  lemma GrantNeedsFree(ttl: string -> nat, s: State, t: State, p: string, q: string)
    requires Inv(ttl, s) && Next(ttl, s, AcquireCas(q), t) && FlowOf(t, q).Holding?
    requires p in s.grants && p != q
    ensures s.grants[p] <= s.clock
  {
    assert LeaseInv(ttl, s, p) && FlowInv(ttl, s, q);
  }

  /**
   Lease exclusion: once an acquire has returned true, another node's acquire
   returns true only after the lease has expired or been released, in every
   interleaving and with renewal writes that land within their own lease.
   */
  lemma LeaseExclusion(ttl: string -> nat, states: seq<State>, steps: seq<Step>, i: nat, j: nat, p: string, q: string, expires: int, other: int)
    requires Run(ttl, states, steps) && i < j && p != q
    requires Granted(states, steps, i, p, expires) && Granted(states, steps, j, q, other)
    ensures expires <= states[j].clock || exists k :: i < k < j && ReleasedAt(states, steps, k, p)
  {
    hide Inv;
    if forall k :: i < k < j ==> !ReleasedAt(states, steps, k, p) {
      GrantPersists(ttl, states, steps, i, j, p, expires);
      RunInv(ttl, states, steps, j);
      assert Next(ttl, states[j], steps[j], states[j + 1]);
      hide Next;
      GrantNeedsFree(ttl, states[j], states[j + 1], p, q);
    }
  }

  // Guarded runs.

  predicate Guarded(step: Step) { !step.RenewPut? }

  function Committed(c: Cert, ops: seq<Op>): Cert {
    if ops == [] then c else After(Committed(c, ops[..|ops| - 1]), ops[|ops| - 1])
  }

  /** The fields that updates own. */
  ghost predicate SameShared(a: Cert, b: Cert) { a.inUseBy == b.inUseBy && a.tags == b.tags }

  /** A guarded step changes the lease, or the one field its update owns, or nothing. */
  lemma GuardedFrame(ttl: string -> nat, s: State, step: Step, t: State)
    requires Inv(ttl, s) && Next(ttl, s, step, t) && Guarded(step)
    ensures t.cert.material == s.cert.material
    ensures !step.AcquireCas? && !step.ReleaseCas? ==> t.cert.leaseHolder == s.cert.leaseHolder && t.cert.leaseExpires == s.cert.leaseExpires
    ensures !step.MutateCas? ==> SameShared(t.cert, s.cert)
    ensures step.MutateCas? ==> t.cert == if t.commits == s.commits then s.cert else After(s.cert, t.commits[|t.commits| - 1])
  {
    if step.MutateCas? {
      assert FlowInv(ttl, s, step.node);
      UpdateFrame(ttl, s, step.node, t);
      hide Next, Inv;
      OpOwnsFields(s.cert, FlowOf(s, step.node).op);
    } else {
      hide LeaseRefused, Mutation, After;
      if !step.Tick? { assert FlowInv(ttl, s, NodeOf(step)); }
    }
  }

  /** An update is committed by its write, or by a read that finds nothing to write. */
  lemma CommitsGrow(ttl: string -> nat, s: State, step: Step, t: State)
    requires Next(ttl, s, step, t) && t.commits != s.commits
    ensures step.MutateGet? || step.MutateCas?
    ensures t.commits != [] && t.commits[..|t.commits| - 1] == s.commits
    ensures step.MutateGet? ==> t.cert == s.cert == After(s.cert, t.commits[|t.commits| - 1])
  {
    hide LeaseRefused, Leased, Released;
  }

  /** A step that loses no update: a guarded one, or a renewal's write that finds users and tags as the renewal read them. */
  ghost predicate Harmless(s: State, step: Step) {
    step.RenewPut? ==> FlowOf(s, step.node).RenewRead? && SameShared(FlowOf(s, step.node).seen, s.cert)
  }

  /** One such step advances the users and tags by exactly the updates it commits. */
  lemma HarmlessCommits(ttl: string -> nat, s: State, step: Step, t: State, c: Cert)
    requires Inv(ttl, s) && Next(ttl, s, step, t) && Harmless(s, step)
    requires SameShared(s.cert, Committed(c, s.commits))
    ensures SameShared(t.cert, Committed(c, t.commits))
  {
    if t.commits != s.commits { CommitsGrow(ttl, s, step, t); }
    if Guarded(step) { GuardedFrame(ttl, s, step, t); } else { RenewalKeepsUpdates(ttl, s, step.node, step.material, t, c); }
    hide Next, Inv, After;
    if t.commits != s.commits { AfterShared(s.cert, Committed(c, s.commits), t.commits[|t.commits| - 1]); }
  }

  /** A renewal's unguarded write keeps the committed updates exactly when users and tags are as the renewal read them. */
  lemma RenewalKeepsUpdates(ttl: string -> nat, s: State, p: string, material: string, t: State, c: Cert)
    requires Next(ttl, s, RenewPut(p, material), t) && SameShared(s.cert, Committed(c, s.commits))
    ensures t.commits == s.commits
    ensures SameShared(t.cert, Committed(c, t.commits)) <==> SameShared(FlowOf(s, p).seen, s.cert)
  {
    hide Committed;
  }

  lemma AfterShared(a: Cert, b: Cert, op: Op)
    requires SameShared(a, b)
    ensures SameShared(After(a, op), After(b, op))
  {
  }

  /** The users and tags are the committed updates applied in commit order to the initial record. */
  ghost predicate Kept(states: seq<State>, i: nat)
    requires i < |states|
  {
    SameShared(states[i].cert, Committed(states[0].cert, states[i].commits))
  }

  /** No lost update, in every run of guarded writers and of renewals whose writes find users and tags as they read them. */
  lemma {:induction false} NoLostUpdate(ttl: string -> nat, states: seq<State>, steps: seq<Step>, i: nat)
    requires Run(ttl, states, steps) && i < |states|
    requires forall k :: 0 <= k < i ==> Harmless(states[k], steps[k])
    ensures Kept(states, i)
  {
    hide Next, Harmless, Inv, SameShared;
    if i > 0 {
      NoLostUpdate(ttl, states, steps, i - 1);
      RunInv(ttl, states, steps, i - 1);
      HarmlessCommits(ttl, states[i - 1], steps[i - 1], states[i], states[0].cert);
    } else {
      NothingCommitted(states[0]);
    }
  }

  lemma NothingCommitted(s: State)
    requires Init(s)
    ensures SameShared(s.cert, Committed(s.cert, s.commits))
  {
  }

  /** Guarded writers never change the certificate itself. */
  lemma {:induction false} MaterialKept(ttl: string -> nat, states: seq<State>, steps: seq<Step>, i: nat)
    requires Run(ttl, states, steps) && i < |states| && forall k :: 0 <= k < i ==> Guarded(steps[k])
    ensures states[i].cert.material == states[0].cert.material
  {
    hide Next, Inv;
    if i > 0 {
      MaterialKept(ttl, states, steps, i - 1);
      RunInv(ttl, states, steps, i - 1);
      GuardedFrame(ttl, states[i - 1], steps[i - 1], states[i]);
    }
  }

  /** Over a whole run, every state keeps the committed updates exactly when every renewal's write found users and tags as it read them. */
  lemma UpdatesKeptExactly(ttl: string -> nat, states: seq<State>, steps: seq<Step>)
    requires Run(ttl, states, steps)
    ensures (forall i :: 0 <= i < |states| ==> Kept(states, i)) <==> (forall k :: 0 <= k < |steps| ==> Harmless(states[k], steps[k]))
  {
    if forall k :: 0 <= k < |steps| ==> Harmless(states[k], steps[k]) {
      forall i | 0 <= i < |states| ensures Kept(states, i) { NoLostUpdate(ttl, states, steps, i); }
    }
    if forall i :: 0 <= i < |states| ==> Kept(states, i) {
      forall k | 0 <= k < |steps| ensures Harmless(states[k], steps[k]) {
        assert Kept(states, k) && Kept(states, k + 1);
        HarmlessWhenKept(ttl, states[k], steps[k], states[k + 1], states[0].cert);
      }
    }
  }

  lemma HarmlessWhenKept(ttl: string -> nat, s: State, step: Step, t: State, c: Cert)
    requires Next(ttl, s, step, t) && SameShared(s.cert, Committed(c, s.commits)) && SameShared(t.cert, Committed(c, t.commits))
    ensures Harmless(s, step)
  {
    if step.RenewPut? { RenewalKeepsUpdates(ttl, s, step.node, step.material, t, c); }
    hide Committed, LeaseRefused, Mutation, After;
  }

  function CommittedUsers(users: set<string>, ops: seq<Op>): set<string> {
    if ops == [] then users else SetAfter(CommittedUsers(users, ops[..|ops| - 1]), ops[|ops| - 1])
  }

  lemma {:induction false} CommittedTidy(c: Cert, ops: seq<Op>)
    requires Tidy(c.inUseBy)
    ensures Tidy(Committed(c, ops).inUseBy)
    ensures Users(Committed(c, ops)) == CommittedUsers(Users(c), ops)
  {
    hide Tidy, After, SetAfter, Users;
    if ops != [] {
      CommittedTidy(c, ops[..|ops| - 1]);
      OpTidy(Committed(c, ops[..|ops| - 1]), ops[|ops| - 1]);
    }
  }

  /** Over such a run the user list stays sorted and duplicate-free and is, as a set, the adds and removes in commit order. */
  lemma UsersTidy(ttl: string -> nat, states: seq<State>, steps: seq<Step>, i: nat)
    requires Run(ttl, states, steps) && i < |states| && Tidy(states[0].cert.inUseBy)
    requires forall k :: 0 <= k < i ==> Harmless(states[k], steps[k])
    ensures Tidy(states[i].cert.inUseBy)
    ensures Users(states[i].cert) == CommittedUsers(Users(states[0].cert), states[i].commits)
  {
    hide Run, Tidy, Harmless;
    NoLostUpdate(ttl, states, steps, i);
    CommittedTidy(states[0].cert, states[i].commits);
  }

  // A run in which a renewal's write drops a user added after its read.

  const TWO_MINUTES: string -> nat := (p: string) => 120

  const UNLEASED := Cert("", ZERO_TIME, [], map[], "old")
  const LEASED := Leased(UNLEASED, "n1", 120)
  const SHARED := After(LEASED, Add("lb"))

  const S0 := State(0, 1, UNLEASED, map[], map[], [])
  const S1 := Goto(S0, "n1", AcquireStarted(0))
  const S2 := Goto(S1, "n1", AcquireRead(0, 1, UNLEASED))
  const S3 := Goto(Write(S2, LEASED), "n1", Holding(120)).(grants := map["n1" := 120])
  const S4 := Goto(S3, "n1", RenewRead(120, LEASED))
  const S5 := Goto(S4, "n2", Mutating(Add("lb"), 0))
  const S6 := Goto(S5, "n2", MutateRead(Add("lb"), 1, 2, LEASED))
  const S7 := Goto(Write(S6, SHARED), "n2", Idle).(commits := [Add("lb")])
  const S8 := Goto(Write(S7, LEASED.(material := "new")), "n1", Releasing)

  lemma Lease1() ensures Next(TWO_MINUTES, S0, AcquireBegin("n1"), S1) && Next(TWO_MINUTES, S1, AcquireGet("n1"), S2) { }
  lemma Lease2() ensures Next(TWO_MINUTES, S2, AcquireCas("n1"), S3) && Next(TWO_MINUTES, S3, RenewGet("n1"), S4) { }
  lemma Share1() ensures Next(TWO_MINUTES, S4, MutateBegin("n2", Add("lb")), S5) && Next(TWO_MINUTES, S5, MutateGet("n2"), S6) { }
  lemma Share2() ensures Next(TWO_MINUTES, S6, MutateCas("n2"), S7) && Next(TWO_MINUTES, S7, RenewPut("n1", "new"), S8) { }

  lemma RenewalLosesUpdate() returns (states: seq<State>, steps: seq<Step>)
    ensures Run(TWO_MINUTES, states, steps)
    ensures !SameShared(states[|steps|].cert, Committed(states[0].cert, states[|steps|].commits))
  {
    hide Next;
    Lease1(); Lease2(); Share1(); Share2();
    states := [S0, S1, S2, S3, S4, S5, S6, S7, S8];
    steps := [AcquireBegin("n1"), AcquireGet("n1"), AcquireCas("n1"), RenewGet("n1"),
      MutateBegin("n2", Add("lb")), MutateGet("n2"), MutateCas("n2"), RenewPut("n1", "new")];
    LostUser();
  }

  lemma LostUser()
    ensures !SameShared(S8.cert, Committed(S0.cert, S8.commits))
  {
    assert [Add("lb")][..0] == [];
    assert Committed(UNLEASED, [Add("lb")]) == After(UNLEASED, Add("lb"));
  }
}
