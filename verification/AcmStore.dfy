/**
 The stored certificate record and its revision-guarded updates. The record
 lives in a bucket whose writes bump a revision; other nodes may write between
 a read and the write that follows it.
 */
module AcmStore {
  import opened Wrappers
  import opened Sorting

  const MAX_CAS_ATTEMPTS: nat := 50

  /** The lease, the users and the tags each have their own writers; `material` stands for every other field. */
  datatype Cert = Cert(leaseHolder: string, leaseExpires: int, inUseBy: seq<string>, tags: map<string, string>, material: string)

  const ZERO_TIME := 0

  // Leases.

  predicate LeaseRefused(c: Cert, holder: string, now: int) {
    c.leaseHolder != "" && c.leaseHolder != holder && c.leaseExpires > now
  }

  function Leased(c: Cert, holder: string, expires: int): Cert { c.(leaseHolder := holder, leaseExpires := expires) }

  function Released(c: Cert): Cert { c.(leaseHolder := "", leaseExpires := ZERO_TIME) }

  /** A lease is in the way exactly when it is another holder's and has not run out. */
  lemma LeaseRefusedMeaning(c: Cert, holder: string, now: int)
    ensures LeaseRefused(c, holder, now) <==> c.leaseHolder !in {"", holder} && now < c.leaseExpires
  {
  }

  /** A released record is free for every holder at every time, and carries the same users, tags and material. */
  lemma ReleasedIsFree(c: Cert, holder: string, now: int)
    ensures !LeaseRefused(Released(c), holder, now)
    ensures Released(c).inUseBy == c.inUseBy && Released(c).tags == c.tags && Released(c).material == c.material
  {
  }

  // Users.

  datatype Op = Add(arn: string) | Remove(arn: string) | Retag(change: map<string, string> -> map<string, string>)

  function IndexOf(s: seq<string>, x: string): (i: int)
    ensures i == -1 <==> x !in s
    ensures i != -1 ==> 0 <= i < |s| && s[i] == x && x !in s[..i]
  {
    if s == [] then -1
    else if s[0] == x then 0
    else var i := IndexOf(s[1..], x); if i == -1 then -1 else
      assert s[..i + 1] == [s[0]] + s[1..][..i]; i + 1
  }

  function Without(s: seq<string>, x: string): seq<string> {
    var i := IndexOf(s, x);
    if i == -1 then s else s[..i] + s[i + 1..]
  }

  /** What a read-modify-write makes of the record it read, or None when it has nothing to write. */
  function Mutation(c: Cert, op: Op): Option<Cert> {
    match op
    case Add(arn) => if arn in c.inUseBy then None else Some(c.(inUseBy := Sort(StringLess, c.inUseBy + [arn])))
    case Remove(arn) => if arn !in c.inUseBy then None else Some(c.(inUseBy := Without(c.inUseBy, arn)))
    case Retag(change) => Some(c.(tags := change(c.tags)))
  }

  function After(c: Cert, op: Op): Cert { match Mutation(c, op) case None => c case Some(d) => d }

  // Users as a set.

  ghost predicate Tidy(users: seq<string>) { StrictlySortedBy(StringLess, users) }

  function Users(c: Cert): set<string> { set u | u in c.inUseBy }

  function SetAfter(users: set<string>, op: Op): set<string> {
    match op case Add(arn) => users + {arn} case Remove(arn) => users - {arn} case Retag(_) => users
  }

  lemma TidyDistinct(users: seq<string>, i: nat, j: nat)
    requires Tidy(users) && i < |users| && j < |users| && users[i] == users[j]
    ensures i == j
  {
    StringLessIrreflexive(users[i]);
  }

  lemma AddTidy(users: seq<string>, arn: string)
    requires Tidy(users) && arn !in users
    ensures Tidy(Sort(StringLess, users + [arn]))
    ensures forall u :: u in Sort(StringLess, users + [arn]) <==> u in users || u == arn
  {
    StringLessStrict();
    hide StringLess, Sort;
    var longer := users + [arn];
    SortSorted(StringLess, longer);
    MultisetMember(Sort(StringLess, longer), longer);
    forall i, j | 0 <= i < j < |longer| ensures longer[i] != longer[j] {
      if j < |users| { assert StringLess(users[i], users[j]); }
    }
    DistinctKept(longer, Sort(StringLess, longer), (u: string) => u);
  }

  lemma RemoveTidy(users: seq<string>, arn: string)
    requires Tidy(users)
    ensures Tidy(Without(users, arn))
    ensures forall u :: u in Without(users, arn) <==> u in users && u != arn
  {
    hide StringLess, IndexOf;
    var i := IndexOf(users, arn);
    if i != -1 {
      var next := Without(users, arn);
      forall j, k | 0 <= j < k < |next| ensures StringLess(next[j], next[k]) {
        assert StringLess(users[Origin(i, j)], users[Origin(i, k)]);
      }
      forall u ensures u in next <==> u in users && u != arn { WithoutMember(users, arn, u); }
    }
  }

  /** Where the element at `k` was before index `i` was removed. */
  function Origin(i: nat, k: nat): nat { if k < i then k else k + 1 }

  lemma WithoutMember(users: seq<string>, arn: string, u: string)
    requires Tidy(users) && arn in users
    ensures u in Without(users, arn) <==> u in users && u != arn
  {
    hide StringLess, IndexOf;
    var i, next := IndexOf(users, arn), Without(users, arn);
    if u in users && u != arn {
      var k :| 0 <= k < |users| && users[k] == u;
      assert next[if k < i then k else k - 1] == u;
    }
    if u in next {
      var k :| 0 <= k < |next| && next[k] == u;
      assert users[Origin(i, k)] == u;
      if u == arn { TidyDistinct(users, Origin(i, k), i); }
    }
  }

  /** An update keeps the user list sorted and duplicate-free and changes it as a set. */
  lemma OpTidy(c: Cert, op: Op)
    requires Tidy(c.inUseBy)
    ensures Tidy(After(c, op).inUseBy)
    ensures Users(After(c, op)) == SetAfter(Users(c), op)
  {
    hide Tidy, Sort, Without;
    match op
    case Add(arn) => if arn !in c.inUseBy { AddTidy(c.inUseBy, arn); }
    case Remove(arn) => if arn in c.inUseBy { RemoveTidy(c.inUseBy, arn); }
    case Retag(_) =>
  }

  /** An update changes only the fields its kind owns. */
  lemma OpOwnsFields(c: Cert, op: Op)
    ensures After(c, op).(inUseBy := c.inUseBy, tags := c.tags) == c
    ensures op.Retag? ==> After(c, op).inUseBy == c.inUseBy
    ensures After(c, op).tags == if op.Retag? then op.change(c.tags) else c.tags
  {
  }

  // The bucket.

  /** The record after other nodes' writes. */
  function Latest(c: Cert, writes: seq<Cert>): Cert { if writes == [] then c else writes[|writes| - 1] }

  class Bucket {
    var record: Option<Cert>
    var revision: nat

    constructor (record: Option<Cert>)
      ensures this.record == record && revision == 1
    {
      this.record := record;
      revision := 1;
    }

    method Get() returns (c: Option<Cert>, rev: nat)
      ensures c == record && rev == revision
    {
      c, rev := record, revision;
    }

    /** Other nodes write while a flow is between its read and its write. */
    method Interleave(writes: seq<Cert>)
      modifies this
      requires record.Some?
      ensures record == Some(Latest(old(record).value, writes)) && revision == old(revision) + |writes|
    {
      for i := 0 to |writes|
        invariant record == Some(Latest(old(record).value, writes[..i])) && revision == old(revision) + i
      {
        record, revision := Some(writes[i]), revision + 1;
      }
      assert writes[..|writes|] == writes;
    }

    method CompareAndSet(c: Cert, rev: nat) returns (ok: bool)
      modifies this
      ensures ok <==> rev == old(revision)
      ensures ok ==> record == Some(c) && revision == old(revision) + 1
      ensures !ok ==> record == old(record) && revision == old(revision)
    {
      ok := rev == revision;
      if ok { record, revision := Some(c), revision + 1; }
    }

    /**
     True exactly when the lease read was nobody's, one's own or run out, and no
     write came in between; then the record differs in its lease alone.
     */
    method AcquireLease(holder: string, ttl: int, now: int, between: seq<Cert>) returns (ok: bool)
      modifies this
      ensures ok <==> (old(record).Some? && between == [] && (old(record).value.leaseHolder in {"", holder} || old(record).value.leaseExpires <= now))
      ensures ok ==> record == Some(old(record).value.(leaseHolder := holder, leaseExpires := now + ttl))
      ensures !ok && old(record).None? ==> record == None
      ensures !ok && old(record).Some? ==> record == old(record) || record == Some(Latest(old(record).value, between))
    {
      var c, rev := Get();
      if c.None? { return false; }
      if LeaseRefused(c.value, holder, now) { return false; }
      Interleave(between);
      ok := CompareAndSet(Leased(c.value, holder, now + ttl), rev);
    }

    /** Clears the holder's own lease, and nothing when another node wrote meanwhile. */
    method ReleaseLease(holder: string, between: seq<Cert>)
      modifies this
      ensures old(record).None? || old(record).value.leaseHolder != holder ==> record == old(record)
      ensures old(record).Some? && old(record).value.leaseHolder == holder ==>
        record == Some(if between == [] then old(record).value.(leaseHolder := "", leaseExpires := 0) else Latest(old(record).value, between))
    {
      var c, rev := Get();
      if c.None? { return; }
      if c.value.leaseHolder != holder { return; }
      Interleave(between);
      var _ := CompareAndSet(Released(c.value), rev);
    }

    /** With nothing in between, whoever asks after a release gets the lease, at any time. */
    method ReleaseThenAcquire(holder: string, next: string, ttl: int, now: int) returns (ok: bool)
      modifies this
      requires record.Some? && record.value.leaseHolder == holder
      ensures ok && record == Some(old(record).value.(leaseHolder := next, leaseExpires := now + ttl))
    {
      ReleaseLease(holder, []);
      ok := AcquireLease(next, ttl, now, []);
    }

    /**
     Retries until a write lands on the revision it read, or there is nothing to
     write. `between(i)` is what other nodes write during attempt i.
     */
    method Mutate(op: Op, between: nat -> seq<Cert>) returns (ok: bool, attempts: nat)
      modifies this
      ensures old(record).None? ==> !ok && attempts == 0 && record == None
      ensures old(record).Some? ==> attempts <= 50
      ensures old(record).Some? && ok ==>
        attempts > 0 && record == Some(After(Contended(old(record).value, between, attempts - 1), op))
      ensures old(record).Some? && !ok ==>
        attempts == 50 && record == Some(Contended(old(record).value, between, attempts))
    {
      attempts := 0;
      if record.None? { return false, attempts; }
      while attempts < MAX_CAS_ATTEMPTS
        invariant attempts <= MAX_CAS_ATTEMPTS
        invariant record == Some(Contended(old(record).value, between, attempts))
      {
        var c, rev := Get();
        attempts := attempts + 1;
        var next := Mutation(c.value, op);
        if next.None? { return true, attempts; }
        Interleave(between(attempts - 1));
        ok := CompareAndSet(next.value, rev);
        if ok { return; }
      }
      ok := false;
    }
  }

  /** The record after `n` attempts' worth of other nodes' writes. */
  function Contended(c: Cert, between: nat -> seq<Cert>, n: nat): Cert {
    if n == 0 then c else Latest(Contended(c, between, n - 1), between(n - 1))
  }

  /** That is the last write of the last attempt during which anybody wrote, or the record as it was. */
  lemma {:induction false} ContendedMeaning(c: Cert, between: nat -> seq<Cert>, n: nat, k: nat)
    requires forall i :: k <= i < n ==> between(i) == []
    ensures k == 0 ==> Contended(c, between, n) == c
    ensures 0 < k <= n && |between(k - 1)| > 0 ==> Contended(c, between, n) == between(k - 1)[|between(k - 1)| - 1]
  {
    if n > k { ContendedMeaning(c, between, n - 1, k); }
  }
}
