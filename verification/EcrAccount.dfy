/**
 The referrer index of one repository while every repository of the account
 works on the same bucket: it holds through any run in which no repository is
 nested in the index, and a nested one shows up in the listings.
 */
module EcrAccount {
  import opened Wrappers
  import opened Sorting
  import opened Text
  import opened EcrReferrers
  import opened EcrKeys

  /** Repository `r` is not named after, or below, the place of any subject's entries in `repo`. */
  ghost predicate Unnested(repo: string, r: string) {
    forall s :: IsDigest(s) ==> !Nested(r, repo, s)
  }

  lemma OwnUnnested(repo: string)
    ensures Unnested(repo, repo)
  {
  }

  lemma PlainTagOutside(r: string, kind: Kind, repo: string, subject: string)
    requires PlainKind(kind) && IsDigest(subject)
    ensures !TagInside(r, kind, repo, subject)
  {
    if kind.TagKind? && HasPrefix(repo, r + "/tags") {
      var t, p, n := "tags/" + kind.tag, Home(repo, subject)[|r| + 1..] + "/", |repo| - |r| - 1;
      HomeRest(repo, subject, |r|);
      assert forall i :: 4 < i < |t| ==> t[i] == kind.tag[i - 5];
      assert p[n + 10] == '/';
    }
  }

  /** A record's key lies among the entries of `repo` exactly when it is one of them or its repository is nested there. */
  lemma ListedExactly(r: string, kind: Kind, repo: string)
    requires PlainKind(kind)
    ensures Listed(repo, KeyOf(r, kind)) <==> (r == repo && kind.ReferrerKind?) || !Unnested(repo, r)
  {
    forall s | IsDigest(s) ensures HasPrefix(KeyOf(r, kind), SubjectPrefix(repo, s)) <==> (r == repo && kind.ReferrerKind? && kind.subject == s) || Nested(r, repo, s) {
      KeysUnderPrefix(r, kind, repo, s);
      PlainTagOutside(r, kind, repo, s);
    }
    hide Nested, KeyOf, SubjectPrefix, HasPrefix, IsDigest;
    if r == repo && kind.ReferrerKind? { assert HasPrefix(KeyOf(r, kind), SubjectPrefix(repo, kind.subject)); }
  }

  // Changes elsewhere in the bucket.

  /** Key `k` is neither a manifest of `repo` nor among its entries. */
  ghost predicate Elsewhere(repo: string, k: string) {
    !Listed(repo, k) && forall d :: IsDigest(d) ==> k != ManifestKey(repo, d)
  }

  ghost predicate SameBut(b: Bucket, after: Bucket, keys: set<string>) {
    forall k :: k !in keys ==> (k in b <==> k in after) && (k in b ==> after[k] == b[k])
  }

  ghost predicate AllElsewhere(repo: string, keys: set<string>) { forall k :: k in keys ==> Elsewhere(repo, k) }

  lemma StoredElsewhere(repo: string, b: Bucket, after: Bucket, keys: set<string>, d: string)
    requires SameBut(b, after, keys) && AllElsewhere(repo, keys) && IsDigest(d)
    ensures Stored(repo, after, d) == Stored(repo, b, d) && (ManifestKey(repo, d) in b <==> ManifestKey(repo, d) in after)
  {
    hide ManifestKey, IsDigest, Listed;
    assert ManifestKey(repo, d) !in keys;
  }

  lemma IndexesElsewhere(repo: string, b: Bucket, after: Bucket, keys: set<string>, k: string, d: string)
    requires SameBut(b, after, keys) && AllElsewhere(repo, keys) && Indexes(repo, b, k, d)
    ensures Indexes(repo, after, k, d)
  {
    StoredElsewhere(repo, b, after, keys, d);
    PrefixSelects(repo, Stored(repo, b, d).value.subject, d, Stored(repo, b, d).value.subject);
    assert Listed(repo, k);
    hide ManifestKey, IsDigest, Listed, ReferrerKey;
    assert k !in keys;
  }

  lemma SoundElsewhere(repo: string, b: Bucket, after: Bucket, keys: set<string>)
    requires SameBut(b, after, keys) && AllElsewhere(repo, keys) && Sound(repo, b)
    ensures Sound(repo, after)
  {
    hide Listed, Indexes;
    forall k | k in after && Listed(repo, k) ensures exists d :: Indexes(repo, after, k, d) {
      assert k !in keys && k in b;
      var d :| Indexes(repo, b, k, d);
      IndexesElsewhere(repo, b, after, keys, k, d);
    }
  }

  /** A change of keys that are neither manifests nor among the entries of a repository keeps its index. */
  lemma IndexElsewhere(repo: string, b: Bucket, after: Bucket, keys: set<string>, pending: set<string>)
    requires SameBut(b, after, keys) && AllElsewhere(repo, keys) && Sound(repo, b) && Complete(repo, b, pending)
    ensures Sound(repo, after) && Complete(repo, after, pending)
  {
    SoundElsewhere(repo, b, after, keys);
    hide Sound, SameBut, AllElsewhere, Indexes, IsDigest, ManifestKey, ReferrerKey, Stored;
    forall d | IsDigest(d) && d !in pending ensures Indexed(repo, after, d) {
      assert Indexed(repo, b, d);
      StoredElsewhere(repo, b, after, keys, d);
      if Stored(repo, b, d).Some? && Stored(repo, b, d).value.subject != "" {
        IndexesElsewhere(repo, b, after, keys, ReferrerKey(repo, Stored(repo, b, d).value.subject, d), d);
      }
    }
  }

  /** The manifest key of one repository is no other key of any repository. */
  lemma ManifestKeyApart(r: string, kind: Kind, repo: string, d: string)
    requires PlainKind(kind) && IsDigest(d) && !(r == repo && kind == ManifestKind(d))
    ensures KeyOf(r, kind) != ManifestKey(repo, d)
  {
    hide KeyOf, IsDigest;
    KeysAgree(repo, "", d);
    SharedKey(r, kind, repo, ManifestKind(d));
  }

  lemma RecordElsewhere(repo: string, r: string, kind: Kind)
    requires PlainKind(kind) && Unnested(repo, r) && (r == repo ==> !kind.ManifestKind? && !kind.ReferrerKind?)
    ensures Elsewhere(repo, KeyOf(r, kind))
  {
    ListedExactly(r, kind, repo);
    hide Listed, KeyOf, IsDigest, Unnested;
    forall d | IsDigest(d) ensures KeyOf(r, kind) != ManifestKey(repo, d) { ManifestKeyApart(r, kind, repo, d); }
  }

  // Runs of the whole account.

  /** A manifest operation of some repository, cut off anywhere, or a write or removal of another kind of record. */
  datatype AccountOp = OnManifest(repo: string, op: Op) | OnRecord(repo: string, kind: Kind, value: Option<Value>)

  function ApplyIn(b: Bucket, a: AccountOp): Bucket {
    match a
    case OnManifest(r, op) => Apply(r, b, op)
    case OnRecord(r, kind, value) => match value case Some(v) => b[KeyOf(r, kind) := v] case None => b - {KeyOf(r, kind)}
  }

  /** Digests are well-formed, tags have no slash, and a digest fixes its manifest in `repo`. */
  ghost predicate Fits(repo: string, b: Bucket, a: AccountOp) {
    match a
    case OnManifest(r, Put(m, _)) => ValidManifest(m) && (r == repo ==> Agrees(repo, b, m))
    case OnManifest(_, Delete(d, _)) => IsDigest(d)
    case OnRecord(_, kind, _) => PlainKind(kind) && !kind.ManifestKind? && !kind.ReferrerKind?
  }

  ghost predicate AllTidy(b: Bucket) { forall r :: Tidy(r, b) }

  /** The keys an operation may change. */
  ghost function Touched(b: Bucket, a: AccountOp): set<string> {
    match a
    case OnManifest(r, Put(m, _)) => {ManifestKey(r, m.digest)} + if m.subject == "" then {} else {ReferrerKey(r, m.subject, m.digest)}
    case OnManifest(r, Delete(d, _)) =>
      {ManifestKey(r, d)} + (match Stored(r, b, d) case Some(m) => if m.subject == "" then {} else {ReferrerKey(r, m.subject, d)} case None => {})
    case OnRecord(r, kind, _) => {KeyOf(r, kind)}
  }

  lemma TouchedOnly(b: Bucket, a: AccountOp)
    ensures SameBut(b, ApplyIn(b, a), Touched(b, a))
  {
    hide ManifestKey, ReferrerKey, KeyOf;
  }

  lemma TouchedElsewhere(repo: string, b: Bucket, a: AccountOp)
    requires AllTidy(b) && Fits(repo, b, a) && Unnested(repo, a.repo) && (a.OnManifest? ==> a.repo != repo)
    ensures AllElsewhere(repo, Touched(b, a))
  {
    hide Unnested, Elsewhere, KeyOf, ManifestKey, ReferrerKey, IsDigest;
    match a
    case OnManifest(r, op) =>
      var d := DigestOf(op);
      var subject := match op case Put(m, _) => m.subject case Delete(_, _) => if Stored(r, b, d).Some? then Stored(r, b, d).value.subject else "";
      KeysAgree(r, subject, d);
      RecordElsewhere(repo, r, ManifestKind(d));
      assert op.Delete? && Stored(r, b, d).Some? ==> ManifestKey(r, d) in b && Tidy(r, b);
      if subject != "" { RecordElsewhere(repo, r, ReferrerKind(subject, d)); }
    case OnRecord(r, kind, _) => RecordElsewhere(repo, r, kind);
  }

  /** Every repository's manifest keys hold the manifests they name, whatever the operation. */
  lemma StepKeepsTidy(repo: string, b: Bucket, a: AccountOp)
    requires AllTidy(b) && Fits(repo, b, a)
    ensures AllTidy(ApplyIn(b, a))
  {
    forall r, d | IsDigest(d) && ManifestKey(r, d) in ApplyIn(b, a) ensures TidyAt(r, ApplyIn(b, a), d) { TidyKept(repo, b, a, r, d); }
    hide Stored, IsDigest, ApplyIn, ManifestKey;
    forall r ensures Tidy(r, ApplyIn(b, a)) {
      forall d | IsDigest(d) && ManifestKey(r, d) in ApplyIn(b, a) ensures TidyAt(r, ApplyIn(b, a), d) { }
    }
  }

  ghost predicate TidyAt(r: string, b: Bucket, d: string) {
    && Stored(r, b, d).Some? && Stored(r, b, d).value.digest == d
    && (Stored(r, b, d).value.subject == "" || IsDigest(Stored(r, b, d).value.subject))
  }

  lemma TidyPut(b: Bucket, r': string, m: Manifest, budget: nat, r: string, d: string)
    requires (ManifestKey(r, d) in b ==> TidyAt(r, b, d)) && ValidManifest(m) && IsDigest(d) && ManifestKey(r, d) in PutAfter(r', b, m, budget)
    ensures TidyAt(r, PutAfter(r', b, m, budget), d)
  {
    hide ManifestKey, ReferrerKey, KeyOf, IsDigest;
    KeysAgree(r', m.subject, m.digest);
    if r' != r || m.digest != d { ManifestKeyApart(r', ManifestKind(m.digest), r, d); }
    if m.subject != "" { ManifestKeyApart(r', ReferrerKind(m.subject, m.digest), r, d); }
  }

  lemma TidyKept(repo: string, b: Bucket, a: AccountOp, r: string, d: string)
    requires AllTidy(b) && Fits(repo, b, a) && IsDigest(d) && ManifestKey(r, d) in ApplyIn(b, a)
    ensures TidyAt(r, ApplyIn(b, a), d)
  {
    assert Tidy(r, b);
    hide AllTidy, ManifestKey, ReferrerKey, KeyOf, IsDigest, Agrees, PutAfter;
    match a
    case OnManifest(r', Put(m, n)) => TidyPut(b, r', m, n, r, d);
    case OnManifest(r', Delete(d', _)) =>
    case OnRecord(r', kind, _) => ManifestKeyApart(r', kind, r, d);
  }

  ghost predicate AccountInv(repo: string, b: Bucket, pending: set<string>) {
    AllTidy(b) && Sound(repo, b) && Complete(repo, b, pending)
  }

  function PendingAfter(repo: string, pending: set<string>, a: AccountOp): set<string> {
    if !(a.OnManifest? && a.repo == repo) then pending
    else if a.op.budget >= FULL then pending - {DigestOf(a.op)} else pending + {DigestOf(a.op)}
  }

  /** Each operation of any repository that is not nested in its index keeps a repository's index. */
  lemma StepKeepsIndex(repo: string, b: Bucket, a: AccountOp, pending: set<string>)
    requires AccountInv(repo, b, pending) && Fits(repo, b, a) && Unnested(repo, a.repo)
    ensures AccountInv(repo, ApplyIn(b, a), PendingAfter(repo, pending, a))
  {
    StepKeepsTidy(repo, b, a);
    hide Unnested, Sound, Complete, IsDigest, Apply;
    if a.OnManifest? && a.repo == repo {
      assert Tidy(repo, b);
      OpKeepsIndex(repo, b, a.op, pending);
    } else {
      TouchedOnly(b, a);
      TouchedElsewhere(repo, b, a);
      IndexElsewhere(repo, b, ApplyIn(b, a), Touched(b, a), pending);
    }
  }

  function RunIn(b: Bucket, ops: seq<AccountOp>): Bucket {
    if ops == [] then b else ApplyIn(RunIn(b, ops[..|ops| - 1]), ops[|ops| - 1])
  }

  function PendingIn(repo: string, ops: seq<AccountOp>): set<string> {
    if ops == [] then {} else PendingAfter(repo, PendingIn(repo, ops[..|ops| - 1]), ops[|ops| - 1])
  }

  ghost predicate AllFit(repo: string, b: Bucket, ops: seq<AccountOp>) {
    forall i :: 0 <= i < |ops| ==> Fits(repo, RunIn(b, ops[..i]), ops[i]) && Unnested(repo, ops[i].repo)
  }

  /**
   Over any run of the account's operations, manifest operations cut off
   anywhere, in which no repository is nested in its index, a repository's
   entries stay sound and complete.
   */
  lemma {:induction false} AccountRunKeepsIndex(repo: string, b: Bucket, ops: seq<AccountOp>)
    requires AccountInv(repo, b, {}) && AllFit(repo, b, ops)
    ensures AccountInv(repo, RunIn(b, ops), PendingIn(repo, ops))
  {
    hide AccountInv, Fits, Unnested, ApplyIn, PendingAfter;
    if ops != [] {
      var front := ops[..|ops| - 1];
      forall i | 0 <= i < |front| ensures Fits(repo, RunIn(b, front[..i]), front[i]) && Unnested(repo, front[i].repo) {
        assert ops[..i] == front[..i] && ops[i] == front[i];
      }
      AccountRunKeepsIndex(repo, b, front);
      StepKeepsIndex(repo, RunIn(b, front), ops[|ops| - 1], PendingIn(repo, front));
    }
  }

  // Nested repositories.

  /** Writing a record that is not one of its own entries or manifests keeps a repository's index sound exactly when the writer is not nested in it. */
  lemma ForeignWrite(repo: string, b: Bucket, r: string, kind: Kind, v: Value)
    requires Sound(repo, b) && PlainKind(kind) && (r == repo ==> !kind.ManifestKind? && !kind.ReferrerKind?)
    ensures Sound(repo, b[KeyOf(r, kind) := v]) <==> Unnested(repo, r)
  {
    var k, after := KeyOf(r, kind), b[KeyOf(r, kind) := v];
    ListedExactly(r, kind, repo);
    hide Listed, Unnested, KeyOf, IsDigest, PlainKind, ManifestKey, ReferrerKey;
    if Unnested(repo, r) {
      RecordElsewhere(repo, r, kind);
      SoundElsewhere(repo, b, after, {k});
    } else if Sound(repo, after) {
      var d :| Indexes(repo, after, k, d);
      KeysAgree(repo, Stored(repo, after, d).value.subject, d);
      SharedKey(r, kind, repo, ReferrerKind(Stored(repo, after, d).value.subject, d));
      OwnUnnested(repo);
    }
  }

  /** A listing returns what every record of a nested repository decodes to, and fails if one does not. */
  lemma NestedListed(repo: string, b: Bucket, subject: string, r: string, kind: Kind, out: seq<Descriptor>)
    requires IsDigest(subject) && ValidKind(kind) && Nested(r, repo, subject) && KeyOf(r, kind) in b
    ensures AsDescriptor(b[KeyOf(r, kind)]).None? ==> Unreadable(b, SubjectPrefix(repo, subject))
    ensures Listing(b, SubjectPrefix(repo, subject), out) ==>
      AsDescriptor(b[KeyOf(r, kind)]).Some? && AsDescriptor(b[KeyOf(r, kind)]).value in out
  {
    KeysUnderPrefix(r, kind, repo, subject);
    hide KeyOf, SubjectPrefix, HasPrefix, Nested;
    if Listing(b, SubjectPrefix(repo, subject), out) {
      var keys, raw :| Collected(b, SubjectPrefix(repo, subject), {}, keys, raw) && multiset(raw) == multiset(out);
      assert KeyOf(r, kind) in keys;
      var i :| 0 <= i < |keys| && keys[i] == KeyOf(r, kind);
      assert raw[i] in raw;
      MultisetMember(raw, out);
    }
  }

  /** Just creating the repository named like a subject's entries makes the subject's listing one empty descriptor. */
  lemma FreshNestedListing(repo: string, subject: string, out: seq<Descriptor>)
    requires IsDigest(subject)
    ensures var b := map[KeyOf(Home(repo, subject), MetaKind) := RepoValue(Home(repo, subject))];
      && Lists(repo, b, subject, []) && !Unreadable(b, SubjectPrefix(repo, subject))
      && (Listing(b, SubjectPrefix(repo, subject), out) <==> out == [EMPTY])
  {
    var k, prefix := KeyOf(Home(repo, subject), MetaKind), SubjectPrefix(repo, subject);
    var b := map[k := RepoValue(Home(repo, subject))];
    KeysUnderPrefix(Home(repo, subject), MetaKind, repo, subject);
    assert Nested(Home(repo, subject), repo, subject);
    hide KeyOf, SubjectPrefix, HasPrefix, Nested, Home, IsDigest, ManifestKey, ReferrerKey;
    assert Collected(b, prefix, {}, [k], [EMPTY]);
    if Listing(b, prefix, out) {
      var keys, raw :| Collected(b, prefix, {}, keys, raw) && multiset(raw) == multiset(out);
      OnlyKey(b, k, prefix, keys, raw);
      assert |out| == |multiset(out)| == 1;
      assert out[0] in multiset(raw);
    }
  }

  lemma OnlyKey(b: Bucket, k: string, prefix: string, keys: seq<string>, raw: seq<Descriptor>)
    requires b.Keys == {k} && HasPrefix(k, prefix) && Collected(b, prefix, {}, keys, raw) && AsDescriptor(b[k]) == Some(EMPTY)
    ensures raw == [EMPTY]
  {
    hide HasPrefix;
    assert k in keys;
    assert keys[0] in b.Keys && keys[|keys| - 1] in b.Keys;
  }
}
