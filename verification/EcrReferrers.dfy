/**
 The referrer index of one repository. A manifest that names a subject has an
 index entry under that subject. A put writes the manifest and then its entry,
 a delete removes the entry and then the manifest, so a crash between the two
 never leaves an entry without its manifest.
 */
module EcrReferrers {
  import opened Wrappers
  import opened Sorting
  import opened Text

  datatype Descriptor = Descriptor(mediaType: string, digest: string, size: int, artifactType: string, annotations: map<string, string>)

  datatype Manifest = Manifest(digest: string, mediaType: string, size: int, pushedAt: int, children: seq<string>,
                               subject: string, artifactType: string, annotations: map<string, string>)

  /** What the bucket holds. A policy or lifecycle document carries what it decodes to when read as a descriptor. */
  datatype Value =
    | ManifestValue(manifest: Manifest)
    | ReferrerValue(descriptor: Descriptor)
    | RepoValue(name: string)
    | TagValue(digest: string)
    | DocumentValue(decoded: Option<Descriptor>)

  type Bucket = map<string, Value>

  function DescriptorOf(m: Manifest): Descriptor { Descriptor(m.mediaType, m.digest, m.size, m.artifactType, m.annotations) }

  // Keys.

  predicate IsHex(c: char) { '0' <= c <= '9' || 'a' <= c <= 'f' }

  predicate IsDigest(d: string) { |d| == 71 && d[..7] == "sha256:" && forall i :: 7 <= i < |d| ==> IsHex(d[i]) }

  function DigestToken(d: string): string { seq(|d|, i requires 0 <= i < |d| => if d[i] == ':' then '-' else d[i]) }

  function ManifestKey(repo: string, digest: string): string { "repos/" + repo + "/manifests/" + DigestToken(digest) }

  function ReferrersPrefix(repo: string): string { "repos/" + repo + "/referrers/" }

  function SubjectPrefix(repo: string, subject: string): string { ReferrersPrefix(repo) + DigestToken(subject) + "/" }

  function ReferrerKey(repo: string, subject: string, referrer: string): string {
    "repos/" + repo + "/referrers/" + DigestToken(subject) + "/" + DigestToken(referrer)
  }

  lemma TokenInjective(a: string, b: string)
    requires IsDigest(a) && IsDigest(b) && DigestToken(a) == DigestToken(b)
    ensures a == b
  {
    forall i | 7 <= i < 71 ensures a[i] == b[i] {
      assert DigestToken(a)[i] == a[i] && DigestToken(b)[i] == b[i];
    }
    assert a == a[..7] + a[7..] && b == b[..7] + b[7..];
  }

  lemma TokenPlain(d: string)
    requires IsDigest(d)
    ensures '/' !in DigestToken(d)
  {
    var t := DigestToken(d);
    forall i | 0 <= i < |t| ensures t[i] != '/' { if i < 7 { assert d[i] == d[..7][i]; } }
  }

  lemma ManifestKeyInjective(repo: string, a: string, b: string)
    requires IsDigest(a) && IsDigest(b) && ManifestKey(repo, a) == ManifestKey(repo, b)
    ensures a == b
  {
    var front := "repos/" + repo + "/manifests/";
    assert ManifestKey(repo, a)[|front|..] == DigestToken(a) && ManifestKey(repo, b)[|front|..] == DigestToken(b);
    TokenInjective(a, b);
  }

  lemma ReferrerKeyShape(repo: string, s: string, d: string)
    ensures ReferrerKey(repo, s, d) == ReferrersPrefix(repo) + (DigestToken(s) + "/" + DigestToken(d))
    ensures HasPrefix(ReferrerKey(repo, s, d), ReferrersPrefix(repo))
    ensures ReferrerKey(repo, s, d)[|ReferrersPrefix(repo)|..] == DigestToken(s) + "/" + DigestToken(d)
  {
  }

  lemma ReferrerKeyInjective(repo: string, s: string, d: string, s': string, d': string)
    requires IsDigest(s) && IsDigest(d) && IsDigest(s') && IsDigest(d') && ReferrerKey(repo, s, d) == ReferrerKey(repo, s', d')
    ensures s == s' && d == d'
  {
    ReferrerKeyShape(repo, s, d);
    ReferrerKeyShape(repo, s', d');
    TokenPlain(s);
    TokenPlain(s');
    FirstSeparator(DigestToken(s), DigestToken(d), DigestToken(s'), DigestToken(d'), '/');
    TokenInjective(s, s');
    TokenInjective(d, d');
  }

  /** The entries under a subject's prefix are that subject's entries. */
  lemma PrefixSelects(repo: string, s: string, d: string, subject: string)
    requires IsDigest(s) && IsDigest(d) && IsDigest(subject)
    ensures HasPrefix(ReferrerKey(repo, s, d), SubjectPrefix(repo, subject)) <==> s == subject
  {
    var front, k, p := ReferrersPrefix(repo), ReferrerKey(repo, s, d), SubjectPrefix(repo, subject);
    ReferrerKeyShape(repo, s, d);
    if s == subject {
      assert k == p + DigestToken(d);
    }
    if p <= k {
      assert k[|front|..|front| + 71] == DigestToken(s);
      assert p[|front|..|front| + 71] == DigestToken(subject);
      TokenInjective(s, subject);
    }
  }

  lemma ManifestKeyElsewhere(repo: string, d: string)
    ensures !HasPrefix(ManifestKey(repo, d), ReferrersPrefix(repo))
  {
    var n := |"repos/" + repo + "/"|;
    assert ManifestKey(repo, d)[n] == 'm';
    assert ReferrersPrefix(repo)[n] == 'r';
  }

  lemma SubjectPrefixInside(repo: string, subject: string, k: string)
    requires HasPrefix(k, SubjectPrefix(repo, subject))
    ensures HasPrefix(k, ReferrersPrefix(repo))
  {
    assert ReferrersPrefix(repo) <= SubjectPrefix(repo, subject);
  }

  // Operations, cut off after some number of writes.

  function PutAfter(repo: string, b: Bucket, m: Manifest, budget: nat): Bucket {
    if budget == 0 then b
    else
      var stored := b[ManifestKey(repo, m.digest) := ManifestValue(m)];
      if m.subject == "" || budget == 1 then stored
      else stored[ReferrerKey(repo, m.subject, m.digest) := ReferrerValue(DescriptorOf(m))]
  }

  function Stored(repo: string, b: Bucket, digest: string): Option<Manifest> {
    if ManifestKey(repo, digest) in b && b[ManifestKey(repo, digest)].ManifestValue?
    then Some(b[ManifestKey(repo, digest)].manifest) else None
  }

  function DeleteAfter(repo: string, b: Bucket, digest: string, budget: nat): Bucket {
    match Stored(repo, b, digest)
    case None => b
    case Some(m) =>
      if budget == 0 then b
      else if m.subject == "" then b - {ManifestKey(repo, digest)}
      else
        var unindexed := b - {ReferrerKey(repo, m.subject, digest)};
        if budget == 1 then unindexed else unindexed - {ManifestKey(repo, digest)}
  }

  const FULL: nat := 2

  // The index and the manifests.

  /** Manifest keys hold the manifests they name. */
  ghost predicate Tidy(repo: string, b: Bucket) {
    forall d :: IsDigest(d) && ManifestKey(repo, d) in b ==>
      Stored(repo, b, d).Some? && Stored(repo, b, d).value.digest == d && (Stored(repo, b, d).value.subject == "" || IsDigest(Stored(repo, b, d).value.subject))
  }

  /** Key `k` is the entry of the live manifest `d` under the subject it names. */
  ghost predicate Indexes(repo: string, b: Bucket, k: string, d: string) {
    && IsDigest(d) && k in b
    && Stored(repo, b, d).Some? && IsDigest(Stored(repo, b, d).value.subject)
    && k == ReferrerKey(repo, Stored(repo, b, d).value.subject, d)
    && b[k] == ReferrerValue(DescriptorOf(Stored(repo, b, d).value))
  }

  /** Key `k` is one that a listing of some subject would take for an entry. */
  ghost predicate Listed(repo: string, k: string) {
    exists s :: IsDigest(s) && HasPrefix(k, SubjectPrefix(repo, s))
  }

  /** Whatever a listing would take for an entry is the entry of a live manifest. */
  ghost predicate Sound(repo: string, b: Bucket) {
    forall k :: k in b && Listed(repo, k) ==> exists d :: Indexes(repo, b, k, d)
  }

  ghost predicate Indexed(repo: string, b: Bucket, d: string) {
    Stored(repo, b, d).Some? && Stored(repo, b, d).value.subject != "" ==> Indexes(repo, b, ReferrerKey(repo, Stored(repo, b, d).value.subject, d), d)
  }

  /** Every live manifest with a subject has its entry, except those of interrupted operations. */
  ghost predicate Complete(repo: string, b: Bucket, pending: set<string>) {
    forall d :: IsDigest(d) && d !in pending ==> Indexed(repo, b, d)
  }

  ghost predicate ValidManifest(m: Manifest) { IsDigest(m.digest) && (m.subject == "" || IsDigest(m.subject)) }

  /** A digest is sha256: and sixty-four lower-case hexadecimal digits. */
  lemma DigestMeaning(d: string)
    ensures IsDigest(d) <==> exists hex: string :: d == "sha256:" + hex && |hex| == 64 && forall i :: 0 <= i < 64 ==> hex[i] in "0123456789abcdef"
  {
    assert forall c: char :: IsHex(c) <==> c in "0123456789abcdef";
    if IsDigest(d) {
      var hex := d[7..];
      assert d == d[..7] + hex;
      assert forall i :: 0 <= i < 64 ==> hex[i] == d[7 + i];
    }
    if hex: string :| d == "sha256:" + hex && |hex| == 64 && forall i :: 0 <= i < 64 ==> hex[i] in "0123456789abcdef" {
      forall i | 7 <= i < |d| ensures IsHex(d[i]) { assert d[i] == hex[i - 7]; }
    }
  }

  /** A digest fixes its manifest's subject and descriptor while the manifest is live. */
  ghost predicate Agrees(repo: string, b: Bucket, m: Manifest) {
    Stored(repo, b, m.digest).Some? ==>
      Stored(repo, b, m.digest).value.subject == m.subject && DescriptorOf(Stored(repo, b, m.digest).value) == DescriptorOf(m)
  }

  /** Distinct digests do not share keys, and no manifest key is an entry's. */
  lemma KeysApart(repo: string, d: string, other: string)
    requires IsDigest(d) && IsDigest(other)
    ensures d != other ==> ManifestKey(repo, d) != ManifestKey(repo, other)
    ensures forall s :: ReferrerKey(repo, s, d) != ManifestKey(repo, other)
    ensures d != other ==> forall s, s' :: IsDigest(s) && IsDigest(s') ==> ReferrerKey(repo, s, d) != ReferrerKey(repo, s', other)
  {
    if ManifestKey(repo, d) == ManifestKey(repo, other) { ManifestKeyInjective(repo, d, other); }
    forall s ensures ReferrerKey(repo, s, d) != ManifestKey(repo, other) {
      ReferrerKeyShape(repo, s, d);
      ManifestKeyElsewhere(repo, other);
    }
    if d != other {
      forall s, s' | IsDigest(s) && IsDigest(s') ensures ReferrerKey(repo, s, d) != ReferrerKey(repo, s', other) {
        if ReferrerKey(repo, s, d) == ReferrerKey(repo, s', other) { ReferrerKeyInjective(repo, s, d, s', other); }
      }
    }
  }

  /** An operation on `d` may change only the manifest of `d` and its entry under `subject`. */
  ghost predicate Confined(repo: string, b: Bucket, after: Bucket, d: string, subject: string) {
    forall k :: k == ManifestKey(repo, d) || (subject != "" && k == ReferrerKey(repo, subject, d))
      || ((k in b <==> k in after) && (k in b ==> b[k] == after[k]))
  }

  lemma OtherStored(repo: string, b: Bucket, after: Bucket, d: string, subject: string, other: string)
    requires Confined(repo, b, after, d, subject) && IsDigest(d) && IsDigest(other) && other != d
    ensures Stored(repo, after, other) == Stored(repo, b, other)
    ensures ManifestKey(repo, other) in b <==> ManifestKey(repo, other) in after
  {
    hide ManifestKey, ReferrerKey, IsDigest;
    KeysApart(repo, d, other);
  }

  lemma OtherIndexes(repo: string, b: Bucket, after: Bucket, d: string, subject: string, k: string, other: string)
    requires Confined(repo, b, after, d, subject) && IsDigest(d) && other != d && (subject == "" || IsDigest(subject))
    requires Indexes(repo, b, k, other)
    ensures Indexes(repo, after, k, other)
  {
    OtherStored(repo, b, after, d, subject, other);
    hide ManifestKey, ReferrerKey, IsDigest;
    KeysApart(repo, d, other);
    KeysApart(repo, other, d);
  }

  lemma OtherIndexed(repo: string, b: Bucket, after: Bucket, d: string, subject: string, other: string)
    requires Confined(repo, b, after, d, subject) && IsDigest(d) && IsDigest(other) && other != d && (subject == "" || IsDigest(subject))
    requires Indexed(repo, b, other)
    ensures Indexed(repo, after, other)
  {
    OtherStored(repo, b, after, d, subject, other);
    hide Stored;
    if Stored(repo, after, other).Some? && Stored(repo, after, other).value.subject != "" {
      OtherIndexes(repo, b, after, d, subject, ReferrerKey(repo, Stored(repo, b, other).value.subject, other), other);
    }
  }

  /** What an operation must do to its own manifest and entry to keep the index. */
  ghost predicate OwnKept(repo: string, after: Bucket, d: string, subject: string) {
    && (ManifestKey(repo, d) in after ==> Stored(repo, after, d).Some? && Stored(repo, after, d).value.digest == d
                                          && Stored(repo, after, d).value.subject == subject)
    && (subject != "" && ReferrerKey(repo, subject, d) in after ==> Indexes(repo, after, ReferrerKey(repo, subject, d), d))
  }

  lemma StepTidy(repo: string, b: Bucket, after: Bucket, d: string, subject: string)
    requires Tidy(repo, b) && Confined(repo, b, after, d, subject) && OwnKept(repo, after, d, subject)
    requires IsDigest(d) && (subject == "" || IsDigest(subject))
    ensures Tidy(repo, after)
  {
    hide Stored, ManifestKey, IsDigest, Confined;
    forall o | IsDigest(o) && ManifestKey(repo, o) in after
      ensures Stored(repo, after, o).Some? && Stored(repo, after, o).value.digest == o
              && (Stored(repo, after, o).value.subject == "" || IsDigest(Stored(repo, after, o).value.subject))
    {
      if o != d { OtherStored(repo, b, after, d, subject, o); }
    }
  }

  lemma NoEmptyDigest()
    ensures !IsDigest("")
  {
  }

  lemma ManifestUnlisted(repo: string, d: string)
    ensures !Listed(repo, ManifestKey(repo, d))
  {
    ManifestKeyElsewhere(repo, d);
    forall s ensures !HasPrefix(ManifestKey(repo, d), SubjectPrefix(repo, s)) {
      if HasPrefix(ManifestKey(repo, d), SubjectPrefix(repo, s)) { SubjectPrefixInside(repo, s, ManifestKey(repo, d)); }
    }
  }

  lemma StepSound(repo: string, b: Bucket, after: Bucket, d: string, subject: string)
    requires Sound(repo, b) && Confined(repo, b, after, d, subject) && OwnKept(repo, after, d, subject)
    requires IsDigest(d) && (subject == "" || IsDigest(subject))
    requires Stored(repo, b, d).Some? ==> Stored(repo, b, d).value.subject in {"", subject}
    ensures Sound(repo, after)
  {
    forall k | k in after && Listed(repo, k) ensures exists o :: Indexes(repo, after, k, o) {
      ManifestUnlisted(repo, d);
      if subject != "" && k == ReferrerKey(repo, subject, d) {
        assert Indexes(repo, after, k, d);
      } else {
        hide ManifestKey, ReferrerKey, IsDigest, Listed;
        assert k in b;
        var o :| Indexes(repo, b, k, o);
        assert !IsDigest("") by { NoEmptyDigest(); }
        if o != d {
          OtherIndexes(repo, b, after, d, subject, k, o);
          assert Indexes(repo, after, k, o);
        }
      }
    }
  }

  lemma StepComplete(repo: string, b: Bucket, after: Bucket, d: string, subject: string, pending: set<string>)
    requires Complete(repo, b, pending) && Confined(repo, b, after, d, subject)
    requires IsDigest(d) && (subject == "" || IsDigest(subject))
    ensures Complete(repo, after, pending + {d})
    ensures Indexed(repo, after, d) ==> Complete(repo, after, pending - {d})
  {
    hide Indexed, IsDigest, Confined;
    forall o | IsDigest(o) && o !in pending && o != d ensures Indexed(repo, after, o) {
      OtherIndexed(repo, b, after, d, subject, o);
    }
  }

  // Puts and deletes.

  lemma PutStep(repo: string, b: Bucket, m: Manifest, budget: nat)
    requires Tidy(repo, b) && Sound(repo, b) && ValidManifest(m) && Agrees(repo, b, m)
    ensures Tidy(repo, PutAfter(repo, b, m, budget)) && Sound(repo, PutAfter(repo, b, m, budget))
    ensures Confined(repo, b, PutAfter(repo, b, m, budget), m.digest, m.subject)
    ensures budget >= FULL ==> Indexed(repo, PutAfter(repo, b, m, budget), m.digest)
  {
    var after := PutAfter(repo, b, m, budget);
    if budget > 0 {
      PutOwn(repo, b, m, budget);
      StepTidy(repo, b, after, m.digest, m.subject);
      StepSound(repo, b, after, m.digest, m.subject);
    }
  }

  lemma PutOwn(repo: string, b: Bucket, m: Manifest, budget: nat)
    requires Sound(repo, b) && ValidManifest(m) && Agrees(repo, b, m) && budget > 0
    ensures Confined(repo, b, PutAfter(repo, b, m, budget), m.digest, m.subject)
    ensures OwnKept(repo, PutAfter(repo, b, m, budget), m.digest, m.subject)
    ensures Stored(repo, PutAfter(repo, b, m, budget), m.digest) == Some(m)
    ensures budget >= FULL ==> Indexed(repo, PutAfter(repo, b, m, budget), m.digest)
  {
    var after, d, entry := PutAfter(repo, b, m, budget), m.digest, ReferrerKey(repo, m.subject, m.digest);
    KeysApart(repo, d, d);
    assert Stored(repo, after, d) == Some(m);
    if m.subject != "" && entry in after {
      if entry in b { EntryOwner(repo, b, m.subject, d); }
      assert Indexes(repo, after, entry, d);
    }
  }

  /** In a sound index, the entry of a digest under a subject is that of its live manifest. */
  lemma EntryOwner(repo: string, b: Bucket, subject: string, d: string)
    requires Sound(repo, b) && IsDigest(subject) && IsDigest(d) && ReferrerKey(repo, subject, d) in b
    ensures Indexes(repo, b, ReferrerKey(repo, subject, d), d) && Stored(repo, b, d).value.subject == subject
  {
    var k := ReferrerKey(repo, subject, d);
    PrefixSelects(repo, subject, d, subject);
    hide ReferrerKey, IsDigest, ManifestKey, SubjectPrefix, HasPrefix;
    assert Listed(repo, k);
    var o :| Indexes(repo, b, k, o);
    ReferrerKeyInjective(repo, subject, d, Stored(repo, b, o).value.subject, o);
  }

  lemma DeleteStep(repo: string, b: Bucket, d: string, budget: nat)
    requires Tidy(repo, b) && Sound(repo, b) && IsDigest(d)
    ensures Tidy(repo, DeleteAfter(repo, b, d, budget)) && Sound(repo, DeleteAfter(repo, b, d, budget))
    ensures Stored(repo, b, d).Some? ==> Confined(repo, b, DeleteAfter(repo, b, d, budget), d, Stored(repo, b, d).value.subject)
    ensures Stored(repo, b, d).None? ==> DeleteAfter(repo, b, d, budget) == b
    ensures budget >= FULL ==> Indexed(repo, DeleteAfter(repo, b, d, budget), d)
  {
    if Stored(repo, b, d).Some? {
      var subject, after := Stored(repo, b, d).value.subject, DeleteAfter(repo, b, d, budget);
      DeleteOwn(repo, b, d, budget);
      StepTidy(repo, b, after, d, subject);
      StepSound(repo, b, after, d, subject);
    }
  }

  lemma DeleteOwn(repo: string, b: Bucket, d: string, budget: nat)
    requires Tidy(repo, b) && Sound(repo, b) && IsDigest(d) && Stored(repo, b, d).Some?
    ensures IsDigest(Stored(repo, b, d).value.subject) || Stored(repo, b, d).value.subject == ""
    ensures Confined(repo, b, DeleteAfter(repo, b, d, budget), d, Stored(repo, b, d).value.subject)
    ensures OwnKept(repo, DeleteAfter(repo, b, d, budget), d, Stored(repo, b, d).value.subject)
    ensures budget >= FULL ==> Stored(repo, DeleteAfter(repo, b, d, budget), d).None?
  {
    var subject, after := Stored(repo, b, d).value.subject, DeleteAfter(repo, b, d, budget);
    assert ManifestKey(repo, d) in b;
    KeysApart(repo, d, d);
    hide ManifestKey, ReferrerKey, IsDigest;
    if subject != "" && ReferrerKey(repo, subject, d) in after { EntryOwner(repo, b, subject, d); }
  }

  /**
   Replacing a live manifest in full keeps the index sound exactly when the
   replacement names the same subject or the old one named none.
   */
  lemma SubjectFixed(repo: string, b: Bucket, m: Manifest)
    requires Tidy(repo, b) && Sound(repo, b) && Complete(repo, b, {}) && ValidManifest(m) && Stored(repo, b, m.digest).Some?
    ensures Sound(repo, PutAfter(repo, b, m, FULL)) <==> Stored(repo, b, m.digest).value.subject in {"", m.subject}
  {
    var after, d, old_ := PutAfter(repo, b, m, FULL), m.digest, Stored(repo, b, m.digest).value.subject;
    KeysApart(repo, d, d);
    assert Stored(repo, after, d) == Some(m);
    if old_ in {"", m.subject} {
      ReplacedOwn(repo, b, m);
      StepSound(repo, b, after, d, m.subject);
    } else {
      hide IsDigest, ManifestKey, DigestToken;
      assert ManifestKey(repo, d) in b && Indexed(repo, b, d);
      assert ReferrerKey(repo, old_, d) in after;
      if Sound(repo, after) { EntryOwner(repo, after, old_, d); }
    }
  }

  lemma ReplacedOwn(repo: string, b: Bucket, m: Manifest)
    requires ValidManifest(m)
    ensures Confined(repo, b, PutAfter(repo, b, m, FULL), m.digest, m.subject)
    ensures OwnKept(repo, PutAfter(repo, b, m, FULL), m.digest, m.subject)
  {
    KeysApart(repo, m.digest, m.digest);
    assert Stored(repo, PutAfter(repo, b, m, FULL), m.digest) == Some(m);
  }

  // Runs with crashes.

  datatype Op = Put(manifest: Manifest, budget: nat) | Delete(digest: string, budget: nat)

  function DigestOf(op: Op): string { match op case Put(m, _) => m.digest case Delete(d, _) => d }

  function Apply(repo: string, b: Bucket, op: Op): Bucket {
    match op case Put(m, n) => PutAfter(repo, b, m, n) case Delete(d, n) => DeleteAfter(repo, b, d, n)
  }

  ghost predicate Allowed(repo: string, b: Bucket, op: Op) {
    match op case Put(m, _) => ValidManifest(m) && Agrees(repo, b, m) case Delete(d, _) => IsDigest(d)
  }

  function Run(repo: string, b: Bucket, ops: seq<Op>): Bucket {
    if ops == [] then b else Apply(repo, Run(repo, b, ops[..|ops| - 1]), ops[|ops| - 1])
  }

  ghost predicate AllAllowed(repo: string, b: Bucket, ops: seq<Op>) {
    forall i :: 0 <= i < |ops| ==> Allowed(repo, Run(repo, b, ops[..i]), ops[i])
  }

  /** The digests whose last operation was cut short. */
  function Pending(ops: seq<Op>): set<string> {
    if ops == [] then {}
    else
      var before, op := Pending(ops[..|ops| - 1]), ops[|ops| - 1];
      if op.budget >= FULL then before - {DigestOf(op)} else before + {DigestOf(op)}
  }

  /** Operation `i` is the last one on its digest, and was cut short. */
  ghost predicate CutLast(ops: seq<Op>, i: nat) {
    && i < |ops| && ops[i].budget < 2
    && forall j :: i < j < |ops| ==> DigestOf(ops[j]) != DigestOf(ops[i])
  }

  /** The digests left out are those whose last operation was cut off before its second write. */
  lemma {:induction false} PendingMeaning(ops: seq<Op>, d: string)
    ensures d in Pending(ops) <==> exists i: nat :: CutLast(ops, i) && DigestOf(ops[i]) == d
  {
    if ops != [] {
      var front, last := ops[..|ops| - 1], |ops| - 1;
      PendingMeaning(front, d);
      assert forall i :: 0 <= i < last ==> front[i] == ops[i];
      if DigestOf(ops[last]) == d {
        assert CutLast(ops, last) <==> ops[last].budget < 2;
      } else {
        forall i: nat | i < last && DigestOf(ops[i]) == d ensures CutLast(front, i) <==> CutLast(ops, i) {
          assert forall j :: i < j < |ops| ==> j == last || ops[j] == front[j];
        }
      }
    }
  }

  ghost predicate IndexInv(repo: string, b: Bucket, pending: set<string>) {
    Tidy(repo, b) && Sound(repo, b) && Complete(repo, b, pending)
  }

  lemma OpKeepsIndex(repo: string, b: Bucket, op: Op, pending: set<string>)
    requires IndexInv(repo, b, pending) && Allowed(repo, b, op)
    ensures IndexInv(repo, Apply(repo, b, op), if op.budget >= FULL then pending - {DigestOf(op)} else pending + {DigestOf(op)})
  {
    hide Tidy, Sound, Complete, Stored, IsDigest, PutAfter, DeleteAfter, Confined, Indexed;
    match op
    case Put(m, n) =>
      PutStep(repo, b, m, n);
      StepComplete(repo, b, PutAfter(repo, b, m, n), m.digest, m.subject, pending);
    case Delete(d, n) =>
      DeleteStep(repo, b, d, n);
      if Stored(repo, b, d).Some? {
        DeleteOwn(repo, b, d, n);
        StepComplete(repo, b, DeleteAfter(repo, b, d, n), d, Stored(repo, b, d).value.subject, pending);
      } else {
        AbsentComplete(repo, b, d, pending);
      }
  }

  lemma AbsentComplete(repo: string, b: Bucket, d: string, pending: set<string>)
    requires Complete(repo, b, pending) && Stored(repo, b, d).None?
    ensures Complete(repo, b, pending - {d}) && Complete(repo, b, pending + {d})
  {
    hide IsDigest, Indexes;
  }

  /**
   Under any sequence of puts and deletes, each cut off after any number of
   writes, every entry has a live manifest naming its subject, and every live
   manifest has its entry unless its last operation was cut short.
   */
  lemma {:induction false} RunKeepsIndex(repo: string, b: Bucket, ops: seq<Op>)
    requires IndexInv(repo, b, {}) && AllAllowed(repo, b, ops)
    ensures IndexInv(repo, Run(repo, b, ops), Pending(ops))
  {
    hide IndexInv, Allowed, Apply;
    if ops != [] {
      var front := ops[..|ops| - 1];
      forall i | 0 <= i < |front| ensures Allowed(repo, Run(repo, b, front[..i]), front[i]) {
        assert ops[..i] == front[..i];
        assert Allowed(repo, Run(repo, b, ops[..i]), ops[i]);
      }
      RunKeepsIndex(repo, b, front);
      OpKeepsIndex(repo, Run(repo, b, front), ops[|ops| - 1], Pending(front));
    }
  }

  /** Running an interrupted operation again ends where running it through once would have. */
  lemma RerunRestores(repo: string, b: Bucket, op: Op)
    requires Allowed(repo, b, op)
    ensures Apply(repo, Apply(repo, b, op), op.(budget := 2)) == Apply(repo, b, op.(budget := 2))
  {
    hide IsDigest;
    match op
    case Put(m, n) =>
    case Delete(d, n) =>
      KeysApart(repo, d, d);
      hide ManifestKey, ReferrerKey;
      assert ManifestKey(repo, d) in {ManifestKey(repo, d)};
  }

  // Listing.

  predicate DigestLess(a: Descriptor, b: Descriptor) { StringLess(a.digest, b.digest) }

  const EMPTY := Descriptor("", "", 0, "", map[])

  /** A stored value read as a descriptor: unknown fields are ignored, a tag is no JSON at all. */
  function AsDescriptor(v: Value): Option<Descriptor> {
    match v
    case ManifestValue(m) => Some(DescriptorOf(m))
    case ReferrerValue(d) => Some(d)
    case RepoValue(_) => Some(EMPTY)
    case TagValue(_) => None
    case DocumentValue(d) => d
  }

  /** `out` holds one descriptor per key of `keys`, which are distinct and all of those under `prefix`. */
  ghost predicate Collected(b: Bucket, prefix: string, todo: set<string>, keys: seq<string>, out: seq<Descriptor>) {
    && |keys| == |out|
    && (forall i :: 0 <= i < |keys| ==> keys[i] in b && HasPrefix(keys[i], prefix) && AsDescriptor(b[keys[i]]) == Some(out[i]))
    && (forall i, j :: 0 <= i < j < |keys| ==> keys[i] != keys[j])
    && (forall k :: k in b && k !in todo && HasPrefix(k, prefix) ==> k in keys)
    && (forall k :: k in keys ==> k !in todo)
  }

  /** `out` holds what every key under `prefix` decodes to, once per key, by digest. */
  ghost predicate Listing(b: Bucket, prefix: string, out: seq<Descriptor>) {
    && (forall i, j :: 0 <= i < j < |out| ==> !StringLess(out[j].digest, out[i].digest))
    && exists keys, raw :: Collected(b, prefix, {}, keys, raw) && multiset(raw) == multiset(out)
  }

  /** Some key under `prefix` does not decode. */
  ghost predicate Unreadable(b: Bucket, prefix: string) {
    exists k :: k in b && HasPrefix(k, prefix) && AsDescriptor(b[k]).None?
  }

  /** `out` lists exactly the descriptors indexed under `subject`, by digest. */
  ghost predicate Lists(repo: string, b: Bucket, subject: string, out: seq<Descriptor>) {
    && (forall i, j :: 0 <= i < j < |out| ==> StringLess(out[i].digest, out[j].digest))
    && forall x :: x in out <==> exists d :: Indexes(repo, b, ReferrerKey(repo, subject, d), d) && x == DescriptorOf(Stored(repo, b, d).value)
  }

  class MetaStore {
    const repo: string
    var bucket: Bucket

    constructor (repo: string, bucket: Bucket)
      ensures this.repo == repo && this.bucket == bucket
    {
      this.repo, this.bucket := repo, bucket;
    }

    /** Stores the manifest and then its entry; `budget` writes succeed before a crash. */
    method PutManifestMeta(m: Manifest, budget: nat) returns (done: bool)
      modifies this
      ensures bucket == PutAfter(repo, old(bucket), m, budget)
      ensures done <==> budget >= (if m.subject == "" then 1 else 2)
    {
      if budget == 0 { return false; }
      bucket := bucket[ManifestKey(repo, m.digest) := ManifestValue(m)];
      if m.subject == "" { return true; }
      if budget == 1 { return false; }
      bucket := bucket[ReferrerKey(repo, m.subject, m.digest) := ReferrerValue(DescriptorOf(m))];
      return true;
    }

    /** Removes the entry and then the manifest; false for an unknown manifest or a crash. */
    method DeleteManifestMeta(digest: string, budget: nat) returns (done: bool)
      modifies this
      ensures bucket == DeleteAfter(repo, old(bucket), digest, budget)
      ensures done <==> Stored(repo, old(bucket), digest).Some? && budget >= (if Stored(repo, old(bucket), digest).value.subject == "" then 1 else 2)
    {
      var key := ManifestKey(repo, digest);
      if key !in bucket || !bucket[key].ManifestValue? { return false; }
      var m, left := bucket[key].manifest, budget;
      if left == 0 { return false; }
      if m.subject != "" {
        bucket := bucket - {ReferrerKey(repo, m.subject, digest)};
        left := left - 1;
        if left == 0 { return false; }
      }
      bucket := bucket - {key};
      return true;
    }

    /** What lies under the subject's prefix, by digest; None when something there cannot be decoded. */
    method ListReferrers(subject: string) returns (r: Option<seq<Descriptor>>)
      ensures r.None? <==> Unreadable(bucket, SubjectPrefix(repo, subject))
      ensures r.Some? ==> Listing(bucket, SubjectPrefix(repo, subject), r.value)
      ensures Tidy(repo, bucket) && Sound(repo, bucket) && IsDigest(subject) ==> r.Some? && Lists(repo, bucket, subject, r.value)
    {
      hide Tidy, Sound, IsDigest, SubjectPrefix, HasPrefix, Lists;
      var prefix := SubjectPrefix(repo, subject);
      var out: seq<Descriptor>, todo := [], bucket.Keys;
      ghost var keys: seq<string> := [];
      while todo != {}
        invariant todo <= bucket.Keys && Collected(bucket, prefix, todo, keys, out)
        decreases |todo|
      {
        var k :| k in todo;
        todo := todo - {k};
        if HasPrefix(k, prefix) {
          var d := AsDescriptor(bucket[k]);
          if d.None? {
            if Sound(repo, bucket) && IsDigest(subject) { EntryDecodes(repo, bucket, subject, k); }
            return None;
          }
          out, keys := out + [d.value], keys + [k];
        }
      }
      r := Some(Sort(DigestLess, out));
      CollectedReadable(bucket, prefix, keys, out);
      CollectedListing(bucket, prefix, keys, out);
      if Tidy(repo, bucket) && Sound(repo, bucket) && IsDigest(subject) { CollectedLists(repo, bucket, subject, keys, out); }
    }
  }

  lemma CollectedReadable(b: Bucket, prefix: string, keys: seq<string>, out: seq<Descriptor>)
    requires Collected(b, prefix, {}, keys, out)
    ensures !Unreadable(b, prefix)
  {
    forall k | k in b && HasPrefix(k, prefix) ensures AsDescriptor(b[k]).Some? {
      assert k in keys;
      var i :| 0 <= i < |keys| && keys[i] == k;
    }
  }

  lemma CollectedListing(b: Bucket, prefix: string, keys: seq<string>, out: seq<Descriptor>)
    requires Collected(b, prefix, {}, keys, out)
    ensures Listing(b, prefix, Sort(DigestLess, out))
  {
    hide Collected, Sort;
    DigestLessStrict();
    SortSorted(DigestLess, out);
  }

  lemma PrefixEntry(repo: string, b: Bucket, subject: string, k: string) returns (d: string)
    requires Sound(repo, b) && IsDigest(subject) && k in b && HasPrefix(k, SubjectPrefix(repo, subject))
    ensures Indexes(repo, b, k, d) && k == ReferrerKey(repo, subject, d)
  {
    assert Listed(repo, k);
    hide IsDigest, ManifestKey, Listed;
    d :| Indexes(repo, b, k, d);
    PrefixSelects(repo, Stored(repo, b, d).value.subject, d, subject);
  }

  lemma EntryDecodes(repo: string, b: Bucket, subject: string, k: string)
    requires Sound(repo, b) && IsDigest(subject) && k in b && HasPrefix(k, SubjectPrefix(repo, subject))
    ensures AsDescriptor(b[k]).Some?
  {
    hide IsDigest, HasPrefix, SubjectPrefix;
    var d := PrefixEntry(repo, b, subject, k);
  }

  lemma DigestLessStrict()
    ensures StrictWeak(DigestLess)
  {
    StringLessStrict();
  }

  lemma CollectedLists(repo: string, b: Bucket, subject: string, keys: seq<string>, out: seq<Descriptor>)
    requires Tidy(repo, b) && Sound(repo, b) && IsDigest(subject) && Collected(b, SubjectPrefix(repo, subject), {}, keys, out)
    ensures Lists(repo, b, subject, Sort(DigestLess, out))
  {
    hide Tidy, Sound, IsDigest, ReferrerKey, ManifestKey, SubjectPrefix, HasPrefix, Sort, StringLess;
    var sorted := Sort(DigestLess, out);
    forall i, j | 0 <= i < j < |out| ensures out[i].digest != out[j].digest { CollectedDistinct(repo, b, subject, keys, out, i, j); }
    DistinctKept(out, sorted, (x: Descriptor) => x.digest);
    DigestLessStrict();
    SortSorted(DigestLess, out);
    forall i, j | 0 <= i < j < |sorted| ensures DigestLess(sorted[i], sorted[j]) { StringLessTotal(sorted[i].digest, sorted[j].digest); }
    MultisetMember(sorted, out);
    forall x ensures x in sorted <==> exists d :: Indexes(repo, b, ReferrerKey(repo, subject, d), d) && x == DescriptorOf(Stored(repo, b, d).value) {
      CollectedMember(repo, b, subject, keys, out, x);
    }
  }

  lemma CollectedDistinct(repo: string, b: Bucket, subject: string, keys: seq<string>, out: seq<Descriptor>, i: nat, j: nat)
    requires Tidy(repo, b) && Sound(repo, b) && IsDigest(subject) && Collected(b, SubjectPrefix(repo, subject), {}, keys, out) && i < j < |out|
    ensures out[i].digest != out[j].digest
  {
    hide IsDigest, ReferrerKey, SubjectPrefix, HasPrefix, Sound;
    var d := PrefixEntry(repo, b, subject, keys[i]);
    var e := PrefixEntry(repo, b, subject, keys[j]);
    assert Stored(repo, b, d).value.digest == d && Stored(repo, b, e).value.digest == e;
  }

  lemma CollectedMember(repo: string, b: Bucket, subject: string, keys: seq<string>, out: seq<Descriptor>, x: Descriptor)
    requires Sound(repo, b) && IsDigest(subject) && Collected(b, SubjectPrefix(repo, subject), {}, keys, out)
    ensures x in out <==> exists d :: Indexes(repo, b, ReferrerKey(repo, subject, d), d) && x == DescriptorOf(Stored(repo, b, d).value)
  {
    hide IsDigest, SubjectPrefix, HasPrefix, Sound, ManifestKey, ReferrerKey;
    if x in out {
      var i :| 0 <= i < |out| && out[i] == x;
      var d := PrefixEntry(repo, b, subject, keys[i]);
      assert Indexes(repo, b, ReferrerKey(repo, subject, d), d);
    }
    if d :| Indexes(repo, b, ReferrerKey(repo, subject, d), d) && x == DescriptorOf(Stored(repo, b, d).value) {
      EntryOwner(repo, b, subject, d);
      PrefixSelects(repo, subject, d, subject);
      assert ReferrerKey(repo, subject, d) in keys;
      var i :| 0 <= i < |keys| && keys[i] == ReferrerKey(repo, subject, d);
      assert out[i] == x;
    }
  }

  /** The descriptor carries the manifest's own digest, media type, size, artifact type and annotations. */
  ghost predicate Describes(x: Descriptor, m: Manifest) {
    x.digest == m.digest && x.mediaType == m.mediaType && x.size == m.size && x.artifactType == m.artifactType && x.annotations == m.annotations
  }

  /** With no interrupted operation outstanding, a listing is a scan of the manifests that name the subject. */
  lemma ListingIsScan(repo: string, b: Bucket, subject: string, out: seq<Descriptor>, x: Descriptor)
    requires IndexInv(repo, b, {}) && IsDigest(subject) && Lists(repo, b, subject, out)
    ensures x in out <==> exists d :: IsDigest(d) && Stored(repo, b, d).Some? && Stored(repo, b, d).value.subject == subject
                                      && Describes(x, Stored(repo, b, d).value)
  {
    hide Tidy, Sound, ManifestKey, ReferrerKey, IsDigest;
    assert !IsDigest("") by { NoEmptyDigest(); }
    if x in out {
      var d :| Indexes(repo, b, ReferrerKey(repo, subject, d), d) && x == DescriptorOf(Stored(repo, b, d).value);
      EntryOwner(repo, b, subject, d);
    }
    if d :| IsDigest(d) && Stored(repo, b, d).Some? && Stored(repo, b, d).value.subject == subject && Describes(x, Stored(repo, b, d).value) {
      assert Indexed(repo, b, d);
      assert Indexes(repo, b, ReferrerKey(repo, subject, d), d);
    }
  }

  /** The same, by the digest an entry carries. */
  lemma DescribedOnce(repo: string, b: Bucket, subject: string, out: seq<Descriptor>, x: Descriptor)
    requires IndexInv(repo, b, {}) && IsDigest(subject) && Lists(repo, b, subject, out)
    ensures x in out <==> IsDigest(x.digest) && Stored(repo, b, x.digest).Some? && Stored(repo, b, x.digest).value.subject == subject
                          && Describes(x, Stored(repo, b, x.digest).value)
  {
    hide Sound, Complete, IsDigest, Lists, Stored;
    ListingIsScan(repo, b, subject, out, x);
    if d :| IsDigest(d) && Stored(repo, b, d).Some? && Stored(repo, b, d).value.subject == subject && Describes(x, Stored(repo, b, d).value) {
      StoredDigest(repo, b, d);
    }
  }

  lemma StoredDigest(repo: string, b: Bucket, d: string)
    requires Tidy(repo, b) && IsDigest(d) && Stored(repo, b, d).Some?
    ensures Stored(repo, b, d).value.digest == d
  {
    hide IsDigest;
    assert ManifestKey(repo, d) in b;
  }

  /** A put that runs through adds its own entry to the listing of its subject, and changes nothing else in any listing. */
  lemma PutListed(repo: string, b: Bucket, m: Manifest, subject: string, before: seq<Descriptor>, after: seq<Descriptor>, x: Descriptor)
    requires IndexInv(repo, b, {}) && Allowed(repo, b, Put(m, 2)) && IsDigest(subject)
    requires Lists(repo, b, subject, before) && Lists(repo, PutAfter(repo, b, m, 2), subject, after)
    ensures x in after <==> (Describes(x, m) && m.subject == subject) || (x in before && x.digest != m.digest)
  {
    hide Tidy, Sound, Complete, IsDigest, Lists, Stored, PutAfter, Confined, Indexed;
    var next := PutAfter(repo, b, m, 2);
    OpKeepsIndex(repo, b, Put(m, 2), {});
    assert IndexInv(repo, next, {}) by { assert {} - {m.digest} == {}; }
    DescribedOnce(repo, b, subject, before, x);
    DescribedOnce(repo, next, subject, after, x);
    PutOwn(repo, b, m, 2);
    if x.digest != m.digest {
      if IsDigest(x.digest) { OtherStored(repo, b, next, m.digest, m.subject, x.digest); }
    }
  }

  /** A delete that runs through takes its own entry out of every listing, and nothing else. */
  lemma DeleteListed(repo: string, b: Bucket, d: string, subject: string, before: seq<Descriptor>, after: seq<Descriptor>, x: Descriptor)
    requires IndexInv(repo, b, {}) && Allowed(repo, b, Delete(d, 2)) && IsDigest(subject)
    requires Lists(repo, b, subject, before) && Lists(repo, DeleteAfter(repo, b, d, 2), subject, after)
    ensures x in after <==> x in before && x.digest != d
  {
    hide Tidy, Sound, Complete, IsDigest, Lists, Stored, DeleteAfter, Confined, Describes, Indexed;
    var next := DeleteAfter(repo, b, d, 2);
    OpKeepsIndex(repo, b, Delete(d, 2), {});
    assert IndexInv(repo, next, {}) by { assert {} - {d} == {}; }
    DescribedOnce(repo, b, subject, before, x);
    DescribedOnce(repo, next, subject, after, x);
    DeleteStep(repo, b, d, 2);
    if Stored(repo, b, d).Some? {
      DeleteOwn(repo, b, d, 2);
      if x.digest != d && IsDigest(x.digest) { OtherStored(repo, b, next, d, Stored(repo, b, d).value.subject, x.digest); }
    }
  }
}
