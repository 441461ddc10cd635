# Spinifex: a verified model of its converging and protocol code

This project models, in Dafny 4.11, seven parts of Spinifex whose correctness
rests on more than one function, and proves what each promises.

- **DNS zone convergence** (`Dns*`). The elected node upserts the desired
  records and deletes stale ones, zone by zone. A pass leaves every desired
  RRset with exactly its desired values, removes only stale records of classes
  it has authority over in zones it read, leaves everything else as it was, and
  reaches a fixpoint.
- **DNS referral walk** (`DnsReferral`). Following referrals down from the
  roots, as in section 5.3.3 of RFC 1034, against servers that answer anything.
- **ACM certificates** (`AcmStore`, `AcmProtocol`, `AcmRenewal`). Leases, users
  and tags on one revisioned record, with reads and compare-and-sets of all
  nodes interleaved; and the renewal worker's schedule.
- **ECR** (`EcrLifecycle`, `EcrReferrers`, `EcrKeys`, `EcrAccount`). The
  lifecycle engine against a declarative meaning, and the referrer index under
  crashes and beside the account's other repositories.
- **AWS model tools** (`Aws*`). The pattern sampler, the request generator
  against the validator, and XML encoding against decoding.
- **cpio archives** (`CpioArchive`). The newc parser and what acceptance of an
  archive means, byte for byte.
- **ELB agent** (`ElbAgent`). The poll loop whose order of writes keeps every
  certificate in use on disk through any failure.

`Wrappers`, `Sorting`, `Filtering`, `Text` and `Paths` hold shared definitions.
Code the source writes as expressions is functions here; code it writes as
loops and updates is methods and classes, each proved equal to a function or to
a stated property. `dafny verify dfyconfig.toml` checks everything.

## What the code does that its comments do not say

- The service-endpoint zone is pruned on zone identity alone, so its apex can be
  deleted, although a comment says no apex is (`DnsNaming.ApexPrunable`).
- A missing or corrupt zone is written exactly when it is named by the desired
  set and its seed does not hold that set already (`DnsPass.PassRebuilds`). A
  pruned zone so rebuilt from a seed with prunable records, and no other, is
  rewritten by the next pass (`DnsPass.SecondPassRewrites`); a missing zone whose
  seed holds the glue of a nameserver no longer wanted is one
  (`DnsPass.TwoPassesNeeded`).
- A renewal's write is not guarded by a revision and can drop a user added since
  it read the record (`AcmProtocol.RenewalLosesUpdate`). A run keeps every update
  exactly when each renewal's write finds users and tags as the renewal read them
  (`AcmProtocol.UpdatesKeptExactly`).
- Replacing a live manifest by one that names another subject leaves a stale
  index entry (`EcrReferrers.SubjectFixed`).
- A repository may be named like the place of another one's index entries, or
  below it. Its records then lie under the other's prefix
  (`EcrKeys.KeysUnderPrefix`), any write of one breaks the other's index, while
  records of repositories not so named, tags with a slash aside, never do
  (`EcrAccount.ForeignWrite`); from its creation on it adds a descriptor to the
  other's listing (`EcrAccount.FreshNestedListing`).
- A tag called `meta`, `policy` or `lifecycle` shares its key with the record of
  that kind of the repository named like the tag's folder (`EcrKeys.SharedKey`).
- The XML decoder reads a flattened shape as flattened even under a reference that
  is not, and the encoder does not write it so; such a list comes back as one item
  (`AwsXml.FlatMismatch`).
- The referral limit cannot be met for a name of at most sixteen labels, and can
  be for every longer one (`DnsReferral.LimitReachable`).
- A heartbeat can follow a stop that arrives while its own tick is under way,
  and in no other case (`ElbAgent.Agent.Tick`).

## Model

| member | source | states |
|---|---|---|
| DnsNaming.LabelRoundTrip | spinifex/domains/dns/naming.go:223-234 | For a plain zone, turning a label into a name and back gives the label exactly when the label is canonical. |
| DnsNaming.NameRoundTrip | spinifex/domains/dns/reconcile.go:396-403 | For a lower-case zone name without a trailing dot, turning a name into a label and back gives the name exactly when the name is canonical and in the zone. |
| DnsNaming.RelativeOutside | spinifex/domains/dns/naming.go:223-234 | A name that is neither the zone nor below it is kept whole, in lower case, as a label with a dot. |
| DnsNaming.PrivateZoneMeaning | spinifex/domains/dns/naming.go:210-217 | A blank internal domain stands for compute.internal, and any other for itself without the space around it. |
| DnsNaming.InstanceNamesDistinct | spinifex/domains/dns/naming.go:18-43 | Instances of different addresses have different public names and different private names. |
| DnsNaming.ApexPrunable | spinifex/domains/dns/reconcile.go:281-319 | A zone's apex is prunable exactly when the zone is the service-endpoint zone and that flag is on; never for the base or the private zone. |
| DnsNaming.PrunableMeaning | spinifex/domains/dns/reconcile.go:281-319 | A canonical label is prunable exactly when, in the private zone, it starts with ip- and the EC2 flag is on; in the base zone, it is ns and digits, starts with ec2- or contains .elb., .eks. or .rds. with that very flag on; or the zone is the service zone and its flag is on. |
| DnsNaming.EC2PublicPrunable | spinifex/domains/dns/naming.go:33-35 | Every public instance name built is matched by the EC2 flag in the base zone. |
| DnsNaming.EC2PrivatePrunable | spinifex/domains/dns/naming.go:40-43 | Every private instance name built is matched by the EC2 flag in the private zone. |
| DnsNaming.ELBPrunable | spinifex/domains/dns/naming.go:95-97 | Every load balancer name built is matched by the ELB flag. |
| DnsNaming.EKSPrunable | spinifex/domains/dns/naming.go:118-120 | Every cluster name built is matched by the EKS flag. |
| DnsNaming.RDSPrunable | spinifex/domains/dns/naming.go:141-143 | Every database name built is matched by the RDS flag. |
| DnsZone.TypeRoundTrip | spinifex/domains/dns/writer.go:215-226 | Parsing the spelling of a record type gives the type back when it is supported, and A otherwise. |
| DnsZone.RecordTypeMeaning | spinifex/domains/dns/writer.go:215-226 | The types A, NS and TXT, in any case and with space around them, are 1, 2 and 16, and no other is accepted. |
| DnsZone.RemovedExactly | spinifex/domains/dns/writer.go:182-186 | A delete removes from its RRset the records of its value, or all of them without one, and reports a change exactly when it removed something. |
| DnsZone.UpsertQuota | spinifex/domains/dns/writer.go:160-181 | Under a quota an upsert fails exactly when its set is new and the zone is full. |
| DnsZone.QuotaKept | spinifex/domains/dns/writer.go:148-186 | Single-value upserts and deletes never take a zone past its quota. |
| DnsZone.SeededForUpsert | spinifex/domains/dns/writer.go:122-147 | A missing or corrupt zone is built from its seed only for an upsert. |
| DnsWriter.Writer.Edited | spinifex/domains/dns/writer.go:148-186 | Applying a zone's changes in order, with the quota rule, unknown actions and unsupported types as errors, gives the records and the changed flag of the specification. |
| DnsWriter.Writer.ApplyZone | spinifex/domains/dns/writer.go:122-198 | A zone object is rewritten exactly when it is reachable and an edit changed it; a missing or corrupt one is seeded only for an upsert; failures leave the store as it was. |
| DnsWriter.Writer.GroupByZone | spinifex/domains/dns/writer.go:71-85 | The first unsupported type is reported, or every zone gets its own changes in order and zones come in order of first appearance. |
| DnsWriter.Writer.ApplyBatch | spinifex/domains/dns/writer.go:71-100 | Zones are written one by one up to the first failure, counting applied changes and listing exactly the rewritten zones. |
| DnsWriter.ZoneOrderMeaning | spinifex/domains/dns/writer.go:74-85 | Of two zones of a batch, the one named first is written first. |
| DnsWriter.BatchCounts | spinifex/domains/dns/writer.go:86-100 | A batch that succeeds counts every change as applied, and one that fails leaves exactly the zones before the failing one written. |
| DnsReconcile.WantedKeys | spinifex/domains/dns/reconcile.go:356-366 | The key set of the desired changes, or the first unsupported type. |
| DnsReconcile.DeleteStale | spinifex/domains/dns/reconcile.go:367-385 | Exactly the prunable records whose key is not wanted are deleted, in record order. |
| DnsReconcile.ComputeConverge | spinifex/domains/dns/reconcile.go:356-387 | The batch starts with the desired changes and, zone by zone, continues with the deletes of stale records, in whatever order zones are visited. |
| DnsReconcile.ReadAll | spinifex/domains/dns/reconcile.go:252-275 | Reading fails exactly when a listed zone is unreachable; otherwise it yields the zones that are present and parsable. |
| DnsReconcile.ComputeBatch | spinifex/domains/dns/reconcile.go:252-275 | A batch against the zones read, or an error when a read fails or a desired type is unsupported. |
| DnsReconcile.ReconcileOnce | spinifex/domains/dns/reconcile.go:180-208 | One pass computes its batch against the store it then writes and ends exactly as applying that batch does; it fails and writes nothing when a zone cannot be read or a type is unsupported. |
| DnsConvergence.UpsertsApplied | spinifex/domains/dns/writer.go:160-181 | After a zone's upserts every one of them holds, and records outside their RRsets are unchanged and in order. |
| DnsConvergence.DeletesApplied | spinifex/domains/dns/writer.go:182-186 | Deletes of stale records remove exactly the records they address. |
| DnsConvergence.KeyInjective | spinifex/domains/dns/reconcile.go:390-392 | RRset keys tell apart zone, label without case and type. |
| DnsConvergence.SparedMeaning | spinifex/domains/dns/reconcile.go:367-385 | Outside the desired RRsets, the deletes spare a record exactly when it is not of a pruned class or has an unsupported type. |
| DnsConvergence.ReadZoneConverges | spinifex/domains/dns/reconcile.go:356-387 | A zone that was read ends with its desired RRsets exact, stale prunable records gone and the rest as before. |
| DnsConvergence.UnreadZoneConverges | spinifex/domains/dns/reconcile.go:356-387 | A zone that was not read ends with its desired RRsets exact and every other record as before. |
| DnsConvergence.SettledNoop | spinifex/domains/dns/writer.go:148-186 | A batch computed against a settled zone does not change it, and with quotas off does not fail there. |
| DnsConvergence.SettledNoDeletes | spinifex/domains/dns/reconcile.go:367-385 | A settled zone whose prunable records are of supported types gets no delete at all. |
| DnsPass.PassZone | spinifex/domains/dns/writer.go:71-100 | A pass treats each zone by that zone's changes alone, and lists it exactly when it was rewritten. |
| DnsPass.PassConverges | spinifex/domains/dns/reconcile.go:180-208 | A pass over a stored zone makes each desired RRset exact, removes stale prunable records if the zone was read, and keeps all else in place and order. |
| DnsPass.PassPublishes | spinifex/domains/dns/reconcile.go:180-208 | After a pass every zone that is or becomes stored holds, under each desired name and type, the desired values with their own time to live or the default one, and no others. |
| DnsPass.PassRebuilds | spinifex/domains/dns/writer.go:122-147 | A missing or corrupt zone is rewritten, from its seed, exactly when it is named and the seed does not hold the desired sets already; otherwise it is left alone. |
| DnsPass.DeletesAreSafe | spinifex/domains/dns/reconcile.go:367-385 | Every delete is for a stored record of a zone that was read, matched by an enabled class and not desired. |
| DnsPass.DeletesBearMarks | spinifex/domains/dns/reconcile.go:281-387 | Every change outside the desired set is for the base, private or service zone, and the name it carries bears a mark of a class whose very flag is on there. |
| DnsPass.RecordSurvives | spinifex/domains/dns/reconcile.go:281-387 | Outside the desired RRsets a pass keeps a stored record, exactly unless it read the zone and the record is of a supported type and, under a canonical label, of a class it has authority over. |
| DnsPass.UnmarkedSurvives | spinifex/domains/dns/reconcile.go:281-387 | A base-zone record without a mark of any class, outside the desired RRsets, survives every pass, whatever the flags. |
| DnsPass.StaleRemoved | spinifex/domains/dns/reconcile.go:252-275 | In the base zone, in the private zone with the EC2 flag on and in the service zone with its flag on, a stale record of an authorised class is gone after a pass over the stored zone. |
| DnsPass.ApexNeverDeleted | spinifex/domains/dns/reconcile.go:281-319 | No delete in the base zone or the private zone carries the name of its apex. |
| DnsPass.NoAuthorityNoDeletes | spinifex/domains/dns/reconcile.go:281-319 | With every flag off the batch of a pass is the desired changes and nothing else. |
| DnsPass.UnreadNeverPruned | spinifex/domains/dns/reconcile.go:330-351 | A zone that is missing, corrupt or not listed gets no delete. |
| DnsPass.PassKeepsGood | spinifex/domains/dns/writer.go:148-198 | What a pass stores satisfies the conditions the next pass relies on. |
| DnsPass.PassSettles | spinifex/domains/dns/reconcile.go:252-275 | After a pass a zone is settled exactly unless it was missing or corrupt, is pruned, is named by a desired set its seed does not hold, and has a seed with prunable records. |
| DnsPass.PassRewrites | spinifex/domains/dns/writer.go:71-198 | A pass rewrites exactly the zones that are not settled. |
| DnsPass.SettledPassNoop | spinifex/domains/dns/writer.go:148-186 | A pass over a settled store rewrites no zone. |
| DnsPass.SettledPassNoDeletes | spinifex/domains/dns/reconcile.go:356-387 | A pass over a settled store whose prunable records have supported types emits no delete: its batch holds desired changes only. |
| DnsPass.PassKeepsSupported | spinifex/domains/dns/reconcile.go:356-387 | A pass over stored zones leaves only supported types under prunable labels if it found only such. |
| DnsPass.SecondPassNoop | spinifex/domains/dns/reconcile.go:252-275 | The second pass rewrites nothing exactly when no pruned zone had to be rebuilt from a seed with prunable records, and then leaves the store as it is. |
| DnsPass.SecondPassRewrites | spinifex/domains/dns/reconcile.go:252-275 | The second pass rewrites exactly the pruned zones that the first had to rebuild from a seed with prunable records. |
| DnsPass.StoredSecondPass | spinifex/domains/dns/reconcile.go:252-275 | When the pruned zones are stored and readable, the second pass rewrites nothing, and it emits no delete when prunable records have supported types. |
| DnsPass.TwoPassesNeeded | spinifex/domains/dns/writer.go:122-147 | A missing zone whose seed holds stale nameserver glue is unsettled after its first pass and rewritten by any second one. |
| DnsPass.ThirdPassNoop | spinifex/domains/dns/reconcile.go:252-275 | From any store, two passes settle it and the third rewrites nothing. |
| DnsReferral.Referral | spinifex/domains/dns/parent.go:105-125 | The deepest zone at or above the target that the authority section delegates, with all and only its NS names in order; none exactly when nothing is delegated. |
| DnsReferral.DeepestMeaning | spinifex/domains/dns/parent.go:105-125 | The fold over the authority section is the deepest delegated ancestor. |
| DnsReferral.AnswerNS | spinifex/domains/dns/parent.go:127-135 | All NS names published for the target in the answer and authority sections, in order. |
| DnsReferral.HostsMeaning | spinifex/domains/dns/parent.go:105-135 | The names taken for an owner are the hosts of its NS records, compared without case, and only those. |
| DnsReferral.SubDomainMeaning | spinifex/domains/dns/parent.go:113-115 | A zone is at or above a name exactly when the name ends with it. |
| DnsReferral.Ask | spinifex/domains/dns/parent.go:77-101 | The message of the first server position whose reply is NOERROR or NXDOMAIN, the caller not having given up at an earlier one; none exactly when there is no such position. |
| DnsReferral.Addresses | spinifex/domains/dns/parent.go:139-170 | The glue of the referral's servers, or else the IPv4 addresses their names resolve to; an error exactly when both are empty. |
| DnsReferral.GlueMeaning | spinifex/domains/dns/parent.go:139-147 | The glue taken is the addresses of the A records owned, without regard to case, by one of the referral's servers. |
| DnsReferral.ResolvedMeaning | spinifex/domains/dns/parent.go:152-166 | The addresses resolved are the IPv4 addresses found for any of the servers. |
| DnsReferral.NextServersMeaning | spinifex/domains/dns/parent.go:139-170 | Glue is used when there is any, and lookups only otherwise. |
| DnsReferral.Delegation | spinifex/domains/dns/parent.go:43-73 | The walk from the roots, with at most sixteen referrals. |
| DnsReferral.WalkDeepens | spinifex/domains/dns/parent.go:50-71 | Against any answers, the zones reached form a chain that goes strictly down and stays properly above the target. |
| DnsReferral.WalkFound | spinifex/domains/dns/parent.go:55-63 | The servers found are all and only those that the first usable answer of the last zone's servers publishes for the target, and that zone is reported as the parent. |
| DnsReferral.WalkDescends | spinifex/domains/dns/parent.go:64-71 | Each further zone reached, and the servers asked there, is where the round before it descended. |
| DnsReferral.WalkEnds | spinifex/domains/dns/parent.go:50-72 | A walk that finds nothing ends for the reason it gives, at the last zone reached: no usable answer, a referral not properly below that zone, no address for the referral, or sixteen descents. |
| DnsReferral.LimitUnreachable | spinifex/domains/dns/parent.go:50-72 | The referral limit is never met for a target of at most sixteen labels. |
| DnsReferral.LimitReachable | spinifex/domains/dns/parent.go:50-72 | Some answers meet the limit exactly for targets of more than sixteen labels. |
| AcmStore.Bucket.CompareAndSet | spinifex/foundation/state/kvstore/store.go:296-313 | A write lands exactly at the revision it names. |
| AcmStore.Bucket.AcquireLease | spinifex/domains/acm/store.go:526-552 | True exactly when the lease read was nobody's, one's own or run out and nothing was written in between; then the record differs in its lease alone. |
| AcmStore.Bucket.ReleaseLease | spinifex/domains/acm/store.go:558-582 | Clears holder and expiry of the holder's own lease, and nothing else, unless another write came in between; touches nothing otherwise. |
| AcmStore.Bucket.ReleaseThenAcquire | spinifex/domains/acm/store.go:526-582 | After an uncontended release whoever asks next gets the lease, at any time, and users, tags and material are as before. |
| AcmStore.ReleasedIsFree | spinifex/domains/acm/store.go:573-574 | A released record refuses no holder at any time. |
| AcmStore.LeaseRefusedMeaning | spinifex/domains/acm/store.go:538-540 | A lease is in the way exactly when it is another holder's and has not run out. |
| AcmStore.Bucket.Mutate | spinifex/foundation/state/kvutil/cas.go:63-146 | An update takes effect on the record current at the attempt that succeeds, or fails after fifty attempts leaving the others' writes. |
| AcmStore.ContendedMeaning | spinifex/foundation/state/kvutil/cas.go:63-146 | The record an attempt finds is the last write of the last attempt during which anybody wrote, or the initial one. |
| AcmStore.OpTidy | spinifex/domains/acm/store.go:453-475 | Adding and removing users keeps the list sorted and duplicate-free and changes it as a set. |
| AcmStore.OpOwnsFields | spinifex/domains/acm/store.go:480-511 | An update changes the users, or makes of the tags what its change says, and touches no other field. |
| AcmProtocol.StepKeepsInv | spinifex/domains/acm/store.go:526-582 | Every step of every flow keeps the invariant: what was read at the current revision is the current record, and a live lease is the one on the record. |
| AcmProtocol.AcquireProceeds | spinifex/domains/acm/store.go:526-541 | An acquire goes on from its read exactly when the lease found is nobody's, its own or run out. |
| AcmProtocol.ReleaseFrees | spinifex/domains/acm/store.go:526-582 | Once a release has written the record, any node's next acquire goes on and holds the lease if it writes next, the rest of the record being as the release read it. |
| AcmProtocol.LeaseExclusion | spinifex/domains/acm/store.go:526-552 | In every run, once one node's acquire returned true another's does only after that lease expired or was released, renewal writes included when they land within their own lease. |
| AcmProtocol.GuardedFrame | spinifex/domains/acm/store.go:480-582 | A guarded step changes the lease, or the field its update owns, and nothing else. |
| AcmProtocol.NoLostUpdate | spinifex/domains/acm/store.go:453-511 | In every run in which each renewal's write finds users and tags as the renewal read them, users and tags are the committed updates applied in commit order to the initial record. |
| AcmProtocol.UsersTidy | spinifex/domains/acm/store.go:453-475 | In every such run the user list stays sorted and duplicate-free and is, as a set, the adds and removes in commit order. |
| AcmProtocol.RenewalKeepsUpdates | spinifex/domains/acm/store.go:223-238 | A renewal's unguarded write keeps the committed updates exactly when users and tags are as the renewal read them. |
| AcmProtocol.UpdatesKeptExactly | spinifex/domains/acm/store.go:223-238 | Over a whole run, every state holds the committed updates exactly when every renewal's write found users and tags as the renewal read them. |
| AcmProtocol.MaterialKept | spinifex/domains/acm/store.go:453-582 | Over any run of guarded writers the certificate's material stays as it was. |
| AcmProtocol.RenewalLosesUpdate | spinifex/domains/acm/renewal.go:268-313 | A run in which a renewal write drops a committed user. |
| AcmRenewal.Jitter | spinifex/domains/acm/renewal.go:81-85 | The offset lies in the ten-minute spread. |
| AcmRenewal.FnvVectors | spinifex/domains/acm/renewal.go:81-85 | The hash behind the offset gives the published FNV-1a values. |
| AcmRenewal.DueBeforeExpiry | spinifex/domains/acm/renewal.go:68-93 | A certificate falls due strictly before it expires, for every offset, exactly when it lives at least seventy minutes. |
| AcmRenewal.DueMeaning | spinifex/domains/acm/renewal.go:68-93 | A certificate falls due two thirds into its lifetime, but at least an hour in, plus its offset. |
| AcmRenewal.PastDueRenewable | spinifex/domains/acm/renewal.go:102-117 | An issued, eligible private certificate past that time and the spread, with no failure in the last hour, is renewable. |
| AcmRenewal.NotRenewable | spinifex/domains/acm/renewal.go:102-117 | Another kind, status or eligibility, a failure in the last hour or too early a time each prevent renewal. |
| AcmRenewal.DueAfterAttempt | spinifex/domains/acm/renewal.go:102-117 | A certificate is renewable again an hour after a failure at the earliest, and two thirds of the fresh lifetime less the backdate and the second lost to whole-second times after a success. |
| AcmRenewal.SpacedMeaning | spinifex/domains/acm/renewal.go:210-235 | Any two consecutive attempts on one certificate keep that distance. |
| AcmRenewal.Worker.RenewOne | spinifex/domains/acm/renewal.go:242-349 | An attempt records its failure time or the fresh validity, in whole seconds, on its own certificate and no other, and attempts stay spaced. |
| AcmRenewal.Worker.ScanOnce | spinifex/domains/acm/renewal.go:210-235 | A scan tries every certificate renewable at its time for which the lease is won, and no other; the rest are unchanged. |
| AcmRenewal.Worker.Run | spinifex/domains/acm/renewal.go:187-204 | Attempts stay spaced over any number of scans. |
| EcrLifecycle.ValidateRule | spinifex/domains/ecr/lifecycle.go:95-135 | A rule is accepted exactly when it is valid and its priority is new. |
| EcrLifecycle.SelectionMeaning | spinifex/domains/ecr/lifecycle.go:101-130 | Prefixes come with the tagged status and no other, the count is positive, and days go with age and nothing else. |
| EcrLifecycle.ValidatePolicy | spinifex/domains/ecr/lifecycle.go:76-93 | A policy is accepted exactly when it has at least one and at most the permitted number of rules, all valid, with distinct priorities. |
| EcrLifecycle.ExpireFromSelection | spinifex/domains/ecr/lifecycle.go:204-223 | A selection's expiring images, by age cutoff or by count. |
| EcrLifecycle.SelectImages | spinifex/domains/ecr/lifecycle.go:179-200 | The unclaimed images a rule matches, in order. |
| EcrLifecycle.MatchesMeaning | spinifex/domains/ecr/lifecycle.go:179-200 | An image is in scope under any, under untagged exactly without tags, and under tagged exactly when a tag starts with a listed prefix. |
| EcrLifecycle.ClaimInOrder | spinifex/domains/ecr/lifecycle.go:157-176 | Rules claim in order and a claimed image is out of reach of later rules. |
| EcrLifecycle.EvaluateLifecyclePolicy | spinifex/domains/ecr/lifecycle.go:140-176 | The evaluation as sorting, claiming and annotating. |
| EcrLifecycle.EvaluationMeaning | spinifex/domains/ecr/lifecycle.go:140-223 | An image is expired by a rule exactly when no rule of a lower priority number claimed it, it is in scope, and it was pushed before the cutoff or enough competing images were pushed later, or at the same time under a smaller digest. |
| EcrLifecycle.EvaluationListed | spinifex/domains/ecr/lifecycle.go:157-176 | The result lists each image once, by rule priority, within a rule by falling push time, and at equal times by digest. |
| EcrLifecycle.CountRuleKeepsNewest | spinifex/domains/ecr/lifecycle.go:154-223 | A count rule that expires an image expires every competing one pushed earlier, and of those pushed at the same time the ones with a larger digest. |
| EcrLifecycle.KeptIsNotOlder | spinifex/domains/ecr/lifecycle.go:154-223 | No image a count rule keeps was pushed before a competing one it expires. |
| EcrLifecycle.EvaluationOrderIndependent | spinifex/domains/ecr/lifecycle.go:140-176 | The result does not depend on the order of images or of rules. |
| EcrLifecycle.EvaluationFixpoint | spinifex/domains/ecr/lifecycle.go:161-223 | After deleting what a policy expires, the same policy at the same time expires nothing. |
| EcrReferrers.ReferrerKeyInjective | spinifex/domains/ecr/storage.go:125-140 | Entry keys tell apart subject and referrer. |
| EcrReferrers.PrefixSelects | spinifex/domains/ecr/storage.go:120-127 | A subject's prefix selects exactly that subject's entries. |
| EcrReferrers.DigestMeaning | spinifex/domains/ecr/storage.go:161-166 | A digest is sha256: and sixty-four lower-case hexadecimal digits. |
| EcrReferrers.MetaStore.PutManifestMeta | spinifex/domains/ecr/meta.go:436-457 | The manifest is written, then its entry, up to a crash after any write. |
| EcrReferrers.MetaStore.DeleteManifestMeta | spinifex/domains/ecr/meta.go:510-529 | The entry is removed, then the manifest, up to a crash after any write. |
| EcrReferrers.MetaStore.ListReferrers | spinifex/domains/ecr/meta.go:459-492 | For any bucket, what every key under the subject's prefix decodes to, once per key and by digest, or an error exactly when one does not decode; over a sound index, the descriptors indexed under the subject, each once. |
| EcrReferrers.OpKeepsIndex | spinifex/domains/ecr/meta.go:436-529 | A put or delete, cut short anywhere, keeps every entry pointing at a live manifest that names its subject, and at most its own digest is left without an entry. |
| EcrReferrers.RunKeepsIndex | spinifex/domains/ecr/meta.go:436-529 | Over any sequence of such operations entries stay sound, and every live manifest has its entry unless its last operation was cut short. |
| EcrReferrers.PendingMeaning | spinifex/domains/ecr/meta.go:436-529 | The digests so left out are those whose last operation was cut off before its second write. |
| EcrReferrers.RerunRestores | spinifex/domains/ecr/meta.go:436-529 | Running an interrupted operation again ends where an uninterrupted one does. |
| EcrReferrers.SubjectFixed | spinifex/domains/ecr/meta.go:436-457 | Replacing a live manifest keeps the index sound exactly when the subject stays the same or there was none. |
| EcrReferrers.ListingIsScan | spinifex/domains/ecr/meta.go:459-492 | With nothing interrupted, a listing is the digest, media type, size, artifact type and annotations of exactly the live manifests that name the subject. |
| EcrReferrers.PutListed | spinifex/domains/ecr/meta.go:436-492 | A put that runs through adds its own entry to the listing of its subject, and changes nothing else in any listing. |
| EcrReferrers.DeleteListed | spinifex/domains/ecr/meta.go:459-529 | A delete that runs through takes its own entry out of every listing, and nothing else. |
| EcrKeys.KeysUnderPrefix | spinifex/domains/ecr/storage.go:75-127 | Over all kinds of keys, a key lies under a subject's prefix exactly when it is an entry of that subject, or its repository is named like the place of those entries or below it, or it is a tag that spells its way there. |
| EcrKeys.SharedKey | spinifex/domains/ecr/storage.go:75-127 | Two records share a key exactly when they are the same, or one is a tag called meta, policy or lifecycle and the other is that record of the repository named like the tag's folder. |
| EcrKeys.HomeIsLegal | spinifex/domains/ecr/storage.go:142-158 | The name of the place of a subject's entries is a legal repository name exactly when the repository's own has at most 174 characters. |
| EcrAccount.ListedExactly | spinifex/domains/ecr/storage.go:75-127 | A key with no slash in its tag lies among a repository's entries exactly when it is one or its repository is nested there. |
| EcrAccount.StepKeepsTidy | spinifex/domains/ecr/meta.go:190-529 | Whatever repository an operation is for, every repository's manifest keys go on holding the manifests they name. |
| EcrAccount.AccountRunKeepsIndex | spinifex/domains/ecr/meta.go:190-529 | Over any run of all repositories' operations, manifest operations cut off anywhere, with none of them nested in a repository's index, that index stays sound and every live manifest has its entry unless its last operation was cut short. |
| EcrAccount.ForeignWrite | spinifex/domains/ecr/storage.go:75-127 | Writing a record that is not one of a repository's own manifests or entries keeps its index sound exactly when the writer is not nested in it. |
| EcrAccount.NestedListed | spinifex/domains/ecr/meta.go:459-492 | A listing returns what every record of a nested repository decodes to, and fails when one does not decode. |
| EcrAccount.FreshNestedListing | spinifex/domains/ecr/meta.go:190-201 | With nothing but a nested repository just created, a subject without referrers lists exactly one empty descriptor. |
| AwsModel.Validator.ValidateShape | internal/awsmodel/validate.go:56-98 | The violations appended for a value, in order. |
| AwsModel.Validator.ValidateStructure | internal/awsmodel/validate.go:100-137 | Missing required members, then unknown fields, then the members' own violations, each in name order. |
| AwsModel.OfKeyIsText | internal/awsmodel/validate.go:76-83 | Validating a map key reports what validating it as a string value does. |
| AwsModel.ViolationsMeaning | internal/awsmodel/validate.go:56-141 | The validator reports exactly the departures of a value from its shape: at its path, each required member that is missing, each field the shape does not have, and each string outside its enumeration, in members, items, keys and entries alike. |
| AwsModel.ItoaMeaning | internal/awsmodel/validate.go:66-74 | An index is spelled in decimal without a leading zero. |
| AwsEdit.StructureConforms | internal/awsmodel/validate.go:100-137 | A structure has no violation exactly when its required members are there, its fields are modelled and each conforms. |
| AwsEdit.PathIrrelevant | internal/awsmodel/validate.go:56-98 | Whether a value has violations does not depend on its path. |
| AwsEdit.MemberOnly | internal/awsmodel/validate.go:129-136 | Changing one member of a conforming structure leaves exactly that member's violations. |
| AwsEdit.RemoveRequired | internal/awsmodel/validate.go:106-116 | Removing a required member gives exactly one violation, of that rule and at that member. |
| AwsEdit.EnumBroken | internal/awsmodel/validate.go:84-97 | A string outside an enumeration gives exactly one violation, where it stands. |
| AwsEdit.LiftMember | internal/awsmodel/request.go:223-272 | Breaking a constraint inside a member breaks exactly that constraint of the structure. |
| AwsEdit.LiftItem | internal/awsmodel/request.go:223-272 | Breaking a constraint inside a list item breaks exactly that constraint of the list. |
| AwsRequest.InvalidEnumValue | internal/awsmodel/request.go:597-603 | A value outside the enumeration, found after finitely many extensions. |
| AwsRequest.Generator.Value | internal/awsmodel/request.go:327-359 | A generated value conforms; every site recorded for it can be applied, and a required or enum one on a map-free path then breaks exactly one rule at its path; every required member and enumeration reached has a site; and generation ends. |
| AwsRequest.Generator.EnumText | internal/awsmodel/request.go:479-486 | The hinted value if the enumeration has it and its first value otherwise, with a site that breaks it. |
| AwsRequest.Generator.QuietValue | internal/awsmodel/request.go:446-451 | A further value that leaves no sites behind. |
| AwsRequest.Generator.StructureValue | internal/awsmodel/request.go:361-403 | The members in name order within the depth and recursion limits, without those a request must leave out and at most one of a union; the structure conforms and its sites belong to its members. |
| AwsRequest.Generator.MemberValue | internal/awsmodel/request.go:372-397 | A member's value, with a site for omitting it when it is required and not part of the route. |
| AwsRequest.Generator.ListValue | internal/awsmodel/request.go:405-442 | A list of one item or, if more, the minimum number, within the maximum, whose items conform. |
| AwsRequest.Generator.LengthSites | internal/awsmodel/request.go:424-442 | A positive minimum has a site that shortens the list to one below it, and a maximum under a thousand one that replaces it by a list one past it; there are no others. |
| AwsRequest.Generator.MapValue | internal/awsmodel/request.go:455-477 | A conforming map of one entry, whose key's sites rename the key. |
| AwsRequest.KeepMembers | internal/awsmodel/request.go:178-185 | Exactly the required members and the one named are kept. |
| AwsRequest.FormatPath | internal/awsmodel/request.go:190-203 | The spelling of a path, equal to the validator's on map-free paths. |
| AwsRequest.BrokenOnce | internal/awsmodel/request.go:128-153 | A site of a clean generation still breaks exactly one rule after optional members are dropped. |
| AwsRequest.RejectionExists | internal/awsmodel/request.go:132-154 | Every site of a clean generation, length and key sites included, can be applied, unless it renames a map key to something that is not text. |
| AwsRequest.CaseMembersMeaning | internal/awsmodel/request.go:91-127 | There is an acceptance case for the required members and one for each optional member of the first generation that may be guessed. |
| AwsRequest.AcceptanceShape | internal/awsmodel/request.go:117-127 | An acceptance case carries of its generation exactly the required members and its own. |
| AwsRequest.RejectionShape | internal/awsmodel/request.go:128-153 | A rejection case leaves alone every member but the one its site is in and carries no other optional one. |
| AwsRequest.Generate | internal/awsmodel/request.go:107-115 | A fresh generation conforms unless it failed or left a list item empty, every site breaks it once when no value failed, and none fails for a model without recursion whose leaves all have values. |
| AwsRequest.AcceptanceCases | internal/awsmodel/request.go:117-131 | One case for the required members and one for each usable optional member, each the kept members of a draft of its own; none when a draft has another number of sites. |
| AwsRequest.RejectionCases | internal/awsmodel/request.go:132-154 | One case per site, the i-th being a draft of its own with its i-th site broken and its path spelled out. |
| AwsRequest.GenerateRequests | internal/awsmodel/request.go:59-156 | The plan is those cases in order, empty when the first generation fails; there is one whenever no draft failed, all have as many sites as the first, and keys are renamed to text. |
| AwsRequest.PlanHolds | internal/awsmodel/request.go:59-156 | Every acceptance case conforms, and every required or enum rejection on a map-free path has exactly one violation, of its rule and at its path, unless its own draft failed. |
| AwsPattern.ClassRuneSound | internal/awsmodel/pattern.go:233-254 | A class that is not empty yields one of its members. |
| AwsPattern.ClassRunePrefers | internal/awsmodel/pattern.go:233-245 | A class with a lower-case letter is sampled by its first one. |
| AwsPattern.ClassRuneThenDigit | internal/awsmodel/pattern.go:233-245 | A class without a lower-case letter is sampled by its first digit, if it has one. |
| AwsPattern.WriteSample | internal/awsmodel/pattern.go:164-212 | The sample appended to the builder, or failure, as specified. |
| AwsPattern.WriteExtends | internal/awsmodel/pattern.go:164-212 | A sample is the full one unless it has more than the limit of runes, and fails only if the full one does. |
| AwsPattern.FullMatches | internal/awsmodel/pattern.go:164-229 | The full sample of an anchor-free pattern is in the pattern's language. |
| AwsPattern.SampleSound | internal/awsmodel/pattern.go:164-229 | A successful sample within the limit was not cut short and, for an anchor-free pattern, is in its language. |
| AwsPattern.FullGrows | internal/awsmodel/pattern.go:87-89 | For a pattern whose parts all have samples, length grows with the repeat count. |
| AwsPattern.ExpandsToNearest | internal/awsmodel/pattern.go:214-229 | A repetition is expanded to copies of its part's sample, in the permitted number nearest to the count asked for. |
| AwsPattern.ExpandsExactly | internal/awsmodel/pattern.go:214-229 | A permitted count is the number of copies. |
| AwsPattern.UnboundedGrows | internal/awsmodel/pattern.go:164-229 | The sample of an unbounded repetition of a part with a non-empty sample has at least as many runes as the count. |
| AwsPattern.FindCount | internal/awsmodel/pattern.go:102-141 | The repeat count doubling and bisection arrive at. |
| AwsPattern.CountIsLeast | internal/awsmodel/pattern.go:117-141 | For a minimum of at most one above the maximum, that count is the least that reaches the minimum, and none is found exactly when no count up to the cap reaches it. |
| AwsPattern.Search | internal/awsmodel/pattern.go:102-155 | The whole search as specified, for any pattern; AwsPattern.FoundAtAttempt and AwsPattern.FoundComplete say what that finds. |
| AwsPattern.PatternSampler.Sample | internal/awsmodel/pattern.go:90-100 | Every answer, cached or not, is that of a fresh search. |
| AwsPattern.FoundSound | internal/awsmodel/pattern.go:102-155 | A sample found has a permitted length, matches in full and, for an anchor-free pattern, is in its language. |
| AwsPattern.FoundComplete | internal/awsmodel/pattern.go:102-155 | For an anchor-free pattern whose parts all have samples, the search succeeds exactly when the least sufficient count gives a sample that is not too long, and returns that sample. |
| AwsPattern.FoundAtAttempt | internal/awsmodel/pattern.go:142-155 | Whatever the pattern, of four successive counts from the one found the first whose sample fits and matches is taken, unless an earlier one fails or is too long. |
| AwsPattern.RepetitionFound | internal/awsmodel/pattern.go:102-229 | An unbounded repetition of a one-rune part has a sample at every minimum up to the cap within the maximum, of exactly as many runes as the minimum or the repetition asks for. |
| AwsXml.XmlValue | internal/awsmodel/encode.go:472-526 | The elements a value is encoded as, or an error when it does not fit its shape. |
| AwsXml.XmlStructure | internal/awsmodel/encode.go:447-468 | A structure's members in name order, as attributes or elements. |
| AwsXml.StructureNames | internal/awsmodel/encode.go:447-534 | A structure is one element whose attributes and children are its members in name order, each under its reference's location name if it has one and its own name otherwise. |
| AwsXml.ListNames | internal/awsmodel/encode.go:485-500 | List items are named by the member's location name or member inside a wrapper, and by the list's own name when flattened. |
| AwsXml.MapNames | internal/awsmodel/encode.go:501-520 | Map entries are called entry inside a wrapper and by the map's own name when flattened; keys and values are named by their location names, or key and value. |
| AwsXml.NormalizeXMLShape | internal/awsmodel/response.go:147-192 | The value that elements stand for, flattened by the caller's flag or the shape's own. |
| AwsXml.NormalizeXMLStructure | internal/awsmodel/response.go:194-220 | The members among a structure's elements, grouped by wire name and flattened by reference or target shape, and unbound elements as text. |
| AwsXml.DecodedMember | internal/awsmodel/response.go:194-227 | The children of a member's location name, or own name without one, are decoded under that member. |
| AwsXml.DecodedOther | internal/awsmodel/response.go:194-221 | Besides its members a document has exactly the children no member is bound to, each as the trimmed text of the first of its name. |
| AwsXml.DecodedItems | internal/awsmodel/response.go:154-177 | Items are read from the children of the member's name and entries from those called entry. |
| AwsXml.DecodedEntry | internal/awsmodel/response.go:179-188 | An entry's key and value are read from its first children of their names. |
| AwsXml.RoundTrip | internal/awsmodel/response.go:147-220 | Decoding what a fitting value of a well-wired model is encoded as gives the value back with scalars and map keys as trimmed text, provided every reference to a flattened shape is flattened. |
| AwsXml.ExactRoundTrip | internal/awsmodel/encode.go:447-526 | A value of trimmed text comes back exactly. |
| AwsXml.FlatMismatch | internal/awsmodel/encode.go:485-500 | A list of a flattened shape under a reference that is not flattened comes back as exactly one item. |
| CpioArchive.ParseLaid | cmd/lambda-image-agent-tag/main.go:139-171 | An entry laid out in newc form at an aligned offset parses to itself, whatever surrounds it. |
| CpioArchive.ParseSound | cmd/lambda-image-agent-tag/main.go:139-171 | A successful parse read exactly one laid-out entry. |
| CpioArchive.HexRoundTrip | cmd/lambda-image-agent-tag/main.go:139-171 | A header field written in hexadecimal reads back. |
| CpioArchive.MakePieceLaid | cmd/lambda-image-agent-tag/main.go:139-173 | Every legal entry written in newc form is recovered by the parser. |
| CpioArchive.CanonicalMeaning | cmd/lambda-image-agent-tag/main.go:176-189 | A name is canonical exactly when it is "." or a relative path of plain components. |
| CpioArchive.ArchivedAgent | cmd/lambda-image-agent-tag/main.go:68-130 | The scan over the archive, with its size limits and errors. |
| CpioArchive.AcceptableMeaning | cmd/lambda-image-agent-tag/main.go:81-130 | An entry list passes exactly when names are canonical and unique, parents are directories, and the agent is one regular single-link file after its parents. |
| CpioArchive.HexMeaning | cmd/lambda-image-agent-tag/main.go:136-152 | Header fields are read in hexadecimal of either case, and the two newc magics are accepted. |
| CpioArchive.ModeMeaning | cmd/lambda-image-agent-tag/main.go:26-29 | Directories and regular files are told by the four type bits above the permissions. |
| CpioArchive.ScanRefuses | cmd/lambda-image-agent-tag/main.go:81-130 | A refusal is justified by what stands at the offset reached, everything before it being in order. |
| CpioArchive.ArchivedAgentMeaning | cmd/lambda-image-agent-tag/main.go:68-130 | Within the size limit, an archive is accepted with given data exactly when its bytes are such an entry list laid out from offset zero, a trailer and zero bytes. |
| CpioArchive.MadeArchiveChain | cmd/lambda-image-agent-tag/main.go:139-173 | A list of legal entries written one after another with a trailer is recovered entry by entry, whatever follows. |
| CpioArchive.MadeArchiveMeaning | cmd/lambda-image-agent-tag/main.go:68-130 | A written archive with zero padding yields the agent exactly when its entry list is acceptable. |
| ElbAgent.InsideMeaning | spinifex/agents/elbv2/agent.go:448-452 | A delivered path passes exactly when it is an ordinary file name directly inside the certificate directory. |
| ElbAgent.CertDirOrdinary | spinifex/agents/elbv2/agent.go:38-45 | Both certificate directories are ones for which that holds. |
| ElbAgent.EngineMeaning | spinifex/agents/elbv2/agent.go:281-288 | A response without an engine is for HAProxy, and only the name nginx selects nginx. |
| ElbAgent.PemMeaning | spinifex/agents/elbv2/agent.go:469-493 | The files pruning may remove are those whose names end in .pem. |
| ElbAgent.Agent.WriteCertFiles | spinifex/agents/elbv2/agent.go:441-462 | Succeeds exactly when every certificate passes and is written, and then each delivered file holds its content; files are only added or overwritten under delivered names, and every world in between keeps all certificates available. |
| ElbAgent.Agent.WriteConfig | spinifex/agents/elbv2/agent.go:497-512 | The configuration on disk is replaced or left as it was. |
| ElbAgent.Agent.Reload | spinifex/agents/elbv2/agent.go:517-575 | The engine serves what is on disk, or goes on serving what it had. |
| ElbAgent.Agent.PruneCertFiles | spinifex/agents/elbv2/agent.go:469-493 | Only undelivered certificates are removed, and all of them unless a removal fails. |
| ElbAgent.Agent.Apply | spinifex/agents/elbv2/agent.go:335-366 | Certificates, configuration, reload and pruning in that order, succeeding exactly when the first three do, then with every delivered certificate's content on disk; the other engine is not touched. |
| ElbAgent.Agent.FetchAndApplyConfig | spinifex/agents/elbv2/agent.go:317-373 | Engine, targets and hash change only with a successful reload and always to that response's; the engine the response names then serves its text with its certificates in place, and the other engine is as before. |
| ElbAgent.Agent.Stop | spinifex/agents/elbv2/agent.go:178-184 | Stops the agent once. |
| ElbAgent.Agent.Tick | spinifex/agents/elbv2/agent.go:187-255 | A stopped agent does nothing; otherwise exactly one heartbeat is sent, with the settings of the last reload, even if a stop arrives before it; a changed hash is fetched and applied; and the agent ends stopped exactly when a stop arrived or the load balancer is gone outside the grace period. |
| ElbAgent.Agent.Start | spinifex/agents/elbv2/agent.go:157-195 | Over every sequence of ticks, outside stops before, during and after them, and looks at the stop signal, ticks taken although stopped included: all certificates named by the live and stored configurations exist after every step, the settings are those of the last reload, no heartbeat follows a stop but that of a tick already under way, and the loop exits only when stopped. |

## Left out

- Everything else in the repository: gateways, signers, daemons, provisioning and command entry points call into libraries and hold little logic of their own.
- DnsZone.ApplyChange: the record operations of the northstar library are not part of this model; an upsert is taken to replace the RRset, a set upsert to replace it with the whole set, a delete to remove the matching value or, with no value, the set, and each to report whether it changed anything.
- DnsWriter.Writer.ApplyBatch: the reload notification, the disabled writer and the modification time are not modelled, and case folding covers ASCII.
- DnsPass.PassConverges: stated for lower-case labels, canonical where they may be pruned, for zones of plain names without NUL, and for desired upserts with distinct RRset keys.
- DnsReconcile.ReconcileOnce: leader election and the time bound on computing a batch are left out; a pass has the store to itself.
- DnsReferral.Delegation: names are label lists, and the network is an arbitrary function of round and server position.
- AcmProtocol.Next: the record is always present; creation and deletion of certificates are not steps, and each node runs one flow at a time.
- AcmRenewal.Worker.RenewOne: assumes store writes succeed and no other writer on the certificate; forced renewals are not scheduled attempts. X.509 material is reduced to its validity times.
- AcmRenewal.Window: two thirds of a lifetime is an integer division, not a floating-point product.
- EcrLifecycle.ValidatePolicy: JSON decoding is left out; a policy is its decoded rules.
- EcrReferrers.MetaStore.ListReferrers: the bucket is read without concurrent writers. What a policy or lifecycle document decodes to as a descriptor is part of its value.
- EcrAccount.AccountRunKeepsIndex: deleting a whole repository, uploads, and writes of tags that contain a slash are not operations of a run.
- AwsRequest.Generator.LeafValue: hints, salted strings and the length, range and pattern sites of leaves are parameters; only required and enum constraints are judged, as the validator judges no others.
- AwsRequest.Generator.LengthSites: the over-long list is built when the site is recorded rather than when it is applied.
- AwsRequest.Generator.Value: the lists of skipped members and unbroken constraints are not kept.
- AwsRequest.GenerateRequests: rejection cases are judged when every value could be generated; a failed member leaves its sites behind in the source too. The applied edit is a function on value trees, not an update in place.
- AwsPattern.Matches: anchors and word boundaries match the empty string here, so language results are stated for anchor-free patterns; parsing and the anchored matcher are parameters.
- AwsPattern.CountIsLeast: with a larger minimum, samples may be cut before they reach it (`a*` with a minimum of ten and a maximum of two), and the search finds nothing in any case, as AwsPattern.FoundComplete says.
- AwsXml.XmlValue: element trees are values rather than shared nodes; namespaces and the spelling of scalars are left out.
- AwsXml.NormalizeXMLStructure: needs distinct wire names, since the source's result otherwise depends on map iteration order; when an unbound element bears a member's name the member wins.
- AwsXml.NormalizeXMLShape: likewise needs distinct wire names in every structure of the model, and list items that are not of a flattened shape, since decoding a recursive one would not end.
- AwsXml.RoundTrip: the ec2 protocol's item name and attributes are excluded.
- CpioArchive.ArchivedAgent: decompression and the build-tag test on the agent binary are left out.
- ElbAgent.Agent.WriteCertFiles: path cleaning is a parameter, and a configuration is taken to refer to exactly the certificates delivered with it.
- ElbAgent.Agent.Tick: the wire protocol, clocks and the contents of health reports are parameters or left out.
