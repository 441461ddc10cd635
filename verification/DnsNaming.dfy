/**
 Record names of the managed zones: zone-relative labels and their inverse, the
 names built for instances, load balancers, clusters and databases, and the
 predicate that says which labels a reconcile pass may prune.
 */
module DnsNaming {
  import opened Text

  const PRIVATE_ZONE := "compute.internal"
  const EC2_PUBLIC_PREFIX := "ec2-"
  const EC2_PRIVATE_PREFIX := "ip-"

  function PrivateZoneOrDefault(internalDomain: string): string {
    if TrimSpace(internalDomain) != "" then TrimSpace(internalDomain) else PRIVATE_ZONE
  }

  function RelativeLabel(fqdn: string, zone: string): string {
    var name := TrimDot(Lower(fqdn));
    var z := TrimDot(Lower(zone));
    if name == z then ""
    else if HasSuffix(name, "." + z) then name[..|name| - |z| - 1] + "."
    else name + "."
  }

  function LabelToFQDN(lab: string, zone: string): string {
    var l, z := TrimDot(lab), TrimDot(zone);
    if l == "" then z else l + "." + z
  }

  // The two conversions undo each other on canonical names.

  /** A zone name with at most one trailing dot. */
  predicate PlainZone(zone: string) { TrimDot(zone) != "" && !EndsWithDot(TrimDot(zone)) }

  predicate CanonicalLabel(lab: string) { lab == "" || (Lower(lab) == lab && EndsWithDot(lab) && lab != ".") }

  lemma RelativeBelow(x: string, zone: string)
    requires zone != ""
    ensures RelativeLabel(x + "." + zone, zone) == Lower(x) + "."
  {
    var z := TrimDot(Lower(zone));
    var name := TrimDot(Lower(x + "." + zone));
    LowerConcat(x + ".", zone);
    LowerConcat(x, ".");
    assert Lower(x + "." + zone) == Lower(x) + "." + Lower(zone);
    assert name == Lower(x) + ("." + z);
    SuffixOf(Lower(x), "." + z);
  }

  lemma RelativeApex(zone: string)
    requires PlainZone(zone)
    ensures RelativeLabel(TrimDot(zone), zone) == ""
  {
    LowerTrimDot(zone);
    LowerTrimDot(TrimDot(zone));
  }

  /** Ignoring a trailing dot of the zone changes no label. */
  lemma RelativeTrimmedZone(f: string, zone: string)
    requires PlainZone(zone)
    ensures RelativeLabel(f, zone) == RelativeLabel(f, TrimDot(zone))
  {
    LowerTrimDot(zone);
    LowerTrimDot(TrimDot(zone));
  }

  lemma TrimDotOf(l: string)
    ensures TrimDot(l + ".") == l && EndsWithDot(l + ".")
    ensures Lower(l + ".") == Lower(l) + "."
  {
    LowerConcat(l, ".");
  }

  lemma LabelBelow(l: string, zone: string)
    requires PlainZone(zone) && l != ""
    ensures RelativeLabel(l + "." + TrimDot(zone), zone) == Lower(l) + "."
  {
    RelativeTrimmedZone(l + "." + TrimDot(zone), zone);
    RelativeBelow(l, TrimDot(zone));
  }

  lemma SuffixMeaning(s: string, t: string)
    ensures HasSuffix(s, t) <==> exists x :: s == x + t
  {
    if HasSuffix(s, t) { assert s == s[..|s| - |t|] + t; }
    if x :| s == x + t { SuffixOf(x, t); }
  }

  /** A name outside the zone is kept whole, as a label with a dot. */
  lemma RelativeOutside(f: string, zone: string)
    requires !EndsWithDot(f) && !EndsWithDot(zone) && Lower(f) != Lower(zone)
    requires forall x :: Lower(f) != x + ("." + Lower(zone))
    ensures RelativeLabel(f, zone) == Lower(f) + "."
  {
    LowerTrimDot(f);
    LowerTrimDot(zone);
    SuffixMeaning(Lower(f), "." + Lower(zone));
    hide Lower, HasSuffix;
  }

  /** A stored label survives the trip through a fully-qualified name exactly when it is canonical. */
  lemma LabelRoundTrip(lab: string, zone: string)
    requires PlainZone(zone)
    ensures RelativeLabel(LabelToFQDN(lab, zone), zone) == lab <==> CanonicalLabel(lab)
  {
    hide RelativeLabel, Lower;
    var l := TrimDot(lab);
    if l == "" {
      RelativeApex(zone);
      assert lab == "" || lab == ".";
    } else {
      LabelBelow(l, zone);
      TrimDotOf(l);
      assert EndsWithDot(lab) ==> lab == l + ".";
    }
  }

  ghost predicate CanonicalName(f: string, zone: string) {
    f == zone || (Lower(f) == f && exists x :: x != "" && f == x + "." + zone)
  }

  lemma NameRoundTripBelow(x: string, zone: string)
    requires zone != "" && Lower(zone) == zone && !EndsWithDot(zone) && x != ""
    ensures LabelToFQDN(RelativeLabel(x + "." + zone, zone), zone) == x + "." + zone <==> Lower(x + "." + zone) == x + "." + zone
  {
    RelativeBelow(x, zone);
    LowerConcat(x + ".", zone);
    TrimDotOf(x);
    TrimDotOf(Lower(x));
    hide RelativeLabel, Lower;
  }

  /** A name survives the trip through its label exactly when it is the zone or a lower-case name below it. */
  lemma NameRoundTrip(f: string, zone: string)
    requires zone != "" && Lower(zone) == zone && !EndsWithDot(zone)
    ensures LabelToFQDN(RelativeLabel(f, zone), zone) == f <==> CanonicalName(f, zone)
  {
    var lab := RelativeLabel(f, zone);
    if f == zone {
    } else if x :| x != "" && f == x + "." + zone {
      NameRoundTripBelow(x, zone);
    } else {
      assert LabelToFQDN(lab, zone) != f;
    }
  }

  // Names built for resources.

  function DashIP(ip: string): string { seq(|ip|, i requires 0 <= i < |ip| => if ip[i] == '.' then '-' else ip[i]) }

  function EC2PublicName(publicIP: string, region: string, baseDomain: string): string {
    EC2_PUBLIC_PREFIX + DashIP(publicIP) + "." + region + ".compute." + baseDomain
  }

  function EC2PrivateName(privateIP: string, region: string, internalDomain: string): string {
    EC2_PRIVATE_PREFIX + DashIP(privateIP) + "." + region + "." + PrivateZoneOrDefault(internalDomain)
  }

  /** Different addresses, written without dashes, give different names, so an instance's record is its own. */
  lemma InstanceNamesDistinct(ip: string, other: string, region: string, domain: string)
    requires '-' !in ip && '-' !in other
    ensures EC2PublicName(ip, region, domain) == EC2PublicName(other, region, domain) ==> ip == other
    ensures EC2PrivateName(ip, region, domain) == EC2PrivateName(other, region, domain) ==> ip == other
  {
    hide DashIP, PrivateZoneOrDefault;
    if EC2PublicName(ip, region, domain) == EC2PublicName(other, region, domain) {
      var rest := "." + region + ".compute." + domain;
      assert EC2PublicName(ip, region, domain) == "ec2-" + DashIP(ip) + rest;
      assert EC2PublicName(other, region, domain) == "ec2-" + DashIP(other) + rest;
      SameMiddle("ec2-", DashIP(ip), DashIP(other), rest);
      DashInjective(ip, other);
    }
    if EC2PrivateName(ip, region, domain) == EC2PrivateName(other, region, domain) {
      var rest := "." + region + "." + PrivateZoneOrDefault(domain);
      assert EC2PrivateName(ip, region, domain) == "ip-" + DashIP(ip) + rest;
      assert EC2PrivateName(other, region, domain) == "ip-" + DashIP(other) + rest;
      SameMiddle("ip-", DashIP(ip), DashIP(other), rest);
      DashInjective(ip, other);
    }
  }

  lemma SameMiddle(front: string, a: string, b: string, rest: string)
    requires front + a + rest == front + b + rest
    ensures a == b
  {
    assert |a| == |b|;
    assert (front + a + rest)[|front|..|front| + |a|] == a;
    assert (front + b + rest)[|front|..|front| + |b|] == b;
  }

  lemma DashInjective(ip: string, other: string)
    requires DashIP(ip) == DashIP(other) && '-' !in ip && '-' !in other
    ensures ip == other
  {
    assert |DashIP(ip)| == |ip| && |DashIP(other)| == |other|;
    forall i | 0 <= i < |ip| ensures ip[i] == other[i] { assert DashIP(ip)[i] == DashIP(other)[i]; }
  }

  /** Dots become dashes and nothing else changes. */
  lemma DashMeaning(ip: string, i: nat)
    requires i < |ip|
    ensures |DashIP(ip)| == |ip| && '.' !in DashIP(ip)
    ensures if ip[i] == '.' then DashIP(ip)[i] == '-' else DashIP(ip)[i] == ip[i]
  {
  }

  /** A blank internal domain stands for compute.internal, and any other for itself without the space around it. */
  lemma PrivateZoneMeaning(domain: string) returns (front: string, rest: string)
    ensures var zone := PrivateZoneOrDefault(domain);
      if AllSpace(domain) then zone == "compute.internal"
      else domain == front + zone + rest && AllSpace(front) && AllSpace(rest) && zone != "" && !IsSpace(zone[0]) && !IsSpace(zone[|zone| - 1])
  {
    hide IsSpace, TrimSpace;
    front, rest := TrimSpaceMeaning(domain);
    var trimmed := TrimSpace(domain);
    if trimmed != "" { assert domain[|front|] == trimmed[0]; }
    if trimmed == "" { assert domain == front + rest; }
  }

  function ELBName(prefix: string, name: string, lbID: string, region: string, baseDomain: string): string {
    prefix + name + "-" + lbID + "." + region + ".elb." + baseDomain
  }

  function EKSName(cluster: string, accountID: string, region: string, baseDomain: string): string {
    cluster + "." + accountID + "." + region + ".eks." + baseDomain
  }

  function RDSName(identifier: string, accountID: string, region: string, baseDomain: string): string {
    identifier + "." + accountID + "." + region + ".rds." + baseDomain
  }

  // Pruning authority.

  datatype PruneScope = PruneScope(elb: bool, eks: bool, rds: bool, ec2: bool, serviceEndpoint: bool, nameservers: bool)

  const NO_AUTHORITY := PruneScope(false, false, false, false, false, false)

  datatype Domains = Domains(base: string, internalDomain: string, service: string)

  function PrivateOf(d: Domains): string { PrivateZoneOrDefault(d.internalDomain) }

  predicate IsDigits(s: string) { forall i :: 0 <= i < |s| ==> '0' <= s[i] <= '9' }

  predicate IsNameserverGlueLabel(lab: string) {
    var n := TrimDot(Lower(lab));
    |n| >= 3 && "ns" <= n && IsDigits(n[2..])
  }

  predicate IsServiceZone(d: Domains, zone: string) {
    d.service != "" && d.service != d.base && d.service != PrivateOf(d) && zone == d.service
  }

  /** May a (zone, label) record be deleted when the desired set lacks it? */
  predicate Prunable(d: Domains, scope: PruneScope, zone: string, lab: string) {
    if zone == PrivateOf(d) then scope.ec2 && EC2_PRIVATE_PREFIX <= lab
    else if IsServiceZone(d, zone) then scope.serviceEndpoint
    else if zone != d.base then false
    else
      || (scope.nameservers && IsNameserverGlueLabel(lab))
      || (scope.ec2 && EC2_PUBLIC_PREFIX <= lab)
      || (scope.elb && Contains(lab, ".elb."))
      || (scope.eks && Contains(lab, ".eks."))
      || (scope.rds && Contains(lab, ".rds."))
  }

  /** The apex of a zone is prunable only in the service-endpoint zone, which is matched on zone identity alone. */
  lemma ApexPrunable(d: Domains, scope: PruneScope, zone: string)
    ensures Prunable(d, scope, zone, "") <==> zone != PrivateOf(d) && IsServiceZone(d, zone) && scope.serviceEndpoint
  {
    assert TrimDot(Lower("")) == "";
    assert !Contains("", ".elb.") && !Contains("", ".eks.") && !Contains("", ".rds.");
  }

  lemma DotPrunable(d: Domains, scope: PruneScope, zone: string)
    ensures Prunable(d, scope, zone, ".") <==> zone != PrivateOf(d) && IsServiceZone(d, zone) && scope.serviceEndpoint
  {
    assert TrimDot(Lower(".")) == "";
    assert !Contains(".", ".elb.") && !Contains(".", ".eks.") && !Contains(".", ".rds.");
  }

  // The classes spelled out, on labels as names give them.

  ghost predicate Parts(lab: string, front: string, word: string, rest: string) { lab == front + word + rest }

  ghost predicate Starts(lab: string, word: string) { exists rest :: Parts(lab, "", word, rest) }

  ghost predicate Carries(lab: string, word: string) { exists front, rest :: Parts(lab, front, word, rest) }

  ghost predicate Numbered(lab: string) {
    exists n :: Parts(lab, "ns", n, ".") && n != "" && forall i :: 0 <= i < |n| ==> '0' <= n[i] <= '9'
  }

  /** The marks of the base zone's classes under the flags that are on. */
  ghost predicate Marked(scope: PruneScope, lab: string) {
    || (scope.nameservers && Numbered(lab))
    || (scope.ec2 && Starts(lab, "ec2-"))
    || (scope.elb && Carries(lab, ".elb."))
    || (scope.eks && Carries(lab, ".eks."))
    || (scope.rds && Carries(lab, ".rds."))
  }

  /** The label belongs to a class over which the flags give authority in the zone. */
  ghost predicate OfClass(d: Domains, scope: PruneScope, zone: string, lab: string) {
    if zone == PrivateOf(d) then scope.ec2 && Starts(lab, "ip-")
    else if zone == d.base then Marked(scope, lab)
    else zone == d.service && zone != "" && scope.serviceEndpoint
  }

  lemma ContainsMeaning(s: string, t: string)
    ensures Contains(s, t) <==> Carries(s, t)
  {
    if Contains(s, t) {
      var i :| 0 <= i <= |s| && OccursAt(s, t, i);
      assert Parts(s, s[..i], t, s[i + |t|..]);
    }
    if front, rest :| Parts(s, front, t, rest) { ContainsMiddle(front, t, rest); }
  }

  lemma StartsMeaning(s: string, t: string)
    ensures t <= s <==> Starts(s, t)
  {
    if t <= s { assert Parts(s, "", t, s[|t|..]); }
    if rest :| Parts(s, "", t, rest) { assert "" + t + rest == t + rest; }
  }

  /** A label's spelling in a name: lower-case and with its dot. */
  function Spelled(lab: string): string { Lower(TrimDot(lab)) + "." }

  lemma SpelledCanonical(lab: string)
    requires CanonicalLabel(lab) && lab != ""
    ensures Spelled(lab) == lab
  {
    LowerTrimDot(lab);
  }

  lemma GlueMeaning(lab: string)
    ensures IsNameserverGlueLabel(lab) <==> Numbered(Spelled(lab))
  {
    LowerTrimDot(lab);
    var n := TrimDot(Lower(lab));
    if IsNameserverGlueLabel(lab) {
      assert n == "ns" + n[2..];
      assert Parts(Spelled(lab), "ns", n[2..], ".");
    }
    if digits :| Parts(Spelled(lab), "ns", digits, ".") && digits != "" && forall i :: 0 <= i < |digits| ==> '0' <= digits[i] <= '9' {
      assert n == (n + ".")[..|n|] == "ns" + digits;
      assert n[2..] == digits;
    }
  }

  lemma SpelledStarts(lab: string, word: string)
    requires Lower(word) == word && !EndsWithDot(word) && word <= lab
    ensures word <= Spelled(lab)
  {
    assert word <= TrimDot(lab);
    assert TrimDot(lab) == word + TrimDot(lab)[|word|..];
    LowerConcat(word, TrimDot(lab)[|word|..]);
  }

  lemma LowerOccurs(s: string, word: string, i: nat)
    requires OccursAt(s, word, i) && Lower(word) == word
    ensures OccursAt(Lower(s), word, i)
  {
    assert Lower(s)[i..i + |word|] == Lower(s[i..i + |word|]);
  }

  lemma SpelledContains(lab: string, word: string)
    requires Lower("." + word + ".") == "." + word + "." && Contains(lab, "." + word + ".")
    ensures Contains(Spelled(lab), "." + word + ".")
  {
    var w := "." + word + ".";
    var i :| 0 <= i <= |lab| && OccursAt(lab, w, i);
    LowerOccurs(lab, w, i);
    LowerTrimDot(lab);
    hide Lower;
    assert Lower(lab) <= Spelled(lab);
    assert Spelled(lab)[i..i + |w|] == Lower(lab)[i..i + |w|];
    assert OccursAt(Spelled(lab), w, i);
  }

  /** One class of the base zone, marked by a word between dots. */
  lemma ClassSpelled(lab: string, class_: string)
    requires Lower(class_) == class_
    ensures Contains(lab, "." + class_ + ".") ==> Carries(Spelled(lab), "." + class_ + ".")
  {
    hide Contains, Spelled, Carries;
    DottedLower(class_);
    if Contains(lab, "." + class_ + ".") {
      SpelledContains(lab, class_);
      ContainsMeaning(Spelled(lab), "." + class_ + ".");
    }
  }

  lemma PrefixSpelled(lab: string, word: string)
    requires Lower(word) == word && !EndsWithDot(word)
    ensures word <= lab ==> Starts(Spelled(lab), word)
  {
    hide Spelled, Starts;
    if word <= lab {
      SpelledStarts(lab, word);
      StartsMeaning(Spelled(lab), word);
    }
  }

  lemma PrefixesSpelled(lab: string)
    ensures EC2_PRIVATE_PREFIX <= lab ==> Starts(Spelled(lab), "ip-")
    ensures EC2_PUBLIC_PREFIX <= lab ==> Starts(Spelled(lab), "ec2-")
  {
    hide Starts, Spelled;
    assert Lower("ip-") == "ip-" && Lower("ec2-") == "ec2-";
    PrefixSpelled(lab, "ip-");
    PrefixSpelled(lab, "ec2-");
  }

  lemma ClassesSpelled(lab: string)
    ensures Contains(lab, ".elb.") ==> Carries(Spelled(lab), ".elb.")
    ensures Contains(lab, ".eks.") ==> Carries(Spelled(lab), ".eks.")
    ensures Contains(lab, ".rds.") ==> Carries(Spelled(lab), ".rds.")
  {
    hide Contains, Carries, Spelled;
    assert Lower("elb") == "elb" && Lower("eks") == "eks" && Lower("rds") == "rds";
    ClassSpelled(lab, "elb");
    ClassSpelled(lab, "eks");
    ClassSpelled(lab, "rds");
    assert "." + "elb" + "." == ".elb." && "." + "eks" + "." == ".eks." && "." + "rds" + "." == ".rds.";
  }

  /** What may be pruned belongs to a class, as its name spells it. */
  lemma PrunableSpelled(d: Domains, scope: PruneScope, zone: string, lab: string)
    requires Prunable(d, scope, zone, lab)
    ensures OfClass(d, scope, zone, Spelled(lab))
  {
    hide Contains, IsNameserverGlueLabel, Spelled, PrivateOf, Starts, Carries, Numbered;
    GlueMeaning(lab);
    PrefixesSpelled(lab);
    ClassesSpelled(lab);
  }

  /** A canonical label may be pruned exactly when it belongs to a class the flags give authority over. */
  lemma PrunableMeaning(d: Domains, scope: PruneScope, zone: string, lab: string)
    requires CanonicalLabel(lab) && zone != ""
    ensures Prunable(d, scope, zone, lab) <==> OfClass(d, scope, zone, lab)
  {
    StartsMeaning(lab, "ip-");
    StartsMeaning(lab, "ec2-");
    ContainsMeaning(lab, ".elb.");
    ContainsMeaning(lab, ".eks.");
    ContainsMeaning(lab, ".rds.");
    hide Contains, IsNameserverGlueLabel, PrivateOf;
    GlueCanonical(lab);
  }

  lemma GlueCanonical(lab: string)
    requires CanonicalLabel(lab)
    ensures IsNameserverGlueLabel(lab) <==> Numbered(lab)
  {
    GlueMeaning(lab);
    if lab != "" { SpelledCanonical(lab); } else { assert TrimDot(Lower("")) == ""; }
  }

  lemma LabelOf(x: string, zone: string)
    requires zone != ""
    ensures RelativeLabel(x + "." + zone, zone) == Lower(x + ".")
  {
    RelativeBelow(x, zone);
    LowerConcat(x, ".");
  }

  lemma EC2PublicPrunable(d: Domains, scope: PruneScope, publicIP: string, region: string)
    requires d.base != "" && d.base != PrivateOf(d) && scope.ec2
    ensures Prunable(d, scope, d.base, RelativeLabel(EC2PublicName(publicIP, region, d.base), d.base))
  {
    hide RelativeLabel, DashIP, PrivateOf;
    var rest := DashIP(publicIP) + "." + region + ".compute";
    var x := EC2_PUBLIC_PREFIX + rest;
    assert EC2PublicName(publicIP, region, d.base) == x + "." + d.base;
    LabelOf(x, d.base);
    assert x + "." == EC2_PUBLIC_PREFIX + (rest + ".");
    LowerConcat(EC2_PUBLIC_PREFIX, rest + ".");
    assert Lower(EC2_PUBLIC_PREFIX) == EC2_PUBLIC_PREFIX;
  }

  lemma EC2PrivatePrunable(d: Domains, scope: PruneScope, privateIP: string, region: string)
    requires scope.ec2
    ensures Prunable(d, scope, PrivateOf(d), RelativeLabel(EC2PrivateName(privateIP, region, d.internalDomain), PrivateOf(d)))
  {
    hide RelativeLabel, DashIP, TrimSpace;
    var rest := DashIP(privateIP) + "." + region;
    var x := EC2_PRIVATE_PREFIX + rest;
    assert EC2PrivateName(privateIP, region, d.internalDomain) == x + "." + PrivateOf(d);
    LabelOf(x, PrivateOf(d));
    assert x + "." == EC2_PRIVATE_PREFIX + (rest + ".");
    LowerConcat(EC2_PRIVATE_PREFIX, rest + ".");
    assert Lower(EC2_PRIVATE_PREFIX) == EC2_PRIVATE_PREFIX;
  }

  lemma DottedLower(class_: string)
    requires Lower(class_) == class_
    ensures Lower("." + class_ + ".") == "." + class_ + "."
  {
  }

  lemma ClassLabel(front: string, class_: string, base: string)
    requires base != "" && Lower(class_) == class_
    ensures Contains(RelativeLabel(front + "." + class_ + "." + base, base), "." + class_ + ".")
  {
    hide RelativeLabel, Lower, Contains;
    var dotted := "." + class_ + ".";
    LabelOf(front + "." + class_, base);
    assert front + "." + class_ + "." == front + dotted;
    LowerConcat(front, dotted);
    DottedLower(class_);
    ContainsMiddle(Lower(front), dotted, "");
    assert Lower(front) + dotted + "" == Lower(front) + dotted;
  }

  /** Every load balancer name built is in the class the ELB flag prunes. */
  lemma ELBPrunable(d: Domains, scope: PruneScope, prefix: string, name: string, lbID: string, region: string)
    requires d.base != "" && d.base != PrivateOf(d) && scope.elb
    ensures Prunable(d, scope, d.base, RelativeLabel(ELBName(prefix, name, lbID, region, d.base), d.base))
  {
    hide RelativeLabel, Contains, PrivateOf, IsNameserverGlueLabel;
    var front := prefix + name + "-" + lbID + "." + region;
    assert ELBName(prefix, name, lbID, region, d.base) == front + "." + "elb" + "." + d.base;
    ClassLabel(front, "elb", d.base);
    assert "." + "elb" + "." == ".elb.";
  }

  /** Every cluster name built is in the class the EKS flag prunes. */
  lemma EKSPrunable(d: Domains, scope: PruneScope, cluster: string, accountID: string, region: string)
    requires d.base != "" && d.base != PrivateOf(d) && scope.eks
    ensures Prunable(d, scope, d.base, RelativeLabel(EKSName(cluster, accountID, region, d.base), d.base))
  {
    hide RelativeLabel, Contains, PrivateOf, IsNameserverGlueLabel;
    var front := cluster + "." + accountID + "." + region;
    assert EKSName(cluster, accountID, region, d.base) == front + "." + "eks" + "." + d.base;
    ClassLabel(front, "eks", d.base);
    assert "." + "eks" + "." == ".eks.";
  }

  /** Every database name built is in the class the RDS flag prunes. */
  lemma RDSPrunable(d: Domains, scope: PruneScope, identifier: string, accountID: string, region: string)
    requires d.base != "" && d.base != PrivateOf(d) && scope.rds
    ensures Prunable(d, scope, d.base, RelativeLabel(RDSName(identifier, accountID, region, d.base), d.base))
  {
    hide RelativeLabel, Contains, PrivateOf, IsNameserverGlueLabel;
    var front := identifier + "." + accountID + "." + region;
    assert RDSName(identifier, accountID, region, d.base) == front + "." + "rds" + "." + d.base;
    ClassLabel(front, "rds", d.base);
    assert "." + "rds" + "." == ".rds.";
  }
}
