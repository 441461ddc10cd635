/**
 Finding a domain's delegation by following referrals down from the roots,
 against servers that may answer anything. A name is its labels, the most
 specific first; the root has none.
 */
module DnsReferral {
  import opened Wrappers
  import opened Text
  import opened DnsZone

  const MAX_REFERRALS: nat := 16

  const RCODE_SUCCESS := 0
  const RCODE_NAME_ERROR := 3

  type Name = seq<string>

  const ROOT: Name := []

  function LowerName(n: Name): Name { seq(|n|, i requires 0 <= i < |n| => Lower(n[i])) }

  /** `child` is at or below `parent`. */
  predicate IsSubDomain(parent: Name, child: Name) {
    |parent| <= |child| && child[|child| - |parent|..] == parent
  }

  datatype RR = NS(owner: Name, host: Name) | A(owner: Name, address: string) | OtherRR(owner: Name)

  datatype Msg = Msg(authoritative: bool, rcode: nat, answer: seq<RR>, authority: seq<RR>, extra: seq<RR>)

  // Reading one response.

  predicate Publishes(rr: RR, owner: Name) { rr.NS? && LowerName(rr.owner) == owner }

  /** The NS names published for `owner`, in order. */
  function HostsOf(rrs: seq<RR>, owner: Name): seq<Name> {
    if rrs == [] then []
    else HostsOf(rrs[..|rrs| - 1], owner)
         + if Publishes(rrs[|rrs| - 1], owner) then [LowerName(rrs[|rrs| - 1].host)] else []
  }

  /** A name is below another when that one is its end. */
  lemma SubDomainMeaning(parent: Name, child: Name)
    ensures IsSubDomain(parent, child) <==> exists front: Name :: Extended(front, parent, child)
  {
    if IsSubDomain(parent, child) {
      var n := |child| - |parent|;
      assert child == child[..n] + child[n..];
      assert Extended(child[..n], parent, child);
    }
    if front: Name :| Extended(front, parent, child) { assert child[|front|..] == parent; }
  }

  ghost predicate Extended(front: Name, parent: Name, child: Name) { child == front + parent }

  /** The names published for an owner are the hosts of its NS records, compared without case, and only those. */
  lemma {:induction false} HostsMeaning(rrs: seq<RR>, owner: Name, host: Name)
    ensures host in HostsOf(rrs, owner) <==>
      exists i :: 0 <= i < |rrs| && rrs[i].NS? && LowerName(rrs[i].owner) == owner && LowerName(rrs[i].host) == host
  {
    hide LowerName;
    if rrs != [] {
      var n := |rrs| - 1;
      HostsMeaning(rrs[..n], owner, host);
      if i :| 0 <= i < |rrs| && rrs[i].NS? && LowerName(rrs[i].owner) == owner && LowerName(rrs[i].host) == host {
        if i < n { assert rrs[..n][i] == rrs[i]; }
      }
      if i :| 0 <= i < n && rrs[..n][i].NS? && LowerName(rrs[..n][i].owner) == owner && LowerName(rrs[..n][i].host) == host {
        assert rrs[i] == rrs[..n][i];
      }
    }
  }

  /** They come in the order of their records. */
  lemma {:induction false} HostsInOrder(a: seq<RR>, b: seq<RR>, owner: Name)
    ensures HostsOf(a + b, owner) == HostsOf(a, owner) + HostsOf(b, owner)
  {
    hide LowerName;
    if b == [] {
      assert a + b == a;
    } else {
      HostsInOrder(a, b[..|b| - 1], owner);
      assert (a + b)[..|a + b| - 1] == a + b[..|b| - 1];
    }
  }

  /** Some NS record of `rrs` delegates `owner`, which is at or above `target`. */
  ghost predicate Delegates(rrs: seq<RR>, target: Name, owner: Name) {
    IsSubDomain(owner, target) && exists i :: 0 <= i < |rrs| && Publishes(rrs[i], owner)
  }

  ghost predicate IsDeepest(rrs: seq<RR>, target: Name, owner: Name) {
    Delegates(rrs, target, owner) && forall o :: Delegates(rrs, target, o) ==> |o| <= |owner|
  }

  lemma DelegatesStep(rrs: seq<RR>, target: Name, i: nat, o: Name)
    requires i < |rrs|
    ensures Delegates(rrs[..i + 1], target, o) <==> Delegates(rrs[..i], target, o) || (IsSubDomain(o, target) && Publishes(rrs[i], o))
  {
    assert rrs[..i + 1] == rrs[..i] + [rrs[i]];
    if Delegates(rrs[..i], target, o) {
      var k :| 0 <= k < i && Publishes(rrs[..i][k], o);
      assert Publishes(rrs[..i + 1][k], o);
    }
    if IsSubDomain(o, target) && Publishes(rrs[i], o) { assert Publishes(rrs[..i + 1][i], o); }
  }

  lemma {:induction false} NoHosts(rrs: seq<RR>, owner: Name)
    requires forall i :: 0 <= i < |rrs| ==> !Publishes(rrs[i], owner)
    ensures HostsOf(rrs, owner) == []
  {
    if rrs != [] { NoHosts(rrs[..|rrs| - 1], owner); }
  }

  /** The deepest delegated zone at or above `target`. */
  function Deepest(rrs: seq<RR>, target: Name): Option<Name> {
    if rrs == [] then None
    else
      var best, rr := Deepest(rrs[..|rrs| - 1], target), rrs[|rrs| - 1];
      var o := LowerName(rr.owner);
      if rr.NS? && IsSubDomain(o, target) && (best.None? || |o| > |best.value|) then Some(o) else best
  }

  lemma {:induction false} DeepestMeaning(rrs: seq<RR>, target: Name)
    ensures Deepest(rrs, target).None? <==> forall o :: !Delegates(rrs, target, o)
    ensures Deepest(rrs, target).Some? ==> IsDeepest(rrs, target, Deepest(rrs, target).value)
  {
    hide LowerName;
    if rrs != [] {
      var n := |rrs| - 1;
      DeepestMeaning(rrs[..n], target);
      forall d ensures Delegates(rrs, target, d) <==> Delegates(rrs[..n], target, d) || (IsSubDomain(d, target) && Publishes(rrs[n], d)) {
        DelegatesStep(rrs, target, n, d);
        assert rrs[..n + 1] == rrs;
      }
    }
  }

  /** The deepest zone at or above `target` that the authority section delegates, with all and only its NS names. */
  method Referral(resp: Msg, target: Name) returns (owner: Option<Name>, ns: seq<Name>)
    ensures owner == Deepest(resp.authority, target)
    ensures owner.None? <==> forall o :: !Delegates(resp.authority, target, o)
    ensures owner.Some? ==> IsDeepest(resp.authority, target, owner.value)
    ensures ns == if owner.Some? then HostsOf(resp.authority, owner.value) else []
  {
    hide LowerName, IsSubDomain, IsDeepest, Delegates;
    owner, ns := None, [];
    var rrs := resp.authority;
    for i := 0 to |rrs|
      invariant owner == Deepest(rrs[..i], target)
      invariant owner.Some? ==> IsSubDomain(owner.value, target)
      invariant ns == if owner.Some? then HostsOf(rrs[..i], owner.value) else []
    {
      assert rrs[..i + 1][..i] == rrs[..i];
      if !rrs[i].NS? { continue; }
      var o := LowerName(rrs[i].owner);
      if !IsSubDomain(o, target) { continue; }
      if Some(o) != owner && (owner.None? || |o| > |owner.value|) {
        NotYetPublished(rrs[..i], target, o);
        owner, ns := Some(o), [];
      }
      if Some(o) == owner {
        ns := ns + [LowerName(rrs[i].host)];
      }
    }
    assert rrs[..|rrs|] == rrs;
    DeepestMeaning(rrs, target);
  }

  lemma NotYetPublished(rrs: seq<RR>, target: Name, o: Name)
    requires IsSubDomain(o, target) && (Deepest(rrs, target).None? || |o| > |Deepest(rrs, target).value|)
    ensures HostsOf(rrs, o) == []
  {
    DeepestMeaning(rrs, target);
    assert !Delegates(rrs, target, o);
    NoHosts(rrs, o);
  }

  method AnswerNS(resp: Msg, target: Name) returns (ns: seq<Name>)
    ensures ns == HostsOf(resp.answer + resp.authority, target)
  {
    ns := [];
    var rrs := resp.answer + resp.authority;
    for i := 0 to |rrs|
      invariant ns == HostsOf(rrs[..i], target)
    {
      assert rrs[..i + 1][..i] == rrs[..i];
      if rrs[i].NS? && LowerName(rrs[i].owner) == target { ns := ns + [LowerName(rrs[i].host)]; }
    }
    assert rrs[..|rrs|] == rrs;
  }

  // Asking.

  datatype Answer = Failed | Reply(msg: Msg)

  /** What the network does: one answer per round and server position, and lookups of server names. */
  datatype Network = Network(
    exchange: (nat, nat, string) -> Answer,
    cancelled: (nat, nat) -> bool,
    resolve: (nat, Name) -> Option<seq<string>>,
    isIPv4: string -> bool)

  predicate Usable(a: Answer) { a.Reply? && (a.msg.rcode == RCODE_SUCCESS || a.msg.rcode == RCODE_NAME_ERROR) }

  /** The first usable answer of a round, unless the caller gives up before it. */
  function FirstAnswer(net: Network, round: nat, servers: seq<string>, i: nat): Option<Msg>
    requires i <= |servers|
    decreases |servers| - i
  {
    if i == |servers| then None
    else
      var a := net.exchange(round, i, servers[i]);
      if Usable(a) then Some(a.msg)
      else if net.cancelled(round, i) then None
      else FirstAnswer(net, round, servers, i + 1)
  }

  /** Server `i` gives the round's answer: usable, and no server before it is usable or makes the caller give up. */
  ghost predicate Answers(net: Network, round: nat, servers: seq<string>, i: nat) {
    && i < |servers| && GoodReply(net.exchange(round, i, servers[i]))
    && forall j :: 0 <= j < i ==> !GoodReply(net.exchange(round, j, servers[j])) && !net.cancelled(round, j)
  }

  /** A reply whose code is NOERROR or NXDOMAIN, as numbered in section 4.1.1 of RFC 1035. */
  ghost predicate GoodReply(a: Answer) { a.Reply? && a.msg.rcode in {0, 3} }

  lemma {:induction false} FirstAnswerFrom(net: Network, round: nat, servers: seq<string>, i: nat)
    requires i <= |servers| && forall j :: 0 <= j < i ==> !GoodReply(net.exchange(round, j, servers[j])) && !net.cancelled(round, j)
    ensures FirstAnswer(net, round, servers, i).None? ==> forall k: nat :: !Answers(net, round, servers, k)
    ensures FirstAnswer(net, round, servers, i).Some? ==>
      exists k: nat :: Answers(net, round, servers, k) && FirstAnswer(net, round, servers, i).value == net.exchange(round, k, servers[k]).msg
    decreases |servers| - i
  {
    if i < |servers| {
      if GoodReply(net.exchange(round, i, servers[i])) {
        assert Answers(net, round, servers, i);
      } else if !net.cancelled(round, i) {
        FirstAnswerFrom(net, round, servers, i + 1);
      }
    }
  }

  /** The message of the first server that answers usably, unless the caller gives up on an earlier one; none if there is no such server. */
  method Ask(net: Network, round: nat, servers: seq<string>) returns (r: Option<Msg>)
    ensures r == FirstAnswer(net, round, servers, 0)
    ensures r.Some? ==> exists k: nat :: Answers(net, round, servers, k) && r.value == net.exchange(round, k, servers[k]).msg
    ensures r.None? ==> forall k: nat :: !Answers(net, round, servers, k)
  {
    FirstAnswerFrom(net, round, servers, 0);
    for i := 0 to |servers|
      invariant FirstAnswer(net, round, servers, 0) == FirstAnswer(net, round, servers, i)
    {
      var a := net.exchange(round, i, servers[i]);
      if Usable(a) { return Some(a.msg); }
      if net.cancelled(round, i) { return None; }
    }
    return None;
  }

  // Where to ask next.

  predicate IsGlue(rr: RR, ns: seq<Name>) { rr.A? && exists i :: 0 <= i < |ns| && LowerName(ns[i]) == LowerName(rr.owner) }

  function Glue(extra: seq<RR>, ns: seq<Name>): seq<string> {
    if extra == [] then []
    else Glue(extra[..|extra| - 1], ns) + if IsGlue(extra[|extra| - 1], ns) then [extra[|extra| - 1].address] else []
  }

  function OnlyIPv4(net: Network, found: seq<string>): seq<string> {
    if found == [] then []
    else OnlyIPv4(net, found[..|found| - 1]) + if net.isIPv4(found[|found| - 1]) then [found[|found| - 1]] else []
  }

  function Resolved(net: Network, round: nat, ns: seq<Name>): seq<string> {
    if ns == [] then []
    else Resolved(net, round, ns[..|ns| - 1])
         + match net.resolve(round, ns[|ns| - 1]) case None => [] case Some(found) => OnlyIPv4(net, found)
  }

  /** The next servers: the referral's glue, or else what its server names resolve to. */
  function NextServers(net: Network, round: nat, resp: Msg, ns: seq<Name>): seq<string> {
    if Glue(resp.extra, ns) != [] then Glue(resp.extra, ns) else Resolved(net, round, ns)
  }

  /** The glue of a referral is the A records owned, without regard to case, by one of its servers. */
  lemma {:induction false} GlueMeaning(extra: seq<RR>, ns: seq<Name>, address: string)
    ensures address in Glue(extra, ns) <==>
      exists i, k :: 0 <= i < |extra| && 0 <= k < |ns| && extra[i].A? && extra[i].address == address && LowerName(ns[k]) == LowerName(extra[i].owner)
  {
    hide LowerName;
    if extra != [] {
      var n := |extra| - 1;
      GlueMeaning(extra[..n], ns, address);
      if i, k :| 0 <= i < |extra| && 0 <= k < |ns| && extra[i].A? && extra[i].address == address && LowerName(ns[k]) == LowerName(extra[i].owner) {
        if i < n { assert extra[..n][i] == extra[i]; } else { assert IsGlue(extra[n], ns); }
      }
      if i, k :| 0 <= i < n && 0 <= k < |ns| && extra[..n][i].A? && extra[..n][i].address == address && LowerName(ns[k]) == LowerName(extra[..n][i].owner) {
        assert extra[i] == extra[..n][i];
      }
    }
  }

  lemma {:induction false} OnlyIPv4Meaning(net: Network, found: seq<string>, address: string)
    ensures address in OnlyIPv4(net, found) <==> address in found && net.isIPv4(address)
  {
    if found != [] {
      OnlyIPv4Meaning(net, found[..|found| - 1], address);
      assert found == found[..|found| - 1] + [found[|found| - 1]];
    }
  }

  /** Resolving a referral's servers gives the IPv4 addresses found for any of them. */
  lemma {:induction false} ResolvedMeaning(net: Network, round: nat, ns: seq<Name>, address: string)
    ensures address in Resolved(net, round, ns) <==>
      exists i :: 0 <= i < |ns| && net.resolve(round, ns[i]).Some? && address in net.resolve(round, ns[i]).value && net.isIPv4(address)
  {
    hide OnlyIPv4;
    if ns != [] {
      var n := |ns| - 1;
      ResolvedMeaning(net, round, ns[..n], address);
      if net.resolve(round, ns[n]).Some? { OnlyIPv4Meaning(net, net.resolve(round, ns[n]).value, address); }
      if i :| 0 <= i < |ns| && net.resolve(round, ns[i]).Some? && address in net.resolve(round, ns[i]).value && net.isIPv4(address) {
        if i < n { assert ns[..n][i] == ns[i]; }
      }
      if i :| 0 <= i < n && net.resolve(round, ns[..n][i]).Some? && address in net.resolve(round, ns[..n][i]).value && net.isIPv4(address) {
        assert ns[i] == ns[..n][i];
      }
    }
  }

  /** Glue, when there is any, and otherwise what the servers' names resolve to. */
  lemma NextServersMeaning(net: Network, round: nat, resp: Msg, ns: seq<Name>, address: string)
    ensures address in NextServers(net, round, resp, ns) <==>
      if exists a :: a in Glue(resp.extra, ns) then address in Glue(resp.extra, ns) else address in Resolved(net, round, ns)
  {
    hide Glue, Resolved;
    if Glue(resp.extra, ns) != [] { assert Glue(resp.extra, ns)[0] in Glue(resp.extra, ns); }
  }

  method AppendIPv4(net: Network, before: seq<string>, found: seq<string>) returns (addrs: seq<string>)
    ensures addrs == before + OnlyIPv4(net, found)
  {
    addrs := before;
    for i := 0 to |found|
      invariant addrs == before + OnlyIPv4(net, found[..i])
    {
      assert found[..i + 1][..i] == found[..i];
      if net.isIPv4(found[i]) { addrs := addrs + [found[i]]; }
    }
    assert found[..|found|] == found;
  }

  method Addresses(net: Network, round: nat, resp: Msg, ns: seq<Name>) returns (r: Option<seq<string>>)
    ensures r == if NextServers(net, round, resp, ns) == [] then None else Some(NextServers(net, round, resp, ns))
  {
    hide OnlyIPv4, LowerName;
    var addrs: seq<string> := [];
    for i := 0 to |resp.extra|
      invariant addrs == Glue(resp.extra[..i], ns)
    {
      assert resp.extra[..i + 1][..i] == resp.extra[..i];
      if IsGlue(resp.extra[i], ns) { addrs := addrs + [resp.extra[i].address]; }
    }
    assert resp.extra[..|resp.extra|] == resp.extra;
    if addrs != [] { return Some(addrs); }
    for i := 0 to |ns|
      invariant addrs == Resolved(net, round, ns[..i])
    {
      assert ns[..i + 1][..i] == ns[..i];
      var found := net.resolve(round, ns[i]);
      if found.Some? { addrs := AppendIPv4(net, addrs, found.value); }
    }
    assert ns[..|ns|] == ns;
    if addrs == [] { return None; }
    return Some(addrs);
  }

  // The walk.

  datatype Outcome =
    | Found(servers: seq<Name>, parent: Name)
    | NoAnswer(zone: Name)
    | ReferredBack(zone: Name, owner: Name)
    | NoAddress(zone: Name)
    | TooManyReferrals(zone: Name)

  /** What becomes of a round: an outcome, or another zone to ask. */
  datatype Move = Done(outcome: Outcome) | Descend(zone: Name, servers: seq<string>)

  function Round(net: Network, target: Name, round: nat, zone: Name, servers: seq<string>): Move {
    match FirstAnswer(net, round, servers, 0)
    case None => Done(NoAnswer(zone))
    case Some(resp) =>
      match Deepest(resp.authority, target)
      case None => Done(Found(HostsOf(resp.answer + resp.authority, target), zone))
      case Some(owner) =>
        if resp.authoritative then Done(Found(HostsOf(resp.answer + resp.authority, target), zone))
        else if owner == target then Done(Found(HostsOf(resp.authority, target), zone))
        else if !IsSubDomain(zone, owner) || owner == zone then Done(ReferredBack(zone, owner))
        else
          var next := NextServers(net, round, resp, HostsOf(resp.authority, owner));
          if next == [] then Done(NoAddress(owner)) else Descend(owner, next)
  }

  function Walk(net: Network, target: Name, round: nat, zone: Name, servers: seq<string>): Outcome
    decreases MAX_REFERRALS - round
  {
    if round >= MAX_REFERRALS then TooManyReferrals(zone)
    else
      match Round(net, target, round, zone, servers)
      case Done(outcome) => outcome
      case Descend(next, addrs) => Walk(net, target, round + 1, next, addrs)
  }

  /** The zones a walk reaches, from `zone` on. */
  ghost function Visited(net: Network, target: Name, round: nat, zone: Name, servers: seq<string>): (v: seq<Name>)
    ensures v != [] && v[0] == zone
    decreases MAX_REFERRALS - round
  {
    if round >= MAX_REFERRALS then [zone]
    else
      match Round(net, target, round, zone, servers)
      case Done(_) => [zone]
      case Descend(next, addrs) => [zone] + Visited(net, target, round + 1, next, addrs)
  }

  /** The NS names the parent of `name` publishes for it. */
  method Delegation(net: Network, name: Name, roots: seq<string>) returns (r: Outcome)
    ensures r == Walk(net, LowerName(name), 0, ROOT, roots)
  {
    hide FirstAnswer, HostsOf, LowerName, NextServers, Deepest, Delegates;
    var target := LowerName(name);
    var zone, addrs := ROOT, roots;
    for round := 0 to MAX_REFERRALS
      invariant Walk(net, target, 0, ROOT, roots) == Walk(net, target, round, zone, addrs)
    {
      var resp := Ask(net, round, addrs);
      if resp.None? { return NoAnswer(zone); }
      var owner, ns := Referral(resp.value, target);
      if owner.None? || resp.value.authoritative {
        var servers := AnswerNS(resp.value, target);
        return Found(servers, zone);
      }
      if owner.value == target { return Found(ns, zone); }
      if !IsSubDomain(zone, owner.value) || owner.value == zone { return ReferredBack(zone, owner.value); }
      zone := owner.value;
      var next := Addresses(net, round, resp.value, ns);
      if next.None? { return NoAddress(zone); }
      addrs := next.value;
    }
    return TooManyReferrals(zone);
  }

  // What holds of every walk, whatever the servers answer.

  /** A proper ancestor. */
  predicate Above(zone: Name, target: Name) { IsSubDomain(zone, target) && |zone| < |target| }

  /** Each zone reached is properly below the one before it and properly above the target. */
  ghost predicate Deepening(target: Name, visited: seq<Name>) {
    && (forall i :: 0 <= i < |visited| ==> Above(visited[i], target))
    && (forall i :: 0 < i < |visited| ==> Above(visited[i - 1], visited[i]))
  }

  lemma {:induction false} WalkDeepens(net: Network, target: Name, round: nat, zone: Name, servers: seq<string>)
    requires Above(zone, target)
    ensures Deepening(target, Visited(net, target, round, zone, servers))
    decreases MAX_REFERRALS - round
  {
    hide Round, IsSubDomain;
    var v := Visited(net, target, round, zone, servers);
    if round < MAX_REFERRALS && Round(net, target, round, zone, servers).Descend? {
      var move := Round(net, target, round, zone, servers);
      DescentAbove(net, target, round, zone, servers);
      WalkDeepens(net, target, round + 1, move.zone, move.servers);
      var rest := Visited(net, target, round + 1, move.zone, move.servers);
      assert v == [zone] + rest;
      forall i | 0 < i < |v| ensures Above(v[i - 1], v[i]) {
        if i > 1 { assert Above(rest[i - 2], rest[i - 1]); }
      }
    }
  }

  lemma DescentAbove(net: Network, target: Name, round: nat, zone: Name, servers: seq<string>)
    requires Round(net, target, round, zone, servers).Descend?
    ensures Above(zone, Round(net, target, round, zone, servers).zone) && Above(Round(net, target, round, zone, servers).zone, target)
  {
    hide FirstAnswer, HostsOf, NextServers, Deepest;
    var resp := FirstAnswer(net, round, servers, 0).value;
    DeepestMeaning(resp.authority, target);
  }

  lemma {:induction false} Depth(target: Name, visited: seq<Name>, i: nat)
    requires Deepening(target, visited) && i < |visited|
    ensures |visited[0]| + i <= |visited[i]| < |target|
  {
    if i > 0 { Depth(target, visited, i - 1); }
  }

  lemma {:induction false} LimitLength(net: Network, target: Name, round: nat, zone: Name, servers: seq<string>)
    requires round <= MAX_REFERRALS && Walk(net, target, round, zone, servers).TooManyReferrals?
    ensures |Visited(net, target, round, zone, servers)| == MAX_REFERRALS - round + 1
    decreases MAX_REFERRALS - round
  {
    hide Round;
    if round < MAX_REFERRALS {
      var move := Round(net, target, round, zone, servers);
      RoundStops(net, target, round, zone, servers);
      if move.Descend? { LimitLength(net, target, round + 1, move.zone, move.servers); }
    }
  }

  /** A walk for a name of at most sixteen labels never meets the referral limit. */
  lemma LimitUnreachable(net: Network, target: Name, roots: seq<string>)
    requires |target| <= MAX_REFERRALS
    ensures !Walk(net, target, 0, ROOT, roots).TooManyReferrals?
  {
    hide Round;
    if Walk(net, target, 0, ROOT, roots).TooManyReferrals? {
      if target == ROOT { RoundStops(net, ROOT, 0, ROOT, roots); RootStops(net, 0, ROOT, roots); }
      LimitLength(net, target, 0, ROOT, roots);
      WalkDeepens(net, target, 0, ROOT, roots);
      Depth(target, Visited(net, target, 0, ROOT, roots), MAX_REFERRALS);
    }
  }

  lemma RoundStops(net: Network, target: Name, round: nat, zone: Name, servers: seq<string>)
    ensures Round(net, target, round, zone, servers).Done? ==> !Round(net, target, round, zone, servers).outcome.TooManyReferrals?
  {
    hide FirstAnswer, HostsOf, NextServers, Deepest, IsSubDomain, LowerName;
  }

  lemma RootStops(net: Network, round: nat, zone: Name, servers: seq<string>)
    ensures Round(net, ROOT, round, zone, servers).Done?
  {
    hide Round;
    if Round(net, ROOT, round, zone, servers).Descend? { DescentAbove(net, ROOT, round, zone, servers); }
  }

  /** The servers found are those that one usable response publishes for the target: all of them, from nowhere else. */
  ghost predicate TakenFrom(net: Network, target: Name, round: nat, asked: seq<string>, found: seq<Name>) {
    match FirstAnswer(net, round, asked, 0)
    case None => false
    case Some(resp) =>
      if resp.authoritative || !Delegates(resp.authority, target, target)
      then found == HostsOf(resp.answer + resp.authority, target)
      else found == HostsOf(resp.authority, target)
  }

  lemma RoundFound(net: Network, target: Name, round: nat, zone: Name, servers: seq<string>)
    requires Round(net, target, round, zone, servers).Done? && Round(net, target, round, zone, servers).outcome.Found?
    ensures TakenFrom(net, target, round, servers, Round(net, target, round, zone, servers).outcome.servers)
    ensures Round(net, target, round, zone, servers).outcome.parent == zone
  {
    hide FirstAnswer, HostsOf, NextServers, Deepest;
    DeepestMeaning(FirstAnswer(net, round, servers, 0).value.authority, target);
  }

  /** The servers asked at each zone the walk reaches. */
  ghost function Asked(net: Network, target: Name, round: nat, zone: Name, servers: seq<string>): (a: seq<seq<string>>)
    ensures |a| == |Visited(net, target, round, zone, servers)| && a[0] == servers
    decreases MAX_REFERRALS - round
  {
    if round >= MAX_REFERRALS then [servers]
    else
      match Round(net, target, round, zone, servers)
      case Done(_) => [servers]
      case Descend(next, addrs) => [servers] + Asked(net, target, round + 1, next, addrs)
  }

  /** Each zone after the first, and its servers, is where the round before it descended. */
  lemma {:induction false} WalkDescends(net: Network, target: Name, round: nat, zone: Name, servers: seq<string>, i: nat)
    requires 0 < i < |Visited(net, target, round, zone, servers)|
    ensures var v, a := Visited(net, target, round, zone, servers), Asked(net, target, round, zone, servers);
            Round(net, target, round + i - 1, v[i - 1], a[i - 1]) == Descend(v[i], a[i])
    decreases MAX_REFERRALS - round
  {
    hide Round;
    var move := Round(net, target, round, zone, servers);
    if i > 1 { WalkDescends(net, target, round + 1, move.zone, move.servers, i - 1); }
  }

  /** A delegation comes from the servers of the last zone the walk reached, which is reported as the parent. */
  lemma {:induction false} WalkFound(net: Network, target: Name, round: nat, zone: Name, servers: seq<string>)
    requires Walk(net, target, round, zone, servers).Found?
    ensures var v, a := Visited(net, target, round, zone, servers), Asked(net, target, round, zone, servers);
      && round + |v| <= MAX_REFERRALS && Walk(net, target, round, zone, servers).parent == v[|v| - 1]
      && TakenFrom(net, target, round + |v| - 1, a[|v| - 1], Walk(net, target, round, zone, servers).servers)
    decreases MAX_REFERRALS - round
  {
    hide Round, TakenFrom;
    var move := Round(net, target, round, zone, servers);
    if move.Descend? {
      var v, a := Visited(net, target, round + 1, move.zone, move.servers), Asked(net, target, round + 1, move.zone, move.servers);
      assert ([zone] + v)[|v|] == v[|v| - 1] && ([servers] + a)[|v|] == a[|v| - 1];
      WalkFound(net, target, round + 1, move.zone, move.servers);
    } else {
      RoundFound(net, target, round, zone, servers);
    }
  }

  /** Why a walk ends without a delegation. */
  ghost predicate EndsWith(net: Network, target: Name, round: nat, zone: Name, asked: seq<string>, outcome: Outcome) {
    var resp := FirstAnswer(net, round, asked, 0);
    match outcome
    case NoAnswer(z) => z == zone && resp.None?
    case ReferredBack(z, owner) =>
      z == zone && resp.Some? && !resp.value.authoritative && IsDeepest(resp.value.authority, target, owner) && owner != target && !Above(zone, owner)
    case NoAddress(z) =>
      && resp.Some? && !resp.value.authoritative && IsDeepest(resp.value.authority, target, z) && z != target && Above(zone, z)
      && NextServers(net, round, resp.value, HostsOf(resp.value.authority, z)) == []
    case _ => false
  }

  lemma RoundEnds(net: Network, target: Name, round: nat, zone: Name, servers: seq<string>)
    requires Round(net, target, round, zone, servers).Done? && !Round(net, target, round, zone, servers).outcome.Found?
    ensures EndsWith(net, target, round, zone, servers, Round(net, target, round, zone, servers).outcome)
  {
    hide FirstAnswer, HostsOf, NextServers, Deepest, IsDeepest;
    var resp := FirstAnswer(net, round, servers, 0);
    if resp.Some? { DeepestMeaning(resp.value.authority, target); }
  }

  /** A walk that finds nothing ends for the reason it gives, at the last zone it reached, or after sixteen descents. */
  lemma {:induction false} WalkEnds(net: Network, target: Name, round: nat, zone: Name, servers: seq<string>)
    requires round <= 16 && !Walk(net, target, round, zone, servers).Found?
    ensures var v, a := Visited(net, target, round, zone, servers), Asked(net, target, round, zone, servers);
      if round + |v| == 17 then Walk(net, target, round, zone, servers) == TooManyReferrals(v[|v| - 1])
      else round + |v| < 17 && EndsWith(net, target, round + |v| - 1, v[|v| - 1], a[|v| - 1], Walk(net, target, round, zone, servers))
    decreases 16 - round
  {
    hide Round, EndsWith;
    if round < 16 {
      var move := Round(net, target, round, zone, servers);
      if move.Descend? {
        var v, a := Visited(net, target, round + 1, move.zone, move.servers), Asked(net, target, round + 1, move.zone, move.servers);
        assert ([zone] + v)[|v|] == v[|v| - 1] && ([servers] + a)[|v|] == a[|v| - 1];
        WalkEnds(net, target, round + 1, move.zone, move.servers);
      } else {
        RoundEnds(net, target, round, zone, servers);
      }
    }
  }

  // Every longer name can meet the referral limit.

  function Ancestor(target: Name, n: nat): Name
    requires n <= |target|
  {
    target[|target| - n..]
  }

  /** Servers that always refer to the next zone down, with an address for it. */
  function Ladder(target: Name): Network {
    Network((round: nat, i: nat, server: string) =>
              Reply(Rung(if round < |target| then Ancestor(target, round + 1) else target)),
            (round: nat, i: nat) => false,
            (round: nat, host: Name) => None,
            (address: string) => true)
  }

  function Rung(owner: Name): Msg { Msg(false, RCODE_SUCCESS, [], [NS(owner, ["ns"])], [A(["ns"], "192.0.2.1")]) }

  lemma RungMeaning(owner: Name, target: Name)
    requires LowerName(owner) == owner && IsSubDomain(owner, target)
    ensures Deepest(Rung(owner).authority, target) == Some(owner)
    ensures Glue(Rung(owner).extra, HostsOf(Rung(owner).authority, owner)) == ["192.0.2.1"]
  {
    var rrs, extra, host := Rung(owner).authority, Rung(owner).extra, LowerName(["ns"]);
    assert rrs[..0] == [] && extra[..0] == [];
    assert Publishes(rrs[0], owner) && Delegates(rrs, target, owner);
    assert HostsOf(rrs, owner) == [host];
    LowerIdempotent("ns");
    assert LowerName(host) == host;
    hide LowerName;
    var ns := [host];
    assert LowerName(ns[0]) == LowerName(extra[0].owner);
    assert IsGlue(extra[0], ns);
    assert Glue(extra, ns) == ["192.0.2.1"];
  }

  lemma LowerAncestor(target: Name, n: nat)
    requires LowerName(target) == target && n <= |target|
    ensures LowerName(Ancestor(target, n)) == Ancestor(target, n)
  {
    var owner := Ancestor(target, n);
    forall i | 0 <= i < |owner| ensures LowerName(owner)[i] == owner[i] {
      assert LowerName(target)[|target| - n + i] == Lower(owner[i]);
    }
  }

  lemma LadderRound(target: Name, round: nat, servers: seq<string>)
    requires LowerName(target) == target && round + 1 < |target| && servers != []
    ensures Round(Ladder(target), target, round, Ancestor(target, round), servers) == Descend(Ancestor(target, round + 1), ["192.0.2.1"])
  {
    hide LowerName, Deepest, HostsOf, Glue;
    var owner := Ancestor(target, round + 1);
    assert FirstAnswer(Ladder(target), round, servers, 0) == Some(Rung(owner));
    LowerAncestor(target, round + 1);
    RungMeaning(owner, target);
    assert IsSubDomain(Ancestor(target, round), owner);
  }

  lemma {:induction false} LadderClimbs(target: Name, round: nat, servers: seq<string>)
    requires LowerName(target) == target && round <= MAX_REFERRALS < |target| && servers != []
    ensures Walk(Ladder(target), target, round, Ancestor(target, round), servers).TooManyReferrals?
    decreases MAX_REFERRALS - round
  {
    hide Round, Ladder, Ancestor;
    if round < MAX_REFERRALS {
      LadderRound(target, round, servers);
      LadderClimbs(target, round + 1, ["192.0.2.1"]);
    }
  }

  /** The referral limit can be met exactly for names of more than sixteen labels. */
  lemma LimitReachable(target: Name, roots: seq<string>)
    requires LowerName(target) == target && roots != []
    ensures (exists net: Network :: Walk(net, target, 0, ROOT, roots).TooManyReferrals?) <==> |target| > MAX_REFERRALS
  {
    if |target| > MAX_REFERRALS {
      assert Ancestor(target, 0) == ROOT;
      LadderClimbs(target, 0, roots);
    } else {
      forall net: Network ensures !Walk(net, target, 0, ROOT, roots).TooManyReferrals? { LimitUnreachable(net, target, roots); }
    }
  }
}
