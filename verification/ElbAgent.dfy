/**
 The load balancer agent: it polls a gateway, and when the configuration has
 changed it writes certificates, then the configuration, then reloads the
 engine, and only then removes certificates no longer delivered. Every file
 operation may fail.
 */
module ElbAgent {
  import opened Wrappers
  import opened Paths

  const ENGINE_HAPROXY := "haproxy"
  const ENGINE_NGINX := "nginx"

  datatype Engine = HAProxy | Nginx

  function EngineOf(name: string): Engine { if name == ENGINE_NGINX then Nginx else HAProxy }

  /** A response without an engine is for HAProxy, and only the name of nginx selects nginx. */
  lemma EngineMeaning(r: Response)
    ensures EngineName(r) == (if r.engine == "" then "haproxy" else r.engine)
    ensures EngineOf(EngineName(r)) == (if r.engine == "nginx" then Nginx else HAProxy)
  {
  }

  function CertDir(e: Engine): string { if e.Nginx? then "/etc/nginx/certs" else "/etc/haproxy/certs" }

  // Certificate paths.

  /** The last element of a cleaned path. */
  function Base(clean: string): string {
    var cs := Split(clean);
    if cs[|cs| - 1] == "" then "/" else cs[|cs| - 1]
  }

  function Parent(dir: string): string {
    var cs := Split(dir);
    if |cs| <= 2 then "/" else Join(cs[..|cs| - 1])
  }

  /** A directory and one path element, joined and cleaned. */
  function Joined(dir: string, base: string): string {
    if base == "." || base == "/" then dir else if base == ".." then Parent(dir) else dir + "/" + base
  }

  /** The check a delivered path must pass. */
  predicate Inside(dir: string, clean: string) { clean == Joined(dir, Base(clean)) }

  predicate FileName(name: string) { NoSlash(name) && name != "" && name != "." && name != ".." }

  lemma {:induction false} JoinLast(cs: seq<string>, c: string)
    requires |cs| >= 1
    ensures Join(cs + [c]) == Join(cs) + "/" + c
  {
    if |cs| > 1 {
      JoinLast(cs[1..], c);
      JoinCons(cs[0], cs[1..]);
      JoinCons(cs[0], cs[1..] + [c]);
      assert [cs[0]] + cs[1..] == cs && [cs[0]] + (cs[1..] + [c]) == cs + [c];
      assert cs[0] + "/" + (Join(cs[1..]) + "/" + c) == cs[0] + "/" + Join(cs[1..]) + "/" + c;
    } else {
      JoinCons(cs[0], [c]);
      assert cs + [c] == [cs[0]] + [c];
    }
  }

  lemma SplitLast(dir: string, name: string)
    requires NoSlash(name)
    ensures Split(dir + "/" + name) == Split(dir) + [name]
  {
    JoinSplit(dir);
    JoinLast(Split(dir), name);
    SplitPieces(dir);
    SplitJoin(Split(dir) + [name]);
  }

  /** A directory whose last two elements are ordinary names. */
  predicate OrdinaryDir(dir: string) {
    && Base(dir) != "." && Base(dir) != "/" && Base(Parent(dir)) != ".."
  }

  /** A path passes the check exactly when it is an ordinary file name directly inside the directory. */
  lemma InsideMeaning(dir: string, clean: string)
    requires OrdinaryDir(dir)
    ensures Inside(dir, clean) <==> FileName(Base(clean)) && clean == dir + "/" + Base(clean)
  {
    SplitPieces(clean);
  }

  lemma CertDirOrdinary(e: Engine)
    ensures OrdinaryDir(CertDir(e))
  {
    hide Split, Join;
    var product := if e.Nginx? then "nginx" else "haproxy";
    var etc := "" + "/" + "etc";
    var home := etc + "/" + product;
    assert CertDir(e) == home + "/" + "certs";
    SplitOne("");
    SplitLast("", "etc");
    SplitLast(etc, product);
    SplitLast(home, "certs");
    JoinSplit(home);
    assert Split(CertDir(e))[..3] == Split(home);
  }

  // Files, configurations and responses.

  datatype CertFile = CertFile(path: string, pem: string)

  datatype Response = Response(text: string, hash: string, engine: string, certs: seq<CertFile>, targets: seq<string>)

  /** A configuration and the names of the certificates it refers to. */
  datatype Config = Config(text: string, names: set<string>)

  /** One engine's certificate directory, its configuration on disk and the one it is serving. */
  datatype Side = Side(files: map<string, string>, disk: Option<Config>, live: Option<Config>)

  type World = map<Engine, Side>

  function Names(clean: string -> string, certs: seq<CertFile>): set<string> { set c | c in certs :: Base(clean(c.path)) }

  /** A configuration refers to exactly the certificates delivered with it. */
  function ConfigOf(clean: string -> string, r: Response): Config { Config(r.text, Names(clean, r.certs)) }

  function EngineName(r: Response): string { if r.engine == "" then ENGINE_HAPROXY else r.engine }

  predicate Named(c: Option<Config>, files: map<string, string>) { c.Some? ==> c.value.names <= files.Keys }

  /** Every certificate the engine serves or would serve on a restart is there. */
  predicate Available(s: Side) { Named(s.disk, s.files) && Named(s.live, s.files) }

  predicate AllAvailable(w: World) { HAProxy in w && Nginx in w && Available(w[HAProxy]) && Available(w[Nginx]) }

  /** The first `n` certificates pass the check and are written. */
  ghost predicate Accepted(clean: string -> string, e: Engine, certs: seq<CertFile>, faults: Faults, n: nat)
    requires n <= |certs|
  {
    forall i :: 0 <= i < n ==> Inside(CertDir(e), clean(certs[i].path)) && certs[i].pem != "" && faults.write(i).Written?
  }

  /** Every certificate passes the check and is written. */
  ghost predicate Writable(clean: string -> string, e: Engine, certs: seq<CertFile>, faults: Faults) {
    certs == [] || (!faults.mkdirFails && Accepted(clean, e, certs, faults, |certs|))
  }

  lemma NothingRefused(clean: string -> string, e: Engine, certs: seq<CertFile>, faults: Faults)
    ensures Accepted(clean, e, certs, faults, 0)
  {
  }

  lemma AcceptedMore(clean: string -> string, e: Engine, certs: seq<CertFile>, faults: Faults, i: nat)
    requires i < |certs| && Accepted(clean, e, certs, faults, i)
    ensures Accepted(clean, e, certs, faults, i + 1)
       <==> Inside(CertDir(e), clean(certs[i].path)) && certs[i].pem != "" && faults.write(i).Written?
    ensures !Accepted(clean, e, certs, faults, i + 1) ==> !Accepted(clean, e, certs, faults, |certs|)
  {
    hide Inside, CertDir;
  }

  /** A configuration was delivered, and its certificates, the configuration and the reload all went through. */
  ghost predicate Applies(clean: string -> string, fetch: Fetch, faults: Faults) {
    && fetch.Delivered? && fetch.response.text != "" && !faults.configFails && !faults.reloadFails
    && Writable(clean, EngineOf(EngineName(fetch.response)), fetch.response.certs, faults)
  }

  /** No delivered-and-gone certificate can resist removal. */
  ghost predicate Prunes(faults: Faults) { !faults.readDirFails && forall n :: !faults.removeFails(n) }

  /** Files were added or overwritten under `names` only, and nothing else changed. */
  ghost predicate Grows(before: Side, after: Side, names: set<string>) {
    && after == before.(files := after.files)
    && before.files.Keys <= after.files.Keys <= before.files.Keys + names
    && forall n :: n in before.files && n !in names ==> after.files[n] == before.files[n]
  }

  function FileOf(clean: string -> string, c: CertFile): string { Base(clean(c.path)) }

  /** No later certificate has the name of certificate `i`. */
  ghost predicate LastNamed(clean: string -> string, certs: seq<CertFile>, i: nat)
    requires i < |certs|
  {
    forall j :: i < j < |certs| ==> FileOf(clean, certs[j]) != FileOf(clean, certs[i])
  }

  ghost predicate Stores(clean: string -> string, c: CertFile, files: map<string, string>) {
    FileOf(clean, c) in files && files[FileOf(clean, c)] == c.pem
  }

  /** Every certificate has its content on disk, where two of one name the later one's. */
  ghost predicate Contents(clean: string -> string, certs: seq<CertFile>, files: map<string, string>) {
    forall i :: 0 <= i < |certs| && LastNamed(clean, certs, i) ==> Stores(clean, certs[i], files)
  }

  lemma ContentsMore(clean: string -> string, certs: seq<CertFile>, c: CertFile, before: Side, after: Side)
    requires Contents(clean, certs, before.files) && Grows(before, after, {FileOf(clean, c)}) && Stores(clean, c, after.files)
    ensures Contents(clean, certs + [c], after.files)
  {
    hide FileOf;
    var all := certs + [c];
    forall i | 0 <= i < |all| && LastNamed(clean, all, i) ensures Stores(clean, all[i], after.files) {
      if i < |certs| {
        assert FileOf(clean, all[|certs|]) != FileOf(clean, all[i]);
        LastNamedBefore(clean, certs, c, i);
        assert Stores(clean, certs[i], before.files);
      }
    }
  }

  lemma LastNamedBefore(clean: string -> string, certs: seq<CertFile>, c: CertFile, i: nat)
    requires i < |certs| && LastNamed(clean, certs + [c], i)
    ensures LastNamed(clean, certs, i)
  {
    hide FileOf;
    forall j | i < j < |certs| ensures FileOf(clean, certs[j]) != FileOf(clean, certs[i]) { assert (certs + [c])[j] == certs[j]; }
  }

  lemma ContentsNone(clean: string -> string, certs: seq<CertFile>, files: map<string, string>)
    ensures Contents(clean, certs[..0], files)
  {
  }

  lemma ContentsPruned(clean: string -> string, certs: seq<CertFile>, before: Side, after: Side)
    requires Contents(clean, certs, before.files) && Pruned(before, after, Names(clean, certs))
    ensures Contents(clean, certs, after.files)
  {
    hide Base, IsPem, LastNamed;
    forall i | 0 <= i < |certs| ensures FileOf(clean, certs[i]) in Names(clean, certs) { assert certs[i] in certs; }
  }

  predicate IsPem(name: string) { |name| >= 4 && name[|name| - 4..] == ".pem" }

  /** The files pruning may remove are those whose names end in ".pem". */
  lemma PemMeaning(name: string)
    ensures IsPem(name) <==> exists stem: string :: WithSuffix(name, stem)
  {
    if IsPem(name) { assert WithSuffix(name, name[..|name| - 4]); }
    if stem: string :| WithSuffix(name, stem) { assert name[|stem|..] == ".pem"; }
  }

  ghost predicate WithSuffix(name: string, stem: string) { name == stem + ".pem" }

  // What may go wrong.

  datatype WriteResult = Written | NotOpened | Truncated

  datatype Faults = Faults(mkdirFails: bool, write: nat -> WriteResult, configFails: bool, reloadFails: bool, readDirFails: bool, removeFails: string -> bool)

  datatype Fetch = Unreachable | Delivered(response: Response)

  datatype Heartbeat = Answered(hash: string) | Rejected(notFound: bool, withinGrace: bool)

  /** The gateway says that the load balancer is gone, and it cannot be the record's own delay. */
  predicate Gone(beat: Heartbeat, everAnswered: bool) { beat.Rejected? && beat.notFound && (everAnswered || !beat.withinGrace) }

  /** When, if at all, a stop arrives from outside during a tick. */
  datatype Arrival = Never | BeforeBeat | AfterBeat

  datatype Cycle = Cycle(beat: Heartbeat, fetch: Fetch, faults: Faults, stop: Arrival)

  /**
   What the poll loop meets: a stop from outside between ticks, the ticker, or
   its own look at the stop signal. The loop chooses at random between the last
   two, so it may tick although it has been stopped.
   */
  datatype Turn = StopArrives | TickerFires(cycle: Cycle) | StopSeen

  // What the agent did.

  /** A heartbeat reports probes of the targets, or the engine's own statistics. A halt comes between ticks or during one. */
  datatype Event = Beat(probed: Option<seq<string>>) | Halt | HaltMidTick

  /** No heartbeat follows a halt, except that of a tick already under way when the halt came. */
  ghost predicate Quiet(log: seq<Event>) {
    forall i, j :: 0 <= i < j < |log| && !log[i].Beat? && log[j].Beat? ==> log[i].HaltMidTick? && j == i + 1
  }

  ghost predicate Halted(log: seq<Event>) { exists i :: 0 <= i < |log| && !log[i].Beat? }

  class Agent {
    const clean: string -> string
    var engine: string
    var healthTargets: seq<string>
    var localConfigHash: string
    var firstHeartbeatOK: bool
    var stopped: bool
    var world: World
    /** The world after every file operation and reload so far. */
    ghost var trace: seq<World>
    /** The responses whose reload succeeded. */
    ghost var reloaded: seq<Response>
    ghost var log: seq<Event>

    ghost predicate Safe()
      reads this`world, this`trace
    {
      && trace != [] && trace[|trace| - 1] == world
      && forall i :: 0 <= i < |trace| ==> AllAvailable(trace[i])
    }

    /** The agent's settings are those of the last response that was reloaded. */
    ghost predicate Settled()
      reads this`reloaded, this`engine, this`healthTargets, this`localConfigHash
    {
      if reloaded == [] then engine == "" && healthTargets == [] && localConfigHash == ""
      else
        var r := reloaded[|reloaded| - 1];
        engine == EngineName(r) && healthTargets == r.targets && localConfigHash == r.hash
    }

    ghost predicate Valid()
      reads this
    {
      Safe() && Settled() && Quiet(log) && (stopped <==> Halted(log))
    }

    constructor (clean: string -> string)
      ensures Valid() && this.clean == clean && !stopped && reloaded == [] && log == []
    {
      this.clean := clean;
      engine, healthTargets, localConfigHash, firstHeartbeatOK, stopped := "", [], "", false, false;
      var start: World := map[HAProxy := Side(map[], None, None), Nginx := Side(map[], None, None)];
      world := start;
      trace, reloaded, log := [start], [], [];
    }

    /** One file operation or reload on one side. */
    method Step(e: Engine, side: Side)
      requires Safe() && Available(side)
      modifies this`world, this`trace
      ensures Safe() && world == old(world)[e := side] && old(trace) <= trace
    {
      assert AllAvailable(world);
      world := world[e := side];
      trace := trace + [world];
    }

    /** Writes one certificate, if its path and content are acceptable. */
    method WriteCert(e: Engine, cert: CertFile, outcome: WriteResult) returns (ok: bool)
      requires Safe() && e in world
      modifies this`world, this`trace
      ensures Safe() && old(trace) <= trace && e in world && world == old(world)[e := world[e]]
      ensures Grows(old(world)[e], world[e], {Base(clean(cert.path))})
      ensures ok <==> Inside(CertDir(e), clean(cert.path)) && cert.pem != "" && outcome.Written?
      ensures ok ==> Base(clean(cert.path)) in world[e].files && world[e].files[Base(clean(cert.path))] == cert.pem
    {
      hide Inside, Base, CertDir;
      SafeSide(e);
      var path := clean(cert.path);
      if !Inside(CertDir(e), path) || cert.pem == "" || outcome.NotOpened? { return false; }
      var side := world[e];
      Step(e, side.(files := side.files[Base(path) := if outcome.Written? then cert.pem else ""]));
      ok := outcome.Written?;
    }

    /** Writes each certificate under the directory, stopping at the first that is refused or fails. */
    method WriteCertFiles(e: Engine, certs: seq<CertFile>, faults: Faults) returns (ok: bool)
      requires Safe() && e in world
      modifies this`world, this`trace
      ensures Safe() && old(trace) <= trace && e in world && world == old(world)[e := world[e]]
      ensures Grows(old(world)[e], world[e], Names(clean, certs))
      ensures ok ==> Names(clean, certs) <= world[e].files.Keys && Contents(clean, certs, world[e].files)
      ensures ok <==> Writable(clean, e, certs, faults)
    {
      hide Grows, Names, Placed, Safe, Base, Inside, CertDir, Accepted, Contents;
      GrowsSame(world[e], Names(clean, certs));
      NothingPlaced(clean, certs, world[e].files.Keys);
      ContentsNone(clean, certs, world[e].files);
      assert certs[..0] == [];
      if certs == [] { AllPlaced(clean, certs, world[e].files.Keys); return true; }
      if faults.mkdirFails { return false; }
      NothingRefused(clean, e, certs, faults);
      for i := 0 to |certs|
        invariant Safe() && old(trace) <= trace && e in world && world == old(world)[e := world[e]]
        invariant Grows(old(world)[e], world[e], Names(clean, certs))
        invariant Placed(clean, certs[..i], world[e].files.Keys)
        invariant Accepted(clean, e, certs, faults, i) && Contents(clean, certs[..i], world[e].files)
      {
        ghost var before := world[e];
        ok := WriteCert(e, certs[i], faults.write(i));
        GrowsMore(clean, certs, i, old(world)[e], before, world[e]);
        AcceptedMore(clean, e, certs, faults, i);
        if !ok { return; }
        assert certs[..i + 1] == certs[..i] + [certs[i]];
        PlacedMore(clean, certs[..i], certs[i], before, world[e]);
        ContentsMore(clean, certs[..i], certs[i], before, world[e]);
      }
      assert certs[..|certs|] == certs;
      AllPlaced(clean, certs, world[e].files.Keys);
      ok := true;
    }

    /** Puts the configuration in place by renaming it over the old one, so a failure leaves the old one. */
    method WriteConfig(e: Engine, config: Config, fails: bool) returns (ok: bool)
      requires Safe() && e in world && config.names <= world[e].files.Keys
      modifies this`world, this`trace
      ensures Safe() && old(trace) <= trace && e in world && ok == !fails
      ensures world == if fails then old(world) else old(world)[e := old(world)[e].(disk := Some(config))]
    {
      if fails { return false; }
      SafeSide(e);
      Step(e, world[e].(disk := Some(config)));
      ok := true;
    }

    /** The engine takes up the configuration on disk, or goes on serving what it had. */
    method Reload(e: Engine, fails: bool) returns (ok: bool)
      requires Safe() && e in world
      modifies this`world, this`trace
      ensures Safe() && old(trace) <= trace && e in world && ok == !fails
      ensures world == if fails then old(world) else old(world)[e := old(world)[e].(live := old(world)[e].disk)]
    {
      if fails { return false; }
      SafeSide(e);
      Step(e, world[e].(live := world[e].disk));
      ok := true;
    }

    /**
     Removes certificates that were not delivered, one by one in any order,
     stopping at the first that cannot be removed. It runs when the delivered
     configuration is both on disk and live, so what it keeps is all they need.
     */
    method PruneCertFiles(e: Engine, certs: seq<CertFile>, faults: Faults) returns (ok: bool)
      requires Safe() && e in world
      requires world[e].disk.Some? && world[e].live == world[e].disk && world[e].disk.value.names == Names(clean, certs)
      modifies this`world, this`trace
      ensures Safe() && old(trace) <= trace && e in world && world == old(world)[e := world[e]]
      ensures Pruned(old(world)[e], world[e], Names(clean, certs))
      ensures ok ==> forall n :: n in world[e].files && IsPem(n) ==> n in Names(clean, certs)
      ensures Prunes(faults) ==> ok
    {
      hide Names;
      var keep := Names(clean, certs);
      if faults.readDirFails { return false; }
      var todo := world[e].files.Keys;
      while todo != {}
        invariant Safe() && old(trace) <= trace && e in world && world == old(world)[e := world[e]]
        invariant todo <= world[e].files.Keys && Pruned(old(world)[e], world[e], keep)
        invariant forall n :: n in world[e].files && IsPem(n) && n !in todo ==> n in keep
        decreases |todo|
      {
        hide IsPem;
        var name :| name in todo;
        todo := todo - {name};
        if IsPem(name) && name !in keep {
          if faults.removeFails(name) { return false; }
          SafeSide(e);
          Step(e, world[e].(files := world[e].files - {name}));
        }
      }
      ok := true;
    }

    /** Certificates, then configuration, then reload, then pruning, whose failure does not matter. */
    method Apply(e: Engine, r: Response, faults: Faults) returns (ok: bool)
      requires Safe()
      modifies this`world, this`trace
      ensures Safe() && old(trace) <= trace && e in world && world == old(world)[e := world[e]]
      ensures ok ==> world[e].live == world[e].disk == Some(ConfigOf(clean, r)) && Contents(clean, r.certs, world[e].files)
      ensures ok <==> Writable(clean, e, r.certs, faults) && !faults.configFails && !faults.reloadFails
      ensures ok && Prunes(faults) ==> forall n :: n in world[e].files && IsPem(n) ==> n in Names(clean, r.certs)
    {
      hide Names, Grows, Pruned, Writable, IsPem, AllAvailable, Safe, Contents;
      SafeSide(e);
      ok := WriteCertFiles(e, r.certs, faults);
      if !ok { return; }
      ok := WriteConfig(e, ConfigOf(clean, r), faults.configFails);
      if !ok { return; }
      ok := Reload(e, faults.reloadFails);
      if !ok { return; }
      ghost var before := world[e];
      var pruned := PruneCertFiles(e, r.certs, faults);
      PrunedConfigs(before, world[e], Names(clean, r.certs));
      ContentsPruned(clean, r.certs, before, world[e]);
    }

    /** Fetches a changed configuration and applies it; the settings change only after a successful reload. */
    method FetchAndApplyConfig(fetch: Fetch, faults: Faults) returns (ok: bool)
      requires Safe() && Settled()
      modifies this`world, this`trace, this`reloaded, this`engine, this`healthTargets, this`localConfigHash
      ensures Safe() && Settled() && old(trace) <= trace
      ensures ok ==> fetch.Delivered? && reloaded == old(reloaded) + [fetch.response]
      ensures ok ==> engine == (if fetch.response.engine == "" then "haproxy" else fetch.response.engine)
      ensures ok ==> healthTargets == fetch.response.targets && localConfigHash == fetch.response.hash
      ensures ok ==> var e := if fetch.response.engine == "nginx" then Nginx else HAProxy;
        && e in world && world[e].live == world[e].disk && world[e].live.Some? && world[e].live.value.text == fetch.response.text
        && Contents(clean, fetch.response.certs, world[e].files)
      ensures !ok ==> engine == old(engine) && healthTargets == old(healthTargets) && localConfigHash == old(localConfigHash)
      ensures fetch.Delivered? ==> var other := if fetch.response.engine == "nginx" then HAProxy else Nginx;
        other in world && other in old(world) && world[other] == old(world)[other]
      ensures !ok ==> reloaded == old(reloaded)
      ensures ok <==> Applies(clean, fetch, faults)
    {
      hide Writable, AllAvailable, Contents;
      SafeSide(HAProxy);
      SafeSide(Nginx);
      if fetch.Unreachable? || fetch.response.text == "" { return false; }
      var r := fetch.response;
      EngineMeaning(r);
      ok := Apply(EngineOf(EngineName(r)), r, faults);
      if !ok { return; }
      engine, healthTargets, localConfigHash := EngineName(r), r.targets, r.hash;
      reloaded := reloaded + [r];
    }

    /** Signals the poll loop to exit; a second signal does nothing. */
    method Stop()
      requires Safe() && Settled() && Quiet(log) && (stopped <==> Halted(log))
      modifies this`stopped, this`log
      ensures Valid() && stopped
      ensures log == if old(stopped) then old(log) else old(log) + [Halt]
    {
      if stopped { return; }
      stopped := true;
      LogHalt(log, Halt);
      log := log + [Halt];
    }

    /**
     One heartbeat cycle. A stopped agent does nothing. A stop may also arrive
     from outside while the cycle is under way, before its heartbeat or after.
     */
    method Tick(c: Cycle)
      requires Valid()
      modifies this
      ensures Valid() && old(trace) <= trace
      ensures old(stopped) ==> log == old(log) && world == old(world) && trace == old(trace)
      ensures !old(stopped) ==> log == TickLog(old(log), c, old(engine), old(healthTargets), old(firstHeartbeatOK))
      ensures stopped <==> old(stopped) || !c.stop.Never? || (c.beat.Rejected? && c.beat.notFound && (old(firstHeartbeatOK) || !c.beat.withinGrace))
      ensures firstHeartbeatOK == (old(firstHeartbeatOK) || (!old(stopped) && c.beat.Answered?))
      ensures reloaded == if !old(stopped) && c.beat.Answered? && c.beat.hash != "" && c.beat.hash != old(localConfigHash) && Applies(clean, c.fetch, c.faults)
                          then old(reloaded) + [c.fetch.response] else old(reloaded)
    {
      hide Safe, Settled, Quiet, Halted, Applies, WithBeat;
      if stopped { return; }
      SendHeartbeat(c.stop.BeforeBeat?);
      if c.stop.AfterBeat? { Stop(); }
      if c.beat.Rejected? {
        if !firstHeartbeatOK && c.beat.withinGrace { return; }
        if c.beat.notFound { Stop(); }
        return;
      }
      firstHeartbeatOK := true;
      if c.beat.hash != "" && c.beat.hash != localConfigHash {
        var ok := FetchAndApplyConfig(c.fetch, c.faults);
      }
    }

    /** Reports probes of the targets, or the engine's statistics when it is not nginx. */
    method SendHeartbeat(stopMidTick: bool)
      requires Quiet(log) && !Halted(log) && !stopped
      modifies this`stopped, this`log
      ensures Quiet(log) && (stopped <==> Halted(log)) && stopped == stopMidTick
      ensures old(log) <= log == WithBeat(old(log), stopMidTick, engine, healthTargets)
    {
      hide Quiet, Halted;
      var probed := if engine == ENGINE_NGINX then Some(healthTargets) else None;
      if stopMidTick { LogLateBeat(log, probed); } else { LogBeat(log, probed); }
      stopped := stopMidTick;
      log := log + (if stopMidTick then [HaltMidTick] else []) + [Beat(probed)];
      assert !stopMidTick ==> old(log) + [] == old(log);
    }

    /** The poll loop: a first tick, and then whatever comes until the loop sees that it has been stopped. */
    method Start(first: Cycle, turns: seq<Turn>) returns (exited: bool)
      requires Valid()
      modifies this
      ensures Valid() && old(trace) <= trace && old(log) <= log
      ensures exited ==> stopped
      ensures (exists i :: 0 <= i < |turns| && turns[i].StopArrives?) ==> stopped
      ensures old(stopped) ==> log == old(log) && trace == old(trace)
    {
      hide Safe, Settled, Quiet, Halted, Gone, Applies;
      Tick(first);
      for i := 0 to |turns|
        invariant Valid() && old(trace) <= trace && old(log) <= log
        invariant (exists k :: 0 <= k < i && turns[k].StopArrives?) ==> stopped
        invariant old(stopped) ==> stopped && log == old(log) && trace == old(trace)
      {
        match turns[i]
        case StopArrives => Stop();
        case TickerFires(c) => Tick(c);
        case StopSeen => if stopped { return true; }
      }
      exited := false;
    }

    lemma SafeSide(e: Engine)
      requires Safe()
      ensures e in world && Available(world[e])
    {
      assert AllAvailable(trace[|trace| - 1]);
      match e case HAProxy => case Nginx =>
    }
  }

  /** Only undelivered certificates were removed. */
  ghost predicate Pruned(before: Side, after: Side, keep: set<string>) {
    && after == before.(files := after.files)
    && after.files.Keys <= before.files.Keys
    && (forall n :: n in before.files && (!IsPem(n) || n in keep) ==> n in after.files)
    && forall n :: n in after.files ==> after.files[n] == before.files[n]
  }

  lemma PrunedConfigs(before: Side, after: Side, keep: set<string>)
    requires Pruned(before, after, keep)
    ensures after.disk == before.disk && after.live == before.live
  {
  }

  // The log.

  /** The log after a tick's heartbeat. */
  ghost function WithBeat(log: seq<Event>, stopMidTick: bool, engine: string, targets: seq<string>): seq<Event> {
    log + (if stopMidTick then [HaltMidTick] else []) + [Beat(if engine == ENGINE_NGINX then Some(targets) else None)]
  }

  /** The log after a tick: its heartbeat, and the halt the tick was told of after it or ordered itself. */
  ghost function TickLog(log: seq<Event>, c: Cycle, engine: string, targets: seq<string>, everAnswered: bool): seq<Event> {
    WithBeat(log, c.stop.BeforeBeat?, engine, targets)
    + if c.stop.AfterBeat? || (c.stop.Never? && Gone(c.beat, everAnswered)) then [Halt] else []
  }

  lemma LogHalt(log: seq<Event>, halt: Event)
    requires Quiet(log) && !halt.Beat?
    ensures Quiet(log + [halt]) && Halted(log + [halt])
  {
    assert !(log + [halt])[|log|].Beat?;
  }

  lemma LogBeat(log: seq<Event>, probed: Option<seq<string>>)
    requires Quiet(log) && !Halted(log)
    ensures Quiet(log + [Beat(probed)]) && !Halted(log + [Beat(probed)])
  {
  }

  lemma LogLateBeat(log: seq<Event>, probed: Option<seq<string>>)
    requires Quiet(log) && !Halted(log)
    ensures Quiet(log + [HaltMidTick] + [Beat(probed)]) && Halted(log + [HaltMidTick] + [Beat(probed)])
  {
    assert !(log + [HaltMidTick] + [Beat(probed)])[|log|].Beat?;
  }

  lemma GrowsSame(side: Side, names: set<string>)
    ensures Grows(side, side, names)
  {
  }

  lemma GrowsMore(clean: string -> string, certs: seq<CertFile>, i: nat, a: Side, b: Side, c: Side)
    requires i < |certs| && Grows(a, b, Names(clean, certs)) && Grows(b, c, {Base(clean(certs[i].path))})
    ensures Grows(a, c, Names(clean, certs))
  {
    hide Base;
    assert certs[i] in certs;
  }

  /** Each certificate has its file. */
  ghost predicate Placed(clean: string -> string, certs: seq<CertFile>, files: set<string>) {
    forall c :: c in certs ==> Base(clean(c.path)) in files
  }

  lemma NothingPlaced(clean: string -> string, certs: seq<CertFile>, files: set<string>)
    ensures Placed(clean, certs[..0], files)
  {
  }

  lemma PlacedMore(clean: string -> string, certs: seq<CertFile>, c: CertFile, before: Side, after: Side)
    requires Placed(clean, certs, before.files.Keys) && Grows(before, after, {Base(clean(c.path))})
    requires Base(clean(c.path)) in after.files
    ensures Placed(clean, certs + [c], after.files.Keys)
  {
    hide Base;
  }

  lemma AllPlaced(clean: string -> string, certs: seq<CertFile>, files: set<string>)
    requires Placed(clean, certs, files)
    ensures Names(clean, certs) <= files
  {
    hide Base;
  }
}
