/** The Ansible inventory that `libraries/provision/ec2.py` builds in place. A group starts as
    a list of hosts and becomes a dict of hosts and children when it gets its first child. */
module Inventory {
  import opened Python

  /** The value stored for a group: a list, or a dict with optional keys, of which only the dict
      under "_meta" is meant to have the host variables. */
  datatype Group =
    | HostList(list: seq<string>)
    | GroupDict(hosts: Option<seq<string>>, children: Option<seq<string>>, hostvars: Option<map<string, string>>)

  type Groups = map<string, Group>

  const META := "_meta"

  function OrEmpty(s: Option<seq<string>>): seq<string> {
    if s.Some? then s.value else []
  }

  // ----- what a group means -----

  function Hosts(inv: Groups, key: string): seq<string> {
    if key !in inv then [] else if inv[key].HostList? then inv[key].list else OrEmpty(inv[key].hosts)
  }

  function Children(inv: Groups, key: string): seq<string> {
    if key !in inv || inv[key].HostList? then [] else OrEmpty(inv[key].children)
  }

  /** `inventory["_meta"]["hostvars"]`, if it can be reached. */
  function HostVars(inv: Groups): Option<map<string, string>> {
    if META !in inv || inv[META].HostList? then None else inv[META].hostvars
  }

  function AddOnce(s: seq<string>, e: string): seq<string> {
    if e in s then s else s + [e]
  }

  // ----- the operations -----

  datatype Op =
    | PushHost(key: string, element: string)
    | PushChild(key: string, element: string)
    | SetHost(key: string, element: string)
    | SetVars(host: string, info: string)

  function Apply(inv: Groups, op: Op): Groups {
    match op
    case PushHost(key, e) =>
      if key in inv && inv[key].GroupDict?
      then inv[key := inv[key].(hosts := Some(OrEmpty(inv[key].hosts) + [e]))]
      else inv[key := HostList(Hosts(inv, key) + [e])]
    case PushChild(key, e) =>
      var dict := if key !in inv then GroupDict(None, None, None)
                  else if inv[key].HostList? then GroupDict(Some(inv[key].list), None, None) else inv[key];
      inv[key := dict.(children := Some(AddOnce(Children(inv, key), e)))]
    case SetHost(key, e) => inv[key := HostList([e])]
    case SetVars(host, info) =>
      if HostVars(inv).None? then inv
      else inv[META := inv[META].(hostvars := Some(HostVars(inv).value[host := info]))]
  }

  function Run(inv: Groups, ops: seq<Op>): Groups {
    if ops == [] then inv else Apply(Run(inv, ops[..|ops| - 1]), ops[|ops| - 1])
  }

  lemma {:induction false} RunAppend(inv: Groups, a: seq<Op>, b: seq<Op>)
    ensures Run(inv, a + b) == Run(Run(inv, a), b)
  {
    if b == [] {
      assert a + b == a;
    } else {
      var n := |b| - 1;
      assert (a + b)[..|a + b| - 1] == a + b[..n];
      RunAppend(inv, a, b[..n]);
    }
  }

  lemma RunOne(inv: Groups, op: Op)
    ensures Run(inv, [op]) == Apply(inv, op)
  {
    assert [op][..0] == [];
  }

  // ----- the switch of representation is invisible -----

  /** What an operation does to a group: it pushes a host or a child to it or overwrites it; or
      it sets the variables of a host. */
  datatype Effect = ToHosts | ToChildren | Overwritten | ToVars

  function EffectOf(effect: Effect, key: string, op: Op): seq<string> {
    match effect
    case ToHosts => if op.PushHost? && op.key == key then [op.element] else []
    case ToChildren => if op.PushChild? && op.key == key then [op.element] else []
    case Overwritten => if op.SetHost? && op.key == key then [op.element] else []
    case ToVars => if op.SetVars? then [op.host] else []
  }

  function EffectOn(effect: Effect, key: string): Op -> seq<string> {
    (op: Op) => EffectOf(effect, key, op)
  }

  /** The hosts pushed to a group, in order. */
  function PushedHosts(ops: seq<Op>, key: string): seq<string> { Gather(EffectOn(ToHosts, key), ops) }

  /** The children pushed to a group, in order. */
  function PushedChildren(ops: seq<Op>, key: string): seq<string> { Gather(EffectOn(ToChildren, key), ops) }

  /** No operation overwrites the group. */
  ghost predicate Spares(ops: seq<Op>, key: string) { Gather(EffectOn(Overwritten, key), ops) == [] }

  /** A sequence without its repetitions. */
  function FirstOccurrences(s: seq<string>): (r: seq<string>)
    ensures forall e :: e in r <==> e in s
    ensures forall i, j :: 0 <= i < j < |r| ==> r[i] != r[j]
  {
    if s == [] then [] else AddOnce(FirstOccurrences(s[..|s| - 1]), s[|s| - 1])
  }

  lemma FirstOccurrencesAppend(s: seq<string>, t: seq<string>, e: string)
    ensures FirstOccurrences(s + (t + [e])) == AddOnce(FirstOccurrences(s + t), e)
  {
    assert s + (t + [e]) == s + t + [e];
    assert (s + t + [e])[..|s + t|] == s + t;
  }

  lemma ApplyMeans(inv: Groups, op: Op, key: string)
    requires EffectOf(Overwritten, key, op) == []
    ensures Hosts(Apply(inv, op), key) == Hosts(inv, key) + EffectOf(ToHosts, key, op)
    ensures Children(Apply(inv, op), key) ==
            if op.PushChild? && op.key == key then AddOnce(Children(inv, key), op.element) else Children(inv, key)
  {
  }

  lemma {:induction false} HostsRefine(inv: Groups, ops: seq<Op>, key: string)
    requires Spares(ops, key)
    ensures Hosts(Run(inv, ops), key) == Hosts(inv, key) + PushedHosts(ops, key)
  {
    if ops != [] {
      var n := |ops| - 1;
      HostsRefine(inv, ops[..n], key);
      ApplyMeans(Run(inv, ops[..n]), ops[n], key);
      AppendTwice(Hosts(inv, key), PushedHosts(ops[..n], key), EffectOf(ToHosts, key, ops[n]));
    }
  }

  lemma AppendTwice(a: seq<string>, b: seq<string>, c: seq<string>)
    ensures (a + b) + c == a + (b + c)
  {
  }

  lemma {:induction false} ChildrenRefine(inv: Groups, ops: seq<Op>, key: string)
    requires Spares(ops, key) && FirstOccurrences(Children(inv, key)) == Children(inv, key)
    ensures Children(Run(inv, ops), key) == FirstOccurrences(Children(inv, key) + PushedChildren(ops, key))
  {
    var start := Children(inv, key);
    if ops == [] {
      assert start + [] == start;
    } else {
      var n := |ops| - 1;
      var pushed := PushedChildren(ops[..n], key);
      ChildrenRefine(inv, ops[..n], key);
      ApplyMeans(Run(inv, ops[..n]), ops[n], key);
      if ops[n].PushChild? && ops[n].key == key {
        FirstOccurrencesAppend(start, pushed, ops[n].element);
      } else {
        assert PushedChildren(ops, key) == pushed;
      }
    }
  }

  /** After any operations that do not overwrite a group, its hosts are exactly the hosts pushed
      to it and its children the children pushed to it, once each: neither depends on the other,
      nor on the moment at which the list becomes a dict. */
  lemma GroupsRefinePairs(inv: Groups, ops: seq<Op>, key: string)
    requires Spares(ops, key) && FirstOccurrences(Children(inv, key)) == Children(inv, key)
    ensures Hosts(Run(inv, ops), key) == Hosts(inv, key) + PushedHosts(ops, key)
    ensures Children(Run(inv, ops), key) == FirstOccurrences(Children(inv, key) + PushedChildren(ops, key))
  {
    HostsRefine(inv, ops, key);
    ChildrenRefine(inv, ops, key);
  }

  function Members(s: seq<string>): set<string> { set e | e in s }

  lemma MembersAppend(a: seq<string>, b: seq<string>)
    ensures Members(a + b) == Members(a) + Members(b)
  {
  }

  lemma ApplyVars(inv: Groups, op: Op)
    requires EffectOf(Overwritten, META, op) == []
    ensures HostVars(Apply(inv, op)).Some? <==> HostVars(inv).Some?
    ensures HostVars(inv).Some? ==>
              HostVars(Apply(inv, op)).value.Keys == HostVars(inv).value.Keys + Members(EffectOf(ToVars, META, op))
  {
  }

  /** The host variables can be reached if they could before, and then have gained the hosts
      whose variables were set. */
  lemma {:induction false} VarsRefine(inv: Groups, ops: seq<Op>)
    requires Spares(ops, META)
    ensures HostVars(Run(inv, ops)).Some? <==> HostVars(inv).Some?
    ensures HostVars(inv).Some? ==>
              HostVars(Run(inv, ops)).value.Keys ==
              HostVars(inv).value.Keys + Members(Gather(EffectOn(ToVars, META), ops))
  {
    if ops != [] {
      var n := |ops| - 1;
      VarsRefine(inv, ops[..n]);
      ApplyVars(Run(inv, ops[..n]), ops[n]);
      MembersAppend(Gather(EffectOn(ToVars, META), ops[..n]), EffectOf(ToVars, META, ops[n]));
    }
  }

  // ----- the groups of one instance -----

  datatype Config = Config(
    allInstances: bool, allRdsInstances: bool, nestedGroups: bool, included: string -> bool,
    byInstanceId: bool, byRegion: bool, byAvailabilityZone: bool, byAmiId: bool, byInstanceType: bool,
    byKeyPair: bool, byVpcId: bool, bySecurityGroup: bool, byTagKeys: bool, byTagNone: bool,
    byRoute53Names: bool, byRdsEngine: bool, byRdsParameterGroup: bool)

  /** An EC2 instance; an absent name is the empty string. `dest` is the address that the
      configured attribute or tag gives. */
  datatype Instance = Instance(
    id: string, state: string, dest: string, placement: string, imageId: string, instanceType: string,
    keyName: string, vpcId: string, groups: seq<string>, tags: seq<(string, string)>, route53Names: seq<string>,
    info: string)

  datatype RdsInstance = RdsInstance(
    id: string, status: string, dest: string, availabilityZone: string, instanceClass: string, vpcId: string,
    securityGroup: string, engine: string, parameterGroup: string, info: string)

  function SafeChar(c: char): char {
    if 'A' <= c <= 'Z' || 'a' <= c <= 'z' || '0' <= c <= '9' || c == '_' then c else '_'
  }

  /** `to_safe` */
  function ToSafe(word: string): string {
    seq(|word|, i requires 0 <= i < |word| => SafeChar(word[i]))
  }

  /** A group that an instance joins, and the places that nesting gives to groups then. */
  datatype Grouping = Grouping(key: string, nestings: seq<Nesting>)

  datatype Nesting = Nesting(parent: string, child: string)

  function Under(key: string, parent: string): Grouping {
    Grouping(key, [Nesting(parent, key)])
  }

  function If(on: bool, g: Grouping): seq<Grouping> {
    if on then [g] else []
  }

  function ZoneGrouping(cfg: Config, region: string, zone: string): Grouping {
    Grouping(zone, (if cfg.byRegion then [Nesting(region, zone)] else []) + [Nesting("zones", zone)])
  }

  function TagGrouping(tag: (string, string)): Grouping {
    var (k, v) := tag;
    var key := ToSafe("tag_" + k + "=" + v);
    Grouping(key, [Nesting("tags", ToSafe("tag_" + k)), Nesting(ToSafe("tag_" + k), key)])
  }

  /** Route 53 names are used as they are, others get a prefix and are made safe. */
  function GroupName(prefix: Option<string>, name: string): string {
    if prefix.None? then name else ToSafe(prefix.value + name)
  }

  function ByName(prefix: Option<string>, parent: string): string -> seq<Grouping> {
    (name: string) => [Under(GroupName(prefix, name), parent)]
  }

  function ByNames(on: bool, prefix: Option<string>, names: seq<string>, parent: string): seq<Grouping> {
    if on then Gather(ByName(prefix, parent), names) else []
  }

  function ByTag(): ((string, string)) -> seq<Grouping> {
    (tag: (string, string)) => [TagGrouping(tag)]
  }

  function ByTags(on: bool, tags: seq<(string, string)>): seq<Grouping> {
    if on then Gather(ByTag(), tags) else []
  }

  function ByPlace(cfg: Config, region: string, zone: string): seq<Grouping> {
    If(cfg.byRegion, Under(region, "regions")) + If(cfg.byAvailabilityZone, ZoneGrouping(cfg, region, zone))
  }

  function ByTraits(cfg: Config, inst: Instance): seq<Grouping> {
    If(cfg.byAmiId, Under(ToSafe(inst.imageId), "images"))
    + If(cfg.byInstanceType, Under(ToSafe("type_" + inst.instanceType), "types"))
    + If(cfg.byKeyPair && inst.keyName != "", Under(ToSafe("key_" + inst.keyName), "keys"))
    + If(cfg.byVpcId && inst.vpcId != "", Under(ToSafe("vpc_id_" + inst.vpcId), "vpcs"))
  }

  function ByAttached(cfg: Config, inst: Instance): seq<Grouping> {
    ByNames(cfg.bySecurityGroup, Some("security_group_"), inst.groups, "security_groups")
    + ByTags(cfg.byTagKeys, inst.tags)
    + ByNames(cfg.byRoute53Names, None, inst.route53Names, "route53")
    + If(cfg.byTagNone && |inst.tags| == 0, Under("tag_none", "tags"))
  }

  function ByRdsTraits(cfg: Config, inst: RdsInstance): seq<Grouping> {
    If(cfg.byInstanceType, Under(ToSafe("type_" + inst.instanceClass), "types"))
    + If(cfg.byVpcId && inst.vpcId != "", Under(ToSafe("vpc_id_" + inst.vpcId), "vpcs"))
    + If(cfg.bySecurityGroup && inst.securityGroup != "",
         Under(ToSafe("security_group_" + inst.securityGroup), "security_groups"))
    + If(cfg.byRdsEngine, Under(ToSafe("rds_" + inst.engine), "rds_engines"))
  }

  function ByParameterGroup(cfg: Config, inst: RdsInstance): seq<Grouping> {
    If(cfg.byRdsParameterGroup, Under(ToSafe("rds_parameter_group_" + inst.parameterGroup), "rds_parameter_groups"))
  }

  /** A host to add: what the rest of the code needs of an instance. Its kind is the global group
      of EC2 or of RDS instances. */
  datatype Host = Host(
    kind: string, id: string, region: string, dest: string, info: string, groupings: seq<Grouping>)

  /** The groups that a host joins, apart from its own. */
  function Joined(h: Host): seq<Grouping> { h.groupings + [Grouping(h.kind, [])] }

  /** An EC2 instance is taken if it is wanted and addressable. */
  function Ec2Host(cfg: Config, inst: Instance, region: string): Option<Host> {
    if !cfg.allInstances && inst.state != "running" then None
    else if inst.dest == "" || !cfg.included(inst.dest) then None
    else
      Some(Host("ec2", inst.id, region, inst.dest, inst.info,
                ByPlace(cfg, region, inst.placement) + ByTraits(cfg, inst) + ByAttached(cfg, inst)))
  }

  function RdsHost(cfg: Config, inst: RdsInstance, region: string): Option<Host> {
    if !cfg.allRdsInstances && inst.status != "available" then None
    else if inst.dest == "" then None
    else
      Some(Host("rds", inst.id, region, inst.dest, inst.info,
                ByPlace(cfg, region, inst.availabilityZone) + ByRdsTraits(cfg, inst) + ByParameterGroup(cfg, inst)))
  }

  /** An instance found by one of the API calls. */
  datatype Addition = Ec2(inst: Instance, region: string) | Rds(rds: RdsInstance, region: string)

  function HostOf(cfg: Config, a: Addition): Option<Host> {
    match a
    case Ec2(inst, region) => Ec2Host(cfg, inst, region)
    case Rds(inst, region) => RdsHost(cfg, inst, region)
  }

  function AddAddition(cfg: Config, s: Snapshot, a: Addition): Added {
    var host := HostOf(cfg, a);
    if host.Some? then Add(cfg, s, host.value) else Added(s, Return(()))
  }

  /** The instances in turn, up to the first that raises. */
  function AddAdditions(cfg: Config, s: Snapshot, additions: seq<Addition>): Added
    decreases |additions|
  {
    if additions == [] then Added(s, Return(()))
    else
      var first := AddAddition(cfg, s, additions[0]);
      if first.r.Raise? then first else AddAdditions(cfg, first.now, additions[1..])
  }

  function TakenOf(cfg: Config): Addition -> seq<Host> {
    (a: Addition) => if HostOf(cfg, a).Some? then [HostOf(cfg, a).value] else []
  }

  /** The hosts that are taken, in order. */
  function Taken(cfg: Config, additions: seq<Addition>): seq<Host> { Gather(TakenOf(cfg), additions) }

  // ----- the operations of one host -----

  function NestingOp(): Nesting -> seq<Op> {
    (n: Nesting) => [PushChild(n.parent, n.child)]
  }

  function OneGrouping(cfg: Config, dest: string): Grouping -> seq<Op> {
    (g: Grouping) => [PushHost(g.key, dest)] + if cfg.nestedGroups then Gather(NestingOp(), g.nestings) else []
  }

  function GroupingOps(cfg: Config, gs: seq<Grouping>, dest: string): seq<Op> { Gather(OneGrouping(cfg, dest), gs) }

  /** The group named by the instance id, which always has this one host. */
  function IdOps(cfg: Config, id: string, dest: string): seq<Op> {
    if !cfg.byInstanceId then []
    else [SetHost(id, dest)] + if cfg.nestedGroups then [PushChild("instances", id)] else []
  }

  function HostOps(cfg: Config): Host -> seq<Op> {
    (h: Host) => IdOps(cfg, h.id, h.dest) + GroupingOps(cfg, Joined(h), h.dest) + [SetVars(h.dest, h.info)]
  }

  /** The part of the object that additions change. */
  datatype Snapshot = Snapshot(inv: Groups, index: map<string, (string, string)>)

  /** `inventory["_meta"]["hostvars"]` raises where it cannot be reached. */
  function ReachVars(inv: Groups): Outcome<()> {
    if META !in inv then Raise(KeyError)
    else if inv[META].HostList? then Raise(TypeError)
    else if inv[META].hostvars.None? then Raise(KeyError)
    else Return(())
  }

  datatype Added = Added(now: Snapshot, r: Outcome<()>)

  function Add(cfg: Config, s: Snapshot, h: Host): Added {
    var inv := Run(s.inv, HostOps(cfg)(h));
    Added(Snapshot(inv, s.index[h.dest := (h.region, h.id)]), ReachVars(inv))
  }

  /** The hosts in turn, up to the first that raises. */
  function AddEach(cfg: Config, s: Snapshot, hosts: seq<Host>): Added
    decreases |hosts|
  {
    if hosts == [] then Added(s, Return(()))
    else
      var first := Add(cfg, s, hosts[0]);
      if first.r.Raise? then first else AddEach(cfg, first.now, hosts[1..])
  }

  // ----- what one host changes -----

  function NestedUnder(effect: Effect, key: string): Nesting -> seq<string> {
    (n: Nesting) => if effect == ToChildren && n.parent == key then [n.child] else []
  }

  function GroupingEffect(cfg: Config, dest: string, effect: Effect, key: string): Grouping -> seq<string> {
    (g: Grouping) =>
      (if effect == ToHosts && g.key == key then [dest] else [])
      + if cfg.nestedGroups then Gather(NestedUnder(effect, key), g.nestings) else []
  }

  /** The group of the instance id is nested in the group "instances". */
  function OwnGroup(cfg: Config, id: string, key: string): seq<string> {
    if cfg.byInstanceId && cfg.nestedGroups && key == "instances" then [id] else []
  }

  function IdEffect(cfg: Config, id: string, dest: string, effect: Effect, key: string): seq<string> {
    match effect
    case ToChildren => OwnGroup(cfg, id, key)
    case Overwritten => if cfg.byInstanceId && id == key then [dest] else []
    case _ => []
  }

  /** What a host adds to a group: its address for each grouping with the key, and the groups that
      these nest in it. */
  function HostEffect(cfg: Config, effect: Effect, key: string): Host -> seq<string> {
    (h: Host) =>
      if effect == ToVars then [h.dest]
      else
        IdEffect(cfg, h.id, h.dest, effect, key) + Gather(GroupingEffect(cfg, h.dest, effect, key), Joined(h))
  }

  lemma NestingEffect(nestings: seq<Nesting>, effect: Effect, key: string)
    ensures Gather(EffectOn(effect, key), Gather(NestingOp(), nestings)) == Gather(NestedUnder(effect, key), nestings)
  {
    forall i | 0 <= i < |nestings|
      ensures Gather(EffectOn(effect, key), NestingOp()(nestings[i])) == NestedUnder(effect, key)(nestings[i])
    {
      GatherOne(EffectOn(effect, key), PushChild(nestings[i].parent, nestings[i].child));
    }
    GatherTwice(EffectOn(effect, key), NestingOp(), NestedUnder(effect, key), nestings);
  }

  lemma OneGroupingEffect(cfg: Config, dest: string, effect: Effect, key: string, g: Grouping)
    ensures Gather(EffectOn(effect, key), OneGrouping(cfg, dest)(g)) == GroupingEffect(cfg, dest, effect, key)(g)
  {
    var nested := if cfg.nestedGroups then Gather(NestingOp(), g.nestings) else [];
    GatherAppend(EffectOn(effect, key), [PushHost(g.key, dest)], nested);
    GatherOne(EffectOn(effect, key), PushHost(g.key, dest));
    NestingEffect(g.nestings, effect, key);
  }

  lemma GroupingOpsEffect(cfg: Config, gs: seq<Grouping>, dest: string, effect: Effect, key: string)
    ensures Gather(EffectOn(effect, key), GroupingOps(cfg, gs, dest))
         == Gather(GroupingEffect(cfg, dest, effect, key), gs)
  {
    forall i | 0 <= i < |gs| {
      OneGroupingEffect(cfg, dest, effect, key, gs[i]);
    }
    GatherTwice(EffectOn(effect, key), OneGrouping(cfg, dest), GroupingEffect(cfg, dest, effect, key), gs);
  }

  lemma IdOpsEffect(cfg: Config, id: string, dest: string, effect: Effect, key: string)
    ensures Gather(EffectOn(effect, key), IdOps(cfg, id, dest)) == IdEffect(cfg, id, dest, effect, key)
  {
    var f := EffectOn(effect, key);
    GatherOne(f, SetHost(id, dest));
    GatherOne(f, PushChild("instances", id));
    GatherAppend(f, [SetHost(id, dest)], [PushChild("instances", id)]);
  }

  lemma NoVars(cfg: Config, gs: seq<Grouping>, dest: string, effect: Effect, key: string)
    requires effect == ToVars || effect == Overwritten
    ensures Gather(GroupingEffect(cfg, dest, effect, key), gs) == []
  {
    forall i | 0 <= i < |gs|
      ensures GroupingEffect(cfg, dest, effect, key)(gs[i]) == []
    {
      GatherNothing(NestedUnder(effect, key), gs[i].nestings);
    }
    GatherNothing(GroupingEffect(cfg, dest, effect, key), gs);
  }

  lemma HostOpsEffect(cfg: Config, effect: Effect, key: string, h: Host)
    ensures Gather(EffectOn(effect, key), HostOps(cfg)(h)) == HostEffect(cfg, effect, key)(h)
  {
    var f, own, joined := EffectOn(effect, key), IdOps(cfg, h.id, h.dest), GroupingOps(cfg, Joined(h), h.dest);
    IdOpsEffect(cfg, h.id, h.dest, effect, key);
    GroupingOpsEffect(cfg, Joined(h), h.dest, effect, key);
    if effect == ToVars {
      NoVars(cfg, Joined(h), h.dest, effect, key);
    }
    GatherOne(f, SetVars(h.dest, h.info));
    GatherAppend(f, own, joined);
    GatherAppend(f, own + joined, [SetVars(h.dest, h.info)]);
  }

  // ----- what all hosts change -----

  function AllOps(cfg: Config, hosts: seq<Host>): seq<Op> { Gather(HostOps(cfg), hosts) }

  lemma AllOpsEffect(cfg: Config, hosts: seq<Host>, effect: Effect, key: string)
    ensures Gather(EffectOn(effect, key), AllOps(cfg, hosts)) == Gather(HostEffect(cfg, effect, key), hosts)
  {
    forall i | 0 <= i < |hosts| {
      HostOpsEffect(cfg, effect, key, hosts[i]);
    }
    GatherTwice(EffectOn(effect, key), HostOps(cfg), HostEffect(cfg, effect, key), hosts);
  }

  lemma {:induction false} AddEachRuns(cfg: Config, s: Snapshot, hosts: seq<Host>)
    requires AddEach(cfg, s, hosts).r.Return?
    ensures AddEach(cfg, s, hosts).now.inv == Run(s.inv, AllOps(cfg, hosts))
    decreases |hosts|
  {
    if hosts != [] {
      var first := Add(cfg, s, hosts[0]).now;
      AddEachRuns(cfg, first, hosts[1..]);
      RunAppend(s.inv, HostOps(cfg)(hosts[0]), AllOps(cfg, hosts[1..]));
      GatherFirst(HostOps(cfg), hosts);
    }
  }

  lemma AddEachFirst(cfg: Config, s: Snapshot, h: Host, rest: seq<Host>)
    ensures AddEach(cfg, s, [h] + rest) ==
            if Add(cfg, s, h).r.Raise? then Add(cfg, s, h) else AddEach(cfg, Add(cfg, s, h).now, rest)
  {
    assert ([h] + rest)[1..] == rest;
  }

  lemma TakenStep(cfg: Config, s: Snapshot, host: Option<Host>, taken: seq<Host>, rest: seq<Host>)
    requires taken == (if host.Some? then [host.value] else []) + rest
    ensures AddEach(cfg, s, taken) ==
            if host.None? then AddEach(cfg, s, rest)
            else if Add(cfg, s, host.value).r.Raise? then Add(cfg, s, host.value)
            else AddEach(cfg, Add(cfg, s, host.value).now, rest)
  {
    if host.Some? {
      AddEachFirst(cfg, s, host.value, rest);
    } else {
      assert taken == rest;
    }
  }

  /** What matters of the instances are the hosts that are taken. */
  lemma {:induction false} AdditionsAreHosts(cfg: Config, s: Snapshot, additions: seq<Addition>)
    ensures AddAdditions(cfg, s, additions) == AddEach(cfg, s, Taken(cfg, additions))
    decreases |additions|
  {
    if additions != [] {
      AdditionsAreHosts(cfg, AddAddition(cfg, s, additions[0]).now, additions[1..]);
      GatherFirst(TakenOf(cfg), additions);
      TakenStep(cfg, s, HostOf(cfg, additions[0]), Taken(cfg, additions), Taken(cfg, additions[1..]));
    }
  }

  /** The group is not the own group of a host. */
  ghost predicate Leave(cfg: Config, hosts: seq<Host>, key: string) {
    cfg.byInstanceId ==> forall i :: 0 <= i < |hosts| ==> hosts[i].id != key
  }

  lemma {:induction false} NotOverwritten(cfg: Config, hosts: seq<Host>, key: string)
    requires Leave(cfg, hosts, key)
    ensures Gather(HostEffect(cfg, Overwritten, key), hosts) == []
  {
    if hosts != [] {
      var n := |hosts| - 1;
      NotOverwritten(cfg, hosts[..n], key);
      NoVars(cfg, Joined(hosts[n]), hosts[n].dest, Overwritten, key);
    }
  }

  /** After any additions, a group that is not the own group of a host holds its old hosts and
      the addresses of the hosts that join it, in order; and its children are the old ones and
      the groups that the hosts nest in it, once each. */
  lemma GroupsAreAsNamed(cfg: Config, s: Snapshot, hosts: seq<Host>, key: string)
    requires AddEach(cfg, s, hosts).r.Return? && Leave(cfg, hosts, key)
    requires FirstOccurrences(Children(s.inv, key)) == Children(s.inv, key)
    ensures var inv := AddEach(cfg, s, hosts).now.inv;
            && Hosts(inv, key) == Hosts(s.inv, key) + Gather(HostEffect(cfg, ToHosts, key), hosts)
            && Children(inv, key) ==
               FirstOccurrences(Children(s.inv, key) + Gather(HostEffect(cfg, ToChildren, key), hosts))
  {
    AddEachRuns(cfg, s, hosts);
    AllOpsEffect(cfg, hosts, ToHosts, key);
    AllOpsEffect(cfg, hosts, ToChildren, key);
    AllOpsEffect(cfg, hosts, Overwritten, key);
    NotOverwritten(cfg, hosts, key);
    GroupsRefinePairs(s.inv, AllOps(cfg, hosts), key);
  }

  /** The host joins the group. */
  ghost predicate Joins(h: Host, key: string) {
    exists k :: 0 <= k < |Joined(h)| && Joined(h)[k].key == key
  }

  /** The host nests a group in the group with the key. */
  ghost predicate Nests(cfg: Config, h: Host, child: string, key: string) {
    && cfg.nestedGroups
    && (|| (cfg.byInstanceId && key == "instances" && child == h.id)
        || exists k :: 0 <= k < |Joined(h)| && Nesting(key, child) in Joined(h)[k].nestings)
  }

  lemma AddressMember(cfg: Config, key: string, h: Host, e: string)
    ensures e in HostEffect(cfg, ToHosts, key)(h) <==> Joins(h, key) && h.dest == e
  {
    var f := GroupingEffect(cfg, h.dest, ToHosts, key);
    GatherMember(f, Joined(h), e);
    forall k | 0 <= k < |Joined(h)|
      ensures e in f(Joined(h)[k]) <==> Joined(h)[k].key == key && h.dest == e
    {
      GatherNothing(NestedUnder(ToHosts, key), Joined(h)[k].nestings);
    }
  }

  lemma NestedMember(nestings: seq<Nesting>, key: string, child: string)
    ensures child in Gather(NestedUnder(ToChildren, key), nestings) <==> Nesting(key, child) in nestings
  {
    GatherMember(NestedUnder(ToChildren, key), nestings, child);
    forall i | 0 <= i < |nestings|
      ensures child in NestedUnder(ToChildren, key)(nestings[i]) <==> nestings[i] == Nesting(key, child)
    {
    }
  }

  lemma ChildMember(cfg: Config, key: string, h: Host, e: string)
    ensures e in HostEffect(cfg, ToChildren, key)(h) <==> Nests(cfg, h, e, key)
  {
    var f := GroupingEffect(cfg, h.dest, ToChildren, key);
    GatherMember(f, Joined(h), e);
    forall k | 0 <= k < |Joined(h)|
      ensures e in f(Joined(h)[k]) <==> cfg.nestedGroups && Nesting(key, e) in Joined(h)[k].nestings
    {
      NestedMember(Joined(h)[k].nestings, key, e);
    }
  }

  /** After any number of instances, an address is in a group exactly if a taken instance with
      that address joins it, and a group is a child of another exactly if a taken instance nests
      it there, or if it was so before. */
  lemma GroupMembers(cfg: Config, s: Snapshot, additions: seq<Addition>, key: string, e: string)
    requires AddAdditions(cfg, s, additions).r.Return? && Leave(cfg, Taken(cfg, additions), key)
    requires FirstOccurrences(Children(s.inv, key)) == Children(s.inv, key)
    ensures var inv, hosts := AddAdditions(cfg, s, additions).now.inv, Taken(cfg, additions);
            && (e in Hosts(inv, key) <==>
                e in Hosts(s.inv, key) || exists i :: 0 <= i < |hosts| && Joins(hosts[i], key) && hosts[i].dest == e)
            && (e in Children(inv, key) <==>
                e in Children(s.inv, key) || exists i :: 0 <= i < |hosts| && Nests(cfg, hosts[i], e, key))
  {
    var hosts := Taken(cfg, additions);
    AdditionsAreHosts(cfg, s, additions);
    GroupsAreAsNamed(cfg, s, hosts, key);
    JoinedMembers(cfg, hosts, key, e);
  }

  lemma JoinedMembers(cfg: Config, hosts: seq<Host>, key: string, e: string)
    ensures e in Gather(HostEffect(cfg, ToHosts, key), hosts) <==>
            exists i :: 0 <= i < |hosts| && Joins(hosts[i], key) && hosts[i].dest == e
    ensures e in Gather(HostEffect(cfg, ToChildren, key), hosts) <==>
            exists i :: 0 <= i < |hosts| && Nests(cfg, hosts[i], e, key)
  {
    GatherMember(HostEffect(cfg, ToHosts, key), hosts, e);
    GatherMember(HostEffect(cfg, ToChildren, key), hosts, e);
    forall i | 0 <= i < |hosts|
      ensures e in HostEffect(cfg, ToHosts, key)(hosts[i]) <==> Joins(hosts[i], key) && hosts[i].dest == e
      ensures e in HostEffect(cfg, ToChildren, key)(hosts[i]) <==> Nests(cfg, hosts[i], e, key)
    {
      AddressMember(cfg, key, hosts[i], e);
      ChildMember(cfg, key, hosts[i], e);
    }
  }

  // ----- agreement of index, host variables and global groups -----

  const KINDS := {"ec2", "rds"}

  /** The index, the host variables and the two global groups know the same addresses. */
  ghost predicate Consistent(s: Snapshot) {
    && HostVars(s.inv).Some?
    && s.index.Keys == HostVars(s.inv).value.Keys == Members(Hosts(s.inv, "ec2")) + Members(Hosts(s.inv, "rds"))
  }

  /** The host's own group does not take the place of a group that the inventory needs. */
  predicate FreeId(cfg: Config, id: string) {
    cfg.byInstanceId ==> id != "ec2" && id != "rds" && id != META
  }

  /** Adding the host keeps every inventory consistent, and does not raise. */
  ghost predicate KeepsConsistent(cfg: Config, h: Host) {
    forall s :: Consistent(s) ==> Add(cfg, s, h).r == Return(()) && Consistent(Add(cfg, s, h).now)
  }

  lemma SparesUnlessOwn(cfg: Config, h: Host, key: string)
    requires cfg.byInstanceId ==> h.id != key
    ensures Spares(HostOps(cfg)(h), key)
  {
    HostOpsEffect(cfg, Overwritten, key, h);
    NoVars(cfg, Joined(h), h.dest, Overwritten, key);
  }

  /** A group that the host does not overwrite gains its address, if the host joins it. */
  lemma GainsAddress(cfg: Config, inv: Groups, h: Host, key: string)
    requires cfg.byInstanceId ==> h.id != key
    ensures Members(Hosts(Run(inv, HostOps(cfg)(h)), key)) ==
            Members(Hosts(inv, key)) + if Joins(h, key) then {h.dest} else {}
  {
    SparesUnlessOwn(cfg, h, key);
    HostsRefine(inv, HostOps(cfg)(h), key);
    HostOpsEffect(cfg, ToHosts, key, h);
    MembersAppend(Hosts(inv, key), HostEffect(cfg, ToHosts, key)(h));
    AddressMembers(cfg, h, key);
  }

  lemma AddressMembers(cfg: Config, h: Host, key: string)
    ensures Members(HostEffect(cfg, ToHosts, key)(h)) == if Joins(h, key) then {h.dest} else {}
  {
    forall e
      ensures e in HostEffect(cfg, ToHosts, key)(h) <==> Joins(h, key) && h.dest == e
    {
      AddressMember(cfg, key, h, e);
    }
  }

  lemma JoinsKind(h: Host)
    ensures Joins(h, h.kind)
  {
    assert Joined(h)[|Joined(h)| - 1].key == h.kind;
  }

  lemma GainsVars(cfg: Config, inv: Groups, h: Host)
    requires HostVars(inv).Some? && (cfg.byInstanceId ==> h.id != META)
    ensures var now := HostVars(Run(inv, HostOps(cfg)(h)));
            now.Some? && now.value.Keys == HostVars(inv).value.Keys + {h.dest}
  {
    SparesUnlessOwn(cfg, h, META);
    VarsRefine(inv, HostOps(cfg)(h));
    HostOpsEffect(cfg, ToVars, META, h);
  }

  lemma StaysConsistent(cfg: Config, s: Snapshot, h: Host)
    requires h.kind in KINDS && Consistent(s) && FreeId(cfg, h.id)
    ensures Add(cfg, s, h).r == Return(()) && Consistent(Add(cfg, s, h).now)
  {
    var inv := Run(s.inv, HostOps(cfg)(h));
    assert Members(Hosts(inv, "ec2")) + Members(Hosts(inv, "rds")) == s.index.Keys + {h.dest} by {
      GainsAddress(cfg, s.inv, h, "ec2");
      GainsAddress(cfg, s.inv, h, "rds");
      JoinsKind(h);
    }
    GainsVars(cfg, s.inv, h);
  }

  // ----- ids that collide with the names of groups -----

  /** An inventory that knows one host of the kind. */
  function OneHost(kind: string, host: string): Snapshot {
    Snapshot(map[META := GroupDict(None, None, Some(map[host := ""])), kind := HostList([host])], map[host := ("", "")])
  }

  lemma OneHostIsConsistent(kind: string, host: string)
    requires kind == "ec2" || kind == "rds"
    ensures Consistent(OneHost(kind, host))
  {
    var s := OneHost(kind, host);
    assert Hosts(s.inv, kind) == [host] && Hosts(s.inv, if kind == "ec2" then "rds" else "ec2") == [];
  }

  /** What follows the overwriting of the own group. */
  function AfterId(cfg: Config, h: Host): seq<Op> {
    (if cfg.nestedGroups then [PushChild("instances", h.id)] else [])
    + GroupingOps(cfg, Joined(h), h.dest) + [SetVars(h.dest, h.info)]
  }

  lemma RegroupOps(op: Op, a: seq<Op>, b: seq<Op>, c: seq<Op>)
    ensures ([op] + a) + b + c == [op] + (a + b + c)
  {
  }

  lemma OwnGroupFirst(cfg: Config, h: Host)
    requires cfg.byInstanceId
    ensures HostOps(cfg)(h) == [SetHost(h.id, h.dest)] + AfterId(cfg, h)
  {
    RegroupOps(SetHost(h.id, h.dest), if cfg.nestedGroups then [PushChild("instances", h.id)] else [],
               GroupingOps(cfg, Joined(h), h.dest), [SetVars(h.dest, h.info)]);
  }

  lemma OverwritesFirst(cfg: Config, h: Host, inv: Groups)
    requires cfg.byInstanceId
    ensures Run(inv, HostOps(cfg)(h)) == Run(inv[h.id := HostList([h.dest])], AfterId(cfg, h))
  {
    var op := SetHost(h.id, h.dest);
    OwnGroupFirst(cfg, h);
    RunAppend(inv, [op], AfterId(cfg, h));
    RunOne(inv, op);
  }

  /** The effects after that are those of the same host under another id. */
  lemma AfterIdEffect(cfg: Config, h: Host, key: string)
    requires cfg.byInstanceId
    ensures Spares(AfterId(cfg, h), key)
    ensures PushedHosts(AfterId(cfg, h), key) == HostEffect(cfg, ToHosts, key)(h)
  {
    AfterIdEffects(cfg, h, Overwritten, key);
    HostOpsEffect(cfg, Overwritten, key, h);
    NoVars(cfg, Joined(h), h.dest, Overwritten, key);
    AfterIdEffects(cfg, h, ToHosts, key);
    HostOpsEffect(cfg, ToHosts, key, h);
  }

  lemma AfterIdEffects(cfg: Config, h: Host, effect: Effect, key: string)
    requires cfg.byInstanceId
    ensures EffectOn(effect, key)(SetHost(h.id, h.dest)) + Gather(EffectOn(effect, key), AfterId(cfg, h))
         == Gather(EffectOn(effect, key), HostOps(cfg)(h))
  {
    var op := SetHost(h.id, h.dest);
    OwnGroupFirst(cfg, h);
    GatherAppend(EffectOn(effect, key), [op], AfterId(cfg, h));
    GatherOne(EffectOn(effect, key), op);
  }

  /** An own group forgets every address but the host's own. */
  lemma OwnGroupForgets(cfg: Config, h: Host, inv: Groups)
    requires cfg.byInstanceId
    ensures Members(Hosts(Run(inv, HostOps(cfg)(h)), h.id)) == {h.dest}
  {
    OverwritesFirst(cfg, h, inv);
    AfterIdEffect(cfg, h, h.id);
    HostsRefine(inv[h.id := HostList([h.dest])], AfterId(cfg, h), h.id);
    MembersAppend([h.dest], HostEffect(cfg, ToHosts, h.id)(h));
    AddressMembers(cfg, h, h.id);
  }

  lemma CollidesWithKind(cfg: Config, h: Host)
    requires cfg.byInstanceId && h.id in KINDS
    ensures !KeepsConsistent(cfg, h)
  {
    var host, other := h.dest + "x", if h.id == "ec2" then "rds" else "ec2";
    var s := OneHost(h.id, host);
    OneHostIsConsistent(h.id, host);
    OwnGroupForgets(cfg, h, s.inv);
    GainsAddress(cfg, s.inv, h, other);
    assert Hosts(s.inv, other) == [];
    var now := Add(cfg, s, h).now;
    assert host in now.index && host !in Members(Hosts(now.inv, h.id)) + Members(Hosts(now.inv, other));
  }

  lemma CollidesWithMeta(cfg: Config, h: Host)
    requires cfg.byInstanceId && h.id == META
    ensures !KeepsConsistent(cfg, h)
  {
    var s := OneHost("ec2", "");
    OneHostIsConsistent("ec2", "");
    OverwritesFirst(cfg, h, s.inv);
    AfterIdEffect(cfg, h, META);
    VarsRefine(s.inv[META := HostList([h.dest])], AfterId(cfg, h));
    assert Add(cfg, s, h).r.Raise?;
  }

  /** A host keeps every inventory consistent exactly if its id is free. */
  lemma FreeIdIsExact(cfg: Config, h: Host)
    requires h.kind in KINDS
    ensures KeepsConsistent(cfg, h) <==> FreeId(cfg, h.id)
  {
    if FreeId(cfg, h.id) {
      forall s | Consistent(s)
        ensures Add(cfg, s, h).r == Return(()) && Consistent(Add(cfg, s, h).now)
      {
        StaysConsistent(cfg, s, h);
      }
    } else if h.id == META {
      CollidesWithMeta(cfg, h);
    } else {
      CollidesWithKind(cfg, h);
    }
  }

  /** Every instance that is taken has a free id. */
  ghost predicate FreeIds(cfg: Config, additions: seq<Addition>) {
    forall i :: 0 <= i < |additions| && HostOf(cfg, additions[i]).Some? ==>
      FreeId(cfg, HostOf(cfg, additions[i]).value.id)
  }

  lemma KindOfTaken(cfg: Config, a: Addition)
    ensures HostOf(cfg, a).Some? ==> HostOf(cfg, a).value.kind in KINDS
  {
  }

  /** Any number of instances with free ids keep the inventory consistent. */
  lemma {:induction false} AdditionsStayConsistent(cfg: Config, s: Snapshot, additions: seq<Addition>)
    requires Consistent(s) && FreeIds(cfg, additions)
    ensures AddAdditions(cfg, s, additions).r == Return(()) && Consistent(AddAdditions(cfg, s, additions).now)
    decreases |additions|
  {
    if additions != [] {
      var host := HostOf(cfg, additions[0]);
      if host.Some? {
        KindOfTaken(cfg, additions[0]);
        StaysConsistent(cfg, s, host.value);
      }
      assert forall i :: 0 <= i < |additions| - 1 ==> additions[1..][i] == additions[i + 1];
      AdditionsStayConsistent(cfg, AddAddition(cfg, s, additions[0]).now, additions[1..]);
    }
  }
}
