/** The class of `libraries/provision/ec2.py` that fills the inventory, with `add_instance`,
    `add_rds_instance` and the two pushes in place, against the functions of `Inventory`. */
module Ec2Builder {
  import opened Python
  import opened Inventory

  // ----- groupings, one after the other -----

  /** The groupings that follow one another. */
  lemma RunGroupings(cfg: Config, inv: Groups, a: seq<Grouping>, b: seq<Grouping>, dest: string)
    ensures Run(inv, GroupingOps(cfg, a + b, dest))
         == Run(Run(inv, GroupingOps(cfg, a, dest)), GroupingOps(cfg, b, dest))
  {
    GatherAppend(OneGrouping(cfg, dest), a, b);
    RunAppend(inv, GroupingOps(cfg, a, dest), GroupingOps(cfg, b, dest));
  }

  lemma GatherEmpty<T, U>(f: T -> seq<U>, s: seq<T>)
    ensures Gather(f, s[..0]) == []
  {
  }

  lemma WholeSlice<T>(s: seq<T>)
    ensures s[..|s|] == s
  {
  }

  lemma RunOneMore<T>(cfg: Config, inv: Groups, f: T -> seq<Grouping>, s: seq<T>, i: nat, dest: string)
    requires i < |s|
    ensures Run(inv, GroupingOps(cfg, Gather(f, s[..i + 1]), dest))
         == Run(Run(inv, GroupingOps(cfg, Gather(f, s[..i]), dest)), GroupingOps(cfg, f(s[i]), dest))
  {
    assert s[..i + 1] == s[..i] + [s[i]];
    GatherOneMore(f, s[..i], s[i]);
    RunGroupings(cfg, inv, Gather(f, s[..i]), f(s[i]), dest);
  }

  /** Groupings that were made one after the other. */
  lemma ChainGroupings(cfg: Config, i0: Groups, i1: Groups, i2: Groups, i3: Groups, i4: Groups, a: seq<Grouping>,
                       b: seq<Grouping>, c: seq<Grouping>, d: seq<Grouping>, dest: string)
    requires i1 == Run(i0, GroupingOps(cfg, a, dest)) && i2 == Run(i1, GroupingOps(cfg, b, dest))
    requires i3 == Run(i2, GroupingOps(cfg, c, dest)) && i4 == Run(i3, GroupingOps(cfg, d, dest))
    ensures i4 == Run(i0, GroupingOps(cfg, a + b + c + d, dest))
  {
    RunGroupings(cfg, i0, a, b, dest);
    RunGroupings(cfg, i0, a + b, c, dest);
    RunGroupings(cfg, i0, a + b + c, d, dest);
  }

  /** All operations of a host, one after the other. */
  lemma ChainHost(cfg: Config, h: Host, a: seq<Grouping>, b: seq<Grouping>, c: seq<Grouping>, i0: Groups, i1: Groups,
                  i2: Groups, i3: Groups, i4: Groups, i5: Groups)
    requires h.groupings == a + b + c && i1 == Run(i0, IdOps(cfg, h.id, h.dest))
    requires i2 == Run(i1, GroupingOps(cfg, a, h.dest)) && i3 == Run(i2, GroupingOps(cfg, b, h.dest))
    requires i4 == Run(i3, GroupingOps(cfg, c, h.dest))
    requires i5 == Run(i4, GroupingOps(cfg, [Grouping(h.kind, [])], h.dest))
    ensures Run(i0, HostOps(cfg)(h)) == Apply(i5, SetVars(h.dest, h.info))
  {
    var own, joined, vars := IdOps(cfg, h.id, h.dest), GroupingOps(cfg, Joined(h), h.dest), SetVars(h.dest, h.info);
    ChainGroupings(cfg, i1, i2, i3, i4, i5, a, b, c, [Grouping(h.kind, [])], h.dest);
    RunAppend(i0, own, joined);
    RunAppend(i0, own + joined, [vars]);
    RunOne(i5, vars);
  }

  lemma RunTwo(inv: Groups, a: Op, b: Op)
    ensures Run(inv, [a, b]) == Apply(Apply(inv, a), b)
  {
    assert [a, b][..1] == [a];
    RunOne(inv, a);
  }

  lemma RunThree(inv: Groups, a: Op, b: Op, c: Op)
    ensures Run(inv, [a, b, c]) == Apply(Apply(Apply(inv, a), b), c)
  {
    assert [a, b, c][..2] == [a, b];
    RunTwo(inv, a, b);
  }

  lemma OneGroupingOps(cfg: Config, g: Grouping, dest: string)
    ensures GroupingOps(cfg, [g], dest) == OneGrouping(cfg, dest)(g)
  {
    GatherOne(OneGrouping(cfg, dest), g);
  }

  /** A group with one parent, or with two nestings. */
  lemma RunUnder(cfg: Config, inv: Groups, key: string, parent: string, dest: string)
    ensures Run(inv, GroupingOps(cfg, [Under(key, parent)], dest)) ==
            var pushed := Apply(inv, PushHost(key, dest));
            if cfg.nestedGroups then Apply(pushed, PushChild(parent, key)) else pushed
  {
    OneGroupingOps(cfg, Under(key, parent), dest);
    GatherOne(NestingOp(), Nesting(parent, key));
    RunOne(inv, PushHost(key, dest));
    RunTwo(inv, PushHost(key, dest), PushChild(parent, key));
  }

  lemma TwoNestings(cfg: Config, key: string, n: Nesting, m: Nesting, dest: string)
    ensures GroupingOps(cfg, [Grouping(key, [n, m])], dest) ==
            if cfg.nestedGroups then [PushHost(key, dest), PushChild(n.parent, n.child), PushChild(m.parent, m.child)]
            else [PushHost(key, dest)]
  {
    OneGroupingOps(cfg, Grouping(key, [n, m]), dest);
    assert [n, m] == [n] + [m];
    GatherOne(NestingOp(), n);
    GatherOneMore(NestingOp(), [n], m);
  }

  lemma RunTwoNestings(cfg: Config, inv: Groups, key: string, n: Nesting, m: Nesting, dest: string)
    ensures Run(inv, GroupingOps(cfg, [Grouping(key, [n, m])], dest)) ==
            var pushed := Apply(inv, PushHost(key, dest));
            if cfg.nestedGroups then Apply(Apply(pushed, PushChild(n.parent, n.child)), PushChild(m.parent, m.child))
            else pushed
  {
    TwoNestings(cfg, key, n, m, dest);
    RunOne(inv, PushHost(key, dest));
    RunThree(inv, PushHost(key, dest), PushChild(n.parent, n.child), PushChild(m.parent, m.child));
  }

  lemma RunNone(cfg: Config, inv: Groups, dest: string)
    ensures Run(inv, GroupingOps(cfg, [], dest)) == inv
  {
  }

  lemma ZoneGroupings(cfg: Config, region: string, zone: string)
    ensures ZoneGrouping(cfg, region, zone) ==
            if cfg.byRegion then Grouping(zone, [Nesting(region, zone), Nesting("zones", zone)])
            else Under(zone, "zones")
  {
  }

  // ----- the inventory -----

  class Ec2Inventory {
    const cfg: Config
    var inventory: Groups
    var index: map<string, (string, string)>

    constructor (cfg: Config)
      ensures this.cfg == cfg && Consistent(Contents())
      ensures Contents() == Snapshot(map[META := GroupDict(None, None, Some(map[]))], map[])
    {
      this.cfg := cfg;
      inventory := map[META := GroupDict(None, None, Some(map[]))];
      index := map[];
    }

    function Contents(): Snapshot
      reads this
    {
      Snapshot(inventory, index)
    }

    method Push(key: string, element: string)
      modifies this`inventory
      ensures inventory == Apply(old(inventory), PushHost(key, element))
    {
      if key !in inventory {
        inventory := inventory[key := HostList([])];
      }
      var groupInfo := inventory[key];
      if groupInfo.GroupDict? {
        var hostList := if groupInfo.hosts.Some? then groupInfo.hosts.value else [];
        inventory := inventory[key := groupInfo.(hosts := Some(hostList + [element]))];
      } else {
        inventory := inventory[key := HostList(groupInfo.list + [element])];
      }
    }

    method PushGroup(key: string, element: string)
      modifies this`inventory
      ensures inventory == Apply(old(inventory), PushChild(key, element))
    {
      if key !in inventory {
        inventory := inventory[key := GroupDict(None, None, None)];
      }
      var parentGroup := inventory[key];
      if !parentGroup.GroupDict? {
        parentGroup := GroupDict(Some(parentGroup.list), None, None);
      }
      var childGroups := if parentGroup.children.Some? then parentGroup.children.value else [];
      if element !in childGroups {
        childGroups := childGroups + [element];
      }
      inventory := inventory[key := parentGroup.(children := Some(childGroups))];
    }

    /** A push to a group and, with nested groups, of the group to its parent. */
    method GroupBy(on: bool, key: string, parent: string, dest: string)
      modifies this`inventory
      ensures inventory == Run(old(inventory), GroupingOps(cfg, If(on, Under(key, parent)), dest))
    {
      RunNone(cfg, inventory, dest);
      RunUnder(cfg, inventory, key, parent, dest);
      if on {
        Push(key, dest);
        if cfg.nestedGroups {
          PushGroup(parent, key);
        }
      }
    }

    method GroupById(id: string, dest: string)
      modifies this`inventory
      ensures inventory == Run(old(inventory), IdOps(cfg, id, dest))
    {
      RunOne(inventory, SetHost(id, dest));
      RunTwo(inventory, SetHost(id, dest), PushChild("instances", id));
      if cfg.byInstanceId {
        inventory := inventory[id := HostList([dest])];
        if cfg.nestedGroups {
          PushGroup("instances", id);
        }
      }
    }

    method GroupByZone(region: string, zone: string, dest: string)
      modifies this`inventory
      ensures inventory ==
              Run(old(inventory), GroupingOps(cfg, If(cfg.byAvailabilityZone, ZoneGrouping(cfg, region, zone)), dest))
    {
      RunNone(cfg, inventory, dest);
      if cfg.byAvailabilityZone {
        ZoneGroupings(cfg, region, zone);
        RunUnder(cfg, inventory, zone, "zones", dest);
        RunTwoNestings(cfg, inventory, zone, Nesting(region, zone), Nesting("zones", zone), dest);
        Push(zone, dest);
        if cfg.nestedGroups {
          if cfg.byRegion {
            PushGroup(region, zone);
          }
          PushGroup("zones", zone);
        }
      }
    }

    method GroupByNames(on: bool, prefix: Option<string>, names: seq<string>, parent: string, dest: string)
      modifies this`inventory
      ensures inventory == Run(old(inventory), GroupingOps(cfg, ByNames(on, prefix, names, parent), dest))
    {
      RunNone(cfg, inventory, dest);
      if !on {
        return;
      }
      ghost var start, f := inventory, ByName(prefix, parent);
      GatherEmpty(f, names);
      for i := 0 to |names|
        invariant inventory == Run(start, GroupingOps(cfg, Gather(f, names[..i]), dest))
      {
        RunOneMore(cfg, start, f, names, i, dest);
        GroupBy(true, GroupName(prefix, names[i]), parent, dest);
      }
      WholeSlice(names);
    }

    method GroupByTag(k: string, v: string, dest: string)
      modifies this`inventory
      ensures inventory == Run(old(inventory), GroupingOps(cfg, [TagGrouping((k, v))], dest))
    {
      var key, parent := ToSafe("tag_" + k + "=" + v), ToSafe("tag_" + k);
      RunTwoNestings(cfg, inventory, key, Nesting("tags", parent), Nesting(parent, key), dest);
      Push(key, dest);
      if cfg.nestedGroups {
        PushGroup("tags", parent);
        PushGroup(parent, key);
      }
    }

    method GroupByTags(on: bool, tags: seq<(string, string)>, dest: string)
      modifies this`inventory
      ensures inventory == Run(old(inventory), GroupingOps(cfg, ByTags(on, tags), dest))
    {
      RunNone(cfg, inventory, dest);
      if !on {
        return;
      }
      ghost var start, f := inventory, ByTag();
      GatherEmpty(f, tags);
      for i := 0 to |tags|
        invariant inventory == Run(start, GroupingOps(cfg, Gather(f, tags[..i]), dest))
      {
        RunOneMore(cfg, start, f, tags, i, dest);
        GroupByTag(tags[i].0, tags[i].1, dest);
      }
      WholeSlice(tags);
    }

    method GroupByPlace(region: string, zone: string, dest: string)
      modifies this`inventory
      ensures inventory == Run(old(inventory), GroupingOps(cfg, ByPlace(cfg, region, zone), dest))
    {
      RunGroupings(cfg, inventory, If(cfg.byRegion, Under(region, "regions")),
                   If(cfg.byAvailabilityZone, ZoneGrouping(cfg, region, zone)), dest);
      GroupBy(cfg.byRegion, region, "regions", dest);
      GroupByZone(region, zone, dest);
    }

    method GroupByTraits(inst: Instance)
      modifies this`inventory
      ensures inventory == Run(old(inventory), GroupingOps(cfg, ByTraits(cfg, inst), inst.dest))
    {
      var dest := inst.dest;
      var image, kind := ToSafe(inst.imageId), ToSafe("type_" + inst.instanceType);
      var keyName, vpc := ToSafe("key_" + inst.keyName), ToSafe("vpc_id_" + inst.vpcId);
      var hasKey, hasVpc := cfg.byKeyPair && inst.keyName != "", cfg.byVpcId && inst.vpcId != "";
      ghost var i0 := inventory;
      GroupBy(cfg.byAmiId, image, "images", dest);
      ghost var i1 := inventory;
      GroupBy(cfg.byInstanceType, kind, "types", dest);
      ghost var i2 := inventory;
      GroupBy(hasKey, keyName, "keys", dest);
      ghost var i3 := inventory;
      GroupBy(hasVpc, vpc, "vpcs", dest);
      ChainGroupings(cfg, i0, i1, i2, i3, inventory, If(cfg.byAmiId, Under(image, "images")),
                     If(cfg.byInstanceType, Under(kind, "types")), If(hasKey, Under(keyName, "keys")),
                     If(hasVpc, Under(vpc, "vpcs")), dest);
    }

    lemma AttachedChain(inst: Instance, i0: Groups, i1: Groups, i2: Groups, i3: Groups, i4: Groups)
      requires i1 == Run(i0, GroupingOps(cfg, ByNames(cfg.bySecurityGroup, Some("security_group_"), inst.groups,
                                                      "security_groups"), inst.dest))
      requires i2 == Run(i1, GroupingOps(cfg, ByTags(cfg.byTagKeys, inst.tags), inst.dest))
      requires i3 == Run(i2, GroupingOps(cfg, ByNames(cfg.byRoute53Names, None, inst.route53Names, "route53"),
                                         inst.dest))
      requires i4 == Run(i3, GroupingOps(cfg, If(cfg.byTagNone && |inst.tags| == 0, Under("tag_none", "tags")),
                                         inst.dest))
      ensures i4 == Run(i0, GroupingOps(cfg, ByAttached(cfg, inst), inst.dest))
    {
      ChainGroupings(cfg, i0, i1, i2, i3, i4,
                     ByNames(cfg.bySecurityGroup, Some("security_group_"), inst.groups, "security_groups"),
                     ByTags(cfg.byTagKeys, inst.tags), ByNames(cfg.byRoute53Names, None, inst.route53Names, "route53"),
                     If(cfg.byTagNone && |inst.tags| == 0, Under("tag_none", "tags")), inst.dest);
    }

    method GroupByAttached(inst: Instance)
      modifies this`inventory
      ensures inventory == Run(old(inventory), GroupingOps(cfg, ByAttached(cfg, inst), inst.dest))
    {
      var dest := inst.dest;
      ghost var i0 := inventory;
      GroupByNames(cfg.bySecurityGroup, Some("security_group_"), inst.groups, "security_groups", dest);
      ghost var i1 := inventory;
      GroupByTags(cfg.byTagKeys, inst.tags, dest);
      ghost var i2 := inventory;
      GroupByNames(cfg.byRoute53Names, None, inst.route53Names, "route53", dest);
      ghost var i3 := inventory;
      GroupBy(cfg.byTagNone && |inst.tags| == 0, "tag_none", "tags", dest);
      AttachedChain(inst, i0, i1, i2, i3, inventory);
    }

    method GroupByRdsTraits(inst: RdsInstance)
      modifies this`inventory
      ensures inventory == Run(old(inventory), GroupingOps(cfg, ByRdsTraits(cfg, inst), inst.dest))
    {
      var dest := inst.dest;
      var kind, vpc := ToSafe("type_" + inst.instanceClass), ToSafe("vpc_id_" + inst.vpcId);
      var key, engine := ToSafe("security_group_" + inst.securityGroup), ToSafe("rds_" + inst.engine);
      var hasVpc, hasGroup := cfg.byVpcId && inst.vpcId != "", cfg.bySecurityGroup && inst.securityGroup != "";
      ghost var i0 := inventory;
      GroupBy(cfg.byInstanceType, kind, "types", dest);
      ghost var i1 := inventory;
      GroupBy(hasVpc, vpc, "vpcs", dest);
      ghost var i2 := inventory;
      GroupBy(hasGroup, key, "security_groups", dest);
      ghost var i3 := inventory;
      GroupBy(cfg.byRdsEngine, engine, "rds_engines", dest);
      ChainGroupings(cfg, i0, i1, i2, i3, inventory, If(cfg.byInstanceType, Under(kind, "types")),
                     If(hasVpc, Under(vpc, "vpcs")), If(hasGroup, Under(key, "security_groups")),
                     If(cfg.byRdsEngine, Under(engine, "rds_engines")), dest);
    }

    /** The push to the global group of a kind. */
    method GroupByKind(kind: string, dest: string)
      modifies this`inventory
      ensures inventory == Run(old(inventory), GroupingOps(cfg, [Grouping(kind, [])], dest))
    {
      OneGroupingOps(cfg, Grouping(kind, []), dest);
      assert Gather(NestingOp(), []) == [];
      RunOne(inventory, PushHost(kind, dest));
      Push(kind, dest);
    }

    /** `inventory["_meta"]["hostvars"][dest] = info` */
    method SetHostVars(dest: string, info: string) returns (r: Outcome<()>)
      modifies this`inventory
      ensures inventory == Apply(old(inventory), SetVars(dest, info)) && r == ReachVars(inventory)
    {
      if META !in inventory {
        return Raise(KeyError);
      }
      var meta := inventory[META];
      if meta.HostList? {
        return Raise(TypeError);
      }
      if meta.hostvars.None? {
        return Raise(KeyError);
      }
      inventory := inventory[META := meta.(hostvars := Some(meta.hostvars.value[dest := info]))];
      r := Return(());
    }

    /** Adds an EC2 instance that is wanted and addressable to the index and all its groups. */
    method AddInstance(inst: Instance, region: string) returns (r: Outcome<()>)
      modifies this
      ensures Added(Contents(), r) == AddAddition(cfg, old(Contents()), Ec2(inst, region))
    {
      if !cfg.allInstances && inst.state != "running" {
        return Return(());
      }
      var dest := inst.dest;
      if dest == "" || !cfg.included(dest) {
        return Return(());
      }
      index := index[dest := (region, inst.id)];
      ghost var i0 := inventory;
      GroupById(inst.id, dest);
      ghost var i1 := inventory;
      GroupByPlace(region, inst.placement, dest);
      ghost var i2 := inventory;
      GroupByTraits(inst);
      ghost var i3 := inventory;
      GroupByAttached(inst);
      ghost var i4 := inventory;
      GroupByKind("ec2", dest);
      ghost var i5 := inventory;
      r := SetHostVars(dest, inst.info);
      ChainHost(cfg, Ec2Host(cfg, inst, region).value, ByPlace(cfg, region, inst.placement), ByTraits(cfg, inst),
                ByAttached(cfg, inst), i0, i1, i2, i3, i4, i5);
    }

    /** Adds an RDS instance that is wanted and addressable to the index and all its groups. */
    method AddRdsInstance(inst: RdsInstance, region: string) returns (r: Outcome<()>)
      modifies this
      ensures Added(Contents(), r) == AddAddition(cfg, old(Contents()), Rds(inst, region))
    {
      if !cfg.allRdsInstances && inst.status != "available" {
        return Return(());
      }
      var dest := inst.dest;
      if dest == "" {
        return Return(());
      }
      index := index[dest := (region, inst.id)];
      ghost var i0 := inventory;
      GroupById(inst.id, dest);
      ghost var i1 := inventory;
      GroupByPlace(region, inst.availabilityZone, dest);
      ghost var i2 := inventory;
      GroupByRdsTraits(inst);
      ghost var i3 := inventory;
      GroupBy(cfg.byRdsParameterGroup, ToSafe("rds_parameter_group_" + inst.parameterGroup),
              "rds_parameter_groups", dest);
      ghost var i4 := inventory;
      GroupByKind("rds", dest);
      ghost var i5 := inventory;
      r := SetHostVars(dest, inst.info);
      ChainHost(cfg, RdsHost(cfg, inst, region).value, ByPlace(cfg, region, inst.availabilityZone),
                ByRdsTraits(cfg, inst), ByParameterGroup(cfg, inst), i0, i1, i2, i3, i4, i5);
    }
  }

  /** The loops over regions and instances, which an exception ends. With free ids they keep the
      inventory consistent. */
  method AddAll(inv: Ec2Inventory, additions: seq<Addition>) returns (r: Outcome<()>)
    modifies inv
    ensures Added(inv.Contents(), r) == AddAdditions(inv.cfg, old(inv.Contents()), additions)
    ensures old(Consistent(inv.Contents())) && FreeIds(inv.cfg, additions) ==> r.Return? && Consistent(inv.Contents())
  {
    if Consistent(inv.Contents()) && FreeIds(inv.cfg, additions) {
      AdditionsStayConsistent(inv.cfg, inv.Contents(), additions);
    }
    for i := 0 to |additions|
      invariant AddAdditions(inv.cfg, old(inv.Contents()), additions)
             == AddAdditions(inv.cfg, inv.Contents(), additions[i..])
    {
      assert additions[i..][0] == additions[i] && additions[i..][1..] == additions[i + 1..];
      match additions[i] {
        case Ec2(inst, region) => r := inv.AddInstance(inst, region);
        case Rds(inst, region) => r := inv.AddRdsInstance(inst, region);
      }
      if r.Raise? {
        return;
      }
    }
    r := Return(());
  }
}
