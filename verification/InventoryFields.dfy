/** What the inventory of `libraries/provision/ec2.py` holds, stated on the fields of the instances
    and the options alone. */
module InventoryFields {
  import opened Python
  import opened Inventory

  // ----- the instances that are taken, and their groups -----

  function Address(a: Addition): string { if a.Ec2? then a.inst.dest else a.rds.dest }

  function IdOf(a: Addition): string { if a.Ec2? then a.inst.id else a.rds.id }

  function InfoOf(a: Addition): string { if a.Ec2? then a.inst.info else a.rds.info }

  /** Addressable, not filtered out, and in the right state unless all instances are wanted. */
  predicate Wanted(cfg: Config, a: Addition) {
    match a
    case Ec2(inst, _) => inst.dest != "" && cfg.included(inst.dest) && (inst.state == "running" || cfg.allInstances)
    case Rds(inst, _) => inst.dest != "" && (inst.status == "available" || cfg.allRdsInstances)
  }

  /** The options put the instance into the group. */
  ghost predicate InGroup(cfg: Config, a: Addition, key: string) {
    match a
    case Ec2(inst, region) =>
      || key == "ec2" || PlaceGroup(cfg, region, inst.placement, key)
      || TraitGroup(cfg, inst, key) || AttachedGroup(cfg, inst, key)
    case Rds(inst, region) =>
      || key == "rds" || PlaceGroup(cfg, region, inst.availabilityZone, key) || RdsGroup(cfg, inst, key)
  }

  predicate PlaceGroup(cfg: Config, region: string, zone: string, key: string) {
    (cfg.byRegion && key == region) || (cfg.byAvailabilityZone && key == zone)
  }

  predicate TraitGroup(cfg: Config, inst: Instance, key: string) {
    || (cfg.byAmiId && key == ToSafe(inst.imageId))
    || (cfg.byInstanceType && key == ToSafe("type_" + inst.instanceType))
    || (cfg.byKeyPair && inst.keyName != "" && key == ToSafe("key_" + inst.keyName))
    || (cfg.byVpcId && inst.vpcId != "" && key == ToSafe("vpc_id_" + inst.vpcId))
  }

  ghost predicate AttachedGroup(cfg: Config, inst: Instance, key: string) {
    || (cfg.bySecurityGroup && IsSecurityGroup(inst.groups, key)) || (cfg.byTagKeys && IsTag(inst.tags, key))
    || (cfg.byRoute53Names && key in inst.route53Names)
    || (cfg.byTagNone && inst.tags == [] && key == "tag_none")
  }

  predicate RdsGroup(cfg: Config, inst: RdsInstance, key: string) {
    || (cfg.byInstanceType && key == ToSafe("type_" + inst.instanceClass))
    || (cfg.byVpcId && inst.vpcId != "" && key == ToSafe("vpc_id_" + inst.vpcId))
    || (cfg.bySecurityGroup && inst.securityGroup != "" && key == ToSafe("security_group_" + inst.securityGroup))
    || (cfg.byRdsEngine && key == ToSafe("rds_" + inst.engine))
    || (cfg.byRdsParameterGroup && key == ToSafe("rds_parameter_group_" + inst.parameterGroup))
  }

  /** With nested groups, the options put the group under its parent. */
  ghost predicate InParent(cfg: Config, a: Addition, n: Nesting) {
    && cfg.nestedGroups
    && (|| (cfg.byInstanceId && n == Nesting("instances", IdOf(a)))
        || match a
           case Ec2(inst, region) =>
             || PlaceNesting(cfg, region, inst.placement, n) || TraitNesting(cfg, inst, n)
             || AttachedNesting(cfg, inst, n)
           case Rds(inst, region) =>
             PlaceNesting(cfg, region, inst.availabilityZone, n) || RdsNesting(cfg, inst, n))
  }

  predicate PlaceNesting(cfg: Config, region: string, zone: string, n: Nesting) {
    || (cfg.byRegion && n == Nesting("regions", region))
    || (cfg.byAvailabilityZone && n == Nesting("zones", zone))
    || (cfg.byAvailabilityZone && cfg.byRegion && n == Nesting(region, zone))
  }

  predicate TraitNesting(cfg: Config, inst: Instance, n: Nesting) {
    || (cfg.byAmiId && n == Nesting("images", ToSafe(inst.imageId)))
    || (cfg.byInstanceType && n == Nesting("types", ToSafe("type_" + inst.instanceType)))
    || (cfg.byKeyPair && inst.keyName != "" && n == Nesting("keys", ToSafe("key_" + inst.keyName)))
    || (cfg.byVpcId && inst.vpcId != "" && n == Nesting("vpcs", ToSafe("vpc_id_" + inst.vpcId)))
  }

  ghost predicate AttachedNesting(cfg: Config, inst: Instance, n: Nesting) {
    || (cfg.bySecurityGroup && n.parent == "security_groups" && IsSecurityGroup(inst.groups, n.child))
    || (cfg.byTagKeys && IsTagInParent(inst.tags, n.child, n.parent))
    || (cfg.byRoute53Names && n.parent == "route53" && n.child in inst.route53Names)
    || (cfg.byTagNone && inst.tags == [] && n == Nesting("tags", "tag_none"))
  }

  predicate RdsNesting(cfg: Config, inst: RdsInstance, n: Nesting) {
    || (cfg.byInstanceType && n == Nesting("types", ToSafe("type_" + inst.instanceClass)))
    || (cfg.byVpcId && inst.vpcId != "" && n == Nesting("vpcs", ToSafe("vpc_id_" + inst.vpcId)))
    || (cfg.bySecurityGroup && inst.securityGroup != ""
        && n == Nesting("security_groups", ToSafe("security_group_" + inst.securityGroup)))
    || (cfg.byRdsEngine && n == Nesting("rds_engines", ToSafe("rds_" + inst.engine)))
    || (cfg.byRdsParameterGroup
        && n == Nesting("rds_parameter_groups", ToSafe("rds_parameter_group_" + inst.parameterGroup)))
  }

  ghost predicate IsSecurityGroup(groups: seq<string>, key: string) {
    exists i :: 0 <= i < |groups| && key == ToSafe("security_group_" + groups[i])
  }

  ghost predicate IsTag(tags: seq<(string, string)>, key: string) {
    exists i :: 0 <= i < |tags| && key == ToSafe("tag_" + tags[i].0 + "=" + tags[i].1)
  }

  ghost predicate IsTagInParent(tags: seq<(string, string)>, child: string, key: string) {
    exists i :: 0 <= i < |tags| && TagInParent(tags[i], child, key)
  }

  /** The group of a tag key is under "tags", and the group of its value under that. */
  predicate TagInParent(tag: (string, string), child: string, key: string) {
    || (key == "tags" && child == ToSafe("tag_" + tag.0))
    || (key == ToSafe("tag_" + tag.0) && child == ToSafe("tag_" + tag.0 + "=" + tag.1))
  }

  /** Letters, digits and underscores stay, everything else becomes an underscore. */
  lemma ToSafeMeans(word: string)
    ensures |ToSafe(word)| == |word| && ToSafe(ToSafe(word)) == ToSafe(word)
    ensures forall i :: 0 <= i < |word| ==>
              var c := word[i];
              ToSafe(word)[i] == if c == '_' || IsDigit(c) || 'a' <= c <= 'z' || 'A' <= c <= 'Z' then c else '_'
  {
    assert forall i :: 0 <= i < |word| ==> ToSafe(ToSafe(word))[i] == ToSafe(word)[i];
  }

  // ----- the list of groupings and the fields -----

  ghost predicate HasKey(gs: seq<Grouping>, key: string) {
    exists k :: 0 <= k < |gs| && gs[k].key == key
  }

  ghost predicate HasNesting(gs: seq<Grouping>, n: Nesting) {
    exists k :: 0 <= k < |gs| && n in gs[k].nestings
  }

  lemma KeyAppend(a: seq<Grouping>, b: seq<Grouping>, key: string)
    ensures HasKey(a + b, key) <==> HasKey(a, key) || HasKey(b, key)
  {
    var all := a + b;
    if k :| 0 <= k < |a| && a[k].key == key {
      assert all[k].key == key;
    }
    if k :| 0 <= k < |b| && b[k].key == key {
      assert all[|a| + k].key == key;
    }
  }

  lemma NestingAppend(a: seq<Grouping>, b: seq<Grouping>, n: Nesting)
    ensures HasNesting(a + b, n) <==> HasNesting(a, n) || HasNesting(b, n)
  {
    var all := a + b;
    if k :| 0 <= k < |a| && n in a[k].nestings {
      assert n in all[k].nestings;
    }
    if k :| 0 <= k < |b| && n in b[k].nestings {
      assert n in all[|a| + k].nestings;
    }
  }

  lemma OfIf(on: bool, g: Grouping, key: string, n: Nesting)
    ensures HasKey(If(on, g), key) <==> on && g.key == key
    ensures HasNesting(If(on, g), n) <==> on && n in g.nestings
  {
    if on {
      assert If(on, g)[0] == g;
    }
  }

  lemma UnderMeans(key: string, parent: string, n: Nesting)
    ensures n in Under(key, parent).nestings <==> n == Nesting(parent, key)
  {
  }

  lemma {:induction false} OfGathered<T>(f: T -> seq<Grouping>, s: seq<T>, key: string, n: Nesting)
    ensures HasKey(Gather(f, s), key) <==> exists i :: 0 <= i < |s| && HasKey(f(s[i]), key)
    ensures HasNesting(Gather(f, s), n) <==> exists i :: 0 <= i < |s| && HasNesting(f(s[i]), n)
  {
    if s != [] {
      var m := |s| - 1;
      OfGathered(f, s[..m], key, n);
      KeyAppend(Gather(f, s[..m]), f(s[m]), key);
      NestingAppend(Gather(f, s[..m]), f(s[m]), n);
      assert forall i :: 0 <= i < m ==> s[..m][i] == s[i];
    }
  }

  lemma OfOne(g: Grouping, key: string, n: Nesting)
    ensures HasKey([g], key) <==> g.key == key
    ensures HasNesting([g], n) <==> n in g.nestings
  {
    assert [g][0] == g;
  }

  lemma OfSecurityGroups(on: bool, groups: seq<string>, key: string, n: Nesting)
    ensures var gs := ByNames(on, Some("security_group_"), groups, "security_groups");
            && (HasKey(gs, key) <==> on && IsSecurityGroup(groups, key))
            && (HasNesting(gs, n) <==> on && n.parent == "security_groups" && IsSecurityGroup(groups, n.child))
  {
    var f := ByName(Some("security_group_"), "security_groups");
    OfGathered(f, groups, key, n);
    forall i | 0 <= i < |groups|
      ensures HasKey(f(groups[i]), key) <==> key == ToSafe("security_group_" + groups[i])
      ensures HasNesting(f(groups[i]), n) <==>
              n.parent == "security_groups" && n.child == ToSafe("security_group_" + groups[i])
    {
      var name := ToSafe("security_group_" + groups[i]);
      OfOne(Under(name, "security_groups"), key, n);
      UnderMeans(name, "security_groups", n);
    }
  }

  lemma OfRoute53(on: bool, names: seq<string>, key: string, n: Nesting)
    ensures var gs := ByNames(on, None, names, "route53");
            && (HasKey(gs, key) <==> on && key in names)
            && (HasNesting(gs, n) <==> on && n.parent == "route53" && n.child in names)
  {
    var f := ByName(None, "route53");
    OfGathered(f, names, key, n);
    forall i | 0 <= i < |names|
      ensures HasKey(f(names[i]), key) <==> key == names[i]
      ensures HasNesting(f(names[i]), n) <==> n.parent == "route53" && n.child == names[i]
    {
      OfOne(Under(names[i], "route53"), key, n);
      UnderMeans(names[i], "route53", n);
    }
  }

  lemma OfTags(on: bool, tags: seq<(string, string)>, key: string, n: Nesting)
    ensures HasKey(ByTags(on, tags), key) <==> on && IsTag(tags, key)
    ensures HasNesting(ByTags(on, tags), n) <==> on && IsTagInParent(tags, n.child, n.parent)
  {
    OfGathered(ByTag(), tags, key, n);
    forall i | 0 <= i < |tags|
      ensures HasKey(ByTag()(tags[i]), key) <==> key == ToSafe("tag_" + tags[i].0 + "=" + tags[i].1)
      ensures HasNesting(ByTag()(tags[i]), n) <==> TagInParent(tags[i], n.child, n.parent)
    {
      OfOne(TagGrouping(tags[i]), key, n);
    }
  }

  lemma KeyFour(a: seq<Grouping>, b: seq<Grouping>, c: seq<Grouping>, d: seq<Grouping>, key: string)
    ensures HasKey(a + b + c + d, key) <==> HasKey(a, key) || HasKey(b, key) || HasKey(c, key) || HasKey(d, key)
  {
    KeyAppend(a + b + c, d, key);
    KeyAppend(a + b, c, key);
    KeyAppend(a, b, key);
  }

  lemma NestingFour(a: seq<Grouping>, b: seq<Grouping>, c: seq<Grouping>, d: seq<Grouping>, n: Nesting)
    ensures HasNesting(a + b + c + d, n) <==>
            HasNesting(a, n) || HasNesting(b, n) || HasNesting(c, n) || HasNesting(d, n)
  {
    NestingAppend(a + b + c, d, n);
    NestingAppend(a + b, c, n);
    NestingAppend(a, b, n);
  }

  lemma OfPlace(cfg: Config, region: string, zone: string, key: string, n: Nesting)
    ensures HasKey(ByPlace(cfg, region, zone), key) <==> PlaceGroup(cfg, region, zone, key)
    ensures HasNesting(ByPlace(cfg, region, zone), n) <==> PlaceNesting(cfg, region, zone, n)
  {
    var a, b := If(cfg.byRegion, Under(region, "regions")), If(cfg.byAvailabilityZone, ZoneGrouping(cfg, region, zone));
    KeyAppend(a, b, key);
    NestingAppend(a, b, n);
    OfIf(cfg.byRegion, Under(region, "regions"), key, n);
    OfIf(cfg.byAvailabilityZone, ZoneGrouping(cfg, region, zone), key, n);
    UnderMeans(region, "regions", n);
    assert n in ZoneGrouping(cfg, region, zone).nestings <==>
      n == Nesting("zones", zone) || (cfg.byRegion && n == Nesting(region, zone));
  }

  lemma FourUnder(p: bool, a: string, pa: string, q: bool, b: string, pb: string, r: bool, c: string, pc: string,
                  s: bool, d: string, pd: string, key: string, n: Nesting)
    ensures var gs := If(p, Under(a, pa)) + If(q, Under(b, pb)) + If(r, Under(c, pc)) + If(s, Under(d, pd));
            && (HasKey(gs, key) <==> (p && key == a) || (q && key == b) || (r && key == c) || (s && key == d))
            && (HasNesting(gs, n) <==>
                || (p && n == Nesting(pa, a)) || (q && n == Nesting(pb, b))
                || (r && n == Nesting(pc, c)) || (s && n == Nesting(pd, d)))
  {
    KeyFour(If(p, Under(a, pa)), If(q, Under(b, pb)), If(r, Under(c, pc)), If(s, Under(d, pd)), key);
    NestingFour(If(p, Under(a, pa)), If(q, Under(b, pb)), If(r, Under(c, pc)), If(s, Under(d, pd)), n);
    OfIf(p, Under(a, pa), key, n);
    OfIf(q, Under(b, pb), key, n);
    OfIf(r, Under(c, pc), key, n);
    OfIf(s, Under(d, pd), key, n);
    UnderMeans(a, pa, n);
    UnderMeans(b, pb, n);
    UnderMeans(c, pc, n);
    UnderMeans(d, pd, n);
  }

  lemma OfTraits(cfg: Config, inst: Instance, key: string, n: Nesting)
    ensures HasKey(ByTraits(cfg, inst), key) <==> TraitGroup(cfg, inst, key)
    ensures HasNesting(ByTraits(cfg, inst), n) <==> TraitNesting(cfg, inst, n)
  {
    FourUnder(cfg.byAmiId, ToSafe(inst.imageId), "images",
              cfg.byInstanceType, ToSafe("type_" + inst.instanceType), "types",
              cfg.byKeyPair && inst.keyName != "", ToSafe("key_" + inst.keyName), "keys",
              cfg.byVpcId && inst.vpcId != "", ToSafe("vpc_id_" + inst.vpcId), "vpcs", key, n);
  }

  lemma KeysAttached(cfg: Config, inst: Instance, key: string)
    ensures HasKey(ByAttached(cfg, inst), key) <==> AttachedGroup(cfg, inst, key)
  {
    var none, any := cfg.byTagNone && |inst.tags| == 0, Nesting("", "");
    KeyFour(ByNames(cfg.bySecurityGroup, Some("security_group_"), inst.groups, "security_groups"),
            ByTags(cfg.byTagKeys, inst.tags), ByNames(cfg.byRoute53Names, None, inst.route53Names, "route53"),
            If(none, Under("tag_none", "tags")), key);
    OfSecurityGroups(cfg.bySecurityGroup, inst.groups, key, any);
    OfTags(cfg.byTagKeys, inst.tags, key, any);
    OfRoute53(cfg.byRoute53Names, inst.route53Names, key, any);
    OfIf(none, Under("tag_none", "tags"), key, any);
  }

  lemma NestingsAttached(cfg: Config, inst: Instance, n: Nesting)
    ensures HasNesting(ByAttached(cfg, inst), n) <==> AttachedNesting(cfg, inst, n)
  {
    var none := cfg.byTagNone && |inst.tags| == 0;
    NestingFour(ByNames(cfg.bySecurityGroup, Some("security_group_"), inst.groups, "security_groups"),
                ByTags(cfg.byTagKeys, inst.tags), ByNames(cfg.byRoute53Names, None, inst.route53Names, "route53"),
                If(none, Under("tag_none", "tags")), n);
    OfSecurityGroups(cfg.bySecurityGroup, inst.groups, "", n);
    OfTags(cfg.byTagKeys, inst.tags, "", n);
    OfRoute53(cfg.byRoute53Names, inst.route53Names, "", n);
    OfIf(none, Under("tag_none", "tags"), "", n);
    UnderMeans("tag_none", "tags", n);
  }

  lemma OfRds(cfg: Config, inst: RdsInstance, key: string, n: Nesting)
    ensures HasKey(ByRdsTraits(cfg, inst), key) || HasKey(ByParameterGroup(cfg, inst), key) <==>
            RdsGroup(cfg, inst, key)
    ensures HasNesting(ByRdsTraits(cfg, inst), n) || HasNesting(ByParameterGroup(cfg, inst), n) <==>
            RdsNesting(cfg, inst, n)
  {
    FourUnder(cfg.byInstanceType, ToSafe("type_" + inst.instanceClass), "types",
              cfg.byVpcId && inst.vpcId != "", ToSafe("vpc_id_" + inst.vpcId), "vpcs",
              cfg.bySecurityGroup && inst.securityGroup != "", ToSafe("security_group_" + inst.securityGroup),
              "security_groups", cfg.byRdsEngine, ToSafe("rds_" + inst.engine), "rds_engines", key, n);
    var name := ToSafe("rds_parameter_group_" + inst.parameterGroup);
    OfIf(cfg.byRdsParameterGroup, Under(name, "rds_parameter_groups"), key, n);
    UnderMeans(name, "rds_parameter_groups", n);
  }

  /** An instance is taken exactly if it is wanted, with its own address, id, region and variables. */
  lemma TakenIsWanted(cfg: Config, a: Addition)
    ensures HostOf(cfg, a).Some? <==> Wanted(cfg, a)
    ensures HostOf(cfg, a).Some? ==>
              var h := HostOf(cfg, a).value;
              h.dest == Address(a) && h.id == IdOf(a) && h.region == a.region && h.info == InfoOf(a)
  {
  }

  /** Groupings in three parts, and the global group behind them. */
  lemma OfHost(cfg: Config, h: Host, a: seq<Grouping>, b: seq<Grouping>, c: seq<Grouping>, key: string, n: Nesting)
    requires h.groupings == a + b + c
    ensures Joins(h, key) <==> HasKey(a, key) || HasKey(b, key) || HasKey(c, key) || key == h.kind
    ensures Nests(cfg, h, n.child, n.parent) <==>
            && cfg.nestedGroups
            && (|| (cfg.byInstanceId && n == Nesting("instances", h.id))
                || HasNesting(a, n) || HasNesting(b, n) || HasNesting(c, n))
  {
    var kind := Grouping(h.kind, []);
    KeyFour(a, b, c, [kind], key);
    NestingFour(a, b, c, [kind], n);
    OfOne(kind, key, n);
    assert Joins(h, key) <==> HasKey(Joined(h), key);
    assert n == Nesting(n.parent, n.child);
  }

  lemma Ec2ByFields(cfg: Config, inst: Instance, region: string, key: string, n: Nesting)
    requires Ec2Host(cfg, inst, region).Some?
    ensures var h := Ec2Host(cfg, inst, region).value;
            && (Joins(h, key) <==> InGroup(cfg, Ec2(inst, region), key))
            && (Nests(cfg, h, n.child, n.parent) <==> InParent(cfg, Ec2(inst, region), n))
  {
    OfHost(cfg, Ec2Host(cfg, inst, region).value, ByPlace(cfg, region, inst.placement), ByTraits(cfg, inst),
           ByAttached(cfg, inst), key, n);
    OfPlace(cfg, region, inst.placement, key, n);
    OfTraits(cfg, inst, key, n);
    KeysAttached(cfg, inst, key);
    NestingsAttached(cfg, inst, n);
  }

  lemma RdsByFields(cfg: Config, inst: RdsInstance, region: string, key: string, n: Nesting)
    requires RdsHost(cfg, inst, region).Some?
    ensures var h := RdsHost(cfg, inst, region).value;
            && (Joins(h, key) <==> InGroup(cfg, Rds(inst, region), key))
            && (Nests(cfg, h, n.child, n.parent) <==> InParent(cfg, Rds(inst, region), n))
  {
    OfHost(cfg, RdsHost(cfg, inst, region).value, ByPlace(cfg, region, inst.availabilityZone), ByRdsTraits(cfg, inst),
           ByParameterGroup(cfg, inst), key, n);
    OfPlace(cfg, region, inst.availabilityZone, key, n);
    OfRds(cfg, inst, key, n);
  }

  /** A wanted instance joins exactly the groups that the options give it. */
  lemma JoinsByFields(cfg: Config, a: Addition, key: string, n: Nesting)
    requires Wanted(cfg, a)
    ensures HostOf(cfg, a).Some? && (Joins(HostOf(cfg, a).value, key) <==> InGroup(cfg, a, key))
    ensures Nests(cfg, HostOf(cfg, a).value, n.child, n.parent) <==> InParent(cfg, a, n)
  {
    TakenIsWanted(cfg, a);
    match a
    case Ec2(inst, region) => Ec2ByFields(cfg, inst, region, key, n);
    case Rds(inst, region) => RdsByFields(cfg, inst, region, key, n);
  }

  // ----- after all instances -----

  lemma HostToAddition(cfg: Config, additions: seq<Addition>, i: nat) returns (j: nat)
    requires i < |Taken(cfg, additions)|
    ensures j < |additions| && HostOf(cfg, additions[j]) == Some(Taken(cfg, additions)[i])
  {
    var h := Taken(cfg, additions)[i];
    GatherMember(TakenOf(cfg), additions, h);
    j :| 0 <= j < |additions| && h in TakenOf(cfg)(additions[j]);
  }

  lemma AdditionToHost(cfg: Config, additions: seq<Addition>, j: nat) returns (i: nat)
    requires j < |additions| && HostOf(cfg, additions[j]).Some?
    ensures i < |Taken(cfg, additions)| && HostOf(cfg, additions[j]) == Some(Taken(cfg, additions)[i])
  {
    var h := HostOf(cfg, additions[j]).value;
    GatherMember(TakenOf(cfg), additions, h);
    assert h in TakenOf(cfg)(additions[j]);
    i :| 0 <= i < |Taken(cfg, additions)| && Taken(cfg, additions)[i] == h;
  }

  /** A wanted instance with the address joins the group. */
  ghost predicate Brings(cfg: Config, a: Addition, key: string, address: string) {
    Wanted(cfg, a) && Address(a) == address && InGroup(cfg, a, key)
  }

  /** A wanted instance puts the group under the parent. */
  ghost predicate Places(cfg: Config, a: Addition, parent: string, child: string) {
    Wanted(cfg, a) && InParent(cfg, a, Nesting(parent, child))
  }

  /** The group is not named like a wanted instance that gets a group of its own. */
  ghost predicate NotOwn(cfg: Config, additions: seq<Addition>, key: string) {
    cfg.byInstanceId ==> forall i :: 0 <= i < |additions| && Wanted(cfg, additions[i]) ==> IdOf(additions[i]) != key
  }

  lemma NotOwnLeaves(cfg: Config, additions: seq<Addition>, key: string)
    requires NotOwn(cfg, additions, key)
    ensures Leave(cfg, Taken(cfg, additions), key)
  {
    forall i | 0 <= i < |Taken(cfg, additions)| && cfg.byInstanceId
      ensures Taken(cfg, additions)[i].id != key
    {
      var j := HostToAddition(cfg, additions, i);
      TakenIsWanted(cfg, additions[j]);
    }
  }

  lemma BringsMeans(cfg: Config, additions: seq<Addition>, key: string, e: string)
    ensures (exists i :: 0 <= i < |Taken(cfg, additions)| && Joins(Taken(cfg, additions)[i], key)
                         && Taken(cfg, additions)[i].dest == e) <==>
            exists j :: 0 <= j < |additions| && Brings(cfg, additions[j], key, e)
  {
    var hosts, any := Taken(cfg, additions), Nesting("", "");
    if i :| 0 <= i < |hosts| && Joins(hosts[i], key) && hosts[i].dest == e {
      var j := HostToAddition(cfg, additions, i);
      TakenIsWanted(cfg, additions[j]);
      JoinsByFields(cfg, additions[j], key, any);
      assert Brings(cfg, additions[j], key, e);
    }
    if j :| 0 <= j < |additions| && Brings(cfg, additions[j], key, e) {
      TakenIsWanted(cfg, additions[j]);
      JoinsByFields(cfg, additions[j], key, any);
      var i := AdditionToHost(cfg, additions, j);
      assert Joins(hosts[i], key) && hosts[i].dest == e;
    }
  }

  lemma PlacesMeans(cfg: Config, additions: seq<Addition>, key: string, e: string)
    ensures (exists i :: 0 <= i < |Taken(cfg, additions)| && Nests(cfg, Taken(cfg, additions)[i], e, key)) <==>
            exists j :: 0 <= j < |additions| && Places(cfg, additions[j], key, e)
  {
    var hosts, n := Taken(cfg, additions), Nesting(key, e);
    if i :| 0 <= i < |hosts| && Nests(cfg, hosts[i], e, key) {
      var j := HostToAddition(cfg, additions, i);
      TakenIsWanted(cfg, additions[j]);
      JoinsByFields(cfg, additions[j], key, n);
      assert Places(cfg, additions[j], key, e);
    }
    if j :| 0 <= j < |additions| && Places(cfg, additions[j], key, e) {
      TakenIsWanted(cfg, additions[j]);
      JoinsByFields(cfg, additions[j], key, n);
      var i := AdditionToHost(cfg, additions, j);
      assert Nests(cfg, hosts[i], e, key);
    }
  }

  /** After any instances, an address is in a group exactly if it was before or a wanted instance has
      that address and the options give it the group; and a group is a child exactly if it was
      before or the options of a wanted instance put it there. */
  lemma GroupsByFields(cfg: Config, s: Snapshot, additions: seq<Addition>, key: string, e: string)
    requires AddAdditions(cfg, s, additions).r.Return? && NotOwn(cfg, additions, key)
    requires FirstOccurrences(Children(s.inv, key)) == Children(s.inv, key)
    ensures var inv := AddAdditions(cfg, s, additions).now.inv;
            && (e in Hosts(inv, key) <==>
                e in Hosts(s.inv, key) || exists i :: 0 <= i < |additions| && Brings(cfg, additions[i], key, e))
            && (e in Children(inv, key) <==>
                e in Children(s.inv, key) || exists i :: 0 <= i < |additions| && Places(cfg, additions[i], key, e))
  {
    NotOwnLeaves(cfg, additions, key);
    GroupMembers(cfg, s, additions, key, e);
    BringsMeans(cfg, additions, key, e);
    PlacesMeans(cfg, additions, key, e);
  }

  /** A wanted EC2 instance with the address. */
  predicate IsEc2At(cfg: Config, a: Addition, e: string) {
    && a.Ec2? && a.inst.dest == e && e != "" && cfg.included(e)
    && (cfg.allInstances || a.inst.state == "running")
  }

  predicate IsRdsAt(cfg: Config, a: Addition, e: string) {
    a.Rds? && a.rds.dest == e && e != "" && (cfg.allRdsInstances || a.rds.status == "available")
  }

  /** The global groups hold the wanted instances of their kind, and nothing else as long as no other
      group of an instance has their name. */
  lemma GlobalGroups(cfg: Config, s: Snapshot, additions: seq<Addition>, e: string)
    requires AddAdditions(cfg, s, additions).r.Return?
    requires FirstOccurrences(Children(s.inv, "ec2")) == Children(s.inv, "ec2")
    requires FirstOccurrences(Children(s.inv, "rds")) == Children(s.inv, "rds")
    requires NotOwn(cfg, additions, "ec2") && NotOwn(cfg, additions, "rds")
    requires forall i :: 0 <= i < |additions| && additions[i].Rds? ==> !InGroup(cfg, additions[i], "ec2")
    requires forall i :: 0 <= i < |additions| && additions[i].Ec2? ==> !InGroup(cfg, additions[i], "rds")
    ensures var inv := AddAdditions(cfg, s, additions).now.inv;
            && (e in Hosts(inv, "ec2") <==>
                e in Hosts(s.inv, "ec2") || exists i :: 0 <= i < |additions| && IsEc2At(cfg, additions[i], e))
            && (e in Hosts(inv, "rds") <==>
                e in Hosts(s.inv, "rds") || exists i :: 0 <= i < |additions| && IsRdsAt(cfg, additions[i], e))
  {
    GroupsByFields(cfg, s, additions, "ec2", e);
    GroupsByFields(cfg, s, additions, "rds", e);
    SomeEc2(cfg, additions, e);
    SomeRds(cfg, additions, e);
  }

  lemma SomeEc2(cfg: Config, additions: seq<Addition>, e: string)
    requires forall i :: 0 <= i < |additions| && additions[i].Rds? ==> !InGroup(cfg, additions[i], "ec2")
    ensures (exists i :: 0 <= i < |additions| && Brings(cfg, additions[i], "ec2", e)) <==>
            exists i :: 0 <= i < |additions| && IsEc2At(cfg, additions[i], e)
  {
    forall i | 0 <= i < |additions|
      ensures Brings(cfg, additions[i], "ec2", e) <==> IsEc2At(cfg, additions[i], e)
    {
      assert additions[i].Rds? ==> !InGroup(cfg, additions[i], "ec2");
    }
  }

  lemma SomeRds(cfg: Config, additions: seq<Addition>, e: string)
    requires forall i :: 0 <= i < |additions| && additions[i].Ec2? ==> !InGroup(cfg, additions[i], "rds")
    ensures (exists i :: 0 <= i < |additions| && Brings(cfg, additions[i], "rds", e)) <==>
            exists i :: 0 <= i < |additions| && IsRdsAt(cfg, additions[i], e)
  {
    forall i | 0 <= i < |additions|
      ensures Brings(cfg, additions[i], "rds", e) <==> IsRdsAt(cfg, additions[i], e)
    {
      assert additions[i].Ec2? ==> !InGroup(cfg, additions[i], "rds");
    }
  }

  // ----- the last instance with an address -----

  /** No later wanted instance has the address. */
  ghost predicate LastAt(cfg: Config, additions: seq<Addition>, i: nat)
    requires i < |additions|
  {
    forall j :: i < j < |additions| && Wanted(cfg, additions[j]) ==> Address(additions[j]) != Address(additions[i])
  }

  ghost predicate NobodyAt(cfg: Config, additions: seq<Addition>, d: string) {
    forall j :: 0 <= j < |additions| && Wanted(cfg, additions[j]) ==> Address(additions[j]) != d
  }

  /** The index after wanted instances, one by one. */
  function IndexAfter(cfg: Config, index: map<string, (string, string)>, additions: seq<Addition>)
    : map<string, (string, string)>
    decreases |additions|
  {
    if additions == [] then index
    else
      var a := additions[0];
      IndexAfter(cfg, if Wanted(cfg, a) then index[Address(a) := (a.region, IdOf(a))] else index, additions[1..])
  }

  lemma AdditionIndex(cfg: Config, s: Snapshot, a: Addition)
    ensures AddAddition(cfg, s, a).now.index ==
            if Wanted(cfg, a) then s.index[Address(a) := (a.region, IdOf(a))] else s.index
  {
    TakenIsWanted(cfg, a);
  }

  lemma {:induction false} IndexIsAfter(cfg: Config, s: Snapshot, additions: seq<Addition>)
    requires AddAdditions(cfg, s, additions).r.Return?
    ensures AddAdditions(cfg, s, additions).now.index == IndexAfter(cfg, s.index, additions)
    decreases |additions|
  {
    if additions != [] {
      AdditionIndex(cfg, s, additions[0]);
      IndexIsAfter(cfg, AddAddition(cfg, s, additions[0]).now, additions[1..]);
    }
  }

  lemma {:induction false} IndexKept(cfg: Config, index: map<string, (string, string)>, additions: seq<Addition>,
                                     d: string)
    requires NobodyAt(cfg, additions, d) && d in index
    ensures d in IndexAfter(cfg, index, additions) && IndexAfter(cfg, index, additions)[d] == index[d]
    decreases |additions|
  {
    if additions != [] {
      var a := additions[0];
      assert forall j :: 0 <= j < |additions| - 1 ==> additions[1..][j] == additions[j + 1];
      IndexKept(cfg, if Wanted(cfg, a) then index[Address(a) := (a.region, IdOf(a))] else index, additions[1..], d);
    }
  }

  lemma {:induction false} LastIndexed(cfg: Config, index: map<string, (string, string)>, additions: seq<Addition>,
                                       i: nat)
    requires i < |additions| && Wanted(cfg, additions[i]) && LastAt(cfg, additions, i)
    ensures var a, after := additions[i], IndexAfter(cfg, index, additions);
            Address(a) in after && after[Address(a)] == (a.region, IdOf(a))
    decreases |additions|
  {
    var a, rest := additions[0], additions[1..];
    var next := if Wanted(cfg, a) then index[Address(a) := (a.region, IdOf(a))] else index;
    assert forall j :: 0 <= j < |rest| ==> rest[j] == additions[j + 1];
    if i == 0 {
      assert NobodyAt(cfg, rest, Address(a));
      IndexKept(cfg, next, rest, Address(a));
    } else {
      assert LastAt(cfg, rest, i - 1);
      LastIndexed(cfg, next, rest, i - 1);
    }
  }

  /** The index names region and id of the last wanted instance with the address. */
  lemma IndexByFields(cfg: Config, s: Snapshot, additions: seq<Addition>, i: nat)
    requires AddAdditions(cfg, s, additions).r.Return?
    requires i < |additions| && Wanted(cfg, additions[i]) && LastAt(cfg, additions, i)
    ensures var a, index := additions[i], AddAdditions(cfg, s, additions).now.index;
            Address(a) in index && index[Address(a)] == (a.region, IdOf(a))
  {
    IndexIsAfter(cfg, s, additions);
    LastIndexed(cfg, s.index, additions, i);
  }

  lemma {:induction false} VarsKept(inv: Groups, ops: seq<Op>)
    requires Spares(ops, META) && Gather(EffectOn(ToVars, META), ops) == []
    ensures HostVars(Run(inv, ops)) == HostVars(inv)
  {
    if ops != [] {
      var n := |ops| - 1;
      assert EffectOn(ToVars, META)(ops[n]) == [] && EffectOn(Overwritten, META)(ops[n]) == [];
      VarsKept(inv, ops[..n]);
    }
  }

  lemma VarsOfHost(cfg: Config, inv: Groups, h: Host)
    requires HostVars(inv).Some? && (cfg.byInstanceId ==> h.id != META)
    ensures HostVars(Run(inv, HostOps(cfg)(h))) == Some(HostVars(inv).value[h.dest := h.info])
  {
    var own, joined, vars := IdOps(cfg, h.id, h.dest), GroupingOps(cfg, Joined(h), h.dest), SetVars(h.dest, h.info);
    NoVarsBefore(cfg, h, ToVars);
    NoVarsBefore(cfg, h, Overwritten);
    VarsKept(inv, own + joined);
    RunAppend(inv, own + joined, [vars]);
    RunOne(Run(inv, own + joined), vars);
  }

  lemma NoVarsBefore(cfg: Config, h: Host, effect: Effect)
    requires (effect == ToVars || effect == Overwritten) && (cfg.byInstanceId ==> h.id != META)
    ensures Gather(EffectOn(effect, META), IdOps(cfg, h.id, h.dest) + GroupingOps(cfg, Joined(h), h.dest)) == []
  {
    GatherAppend(EffectOn(effect, META), IdOps(cfg, h.id, h.dest), GroupingOps(cfg, Joined(h), h.dest));
    IdOpsEffect(cfg, h.id, h.dest, effect, META);
    GroupingOpsEffect(cfg, Joined(h), h.dest, effect, META);
    NoVars(cfg, Joined(h), h.dest, effect, META);
  }

  lemma AdditionVars(cfg: Config, s: Snapshot, a: Addition)
    requires HostVars(s.inv).Some? && (Wanted(cfg, a) && cfg.byInstanceId ==> IdOf(a) != META)
    ensures HostVars(AddAddition(cfg, s, a).now.inv) ==
            Some(if Wanted(cfg, a) then HostVars(s.inv).value[Address(a) := InfoOf(a)] else HostVars(s.inv).value)
  {
    TakenIsWanted(cfg, a);
    if Wanted(cfg, a) {
      VarsOfHost(cfg, s.inv, HostOf(cfg, a).value);
    }
  }

  /** The host variables after wanted instances, one by one. */
  function VarsAfter(cfg: Config, vars: map<string, string>, additions: seq<Addition>): map<string, string>
    decreases |additions|
  {
    if additions == [] then vars
    else
      var a := additions[0];
      VarsAfter(cfg, if Wanted(cfg, a) then vars[Address(a) := InfoOf(a)] else vars, additions[1..])
  }

  lemma {:induction false} VarsAreAfter(cfg: Config, s: Snapshot, additions: seq<Addition>)
    requires HostVars(s.inv).Some? && NotOwn(cfg, additions, META)
    ensures HostVars(AddAdditions(cfg, s, additions).now.inv) == Some(VarsAfter(cfg, HostVars(s.inv).value, additions))
    decreases |additions|
  {
    if additions != [] {
      AdditionVars(cfg, s, additions[0]);
      NotOwnRest(cfg, additions, META);
      VarsAreAfter(cfg, AddAddition(cfg, s, additions[0]).now, additions[1..]);
    }
  }

  lemma NotOwnRest(cfg: Config, additions: seq<Addition>, key: string)
    requires additions != [] && NotOwn(cfg, additions, key)
    ensures NotOwn(cfg, additions[1..], key)
  {
    assert forall j :: 0 <= j < |additions| - 1 ==> additions[1..][j] == additions[j + 1];
  }

  lemma {:induction false} VarsOfOthers(cfg: Config, vars: map<string, string>, additions: seq<Addition>, d: string)
    requires NobodyAt(cfg, additions, d) && d in vars
    ensures d in VarsAfter(cfg, vars, additions) && VarsAfter(cfg, vars, additions)[d] == vars[d]
    decreases |additions|
  {
    if additions != [] {
      var a := additions[0];
      assert forall j :: 0 <= j < |additions| - 1 ==> additions[1..][j] == additions[j + 1];
      VarsOfOthers(cfg, if Wanted(cfg, a) then vars[Address(a) := InfoOf(a)] else vars, additions[1..], d);
    }
  }

  lemma {:induction false} LastVars(cfg: Config, vars: map<string, string>, additions: seq<Addition>, i: nat)
    requires i < |additions| && Wanted(cfg, additions[i]) && LastAt(cfg, additions, i)
    ensures var a, after := additions[i], VarsAfter(cfg, vars, additions);
            Address(a) in after && after[Address(a)] == InfoOf(a)
    decreases |additions|
  {
    var a, rest := additions[0], additions[1..];
    var next := if Wanted(cfg, a) then vars[Address(a) := InfoOf(a)] else vars;
    assert forall j :: 0 <= j < |rest| ==> rest[j] == additions[j + 1];
    if i == 0 {
      assert NobodyAt(cfg, rest, Address(a));
      VarsOfOthers(cfg, next, rest, Address(a));
    } else {
      assert LastAt(cfg, rest, i - 1);
      LastVars(cfg, next, rest, i - 1);
    }
  }

  /** The variables of a host are those of the last wanted instance with the address. */
  lemma VarsByFields(cfg: Config, s: Snapshot, additions: seq<Addition>, i: nat)
    requires HostVars(s.inv).Some? && NotOwn(cfg, additions, META)
    requires i < |additions| && Wanted(cfg, additions[i]) && LastAt(cfg, additions, i)
    ensures var a, vars := additions[i], HostVars(AddAdditions(cfg, s, additions).now.inv);
            vars.Some? && Address(a) in vars.value && vars.value[Address(a)] == InfoOf(a)
  {
    VarsAreAfter(cfg, s, additions);
    LastVars(cfg, HostVars(s.inv).value, additions, i);
  }
}
