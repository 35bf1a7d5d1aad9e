/** How `keywords/couchbaseserver.py` divides the memory of a cluster among the buckets that
    one call creates. */
module BucketRam {
  import opened Python

  const BYTES_PER_MB := 1024 * 1024
  const INDEXER_MB := 512
  const MAX_POLLS := 5

  /** What the nodes report in one answer, in bytes. */
  type NodeInfo = seq<nat>

  /** The smallest report that is not zero. */
  ghost predicate IsLowest(info: NodeInfo, lowest: Option<nat>) {
    match lowest
    case None => forall m :: m in info ==> m == 0
    case Some(n) => n in info && n > 0 && forall m :: m in info && m > 0 ==> n <= m
  }

  method GetMemTotalLowest(info: NodeInfo) returns (lowest: Option<nat>)
    ensures IsLowest(info, lowest)
  {
    lowest := None;
    for i := 0 to |info|
      invariant IsLowest(info[..i], lowest)
    {
      assert info[..i + 1] == info[..i] + [info[i]];
      if info[i] == 0 {
        continue;
      }
      if lowest.None? {
        lowest := Some(info[i]);
      } else if info[i] < lowest.value {
        lowest := Some(info[i]);
      }
    }
    assert info[..|info|] == info;
  }

  /** The report that decides is the only one that can. */
  lemma LowestIsUnique(info: NodeInfo, info': NodeInfo, a: Option<nat>, b: Option<nat>)
    requires forall m :: m > 0 ==> (m in info <==> m in info')
    requires IsLowest(info, a) && IsLowest(info', b)
    ensures a == b
  {
  }

  function Lowest(info: NodeInfo): (lowest: Option<nat>)
    ensures IsLowest(info, lowest)
  {
    if info == [] then None
    else
      var n := |info| - 1;
      var before := Lowest(info[..n]);
      assert info == info[..n] + [info[n]];
      if info[n] > 0 && (before.None? || info[n] < before.value) then Some(info[n]) else before
  }

  /** The memory in MB that the answers from a round on lead to. */
  function TotalMb(server: nat -> NodeInfo, k: nat): Outcome<nat>
    decreases MAX_POLLS - k
  {
    if k >= MAX_POLLS then Raise(ProvisioningError)
    else
      match Lowest(server(k))
      case None => TotalMb(server, k + 1)
      case Some(bytes) => Return(bytes / BYTES_PER_MB)
  }

  /** Polls until an answer has a node that reports memory, at most five times. The memory in
      MB is that of the smallest such node, rounded down. */
  method GetTotalRamMb(server: nat -> NodeInfo) returns (r: Outcome<nat>, polls: nat)
    ensures match r
            case Return(mb) =>
              && 1 <= polls <= 5 && (forall k :: 0 <= k < polls - 1 ==> IsLowest(server(k), None))
              && IsLowestMb(server(polls - 1), mb)
            case Raise(e) =>
              e == ProvisioningError && forall k :: 0 <= k < 5 ==> IsLowest(server(k), None)
    ensures r == TotalMb(server, 0)
  {
    polls := 0;
    var lowest: Option<nat> := None;
    while polls < MAX_POLLS && lowest.None?
      invariant polls <= MAX_POLLS
      invariant TotalMb(server, 0) ==
                if lowest.None? then TotalMb(server, polls) else Return(lowest.value / BYTES_PER_MB)
      invariant forall k :: 0 <= k < polls - 1 ==> IsLowest(server(k), None)
      invariant if polls == 0 then lowest == None else IsLowest(server(polls - 1), lowest)
      decreases MAX_POLLS - polls
    {
      lowest := GetMemTotalLowest(server(polls));
      LowestIsUnique(server(polls), server(polls), lowest, Lowest(server(polls)));
      polls := polls + 1;
    }
    if lowest.None? {
      return Raise(ProvisioningError), polls;
    }
    RoundedDown(server(polls - 1), lowest.value);
    r := Return(lowest.value / BYTES_PER_MB);
  }

  lemma RoundedDown(info: NodeInfo, bytes: nat)
    requires IsLowest(info, Some(bytes))
    ensures IsLowestMb(info, bytes / BYTES_PER_MB)
  {
  }

  /** Some node reports less than mb + 1 MB, and every node that reports memory has mb MB. */
  ghost predicate IsLowestMb(info: NodeInfo, mb: nat) {
    && (exists m :: m in info && 0 < m < (mb + 1) * 1024 * 1024)
    && (forall m :: m in info && m > 0 ==> mb * 1024 * 1024 <= m)
  }

  /** 80% of the memory, rounded down, minus the share of the indexer. */
  function EffectiveRamMb(totalMb: nat): (e: int)
    ensures 5 * (e + 512) <= 4 * totalMb < 5 * (e + 513)
  {
    4 * totalMb / 5 - INDEXER_MB
  }

  function RamPerBucket(totalMb: nat, numBuckets: nat): (q: int)
    requires numBuckets > 0
  {
    TruncDiv(EffectiveRamMb(totalMb), numBuckets)
  }

  /** The quota of each of a number of buckets that the answers from a round on lead to. */
  function Quota(server: nat -> NodeInfo, k: nat, numBuckets: nat): Outcome<int>
    requires numBuckets > 0
  {
    var totalMb :- TotalMb(server, k);
    Return(RamPerBucket(totalMb, numBuckets))
  }

  /** Two servers whose answers differ only in nodes that report zero. */
  ghost predicate SameReports(server: nat -> NodeInfo, server': nat -> NodeInfo) {
    forall k: nat, m :: k < 5 && m > 0 ==> (m in server(k) <==> m in server'(k))
  }

  lemma {:induction false} SameTotal(server: nat -> NodeInfo, server': nat -> NodeInfo, k: nat)
    requires SameReports(server, server')
    ensures TotalMb(server, k) == TotalMb(server', k)
    decreases MAX_POLLS - k
  {
    if k < MAX_POLLS {
      LowestIsUnique(server(k), server'(k), Lowest(server(k)), Lowest(server'(k)));
      SameTotal(server, server', k + 1);
    }
  }

  /** Nodes that report zero influence neither the quotas nor whether there are any. */
  lemma ZeroNodesDoNotMatter(server: nat -> NodeInfo, server': nat -> NodeInfo, k: nat, numBuckets: nat)
    requires SameReports(server, server') && numBuckets > 0
    ensures Quota(server, k, numBuckets) == Quota(server', k, numBuckets)
  {
    SameTotal(server, server', k);
  }

  datatype Bucket = Bucket(name: string, ramMb: int)

  function Total(buckets: seq<Bucket>): int {
    if buckets == [] then 0 else Total(buckets[..|buckets| - 1]) + buckets[|buckets| - 1].ramMb
  }

  lemma {:induction false} TotalOfEqual(buckets: seq<Bucket>, quota: int)
    requires forall i :: 0 <= i < |buckets| ==> buckets[i].ramMb == quota
    ensures Total(buckets) == |buckets| * quota
  {
    if buckets != [] {
      TotalOfEqual(buckets[..|buckets| - 1], quota);
    }
  }

  /** The names that are asked for and not there yet, each once. */
  ghost predicate CreatesExactly(created: seq<Bucket>, names: seq<string>, existing: seq<string>) {
    && (forall i, j :: 0 <= i < j < |created| ==> created[i].name != created[j].name)
    && (forall n :: (exists i :: 0 <= i < |created| && created[i].name == n) <==> n in names && n !in existing)
  }

  /** The memory that the buckets leave unused is less than one MB for each of them. */
  ghost predicate DividesRam(created: seq<Bucket>, totalMb: nat) {
    var effective := EffectiveRamMb(totalMb);
    if effective >= 0 then Total(created) <= effective < Total(created) + |created|
    else effective <= Total(created) < effective + |created|
  }

  /** The loop that creates the buckets, in the arbitrary order of a set. */
  method CreateAll(names: set<string>, quota: int) returns (created: seq<Bucket>)
    ensures |created| == |names| && (forall i :: 0 <= i < |created| ==> created[i].ramMb == quota)
    ensures forall i, j :: 0 <= i < j < |created| ==> created[i].name != created[j].name
    ensures forall n :: n in names <==> Bucket(n, quota) in created
  {
    created := [];
    var left := names;
    while left != {}
      invariant left <= names && |created| + |left| == |names|
      invariant forall i :: 0 <= i < |created| ==> created[i].ramMb == quota
      invariant forall n :: n in names - left <==> Bucket(n, quota) in created
      invariant forall i, j :: 0 <= i < j < |created| ==> created[i].name != created[j].name
      decreases left
    {
      var name :| name in left;
      assert forall i :: 0 <= i < |created| ==> created[i] == Bucket(created[i].name, quota) && created[i] in created;
      created := created + [Bucket(name, quota)];
      left := left - {name};
    }
  }

  /** Creates the missing buckets with equal quotas. If the cluster has enough memory, their
      sum stays within 80% of every node that reports memory, minus the indexer's share. */
  method CreateBuckets(names: seq<string>, existing: seq<string>, server: nat -> NodeInfo)
    returns (r: Outcome<seq<Bucket>>, polls: nat, totalMb: nat)
    ensures match r
            case Return(created) =>
              && CreatesExactly(created, names, existing)
              && (forall i :: 0 <= i < |created| ==> Return(created[i].ramMb) == Quota(server, 0, |created|))
              && (created != [] ==>
                    && 1 <= polls <= 5 && IsLowestMb(server(polls - 1), totalMb) && DividesRam(created, totalMb)
                    && (EffectiveRamMb(totalMb) >= 0 ==> FitsNodes(server(polls - 1), Total(created))))
            case Raise(e) =>
              && e == ProvisioningError && (exists n :: n in names && n !in existing)
              && forall k :: 0 <= k < 5 ==> IsLowest(server(k), None)
  {
    polls, totalMb := 0, 0;
    var toCreate := (set n | n in names) - (set n | n in existing);
    if |toCreate| == 0 {
      assert toCreate == {};
      assert forall n :: n in names ==> n in existing || n in toCreate;
      return Return([]), polls, totalMb;
    }
    var total;
    total, polls := GetTotalRamMb(server);
    if total.Raise? {
      ghost var missing :| missing in toCreate;
      return Raise(total.error), polls, totalMb;
    }
    totalMb := total.value;
    var quota := RamPerBucket(totalMb, |toCreate|);
    var created := CreateAll(toCreate, quota);
    CreatedNames(created, toCreate, quota, names, existing);
    CreatedFit(created, server(polls - 1), totalMb, quota);
    r := Return(created);
  }

  lemma CreatedNames(created: seq<Bucket>, toCreate: set<string>, quota: int, names: seq<string>, existing: seq<string>)
    requires toCreate == (set n | n in names) - (set n | n in existing)
    requires forall i, j :: 0 <= i < j < |created| ==> created[i].name != created[j].name
    requires forall i :: 0 <= i < |created| ==> created[i].ramMb == quota
    requires forall n :: n in toCreate <==> Bucket(n, quota) in created
    ensures CreatesExactly(created, names, existing)
  {
    forall n | n in toCreate
      ensures exists i :: 0 <= i < |created| && created[i].name == n
    {
      var i :| 0 <= i < |created| && created[i] == Bucket(n, quota);
    }
    forall i | 0 <= i < |created|
      ensures created[i].name in toCreate
    {
      assert created[i] == Bucket(created[i].name, quota);
    }
    assert forall n :: n in toCreate <==> n in names && n !in existing;
  }

  lemma CreatedFit(created: seq<Bucket>, info: NodeInfo, totalMb: nat, quota: int)
    requires created != [] && quota == RamPerBucket(totalMb, |created|) && IsLowestMb(info, totalMb)
    requires forall i :: 0 <= i < |created| ==> created[i].ramMb == quota
    ensures DividesRam(created, totalMb)
    ensures EffectiveRamMb(totalMb) >= 0 ==> FitsNodes(info, Total(created))
  {
    TotalOfEqual(created, quota);
    QuotasFit(info, totalMb, |created|, Total(created));
  }

  /** With the indexer's share, the buckets take at most 80% of each node. */
  ghost predicate FitsNodes(info: NodeInfo, sumMb: int) {
    forall m :: m in info && m > 0 ==> 5 * (sumMb + 512) * 1024 * 1024 <= 4 * m
  }

  /** The arithmetic of the division. */
  lemma QuotasFit(info: NodeInfo, totalMb: nat, n: nat, sum: int)
    requires n > 0 && sum == n * RamPerBucket(totalMb, n) && IsLowestMb(info, totalMb)
    ensures var e := EffectiveRamMb(totalMb);
            && (if e >= 0 then sum <= e < sum + n else e <= sum < e + n)
            && (e >= 0 ==> FitsNodes(info, sum))
  {
  }
}
