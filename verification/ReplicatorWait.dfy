/** `wait_until_replicator_idle` of `CBLClient/Replication.py`: a loop over remote readings,
    driven by two counters. Nothing is assumed about what the replicator reports. */
module ReplicatorWait {
  import opened Python

  datatype Level = Offline | Connecting | Busy | Idle | Stopped

  datatype ErrorReading = NoError | Nil | MinusOne | Message(text: string)

  /** The readings of one iteration in the order in which they are taken: progress while idle
      (the total is read twice), the error, the time passed, and the state after it. */
  datatype Round = Round(
    idleCompleted: int, idleTotal: int, idleTotalAgain: int,
    error: ErrorReading, elapsed: int,
    level: Level, total: int, completed: int)

  datatype Config = Config(errCheck: bool, continuous: bool, maxTimes: int, maxTimeout: int)

  /** Everything the replicator reports: the level before the loop, then a round each time. */
  datatype Readings = Readings(first: Level, rounds: nat -> Round)

  /** How the wait ends without an exception. */
  datatype Ending = Settled | StoppedComplete | Exhausted

  const MAX_IDLE_COUNT := 20

  // ----- the errors of a connection that is retried -----

  predicate AndroidRetry(msg: string) {
    Contains(msg, "POSIXErrorDomain,111") && Contains(msg, "Connection refused") && Contains(msg, "Android")
  }

  predicate JavaRetry(msg: string) {
    && Contains(msg, "CouchbaseLite,11001") && Contains(msg, "WebSocket connection closed by peer")
    && Contains(msg, "Java")
  }

  predicate NetRetry(msg: string) {
    Contains(msg, "POSIXDomain / 111") && Contains(msg, "Connection refused")
  }

  predicate IosRetry(msg: string) {
    Contains(msg, "NSPOSIXErrorDomain") && Contains(msg, "Connection refused") && Contains(msg, "Code=61")
  }

  predicate Refused(msg: string) {
    Contains(msg, "No connection could be made because the target machine actively refused it")
  }

  /** `is_replicator_in_connection_retry`, given the codes to look for in messages of C. */
  predicate IsRetry(msg: string, codes: seq<string>) {
    || AndroidRetry(msg) || JavaRetry(msg) || NetRetry(msg) || IosRetry(msg)
    || (exists i :: 0 <= i < |codes| && Contains(msg, codes[i]))
    || Refused(msg)
  }

  /** The codes that are listed, of which the `or` keeps only the first. */
  const LISTED := ["111", "61", "5003"]
  const TESTED := ["111"]

  predicate IsConnectionRetry(msg: string) { IsRetry(msg, TESTED) }

  lemma ContainsPart(msg: string, text: string, part: string, i: nat)
    requires Contains(msg, text) && i <= |text| && part <= text[i..]
    ensures Contains(msg, part)
  {
    var j :| 0 <= j <= |msg| && text <= msg[j..];
    assert part <= msg[j + i..];
  }

  /** The tests for Android and .NET add nothing to the code 111. */
  lemma RetryMeans(msg: string)
    ensures IsConnectionRetry(msg) <==>
            || Contains(msg, "111")
            || (Contains(msg, "CouchbaseLite,11001") && Contains(msg, "WebSocket connection closed by peer")
                && Contains(msg, "Java"))
            || (Contains(msg, "NSPOSIXErrorDomain") && Contains(msg, "Connection refused") && Contains(msg, "Code=61"))
            || Contains(msg, "No connection could be made because the target machine actively refused it")
  {
    assert TESTED[0] == "111";
    AndroidHasCode(msg);
    NetHasCode(msg);
  }

  lemma AndroidHasCode(msg: string)
    ensures AndroidRetry(msg) ==> Contains(msg, "111")
  {
    if AndroidRetry(msg) {
      ContainsPart(msg, "POSIXErrorDomain,111", "111", 17);
    }
  }

  lemma NetHasCode(msg: string)
    ensures NetRetry(msg) ==> Contains(msg, "111")
  {
    if NetRetry(msg) {
      ContainsPart(msg, "POSIXDomain / 111", "111", 14);
    }
  }

  /** The messages that are listed but not recognised: those with one of the two lost codes that
      meet none of the other tests. */
  lemma LostCodes(msg: string)
    ensures IsRetry(msg, LISTED) != IsConnectionRetry(msg) <==>
            && (Contains(msg, "61") || Contains(msg, "5003")) && !Contains(msg, "111")
            && !JavaRetry(msg) && !IosRetry(msg) && !Refused(msg)
  {
    RetryMeans(msg);
    assert LISTED[0] == TESTED[0] == "111" && LISTED[1] == "61" && LISTED[2] == "5003";
  }

  lemma TooLong(msg: string, text: string)
    requires |msg| < |text|
    ensures !Contains(msg, text)
  {
  }

  lemma NotContained(msg: string, text: string, i: nat)
    requires i < |text| && text[i] !in msg
    ensures !Contains(msg, text)
  {
    forall j | 0 <= j <= |msg|
      ensures !(text <= msg[j..])
    {
      if |text| <= |msg| - j {
        assert msg[j + i] in msg && msg[j..][i] == msg[j + i];
      }
    }
  }

  /** A short message meets none of the long tests. */
  lemma ShortMessage(msg: string)
    requires |msg| < 18
    ensures !JavaRetry(msg) && !IosRetry(msg) && !Refused(msg)
  {
    TooLong(msg, "CouchbaseLite,11001");
    TooLong(msg, "NSPOSIXErrorDomain");
    TooLong(msg, "No connection could be made because the target machine actively refused it");
  }

  /** A message with a code that is lost. */
  lemma LostCode()
    ensures IsRetry("5003", LISTED) && !IsConnectionRetry("5003")
  {
    var msg := "5003";
    assert Contains(msg, msg) by {
      assert msg <= msg[0..];
    }
    NotContained(msg, "111", 0);
    ShortMessage(msg);
    LostCodes(msg);
    RetryMeans(msg);
  }

  // ----- the readings, without the counters -----

  function LevelAt(env: Readings, k: nat): Level {
    if k == 0 then env.first else env.rounds(k - 1).level
  }

  predicate ActiveAt(env: Readings, k: nat) {
    LevelAt(env, k) in {Offline, Connecting, Busy}
  }

  /** Idle, but with work left according to its progress. */
  predicate UnfinishedAt(env: Readings, k: nat) {
    var r := env.rounds(k);
    LevelAt(env, k) == Idle && r.idleCompleted < r.idleTotal && r.idleTotalAgain != 0
  }

  predicate CompleteIdleAt(env: Readings, k: nat) {
    LevelAt(env, k) == Idle && !UnfinishedAt(env, k)
  }

  /** How many of the first k observations found the replicator not done. */
  function NotDone(env: Readings, k: nat): nat {
    if k == 0 then 0 else NotDone(env, k - 1) + if ActiveAt(env, k - 1) || UnfinishedAt(env, k - 1) then 1 else 0
  }

  /** The observation after the last active one. */
  function SinceActive(env: Readings, k: nat): (s: nat)
    ensures s <= k && (s == 0 || ActiveAt(env, s - 1)) && forall j :: s <= j < k ==> !ActiveAt(env, j)
  {
    if k == 0 then 0 else if ActiveAt(env, k - 1) then k else SinceActive(env, k - 1)
  }

  /** The complete-idle observations among those from s up to k. */
  function CompleteIdles(env: Readings, s: nat, k: nat): nat {
    if k <= s then 0 else CompleteIdles(env, s, k - 1) + if CompleteIdleAt(env, k - 1) then 1 else 0
  }

  function IdleStreak(env: Readings, k: nat): nat {
    CompleteIdles(env, SinceActive(env, k), k)
  }

  /** The error that a round reads may be passed over. */
  predicate Tolerated(cfg: Config, r: Round) {
    || !r.error.Message?
    || (cfg.continuous && IsConnectionRetry(r.error.text) && r.elapsed < cfg.maxTimeout)
  }

  /** How the error, the level and the progress that a round reads end the wait, if they do. */
  function ReadingEnds(cfg: Config, r: Round): Option<Outcome<Ending>> {
    if cfg.errCheck && !Tolerated(cfg, r) then Some(Raise(ReplicationError))
    else if r.level == Stopped then
      Some(if r.completed < r.total then Raise(IncompleteReplication) else Return(StoppedComplete))
    else if r.total < r.completed && r.total <= 0 then Some(Raise(BadProgress))
    else None
  }

  /** A long enough idle streak ends the wait before these are read. */
  ghost function RoundEnds(cfg: Config, env: Readings, k: nat): Option<Outcome<Ending>> {
    if IdleStreak(env, k + 1) > MAX_IDLE_COUNT then Some(Return(Settled)) else ReadingEnds(cfg, env.rounds(k))
  }

  /** A round that takes place and does not end the wait. */
  ghost predicate GoesOn(cfg: Config, env: Readings, k: nat) {
    NotDone(env, k) < cfg.maxTimes && RoundEnds(cfg, env, k).None?
  }

  ghost predicate GoesOnBefore(cfg: Config, env: Readings, n: int) {
    forall k: nat :: k < n ==> GoesOn(cfg, env, k)
  }

  /** After `used` rounds the wait ends with r: the observations are used up, or the last round
      ends it. */
  ghost predicate EndsWithRound(cfg: Config, env: Readings, used: nat, r: Outcome<Ending>) {
    if r == Return(Exhausted) then cfg.maxTimes <= NotDone(env, used)
    else used > 0 && NotDone(env, used - 1) < cfg.maxTimes && RoundEnds(cfg, env, used - 1) == Some(r)
  }

  /** The checks at the end of one round. */
  method CheckRound(cfg: Config, round: Round) returns (r: Option<Outcome<Ending>>)
    ensures r == ReadingEnds(cfg, round)
  {
    if cfg.errCheck && round.error.Message? {
      if !cfg.continuous {
        return Some(Raise(ReplicationError));
      }
      if !(IsConnectionRetry(round.error.text) && round.elapsed < cfg.maxTimeout) {
        return Some(Raise(ReplicationError));
      }
    }
    if round.level == Stopped {
      if round.completed < round.total {
        return Some(Raise(IncompleteReplication));
      } else {
        return Some(Return(StoppedComplete));
      }
    }
    if round.total < round.completed && round.total <= 0 {
      return Some(Raise(BadProgress));
    }
    r := None;
  }

  /** What one observation does to the counters. */
  method Observe(env: Readings, k: nat, activityLevel: Level, count: int, idleCount: int)
    returns (count': int, idleCount': int)
    requires activityLevel == LevelAt(env, k) && count == NotDone(env, k) && idleCount == IdleStreak(env, k)
    ensures count' == NotDone(env, k + 1) && idleCount' == IdleStreak(env, k + 1)
    ensures count' == count + if ActiveAt(env, k) || UnfinishedAt(env, k) then 1 else 0
    ensures idleCount' == if ActiveAt(env, k) then 0 else idleCount + if CompleteIdleAt(env, k) then 1 else 0
  {
    var round := env.rounds(k);
    count', idleCount' := count, idleCount;
    if activityLevel == Offline || activityLevel == Connecting || activityLevel == Busy {
      count' := count + 1;
      idleCount' := 0;
    } else if activityLevel == Idle {
      if round.idleCompleted < round.idleTotal && round.idleTotalAgain != 0 {
        count' := count + 1;
      } else {
        idleCount' := idleCount + 1;
      }
    }
    CountersStep(env, k);
  }

  lemma CountersStep(env: Readings, k: nat)
    ensures NotDone(env, k + 1) == NotDone(env, k) + if ActiveAt(env, k) || UnfinishedAt(env, k) then 1 else 0
    ensures IdleStreak(env, k + 1) ==
            if ActiveAt(env, k) then 0 else IdleStreak(env, k) + if CompleteIdleAt(env, k) then 1 else 0
  {
  }

  // ----- how long the wait can take -----

  function Actives(env: Readings, k: nat): nat {
    if k == 0 then 0 else Actives(env, k - 1) + if ActiveAt(env, k - 1) then 1 else 0
  }

  function StoppedAtFirst(env: Readings): nat { if env.first == Stopped then 1 else 0 }

  /** No round has stopped the replicator or made the idle streak too long. */
  ghost predicate Calm(env: Readings, n: nat) {
    forall k: nat :: k < n ==> CalmAt(env, k)
  }

  predicate CalmAt(env: Readings, k: nat) {
    IdleStreak(env, k + 1) <= MAX_IDLE_COUNT && env.rounds(k).level != Stopped
  }

  /** A round finds the replicator active, unfinished or idle, unless it is stopped at first. */
  lemma RoundMoves(env: Readings, k: nat)
    requires Calm(env, k)
    ensures ActiveAt(env, k) || UnfinishedAt(env, k) || CompleteIdleAt(env, k) || (k == 0 && StoppedAtFirst(env) == 1)
  {
    assert k > 0 ==> CalmAt(env, k - 1);
  }

  /** Every round but one on a replicator stopped at first moves a counter, and only an active
      observation takes back idle ones, at most 20 of them. */
  lemma {:induction false} CalmRoundsAreCounted(env: Readings, k: nat)
    requires Calm(env, k)
    ensures k <= NotDone(env, k) + 20 * Actives(env, k) + IdleStreak(env, k) + StoppedAtFirst(env)
    ensures Actives(env, k) <= NotDone(env, k) && IdleStreak(env, k) <= MAX_IDLE_COUNT
  {
    if k > 0 {
      CalmRoundsAreCounted(env, k - 1);
      assert CalmAt(env, k - 1);
      CountersStep(env, k - 1);
      RoundMoves(env, k - 1);
    }
  }

  lemma GoesOnIsCalm(cfg: Config, env: Readings, n: nat)
    requires GoesOnBefore(cfg, env, n)
    ensures Calm(env, n)
  {
    forall k: nat | k < n
      ensures CalmAt(env, k)
    {
      assert GoesOn(cfg, env, k);
    }
  }

  lemma RoundsAreBounded(cfg: Config, env: Readings, k: nat)
    requires GoesOnBefore(cfg, env, k) && NotDone(env, k) < cfg.maxTimes
    ensures k + 1 <= 21 * cfg.maxTimes + StoppedAtFirst(env)
  {
    GoesOnIsCalm(cfg, env, k);
    CalmRoundsAreCounted(env, k);
  }

  /** The wait ends within 21 * maxTimes + 1 rounds, at the first round that does not let it go
      on, and in the way that this round determines. */
  method WaitUntilReplicatorIdle(cfg: Config, env: Readings) returns (r: Outcome<Ending>, used: nat)
    ensures used <= if cfg.maxTimes <= 0 then 0 else 21 * cfg.maxTimes + StoppedAtFirst(env)
    ensures EndsWithRound(cfg, env, used, r)
    ensures GoesOnBefore(cfg, env, if r == Return(Exhausted) then used else used - 1)
  {
    var count, idleCount := 0, 0;
    var activityLevel := env.first;
    used := 0;
    while count < cfg.maxTimes
      invariant count == NotDone(env, used) && idleCount == IdleStreak(env, used)
      invariant activityLevel == LevelAt(env, used) && GoesOnBefore(cfg, env, used)
      invariant used == 0 || (cfg.maxTimes > 0 && used <= 21 * cfg.maxTimes + StoppedAtFirst(env))
      decreases 21 * cfg.maxTimes + 1 - used
    {
      var round := env.rounds(used);
      ghost var k := used;
      RoundsAreBounded(cfg, env, k);
      count, idleCount := Observe(env, used, activityLevel, count, idleCount);
      used := used + 1;
      if idleCount > MAX_IDLE_COUNT {
        return Return(Settled), used;
      }
      var ended := CheckRound(cfg, round);
      if ended.Some? {
        return ended.value, used;
      }
      activityLevel := round.level;
      assert GoesOn(cfg, env, k);
    }
    r := Return(Exhausted);
  }

  /** For a replicator that is not continuous, a wait that checks errors and ends normally has
      read only benign ones (the round that settles ends before its error is read). */
  lemma NormalEndReadNoErrors(cfg: Config, env: Readings, used: nat, r: Outcome<Ending>)
    requires cfg.errCheck && !cfg.continuous && r.Return?
    requires EndsWithRound(cfg, env, used, r)
    requires GoesOnBefore(cfg, env, if r == Return(Exhausted) then used else used - 1)
    ensures forall k :: 0 <= k < used - (if r == Return(Settled) then 1 else 0) ==> !env.rounds(k).error.Message?
  {
    forall k | 0 <= k < used - (if r == Return(Settled) then 1 else 0)
      ensures !env.rounds(k).error.Message?
    {
      assert k < used - 1 || r == Return(Exhausted) ==> GoesOn(cfg, env, k);
    }
  }

  // ----- what each ending says about the readings -----

  /** The level that an observation goes by: the one before the loop, then that of the last round. */
  predicate Reads(env: Readings, k: nat, level: Level) {
    if k == 0 then env.first == level else env.rounds(k - 1).level == level
  }

  predicate ReadsActive(env: Readings, k: nat) {
    Reads(env, k, Offline) || Reads(env, k, Connecting) || Reads(env, k, Busy)
  }

  predicate ReadsUnfinished(env: Readings, k: nat) {
    && Reads(env, k, Idle)
    && env.rounds(k).idleCompleted < env.rounds(k).idleTotal && env.rounds(k).idleTotalAgain != 0
  }

  predicate ReadsIdle(env: Readings, k: nat) {
    && Reads(env, k, Idle)
    && (env.rounds(k).idleCompleted >= env.rounds(k).idleTotal || env.rounds(k).idleTotalAgain == 0)
  }

  /** How many numbers from lo up to hi pass a test. */
  function Count(test: nat -> bool, lo: nat, hi: nat): nat {
    if hi <= lo then 0 else Count(test, lo, hi - 1) + if test(hi - 1) then 1 else 0
  }

  function NotDoneTest(env: Readings): nat -> bool {
    (k: nat) => ReadsActive(env, k) || ReadsUnfinished(env, k)
  }

  function IdleTest(env: Readings): nat -> bool {
    (k: nat) => ReadsIdle(env, k)
  }

  lemma {:induction false} NotDoneIsCount(env: Readings, k: nat)
    ensures NotDone(env, k) == Count(NotDoneTest(env), 0, k)
  {
    if k > 0 {
      NotDoneIsCount(env, k - 1);
    }
  }

  lemma {:induction false} IdlesAreCount(env: Readings, s: nat, k: nat)
    ensures CompleteIdles(env, s, k) == Count(IdleTest(env), s, k)
  {
    if k > s {
      IdlesAreCount(env, s, k - 1);
    }
  }

  /** Since the last active observation there are so many complete-idle ones. */
  ghost predicate IdleSince(env: Readings, s: nat, used: nat, n: nat) {
    && s <= used && (s == 0 || ReadsActive(env, s - 1)) && (forall j :: s <= j < used ==> !ReadsActive(env, j))
    && Count(IdleTest(env), s, used) == n
  }

  /** The counter of the loop is this number. */
  lemma StreakMeans(env: Readings, s: nat, used: nat, n: nat)
    requires IdleSince(env, s, used, n)
    ensures IdleStreak(env, used) == n
  {
    var t := SinceActive(env, used);
    assert forall j: nat :: ActiveAt(env, j) <==> ReadsActive(env, j);
    assert s > 0 ==> ActiveAt(env, s - 1);
    assert t > 0 ==> ReadsActive(env, t - 1);
    assert s == t;
    IdlesAreCount(env, s, used);
  }

  lemma StreakExists(env: Readings, used: nat)
    ensures IdleSince(env, SinceActive(env, used), used, IdleStreak(env, used))
  {
    IdlesAreCount(env, SinceActive(env, used), used);
  }

  /** The error of a round ends a checked wait. */
  predicate Fails(cfg: Config, r: Round) {
    && cfg.errCheck && r.error.Message?
    && (!cfg.continuous || !IsConnectionRetry(r.error.text) || r.elapsed >= cfg.maxTimeout)
  }

  /** Each way in which the last round can end the wait, and no other: 21 complete-idle observations
      since the last active one; otherwise an error that is not passed over; otherwise a stop, with
      work left or not; otherwise progress beyond a total that is not positive. */
  lemma EndingMeans(cfg: Config, env: Readings, used: nat, r: Outcome<Ending>)
    requires EndsWithRound(cfg, env, used, r) && r != Return(Exhausted)
    requires GoesOnBefore(cfg, env, used - 1)
    ensures var last := env.rounds(used - 1);
            var settled := exists s: nat :: IdleSince(env, s, used, 21);
            && used > 0
            && (r == Return(Settled) <==> settled)
            && (r == Raise(ReplicationError) <==> !settled && Fails(cfg, last))
            && (r == Return(StoppedComplete) <==>
                !settled && !Fails(cfg, last) && last.level == Stopped && last.completed >= last.total)
            && (r == Raise(IncompleteReplication) <==>
                !settled && !Fails(cfg, last) && last.level == Stopped && last.completed < last.total)
            && (r == Raise(BadProgress) <==>
                && !settled && !Fails(cfg, last) && last.level != Stopped
                && last.total < last.completed && last.total <= 0)
  {
    var last := env.rounds(used - 1);
    var settled := exists s: nat :: IdleSince(env, s, used, 21);
    assert settled <==> IdleStreak(env, used) == 21 by {
      StreakExists(env, used);
      if s: nat :| IdleSince(env, s, used, 21) {
        StreakMeans(env, s, used, 21);
      }
    }
    GoesOnIsCalm(cfg, env, used - 1);
    CalmRoundsAreCounted(env, used - 1);
    CountersStep(env, used - 1);
    assert IdleStreak(env, used) <= 21;
  }

  /** The wait is used up after exactly the allowed number of observations that found the replicator
      not done. */
  lemma ExhaustionMeans(cfg: Config, env: Readings, used: nat)
    requires EndsWithRound(cfg, env, used, Return(Exhausted)) && GoesOnBefore(cfg, env, used)
    ensures if cfg.maxTimes <= 0 then used == 0 else Count(NotDoneTest(env), 0, used) == cfg.maxTimes
  {
    NotDoneIsCount(env, used);
    if used > 0 {
      assert GoesOn(cfg, env, used - 1);
      CountersStep(env, used - 1);
    }
  }
}
