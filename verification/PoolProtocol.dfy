/** The node reservation protocol of `utilities/mobile_server_pool.py` under concurrency: any
    number of jobs book and release shared node documents, and their get and replace calls
    interleave in every possible way. Booking replaces a document only at the version (cas)
    that was read; releasing writes it unconditionally. */
module PoolProtocol {
  import opened Python

  datatype NodeState = Available | Booked | Down

  datatype Doc = Doc(state: NodeState, username: string, prevUser: string)

  /** A document with the version that every write renews. */
  datatype Versioned = Versioned(doc: Doc, cas: nat)

  /** A call that has started and not yet returned. */
  datatype Op =
    | Reserving(job: string, node: string, read: Versioned, attempt: nat)
    | Refetching(job: string, node: string, attempt: nat)
    | Retrying(job: string, node: string, attempt: nat)
    | Releasing(job: string, node: string, doc: Doc)

  /** `held` records what the callers believe: the bookings that were reported as successful
      and not yet released. `wins` lists the successful replaces that carried a cas. */
  datatype State = State(
    docs: map<string, Versioned>,
    nextCas: nat,
    ops: map<nat, Op>,
    held: set<(string, string)>,
    wins: seq<(string, nat)>)

  datatype Step =
    | StartReserve(op: nat, job: string, node: string)
    | Replace(op: nat)
    | ReplaceFails(op: nat)
    | Refetch(op: nat)
    | Reread(op: nat)
    | StartRelease(op: nat, job: string, node: string)
    | FinishRelease(op: nat)
    | Abort(op: nat)

  /** What the code leaves to its callers: a booking goes ahead only from a document that was
      not read as booked, a release names a job, and a node has one release in flight. */
  datatype Guards = Guards(notBooked: bool, namedRelease: bool, oneRelease: bool)

  const ALL_GUARDS := Guards(true, true, true)
  const MAX_RETRIES := 5

  function BookedBy(doc: Doc, job: string): Doc {
    Doc(Booked, job, doc.username)
  }

  function Released(doc: Doc): Doc {
    Doc(Available, "", doc.username)
  }

  predicate ReleaseInFlight(s: State, node: string) {
    exists k :: k in s.ops && s.ops[k].Releasing? && s.ops[k].node == node
  }

  function Write(s: State, node: string, doc: Doc): State {
    s.(docs := s.docs[node := Versioned(doc, s.nextCas)], nextCas := s.nextCas + 1)
  }

  function SetOp(s: State, k: nat, op: Op): State {
    s.(ops := s.ops[k := op])
  }

  function EndOp(s: State, k: nat): State {
    s.(ops := s.ops - {k})
  }

  /** The get at the start of `reserve_node`. */
  function Read(g: Guards, s: State, k: nat, job: string, node: string, attempt: nat): Option<State> {
    if node in s.docs && (g.notBooked ==> s.docs[node].doc.state != Booked)
    then Some(SetOp(s, k, Reserving(job, node, s.docs[node], attempt)))
    else None
  }

  /** One step of one call, or None where the step cannot be taken. */
  function Next(g: Guards, s: State, step: Step): Option<State> {
    match step
    case StartReserve(k, job, node) =>
      if k in s.ops then None else Read(g, s, k, job, node, 0)
    case Replace(k) =>
      if k in s.ops && s.ops[k].Reserving? then NextReplace(s, k, s.ops[k]) else None
    case ReplaceFails(k) =>
      if k in s.ops && s.ops[k].Reserving?
      then Some(SetOp(s, k, Refetching(s.ops[k].job, s.ops[k].node, s.ops[k].attempt)))
      else None
    case Refetch(k) =>
      if k in s.ops && s.ops[k].Refetching? && s.ops[k].node in s.docs then
        var op := s.ops[k];
        if s.docs[op.node].doc.state != Booked && op.attempt < MAX_RETRIES
        then Some(SetOp(s, k, Retrying(op.job, op.node, op.attempt + 1)))
        else Some(EndOp(s, k))
      else None
    case Reread(k) =>
      if k in s.ops && s.ops[k].Retrying?
      then Read(g, s, k, s.ops[k].job, s.ops[k].node, s.ops[k].attempt)
      else None
    case StartRelease(k, job, node) =>
      if k in s.ops || node !in s.docs || (g.namedRelease && job == "")
         || (g.oneRelease && ReleaseInFlight(s, node)) then None
      else if s.docs[node].doc.username == job
      then Some(SetOp(s, k, Releasing(job, node, s.docs[node].doc)))
      else Some(s)
    case FinishRelease(k) =>
      if k in s.ops && s.ops[k].Releasing? then
        var op := s.ops[k];
        Some(EndOp(Write(s, op.node, Released(op.doc)), k).(held := s.held - {(op.job, op.node)}))
      else None
    case Abort(k) =>
      if k in s.ops then Some(EndOp(s, k)) else None
  }

  /** The replace that carries a cas: it succeeds only on the version that was read. */
  function NextReplace(s: State, k: nat, op: Op): Option<State>
    requires op.Reserving?
  {
    if op.node in s.docs && s.docs[op.node].cas == op.read.cas
    then Some(EndOp(Write(s, op.node, BookedBy(op.read.doc, op.job)), k)
              .(held := s.held + {(op.job, op.node)}, wins := s.wins + [(op.node, op.read.cas)]))
    else None
  }

  /** The state after a whole run, or None if some step cannot be taken. */
  function Run(g: Guards, s: State, steps: seq<Step>): Option<State> {
    if steps == [] then Some(s)
    else
      var before :- Run(g, s, steps[..|steps| - 1]);
      Next(g, before, steps[|steps| - 1])
  }

  /** No call is running, booked documents name their holders, and others name nobody. */
  ghost predicate Init(s: State) {
    && s.ops == map[] && s.wins == []
    && (forall n :: n in s.docs ==> s.docs[n].cas < s.nextCas)
    && (forall n :: n in s.docs && s.docs[n].doc.state != Booked ==> s.docs[n].doc.username == "")
    && (forall j, n :: (j, n) in s.held <==> IsBookedBy(s, j, n))
  }

  predicate IsBookedBy(s: State, job: string, node: string) {
    node in s.docs && s.docs[node].doc.state == Booked && s.docs[node].doc.username == job
  }

  // ----- a cas is used once -----

  ghost predicate CasInv(s: State) {
    && (forall n :: n in s.docs ==> s.docs[n].cas < s.nextCas)
    && (forall i :: 0 <= i < |s.wins| ==> s.wins[i].0 in s.docs && s.wins[i].1 < s.docs[s.wins[i].0].cas)
    && (forall i, j :: 0 <= i < j < |s.wins| ==> s.wins[i] != s.wins[j])
  }

  lemma CasStep(g: Guards, s: State, step: Step)
    requires CasInv(s) && Next(g, s, step).Some?
    ensures CasInv(Next(g, s, step).value)
  {
    match step
    case Replace(k) => CasReplace(s, k, s.ops[k]);
    case FinishRelease(k) => CasWrite(s, s.ops[k].node, Released(s.ops[k].doc));
    case _ =>
  }

  lemma CasWrite(s: State, node: string, doc: Doc)
    requires CasInv(s)
    ensures CasInv(Write(s, node, doc))
  {
  }

  lemma CasReplace(s: State, k: nat, op: Op)
    requires CasInv(s) && op.Reserving? && NextReplace(s, k, op).Some?
    ensures CasInv(NextReplace(s, k, op).value)
  {
  }

  /** Whatever the callers do, a given version of a document is replaced by cas at most once. */
  lemma {:induction false} CasUsedOnce(g: Guards, s: State, steps: seq<Step>)
    requires Init(s) && Run(g, s, steps).Some?
    ensures CasInv(Run(g, s, steps).value)
    ensures var wins := Run(g, s, steps).value.wins; forall i, j :: 0 <= i < j < |wins| ==> wins[i] != wins[j]
  {
    if steps != [] {
      var n := |steps| - 1;
      CasUsedOnce(g, s, steps[..n]);
      CasStep(g, Run(g, s, steps[..n]).value, steps[n]);
    }
  }

  // ----- no node is held twice -----

  ghost predicate OpInv(s: State, op: Op) {
    match op
    case Reserving(_, n, read, attempt) =>
      n in s.docs && read.cas < s.nextCas && read.doc.state != Booked && attempt <= MAX_RETRIES
      && (read.cas == s.docs[n].cas ==> read == s.docs[n])
    case Refetching(_, n, attempt) => attempt <= MAX_RETRIES
    case Retrying(_, n, attempt) => attempt <= MAX_RETRIES
    case Releasing(j, n, doc) => (j, n) in s.held && doc.username == j
  }

  predicate ReleasesSame(op: Op, other: Op) {
    op.Releasing? && other.Releasing? && op.node == other.node
  }

  ghost predicate Inv(s: State) {
    && (forall n :: n in s.docs ==> s.docs[n].cas < s.nextCas)
    && (forall n :: n in s.docs && s.docs[n].doc.state != Booked ==> s.docs[n].doc.username == "")
    && (forall j, n :: (j, n) in s.held <==> IsBookedBy(s, j, n))
    && (forall k :: k in s.ops ==> OpInv(s, s.ops[k]))
    && (forall k, l :: k in s.ops && l in s.ops && ReleasesSame(s.ops[k], s.ops[l]) ==> k == l)
  }

  lemma ReplaceKeepsInv(s: State, k: nat)
    requires Inv(s) && Next(ALL_GUARDS, s, Replace(k)).Some?
    ensures Inv(Next(ALL_GUARDS, s, Replace(k)).value)
  {
  }

  lemma FinishReleaseKeepsInv(s: State, k: nat)
    requires Inv(s) && Next(ALL_GUARDS, s, FinishRelease(k)).Some?
    ensures Inv(Next(ALL_GUARDS, s, FinishRelease(k)).value)
  {
  }

  lemma StartReleaseKeepsInv(s: State, k: nat, job: string, node: string)
    requires Inv(s) && Next(ALL_GUARDS, s, StartRelease(k, job, node)).Some?
    ensures Inv(Next(ALL_GUARDS, s, StartRelease(k, job, node)).value)
  {
  }

  lemma OpChangeKeepsInv(s: State, k: nat, op: Op)
    requires Inv(s) && OpInv(s, op) && !op.Releasing?
    ensures Inv(SetOp(s, k, op)) && Inv(EndOp(s, k))
  {
  }

  lemma ReadKeepsInv(s: State, k: nat, job: string, node: string, attempt: nat)
    requires Inv(s) && attempt <= MAX_RETRIES && Read(ALL_GUARDS, s, k, job, node, attempt).Some?
    ensures Inv(Read(ALL_GUARDS, s, k, job, node, attempt).value)
  {
    OpChangeKeepsInv(s, k, Reserving(job, node, s.docs[node], attempt));
  }

  lemma RefetchKeepsInv(s: State, k: nat)
    requires Inv(s) && Next(ALL_GUARDS, s, Refetch(k)).Some?
    ensures Inv(Next(ALL_GUARDS, s, Refetch(k)).value)
  {
    var op := s.ops[k];
    OpChangeKeepsInv(s, k, Retrying(op.job, op.node, if op.attempt < MAX_RETRIES then op.attempt + 1 else 0));
  }

  lemma ReplaceFailsKeepsInv(s: State, k: nat)
    requires Inv(s) && k in s.ops && s.ops[k].Reserving?
    ensures Inv(SetOp(s, k, Refetching(s.ops[k].job, s.ops[k].node, s.ops[k].attempt)))
  {
    OpChangeKeepsInv(s, k, Refetching(s.ops[k].job, s.ops[k].node, s.ops[k].attempt));
  }

  lemma AttemptsAreBounded(s: State, k: nat)
    requires Inv(s) && k in s.ops && s.ops[k].Retrying?
    ensures s.ops[k].attempt <= 5
  {
  }

  /** What a step writes, if it writes: a booking names its job on a document that names nobody, and
      a release keeps the name of the job that held the node. */
  lemma WritesMean(s: State, step: Step, node: string)
    requires Inv(s) && Next(ALL_GUARDS, s, step).Some? && node in s.docs
    ensures var s' := Next(ALL_GUARDS, s, step).value;
            && node in s'.docs
            && (s'.docs[node] == s.docs[node]
                || (step.Replace? && node == s.ops[step.op].node
                    && s'.docs[node].doc == Doc(Booked, s.ops[step.op].job, ""))
                || (step.FinishRelease? && node == s.ops[step.op].node
                    && s'.docs[node].doc == Doc(Available, "", s.ops[step.op].job)))
  {
    if step.Replace? || step.FinishRelease? {
      assert OpInv(s, s.ops[step.op]);
    }
  }

  /** After an error the call goes on only if it finds the node not booked and has retried less than
      five times; an attempt is counted each time. */
  lemma RefetchMeans(g: Guards, s: State, k: nat)
    requires Next(g, s, Refetch(k)).Some?
    ensures k in s.ops && s.ops[k].Refetching? && s.ops[k].node in s.docs
    ensures var op, s' := s.ops[k], Next(g, s, Refetch(k)).value;
            && s'.docs == s.docs && s'.held == s.held
            && (k in s'.ops <==> s.docs[op.node].doc.state != Booked && op.attempt < 5)
            && (k in s'.ops ==> s'.ops[k] == Retrying(op.job, op.node, op.attempt + 1))
  {
  }

  /** Every step of every call keeps the invariant. */
  lemma InvStep(s: State, step: Step)
    requires Inv(s) && Next(ALL_GUARDS, s, step).Some?
    ensures Inv(Next(ALL_GUARDS, s, step).value)
  {
    match step
    case Replace(k) => ReplaceKeepsInv(s, k);
    case FinishRelease(k) => FinishReleaseKeepsInv(s, k);
    case StartRelease(k, job, node) => StartReleaseKeepsInv(s, k, job, node);
    case StartReserve(k, job, node) => ReadKeepsInv(s, k, job, node, 0);
    case ReplaceFails(k) => ReplaceFailsKeepsInv(s, k);
    case Refetch(k) => RefetchKeepsInv(s, k);
    case Reread(k) =>
      AttemptsAreBounded(s, k);
      ReadKeepsInv(s, k, s.ops[k].job, s.ops[k].node, s.ops[k].attempt);
    case Abort(k) => OpChangeKeepsInv(s, k, Retrying("", "", 0));
  }

  /** With the guards, in every state of every run the holders of a node are exactly what its
      document says, so no node is held by two jobs. */
  lemma {:induction false} NoDoubleBooking(s: State, steps: seq<Step>)
    requires Init(s) && Run(ALL_GUARDS, s, steps).Some?
    ensures Inv(Run(ALL_GUARDS, s, steps).value)
    ensures var t := Run(ALL_GUARDS, s, steps).value;
            && (forall j, n :: (j, n) in t.held <==> IsBookedBy(t, j, n))
            && (forall j, j', n :: (j, n) in t.held && (j', n) in t.held ==> j == j')
  {
    if steps != [] {
      var n := |steps| - 1;
      NoDoubleBooking(s, steps[..n]);
      InvStep(Run(ALL_GUARDS, s, steps[..n]).value, steps[n]);
    }
  }

  // ----- each guard is needed -----

  /** One node, `n`, whose document is `doc`. */
  function OneNode(doc: Doc, held: set<(string, string)>): State {
    State(map["n" := Versioned(doc, 0)], 1, map[], held, [])
  }

  const FREE := OneNode(Doc(Available, "", ""), {})
  const HELD_BY_A := OneNode(Doc(Booked, "a", ""), {("a", "n")})

  ghost predicate HeldTwice(s: State) {
    exists j, j', n :: j != j' && (j, n) in s.held && (j', n) in s.held
  }

  ghost predicate Reaches(g: Guards, s: State, t: State) {
    exists steps :: Run(g, s, steps) == Some(t)
  }

  lemma ReachesSelf(g: Guards, s: State)
    ensures Reaches(g, s, s)
  {
    assert Run(g, s, []) == Some(s);
  }

  lemma ReachesNext(g: Guards, s: State, t: State, step: Step) returns (u: State)
    requires Reaches(g, s, t) && Next(g, t, step).Some?
    ensures Some(u) == Next(g, t, step) && Reaches(g, s, u)
  {
    var steps :| Run(g, s, steps) == Some(t);
    assert (steps + [step])[..|steps|] == steps;
    u := Next(g, t, step).value;
    assert Run(g, s, steps + [step]) == Some(u);
  }

  /** An undisturbed booking of node `n`. */
  lemma Book(g: Guards, s: State, t: State, k: nat, job: string) returns (u: State)
    requires Reaches(g, s, t) && k !in t.ops && "n" in t.docs
    requires g.notBooked ==> t.docs["n"].doc.state != Booked
    ensures Reaches(g, s, u) && u.held == t.held + {(job, "n")} && u.ops == t.ops
    ensures u.docs.Keys == t.docs.Keys && u.docs["n"].doc == BookedBy(t.docs["n"].doc, job)
  {
    var mid := ReachesNext(g, s, t, StartReserve(k, job, "n"));
    assert mid.ops - {k} == t.ops;
    u := ReachesNext(g, s, mid, Replace(k));
  }

  lemma FreeWhileHeld(g: Guards, s: State, t: State, k: nat, job: string, other: string)
    requires Reaches(g, s, t) && k !in t.ops && "n" in t.docs && t.docs["n"].doc.state == Available
    requires (job, "n") in t.held && other != job
    ensures exists u :: Reaches(g, s, u) && HeldTwice(u)
  {
    var u := Book(g, s, t, k, other);
    assert (job, "n") in u.held && (other, "n") in u.held;
  }

  /** The code does not re-check the state that it reads: a stale query row books twice. */
  lemma NotBookedNeeded(g: Guards)
    requires !g.notBooked
    ensures Init(FREE) && exists u :: Reaches(g, FREE, u) && HeldTwice(u)
  {
    ReachesSelf(g, FREE);
    var t := Book(g, FREE, FREE, 0, "a");
    var u := Book(g, FREE, t, 1, "b");
    assert ("a", "n") in u.held && ("b", "n") in u.held;
  }

  /** A release without a job name passes the owner check on a free node, and its late write
      frees the node under the job that has booked it meanwhile. */
  lemma NamedReleaseNeeded(g: Guards)
    requires !g.namedRelease
    ensures Init(FREE) && exists u :: Reaches(g, FREE, u) && HeldTwice(u)
  {
    ReachesSelf(g, FREE);
    var t := ReachesNext(g, FREE, FREE, StartRelease(0, "", "n"));
    t := Book(g, FREE, t, 1, "a");
    t := ReachesNext(g, FREE, t, FinishRelease(0));
    FreeWhileHeld(g, FREE, t, 2, "a", "b");
  }

  lemma TwoReleases(g: Guards) returns (t: State)
    requires !g.oneRelease
    ensures Reaches(g, HELD_BY_A, t)
    ensures var op := Releasing("a", "n", Doc(Booked, "a", ""));
            t == HELD_BY_A.(ops := map[0 := op, 1 := op])
  {
    ReachesSelf(g, HELD_BY_A);
    t := ReachesNext(g, HELD_BY_A, HELD_BY_A, StartRelease(0, "a", "n"));
    t := ReachesNext(g, HELD_BY_A, t, StartRelease(1, "a", "n"));
  }

  /** Two releases of one booking: the second write frees the node under its next holder. */
  lemma OneReleaseNeeded(g: Guards)
    requires !g.oneRelease
    ensures Init(HELD_BY_A) && exists u :: Reaches(g, HELD_BY_A, u) && HeldTwice(u)
  {
    var t := TwoReleases(g);
    t := ReachesNext(g, HELD_BY_A, t, FinishRelease(0));
    t := Book(g, HELD_BY_A, t, 2, "b");
    t := ReachesNext(g, HELD_BY_A, t, FinishRelease(1));
    FreeWhileHeld(g, HELD_BY_A, t, 3, "b", "c");
  }

  /** Double booking is impossible in every run if and only if all three guards are on. */
  lemma GuardsAreExact(g: Guards)
    ensures (forall s, t :: Init(s) && Reaches(g, s, t) ==> !HeldTwice(t)) <==> g == ALL_GUARDS
  {
    if g == ALL_GUARDS {
      forall s, t | Init(s) && Reaches(g, s, t)
        ensures !HeldTwice(t)
      {
        var steps :| Run(g, s, steps) == Some(t);
        NoDoubleBooking(s, steps);
      }
    } else if !g.notBooked {
      NotBookedNeeded(g);
    } else if !g.namedRelease {
      NamedReleaseNeeded(g);
    } else {
      OneReleaseNeeded(g);
    }
  }
}
