/** `update_doc` and `update_docs` of `keywords/MobileRestClient.py`: each document is fetched
    once and then put `number_updates` times, every put naming the revision that the put before
    it returned. Two workers share the documents, so their requests interleave. */
module RevisionUpdates {
  import opened Python

  datatype Rev = Rev(generation: nat, digest: string)

  datatype Doc = Doc(rev: Rev, updates: Option<int>)

  /** A missing counter, or one that is null, counts as 0. */
  function Counter(doc: Doc): int {
    if doc.updates.Some? then doc.updates.value else 0
  }

  /** The server accepts a put only on the current revision, and then begins the next
      generation under a digest of its choice. */
  function Accept(docs: map<string, Doc>, id: string, rev: Rev, updates: int, digest: string): Outcome<Doc> {
    if id !in docs then Raise(KeyError)
    else if docs[id].rev != rev then Raise(ConflictError)
    else Return(Doc(Rev(rev.generation + 1, digest), Some(updates)))
  }

  // ----- one document, undisturbed -----

  class DocServer {
    var docs: map<string, Doc>

    constructor (docs: map<string, Doc>)
      ensures this.docs == docs
    {
      this.docs := docs;
    }

    method Put(id: string, rev: Rev, updates: int, digest: string) returns (r: Outcome<Rev>)
      modifies this
      ensures var a := Accept(old(docs), id, rev, updates, digest);
              if a.Return? then docs == old(docs)[id := a.value] && r == Return(a.value.rev)
              else docs == old(docs) && r == Raise(a.error)
    {
      if id !in docs {
        return Raise(KeyError);
      }
      if docs[id].rev != rev {
        return Raise(ConflictError);
      }
      var newRev := Rev(rev.generation + 1, digest);
      docs := docs[id := Doc(newRev, Some(updates))];
      r := Return(newRev);
    }

    /** Without another writer, the counter and the generation advance by exactly the number
        of updates. Asked for no update at all, the call fails on its unset result. */
    method UpdateDoc(id: string, numberUpdates: nat, digest: nat -> string) returns (r: Outcome<Rev>)
      modifies this
      ensures id !in old(docs) ==> r == Raise(KeyError) && docs == old(docs)
      ensures id in old(docs) && numberUpdates == 0 ==> r == Raise(UnboundLocalError) && docs == old(docs)
      ensures id in old(docs) && numberUpdates > 0 ==>
                var before := old(docs)[id];
                var rev := Rev(before.rev.generation + numberUpdates, digest(numberUpdates - 1));
                var count := if before.updates.Some? then before.updates.value else 0;
                r == Return(rev) && docs == old(docs)[id := Doc(rev, Some(count + numberUpdates))]
    {
      if id !in docs {
        return Raise(KeyError);
      }
      var currentRev := docs[id].rev;
      var currentUpdateNumber := Counter(docs[id]) + 1;
      r := Raise(UnboundLocalError);
      for i := 0 to numberUpdates
        invariant currentUpdateNumber == Counter(old(docs)[id]) + 1 + i
        invariant id in docs && currentRev == docs[id].rev
        invariant i == 0 ==> docs == old(docs) && r == Raise(UnboundLocalError)
        invariant i > 0 ==>
                    && currentRev == Rev(old(docs)[id].rev.generation + i, digest(i - 1)) && r == Return(currentRev)
                    && docs == old(docs)[id := Doc(currentRev, Some(Counter(old(docs)[id]) + i))]
      {
        var resp := Put(id, currentRev, currentUpdateNumber, digest(i));
        currentUpdateNumber := currentUpdateNumber + 1;
        currentRev := resp.value;
        r := resp;
      }
    }
  }

  // ----- all documents, interleaved -----

  datatype Task =
    | Waiting
    | Fetching
    | Updating(rev: Rev, next: int, left: nat)
    | Done(result: Rev)
    | Failed(error: Exception)

  datatype State = State(docs: map<string, Doc>, tasks: seq<Task>)

  /** The call: which documents to update, and how often. */
  datatype Job = Job(ids: seq<string>, numberUpdates: nat)

  datatype Step = Begin(i: nat) | Fetch(i: nat) | PutNext(i: nat, digest: string) | Finish(i: nat)

  const MAX_WORKERS := 2

  predicate IsRunning(t: Task) { t.Fetching? || t.Updating? }

  predicate IsOver(t: Task) { t.Done? || t.Failed? }

  function Running(tasks: seq<Task>): nat {
    if tasks == [] then 0
    else Running(tasks[..|tasks| - 1]) + if IsRunning(tasks[|tasks| - 1]) then 1 else 0
  }

  function SetTask(s: State, i: nat, t: Task): State
    requires i < |s.tasks|
  {
    s.(tasks := s.tasks[i := t])
  }

  function PutOne(s: State, i: nat, id: string, t: Task, digest: string): State
    requires i < |s.tasks| && t.Updating? && t.left > 0
  {
    var a := Accept(s.docs, id, t.rev, t.next, digest);
    if a.Return?
    then State(s.docs[id := a.value], s.tasks[i := Updating(a.value.rev, t.next + 1, t.left - 1)])
    else SetTask(s, i, Failed(a.error))
  }

  /** One step of one worker. The pool starts the calls in order, at most two at a time. */
  function Next(job: Job, s: State, step: Step): Option<State>
    requires |s.tasks| == |job.ids|
  {
    var i := step.i;
    if i >= |s.tasks| then None
    else
      var t := s.tasks[i];
      match step
      case Begin(_) =>
        if t.Waiting? && Running(s.tasks) < MAX_WORKERS && (forall j :: 0 <= j < i ==> !s.tasks[j].Waiting?)
        then Some(SetTask(s, i, Fetching)) else None
      case Fetch(_) =>
        if !t.Fetching? then None
        else if job.ids[i] !in s.docs then Some(SetTask(s, i, Failed(KeyError)))
        else
          var doc := s.docs[job.ids[i]];
          Some(SetTask(s, i, Updating(doc.rev, Counter(doc) + 1, job.numberUpdates)))
      case PutNext(_, digest) =>
        if t.Updating? && t.left > 0 then Some(PutOne(s, i, job.ids[i], t, digest)) else None
      case Finish(_) =>
        if t.Updating? && t.left == 0
        then Some(SetTask(s, i, if job.numberUpdates == 0 then Failed(UnboundLocalError) else Done(t.rev)))
        else None
  }

  function Run(job: Job, s: State, steps: seq<Step>): (r: Option<State>)
    requires |s.tasks| == |job.ids|
    ensures r.Some? ==> |r.value.tasks| == |job.ids|
  {
    if steps == [] then Some(s)
    else
      var before :- Run(job, s, steps[..|steps| - 1]);
      Next(job, before, steps[|steps| - 1])
  }

  function Start(job: Job, docs: map<string, Doc>): State {
    State(docs, seq(|job.ids|, _ => Waiting))
  }

  predicate AllOver(s: State) {
    forall i :: 0 <= i < |s.tasks| ==> IsOver(s.tasks[i])
  }

  // ----- every run ends -----

  function Work(job: Job, t: Task): nat {
    match t
    case Waiting => job.numberUpdates + 3
    case Fetching => job.numberUpdates + 2
    case Updating(_, _, left) => left + 1
    case _ => 0
  }

  function TotalWork(job: Job, tasks: seq<Task>): nat {
    if tasks == [] then 0 else TotalWork(job, tasks[..|tasks| - 1]) + Work(job, tasks[|tasks| - 1])
  }

  lemma {:induction false} WorkUpdate(job: Job, tasks: seq<Task>, i: nat, t: Task)
    requires i < |tasks|
    ensures TotalWork(job, tasks[i := t]) == TotalWork(job, tasks) - Work(job, tasks[i]) + Work(job, t)
    ensures Running(tasks[i := t]) ==
            Running(tasks) - (if IsRunning(tasks[i]) then 1 else 0) + (if IsRunning(t) then 1 else 0)
  {
    var n := |tasks| - 1;
    if i == n {
      assert tasks[i := t][..n] == tasks[..n];
    } else {
      assert tasks[i := t][..n] == tasks[..n][i := t];
      WorkUpdate(job, tasks[..n], i, t);
    }
  }

  lemma StepWork(job: Job, s: State, step: Step)
    requires |s.tasks| == |job.ids| && Next(job, s, step).Some?
    ensures TotalWork(job, Next(job, s, step).value.tasks) < TotalWork(job, s.tasks)
    ensures Running(s.tasks) <= MAX_WORKERS ==> Running(Next(job, s, step).value.tasks) <= MAX_WORKERS
  {
    var s' := Next(job, s, step).value;
    assert s'.tasks == s.tasks[step.i := s'.tasks[step.i]];
    WorkUpdate(job, s.tasks, step.i, s'.tasks[step.i]);
  }

  lemma {:induction false} StartWork(job: Job, n: nat)
    ensures TotalWork(job, seq(n, _ => Waiting)) == n * (job.numberUpdates + 3)
    ensures Running(seq(n, _ => Waiting)) == 0
  {
    if n > 0 {
      assert seq(n, _ => Waiting)[..n - 1] == seq(n - 1, _ => Waiting);
      StartWork(job, n - 1);
    }
  }

  /** Every run is finite, with a known bound, and at most two calls are ever running. */
  lemma {:induction false} RunsAreBounded(job: Job, docs: map<string, Doc>, steps: seq<Step>)
    requires Run(job, Start(job, docs), steps).Some?
    ensures var s := Run(job, Start(job, docs), steps).value;
            && |steps| + TotalWork(job, s.tasks) <= |job.ids| * (job.numberUpdates + 3)
            && Running(s.tasks) <= 2
  {
    if steps == [] {
      StartWork(job, |job.ids|);
    } else {
      var n := |steps| - 1;
      RunsAreBounded(job, docs, steps[..n]);
      StepWork(job, Run(job, Start(job, docs), steps[..n]).value, steps[n]);
    }
  }

  lemma {:induction false} SomeRunning(tasks: seq<Task>) returns (i: nat)
    requires Running(tasks) > 0
    ensures i < |tasks| && IsRunning(tasks[i])
  {
    var n := |tasks| - 1;
    if IsRunning(tasks[n]) {
      i := n;
    } else {
      i := SomeRunning(tasks[..n]);
    }
  }

  /** No run gets stuck: until every call is over, some step can be taken. */
  lemma Progress(job: Job, s: State) returns (step: Step)
    requires |s.tasks| == |job.ids| && !AllOver(s)
    ensures Next(job, s, step).Some?
  {
    if Running(s.tasks) > 0 {
      var i := SomeRunning(s.tasks);
      step := if s.tasks[i].Fetching? then Fetch(i) else if s.tasks[i].left > 0 then PutNext(i, "") else Finish(i);
    } else {
      var i :| 0 <= i < |s.tasks| && !IsOver(s.tasks[i]);
      NoneRunning(s.tasks, i);
      while exists j :: 0 <= j < i && s.tasks[j].Waiting?
        invariant 0 <= i < |s.tasks| && s.tasks[i].Waiting?
        decreases i
      {
        var j :| 0 <= j < i && s.tasks[j].Waiting?;
        i := j;
      }
      step := Begin(i);
    }
  }

  lemma {:induction false} NoneRunning(tasks: seq<Task>, i: nat)
    requires i < |tasks| && Running(tasks) == 0
    ensures !IsRunning(tasks[i])
  {
    if i < |tasks| - 1 {
      NoneRunning(tasks[..|tasks| - 1], i);
    }
  }

  // ----- what every run does to the documents -----

  /** Where a document stands after `k` accepted puts. */
  ghost predicate Advanced(before: Doc, now: Doc, k: nat) {
    && now.rev.generation == before.rev.generation + k
    && (if k == 0 then now == before else now.updates == Some(Counter(before) + k))
  }

  ghost predicate TaskInv(job: Job, before: Doc, now: Doc, t: Task) {
    match t
    case Waiting => now == before
    case Fetching => now == before
    case Updating(rev, next, left) =>
      && left <= job.numberUpdates && rev == now.rev && next == Counter(before) + job.numberUpdates - left + 1
      && Advanced(before, now, job.numberUpdates - left)
    case Done(rev) => job.numberUpdates > 0 && rev == now.rev && Advanced(before, now, job.numberUpdates)
    case Failed(e) => job.numberUpdates == 0 && e == UnboundLocalError && now == before
  }

  /** A call for a document that does not exist fails, and touches nothing. */
  ghost predicate CallInv(job: Job, before: map<string, Doc>, docs: map<string, Doc>, id: string, t: Task)
    requires before.Keys == docs.Keys
  {
    if id in before then TaskInv(job, before[id], docs[id], t)
    else t.Waiting? || t.Fetching? || t == Failed(KeyError)
  }

  ghost predicate Inv(job: Job, before: map<string, Doc>, s: State) {
    && |s.tasks| == |job.ids| && s.docs.Keys == before.Keys
    && (forall i :: 0 <= i < |job.ids| ==> CallInv(job, before, s.docs, job.ids[i], s.tasks[i]))
    && (forall id :: id in before && id !in job.ids ==> s.docs[id] == before[id])
  }

  /** No document is listed twice. */
  ghost predicate ListedOnce(job: Job, docs: map<string, Doc>) {
    forall i, j :: 0 <= i < j < |job.ids| && job.ids[i] in docs ==> job.ids[i] != job.ids[j]
  }

  /** A change to one task and to its own document concerns nobody else. */
  lemma LocalChange(job: Job, before: map<string, Doc>, s: State, i: nat, t: Task, doc: Doc)
    requires ListedOnce(job, before) && Inv(job, before, s) && i < |job.ids| && job.ids[i] in before
    requires TaskInv(job, before[job.ids[i]], doc, t)
    ensures Inv(job, before, State(s.docs[job.ids[i] := doc], s.tasks[i := t]))
  {
  }

  lemma InvStep(job: Job, before: map<string, Doc>, s: State, step: Step)
    requires ListedOnce(job, before) && Inv(job, before, s) && Next(job, s, step).Some?
    ensures Inv(job, before, Next(job, s, step).value)
  {
    var i, s' := step.i, Next(job, s, step).value;
    var id := job.ids[i];
    assert CallInv(job, before, s.docs, id, s.tasks[i]);
    if id in before {
      LocalChange(job, before, s, i, s'.tasks[i], s'.docs[id]);
      assert s' == State(s.docs[id := s'.docs[id]], s.tasks[i := s'.tasks[i]]);
    }
  }

  lemma {:induction false} InvRun(job: Job, before: map<string, Doc>, steps: seq<Step>)
    requires ListedOnce(job, before) && Run(job, Start(job, before), steps).Some?
    ensures Inv(job, before, Run(job, Start(job, before), steps).value)
  {
    if steps != [] {
      var n := |steps| - 1;
      InvRun(job, before, steps[..n]);
      InvStep(job, before, Run(job, Start(job, before), steps[..n]).value, steps[n]);
    }
  }

  /** What the caller finds of one document and its call. */
  ghost predicate Exact(job: Job, before: map<string, Doc>, docs: map<string, Doc>, id: string, t: Task) {
    if id !in before then id !in docs && !t.Done? && (t.Failed? ==> t.error == KeyError)
    else
      && id in docs && !t.Failed?
      && (t.Done? ==>
            && t.result == docs[id].rev
            && (var count := if before[id].updates.Some? then before[id].updates.value else 0;
                docs[id].updates == Some(count + job.numberUpdates))
            && docs[id].rev.generation == before[id].rev.generation + job.numberUpdates)
  }

  lemma CallIsExact(job: Job, before: map<string, Doc>, docs: map<string, Doc>, id: string, t: Task)
    requires job.numberUpdates > 0 && before.Keys == docs.Keys && CallInv(job, before, docs, id, t)
    ensures Exact(job, before, docs, id, t)
  {
  }

  /** In every interleaving no put conflicts, documents outside the call keep still, and a call
      that is over has advanced its document by exactly the number of updates. */
  lemma UpdatesAreExact(job: Job, before: map<string, Doc>, steps: seq<Step>)
    requires ListedOnce(job, before) && job.numberUpdates > 0 && Run(job, Start(job, before), steps).Some?
    ensures var s := Run(job, Start(job, before), steps).value;
            && s.docs.Keys == before.Keys
            && (forall id :: id in before && id !in job.ids ==> s.docs[id] == before[id])
            && (forall i :: 0 <= i < |job.ids| ==> Exact(job, before, s.docs, job.ids[i], s.tasks[i]))
  {
    InvRun(job, before, steps);
    var s := Run(job, Start(job, before), steps).value;
    forall i | 0 <= i < |job.ids| {
      CallIsExact(job, before, s.docs, job.ids[i], s.tasks[i]);
    }
  }

  /** A run that cannot go on has finished every call: every document that exists has advanced
      by exactly the number of updates, and the call for any other has failed. */
  lemma FinishedRunsAreExact(job: Job, before: map<string, Doc>, steps: seq<Step>)
    requires ListedOnce(job, before) && job.numberUpdates > 0 && Run(job, Start(job, before), steps).Some?
    requires forall step :: Next(job, Run(job, Start(job, before), steps).value, step).None?
    ensures var s := Run(job, Start(job, before), steps).value;
            forall i :: 0 <= i < |job.ids| ==>
              && Exact(job, before, s.docs, job.ids[i], s.tasks[i])
              && (if job.ids[i] in before then s.tasks[i].Done? else s.tasks[i] == Failed(KeyError))
  {
    var s := Run(job, Start(job, before), steps).value;
    UpdatesAreExact(job, before, steps);
    if !AllOver(s) {
      var step := Progress(job, s);
      assert false;
    }
    assert forall i :: 0 <= i < |job.ids| ==> IsOver(s.tasks[i]);
  }

  // ----- documents that are listed twice -----

  ghost predicate Reaches(job: Job, s: State, t: State)
    requires |s.tasks| == |job.ids|
  {
    exists steps :: Run(job, s, steps) == Some(t)
  }

  lemma ReachesNext(job: Job, s: State, t: State, step: Step) returns (u: State)
    requires |s.tasks| == |t.tasks| == |job.ids| && Reaches(job, s, t) && Next(job, t, step).Some?
    ensures Some(u) == Next(job, t, step) && Reaches(job, s, u)
  {
    var steps :| Run(job, s, steps) == Some(t);
    assert (steps + [step])[..|steps|] == steps;
    u := Next(job, t, step).value;
    assert Run(job, s, steps + [step]) == Some(u);
  }

  /** All that differs is call `k` and its document. */
  ghost predicate OnlyCall(job: Job, k: nat, s: State, t: State) {
    && |s.tasks| == |t.tasks| == |job.ids| && k < |job.ids| && t.docs.Keys == s.docs.Keys
    && (forall i :: 0 <= i < |job.ids| && i != k ==> t.tasks[i] == s.tasks[i])
    && (forall id :: id in s.docs && id != job.ids[k] ==> t.docs[id] == s.docs[id])
  }

  lemma RunningAfter(job: Job, k: nat, s: State, t: State)
    requires OnlyCall(job, k, s, t)
    ensures Running(t.tasks) ==
            Running(s.tasks) - (if IsRunning(s.tasks[k]) then 1 else 0) + (if IsRunning(t.tasks[k]) then 1 else 0)
  {
    WorkUpdate(job, s.tasks, k, t.tasks[k]);
    assert t.tasks == s.tasks[k := t.tasks[k]];
  }

  /** Undisturbed, a call does all its puts. */
  lemma {:induction false} PutAll(job: Job, start: State, s: State, k: nat) returns (t: State)
    requires |start.tasks| == |s.tasks| == |job.ids| && Reaches(job, start, s)
    requires k < |job.ids| && job.ids[k] in s.docs
    requires s.tasks[k].Updating? && s.tasks[k].rev == s.docs[job.ids[k]].rev
    ensures OnlyCall(job, k, s, t) && Reaches(job, start, t) && t.tasks[k].Updating? && t.tasks[k].left == 0
    decreases s.tasks[k].left
  {
    if s.tasks[k].left == 0 {
      t := s;
    } else {
      var u := ReachesNext(job, start, s, PutNext(k, ""));
      t := PutAll(job, start, u, k);
    }
  }

  /** A call that may begin can be run to its end while the others wait. */
  lemma RunOne(job: Job, start: State, s: State, k: nat) returns (t: State)
    requires |start.tasks| == |s.tasks| == |job.ids| && Reaches(job, start, s) && k < |job.ids|
    requires s.tasks[k].Waiting? && Running(s.tasks) < MAX_WORKERS && forall j :: 0 <= j < k ==> !s.tasks[j].Waiting?
    ensures OnlyCall(job, k, s, t) && Reaches(job, start, t) && IsOver(t.tasks[k])
  {
    t := ReachesNext(job, start, s, Begin(k));
    t := ReachesNext(job, start, t, Fetch(k));
    if job.ids[k] in s.docs {
      t := PutAll(job, start, t, k);
      t := ReachesNext(job, start, t, Finish(k));
    }
  }

  /** So can a number of calls, one after the other. */
  lemma {:induction false} RunUpTo(job: Job, start: State, s: State, from: nat, end: nat) returns (t: State)
    requires |start.tasks| == |s.tasks| == |job.ids| && Reaches(job, start, s) && from <= end <= |job.ids|
    requires forall j :: 0 <= j < |job.ids| ==> (s.tasks[j].Waiting? <==> from <= j)
    requires Running(s.tasks) < MAX_WORKERS
    ensures |t.tasks| == |job.ids| && Reaches(job, start, t) && t.docs.Keys == s.docs.Keys
    ensures forall j :: 0 <= j < |job.ids| ==> (t.tasks[j].Waiting? <==> end <= j)
    ensures Running(t.tasks) == Running(s.tasks)
    ensures forall j :: 0 <= j < from ==> t.tasks[j] == s.tasks[j]
    ensures forall id :: id in s.docs && id !in job.ids[from..end] ==> t.docs[id] == s.docs[id]
    decreases end - from
  {
    if from == end {
      t := s;
    } else {
      var u := RunOne(job, start, s, from);
      RunningAfter(job, from, s, u);
      t := RunUpTo(job, start, u, from + 1, end);
      forall id | id in s.docs && id !in job.ids[from..end]
        ensures t.docs[id] == s.docs[id]
      {
        NotLater(job.ids, id, from, end);
      }
    }
  }

  lemma NotLater(ids: seq<string>, id: string, from: nat, end: nat)
    requires from < end <= |ids| && id !in ids[from..end]
    ensures id != ids[from] && id !in ids[from + 1..end]
  {
    assert ids[from..end] == [ids[from]] + ids[from + 1..end];
  }

  /** Two calls that both fetch a document before either puts it. */
  lemma TwoFetches(job: Job, start: State, s: State, i: nat, j: nat) returns (t: State)
    requires |start.tasks| == |s.tasks| == |job.ids| && Reaches(job, start, s) && job.numberUpdates > 0
    requires i < j < |job.ids| && job.ids[i] == job.ids[j] && job.ids[i] in s.docs
    requires s.tasks[i].Updating? && s.tasks[i].left > 0 && s.tasks[i].rev == s.docs[job.ids[i]].rev
    requires Running(s.tasks) < MAX_WORKERS && s.tasks[j].Waiting? && forall k :: 0 <= k < j ==> !s.tasks[k].Waiting?
    ensures |t.tasks| == |job.ids| && Reaches(job, start, t) && t.tasks[j] == Failed(ConflictError)
  {
    t := ReachesNext(job, start, s, Begin(j));
    t := ReachesNext(job, start, t, Fetch(j));
    t := ReachesNext(job, start, t, PutNext(i, ""));
    t := ReachesNext(job, start, t, PutNext(j, ""));
  }

  /** Two listings of a document, with none between them. */
  lemma Neighbours(ids: seq<string>, i: nat, j: nat) returns (k: nat)
    requires i < j < |ids| && ids[i] == ids[j]
    ensures i < k < |ids| && ids[i] == ids[k] && ids[i] !in ids[i + 1..k]
  {
    k := j;
    while ids[i] in ids[i + 1..k]
      invariant i < k < |ids| && ids[i] == ids[k]
      decreases k
    {
      var m :| 0 <= m < |ids[i + 1..k]| && ids[i + 1..k][m] == ids[i];
      k := i + 1 + m;
    }
  }

  lemma DuplicateIdsConflict(job: Job, docs: map<string, Doc>)
    requires !ListedOnce(job, docs) && job.numberUpdates > 0
    ensures exists t :: Reaches(job, Start(job, docs), t) && Failed(ConflictError) in t.tasks
  {
    var start := Start(job, docs);
    var i, j :| 0 <= i < j < |job.ids| && job.ids[i] in docs && job.ids[i] == job.ids[j];
    j := Neighbours(job.ids, i, j);
    assert Run(job, start, []) == Some(start);
    StartWork(job, |job.ids|);
    var s := RunUpTo(job, start, start, 0, i);
    var t := ReachesNext(job, start, s, Begin(i));
    t := ReachesNext(job, start, t, Fetch(i));
    RunningAfter(job, i, s, t);
    var u := RunUpTo(job, start, t, i + 1, j);
    u := TwoFetches(job, start, u, i, j);
    assert u.tasks[j] in u.tasks;
  }

  /** Some interleaving conflicts if and only if an existing document is listed twice and
      updated at all. */
  lemma ConflictIffListedTwice(job: Job, docs: map<string, Doc>)
    ensures (exists t :: Reaches(job, Start(job, docs), t) && Failed(ConflictError) in t.tasks) <==>
            !ListedOnce(job, docs) && job.numberUpdates > 0
  {
    if !ListedOnce(job, docs) && job.numberUpdates > 0 {
      DuplicateIdsConflict(job, docs);
    } else {
      forall t | Reaches(job, Start(job, docs), t)
        ensures Failed(ConflictError) !in t.tasks
      {
        var steps :| Run(job, Start(job, docs), steps) == Some(t);
        if ListedOnce(job, docs) {
          InvRun(job, docs, steps);
          assert forall i :: 0 <= i < |job.ids| ==> CallInv(job, docs, t.docs, job.ids[i], t.tasks[i]);
        } else {
          NoPuts(job, docs, steps);
        }
      }
    }
  }

  /** Without updates no call ever puts. */
  lemma {:induction false} NoPuts(job: Job, docs: map<string, Doc>, steps: seq<Step>)
    requires job.numberUpdates == 0 && Run(job, Start(job, docs), steps).Some?
    ensures var s := Run(job, Start(job, docs), steps).value;
            forall i :: 0 <= i < |s.tasks| ==>
              s.tasks[i] != Failed(ConflictError) && (s.tasks[i].Updating? ==> s.tasks[i].left == 0)
  {
    if steps != [] {
      NoPuts(job, docs, steps[..|steps| - 1]);
    }
  }

  /** In every state the calls that have begun are the first ones of the list. */
  lemma {:induction false} StartedInOrder(job: Job, docs: map<string, Doc>, steps: seq<Step>)
    requires Run(job, Start(job, docs), steps).Some?
    ensures var tasks := Run(job, Start(job, docs), steps).value.tasks;
            forall i, j :: 0 <= i < j < |tasks| && !tasks[j].Waiting? ==> !tasks[i].Waiting?
  {
    if steps != [] {
      StartedInOrder(job, docs, steps[..|steps| - 1]);
    }
  }

  /** Asked for no update at all, no call touches its document, and every call that is over has
      failed: on its unset result, or because there is no document. */
  lemma {:induction false} WithoutUpdates(job: Job, docs: map<string, Doc>, steps: seq<Step>)
    requires job.numberUpdates == 0 && Run(job, Start(job, docs), steps).Some?
    ensures var s := Run(job, Start(job, docs), steps).value;
            && s.docs == docs
            && forall i :: 0 <= i < |job.ids| ==>
                 && (s.tasks[i].Updating? ==> s.tasks[i].left == 0 && job.ids[i] in docs)
                 && (IsOver(s.tasks[i]) ==>
                       s.tasks[i] == Failed(if job.ids[i] in docs then UnboundLocalError else KeyError))
  {
    if steps != [] {
      WithoutUpdates(job, docs, steps[..|steps| - 1]);
    }
  }
}
