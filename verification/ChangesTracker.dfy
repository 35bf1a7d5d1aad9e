/** `keywords/ChangesTracker.py`: a thread follows the changes feed and collects the revisions
    of every document, while another thread polls the collection for expected revisions. */
module ChangesTracker {
  import opened Python

  /** An entry of the feed: its sequence number, the document and its new revisions. */
  datatype Row = Row(seqNum: nat, id: string, changes: seq<string>)

  type Tracked = map<string, seq<string>>

  // ----- what is collected -----

  /** The revisions of one document, in feed order. */
  function RevsOf(rows: seq<Row>, id: string): seq<string> {
    if rows == [] then []
    else
      var last := rows[|rows| - 1];
      RevsOf(rows[..|rows| - 1], id) + if last.id == id then last.changes else []
  }

  /** The feed grouped by document; entries without revisions leave no trace. */
  ghost predicate Groups(m: Tracked, rows: seq<Row>) {
    && (forall id :: id in m <==> RevsOf(rows, id) != [])
    && (forall id :: id in m ==> m[id] == RevsOf(rows, id))
  }

  /** The entry lists a revision that its document already has. */
  ghost predicate Repeats(before: seq<Row>, row: Row) {
    exists rev :: rev in row.changes && rev in RevsOf(before, row.id)
  }

  ghost predicate NoRepeats(rows: seq<Row>) {
    rows == [] || (NoRepeats(rows[..|rows| - 1]) && !Repeats(rows[..|rows| - 1], rows[|rows| - 1]))
  }

  lemma {:induction false} RevsOfMember(rows: seq<Row>, id: string, rev: string)
    ensures rev in RevsOf(rows, id) <==> exists i :: 0 <= i < |rows| && rows[i].id == id && rev in rows[i].changes
  {
    if rows != [] {
      var n := |rows| - 1;
      RevsOfMember(rows[..n], id, rev);
      if i :| 0 <= i < |rows| && rows[i].id == id && rev in rows[i].changes {
        if i < n {
          assert rows[..n][i] == rows[i];
        }
      }
    }
  }

  predicate ShareRevision(a: Row, b: Row) {
    a.id == b.id && exists rev :: rev in a.changes && rev in b.changes
  }

  lemma RepeatsMeans(before: seq<Row>, row: Row)
    ensures Repeats(before, row) <==> exists i :: 0 <= i < |before| && ShareRevision(before[i], row)
  {
    if Repeats(before, row) {
      var rev :| rev in row.changes && rev in RevsOf(before, row.id);
      RevsOfMember(before, row.id, rev);
      var i :| 0 <= i < |before| && before[i].id == row.id && rev in before[i].changes;
      assert ShareRevision(before[i], row);
    }
    if i :| 0 <= i < |before| && ShareRevision(before[i], row) {
      var rev :| rev in before[i].changes && rev in row.changes;
      RevsOfMember(before, row.id, rev);
    }
  }

  /** Stated on the feed alone: no document lists a revision in two different entries. */
  ghost predicate Unrepeated(rows: seq<Row>) {
    forall i, k :: 0 <= i < k < |rows| ==> !ShareRevision(rows[i], rows[k])
  }

  lemma {:induction false} NoRepeatsMeans(rows: seq<Row>)
    ensures NoRepeats(rows) <==> Unrepeated(rows)
  {
    if rows != [] {
      var n := |rows| - 1;
      NoRepeatsMeans(rows[..n]);
      RepeatsMeans(rows[..n], rows[n]);
      assert forall i :: 0 <= i < n ==> rows[..n][i] == rows[i];
    }
  }

  /** The collection only grows: no document disappears and no list is shortened or changed. */
  ghost predicate Grows(m: Tracked, m': Tracked) {
    forall id :: id in m ==> id in m' && m[id] <= m'[id]
  }

  /** The collection after one more entry. */
  function AddRow(m: Tracked, row: Row): Tracked {
    if row.changes == [] then m
    else if row.id in m then m[row.id := m[row.id] + row.changes]
    else m[row.id := row.changes]
  }

  lemma AddRowGroups(m: Tracked, rows: seq<Row>, row: Row)
    requires Groups(m, rows)
    ensures Groups(AddRow(m, row), rows + [row])
  {
    assert (rows + [row])[..|rows|] == rows;
    forall id
      ensures RevsOf(rows + [row], id) == RevsOf(rows, id) + if row.id == id then row.changes else []
    {
    }
  }

  predicate AlreadyListed(m: Tracked, row: Row) {
    row.id in m && exists rev :: rev in row.changes && rev in m[row.id]
  }

  lemma GrowsOn(m: Tracked, m': Tracked, m'': Tracked)
    requires Grows(m, m') && Grows(m', m'')
    ensures Grows(m, m'')
  {
  }

  /** Whether an entry repeats a revision can be seen from the collection. */
  lemma RepeatsInGroups(m: Tracked, rows: seq<Row>, row: Row)
    requires Groups(m, rows)
    ensures Repeats(rows, row) <==> AlreadyListed(m, row)
  {
  }

  lemma NoRepeatsAppend(rows: seq<Row>, row: Row)
    ensures NoRepeats(rows + [row]) <==> NoRepeats(rows) && !Repeats(rows, row)
  {
    assert (rows + [row])[..|rows|] == rows;
  }

  lemma {:induction false} RepeatsStay(rows: seq<Row>, more: seq<Row>)
    requires !NoRepeats(rows)
    ensures !NoRepeats(rows + more)
  {
    if more == [] {
      assert rows + more == rows;
    } else {
      var n := |more| - 1;
      RepeatsStay(rows, more[..n]);
      assert rows + more == rows + more[..n] + [more[n]];
      NoRepeatsAppend(rows + more[..n], more[n]);
    }
  }

  // ----- one response -----

  /** What processing a response leaves behind: the collection, how many entries were taken,
      and whether all of them were. */
  datatype Collected = Collected(m: Tracked, taken: nat, ok: bool)

  function Collect(m: Tracked, rows: seq<Row>): (c: Collected)
    ensures c.taken <= |rows|
    decreases |rows|
  {
    if rows == [] then Collected(m, 0, true)
    else if AlreadyListed(m, rows[0]) then Collected(m, 0, false)
    else
      var rest := Collect(AddRow(m, rows[0]), rows[1..]);
      rest.(taken := rest.taken + 1)
  }

  lemma SplitFirst(feed: seq<Row>, rows: seq<Row>, k: nat)
    requires k < |rows|
    ensures feed + rows == feed + [rows[0]] + rows[1..]
    ensures feed + [rows[0]] + rows[1..][..k] == feed + rows[..k + 1]
    ensures feed + rows[..0] == feed
  {
  }

  /** Processing fails exactly at the first repeated revision; the entries before it are
      collected in their groups. */
  ghost predicate CollectsFeed(feed: seq<Row>, rows: seq<Row>, c: Collected) {
    && c.taken <= |rows| && Groups(c.m, feed + rows[..c.taken])
    && (c.ok <==> NoRepeats(feed + rows)) && (c.ok <==> c.taken == |rows|)
    && (!c.ok ==> RaisesAt(feed + rows[..c.taken], rows[c.taken]))
  }

  /** The first entry that repeats a revision. */
  ghost predicate RaisesAt(before: seq<Row>, row: Row) {
    NoRepeats(before) && Repeats(before, row)
  }

  lemma CollectsNothing(m: Tracked, feed: seq<Row>, rows: seq<Row>)
    requires rows == [] && Groups(m, feed) && NoRepeats(feed)
    ensures CollectsFeed(feed, rows, Collect(m, rows))
  {
    assert feed + rows == feed && feed + rows[..0] == feed;
  }

  lemma CollectsNoMore(m: Tracked, feed: seq<Row>, rows: seq<Row>)
    requires rows != [] && Groups(m, feed) && NoRepeats(feed) && AlreadyListed(m, rows[0])
    ensures CollectsFeed(feed, rows, Collect(m, rows))
  {
    RepeatsInGroups(m, feed, rows[0]);
    NoRepeatsAppend(feed, rows[0]);
    SplitFirst(feed, rows, 0);
    RepeatsStay(feed + [rows[0]], rows[1..]);
  }

  lemma CollectsOneMore(feed: seq<Row>, rows: seq<Row>, c: Collected)
    requires rows != [] && CollectsFeed(feed + [rows[0]], rows[1..], c)
    ensures CollectsFeed(feed, rows, c.(taken := c.taken + 1))
  {
    SplitFirst(feed, rows, c.taken);
    SameFeed(feed + [rows[0]], rows[1..], feed, rows, c);
  }

  lemma SameFeed(feed: seq<Row>, rows: seq<Row>, feed': seq<Row>, rows': seq<Row>, c: Collected)
    requires CollectsFeed(feed, rows, c) && |rows'| == |rows| + 1 && feed' + rows' == feed + rows
    requires feed' + rows'[..c.taken + 1] == feed + rows[..c.taken]
    requires c.taken < |rows| ==> rows'[c.taken + 1] == rows[c.taken]
    ensures CollectsFeed(feed', rows', c.(taken := c.taken + 1))
  {
  }

  lemma TakeRow(m: Tracked, feed: seq<Row>, row: Row)
    requires Groups(m, feed) && NoRepeats(feed) && !AlreadyListed(m, row)
    ensures Groups(AddRow(m, row), feed + [row]) && NoRepeats(feed + [row])
  {
    RepeatsInGroups(m, feed, row);
    NoRepeatsAppend(feed, row);
    AddRowGroups(m, feed, row);
  }

  lemma {:induction false} CollectMeans(m: Tracked, feed: seq<Row>, rows: seq<Row>)
    requires Groups(m, feed) && NoRepeats(feed)
    ensures CollectsFeed(feed, rows, Collect(m, rows))
    decreases |rows|
  {
    if rows == [] {
      CollectsNothing(m, feed, rows);
    } else if AlreadyListed(m, rows[0]) {
      CollectsNoMore(m, feed, rows);
    } else {
      TakeRow(m, feed, rows[0]);
      CollectMeans(AddRow(m, rows[0]), feed + [rows[0]], rows[1..]);
      CollectsOneMore(feed, rows, Collect(AddRow(m, rows[0]), rows[1..]));
    }
  }

  /** Processing only adds to the collection, even when it raises. */
  lemma {:induction false} CollectGrows(m: Tracked, rows: seq<Row>)
    ensures Grows(m, Collect(m, rows).m)
    decreases |rows|
  {
    if rows != [] && !AlreadyListed(m, rows[0]) {
      CollectGrows(AddRow(m, rows[0]), rows[1..]);
      GrowsOn(m, AddRow(m, rows[0]), Collect(m, rows).m);
    }
  }

  // ----- the longpoll loop -----

  /** What a request comes to: an answer, or one of the ways in which the loop ends. */
  datatype Poll = Response(results: seq<Row>, lastSeq: nat) | Stopped

  /** The server: what it answers in a round to a request for the entries since a cursor. */
  type Server = (nat, nat) -> Poll

  /** What the loop leaves behind: the collection, the last sequence number that was served, and
      whether everything served was taken. */
  datatype Followed = Followed(m: Tracked, last: nat, ok: bool)

  /** The loop from a round on, for at most `rounds` rounds. */
  function Follow(server: Server, m: Tracked, since: nat, round: nat, rounds: nat): Followed
    requires round <= rounds
    decreases rounds - round
  {
    if round == rounds || server(round, since).Stopped? then Followed(m, since, true)
    else
      var poll := server(round, since);
      var c := Collect(m, poll.results);
      if c.ok then Follow(server, c.m, poll.lastSeq, round + 1, rounds) else Followed(c.m, poll.lastSeq, false)
  }

  class Tracker {
    var processed: Tracked

    constructor ()
      ensures processed == map[]
    {
      processed := map[];
    }

    /** The body of the loop in `process_changes`. */
    method ProcessDoc(doc: Row) returns (ok: bool)
      modifies this
      ensures ok <==> !AlreadyListed(old(processed), doc)
      ensures processed == if ok then AddRow(old(processed), doc) else old(processed)
    {
      if |doc.changes| > 0 {
        if doc.id in processed {
          var revsList := processed[doc.id];
          for i := 0 to |doc.changes|
            invariant forall k :: 0 <= k < i ==> doc.changes[k] !in revsList
          {
            if doc.changes[i] in revsList {
              return false;
            }
          }
          processed := processed[doc.id := revsList + doc.changes];
        } else {
          processed := processed[doc.id := doc.changes];
        }
      }
      ok := true;
    }

    /** Adds the entries of one response, up to a repeated revision, which raises. */
    method ProcessChanges(results: seq<Row>) returns (r: Outcome<()>)
      modifies this
      ensures var c := Collect(old(processed), results);
              processed == c.m && r == if c.ok then Return(()) else Raise(ChangesError)
    {
      var done := 0;
      while done < |results|
        invariant done <= |results|
        invariant Collect(old(processed), results).(taken := 0) == Collect(processed, results[done..]).(taken := 0)
      {
        assert results[done..][0] == results[done] && results[done..][1..] == results[done + 1..];
        var ok := ProcessDoc(results[done]);
        if !ok {
          return Raise(ChangesError);
        }
        done := done + 1;
      }
      r := Return(());
    }

    /** The longpoll loop: each request asks for the entries since the last answer. */
    method Start(server: Server, rounds: nat) returns (r: Outcome<nat>)
      modifies this
      ensures var f := Follow(server, old(processed), 0, 0, rounds);
              processed == f.m && r == if f.ok then Return(f.last) else Raise(ChangesError)
    {
      var currentSeqNum := 0;
      var round := 0;
      while round < rounds
        invariant round <= rounds
        invariant Follow(server, old(processed), 0, 0, rounds)
               == Follow(server, processed, currentSeqNum, round, rounds)
      {
        var resp := server(round, currentSeqNum);
        if resp.Stopped? {
          break;
        }
        var added := ProcessChanges(resp.results);
        if added.Raise? {
          return Raise(added.error);
        }
        currentSeqNum := resp.lastSeq;
        round := round + 1;
      }
      r := Return(currentSeqNum);
    }
  }

  // ----- against a server that serves a log -----

  ghost predicate Increasing(log: seq<Row>) {
    forall i, j :: 0 <= i < j < |log| ==> log[i].seqNum < log[j].seqNum
  }

  /** The entries of the log with a sequence number in (since, last]. */
  function Between(log: seq<Row>, since: int, last: int): (r: seq<Row>) {
    if log == [] then []
    else
      var n := |log| - 1;
      Between(log[..n], since, last) + if since < log[n].seqNum <= last then [log[n]] else []
  }

  function UpTo(log: seq<Row>, last: int): seq<Row> {
    Between(log, -1, last)
  }

  /** Each answer holds every entry since the cursor, up to the last one it covers, once. */
  ghost predicate Serves(server: Server, log: seq<Row>) {
    forall round: nat, since: nat :: server(round, since).Response? ==>
      var poll := server(round, since);
      since <= poll.lastSeq && poll.results == Between(log, since, poll.lastSeq)
  }

  lemma {:induction false} BetweenNone(log: seq<Row>, since: int, last: int)
    requires forall i :: 0 <= i < |log| ==> log[i].seqNum <= since
    ensures Between(log, since, last) == []
  {
    if log != [] {
      BetweenNone(log[..|log| - 1], since, last);
    }
  }

  lemma {:induction false} UpToExtends(log: seq<Row>, since: nat, last: nat)
    requires Increasing(log) && since <= last
    ensures UpTo(log, since) + Between(log, since, last) == UpTo(log, last)
  {
    if log != [] {
      var n := |log| - 1;
      var seen, more := UpTo(log[..n], since), Between(log[..n], since, last);
      UpToExtends(log[..n], since, last);
      if log[n].seqNum <= since {
        BetweenNone(log[..n], since, last);
        assert more == [] && Between(log, since, last) == [];
      } else if log[n].seqNum <= last {
        assert UpTo(log, since) == seen && Between(log, since, last) == more + [log[n]];
        assert seen + (more + [log[n]]) == (seen + more) + [log[n]];
      } else {
        assert UpTo(log, since) == seen && Between(log, since, last) == more;
      }
    }
  }

  lemma {:induction false} UpToIsPrefix(log: seq<Row>, last: nat)
    requires Increasing(log)
    ensures UpTo(log, last) <= log
  {
    if log != [] {
      var n := |log| - 1;
      UpToIsPrefix(log[..n], last);
      assert log == log[..n] + [log[n]];
      if log[n].seqNum <= last {
        UpToAll(log[..n], last);
      }
    }
  }

  lemma {:induction false} UpToAll(log: seq<Row>, last: nat)
    requires forall i :: 0 <= i < |log| ==> log[i].seqNum <= last
    ensures UpTo(log, last) == log
  {
    if log != [] {
      UpToAll(log[..|log| - 1], last);
    }
  }

  lemma RepeatsInLog(log: seq<Row>, last: nat)
    requires Increasing(log) && !NoRepeats(UpTo(log, last))
    ensures !NoRepeats(log)
  {
    var seen := UpTo(log, last);
    UpToIsPrefix(log, last);
    RepeatsStay(seen, log[|seen|..]);
    assert log == seen + log[|seen|..];
  }

  /** The collection is what was served, grouped by document; after a raise, it is what was
      served before the first entry that repeats a revision. */
  ghost predicate FollowsServed(served: seq<Row>, f: Followed) {
    if f.ok then NoRepeats(served) && Groups(f.m, served)
    else exists k :: 0 <= k < |served| && Groups(f.m, served[..k]) && RaisesAt(served[..k], served[k])
  }

  lemma RaisesInside(feed: seq<Row>, rows: seq<Row>, c: Collected)
    requires CollectsFeed(feed, rows, c) && !c.ok
    ensures FollowsServed(feed + rows, Followed(c.m, 0, false))
  {
    var k := |feed| + c.taken;
    assert (feed + rows)[..k] == feed + rows[..c.taken] && (feed + rows)[k] == rows[c.taken];
  }

  lemma CollectedServed(feed: seq<Row>, rows: seq<Row>, c: Collected, last: nat)
    requires CollectsFeed(feed, rows, c)
    ensures if c.ok then c.taken == |rows| && Groups(c.m, feed + rows) && NoRepeats(feed + rows)
            else FollowsServed(feed + rows, Followed(c.m, last, false))
  {
    if c.ok {
      assert rows[..c.taken] == rows;
    } else {
      RaisesInside(feed, rows, c);
    }
  }

  /** One answer of a server that serves the log. */
  lemma ServedStep(log: seq<Row>, m: Tracked, since: nat, results: seq<Row>, lastSeq: nat)
    requires Increasing(log) && since <= lastSeq && results == Between(log, since, lastSeq)
    requires Groups(m, UpTo(log, since)) && NoRepeats(UpTo(log, since))
    ensures UpTo(log, lastSeq) == UpTo(log, since) + results
    ensures var c := Collect(m, results);
            if c.ok then c.taken == |results| && Groups(c.m, UpTo(log, lastSeq)) && NoRepeats(UpTo(log, lastSeq))
            else FollowsServed(UpTo(log, lastSeq), Followed(c.m, lastSeq, false))
  {
    UpToExtends(log, since, lastSeq);
    CollectMeans(m, UpTo(log, since), results);
    CollectedServed(UpTo(log, since), results, Collect(m, results), lastSeq);
  }

  lemma {:induction false} FollowsLog(server: Server, log: seq<Row>, m: Tracked, since: nat, round: nat, rounds: nat)
    requires Serves(server, log) && Increasing(log) && round <= rounds
    requires Groups(m, UpTo(log, since)) && NoRepeats(UpTo(log, since))
    ensures var f := Follow(server, m, since, round, rounds);
            since <= f.last && FollowsServed(UpTo(log, f.last), f)
    decreases rounds - round
  {
    if round < rounds && server(round, since).Response? {
      var poll := server(round, since);
      ServedStep(log, m, since, poll.results, poll.lastSeq);
      var c := Collect(m, poll.results);
      if c.ok {
        FollowsLog(server, log, c.m, poll.lastSeq, round + 1, rounds);
      }
    }
  }

  lemma SplitAt(rows: seq<Row>, k: nat)
    requires k < |rows|
    ensures rows == rows[..k] + [rows[k]] + rows[k + 1..]
  {
  }

  lemma RepeatsInside(before: seq<Row>, row: Row, after: seq<Row>)
    requires RaisesAt(before, row)
    ensures !NoRepeats(before + [row] + after)
  {
    NoRepeatsAppend(before, row);
    RepeatsStay(before + [row], after);
  }

  lemma ServedRepeats(served: seq<Row>, f: Followed)
    requires FollowsServed(served, f)
    ensures f.ok <==> NoRepeats(served)
  {
    if !f.ok {
      var k :| 0 <= k < |served| && Groups(f.m, served[..k]) && RaisesAt(served[..k], served[k]);
      SplitAt(served, k);
      RepeatsInside(served[..k], served[k], served[k + 1..]);
    }
  }

  /** After any number of rounds the collection is what was served of the log, grouped by
      document in order. The loop raises exactly if that repeats a revision, and then it has
      collected what comes before; so a log without repeated revisions never raises. */
  lemma TrackerFollowsLog(server: Server, log: seq<Row>, rounds: nat)
    requires Serves(server, log) && Increasing(log) && (forall i :: 0 <= i < |log| ==> log[i].seqNum > 0)
    ensures var f := Follow(server, map[], 0, 0, rounds);
            && FollowsServed(UpTo(log, f.last), f)
            && (f.ok <==> Unrepeated(UpTo(log, f.last)))
            && (Unrepeated(log) ==> f.ok)
  {
    var f := Follow(server, map[], 0, 0, rounds);
    BetweenAbove(log);
    FollowsLog(server, log, map[], 0, 0, rounds);
    ServedRepeats(UpTo(log, f.last), f);
    NoRepeatsMeans(UpTo(log, f.last));
    NoRepeatsMeans(log);
    if !f.ok {
      RepeatsInLog(log, f.last);
    }
  }

  lemma {:induction false} BetweenAbove(log: seq<Row>)
    requires forall i :: 0 <= i < |log| ==> log[i].seqNum > 0
    ensures UpTo(log, 0) == []
  {
    if log != [] {
      BetweenAbove(log[..|log| - 1]);
    }
  }

  // ----- the entries that the tracking thread takes -----

  /** The collection after some more entries. */
  function AddRows(m: Tracked, rows: seq<Row>): Tracked
    decreases |rows|
  {
    if rows == [] then m else AddRows(AddRow(m, rows[0]), rows[1..])
  }

  lemma {:induction false} AddRowsAppend(m: Tracked, a: seq<Row>, b: seq<Row>)
    ensures AddRows(m, a + b) == AddRows(AddRows(m, a), b)
    decreases |a|
  {
    if a == [] {
      assert a + b == b;
    } else {
      assert (a + b)[0] == a[0] && (a + b)[1..] == a[1..] + b;
      AddRowsAppend(AddRow(m, a[0]), a[1..], b);
    }
  }

  lemma {:induction false} AddRowsGrow(m: Tracked, rows: seq<Row>)
    ensures Grows(m, AddRows(m, rows))
    decreases |rows|
  {
    if rows != [] {
      AddRowsGrow(AddRow(m, rows[0]), rows[1..]);
      assert Grows(m, AddRow(m, rows[0]));
      GrowsOn(m, AddRow(m, rows[0]), AddRows(m, rows));
    }
  }

  lemma {:induction false} AddRowsGroup(m: Tracked, feed: seq<Row>, rows: seq<Row>)
    requires Groups(m, feed)
    ensures Groups(AddRows(m, rows), feed + rows)
    decreases |rows|
  {
    if rows == [] {
      assert feed + rows == feed;
    } else {
      AddRowGroups(m, feed, rows[0]);
      AddRowsGroup(AddRow(m, rows[0]), feed + [rows[0]], rows[1..]);
      SplitFirst(feed, rows, 0);
    }
  }

  lemma {:induction false} CollectAdds(m: Tracked, rows: seq<Row>)
    ensures Collect(m, rows).m == AddRows(m, rows[..Collect(m, rows).taken])
    decreases |rows|
  {
    if rows != [] && !AlreadyListed(m, rows[0]) {
      CollectAdds(AddRow(m, rows[0]), rows[1..]);
      var k := Collect(m, rows).taken;
      assert rows[..k][0] == rows[0] && rows[..k][1..] == rows[1..][..k - 1];
    }
  }

  /** The entries that the longpoll loop takes, in order. */
  function FollowRows(server: Server, m: Tracked, since: nat, round: nat, rounds: nat): seq<Row>
    requires round <= rounds
    decreases rounds - round
  {
    if round == rounds || server(round, since).Stopped? then []
    else
      var poll := server(round, since);
      var c := Collect(m, poll.results);
      poll.results[..c.taken] + if c.ok then FollowRows(server, c.m, poll.lastSeq, round + 1, rounds) else []
  }

  /** The loop adds these entries, one by one. */
  lemma {:induction false} FollowAdds(server: Server, m: Tracked, since: nat, round: nat, rounds: nat)
    requires round <= rounds
    ensures Follow(server, m, since, round, rounds).m == AddRows(m, FollowRows(server, m, since, round, rounds))
    decreases rounds - round
  {
    if round < rounds && server(round, since).Response? {
      var poll := server(round, since);
      var c := Collect(m, poll.results);
      CollectAdds(m, poll.results);
      if c.ok {
        FollowAdds(server, c.m, poll.lastSeq, round + 1, rounds);
        AddRowsAppend(m, poll.results[..c.taken], FollowRows(server, c.m, poll.lastSeq, round + 1, rounds));
      } else {
        assert poll.results[..c.taken] + [] == poll.results[..c.taken];
      }
    }
  }

  // ----- the requests that the loop makes -----

  /** Each answer names the cursor of the next request. */
  ghost predicate Chain(server: Server, round: nat, cursors: seq<nat>) {
    forall k :: 0 <= k < |cursors| - 1 ==> AnsweredBy(server, round + k, cursors[k], cursors[k + 1])
  }

  predicate AnsweredBy(server: Server, round: nat, since: nat, next: nat) {
    server(round, since).Response? && server(round, since).lastSeq == next
  }

  /** The entries of all answers along a chain. */
  function Answered(server: Server, round: nat, cursors: seq<nat>): seq<Row>
    decreases |cursors|
  {
    if |cursors| <= 1 then []
    else
      match server(round, cursors[0])
      case Stopped => []
      case Response(results, _) => results + Answered(server, round + 1, cursors[1..])
  }

  lemma ChainFirst(server: Server, round: nat, since: nat, rest: seq<nat>)
    requires rest != [] && AnsweredBy(server, round, since, rest[0]) && Chain(server, round + 1, rest)
    ensures Chain(server, round, [since] + rest)
    ensures Answered(server, round, [since] + rest) == server(round, since).results + Answered(server, round + 1, rest)
  {
    var all := [since] + rest;
    assert all[1..] == rest;
    forall k | 0 <= k < |all| - 1
      ensures AnsweredBy(server, round + k, all[k], all[k + 1])
    {
      assert k > 0 ==> AnsweredBy(server, round + 1 + (k - 1), rest[k - 1], rest[k]);
    }
  }

  lemma LongerThan(a: seq<Row>, b: seq<Row>, c: seq<Row>)
    requires b < c
    ensures a + b < a + c
  {
  }

  /** From a round on, the loop asks along a chain of answers until the rounds are over, a request
      ends it or an entry repeats a revision. It takes every entry of every answer; an exception
      leaves out entries of the last answer only. */
  ghost predicate Polled(server: Server, since: nat, round: nat, rounds: nat, f: Followed, rows: seq<Row>,
                         cursors: seq<nat>) {
    && cursors != [] && cursors[0] == since && round + |cursors| - 1 <= rounds && Chain(server, round, cursors)
    && var n := |cursors| - 1;
       && f.last == cursors[n]
       && (f.ok ==> round + n == rounds || server(round + n, f.last).Stopped?)
       && (f.ok ==> rows == Answered(server, round, cursors))
       && (!f.ok ==> n > 0 && Answered(server, round, cursors[..n]) <= rows < Answered(server, round, cursors))
  }

  lemma PolledOneMore(server: Server, since: nat, round: nat, rounds: nat, f: Followed, rows: seq<Row>, rest: seq<nat>)
    requires server(round, since).Response?
    requires Polled(server, server(round, since).lastSeq, round + 1, rounds, f, rows, rest)
    ensures Polled(server, since, round, rounds, f, server(round, since).results + rows, [since] + rest)
  {
    var results, cursors, n := server(round, since).results, [since] + rest, |rest| - 1;
    ChainFirst(server, round, since, rest);
    if !f.ok {
      assert cursors[..n + 1] == [since] + rest[..n] && rest[..n][0] == rest[0];
      ChainPrefix(server, round + 1, rest, n);
      ChainFirst(server, round, since, rest[..n]);
      LongerThan(results, rows, Answered(server, round + 1, rest));
    }
  }

  lemma PolledRaise(server: Server, since: nat, round: nat, rounds: nat, m: Tracked)
    requires round < rounds && server(round, since).Response? && !Collect(m, server(round, since).results).ok
    ensures Polled(server, since, round, rounds, Follow(server, m, since, round, rounds),
                   FollowRows(server, m, since, round, rounds), [since, server(round, since).lastSeq])
  {
    var poll := server(round, since);
    var c, rest := Collect(m, poll.results), [poll.lastSeq];
    CollectTaken(m, poll.results);
    ChainFirst(server, round, since, rest);
    assert [since] + rest == [since, poll.lastSeq] && [since, poll.lastSeq][..1] == [since];
    assert poll.results[..c.taken] + [] == poll.results[..c.taken];
  }

  lemma {:induction false} FollowPolls(server: Server, m: Tracked, since: nat, round: nat, rounds: nat)
    returns (cursors: seq<nat>)
    requires round <= rounds
    ensures Polled(server, since, round, rounds, Follow(server, m, since, round, rounds),
                   FollowRows(server, m, since, round, rounds), cursors)
    decreases rounds - round
  {
    if round == rounds || server(round, since).Stopped? {
      cursors := [since];
    } else {
      var poll := server(round, since);
      var c := Collect(m, poll.results);
      if c.ok {
        var rest := FollowPolls(server, c.m, poll.lastSeq, round + 1, rounds);
        cursors := [since] + rest;
        CollectTaken(m, poll.results);
        PolledOneMore(server, since, round, rounds, Follow(server, c.m, poll.lastSeq, round + 1, rounds),
                      FollowRows(server, c.m, poll.lastSeq, round + 1, rounds), rest);
      } else {
        cursors := [since, poll.lastSeq];
        PolledRaise(server, since, round, rounds, m);
      }
    }
  }

  lemma ChainPrefix(server: Server, round: nat, cursors: seq<nat>, n: nat)
    requires n <= |cursors| && Chain(server, round, cursors)
    ensures Chain(server, round, cursors[..n])
  {
    var some := cursors[..n];
    forall k | 0 <= k < |some| - 1
      ensures AnsweredBy(server, round + k, some[k], some[k + 1])
    {
      assert AnsweredBy(server, round + k, cursors[k], cursors[k + 1]);
    }
  }

  /** Everything is taken exactly if nothing raises. */
  lemma {:induction false} CollectTaken(m: Tracked, rows: seq<Row>)
    ensures var c := Collect(m, rows); (c.ok <==> c.taken == |rows|) && (c.ok ==> rows[..c.taken] == rows)
    decreases |rows|
  {
    if rows != [] && !AlreadyListed(m, rows[0]) {
      CollectTaken(AddRow(m, rows[0]), rows[1..]);
    }
  }

  /** A loop that does not raise leaves the entries of all answers, grouped, whatever the server. */
  lemma AllAnswersCollected(server: Server, rounds: nat) returns (cursors: seq<nat>)
    ensures cursors != [] && cursors[0] == 0 && |cursors| - 1 <= rounds && Chain(server, 0, cursors)
    ensures var f, n := Follow(server, map[], 0, 0, rounds), |cursors| - 1;
            && f.last == cursors[n]
            && (f.ok ==> (n == rounds || server(n, f.last).Stopped?) && Groups(f.m, Answered(server, 0, cursors)))
  {
    cursors := FollowPolls(server, map[], 0, 0, rounds);
    FollowAdds(server, map[], 0, 0, rounds);
    var rows := FollowRows(server, map[], 0, 0, rounds);
    AddRowsGroup(map[], [], rows);
    assert [] + rows == rows;
  }

  lemma TakesAll(seen: seq<Row>, results: seq<Row>, k: nat, rest: seq<Row>, all: seq<Row>)
    requires k == |results| && seen + results + rest <= all
    ensures seen + (results[..k] + rest) <= all
    ensures seen + results + rest == all ==> seen + (results[..k] + rest) == all
  {
    assert results[..k] == results && seen + (results + rest) == seen + results + rest;
  }

  lemma TakesSome(seen: seq<Row>, results: seq<Row>, k: nat)
    requires k <= |results|
    ensures seen + (results[..k] + []) <= seen + results
  {
  }

  /** Against a server that serves the log, the entries taken are those served, up to the first
      that repeats a revision. */
  lemma {:induction false} TakesServed(server: Server, log: seq<Row>, m: Tracked, since: nat, round: nat, rounds: nat)
    requires Serves(server, log) && Increasing(log) && round <= rounds
    requires Groups(m, UpTo(log, since)) && NoRepeats(UpTo(log, since))
    ensures var f, rows := Follow(server, m, since, round, rounds), FollowRows(server, m, since, round, rounds);
            && UpTo(log, since) + rows <= UpTo(log, f.last)
            && (f.ok ==> UpTo(log, since) + rows == UpTo(log, f.last))
    decreases rounds - round
  {
    var seen := UpTo(log, since);
    if round < rounds && server(round, since).Response? {
      var poll := server(round, since);
      var c := Collect(m, poll.results);
      ServedStep(log, m, since, poll.results, poll.lastSeq);
      if c.ok {
        TakesServed(server, log, c.m, poll.lastSeq, round + 1, rounds);
        TakesAll(seen, poll.results, c.taken, FollowRows(server, c.m, poll.lastSeq, round + 1, rounds),
                 UpTo(log, Follow(server, m, since, round, rounds).last));
      } else {
        TakesSome(seen, poll.results, c.taken);
      }
    } else {
      assert seen + [] == seen;
    }
  }

  // ----- the poll in the other thread -----

  datatype Expected = Expected(id: string, rev: string)

  predicate Matches(rev: string, expected: string, byPrefix: bool) {
    if byPrefix then StartsWith(rev, expected) else rev == expected
  }

  ghost predicate Found(m: Tracked, doc: Expected, byPrefix: bool) {
    doc.id in m && exists rev :: rev in m[doc.id] && Matches(rev, doc.rev, byPrefix)
  }

  ghost predicate AllFound(m: Tracked, docs: seq<Expected>, byPrefix: bool) {
    forall i :: 0 <= i < |docs| ==> Found(m, docs[i], byPrefix)
  }

  lemma FoundStays(m: Tracked, m': Tracked, doc: Expected, byPrefix: bool)
    requires Grows(m, m') && Found(m, doc, byPrefix)
    ensures Found(m', doc, byPrefix)
  {
    var rev :| rev in m[doc.id] && Matches(rev, doc.rev, byPrefix);
    var k :| 0 <= k < |m[doc.id]| && m[doc.id][k] == rev;
    assert m'[doc.id][k] == rev;
  }

  /** The collection as the polling thread sees it: its value at each of its reads. The other
      thread adds entries at arbitrary points in between, and the feed is finite. */
  ghost predicate GrowingFeed(snap: nat -> Tracked, end: nat) {
    && (forall t: nat :: Grows(snap(t), snap(t + 1)))
    && (forall t: nat :: t >= end ==> snap(t) == snap(end))
  }

  lemma {:induction false} GrowsOverTime(snap: nat -> Tracked, end: nat, t: nat, u: nat)
    requires GrowingFeed(snap, end) && t <= u
    ensures Grows(snap(t), snap(u))
    decreases u
  {
    if t < u {
      GrowsOverTime(snap, end, t, u - 1);
      assert Grows(snap(u - 1), snap(u - 1 + 1));
      GrowsOn(snap(t), snap(u - 1), snap(u));
    }
  }

  /** What the poller sees of the tracker's work: between two of its reads the tracker takes any
      number of the entries, until it stops. */
  ghost predicate Schedule(rows: seq<Row>, progress: nat -> nat, snap: nat -> Tracked, end: nat) {
    && (forall t: nat, u: nat :: t <= u ==> progress(t) <= progress(u))
    && (forall t: nat :: t >= end ==> progress(t) == progress(end))
    && (forall t: nat :: progress(t) <= |rows| && snap(t) == AddRows(map[], rows[..progress(t)]))
  }

  /** However the two threads interleave, that is a growing feed. */
  lemma TrackerFeedGrows(rows: seq<Row>, progress: nat -> nat, snap: nat -> Tracked, end: nat)
    requires Schedule(rows, progress, snap, end)
    ensures GrowingFeed(snap, end)
  {
    forall t: nat
      ensures Grows(snap(t), snap(t + 1))
    {
      var j, k := progress(t), progress(t + 1);
      assert rows[..k] == rows[..j] + rows[j..k];
      AddRowsAppend(map[], rows[..j], rows[j..k]);
      AddRowsGrow(AddRows(map[], rows[..j]), rows[j..k]);
    }
  }

  /** The scan of one list, which may grow while it is read; `t` counts the reads. */
  method ScanRevs(snap: nat -> Tracked, ghost end: nat, doc: Expected, byPrefix: bool, start: nat)
    returns (revFound: bool, t: nat)
    requires GrowingFeed(snap, end) && doc.id in snap(start)
    ensures t >= start
    ensures revFound ==> Found(snap(t), doc, byPrefix)
    ensures Found(snap(start), doc, byPrefix) ==> revFound
  {
    revFound, t := false, start;
    var j := 0;
    GrowsOverTime(snap, end, start, if start < end then end else start);
    while j < |snap(t)[doc.id]|
      invariant t >= start && doc.id in snap(t) && j <= |snap(t)[doc.id]|
      invariant doc.id in snap(end) && |snap(t)[doc.id]| <= |snap(end)[doc.id]|
      invariant revFound <==> exists k :: 0 <= k < j && Matches(snap(t)[doc.id][k], doc.rev, byPrefix)
      decreases |snap(end)[doc.id]| - j
    {
      var rev := snap(t)[doc.id][j];
      if Matches(rev, doc.rev, byPrefix) {
        revFound := true;
      }
      j := j + 1;
      assert Grows(snap(t), snap(t + 1));
      GrowsOverTime(snap, end, t + 1, if t + 1 < end then end else t + 1);
      t := t + 1;
    }
    if Found(snap(start), doc, byPrefix) {
      GrowsOverTime(snap, end, start, t);
      FoundStays(snap(start), snap(t), doc, byPrefix);
    }
  }

  /** `wait_until`: a True answer holds when it is given and from then on; after a False one,
      something was still missing when the last scan began. The collection may change between
      any two reads and between two passes, so whatever arrives before the last pass is found. */
  method WaitUntil(snap: nat -> Tracked, ghost end: nat, docs: seq<Expected>, byPrefix: bool, passes: nat)
    returns (ok: bool, t: nat, lastPass: nat)
    requires GrowingFeed(snap, end)
    ensures ok ==> forall u: nat :: u >= t ==> AllFound(snap(u), docs, byPrefix)
    ensures !ok && passes > 0 ==> !AllFound(snap(lastPass), docs, byPrefix) && lastPass >= passes - 1
    ensures passes == 0 ==> !ok
    ensures forall u: nat :: u < passes && AllFound(snap(u), docs, byPrefix) ==> ok
  {
    t, lastPass := 0, 0;
    for pass := 0 to passes
      invariant pass > 0 ==> !AllFound(snap(lastPass), docs, byPrefix)
      invariant lastPass >= pass - 1 && t >= pass
    {
      lastPass := t;
      var missing := 0;
      for i := 0 to |docs|
        invariant t >= lastPass
        invariant missing == 0 ==> AllFound(snap(t), docs[..i], byPrefix)
        invariant missing > 0 ==> !AllFound(snap(lastPass), docs, byPrefix)
      {
        ghost var before := t;
        var listed := docs[i].id in snap(t);
        t := t + 1;
        if !listed {
          NotYetListed(snap, end, lastPass, before, docs, i, byPrefix);
          missing := missing + 1;
        } else {
          GrowsOverTime(snap, end, before, t);
          ghost var begun := t;
          var revFound;
          revFound, t := ScanRevs(snap, end, docs[i], byPrefix, t);
          if revFound {
            OneMoreFound(snap, end, before, t, docs, i, byPrefix);
          } else {
            KeepFound(snap, end, lastPass, begun, docs, byPrefix);
            missing := missing + 1;
          }
        }
      }
      if missing == 0 {
        assert docs[..|docs|] == docs;
        forall u: nat | u >= t
          ensures AllFound(snap(u), docs, byPrefix)
        {
          KeepFound(snap, end, t, u, docs, byPrefix);
        }
        return true, t, lastPass;
      }
      t := t + 1;
    }
    ok := false;
    forall u: nat | u < passes
      ensures AllFound(snap(u), docs, byPrefix) ==> AllFound(snap(lastPass), docs, byPrefix)
    {
      KeepFound(snap, end, u, lastPass, docs, byPrefix);
    }
  }

  lemma NotYetListed(snap: nat -> Tracked, end: nat, t: nat, u: nat, docs: seq<Expected>, i: nat, byPrefix: bool)
    requires GrowingFeed(snap, end) && t <= u && i < |docs| && docs[i].id !in snap(u)
    ensures !AllFound(snap(t), docs, byPrefix)
  {
    GrowsOverTime(snap, end, t, u);
    assert !Found(snap(t), docs[i], byPrefix);
  }

  lemma OneMoreFound(snap: nat -> Tracked, end: nat, t: nat, u: nat, docs: seq<Expected>, i: nat, byPrefix: bool)
    requires GrowingFeed(snap, end) && t <= u && i < |docs| && Found(snap(u), docs[i], byPrefix)
    ensures AllFound(snap(t), docs[..i], byPrefix) ==> AllFound(snap(u), docs[..i + 1], byPrefix)
  {
    KeepFound(snap, end, t, u, docs[..i], byPrefix);
    assert forall k :: 0 <= k < i ==> docs[..i + 1][k] == docs[..i][k];
  }

  lemma KeepFound(snap: nat -> Tracked, end: nat, t: nat, u: nat, docs: seq<Expected>, byPrefix: bool)
    requires GrowingFeed(snap, end) && t <= u
    ensures AllFound(snap(t), docs, byPrefix) ==> AllFound(snap(u), docs, byPrefix)
  {
    GrowsOverTime(snap, end, t, u);
    forall i | 0 <= i < |docs| && Found(snap(t), docs[i], byPrefix)
      ensures Found(snap(u), docs[i], byPrefix)
    {
      FoundStays(snap(t), snap(u), docs[i], byPrefix);
    }
  }

  // ----- both threads together -----

  /** An entry lists an expected revision of the document. */
  predicate Lists(row: Row, doc: Expected, byPrefix: bool) {
    row.id == doc.id && exists rev :: rev in row.changes && if byPrefix then doc.rev <= rev else rev == doc.rev
  }

  /** Every expected revision is listed by some entry. */
  ghost predicate AllListed(rows: seq<Row>, docs: seq<Expected>, byPrefix: bool) {
    forall i :: 0 <= i < |docs| ==> ListedIn(rows, docs[i], byPrefix)
  }

  ghost predicate ListedIn(rows: seq<Row>, doc: Expected, byPrefix: bool) {
    exists k :: 0 <= k < |rows| && Lists(rows[k], doc, byPrefix)
  }

  lemma MatchesMeans(rev: string, expected: string, byPrefix: bool)
    ensures Matches(rev, expected, byPrefix) <==> if byPrefix then expected <= rev else rev == expected
  {
  }

  lemma FoundIsListed(m: Tracked, rows: seq<Row>, doc: Expected, byPrefix: bool)
    requires Groups(m, rows)
    ensures Found(m, doc, byPrefix) <==> ListedIn(rows, doc, byPrefix)
  {
    if Found(m, doc, byPrefix) {
      var rev :| rev in m[doc.id] && Matches(rev, doc.rev, byPrefix);
      MatchesMeans(rev, doc.rev, byPrefix);
      RevsOfMember(rows, doc.id, rev);
      var k :| 0 <= k < |rows| && rows[k].id == doc.id && rev in rows[k].changes;
      assert Lists(rows[k], doc, byPrefix);
    }
    if ListedIn(rows, doc, byPrefix) {
      var k :| 0 <= k < |rows| && Lists(rows[k], doc, byPrefix);
      var rev :| rev in rows[k].changes && if byPrefix then doc.rev <= rev else rev == doc.rev;
      RevsOfMember(rows, doc.id, rev);
      MatchesMeans(rev, doc.rev, byPrefix);
      assert RevsOf(rows, doc.id) != [];
    }
  }

  lemma AllFoundIsAllListed(rows: seq<Row>, docs: seq<Expected>, byPrefix: bool)
    ensures AllFound(AddRows(map[], rows), docs, byPrefix) <==> AllListed(rows, docs, byPrefix)
  {
    AddRowsGroup(map[], [], rows);
    assert [] + rows == rows;
    forall i | 0 <= i < |docs| {
      FoundIsListed(AddRows(map[], rows), rows, docs[i], byPrefix);
    }
  }

  lemma ListedInMore(rows: seq<Row>, more: seq<Row>, docs: seq<Expected>, byPrefix: bool)
    requires rows <= more && AllListed(rows, docs, byPrefix)
    ensures AllListed(more, docs, byPrefix)
  {
    forall i | 0 <= i < |docs|
      ensures ListedIn(more, docs[i], byPrefix)
    {
      assert ListedIn(rows, docs[i], byPrefix);
      var k :| 0 <= k < |rows| && Lists(rows[k], docs[i], byPrefix);
      assert Lists(more[k], docs[i], byPrefix);
    }
  }

  /** Waiting while a tracker follows the log of a server, under any schedule of the two threads.
      True means that the served part of the log lists every expected revision; and if the entries
      taken before the last pass list them, the answer is True. */
  method WaitWhileTracking(ghost server: Server, ghost log: seq<Row>, ghost rounds: nat, ghost progress: nat -> nat,
                           snap: nat -> Tracked, ghost end: nat, docs: seq<Expected>, byPrefix: bool, passes: nat)
    returns (ok: bool)
    requires Serves(server, log) && Increasing(log) && forall i :: 0 <= i < |log| ==> log[i].seqNum > 0
    requires Schedule(FollowRows(server, map[], 0, 0, rounds), progress, snap, end)
    ensures ok ==> AllListed(UpTo(log, Follow(server, map[], 0, 0, rounds).last), docs, byPrefix)
    ensures forall u: nat ::
              u < passes && AllListed(FollowRows(server, map[], 0, 0, rounds)[..progress(u)], docs, byPrefix) ==> ok
  {
    ghost var rows := FollowRows(server, map[], 0, 0, rounds);
    TrackerFeedGrows(rows, progress, snap, end);
    var t, lastPass;
    ok, t, lastPass := WaitUntil(snap, end, docs, byPrefix, passes);
    forall u: nat
      ensures AllFound(snap(u), docs, byPrefix) <==> AllListed(rows[..progress(u)], docs, byPrefix)
    {
      AllFoundIsAllListed(rows[..progress(u)], docs, byPrefix);
    }
    if ok {
      assert AllListed(rows[..progress(t)], docs, byPrefix);
      TakenIsServed(server, log, rounds);
      ListedInMore(rows[..progress(t)], UpTo(log, Follow(server, map[], 0, 0, rounds).last), docs, byPrefix);
    }
  }

  lemma TakenIsServed(server: Server, log: seq<Row>, rounds: nat)
    requires Serves(server, log) && Increasing(log) && forall i :: 0 <= i < |log| ==> log[i].seqNum > 0
    ensures var f, rows := Follow(server, map[], 0, 0, rounds), FollowRows(server, map[], 0, 0, rounds);
            && rows <= UpTo(log, f.last) && (f.ok ==> rows == UpTo(log, f.last)) && f.m == AddRows(map[], rows)
  {
    BetweenAbove(log);
    TakesServed(server, log, map[], 0, 0, rounds);
    FollowAdds(server, map[], 0, 0, rounds);
    var rows := FollowRows(server, map[], 0, 0, rounds);
    assert [] + rows == rows;
  }
}
