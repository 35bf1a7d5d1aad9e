/** `reserve_node`, `release_node` and `get_nodes_from_pool_server` of
    `utilities/mobile_server_pool.py`, run by one job while no other job interferes. The
    interleaved runs are in `PoolProtocol`. */
module NodePool {
  import opened Python
  import opened PoolProtocol

  /** How the server answers a replace: it takes it, refuses it with an error of its own, which
      may be retried, or the call fails in some other way. */
  datatype Fault = NoFault | ServerError | OtherError

  class Pool {
    var docs: map<string, Versioned>
    var nextCas: nat
    /** What happens to each attempt to replace a document. */
    const fault: (string, nat) -> Fault

    constructor (docs: map<string, Versioned>, nextCas: nat, fault: (string, nat) -> Fault)
      ensures this.docs == docs && this.nextCas == nextCas && this.fault == fault
    {
      this.docs, this.nextCas, this.fault := docs, nextCas, fault;
    }

    /** Some attempt from `counter` to the last allowed retry is taken, and the server itself has
        refused those before it. */
    predicate Reservable(node: string, counter: nat) {
      exists c: nat :: counter <= c <= 5 && TakenAt(node, counter, c)
    }

    predicate TakenAt(node: string, counter: nat, c: nat) {
      fault(node, c) == NoFault && forall d: nat :: counter <= d < c ==> fault(node, d) == ServerError
    }

    lemma ReservableStep(node: string, counter: nat)
      requires counter <= MAX_RETRIES
      ensures Reservable(node, counter) <==>
              match fault(node, counter)
              case NoFault => true
              case ServerError => counter < MAX_RETRIES && Reservable(node, counter + 1)
              case OtherError => false
    {
      if fault(node, counter) == NoFault {
        assert TakenAt(node, counter, counter);
      } else if fault(node, counter) == ServerError {
        var next := counter + 1;
        if c: nat :| next <= c <= MAX_RETRIES && TakenAt(node, next, c) {
          assert TakenAt(node, counter, c);
        }
        if c: nat :| counter <= c <= MAX_RETRIES && TakenAt(node, counter, c) {
          assert TakenAt(node, next, c);
        }
      }
    }

    /** Books the node at the version read. It retries only errors of the server and only while
        the node is not booked, and a node that is booked already is taken over. */
    method ReserveNode(node: string, job: string, counter: nat) returns (r: Outcome<bool>)
      modifies this`docs, this`nextCas
      ensures node !in old(docs) <==> r.Raise?
      ensures node in old(docs) ==>
                (r.value <==> fault(node, counter) == NoFault
                              || (old(docs)[node].doc.state != Booked && Reservable(node, counter)))
      ensures r == Return(true) ==>
                docs == old(docs)[node := Versioned(Doc(Booked, job, old(docs)[node].doc.username), old(nextCas))]
                && nextCas == old(nextCas) + 1
      ensures r != Return(true) ==> docs == old(docs) && nextCas == old(nextCas)
      decreases if counter <= MAX_RETRIES then MAX_RETRIES - counter else 0
    {
      if node !in docs {
        return Raise(KeyError);
      }
      var doc, currCas := docs[node].doc, docs[node].cas;
      doc := doc.(prevUser := doc.username);
      doc := doc.(username := job);
      doc := doc.(state := Booked);
      if counter <= MAX_RETRIES {
        ReservableStep(node, counter);
      }
      var answer := ReplaceAt(node, doc, currCas, counter);
      match answer
      case NoFault => r := Return(true);
      case ServerError =>
        if docs[node].doc.state != Booked && counter < MAX_RETRIES {
          ReservableStep(node, counter + 1);
          r := ReserveNode(node, job, counter + 1);
        } else {
          r := Return(false);
        }
      case OtherError => r := Return(false);
    }

    /** `replace(node, doc, cas=cas)` */
    method ReplaceAt(node: string, doc: Doc, cas: nat, attempt: nat) returns (answer: Fault)
      requires node in docs
      modifies this`docs, this`nextCas
      ensures answer ==
              if fault(node, attempt) == NoFault && old(docs)[node].cas != cas then ServerError
              else fault(node, attempt)
      ensures answer == NoFault ==>
                docs == old(docs)[node := Versioned(doc, old(nextCas))] && nextCas == old(nextCas) + 1
      ensures answer != NoFault ==> docs == old(docs) && nextCas == old(nextCas)
    {
      answer := fault(node, attempt);
      if answer == NoFault {
        if docs[node].cas != cas {
          return ServerError;
        }
        docs, nextCas := docs[node := Versioned(doc, nextCas)], nextCas + 1;
      }
    }

    /** Frees the nodes in order, up to the first that is missing or names another job. */
    method ReleaseNode(nodes: seq<string>, job: string) returns (r: Outcome<()>, done: nat)
      modifies this`docs, this`nextCas
      ensures done <= |nodes| && (r.Return? <==> done == |nodes|)
      ensures r.Raise? ==> nodes[done] !in docs || docs[nodes[done]].doc.username != job
      ensures docs.Keys == old(docs).Keys
      ensures forall n :: n in nodes[..done] ==>
                n in old(docs) && old(docs)[n].doc.username == job && docs[n].doc == Doc(Available, "", job)
      ensures forall n :: n in docs && n !in nodes[..done] ==> docs[n] == old(docs)[n]
    {
      done := 0;
      while done < |nodes|
        invariant done <= |nodes|
        invariant docs.Keys == old(docs).Keys
        invariant forall n :: n in nodes[..done] ==>
                    n in old(docs) && old(docs)[n].doc.username == job && docs[n].doc == Doc(Available, "", job)
        invariant forall n :: n in docs && n !in nodes[..done] ==> docs[n] == old(docs)[n]
      {
        var node := nodes[done];
        if node !in docs {
          return Raise(KeyError), done;
        }
        var doc := docs[node].doc;
        if doc.username != job {
          return Raise(NotOwner), done;
        }
        doc := doc.(prevUser := doc.username);
        doc := doc.(username := "");
        doc := doc.(state := Available);
        docs, nextCas := docs[node := Versioned(doc, nextCas)], nextCas + 1;
        assert nodes[..done + 1] == nodes[..done] + [node];
        done := done + 1;
      }
      r := Return(());
    }

    /** What the scan may return: nodes that can be booked and answer the probe. */
    predicate Usable(alive: string -> bool, node: string) {
      Reservable(node, 0) && alive(node)
    }

    /** The usable nodes among the rows, in order. */
    function UsableOf(alive: string -> bool, rows: seq<string>): seq<string> {
      Filter(n => Usable(alive, n), rows)
    }

    lemma UsableMembers(alive: string -> bool, rows: seq<string>)
      requires Distinct(rows)
      ensures Distinct(UsableOf(alive, rows))
      ensures forall n :: n in UsableOf(alive, rows) <==> n in rows && Usable(alive, n)
    {
      FilterDistinct(n => Usable(alive, n), rows);
      FilterMembers(n => Usable(alive, n), rows);
    }

    lemma UsableOneMore(alive: string -> bool, rows: seq<string>, k: nat)
      requires k < |rows|
      ensures UsableOf(alive, rows[..k + 1]) ==
              UsableOf(alive, rows[..k]) + if Usable(alive, rows[k]) then [rows[k]] else []
    {
      FilterOneMore(n => Usable(alive, n), rows, k);
    }

    /** Exactly the reservable rows were booked to the job. */
    ghost predicate BookedRows(before: map<string, Versioned>, after: map<string, Versioned>, rows: seq<string>,
                               job: string)
      requires before.Keys == after.Keys
    {
      forall n :: n in after ==>
        if n in rows && Reservable(n, 0) then after[n].doc == Doc(Booked, job, before[n].doc.username)
        else after[n] == before[n]
    }

    lemma BookedOneMore(before: map<string, Versioned>, mid: map<string, Versioned>, after: map<string, Versioned>,
                        rows: seq<string>, k: nat, job: string, cas: nat)
      requires Distinct(rows) && k < |rows| && rows[k] in before && before.Keys == mid.Keys
      requires BookedRows(before, mid, rows[..k], job)
      requires after == if Reservable(rows[k], 0)
                        then mid[rows[k] := Versioned(Doc(Booked, job, mid[rows[k]].doc.username), cas)] else mid
      ensures after.Keys == before.Keys && BookedRows(before, after, rows[..k + 1], job)
    {
      assert rows[..k + 1] == rows[..k] + [rows[k]];
      assert rows[k] !in rows[..k];
    }

    /** The loop over the query rows, which stops as soon as `num` usable nodes are booked. */
    method BookRows(num: int, rows: seq<string>, alive: string -> bool, job: string)
      returns (poolList: seq<string>, visited: nat, enough: bool)
      requires Distinct(rows)
      requires forall n :: n in rows ==> n in docs && docs[n].doc.state == Available
      modifies this`docs, this`nextCas
      ensures visited <= |rows| && docs.Keys == old(docs).Keys
      ensures poolList == UsableOf(alive, rows[..visited])
      ensures enough <==> 1 <= visited && |poolList| == num
      ensures !enough ==> visited == |rows|
      ensures forall k :: 1 <= k < visited ==> |UsableOf(alive, rows[..k])| != num
      ensures BookedRows(old(docs), docs, rows[..visited], job)
    {
      poolList := [];
      visited := 0;
      while visited < |rows|
        invariant visited <= |rows| && docs.Keys == old(docs).Keys
        invariant poolList == UsableOf(alive, rows[..visited])
        invariant forall k :: 1 <= k <= visited ==> |UsableOf(alive, rows[..k])| != num
        invariant BookedRows(old(docs), docs, rows[..visited], job)
      {
        var node := rows[visited];
        UsableOneMore(alive, rows, visited);
        assert docs[node].doc.state == Available by {
          assert node !in rows[..visited];
        }
        ghost var mid, cas := docs, nextCas;
        ReservableStep(node, 0);
        var reserved := ReserveNode(node, job, 0);
        BookedOneMore(old(docs), mid, docs, rows, visited, job, cas);
        if reserved.value && alive(node) {
          poolList := poolList + [node];
        }
        visited := visited + 1;
        if |poolList| == num {
          return poolList, visited, true;
        }
      }
      enough := false;
    }

    /** The reservable rows were booked to the job, and those that answer the probe freed again. */
    ghost predicate GivenBack(before: map<string, Versioned>, after: map<string, Versioned>, rows: seq<string>,
                              alive: string -> bool, job: string)
      requires before.Keys == after.Keys
    {
      forall n :: n in after ==>
        if n !in rows || !Reservable(n, 0) then after[n] == before[n]
        else after[n].doc == if alive(n) then Doc(Available, "", job) else Doc(Booked, job, before[n].doc.username)
    }

    /** Of the free nodes, what is booked afterwards: the result, and booked rows that fail the
        probe. */
    ghost predicate StayBooked(before: map<string, Versioned>, after: map<string, Versioned>, result: seq<string>,
                               rows: seq<string>, alive: string -> bool)
      requires before.Keys == after.Keys
    {
      forall n :: n in after && before[n].doc.state != Booked ==>
        (after[n].doc.state == Booked <==> n in result || (n in rows && Reservable(n, 0) && !alive(n)))
    }

    lemma BookedStayBooked(before: map<string, Versioned>, after: map<string, Versioned>, nodes: seq<string>,
                           rows: seq<string>, alive: string -> bool, job: string)
      requires before.Keys == after.Keys && BookedRows(before, after, rows, job)
      requires forall n :: n in nodes <==> n in rows && Usable(alive, n)
      ensures StayBooked(before, after, nodes, rows, alive)
    {
    }

    lemma GivenBackStayBooked(before: map<string, Versioned>, after: map<string, Versioned>, rows: seq<string>,
                              alive: string -> bool, job: string)
      requires before.Keys == after.Keys && GivenBack(before, after, rows, alive, job)
      ensures StayBooked(before, after, [], rows, alive)
    {
    }

    lemma ReleaseGivesBack(before: map<string, Versioned>, mid: map<string, Versioned>, after: map<string, Versioned>,
                           rows: seq<string>, nodes: seq<string>, alive: string -> bool, job: string)
      requires before.Keys == mid.Keys == after.Keys && BookedRows(before, mid, rows, job)
      requires forall n :: n in nodes <==> n in rows && Usable(alive, n)
      requires forall n :: n in nodes ==> n in mid && after[n].doc == Doc(Available, "", job)
      requires forall n :: n in after && n !in nodes ==> after[n] == mid[n]
      ensures GivenBack(before, after, rows, alive, job)
    {
    }

    /** The booked rows can be released by their job. */
    lemma BookedRowsAreOwned(before: map<string, Versioned>, mid: map<string, Versioned>, rows: seq<string>,
                             nodes: seq<string>, alive: string -> bool, job: string)
      requires before.Keys == mid.Keys && BookedRows(before, mid, rows, job) && forall n :: n in rows ==> n in before
      requires forall n :: n in nodes <==> n in rows && Usable(alive, n)
      ensures forall i :: 0 <= i < |nodes| ==> nodes[i] in mid && mid[nodes[i]].doc.username == job
    {
    }

    /** Books nodes in query order until `num` usable ones are found; otherwise it gives the
        usable ones back. A booked node that does not answer the probe stays booked. The query
        has listed each row once and as available, and nobody has changed it since. */
    method GetNodesFromPoolServer(num: int, rows: seq<string>, alive: string -> bool, job: string)
      returns (r: Outcome<seq<string>>, visited: nat)
      requires Distinct(rows)
      requires forall n :: n in rows ==> n in docs && docs[n].doc.state == Available
      modifies this`docs, this`nextCas
      ensures visited <= |rows| && docs.Keys == old(docs).Keys
      ensures r.Return? ==> |r.value| == num && Distinct(r.value) && r.value == UsableOf(alive, rows[..visited])
      ensures r.Return? <==> exists k :: 1 <= k <= |rows| && |UsableOf(alive, rows[..k])| == num
      ensures r.Return? ==> forall k :: 1 <= k < visited ==> |UsableOf(alive, rows[..k])| != num
      ensures r.Raise? ==> r.error == NotEnoughNodes && visited == |rows|
      ensures r.Return? ==> BookedRows(old(docs), docs, rows[..visited], job)
      ensures r.Raise? ==> GivenBack(old(docs), docs, rows, alive, job)
      ensures StayBooked(old(docs), docs, if r.Return? then r.value else [], rows[..visited], alive)
    {
      var poolList, enough;
      poolList, visited, enough := BookRows(num, rows, alive, job);
      UsableMembers(alive, rows[..visited]);
      if enough {
        BookedStayBooked(old(docs), docs, poolList, rows[..visited], alive, job);
        return Return(poolList), visited;
      }
      assert rows[..visited] == rows;
      ghost var mid := docs;
      BookedRowsAreOwned(old(docs), mid, rows, poolList, alive, job);
      assert forall i :: 0 <= i < |poolList| ==> poolList[i] !in poolList[..i];
      var released, done := ReleaseNode(poolList, job);
      assert poolList[..done] == poolList;
      ReleaseGivesBack(old(docs), mid, docs, rows, poolList, alive, job);
      GivenBackStayBooked(old(docs), docs, rows, alive, job);
      r := Raise(NotEnoughNodes);
    }
  }
}
