/** `verify_docs_in_changes` of `keywords/MobileRestClient.py`: it polls the changes feed and
    crosses expected documents off a map until none is left. */
module ChangesVerifier {
  import opened Python

  datatype Expected = Expected(id: string, rev: string)

  /** An entry of a response; `hasRev` tells whether it has a "rev" of its own. */
  datatype RespDoc = RespDoc(id: string, seqNum: nat, changes: seq<string>, hasRev: bool)

  datatype Poll = Response(results: seq<RespDoc>, lastSeq: nat) | TimedOut

  /** What the server answers in a round to a request for the changes since a cursor. */
  type Server = (nat, nat) -> Poll

  type Outstanding = map<string, string>

  predicate IsUserId(id: string) { StartsWith(id, "_user/") }

  /** `{doc["id"]: doc["rev"] for doc in expected}`: the last entry for an id counts. */
  function MapOf(expected: seq<Expected>): Outstanding {
    if expected == [] then map[]
    else
      var last := expected[|expected| - 1];
      MapOf(expected[..|expected| - 1])[last.id := last.rev]
  }

  // ----- the meaning of a scan, on the entries alone -----

  /** The entry is what was expected of the document. */
  predicate Crosses(original: Outstanding, doc: RespDoc, id: string) {
    && doc.id == id && id in original
    && (if IsUserId(id) then doc.changes == [] && !doc.hasRev else original[id] in doc.changes)
  }

  ghost predicate CrossedBy(original: Outstanding, docs: seq<RespDoc>, id: string) {
    exists k :: 0 <= k < |docs| && Crosses(original, docs[k], id)
  }

  /** The document of the k-th entry was still expected when the entry came. */
  ghost predicate Matched(original: Outstanding, docs: seq<RespDoc>, k: nat)
    requires k < |docs|
  {
    docs[k].id in original && forall j :: 0 <= j < k ==> !Crosses(original, docs[j], docs[k].id)
  }

  ghost predicate AllMatched(original: Outstanding, docs: seq<RespDoc>, from: nat) {
    forall k :: from <= k < |docs| ==> Matched(original, docs, k)
  }

  ghost predicate DistinctSeqs(original: Outstanding, docs: seq<RespDoc>) {
    forall j, k :: 0 <= j < k < |docs| && Matched(original, docs, j) && Matched(original, docs, k)
                   ==> docs[j].seqNum != docs[k].seqNum
  }

  /** The two dictionaries after a number of entries: what is outstanding is the original minus
      what was crossed off, and the sequence numbers are those of the matched entries. */
  ghost predicate ScanInv(original: Outstanding, docs: seq<RespDoc>, outstanding: Outstanding, seqs: map<nat, string>) {
    OutstandingInv(original, docs, outstanding) && SeqsInv(original, docs, seqs)
  }

  ghost predicate OutstandingInv(original: Outstanding, docs: seq<RespDoc>, outstanding: Outstanding) {
    && (forall id :: id in outstanding <==> id in original && !CrossedBy(original, docs, id))
    && (forall id :: id in outstanding ==> outstanding[id] == original[id])
  }

  lemma MatchedAppend(original: Outstanding, docs: seq<RespDoc>, doc: RespDoc)
    ensures forall k :: 0 <= k < |docs| ==> (Matched(original, docs + [doc], k) <==> Matched(original, docs, k))
    ensures Matched(original, docs + [doc], |docs|) <==> doc.id in original && !CrossedBy(original, docs, doc.id)
    ensures forall id :: CrossedBy(original, docs + [doc], id) <==>
                         CrossedBy(original, docs, id) || Crosses(original, doc, id)
  {
    var all := docs + [doc];
    assert all[|docs|] == doc && forall k :: 0 <= k < |docs| ==> all[k] == docs[k];
    forall id | CrossedBy(original, docs, id)
      ensures CrossedBy(original, all, id)
    {
      var k :| 0 <= k < |docs| && Crosses(original, docs[k], id);
      assert Crosses(original, all[k], id);
    }
  }

  ghost predicate SeqsInv(original: Outstanding, docs: seq<RespDoc>, seqs: map<nat, string>) {
    && (forall n :: n in seqs <==> SeqTaken(original, docs, n))
    && DistinctSeqs(original, docs)
  }

  /** A matched entry has the sequence number. */
  ghost predicate SeqTaken(original: Outstanding, docs: seq<RespDoc>, n: nat) {
    exists k :: 0 <= k < |docs| && Matched(original, docs, k) && docs[k].seqNum == n
  }

  lemma AllMatchedAppend(original: Outstanding, docs: seq<RespDoc>, doc: RespDoc, from: nat)
    requires from <= |docs|
    ensures AllMatched(original, docs + [doc], from) <==>
            AllMatched(original, docs, from) && Matched(original, docs + [doc], |docs|)
  {
    MatchedAppend(original, docs, doc);
  }

  /** The sequence numbers after one more entry. */
  lemma SeqsStep(original: Outstanding, docs: seq<RespDoc>, seqs: map<nat, string>, doc: RespDoc)
    requires SeqsInv(original, docs, seqs)
    ensures var matched := Matched(original, docs + [doc], |docs|);
            && (!matched ==> SeqsInv(original, docs + [doc], seqs))
            && (matched && doc.seqNum in seqs ==> !DistinctSeqs(original, docs + [doc]))
            && (matched && doc.seqNum !in seqs ==> SeqsInv(original, docs + [doc], seqs[doc.seqNum := doc.id]))
  {
    MatchedAppend(original, docs, doc);
    var all, n := docs + [doc], |docs|;
    assert all[n] == doc && forall k :: 0 <= k < n ==> all[k] == docs[k];
    if Matched(original, all, n) && doc.seqNum in seqs {
      var k :| 0 <= k < n && Matched(original, docs, k) && docs[k].seqNum == doc.seqNum;
      assert all[k].seqNum == all[n].seqNum && Matched(original, all, k);
    }
    assert forall k :: 0 <= k < n && Matched(original, docs, k) ==>
      Matched(original, all, k) && all[k].seqNum == docs[k].seqNum;
  }

  /** The outstanding documents after one more entry. */
  lemma OutstandingStep(original: Outstanding, docs: seq<RespDoc>, outstanding: Outstanding, doc: RespDoc)
    requires OutstandingInv(original, docs, outstanding)
    ensures doc.id in outstanding <==> Matched(original, docs + [doc], |docs|)
    ensures OutstandingInv(original, docs + [doc],
                           if Crosses(original, doc, doc.id) then outstanding - {doc.id} else outstanding)
  {
    MatchedAppend(original, docs, doc);
  }

  // ----- the loops -----

  /** The loop over the changes of one entry. The entry of its document is looked up again for
      every change, so a match that is not the last change ends in a KeyError. */
  method CrossOff(outstanding: Outstanding, doc: RespDoc) returns (r: Outcome<Outstanding>)
    requires doc.id in outstanding
    ensures r.Return? ==>
              r.value == if outstanding[doc.id] in doc.changes then outstanding - {doc.id} else outstanding
    ensures r.Raise? <==> exists i :: 0 <= i < |doc.changes| - 1 && doc.changes[i] == outstanding[doc.id]
    ensures r.Raise? ==> r.error == KeyError
  {
    var left := outstanding;
    for i := 0 to |doc.changes|
      invariant left == if outstanding[doc.id] in doc.changes[..i] then outstanding - {doc.id} else outstanding
      invariant forall k :: 0 <= k < i - 1 ==> doc.changes[k] != outstanding[doc.id]
    {
      assert doc.changes[..i + 1] == doc.changes[..i] + [doc.changes[i]];
      if doc.id !in left {
        return Raise(KeyError);
      }
      if doc.changes[i] == left[doc.id] {
        left := left - {doc.id};
      }
    }
    assert doc.changes[..|doc.changes|] == doc.changes;
    r := Return(left);
  }

  /** `verify_is_user_doc` */
  method VerifyIsUserDoc(doc: RespDoc) returns (r: Outcome<()>)
    ensures r.Return? <==> IsUserId(doc.id) && doc.changes == [] && !doc.hasRev
    ensures r.Raise? ==> r.error == ValueError
  {
    if !IsUserId(doc.id) || doc.changes != [] || doc.hasRev {
      return Raise(ValueError);
    }
    r := Return(());
  }

  /** Whether and how a scan fails at an entry, stated on the entries alone. */
  ghost function FaultAt(original: Outstanding, docs: seq<RespDoc>, doc: RespDoc): (fault: Option<Exception>)
    ensures fault in {None, Some(AssertionError), Some(ValueError), Some(KeyError)}
  {
    if !Matched(original, docs + [doc], |docs|) then None
    else if SeqTaken(original, docs, doc.seqNum) then Some(AssertionError)
    else if IsUserId(doc.id) then (if doc.changes != [] || doc.hasRev then Some(ValueError) else None)
    else if exists i :: 0 <= i < |doc.changes| - 1 && doc.changes[i] == original[doc.id] then Some(KeyError)
    else None
  }

  /** The first fault among the entries. */
  ghost function FirstFault(original: Outstanding, docs: seq<RespDoc>): (fault: Option<Exception>)
    ensures fault in {None, Some(AssertionError), Some(ValueError), Some(KeyError)}
  {
    if docs == [] then None
    else
      var n := |docs| - 1;
      var before := FirstFault(original, docs[..n]);
      if before.Some? then before else FaultAt(original, docs[..n], docs[n])
  }

  lemma FirstFaultAppend(original: Outstanding, docs: seq<RespDoc>, doc: RespDoc)
    ensures FirstFault(original, docs + [doc]) ==
            if FirstFault(original, docs).Some? then FirstFault(original, docs) else FaultAt(original, docs, doc)
  {
    assert (docs + [doc])[..|docs|] == docs;
  }

  lemma {:induction false} FirstFaultStays(original: Outstanding, docs: seq<RespDoc>, more: seq<RespDoc>)
    requires FirstFault(original, docs).Some?
    ensures FirstFault(original, docs + more) == FirstFault(original, docs)
  {
    if more == [] {
      assert docs + more == docs;
    } else {
      var n := |more| - 1;
      FirstFaultStays(original, docs, more[..n]);
      FirstFaultAppend(original, docs + more[..n], more[n]);
      assert docs + more == docs + more[..n] + [more[n]];
    }
  }

  /** One entry of a response. */
  method ScanDoc(ghost original: Outstanding, ghost docs: seq<RespDoc>,
                 outstanding: Outstanding, seqs: map<nat, string>, doc: RespDoc)
    returns (r: Outcome<(Outstanding, map<nat, string>)>, wasExpected: bool)
    requires ScanInv(original, docs, outstanding, seqs)
    ensures wasExpected <==> Matched(original, docs + [doc], |docs|)
    ensures r.Return? ==> ScanInv(original, docs + [doc], r.value.0, r.value.1)
    ensures FaultAt(original, docs, doc) == if r.Return? then None else Some(r.error)
  {
    OutstandingStep(original, docs, outstanding, doc);
    SeqsStep(original, docs, seqs, doc);
    wasExpected := doc.id in outstanding;
    if !wasExpected {
      return Return((outstanding, seqs)), wasExpected;
    }
    if doc.seqNum in seqs {
      return Raise(AssertionError), wasExpected;
    }
    var seqs' := seqs[doc.seqNum := doc.id];
    if IsUserId(doc.id) {
      var user := VerifyIsUserDoc(doc);
      if user.Raise? {
        return Raise(user.error), wasExpected;
      }
      r := Return((outstanding - {doc.id}, seqs'));
    } else {
      var left := CrossOff(outstanding, doc);
      if left.Raise? {
        return Raise(left.error), wasExpected;
      }
      r := Return((left.value, seqs'));
    }
  }

  /** All entries of a response, up to the first fault. */
  method ScanResponse(ghost original: Outstanding, ghost docs: seq<RespDoc>,
                      outstanding: Outstanding, seqs: map<nat, string>, results: seq<RespDoc>)
    returns (r: Outcome<(Outstanding, map<nat, string>)>, unexpected: seq<RespDoc>)
    requires ScanInv(original, docs, outstanding, seqs) && FirstFault(original, docs).None?
    ensures FirstFault(original, docs + results) == if r.Return? then None else Some(r.error)
    ensures r.Return? ==> ScanInv(original, docs + results, r.value.0, r.value.1)
    ensures r.Return? ==> (unexpected == [] <==> AllMatched(original, docs + results, |docs|))
  {
    var left, seen := outstanding, seqs;
    unexpected := [];
    ghost var all := docs;
    for done := 0 to |results|
      invariant all == docs + results[..done]
      invariant ScanInv(original, all, left, seen) && FirstFault(original, all).None?
      invariant unexpected == [] <==> AllMatched(original, all, |docs|)
    {
      var doc := results[done];
      AllMatchedAppend(original, all, doc, |docs|);
      FirstFaultAppend(original, all, doc);
      var scanned, wasExpected := ScanDoc(original, all, left, seen, doc);
      all := all + [doc];
      SplitResults(docs, results, done);
      if scanned.Raise? {
        FirstFaultStays(original, all, results[done + 1..]);
        return Raise(scanned.error), unexpected;
      }
      if !wasExpected {
        unexpected := unexpected + [doc];
      }
      left, seen := scanned.value.0, scanned.value.1;
    }
    assert results[..|results|] == results;
    r := Return((left, seen));
  }

  lemma SplitResults(docs: seq<RespDoc>, results: seq<RespDoc>, done: nat)
    requires done < |results|
    ensures docs + results[..done] + [results[done]] == docs + results[..done + 1]
    ensures docs + results[..done] + [results[done]] + results[done + 1..] == docs + results
  {
  }

  /** The entries of the first `rounds` answers, each asked for since the answer before it. */
  function Entries(server: Server, rounds: nat): seq<RespDoc> {
    if rounds == 0 then []
    else
      var before := Entries(server, rounds - 1);
      match server(rounds - 1, Cursor(server, rounds - 1))
      case TimedOut => before
      case Response(results, _) => before + results
  }

  function Cursor(server: Server, rounds: nat): nat {
    if rounds == 0 then 0
    else
      match server(rounds - 1, Cursor(server, rounds - 1))
      case TimedOut => Cursor(server, rounds - 1)
      case Response(_, lastSeq) => lastSeq
  }

  ghost predicate AllCrossed(original: Outstanding, docs: seq<RespDoc>) {
    forall id :: id in original ==> CrossedBy(original, docs, id)
  }

  /** How the entries that were read end the polling, if they do: with the first fault, with an
      unexpected entry in strict mode, or because nothing is outstanding. */
  ghost function AnswerEnds(original: Outstanding, strict: bool, docs: seq<RespDoc>): Option<Outcome<()>> {
    var fault := FirstFault(original, docs);
    if fault.Some? then Some(Raise(fault.value))
    else if strict && !AllMatched(original, docs, 0) then Some(Raise(ChangesError))
    else if AllCrossed(original, docs) then Some(Return(()))
    else None
  }

  /** A round that is answered and after which the polling goes on. */
  ghost predicate GoesOn(original: Outstanding, strict: bool, server: Server, k: nat) {
    server(k, Cursor(server, k)).Response? && AnswerEnds(original, strict, Entries(server, k + 1)).None?
  }

  ghost predicate GoesOnBefore(original: Outstanding, strict: bool, server: Server, n: nat) {
    forall k :: 0 <= k < n ==> GoesOn(original, strict, server, k)
  }

  /** After `used` answers the polling ends with r: there was no time for another answer, or the
      last one ends it. */
  ghost predicate EndsWith(original: Outstanding, strict: bool, server: Server, rounds: nat, used: nat,
                           r: Outcome<()>) {
    if r == Raise(TimeoutError) then
      && used <= rounds && GoesOnBefore(original, strict, server, used)
      && (used == rounds || server(used, Cursor(server, used)).TimedOut?)
    else
      && 0 < used <= rounds && GoesOnBefore(original, strict, server, used - 1)
      && server(used - 1, Cursor(server, used - 1)).Response?
      && AnswerEnds(original, strict, Entries(server, used)) == Some(r)
  }

  /** One answer: the scan, then the checks behind it. */
  method ScanAnswer(ghost original: Outstanding, strict: bool, ghost docs: seq<RespDoc>,
                    outstanding: Outstanding, seqs: map<nat, string>, results: seq<RespDoc>)
    returns (ended: Option<Outcome<()>>, outstanding': Outstanding, seqs': map<nat, string>)
    requires ScanInv(original, docs, outstanding, seqs) && FirstFault(original, docs).None?
    requires strict ==> AllMatched(original, docs, 0)
    ensures ended == AnswerEnds(original, strict, docs + results) && ended != Some(Raise(TimeoutError))
    ensures ended.None? ==> ScanInv(original, docs + results, outstanding', seqs')
  {
    outstanding', seqs' := outstanding, seqs;
    var scanned, missing := ScanResponse(original, docs, outstanding, seqs, results);
    if scanned.Raise? {
      return Some(Raise(scanned.error)), outstanding', seqs';
    }
    MatchedPrefix(original, docs, results);
    if strict && |missing| > 0 {
      return Some(Raise(ChangesError)), outstanding', seqs';
    }
    outstanding', seqs' := scanned.value.0, scanned.value.1;
    OutstandingMeans(original, docs + results, outstanding');
    ended := if |outstanding'| == 0 then Some(Return(())) else None;
  }

  /** One round that is answered. */
  method PollRound(ghost original: Outstanding, strict: bool, server: Server, ghost rounds: nat, used: nat,
                   lastSeq: nat, outstanding: Outstanding, seqs: map<nat, string>)
    returns (ended: Option<Outcome<()>>, outstanding': Outstanding, seqs': map<nat, string>)
    requires lastSeq == Cursor(server, used) && server(used, lastSeq).Response? && used < rounds
    requires GoesOnBefore(original, strict, server, used)
    requires ScanInv(original, Entries(server, used), outstanding, seqs)
    ensures ended.Some? ==> EndsWith(original, strict, server, rounds, used + 1, ended.value)
    ensures ended.None? ==> GoesOnBefore(original, strict, server, used + 1)
    ensures ended.None? ==> ScanInv(original, Entries(server, used + 1), outstanding', seqs')
  {
    var resp := server(used, lastSeq);
    StillReading(original, strict, server, used);
    assert Entries(server, used + 1) == Entries(server, used) + resp.results;
    ended, outstanding', seqs' :=
      ScanAnswer(original, strict, Entries(server, used), outstanding, seqs, resp.results);
    OneMoreAnswer(original, strict, server, rounds, used);
  }

  /** The polling loop: it ends at the first answer that does not let it go on, in the way that the
      entries read so far determine, or when the time is up. */
  method PollUntilCrossed(original: Outstanding, strict: bool, server: Server, rounds: nat)
    returns (r: Outcome<()>, used: nat)
    ensures EndsWith(original, strict, server, rounds, used, r)
  {
    var expectedDocMap := original;
    var sequenceNumberMap: map<nat, string> := map[];
    var lastSeq := 0;
    used := 0;
    NothingRead(original, server);
    while used < rounds
      invariant used <= rounds && lastSeq == Cursor(server, used)
      invariant ScanInv(original, Entries(server, used), expectedDocMap, sequenceNumberMap)
      invariant GoesOnBefore(original, strict, server, used)
    {
      var resp := server(used, lastSeq);
      if resp.TimedOut? {
        break;
      }
      var ended;
      ended, expectedDocMap, sequenceNumberMap :=
        PollRound(original, strict, server, rounds, used, lastSeq, expectedDocMap, sequenceNumberMap);
      if ended.Some? {
        return ended.value, used + 1;
      }
      lastSeq := resp.lastSeq;
      used := used + 1;
    }
    r := Raise(TimeoutError);
  }

  /** The whole call, for a list of expected documents. */
  method VerifyDocsInChanges(expected: seq<Expected>, strict: bool, server: Server, rounds: nat)
    returns (r: Outcome<()>, used: nat)
    ensures EndsWith(MapOf(expected), strict, server, rounds, used, r)
  {
    r, used := PollUntilCrossed(MapOf(expected), strict, server, rounds);
  }

  lemma NothingRead(original: Outstanding, server: Server)
    ensures ScanInv(original, Entries(server, 0), original, map[])
  {
  }

  /** While the polling goes on, the entries read are without fault and, in strict mode, matched. */
  lemma StillReading(original: Outstanding, strict: bool, server: Server, n: nat)
    requires GoesOnBefore(original, strict, server, n)
    ensures FirstFault(original, Entries(server, n)).None? && (strict ==> AllMatched(original, Entries(server, n), 0))
  {
    if n > 0 {
      assert GoesOn(original, strict, server, n - 1);
    }
  }

  /** What an answer after rounds that go on leads to. */
  lemma OneMoreAnswer(original: Outstanding, strict: bool, server: Server, rounds: nat, n: nat)
    requires n < rounds && GoesOnBefore(original, strict, server, n) && server(n, Cursor(server, n)).Response?
    ensures var ended := AnswerEnds(original, strict, Entries(server, n + 1));
            && (ended.None? ==> GoesOnBefore(original, strict, server, n + 1))
            && (ended.Some? && ended != Some(Raise(TimeoutError)) ==>
                  EndsWith(original, strict, server, rounds, n + 1, ended.value))
  {
  }

  /** Expected documents and answers determine how the polling ends, and when. */
  lemma EndIsDetermined(original: Outstanding, strict: bool, server: Server, rounds: nat, used: nat, r: Outcome<()>,
                        used': nat, r': Outcome<()>)
    requires EndsWith(original, strict, server, rounds, used, r)
    requires EndsWith(original, strict, server, rounds, used', r')
    ensures used == used' && r == r'
  {
    LastRound(original, strict, server, rounds, used, r);
    LastRound(original, strict, server, rounds, used', r');
  }

  /** How many rounds let the polling go on. */
  function RoundsGone(used: nat, r: Outcome<()>): int {
    if r == Raise(TimeoutError) then used else used - 1
  }

  lemma LastRound(original: Outstanding, strict: bool, server: Server, rounds: nat, used: nat, r: Outcome<()>)
    requires EndsWith(original, strict, server, rounds, used, r)
    ensures var n := RoundsGone(used, r);
            && 0 <= n <= rounds && GoesOnBefore(original, strict, server, n)
            && (n < rounds ==> !GoesOn(original, strict, server, n))
  {
  }

  /** A normal return means that every expected document was seen as expected, that no matched
      sequence number came twice, that no matched entry was at fault and, in strict mode, that
      nothing else was seen. */
  lemma NormalReturnMeans(original: Outstanding, strict: bool, server: Server, rounds: nat, used: nat)
    requires EndsWith(original, strict, server, rounds, used, Return(()))
    ensures var docs := Entries(server, used);
            && AllCrossed(original, docs) && DistinctSeqs(original, docs) && (strict ==> AllMatched(original, docs, 0))
            && forall k :: 0 <= k < |docs| ==> FaultAt(original, docs[..k], docs[k]).None?
  {
    var docs := Entries(server, used);
    FaultlessSeqs(original, docs);
    forall k | 0 <= k < |docs|
      ensures FaultAt(original, docs[..k], docs[k]).None?
    {
      NoFaultInside(original, docs, k);
    }
  }

  lemma {:induction false} FaultlessSeqs(original: Outstanding, docs: seq<RespDoc>)
    requires FirstFault(original, docs).None?
    ensures DistinctSeqs(original, docs)
  {
    if docs != [] {
      var n := |docs| - 1;
      FaultlessSeqs(original, docs[..n]);
      MatchedAppend(original, docs[..n], docs[n]);
      assert docs == docs[..n] + [docs[n]];
      assert forall k :: 0 <= k < n ==> docs[..n][k] == docs[k];
    }
  }

  lemma NoFaultInside(original: Outstanding, docs: seq<RespDoc>, k: nat)
    requires FirstFault(original, docs).None? && k < |docs|
    ensures FaultAt(original, docs[..k], docs[k]).None?
  {
    SplitResults([], docs, k);
    assert [] + docs == docs && [] + docs[..k] == docs[..k];
    FirstFaultAppend(original, docs[..k], docs[k]);
    if FirstFault(original, docs[..k] + [docs[k]]).Some? {
      FirstFaultStays(original, docs[..k] + [docs[k]], docs[k + 1..]);
    }
  }

  lemma OutstandingMeans(original: Outstanding, docs: seq<RespDoc>, outstanding: Outstanding)
    requires OutstandingInv(original, docs, outstanding)
    ensures |outstanding| == 0 <==> AllCrossed(original, docs)
  {
    if |outstanding| == 0 {
      assert outstanding == map[];
    } else {
      var id :| id in outstanding;
    }
  }

  /** Earlier entries stay matched, so a response adds only its own. */
  lemma MatchedPrefix(original: Outstanding, before: seq<RespDoc>, results: seq<RespDoc>)
    ensures AllMatched(original, before, 0) && AllMatched(original, before + results, |before|)
            ==> AllMatched(original, before + results, 0)
    ensures AllMatched(original, before + results, 0) ==> AllMatched(original, before + results, |before|)
  {
    var all := before + results;
    assert forall k :: 0 <= k < |before| ==> all[k] == before[k];
    forall k | 0 <= k < |before|
      ensures Matched(original, all, k) <==> Matched(original, before, k)
    {
    }
  }

  // ----- stated on the expected documents and the answers -----

  /** No later expected document has the id. */
  ghost predicate LastListing(expected: seq<Expected>, i: nat)
    requires i < |expected|
  {
    forall j :: i < j < |expected| ==> expected[j].id != expected[i].id
  }

  ghost predicate Listed(expected: seq<Expected>, id: string) {
    exists i :: 0 <= i < |expected| && expected[i].id == id
  }

  lemma ListedAppend(init: seq<Expected>, last: Expected, id: string)
    ensures Listed(init + [last], id) <==> Listed(init, id) || last.id == id
  {
    var all := init + [last];
    if Listed(init, id) {
      var i :| 0 <= i < |init| && init[i].id == id;
      assert all[i].id == id;
    }
    assert all[|init|] == last;
  }

  /** Every listed id is expected, and no other. */
  lemma {:induction false} MapOfKeys(expected: seq<Expected>, id: string)
    ensures id in MapOf(expected) <==> Listed(expected, id)
  {
    if expected != [] {
      var n := |expected| - 1;
      MapOfKeys(expected[..n], id);
      ListedAppend(expected[..n], expected[n], id);
      assert expected == expected[..n] + [expected[n]];
    }
  }

  /** Its revision is that of its last listing. */
  lemma {:induction false} MapOfLast(expected: seq<Expected>, i: nat)
    requires i < |expected| && LastListing(expected, i)
    ensures expected[i].id in MapOf(expected) && MapOf(expected)[expected[i].id] == expected[i].rev
  {
    var n := |expected| - 1;
    if i < n {
      assert expected[n].id != expected[i].id;
      assert LastListing(expected[..n], i);
      MapOfLast(expected[..n], i);
    }
  }

  /** The entry is what the expected document asks for: a user document without changes and
      revision, or one of its changes. */
  predicate Satisfies(doc: RespDoc, e: Expected) {
    && doc.id == e.id
    && (if "_user/" <= e.id then doc.changes == [] && !doc.hasRev else e.rev in doc.changes)
  }

  lemma UserIdMeans(id: string)
    ensures IsUserId(id) <==> "_user/" <= id
  {
  }

  lemma SeenAsListed(original: Outstanding, docs: seq<RespDoc>, e: Expected)
    requires AllCrossed(original, docs) && e.id in original && original[e.id] == e.rev
    ensures Seen(docs, e)
  {
    assert CrossedBy(original, docs, e.id);
    var k :| 0 <= k < |docs| && Crosses(original, docs[k], e.id);
    UserIdMeans(e.id);
    assert Satisfies(docs[k], e);
  }

  lemma NormalEnd(original: Outstanding, strict: bool, docs: seq<RespDoc>)
    requires AnswerEnds(original, strict, docs) == Some(Return(()))
    ensures AllCrossed(original, docs) && (strict ==> forall k :: 0 <= k < |docs| ==> docs[k].id in original)
  {
    if strict {
      forall k | 0 <= k < |docs|
        ensures docs[k].id in original
      {
        assert Matched(original, docs, k);
      }
    }
  }

  /** Every listed id was seen as its last listing asks; in strict mode every entry is of a listed
      id. */
  ghost predicate SeenOnList(expected: seq<Expected>, strict: bool, docs: seq<RespDoc>) {
    && (forall i :: 0 <= i < |expected| && LastListing(expected, i) ==> Seen(docs, expected[i]))
    && (strict ==> forall k :: 0 <= k < |docs| ==> Listed(expected, docs[k].id))
  }

  ghost predicate Seen(docs: seq<RespDoc>, e: Expected) {
    exists k :: 0 <= k < |docs| && Satisfies(docs[k], e)
  }

  lemma {:induction false} EndOnList(expected: seq<Expected>, strict: bool, docs: seq<RespDoc>)
    requires AnswerEnds(MapOf(expected), strict, docs) == Some(Return(()))
    ensures SeenOnList(expected, strict, docs)
  {
    NormalEnd(MapOf(expected), strict, docs);
    forall i | 0 <= i < |expected| && LastListing(expected, i)
      ensures Seen(docs, expected[i])
    {
      MapOfLast(expected, i);
      SeenAsListed(MapOf(expected), docs, expected[i]);
    }
    forall k | 0 <= k < |docs|
      ensures strict ==> Listed(expected, docs[k].id)
    {
      MapOfKeys(expected, docs[k].id);
    }
  }

  /** A normal return, stated on the list itself. */
  lemma NormalReturnOnList(expected: seq<Expected>, strict: bool, server: Server, rounds: nat, used: nat)
    requires EndsWith(MapOf(expected), strict, server, rounds, used, Return(()))
    ensures SeenOnList(expected, strict, Entries(server, used))
  {
    EndOnList(expected, strict, Entries(server, used));
  }

  /** Why an entry is at fault: it repeats the sequence number of an earlier matched entry, it is of
      a user document but has changes or a revision, or it has the expected revision in front of
      another change. */
  ghost predicate Faulty(original: Outstanding, docs: seq<RespDoc>, k: nat, error: Exception) {
    && k < |docs| && Matched(original, docs, k)
    && var doc := docs[k];
       match error
       case AssertionError => exists j :: 0 <= j < k && Matched(original, docs, j) && docs[j].seqNum == doc.seqNum
       case ValueError => "_user/" <= doc.id && !(doc.changes == [] && !doc.hasRev)
       case KeyError =>
         !("_user/" <= doc.id) && exists i :: 0 <= i < |doc.changes| - 1 && doc.changes[i] == original[doc.id]
       case _ => false
  }

  lemma FaultAtMeans(original: Outstanding, docs: seq<RespDoc>, k: nat)
    requires k < |docs|
    ensures FaultAt(original, docs[..k], docs[k]).None? <==> forall error :: !Faulty(original, docs, k, error)
    ensures var fault := FaultAt(original, docs[..k], docs[k]); fault.Some? ==> Faulty(original, docs, k, fault.value)
  {
    var before, doc := docs[..k], docs[k];
    UserIdMeans(doc.id);
    MatchedInside(original, docs, k);
    SeqTakenMeans(original, docs, k, doc.seqNum);
    var fault := FaultAt(original, before, doc);
    if fault.Some? {
      assert Faulty(original, docs, k, fault.value);
    }
    forall error
      ensures Faulty(original, docs, k, error) ==> fault.Some?
    {
    }
  }

  lemma SeqTakenMeans(original: Outstanding, docs: seq<RespDoc>, k: nat, n: nat)
    requires k < |docs|
    ensures SeqTaken(original, docs[..k], n) <==>
            exists j :: 0 <= j < k && Matched(original, docs, j) && docs[j].seqNum == n
  {
    var before := docs[..k];
    MatchedInside(original, docs, k);
    if SeqTaken(original, before, n) {
      var j :| 0 <= j < |before| && Matched(original, before, j) && before[j].seqNum == n;
      assert docs[j].seqNum == n && Matched(original, docs, j);
    }
    if j :| 0 <= j < k && Matched(original, docs, j) && docs[j].seqNum == n {
      assert before[j].seqNum == n && Matched(original, before, j);
    }
  }

  lemma MatchedInside(original: Outstanding, docs: seq<RespDoc>, k: nat)
    requires k < |docs|
    ensures Matched(original, docs[..k] + [docs[k]], |docs[..k]|) <==> Matched(original, docs, k)
    ensures forall j :: 0 <= j < k ==> (Matched(original, docs[..k], j) <==> Matched(original, docs, j))
  {
    var upTo := docs[..k] + [docs[k]];
    assert forall j :: 0 <= j <= k ==> upTo[j] == docs[j];
    assert forall j :: 0 <= j < k ==> docs[..k][j] == docs[j];
  }

  /** The cause of an exception in the entries: a first faulty one, or an unexpected one in strict
      mode. */
  ghost predicate Caused(original: Outstanding, strict: bool, docs: seq<RespDoc>, error: Exception) {
    if error == ChangesError then
      && strict && (exists k: nat :: k < |docs| && !Matched(original, docs, k))
      && forall k: nat, e :: k < |docs| ==> !Faulty(original, docs, k, e)
    else
      exists k: nat ::
        Faulty(original, docs, k, error) && forall j: nat, e :: j < k ==> !Faulty(original, docs, j, e)
  }

  lemma AnswerIsCaused(original: Outstanding, strict: bool, docs: seq<RespDoc>, error: Exception)
    requires AnswerEnds(original, strict, docs) == Some(Raise(error))
    ensures Caused(original, strict, docs, error)
  {
    if error == ChangesError {
      NoFaultyEntry(original, docs);
      var k: nat :| k < |docs| && !Matched(original, docs, k);
    } else {
      var k := FirstFaultyEntry(original, docs);
    }
  }

  /** Every exception but the timeout has its cause in the entries that were read. */
  lemma ExceptionMeans(original: Outstanding, strict: bool, server: Server, rounds: nat, used: nat, error: Exception)
    requires EndsWith(original, strict, server, rounds, used, Raise(error)) && error != TimeoutError
    ensures Caused(original, strict, Entries(server, used), error)
  {
    AnswerIsCaused(original, strict, Entries(server, used), error);
  }

  lemma NoFaultyEntry(original: Outstanding, docs: seq<RespDoc>)
    requires FirstFault(original, docs).None?
    ensures forall k: nat, e :: k < |docs| ==> !Faulty(original, docs, k, e)
  {
    forall k: nat, e | k < |docs|
      ensures !Faulty(original, docs, k, e)
    {
      NoFaultInside(original, docs, k);
      FaultAtMeans(original, docs, k);
    }
  }

  lemma {:induction false} FirstFaultyEntry(original: Outstanding, docs: seq<RespDoc>) returns (k: nat)
    requires FirstFault(original, docs).Some?
    ensures Faulty(original, docs, k, FirstFault(original, docs).value)
    ensures forall j: nat, e :: j < k ==> !Faulty(original, docs, j, e)
  {
    var n := |docs| - 1;
    if FirstFault(original, docs[..n]).Some? {
      k := FirstFaultyEntry(original, docs[..n]);
      FaultyInMore(original, docs, n);
    } else {
      k := n;
      FaultAtMeans(original, docs, n);
      NoFaultyEntry(original, docs[..n]);
      FaultyInMore(original, docs, n);
    }
  }

  lemma FaultyInMore(original: Outstanding, docs: seq<RespDoc>, n: nat)
    requires n <= |docs|
    ensures forall j: nat, e :: j < n ==> (Faulty(original, docs[..n], j, e) <==> Faulty(original, docs, j, e))
  {
    var init := docs[..n];
    assert forall j :: 0 <= j < n ==> init[j] == docs[j];
    forall j | 0 <= j < n
      ensures Matched(original, init, j) <==> Matched(original, docs, j)
    {
    }
  }

  // ----- the requests -----

  /** The entries of answers that are asked for along a list of cursors. */
  function Answered(server: Server, cursors: seq<nat>): seq<RespDoc> {
    if cursors == [] then []
    else
      var n := |cursors| - 1;
      Answered(server, cursors[..n])
      + match server(n, cursors[n]) case TimedOut => [] case Response(results, _) => results
  }

  /** The entries are those of all answers: the first request asks since 0, and every other one since
      the last sequence number of the answer before. */
  lemma {:induction false} EntriesAreAnswers(server: Server, n: nat) returns (cursors: seq<nat>)
    requires forall k :: 0 <= k < n ==> server(k, Cursor(server, k)).Response?
    ensures |cursors| == n + 1 && cursors[0] == 0 && cursors[n] == Cursor(server, n)
    ensures forall k :: 0 <= k < n ==>
              server(k, cursors[k]).Response? && server(k, cursors[k]).lastSeq == cursors[k + 1]
    ensures Entries(server, n) == Answered(server, cursors[..n])
  {
    if n == 0 {
      cursors := [0];
    } else {
      var before := EntriesAreAnswers(server, n - 1);
      cursors := before + [Cursor(server, n)];
      assert cursors[..n] == before && before[..n - 1] == cursors[..n][..n - 1];
    }
  }
}
