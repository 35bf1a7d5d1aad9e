/** `parse_multipart_response` of `keywords/MobileRestClient.py`, which finds the documents in
    the multipart answer of a bulk get, and the partition of those documents in `get_bulk_docs`. */
module Multipart {
  import opened Python

  // ----- splitting -----

  /** `s.split("--")` */
  function SplitDashes(s: string): (parts: seq<string>)
    ensures parts != []
  {
    if |s| < 2 then [s]
    else if s[0] == '-' && s[1] == '-' then [""] + SplitDashes(s[2..])
    else
      var rest := SplitDashes(s[1..]);
      [[s[0]] + rest[0]] + rest[1..]
  }

  /** The characters at which `splitlines` ends a line. */
  predicate IsBreak(c: char) {
    var n := c as int;
    10 <= n <= 13 || 28 <= n <= 30 || n == 0x85 || n == 0x2028 || n == 0x2029
  }

  /** `s.splitlines()`; a carriage return and a line feed together are one break. */
  function SplitLines(s: string): seq<string> {
    if s == "" then []
    else if s[0] == '\r' && |s| >= 2 && s[1] == '\n' then [""] + SplitLines(s[2..])
    else if IsBreak(s[0]) then [""] + SplitLines(s[1..])
    else
      var rest := SplitLines(s[1..]);
      if rest == [] then [[s[0]]] else [[s[0]] + rest[0]] + rest[1..]
  }

  predicate OneLine(s: string) {
    forall c :: c in s ==> !IsBreak(c)
  }

  predicate NoDashes(s: string) {
    forall i :: 0 <= i < |s| - 1 ==> !(s[i] == '-' && s[i + 1] == '-')
  }

  // ----- the parser -----

  /** The document in a part, if it has one: its last line, unless it has only two lines or
      the line is no JSON. */
  function DocOf<D>(json: string -> Option<D>, part: string): Option<D> {
    var lines := SplitLines(part);
    if |lines| > 2 then json(lines[|lines| - 1]) else None
  }

  /** The values that a partial function yields, in order. */
  function MapSome<D>(f: string -> Option<D>, parts: seq<string>): seq<D> {
    if parts == [] then []
    else
      var n := |parts| - 1;
      MapSome(f, parts[..n]) + if f(parts[n]).Some? then [f(parts[n]).value] else []
  }

  function Parse<D>(json: string -> Option<D>, response: string): seq<D> {
    MapSome(part => DocOf(json, part), SplitDashes(response))
  }

  method ParseMultipartResponse<D>(json: string -> Option<D>, response: string) returns (rows: seq<D>)
    ensures rows == Parse(json, response)
  {
    rows := [];
    var parts := SplitDashes(response);
    for i := 0 to |parts|
      invariant rows == MapSome(part => DocOf(json, part), parts[..i])
    {
      assert parts[..i + 1][..i] == parts[..i];
      var lines := SplitLines(parts[i]);
      if |lines| > 2 {
        var doc := json(lines[|lines| - 1]);
        if doc.Some? {
          rows := rows + [doc.value];
        }
      }
    }
    assert parts[..|parts|] == parts;
  }

  // ----- the answers that the server renders -----

  const CRLF := "\r\n"
  const HEADER := "Content-Type: application/json"

  /** The head of a body part, up to its document. */
  function Head(boundary: string): string {
    boundary + CRLF + (HEADER + CRLF + CRLF)
  }

  /** One body part behind its dashes (section 5.1.1 of RFC 2046). */
  function RenderPart(boundary: string, doc: string): string {
    Head(boundary) + (doc + CRLF)
  }

  /** The body parts, each behind a delimiter, and the closing delimiter. */
  function Render(boundary: string, docs: seq<string>): string {
    if docs == [] then "--" + (boundary + "--")
    else "--" + RenderPart(boundary, docs[0]) + Render(boundary, docs[1..])
  }

  // ----- lines -----

  lemma {:induction false} SplitFirstLine(line: string, rest: string)
    requires OneLine(line)
    ensures SplitLines(line + CRLF + rest) == [line] + SplitLines(rest)
  {
    var s := line + CRLF + rest;
    if line == "" {
      assert s[2..] == rest;
    } else {
      assert s[1..] == line[1..] + CRLF + rest;
      SplitFirstLine(line[1..], rest);
      assert line == [line[0]] + line[1..];
    }
  }

  /** Every one of these characters ends a line, and a carriage return only together with a line
      feed that follows it. */
  lemma {:induction false} SplitAtBreak(line: string, c: char, rest: string)
    requires OneLine(line) && !(c == '\r' && rest != "" && rest[0] == '\n')
    requires c as int in {0x0A, 0x0B, 0x0C, 0x0D, 0x1C, 0x1D, 0x1E, 0x85, 0x2028, 0x2029}
    ensures SplitLines(line + [c] + rest) == [line] + SplitLines(rest)
  {
    var s := line + [c] + rest;
    if line == "" {
      assert s[0] == c && s[1..] == rest;
    } else {
      assert s[0] == line[0] && s[1..] == line[1..] + [c] + rest;
      SplitAtBreak(line[1..], c, rest);
      assert line == [line[0]] + line[1..];
    }
  }

  lemma {:induction false} SingleLine(s: string)
    requires OneLine(s)
    ensures SplitLines(s) == if s == "" then [] else [s]
  {
    if s != "" {
      assert !IsBreak(s[0]);
      SingleLine(s[1..]);
      assert s == [s[0]] + s[1..];
      if |s| == 1 {
        assert s == [s[0]];
      } else {
        assert SplitLines(s[1..])[1..] == [];
      }
    }
  }

  /** The lines of a part, whatever its header and its body are. */
  lemma BodyLines(boundary: string, header: string, body: string)
    requires OneLine(boundary) && OneLine(header)
    ensures SplitLines(boundary + CRLF + (header + CRLF + (CRLF + body))) == [boundary, header, ""] + SplitLines(body)
  {
    SplitFirstLine("", body);
    assert "" + CRLF + body == CRLF + body;
    SplitFirstLine(header, CRLF + body);
    SplitFirstLine(boundary, header + CRLF + (CRLF + body));
    assert [boundary] + ([header] + ([""] + SplitLines(body))) == [boundary, header, ""] + SplitLines(body);
  }

  lemma LineLines(line: string)
    requires OneLine(line)
    ensures SplitLines(line + CRLF) == [line]
  {
    SplitFirstLine(line, "");
    assert line + CRLF + "" == line + CRLF;
  }

  // ----- parts -----

  lemma NoDashesJoin(a: string, b: string)
    requires NoDashes(a) && NoDashes(b) && (a == "" || b == "" || a[|a| - 1] != '-' || b[0] != '-')
    ensures NoDashes(a + b)
  {
  }

  /** A part that neither contains dashes nor ends in one is split off whole. */
  lemma {:induction false} SplitFirstPart(part: string, rest: string)
    requires NoDashes(part) && (part == "" || part[|part| - 1] != '-')
    ensures SplitDashes(part + "--" + rest) == [part] + SplitDashes(rest)
  {
    var s := part + "--" + rest;
    if part == "" {
      assert s[2..] == rest;
    } else {
      assert s[1..] == part[1..] + "--" + rest;
      assert s[0] == part[0] && s[1] == if |part| == 1 then '-' else part[1];
      SplitFirstPart(part[1..], rest);
      assert part == [part[0]] + part[1..];
    }
  }

  lemma {:induction false} PartsOfOneLine(s: string)
    requires OneLine(s)
    ensures forall i :: 0 <= i < |SplitDashes(s)| ==> OneLine(SplitDashes(s)[i])
  {
    if |s| >= 2 {
      PartsOfOneLine(s[2..]);
      PartsOfOneLine(s[1..]);
    }
  }

  lemma {:induction false} MapSomeAppend<D>(f: string -> Option<D>, a: seq<string>, b: seq<string>)
    ensures MapSome(f, a + b) == MapSome(f, a) + MapSome(f, b)
  {
    if b == [] {
      assert a + b == a;
    } else {
      var n := |b| - 1;
      assert (a + b)[..|a + b| - 1] == a + b[..n];
      MapSomeAppend(f, a, b[..n]);
    }
  }

  lemma MapSomeOne<D>(f: string -> Option<D>, p: string)
    ensures MapSome(f, [p]) == if f(p).Some? then [f(p).value] else []
  {
    assert [p][..0] == [];
  }

  lemma {:induction false} MapSomeNone<D>(f: string -> Option<D>, parts: seq<string>)
    requires forall i :: 0 <= i < |parts| ==> f(parts[i]).None?
    ensures MapSome(f, parts) == []
  {
    if parts != [] {
      MapSomeNone(f, parts[..|parts| - 1]);
    }
  }

  /** What follows the first dashes of a rendered answer. */
  function Behind(boundary: string, docs: seq<string>): string {
    Render(boundary, docs)[2..]
  }

  /** The closing delimiter holds no document. */
  lemma ParseClosing<D>(json: string -> Option<D>, boundary: string)
    requires OneLine(boundary)
    ensures Parse(json, boundary + "--") == []
  {
    var parts := SplitDashes(boundary + "--");
    assert !IsBreak('-');
    PartsOfOneLine(boundary + "--");
    forall i | 0 <= i < |parts|
      ensures DocOf(json, parts[i]).None?
    {
      SingleLine(parts[i]);
    }
    MapSomeNone(part => DocOf(json, part), parts);
  }

  /** A part in front of a delimiter adds its document, if it has one. */
  lemma ParseFirst<D>(json: string -> Option<D>, part: string, rest: string)
    requires NoDashes(part) && (part == "" || part[|part| - 1] != '-')
    ensures Parse(json, part + "--" + rest) ==
            (if DocOf(json, part).Some? then [DocOf(json, part).value] else []) + Parse(json, rest)
  {
    var f := p => DocOf(json, p);
    SplitFirstPart(part, rest);
    MapSomeAppend(f, [part], SplitDashes(rest));
    MapSomeOne(f, part);
  }

  // ----- documents with dashes in them -----

  /** What the parser sees of a document: the text before its first two dashes. */
  function Visible(doc: string): string {
    SplitDashes(doc)[0]
  }

  lemma {:induction false} VisibleWhole(s: string)
    requires NoDashes(s)
    ensures Visible(s) == s
  {
    if |s| >= 2 {
      assert !(s[0] == '-' && s[1] == '-');
      VisibleWhole(s[1..]);
      assert s == [s[0]] + s[1..];
    }
  }

  /** The first two dashes of a text. */
  lemma {:induction false} Cut(s: string) returns (tail: string)
    requires !NoDashes(s)
    ensures s == Visible(s) + "--" + tail && |tail| < |s|
    ensures NoDashes(Visible(s)) && (Visible(s) == "" || Visible(s)[|Visible(s)| - 1] != '-')
  {
    if s[0] == '-' && s[1] == '-' {
      tail := s[2..];
      assert s == "" + "--" + tail;
    } else {
      assert !NoDashes(s[1..]) by {
        var i :| 0 <= i < |s| - 1 && s[i] == '-' && s[i + 1] == '-';
        assert s[1..][i - 1] == '-' && s[1..][i] == '-';
      }
      tail := Cut(s[1..]);
      CutOneMore(s, Visible(s[1..]), tail);
    }
  }

  lemma CutOneMore(s: string, v: string, tail: string)
    requires |s| >= 2 && !(s[0] == '-' && s[1] == '-')
    requires s[1..] == v + "--" + tail && NoDashes(v) && (v == "" || v[|v| - 1] != '-')
    ensures s == ([s[0]] + v) + "--" + tail && NoDashes([s[0]] + v) && ([s[0]] + v)[|v|] != '-'
  {
    assert s == [s[0]] + s[1..];
    assert v != "" ==> s[1..][0] == v[0];
    assert v == "" ==> s[1..][0] == '-';
    NoDashesJoin([s[0]], v);
  }

  lemma PartsOfVisible(doc: string)
    requires OneLine(doc)
    ensures OneLine(Visible(doc))
  {
    PartsOfOneLine(doc);
  }

  lemma HeadText(boundary: string, header: string, text: string)
    ensures boundary + CRLF + (header + CRLF + CRLF) + text == boundary + CRLF + (header + CRLF + (CRLF + text))
  {
  }

  lemma HeaderIsOneLine()
    ensures OneLine(HEADER)
  {
    assert forall i :: 0 <= i < |HEADER| ==> !IsBreak(HEADER[i]);
  }

  lemma LastLine<D>(json: string -> Option<D>, part: string, head: seq<string>, body: seq<string>)
    requires SplitLines(part) == head + body && |head| == 3 && head[2] == "" && |body| <= 1
    ensures DocOf(json, part) == json(if body == [] then "" else body[0])
  {
  }

  lemma DocOfHead<D>(json: string -> Option<D>, boundary: string, text: string)
    requires OneLine(boundary) && |SplitLines(text)| <= 1
    ensures DocOf(json, Head(boundary) + text) == json(if SplitLines(text) == [] then "" else SplitLines(text)[0])
  {
    HeaderIsOneLine();
    HeadText(boundary, HEADER, text);
    BodyLines(boundary, HEADER, text);
    LastLine(json, Head(boundary) + text, [boundary, HEADER, ""], SplitLines(text));
  }

  lemma HeadNoDashes(boundary: string, text: string)
    requires NoDashes(boundary) && NoDashes(text)
    ensures NoDashes(Head(boundary) + text) && Head(boundary)[|Head(boundary)| - 1] == '\n'
  {
    NoDashesJoin(CRLF, text);
    NoDashesJoin(HEADER + CRLF, CRLF + text);
    NoDashesJoin(boundary, CRLF);
    NoDashesJoin(boundary + CRLF, HEADER + CRLF + (CRLF + text));
    HeadText(boundary, HEADER, text);
  }

  lemma LastOf(a: string, b: string)
    requires a != ""
    ensures (a + b)[|a + b| - 1] == if b == "" then a[|a| - 1] else b[|b| - 1]
  {
  }

  /** What follows the first dashes of a document adds nothing, however many dashes it has. */
  lemma {:induction false} TailAddsNothing<D>(json: string -> Option<D>, tail: string, rest: string)
    requires OneLine(tail)
    ensures Parse(json, tail + CRLF + "--" + rest) == Parse(json, rest)
    decreases |tail|
  {
    if NoDashes(tail) {
      NoDashesJoin(tail, CRLF);
      ParseFirst(json, tail + CRLF, rest);
      LineLines(tail);
    } else {
      var head := Visible(tail);
      var tail' := Cut(tail);
      PartsOfVisible(tail);
      SuffixOneLine(tail, head, tail');
      CutInFront(tail, head, tail', CRLF + "--" + rest);
      assert tail + CRLF + "--" + rest == head + "--" + (tail' + CRLF + "--" + rest);
      ParseFirst(json, head, tail' + CRLF + "--" + rest);
      SingleLine(head);
      TailAddsNothing(json, tail', rest);
    }
  }

  lemma SuffixOneLine(s: string, head: string, tail: string)
    requires OneLine(s) && s == head + "--" + tail
    ensures OneLine(tail)
  {
    assert forall i :: 0 <= i < |tail| ==> tail[i] == s[|head| + 2 + i];
  }

  lemma CutInFront(s: string, head: string, tail: string, rest: string)
    requires s == head + "--" + tail
    ensures s + rest == head + "--" + (tail + rest)
  {
  }

  /** A body part adds what is visible of its document, if that is JSON. */
  lemma ParsePart<D>(json: string -> Option<D>, boundary: string, doc: string, rest: string)
    requires OneLine(boundary) && NoDashes(boundary) && OneLine(doc)
    ensures Parse(json, Head(boundary) + (doc + CRLF) + "--" + rest) ==
            (if json(Visible(doc)).Some? then [json(Visible(doc)).value] else []) + Parse(json, rest)
  {
    var part := Head(boundary);
    if NoDashes(doc) {
      VisibleWhole(doc);
      NoDashesJoin(doc, CRLF);
      HeadNoDashes(boundary, doc + CRLF);
      LastOf(part, doc + CRLF);
      ParseFirst(json, part + (doc + CRLF), rest);
      LineLines(doc);
      DocOfHead(json, boundary, doc + CRLF);
    } else {
      var head := Visible(doc);
      var tail := Cut(doc);
      PartsOfVisible(doc);
      SuffixOneLine(doc, head, tail);
      CutPart(part, doc, head, tail, rest);
      HeadNoDashes(boundary, head);
      LastOf(part, head);
      ParseFirst(json, part + head, tail + CRLF + "--" + rest);
      SingleLine(head);
      DocOfHead(json, boundary, head);
      TailAddsNothing(json, tail, rest);
    }
  }

  lemma CutPart(part: string, doc: string, head: string, tail: string, rest: string)
    requires doc == head + "--" + tail
    ensures part + (doc + CRLF) + "--" + rest == (part + head) + "--" + (tail + CRLF + "--" + rest)
  {
  }

  lemma {:induction false} ParseBehind<D>(json: string -> Option<D>, boundary: string, docs: seq<string>)
    requires OneLine(boundary) && NoDashes(boundary) && forall i :: 0 <= i < |docs| ==> OneLine(docs[i])
    ensures Parse(json, Behind(boundary, docs)) == MapSome(doc => json(Visible(doc)), docs)
  {
    if docs == [] {
      assert Behind(boundary, docs) == boundary + "--";
      ParseClosing(json, boundary);
    } else {
      var part, rest := RenderPart(boundary, docs[0]), Behind(boundary, docs[1..]);
      assert Behind(boundary, docs) == part + "--" + rest;
      ParsePart(json, boundary, docs[0], rest);
      ParseBehind(json, boundary, docs[1..]);
      MapSomeFirst(doc => json(Visible(doc)), docs);
    }
  }

  lemma MapSomeFirst<D>(f: string -> Option<D>, parts: seq<string>)
    requires parts != []
    ensures MapSome(f, parts) == (if f(parts[0]).Some? then [f(parts[0]).value] else []) + MapSome(f, parts[1..])
  {
    assert parts == [parts[0]] + parts[1..];
    MapSomeAppend(f, [parts[0]], parts[1..]);
    MapSomeOne(f, parts[0]);
  }

  /** Of a rendered answer the parser sees, in order, the text of each document before its first
      two dashes. */
  lemma ParseRender<D>(json: string -> Option<D>, boundary: string, docs: seq<string>)
    requires OneLine(boundary) && NoDashes(boundary) && forall i :: 0 <= i < |docs| ==> OneLine(docs[i])
    ensures Parse(json, Render(boundary, docs)) == MapSome(doc => json(Visible(doc)), docs)
  {
    var behind := Behind(boundary, docs);
    assert Render(boundary, docs) == "" + "--" + behind;
    ParseFirst(json, "", behind);
    ParseBehind(json, boundary, docs);
  }

  /** An answer of single lines, in which a document is no longer JSON when it is cut at its
      dashes. */
  ghost predicate Answer<D>(json: string -> Option<D>, boundary: string, docs: seq<string>) {
    && OneLine(boundary) && NoDashes(boundary)
    && forall i :: 0 <= i < |docs| ==> OneLine(docs[i]) && (NoDashes(docs[i]) || json(Visible(docs[i])).None?)
  }

  lemma {:induction false} VisibleDocuments<D>(json: string -> Option<D>, docs: seq<string>)
    requires forall i :: 0 <= i < |docs| ==> NoDashes(docs[i]) || json(Visible(docs[i])).None?
    ensures MapSome(doc => json(Visible(doc)), docs) == MapSome(json, Filter(NoDashes, docs))
  {
    if docs != [] {
      var n := |docs| - 1;
      VisibleDocuments(json, docs[..n]);
      var f, kept := doc => json(Visible(doc)), Filter(NoDashes, docs[..n]);
      assert MapSome(f, docs) == MapSome(f, docs[..n]) + if f(docs[n]).Some? then [f(docs[n]).value] else [];
      if NoDashes(docs[n]) {
        VisibleWhole(docs[n]);
        assert Filter(NoDashes, docs) == kept + [docs[n]];
        MapSomeAppend(json, kept, [docs[n]]);
        MapSomeOne(json, docs[n]);
      } else {
        assert Filter(NoDashes, docs) == kept;
      }
    }
  }

  /** Exactly the documents without two dashes in a row come back, in order. */
  lemma DashedDocumentsAreLost<D>(json: string -> Option<D>, boundary: string, docs: seq<string>)
    requires Answer(json, boundary, docs)
    ensures Parse(json, Render(boundary, docs)) == MapSome(json, Filter(NoDashes, docs))
  {
    ParseRender(json, boundary, docs);
    VisibleDocuments(json, docs);
  }

  lemma {:induction false} AllDocuments<D>(json: string -> Option<D>, docs: seq<string>)
    requires forall i :: 0 <= i < |docs| ==> json(docs[i]).Some?
    ensures |MapSome(json, docs)| == |docs|
    ensures forall i :: 0 <= i < |docs| ==> MapSome(json, docs)[i] == json(docs[i]).value
  {
    if docs != [] {
      AllDocuments(json, docs[..|docs| - 1]);
    }
  }

  lemma {:induction false} FilterAll<T>(test: T -> bool, s: seq<T>)
    ensures |Filter(test, s)| == |s| <==> forall i :: 0 <= i < |s| ==> test(s[i])
    ensures |Filter(test, s)| <= |s| && (|Filter(test, s)| == |s| ==> Filter(test, s) == s)
  {
    if s != [] {
      var n := |s| - 1;
      FilterAll(test, s[..n]);
      assert s == s[..n] + [s[n]];
    }
  }

  // ----- dashes in JSON text -----

  /** Where a scan of JSON text stands: between strings, perhaps just behind a dash, in a string,
      or behind a backslash in a string. */
  datatype Lexer = Between(dash: bool) | InString | Escaped

  /** The scan fails at two dashes outside strings, where JSON has only numbers, literals,
      punctuation and space. */
  function Lex(s: string, state: Lexer): Option<Lexer> {
    if s == "" then Some(state)
    else
      match state
      case Between(dash) =>
        if s[0] == '"' then Lex(s[1..], InString)
        else if s[0] != '-' then Lex(s[1..], Between(false))
        else if dash then None else Lex(s[1..], Between(true))
      case InString =>
        if s[0] == '"' then Lex(s[1..], Between(false))
        else if s[0] == '\\' then Lex(s[1..], Escaped) else Lex(s[1..], InString)
      case Escaped => Lex(s[1..], InString)
  }

  /** Every string is closed, and no two dashes stand outside strings. */
  predicate Lexical(s: string) {
    var end := Lex(s, Between(false));
    end.Some? && end.value.Between?
  }

  /** A reader that accepts only texts with this property, as every reader of JSON does. */
  ghost predicate ReadsJson<D(!new)>(json: string -> Option<D>) {
    forall text :: json(text).Some? ==> Lexical(text)
  }

  lemma {:induction false} LexAppend(a: string, b: string, state: Lexer)
    ensures Lex(a + b, state) == if Lex(a, state).None? then None else Lex(b, Lex(a, state).value)
  {
    if a == "" {
      assert a + b == b;
    } else {
      assert (a + b)[0] == a[0] && (a + b)[1..] == a[1..] + b;
      forall next {
        LexAppend(a[1..], b, next);
      }
    }
  }

  lemma DashesBetween(tail: string, dash: bool)
    ensures Lex("--" + tail, Between(dash)).None?
  {
    assert ("--" + tail)[1..] == "-" + tail;
  }

  /** JSON text is never JSON in front of its first two dashes, because these stand in a string,
      which is then left open. */
  lemma CutIsNoJson<D(!new)>(json: string -> Option<D>, doc: string)
    requires ReadsJson(json) && json(doc).Some? && !NoDashes(doc)
    ensures json(Visible(doc)).None?
  {
    var head := Visible(doc);
    var tail := Cut(doc);
    assert doc == head + ("--" + tail);
    LexAppend(head, "--" + tail, Between(false));
    DashesBetween(tail, true);
    DashesBetween(tail, false);
    assert !Lexical(head);
  }

  /** All JSON documents come back, in order, if and only if none has two dashes in a row. */
  lemma AllComeBack<D(!new)>(json: string -> Option<D>, boundary: string, docs: seq<string>)
    requires ReadsJson(json) && OneLine(boundary) && NoDashes(boundary)
    requires forall i :: 0 <= i < |docs| ==> OneLine(docs[i]) && json(docs[i]).Some?
    ensures |Parse(json, Render(boundary, docs))| == |docs| <==> forall i :: 0 <= i < |docs| ==> NoDashes(docs[i])
    ensures |Parse(json, Render(boundary, docs))| == |docs| ==>
              forall i :: 0 <= i < |docs| ==> Parse(json, Render(boundary, docs))[i] == json(docs[i]).value
  {
    var kept := Filter(NoDashes, docs);
    forall i | 0 <= i < |docs| && !NoDashes(docs[i]) {
      CutIsNoJson(json, docs[i]);
    }
    DashedDocumentsAreLost(json, boundary, docs);
    FilterMembers(NoDashes, docs);
    forall i | 0 <= i < |kept|
      ensures json(kept[i]).Some?
    {
      assert kept[i] in kept;
    }
    AllDocuments(json, kept);
    FilterAll(NoDashes, docs);
  }

  // ----- get_bulk_docs -----

  /** Splits the rows into documents and errors, each in order and none lost. */
  method SplitBulkDocs<D(==)>(rows: seq<D>, isError: D -> bool, validate: bool) returns (r: Outcome<(seq<D>, seq<D>)>)
    ensures r.Raise? <==> validate && exists row :: row in rows && isError(row)
    ensures r.Raise? ==> r.error == RestError
    ensures r.Return? ==>
              && r.value.0 == Reject(isError, rows) && r.value.1 == Filter(isError, rows)
              && |r.value.0| + |r.value.1| == |rows|
              && forall row :: row in rows ==> if isError(row) then row in r.value.1 else row in r.value.0
  {
    var docs, errors: seq<D> := [], [];
    for i := 0 to |rows|
      invariant docs == Reject(isError, rows[..i]) && errors == Filter(isError, rows[..i])
    {
      assert rows[..i + 1][..i] == rows[..i];
      if isError(rows[i]) {
        errors := errors + [rows[i]];
      } else {
        docs := docs + [rows[i]];
      }
    }
    assert rows[..|rows|] == rows;
    FilterConserves(isError, rows);
    FilterMembers(isError, rows);
    assert |errors| > 0 ==> errors[0] in errors;
    if |errors| > 0 && validate {
      return Raise(RestError);
    }
    r := Return((docs, errors));
  }
}
