/** The tagged text format of `CBLClient/ValueSerializer.py`. A nested value is a JSON object
    or array of texts that are themselves encoded, so the escaping nests with the value. */
module ValueCodec {
  import opened Python
  import opened OrderedDict
  import Json

  /** A float by its IEEE 754 bit pattern; `FloatText` says how it is written. */
  type Float64 = n: int | 0 <= n < 0x1_0000_0000_0000_0000

  /** Python's `str` and `float` on floats. */
  datatype FloatText = FloatText(show: Float64 -> string, read: string -> Outcome<Float64>)

  /** The Python values given to `serialize`. A `Bytes` holds its decoded text. */
  datatype Value =
    | Null
    | Bool(b: bool)
    | Int(i: int)
    | Float(f: Float64)
    | Str(s: string)
    | Pointer(address: string)
    | Bytes(text: string)
    | List(items: seq<Value>)
    | Dict(entries: seq<Entry<Value>>)

  const LONG_SUFFIX := ",LONGTYPE"

  // ----- the codec as functions -----

  function EncodeStr(s: string): string {
    if s == "None" then "null"
    else if EndsWith(s, LONG_SUFFIX) then "L" + SplitOn(s, ',')[0]
    else "\"" + s + "\""
  }

  function Encode(ft: FloatText, v: Value): Outcome<string>
    decreases v, 1
  {
    match v
    case Null => Return("null")
    case Pointer(a) => Return(a)
    case Str(s) => Return(EncodeStr(s))
    case Bool(b) => Return(if b then "true" else "false")
    case Int(i) => Return(if -1000000 < i < 1000000 then "I" + ShowInt(i) else "L" + ShowInt(i))
    case Float(f) => Return("F" + ft.show(f))
    case Dict(entries) =>
      var texts :- EncodeEntries(ft, entries);
      Return(Json.DumpObject(texts))
    case List(items) =>
      var texts :- EncodeItems(ft, items);
      Return(Json.DumpArray(texts))
    case Bytes(_) => Raise(RuntimeError)
  }

  function EncodeItems(ft: FloatText, items: seq<Value>): (r: Outcome<seq<string>>)
    ensures r.Return? ==> |r.value| == |items|
    decreases items, 0
  {
    if items == [] then Return([])
    else
      var n := |items| - 1;
      var texts :- EncodeItems(ft, items[..n]);
      var text :- Encode(ft, items[n]);
      Return(texts + [text])
  }

  /** In a dict, and only there, bytes are decoded before they are encoded. */
  function EncodeDictValue(ft: FloatText, v: Value): Outcome<string>
    decreases v, 2
  {
    if v.Bytes? then Return(EncodeStr(v.text)) else Encode(ft, v)
  }

  function EncodeEntries(ft: FloatText, entries: seq<Entry<Value>>): (r: Outcome<seq<Entry<string>>>)
    ensures r.Return? ==> |r.value| == |entries| && forall i :: 0 <= i < |entries| ==> r.value[i].key == entries[i].key
    decreases entries, 0
  {
    if entries == [] then Return([])
    else
      var n := |entries| - 1;
      var texts :- EncodeEntries(ft, entries[..n]);
      var text :- EncodeDictValue(ft, entries[n].value);
      Return(texts + [Entry(entries[n].key, text)])
  }

  function Decode(ft: FloatText, s: string): Outcome<Value>
    decreases |s|, 2, 0
  {
    if s == "" || s == "null" then Return(Null)
    else if StartsWith(s, "PK") then Return(Str(s))
    else if StartsWith(s, "@") || StartsWith(s, "\"@") then Return(Pointer(s))
    else if s[0] == '"' && s[|s| - 1] == '"' then Return(Str(Unquoted(s)))
    else if s == "true" then Return(Bool(true))
    else if s == "false" then Return(Bool(false))
    else if s[0] == 'I' || s[0] == 'L' then DecodeInt(s[1..])
    else if s[0] == 'F' || s[0] == 'D' then DecodeFloat(ft, s[1..])
    else if s[0] == '#' then
      if '.' in s then DecodeFloat(ft, s[1..]) else DecodeInt(s[1..])
    else if s[0] == '{' then DecodeObject(ft, s)
    else if s[0] == '[' then DecodeArray(ft, s)
    else Raise(RuntimeError)
  }

  function DecodeObject(ft: FloatText, s: string): Outcome<Value>
    decreases |s|, 1, 0
  {
    match Json.LoadObject(s)
    case None => Raise(ValueError)
    case Some(texts) =>
      var entries :- DecodeEntries(ft, texts, |s|);
      Return(Dict(entries))
  }

  function DecodeArray(ft: FloatText, s: string): Outcome<Value>
    decreases |s|, 1, 0
  {
    match Json.LoadArray(s)
    case None => Raise(ValueError)
    case Some(texts) =>
      var items :- DecodeItems(ft, texts, |s|);
      Return(List(items))
  }

  /** `s[1:-1]`, which is empty for a single character. */
  function Unquoted(s: string): string
    requires s != ""
  {
    if |s| == 1 then "" else s[1..|s| - 1]
  }

  function DecodeInt(s: string): Outcome<Value> {
    var i :- ParseInt(s);
    Return(Int(i))
  }

  function DecodeFloat(ft: FloatText, s: string): Outcome<Value> {
    var f :- ft.read(s);
    Return(Float(f))
  }

  /** All texts are shorter than the text they were read from. */
  ghost predicate Below(texts: seq<string>, bound: nat) {
    forall i :: 0 <= i < |texts| ==> |texts[i]| < bound
  }

  ghost predicate ValuesBelow(texts: seq<Entry<string>>, bound: nat) {
    forall i :: 0 <= i < |texts| ==> |texts[i].value| < bound
  }

  function DecodeItems(ft: FloatText, texts: seq<string>, bound: nat): (r: Outcome<seq<Value>>)
    requires Below(texts, bound)
    ensures r.Return? ==> |r.value| == |texts|
    decreases bound, 0, |texts|
  {
    if texts == [] then Return([])
    else
      var n := |texts| - 1;
      var items :- DecodeItems(ft, texts[..n], bound);
      var item :- Decode(ft, texts[n]);
      Return(items + [item])
  }

  function DecodeEntries(ft: FloatText, texts: seq<Entry<string>>, bound: nat): (r: Outcome<seq<Entry<Value>>>)
    requires ValuesBelow(texts, bound)
    decreases bound, 0, |texts|
  {
    if texts == [] then Return([])
    else
      var n := |texts| - 1;
      var entries :- DecodeEntries(ft, texts[..n], bound);
      var v :- Decode(ft, texts[n].value);
      Return(Put(entries, texts[n].key, v))
  }

  // ----- when the round trip holds -----

  /** Strings that come back as themselves. */
  predicate PlainText(s: string) {
    s != "None" && !EndsWith(s, LONG_SUFFIX) && !StartsWith(s, "@")
  }

  /** Values that come back as themselves; a caller can check this before sending. */
  predicate Supported(ft: FloatText, v: Value) {
    match v
    case Null => true
    case Bool(_) => true
    case Int(_) => true
    case Float(f) => ft.read(ft.show(f)) == Return(f)
    case Str(s) => PlainText(s)
    case Pointer(a) => StartsWith(a, "@") || StartsWith(a, "\"@")
    case Bytes(_) => false
    case List(items) => forall i :: 0 <= i < |items| ==> Supported(ft, items[i])
    case Dict(entries) => forall i :: 0 <= i < |entries| ==> Supported(ft, entries[i].value)
  }

  /** What Python guarantees of every dict: no key twice. */
  ghost predicate WellFormed(v: Value) {
    match v
    case List(items) => forall i :: 0 <= i < |items| ==> WellFormed(items[i])
    case Dict(entries) =>
      DistinctKeys(entries) && forall i :: 0 <= i < |entries| ==> WellFormed(entries[i].value)
    case _ => true
  }

  ghost predicate RoundTrips(ft: FloatText, v: Value) {
    var t := Encode(ft, v);
    t.Return? && Decode(ft, t.value) == Return(v)
  }

  /** The first character decides how a text that is not quoted and not a literal is decoded. */
  lemma DecodeByTag(ft: FloatText, s: string)
    requires s != ""
    ensures s[0] == 'I' || s[0] == 'L' ==> Decode(ft, s) == DecodeInt(s[1..])
    ensures s[0] == 'F' ==> Decode(ft, s) == DecodeFloat(ft, s[1..])
    ensures s[0] == '{' ==> Decode(ft, s) == DecodeObject(ft, s)
    ensures s[0] == '[' ==> Decode(ft, s) == DecodeArray(ft, s)
    ensures s[0] == '"' && |s| >= 2 && s[|s| - 1] == '"' ==>
              Decode(ft, s) == if s[1] == '@' then Return(Pointer(s)) else Return(Str(s[1..|s| - 1]))
    ensures Decode(ft, s) == Return(Pointer(s)) <==> StartsWith(s, "@") || StartsWith(s, "\"@")
  {
  }

  lemma BoolRoundTrip(ft: FloatText)
    ensures RoundTrips(ft, Bool(true)) && RoundTrips(ft, Bool(false))
  {
    assert "true"[0] == 't' && "false"[0] == 'f';
  }

  lemma IntRoundTrip(ft: FloatText, i: int)
    ensures RoundTrips(ft, Int(i))
  {
    var t := Encode(ft, Int(i)).value;
    assert t[1..] == ShowInt(i);
    DecodeByTag(ft, t);
    ParseShowInt(i);
  }

  lemma QuotedRoundTrip(ft: FloatText, s: string, t: string)
    requires t == "\"" + s + "\""
    ensures Decode(ft, t) == Return(Str(s)) <==> !StartsWith(s, "@")
  {
    DecodeByTag(ft, t);
    assert t[1..|t| - 1] == s;
    assert t[1] == if s == "" then '"' else s[0];
  }

  lemma StrRoundTrip(ft: FloatText, s: string)
    ensures RoundTrips(ft, Str(s)) <==> PlainText(s)
  {
    var t := EncodeStr(s);
    if s == "None" {
      assert Decode(ft, "null") == Return(Null);
    } else if EndsWith(s, LONG_SUFFIX) {
      DecodeByTag(ft, t);
    } else {
      QuotedRoundTrip(ft, s, t);
    }
  }

  lemma PointerRoundTrip(ft: FloatText, a: string)
    ensures RoundTrips(ft, Pointer(a)) <==> StartsWith(a, "@") || StartsWith(a, "\"@")
  {
    if a != "" {
      DecodeByTag(ft, a);
    }
  }

  lemma FloatRoundTrip(ft: FloatText, f: Float64)
    ensures RoundTrips(ft, Float(f)) <==> ft.read(ft.show(f)) == Return(f)
  {
    var t := "F" + ft.show(f);
    DecodeByTag(ft, t);
    assert t[1..] == ft.show(f);
  }

  /** What `Args.setLong` stores for an integer. */
  function SetLong(n: int): Value {
    Str(ShowInt(n) + LONG_SUFFIX)
  }

  lemma DecodeLong(ft: FloatText, n: int)
    ensures Decode(ft, "L" + ShowInt(n)) == Return(Int(n))
  {
    var t := "L" + ShowInt(n);
    DecodeByTag(ft, t);
    assert t[1..] == ShowInt(n);
    ParseShowInt(n);
  }

  lemma EncodeLong(s: string)
    requires ',' !in s
    ensures EncodeStr(s + LONG_SUFFIX) == "L" + s
  {
    var text := s + LONG_SUFFIX;
    assert text[|text| - |LONG_SUFFIX|..] == LONG_SUFFIX;
    assert text == s + [','] + "LONGTYPE";
    SplitHead(s, ',', "LONGTYPE");
    assert ',' in text && ',' !in "None";
  }

  /** A long passed through `Args.setLong` comes back as the same integer. */
  lemma SetLongRoundTrip(ft: FloatText, n: int)
    ensures Encode(ft, SetLong(n)) == Return("L" + ShowInt(n))
    ensures Decode(ft, "L" + ShowInt(n)) == Return(Int(n))
  {
    assert forall c :: c in ShowInt(n) ==> IsDigit(c) || c == '-';
    EncodeLong(ShowInt(n));
    DecodeLong(ft, n);
  }

  /** The main result: a value comes back through every level of nesting and escaping
      exactly when all of its parts are supported. */
  lemma {:induction false} RoundTrip(ft: FloatText, v: Value)
    requires WellFormed(v)
    ensures RoundTrips(ft, v) <==> Supported(ft, v)
    decreases v, 2
  {
    match v
    case Null =>
    case Bool(_) => BoolRoundTrip(ft);
    case Int(i) => IntRoundTrip(ft, i);
    case Float(f) => FloatRoundTrip(ft, f);
    case Str(s) => StrRoundTrip(ft, s);
    case Pointer(a) => PointerRoundTrip(ft, a);
    case Bytes(_) =>
    case List(items) => ListRoundTrip(ft, items);
    case Dict(entries) => DictRoundTrip(ft, entries);
  }

  /** Encoding and decoding a list is encoding and decoding its items: first if all of them
      come back, then for one item of a list that came back. */
  lemma {:induction false} ItemsComeBack(ft: FloatText, items: seq<Value>)
    requires forall i :: 0 <= i < |items| ==> RoundTrips(ft, items[i])
    ensures var texts := EncodeItems(ft, items);
            texts.Return? && forall bound: nat :: Below(texts.value, bound) ==>
                               DecodeItems(ft, texts.value, bound) == Return(items)
  {
    if items != [] {
      var n := |items| - 1;
      var init, last := items[..n], items[n];
      ItemsComeBack(ft, init);
      assert RoundTrips(ft, last) && items == init + [last];
      var texts, text := EncodeItems(ft, init).value, Encode(ft, last).value;
      assert (texts + [text])[..n] == texts;
      assert EncodeItems(ft, items) == Return(texts + [text]);
      forall bound: nat | Below(texts + [text], bound)
        ensures DecodeItems(ft, texts + [text], bound) == Return(items)
      {
        assert Below(texts, bound);
      }
    }
  }

  lemma {:induction false} ItemCameBack(ft: FloatText, items: seq<Value>, bound: nat, k: nat)
    requires EncodeItems(ft, items).Return? && Below(EncodeItems(ft, items).value, bound) && k < |items|
    requires DecodeItems(ft, EncodeItems(ft, items).value, bound) == Return(items)
    ensures RoundTrips(ft, items[k])
  {
    var n := |items| - 1;
    var init, last := items[..n], items[n];
    var texts, text := EncodeItems(ft, init).value, Encode(ft, last).value;
    assert EncodeItems(ft, items) == Return(texts + [text]) && (texts + [text])[..n] == texts;
    var decoded, item := DecodeItems(ft, texts, bound).value, Decode(ft, text).value;
    assert DecodeItems(ft, texts + [text], bound) == Return(decoded + [item]);
    assert decoded == (decoded + [item])[..n] == init;
    if k < n {
      ItemCameBack(ft, init, bound, k);
    }
  }

  lemma {:induction false} ListRoundTrip(ft: FloatText, items: seq<Value>)
    requires forall i :: 0 <= i < |items| ==> WellFormed(items[i])
    ensures RoundTrips(ft, List(items)) <==> forall i :: 0 <= i < |items| ==> Supported(ft, items[i])
    decreases items, 1
  {
    forall i | 0 <= i < |items|
      ensures RoundTrips(ft, items[i]) <==> Supported(ft, items[i])
    {
      RoundTrip(ft, items[i]);
    }
    if RoundTrips(ft, List(items)) {
      ListCameBack(ft, items, Encode(ft, List(items)).value);
    } else if forall i :: 0 <= i < |items| ==> RoundTrips(ft, items[i]) {
      ListComesBack(ft, items);
    }
  }

  /** A text that holds an array decodes to a list exactly if its texts decode to the items. */
  lemma ArrayDecodes(ft: FloatText, s: string, texts: seq<string>, items: seq<Value>)
    requires s != "" && s[0] == '[' && Json.LoadArray(s) == Some(texts)
    ensures Below(texts, |s|)
    ensures Decode(ft, s) == Return(List(items)) <==> DecodeItems(ft, texts, |s|) == Return(items)
  {
    DecodeByTag(ft, s);
  }

  lemma ListComesBack(ft: FloatText, items: seq<Value>)
    requires forall i :: 0 <= i < |items| ==> RoundTrips(ft, items[i])
    ensures RoundTrips(ft, List(items))
  {
    ItemsComeBack(ft, items);
    var texts := EncodeItems(ft, items).value;
    Json.ArrayRoundTrip(texts);
    ArrayDecodes(ft, Json.DumpArray(texts), texts, items);
  }

  /** The text of a list, and the texts in it. */
  lemma ListTexts(ft: FloatText, items: seq<Value>, s: string) returns (texts: seq<string>)
    requires Encode(ft, List(items)) == Return(s)
    ensures EncodeItems(ft, items) == Return(texts) && s != "" && s[0] == '[' && Json.LoadArray(s) == Some(texts)
  {
    texts := EncodeItems(ft, items).value;
    Json.ArrayRoundTrip(texts);
  }

  lemma ListCameBack(ft: FloatText, items: seq<Value>, s: string)
    requires Encode(ft, List(items)) == Return(s) && Decode(ft, s) == Return(List(items))
    ensures forall i :: 0 <= i < |items| ==> RoundTrips(ft, items[i])
  {
    var texts := ListTexts(ft, items, s);
    ArrayDecodes(ft, s, texts, items);
    forall i | 0 <= i < |items|
      ensures RoundTrips(ft, items[i])
    {
      ItemCameBack(ft, items, |s|, i);
    }
  }

  ghost predicate SameKeys(entries: seq<Entry<Value>>, texts: seq<Entry<string>>) {
    |entries| == |texts| && forall i :: 0 <= i < |texts| ==> entries[i].key == texts[i].key
  }

  /** A further key is new, because no key is written twice. */
  lemma PutNextKey(entries: seq<Entry<Value>>, texts: seq<Entry<string>>, v: Value)
    requires texts != [] && DistinctKeys(texts) && SameKeys(entries, texts[..|texts| - 1])
    ensures var n := |texts| - 1;
            var r := entries + [Entry(texts[n].key, v)];
            Put(entries, texts[n].key, v) == r && SameKeys(r, texts)
  {
    PutNewKey(entries, texts[|texts| - 1].key, v);
  }

  /** Decoding keeps the keys. */
  lemma {:induction false} DecodedKeys(ft: FloatText, texts: seq<Entry<string>>, bound: nat)
    requires DistinctKeys(texts) && ValuesBelow(texts, bound)
    ensures DecodeEntries(ft, texts, bound).Return? ==> SameKeys(DecodeEntries(ft, texts, bound).value, texts)
  {
    if texts != [] {
      var n := |texts| - 1;
      var r, v := DecodeEntries(ft, texts[..n], bound), Decode(ft, texts[n].value);
      if r.Return? && v.Return? {
        DecodedKeys(ft, texts[..n], bound);
        PutNextKey(r.value, texts, v.value);
      }
    }
  }

  lemma DecodeEntriesLast(ft: FloatText, texts: seq<Entry<string>>, bound: nat)
    requires DistinctKeys(texts) && texts != [] && ValuesBelow(texts, bound)
    ensures var n := |texts| - 1;
            var r, v := DecodeEntries(ft, texts[..n], bound), Decode(ft, texts[n].value);
            r.Return? && v.Return? ==>
              DecodeEntries(ft, texts, bound) == Return(r.value + [Entry(texts[n].key, v.value)])
  {
    var n := |texts| - 1;
    var r, v := DecodeEntries(ft, texts[..n], bound), Decode(ft, texts[n].value);
    if r.Return? && v.Return? {
      DecodedKeys(ft, texts[..n], bound);
      PutNextKey(r.value, texts, v.value);
    }
  }

  /** A value that a dict holds comes back. */
  ghost predicate EntryReturns(ft: FloatText, e: Entry<Value>) {
    var t := EncodeDictValue(ft, e.value);
    t.Return? && Decode(ft, t.value) == Return(e.value)
  }

  lemma EntrySupported(ft: FloatText, e: Entry<Value>)
    requires WellFormed(e.value)
    ensures EntryReturns(ft, e) <==> Supported(ft, e.value)
    decreases e, 3
  {
    if !e.value.Bytes? {
      RoundTrip(ft, e.value);
    }
  }

  lemma EncodeEntriesAppend(ft: FloatText, init: seq<Entry<Value>>, e: Entry<Value>, texts: seq<Entry<string>>)
    requires EncodeEntries(ft, init) == Return(texts) && EncodeDictValue(ft, e.value).Return?
    ensures EncodeEntries(ft, init + [e]) == Return(texts + [Entry(e.key, EncodeDictValue(ft, e.value).value)])
  {
    assert (init + [e])[..|init|] == init;
  }

  lemma DecodeEntriesAppend(ft: FloatText, texts: seq<Entry<string>>, text: Entry<string>, bound: nat,
                            entries: seq<Entry<Value>>)
    requires ValuesBelow(texts, bound) && ValuesBelow(texts + [text], bound)
    requires DecodeEntries(ft, texts, bound) == Return(entries) && Decode(ft, text.value).Return?
    ensures DecodeEntries(ft, texts + [text], bound) == Return(Put(entries, text.key, Decode(ft, text.value).value))
  {
    assert (texts + [text])[..|texts|] == texts;
  }

  lemma InitAndLast(entries: seq<Entry<Value>>)
    requires entries != []
    ensures entries == entries[..|entries| - 1] + [entries[|entries| - 1]]
  {
  }

  lemma ValuesBelowInit(texts: seq<Entry<string>>, text: Entry<string>, bound: nat)
    requires ValuesBelow(texts + [text], bound)
    ensures ValuesBelow(texts, bound)
  {
    assert forall i :: 0 <= i < |texts| ==> texts[i] == (texts + [text])[i];
  }

  lemma {:induction false} EntriesComeBack(ft: FloatText, entries: seq<Entry<Value>>)
    requires DistinctKeys(entries) && forall i :: 0 <= i < |entries| ==> EntryReturns(ft, entries[i])
    ensures var texts := EncodeEntries(ft, entries);
            texts.Return? && forall bound: nat :: ValuesBelow(texts.value, bound) ==>
                               DecodeEntries(ft, texts.value, bound) == Return(entries)
  {
    if entries != [] {
      var n := |entries| - 1;
      var init, last := entries[..n], entries[n];
      EntriesComeBack(ft, init);
      InitAndLast(entries);
      assert EntryReturns(ft, last);
      PutNewKey(init, last.key, last.value);
      var texts, text := EncodeEntries(ft, init).value, Entry(last.key, EncodeDictValue(ft, last.value).value);
      EncodeEntriesAppend(ft, init, last, texts);
      forall bound: nat | ValuesBelow(texts + [text], bound)
        ensures DecodeEntries(ft, texts + [text], bound) == Return(entries)
      {
        ValuesBelowInit(texts, text, bound);
        DecodeEntriesAppend(ft, texts, text, bound, init);
      }
    }
  }

  /** If the texts decode to entries, all but the last decode to all but the last. */
  lemma LastCameBack(ft: FloatText, texts: seq<Entry<string>>, bound: nat, entries: seq<Entry<Value>>)
    requires DistinctKeys(texts) && texts != [] && ValuesBelow(texts, bound)
    requires DecodeEntries(ft, texts, bound) == Return(entries)
    ensures var n := |texts| - 1;
            && |entries| == n + 1 && DecodeEntries(ft, texts[..n], bound) == Return(entries[..n])
            && Decode(ft, texts[n].value) == Return(entries[n].value)
  {
    var n := |texts| - 1;
    var init, v := DecodeEntries(ft, texts[..n], bound).value, Decode(ft, texts[n].value).value;
    DecodedKeys(ft, texts, bound);
    DecodeEntriesLast(ft, texts, bound);
    SplitLast(entries, init, Entry(texts[n].key, v));
  }

  lemma {:induction false} EntryCameBack(ft: FloatText, entries: seq<Entry<Value>>, texts: seq<Entry<string>>,
                                         bound: nat, k: nat)
    requires DistinctKeys(entries) && DistinctKeys(texts) && k < |entries| == |texts|
    requires EncodeEntries(ft, entries) == Return(texts) && ValuesBelow(texts, bound)
    requires DecodeEntries(ft, texts, bound) == Return(entries)
    ensures EntryReturns(ft, entries[k])
  {
    var n := |entries| - 1;
    EncodeEntriesLast(ft, entries);
    LastCameBack(ft, texts, bound, entries);
    if k < n {
      EntryCameBack(ft, entries[..n], texts[..n], bound, k);
    }
  }

  lemma EncodeEntriesLast(ft: FloatText, entries: seq<Entry<Value>>)
    requires entries != [] && EncodeEntries(ft, entries).Return?
    ensures var n, all := |entries| - 1, EncodeEntries(ft, entries).value;
            && EncodeEntries(ft, entries[..n]) == Return(all[..n]) && all[n].key == entries[n].key
            && EncodeDictValue(ft, entries[n].value) == Return(all[n].value)
  {
    var n := |entries| - 1;
    var texts := EncodeEntries(ft, entries[..n]).value;
    var text := Entry(entries[n].key, EncodeDictValue(ft, entries[n].value).value);
    assert EncodeEntries(ft, entries).value == texts + [text];
  }

  lemma SplitLast(entries: seq<Entry<Value>>, init: seq<Entry<Value>>, last: Entry<Value>)
    requires entries == init + [last]
    ensures init == entries[..|entries| - 1] && last == entries[|entries| - 1]
  {
  }

  /** A text that holds an object decodes to a dict exactly if its texts decode to the entries. */
  lemma ObjectDecodes(ft: FloatText, s: string, texts: seq<Entry<string>>, entries: seq<Entry<Value>>)
    requires s != "" && s[0] == '{' && Json.LoadObject(s) == Some(texts)
    ensures ValuesBelow(texts, |s|)
    ensures Decode(ft, s) == Return(Dict(entries)) <==> DecodeEntries(ft, texts, |s|) == Return(entries)
  {
    DecodeByTag(ft, s);
  }

  lemma DictComesBack(ft: FloatText, entries: seq<Entry<Value>>)
    requires DistinctKeys(entries) && forall i :: 0 <= i < |entries| ==> EntryReturns(ft, entries[i])
    ensures RoundTrips(ft, Dict(entries))
  {
    EntriesComeBack(ft, entries);
    var texts := EncodeEntries(ft, entries).value;
    SameKeysDistinct(entries, texts);
    Json.ObjectRoundTrip(texts);
    ObjectDecodes(ft, Json.DumpObject(texts), texts, entries);
  }

  lemma DictEncoding(ft: FloatText, entries: seq<Entry<Value>>, s: string) returns (texts: seq<Entry<string>>)
    requires DistinctKeys(entries) && Encode(ft, Dict(entries)) == Return(s)
    ensures EncodeEntries(ft, entries) == Return(texts) && s == Json.DumpObject(texts) && DistinctKeys(texts)
  {
    texts := EncodeEntries(ft, entries).value;
    SameKeysDistinct(entries, texts);
  }

  /** The text of a dict, and the texts in it. */
  lemma DictTexts(ft: FloatText, entries: seq<Entry<Value>>, s: string) returns (texts: seq<Entry<string>>)
    requires DistinctKeys(entries) && Encode(ft, Dict(entries)) == Return(s)
    ensures EncodeEntries(ft, entries) == Return(texts) && s != "" && s[0] == '{' && Json.LoadObject(s) == Some(texts)
  {
    texts := DictEncoding(ft, entries, s);
    Json.HoldsObject(texts, s);
  }

  lemma SameKeysDistinct(entries: seq<Entry<Value>>, texts: seq<Entry<string>>)
    requires DistinctKeys(entries) && |entries| == |texts|
    requires forall i :: 0 <= i < |entries| ==> texts[i].key == entries[i].key
    ensures DistinctKeys(texts)
  {
  }

  lemma DictCameBack(ft: FloatText, entries: seq<Entry<Value>>, s: string)
    requires DistinctKeys(entries) && Encode(ft, Dict(entries)) == Return(s) && Decode(ft, s) == Return(Dict(entries))
    ensures forall i :: 0 <= i < |entries| ==> EntryReturns(ft, entries[i])
  {
    var texts := DictTexts(ft, entries, s);
    ObjectDecodes(ft, s, texts, entries);
    SameKeysDistinct(entries, texts);
    forall i | 0 <= i < |entries|
      ensures EntryReturns(ft, entries[i])
    {
      EntryCameBack(ft, entries, texts, |s|, i);
    }
  }

  lemma {:induction false} DictRoundTrip(ft: FloatText, entries: seq<Entry<Value>>)
    requires DistinctKeys(entries) && forall i :: 0 <= i < |entries| ==> WellFormed(entries[i].value)
    ensures RoundTrips(ft, Dict(entries)) <==> forall i :: 0 <= i < |entries| ==> Supported(ft, entries[i].value)
    decreases entries, 1
  {
    forall i | 0 <= i < |entries|
      ensures EntryReturns(ft, entries[i]) <==> Supported(ft, entries[i].value)
    {
      EntrySupported(ft, entries[i]);
    }
    if RoundTrips(ft, Dict(entries)) {
      DictCameBack(ft, entries, Encode(ft, Dict(entries)).value);
    } else if forall i :: 0 <= i < |entries| ==> EntryReturns(ft, entries[i]) {
      DictComesBack(ft, entries);
    }
  }

  // ----- the codec as the loops that compute it -----

  lemma {:induction false} EncodeItemsStops(ft: FloatText, items: seq<Value>, k: nat)
    requires k <= |items| && EncodeItems(ft, items[..k]).Raise?
    ensures EncodeItems(ft, items) == EncodeItems(ft, items[..k])
  {
    var n := |items| - 1;
    if k <= n {
      assert items[..n][..k] == items[..k];
      EncodeItemsStops(ft, items[..n], k);
    } else {
      assert items[..k] == items;
    }
  }

  lemma {:induction false} EncodeEntriesStops(ft: FloatText, entries: seq<Entry<Value>>, k: nat)
    requires k <= |entries| && EncodeEntries(ft, entries[..k]).Raise?
    ensures EncodeEntries(ft, entries) == EncodeEntries(ft, entries[..k])
  {
    var n := |entries| - 1;
    if k <= n {
      assert entries[..n][..k] == entries[..k];
      EncodeEntriesStops(ft, entries[..n], k);
    } else {
      assert entries[..k] == entries;
    }
  }

  lemma {:induction false} DecodeItemsStops(ft: FloatText, texts: seq<string>, bound: nat, k: nat)
    requires Below(texts, bound)
    requires k <= |texts| && DecodeItems(ft, texts[..k], bound).Raise?
    ensures DecodeItems(ft, texts, bound) == DecodeItems(ft, texts[..k], bound)
  {
    var n := |texts| - 1;
    if k <= n {
      assert texts[..n][..k] == texts[..k];
      DecodeItemsStops(ft, texts[..n], bound, k);
    } else {
      assert texts[..k] == texts;
    }
  }

  lemma {:induction false} DecodeEntriesStops(ft: FloatText, texts: seq<Entry<string>>, bound: nat, k: nat)
    requires ValuesBelow(texts, bound)
    requires k <= |texts| && DecodeEntries(ft, texts[..k], bound).Raise?
    ensures DecodeEntries(ft, texts, bound) == DecodeEntries(ft, texts[..k], bound)
  {
    var n := |texts| - 1;
    if k <= n {
      assert texts[..n][..k] == texts[..k];
      DecodeEntriesStops(ft, texts[..n], bound, k);
    } else {
      assert texts[..k] == texts;
    }
  }

  // ----- what the texts look like, and what they mean -----

  /** The text that a value other than a pointer becomes: its first character tells its kind, and
      tells ints of up to six digits from longs. */
  lemma TextTags(ft: FloatText, v: Value)
    requires !v.Pointer? && Encode(ft, v).Return?
    ensures var t := Encode(ft, v).value;
            && t != ""
            && (t[0] == 'I' <==> v.Int? && -1000000 < v.i < 1000000)
            && (t[0] == 'L' <==>
                (v.Int? && (v.i <= -1000000 || 1000000 <= v.i)) || (v.Str? && EndsWith(v.s, ",LONGTYPE")))
            && (t[0] == 'F' <==> v.Float?)
            && (t[0] == '"' <==> v.Str? && v.s != "None" && !EndsWith(v.s, ",LONGTYPE"))
            && (t[0] == '{' <==> v.Dict?) && (t[0] == '[' <==> v.List?)
            && (t == "null" <==> v == Null || v == Str("None"))
            && (t == "true" <==> v == Bool(true)) && (t == "false" <==> v == Bool(false))
  {
    assert "null"[0] == 'n' && "true"[0] == 't' && "false"[0] == 'f';
    if v.Str? {
      assert !EndsWith("None", ",LONGTYPE");
    }
  }

  /** What stands behind the tag: the digits of an int, the text of a string, or what a long string
      has in front of its first comma. */
  lemma TextBodies(ft: FloatText, v: Value)
    requires Encode(ft, v).Return?
    ensures var t := Encode(ft, v).value;
            && (v.Int? ==> t != "" && ParseInt(t[1..]) == Return(v.i))
            && (v.Float? ==> t == "F" + ft.show(v.f))
            && (v.Pointer? ==> t == v.address)
            && (v.Str? && v.s != "None" && !EndsWith(v.s, ",LONGTYPE") ==> t == "\"" + v.s + "\"")
            && (v.Str? && EndsWith(v.s, ",LONGTYPE") ==>
                  t != "" && ',' !in t[1..] && |t| <= |v.s| && t[1..] + "," == v.s[..|t|])
  {
    var t := Encode(ft, v).value;
    if v.Int? {
      assert t[1..] == ShowInt(v.i);
      ParseShowInt(v.i);
    } else if v.Str? && EndsWith(v.s, ",LONGTYPE") {
      assert v.s[|v.s| - 9..][0] == ',' && ',' in v.s;
      FirstPart(v.s, ',');
      assert t[1..] == SplitOn(v.s, ',')[0];
    }
  }

  lemma {:induction false} FirstPart(s: string, c: char)
    requires c in s
    ensures var head := SplitOn(s, c)[0]; c !in head && |head| < |s| && head + [c] == s[..|head| + 1]
  {
    if s[0] != c {
      FirstPart(s[1..], c);
      var head := SplitOn(s[1..], c)[0];
      assert SplitOn(s, c)[0] == [s[0]] + head;
      assert s[..|head| + 2] == [s[0]] + s[1..][..|head| + 1];
    }
  }

  /** Bytes can be sent as the value of a dict key, and nowhere else. */
  predicate Sendable(v: Value) {
    match v
    case Bytes(_) => false
    case List(items) => forall i :: 0 <= i < |items| ==> Sendable(items[i])
    case Dict(entries) => forall i :: 0 <= i < |entries| ==> entries[i].value.Bytes? || Sendable(entries[i].value)
    case _ => true
  }

  lemma {:induction false} EncodesSendable(ft: FloatText, v: Value)
    ensures Encode(ft, v).Return? <==> Sendable(v)
    ensures Encode(ft, v).Raise? ==> Encode(ft, v).error == RuntimeError
    decreases v, 1
  {
    match v
    case List(items) => ItemsSendable(ft, items);
    case Dict(entries) => EntriesSendable(ft, entries);
    case _ =>
  }

  lemma {:induction false} ItemsSendable(ft: FloatText, items: seq<Value>)
    ensures EncodeItems(ft, items).Return? <==> forall i :: 0 <= i < |items| ==> Sendable(items[i])
    ensures EncodeItems(ft, items).Raise? ==> EncodeItems(ft, items).error == RuntimeError
    decreases items, 0
  {
    if items != [] {
      var n := |items| - 1;
      ItemsSendable(ft, items[..n]);
      EncodesSendable(ft, items[n]);
      assert forall i :: 0 <= i < n ==> items[..n][i] == items[i];
    }
  }

  lemma {:induction false} EntriesSendable(ft: FloatText, entries: seq<Entry<Value>>)
    ensures EncodeEntries(ft, entries).Return? <==>
            forall i :: 0 <= i < |entries| ==> entries[i].value.Bytes? || Sendable(entries[i].value)
    ensures EncodeEntries(ft, entries).Raise? ==> EncodeEntries(ft, entries).error == RuntimeError
    decreases entries, 0
  {
    if entries != [] {
      var n := |entries| - 1;
      EntriesSendable(ft, entries[..n]);
      EncodesSendable(ft, entries[n].value);
      assert forall i :: 0 <= i < n ==> entries[..n][i] == entries[i];
    }
  }

  /** The value with the bytes of its dicts as text. */
  function AsText(v: Value): Value
    decreases v, 1
  {
    match v
    case List(items) => List(ItemsAsText(items))
    case Dict(entries) => Dict(EntriesAsText(entries))
    case _ => v
  }

  function ItemsAsText(items: seq<Value>): (r: seq<Value>)
    ensures |r| == |items| && forall i :: 0 <= i < |items| ==> r[i] == AsText(items[i])
    decreases items, 0
  {
    if items == [] then []
    else
      var n := |items| - 1;
      ItemsAsText(items[..n]) + [AsText(items[n])]
  }

  function EntriesAsText(entries: seq<Entry<Value>>): (r: seq<Entry<Value>>)
    ensures |r| == |entries| && forall i :: 0 <= i < |entries| ==> r[i].key == entries[i].key
    ensures forall i :: 0 <= i < |entries| ==>
              r[i].value == if entries[i].value.Bytes? then Str(entries[i].value.text) else AsText(entries[i].value)
    decreases entries, 0
  {
    if entries == [] then []
    else
      var n := |entries| - 1;
      var v := entries[n].value;
      EntriesAsText(entries[..n]) + [Entry(entries[n].key, if v.Bytes? then Str(v.text) else AsText(v))]
  }

  lemma {:induction false} EncodesAsText(ft: FloatText, v: Value)
    ensures Encode(ft, AsText(v)) == Encode(ft, v)
    decreases v, 1
  {
    match v
    case List(items) => ItemsEncodeAsText(ft, items);
    case Dict(entries) => EntriesEncodeAsText(ft, entries);
    case _ =>
  }

  lemma ItemsEncodeAsText(ft: FloatText, items: seq<Value>)
    ensures EncodeItems(ft, ItemsAsText(items)) == EncodeItems(ft, items)
    decreases items, 0
  {
    forall i | 0 <= i < |items| {
      EncodesAsText(ft, items[i]);
    }
    SameItemTexts(ft, ItemsAsText(items), items);
  }

  lemma {:induction false} SameItemTexts(ft: FloatText, xs: seq<Value>, ys: seq<Value>)
    requires |xs| == |ys| && forall i :: 0 <= i < |xs| ==> Encode(ft, xs[i]) == Encode(ft, ys[i])
    ensures EncodeItems(ft, xs) == EncodeItems(ft, ys)
  {
    if xs != [] {
      SameItemTexts(ft, xs[..|xs| - 1], ys[..|xs| - 1]);
    }
  }

  lemma EntriesEncodeAsText(ft: FloatText, entries: seq<Entry<Value>>)
    ensures EncodeEntries(ft, EntriesAsText(entries)) == EncodeEntries(ft, entries)
    decreases entries, 0
  {
    var texts := EntriesAsText(entries);
    forall i | 0 <= i < |entries|
      ensures EncodeDictValue(ft, texts[i].value) == EncodeDictValue(ft, entries[i].value)
    {
      EncodesAsText(ft, entries[i].value);
    }
    SameEntryTexts(ft, texts, entries);
  }

  lemma {:induction false} SameEntryTexts(ft: FloatText, xs: seq<Entry<Value>>, ys: seq<Entry<Value>>)
    requires |xs| == |ys| && forall i :: 0 <= i < |xs| ==> xs[i].key == ys[i].key
    requires forall i :: 0 <= i < |xs| ==> EncodeDictValue(ft, xs[i].value) == EncodeDictValue(ft, ys[i].value)
    ensures EncodeEntries(ft, xs) == EncodeEntries(ft, ys)
  {
    if xs != [] {
      SameEntryTexts(ft, xs[..|xs| - 1], ys[..|xs| - 1]);
    }
  }

  lemma {:induction false} WellFormedAsText(v: Value)
    requires WellFormed(v)
    ensures WellFormed(AsText(v))
  {
    match v
    case List(items) =>
      forall i | 0 <= i < |items| {
        WellFormedAsText(items[i]);
      }
    case Dict(entries) =>
      forall i | 0 <= i < |entries| {
        WellFormedAsText(entries[i].value);
      }
    case _ =>
  }

  /** Bytes in a dict come back as their text: the decoded value is the sent one with its bytes as
      text, exactly if that is supported. */
  lemma BytesComeBackAsText(ft: FloatText, v: Value)
    requires WellFormed(v)
    ensures var t := Encode(ft, v);
            t.Return? && Decode(ft, t.value) == Return(AsText(v)) <==> Supported(ft, AsText(v))
  {
    EncodesAsText(ft, v);
    WellFormedAsText(v);
    RoundTrip(ft, AsText(v));
  }

  /** The texts that decode to a value, for each kind of value that is not nested. */
  lemma DecodesTo(ft: FloatText, s: string, v: Value)
    requires !v.List? && !v.Dict?
    ensures Decode(ft, s) == Return(v) <==>
            match v
            case Null => s == "" || s == "null"
            case Bool(b) => s == if b then "true" else "false"
            case Int(i) =>
              && s != "" && (s[0] == 'I' || s[0] == 'L' || (s[0] == '#' && '.' !in s))
              && ParseInt(s[1..]) == Return(i)
            case Float(f) =>
              && s != "" && (s[0] == 'F' || s[0] == 'D' || (s[0] == '#' && '.' in s))
              && ft.read(s[1..]) == Return(f)
            case Pointer(a) => a == s && ("@" <= s || "\"@" <= s)
            case Str(text) =>
              || (s == text && "PK" <= s)
              || (s == "\"" + text + "\"" && !("@" <= text))
              || (s == "\"" && text == "")
            case Bytes(_) => false
  {
    assert "true"[0] == 't' && "false"[0] == 'f' && "null"[0] == 'n';
    PrefixMeans(s, "@");
    PrefixMeans(s, "\"@");
    PrefixMeans(s, "PK");
    if v.Str? {
      DecodesToText(ft, s, v.s);
    } else if v.Pointer? && s != "" {
      DecodeByTag(ft, s);
    }
  }

  lemma PrefixMeans(s: string, prefix: string)
    ensures StartsWith(s, prefix) <==> prefix <= s
  {
  }

  lemma DecodesToText(ft: FloatText, s: string, text: string)
    ensures Decode(ft, s) == Return(Str(text)) <==>
            || (s == text && "PK" <= s)
            || (s == "\"" + text + "\"" && !("@" <= text))
            || (s == "\"" && text == "")
  {
    var quoted := "\"" + text + "\"";
    assert quoted[0] == '"' && quoted[|quoted| - 1] == '"' && quoted[1..|quoted| - 1] == text;
    assert quoted[1] == if text == "" then '"' else text[0];
    PrefixMeans(s, "PK");
    if s == quoted {
      DecodeByTag(ft, s);
    } else if |s| >= 2 && s[0] == '"' && s[|s| - 1] == '"' {
      DecodeByTag(ft, s);
      assert s == "\"" + s[1..|s| - 1] + "\"";
    }
  }

  /** A text with no known tag raises. */
  lemma UnknownTagRaises(ft: FloatText, s: string)
    requires s !in {"", "null", "true", "false"} && s[0] !in "@\"ILFD#{[" && !("PK" <= s)
    ensures Decode(ft, s) == Raise(RuntimeError)
  {
  }

  /** Text that is tagged as an object or an array but is none is a ValueError of the JSON reader. */
  lemma MalformedRaises(ft: FloatText, s: string)
    requires s != "" && ((s[0] == '{' && Json.LoadObject(s).None?) || (s[0] == '[' && Json.LoadArray(s).None?))
    ensures Decode(ft, s) == Raise(ValueError)
  {
    DecodeByTag(ft, s);
  }

  // ----- the codec as loops -----

  method Serialize(ft: FloatText, v: Value) returns (r: Outcome<string>)
    ensures r == Encode(ft, v)
    decreases v, 1
  {
    match v
    case List(items) => r := SerializeList(ft, items);
    case Dict(entries) => r := SerializeDict(ft, entries);
    case Null => r := Return("null");
    case Pointer(a) => r := Return(a);
    case Str(s) => r := Return(EncodeStr(s));
    case Bool(b) => r := Return(if b then "true" else "false");
    case Int(i) => r := Return(if i < 1000000 && i > -1000000 then "I" + ShowInt(i) else "L" + ShowInt(i));
    case Float(f) => r := Return("F" + ft.show(f));
    case Bytes(_) => r := Raise(RuntimeError);
  }

  method SerializeList(ft: FloatText, items: seq<Value>) returns (r: Outcome<string>)
    ensures r == Encode(ft, List(items))
    decreases items, 0
  {
    var stringList := [];
    for i := 0 to |items|
      invariant EncodeItems(ft, items[..i]) == Return(stringList)
    {
      assert items[..i + 1][..i] == items[..i];
      var text := Serialize(ft, items[i]);
      if text.Raise? {
        EncodeItemsStops(ft, items, i + 1);
        return Raise(text.error);
      }
      stringList := stringList + [text.value];
    }
    assert items[..|items|] == items;
    r := Return(Json.DumpArray(stringList));
  }

  method SerializeDict(ft: FloatText, entries: seq<Entry<Value>>) returns (r: Outcome<string>)
    ensures r == Encode(ft, Dict(entries))
    decreases entries, 0
  {
    var stringMap := [];
    for i := 0 to |entries|
      invariant EncodeEntries(ft, entries[..i]) == Return(stringMap)
    {
      EncodeEntriesNext(ft, entries, i, stringMap);
      var v := entries[i].value;
      var text;
      if v.Bytes? {
        text := Return(EncodeStr(v.text));
      } else {
        text := Serialize(ft, v);
      }
      if text.Raise? {
        EncodeEntriesStops(ft, entries, i + 1);
        return Raise(text.error);
      }
      stringMap := stringMap + [Entry(entries[i].key, text.value)];
    }
    assert entries[..|entries|] == entries;
    r := Return(Json.DumpObject(stringMap));
  }

  lemma EncodeEntriesNext(ft: FloatText, entries: seq<Entry<Value>>, i: nat, texts: seq<Entry<string>>)
    requires i < |entries| && EncodeEntries(ft, entries[..i]) == Return(texts)
    ensures EncodeEntries(ft, entries[..i + 1]) ==
            var text := EncodeDictValue(ft, entries[i].value);
            if text.Raise? then Raise(text.error) else Return(texts + [Entry(entries[i].key, text.value)])
  {
    assert entries[..i + 1][..i] == entries[..i];
  }

  method Deserialize(ft: FloatText, s: string) returns (r: Outcome<Value>)
    ensures r == Decode(ft, s)
    decreases |s|, 1
  {
    if s == "" || s == "null" {
      r := Return(Null);
    } else if StartsWith(s, "PK") {
      r := Return(Str(s));
    } else if StartsWith(s, "@") || StartsWith(s, "\"@") {
      r := Return(Pointer(s));
    } else if s[0] == '"' && s[|s| - 1] == '"' {
      r := Return(Str(Unquoted(s)));
    } else if s == "true" {
      r := Return(Bool(true));
    } else if s == "false" {
      r := Return(Bool(false));
    } else if s[0] == 'I' || s[0] == 'L' {
      r := DecodeInt(s[1..]);
    } else if s[0] == 'F' || s[0] == 'D' {
      r := DecodeFloat(ft, s[1..]);
    } else if s[0] == '#' {
      r := if '.' in s then DecodeFloat(ft, s[1..]) else DecodeInt(s[1..]);
    } else if s[0] == '{' {
      r := DeserializeDict(ft, s);
    } else if s[0] == '[' {
      r := DeserializeList(ft, s);
    } else {
      r := Raise(RuntimeError);
    }
  }

  method DeserializeDict(ft: FloatText, s: string) returns (r: Outcome<Value>)
    ensures r == DecodeObject(ft, s)
    decreases |s|, 0
  {
    var stringMap := Json.LoadObject(s);
    if stringMap.None? {
      return Raise(ValueError);
    }
    var texts := stringMap.value;
    var entries := [];
    for i := 0 to |texts|
      invariant DecodeEntries(ft, texts[..i], |s|) == Return(entries)
    {
      DecodeEntriesNext(ft, texts, |s|, i, entries);
      var obj := Deserialize(ft, texts[i].value);
      if obj.Raise? {
        DecodeEntriesStops(ft, texts, |s|, i + 1);
        return Raise(obj.error);
      }
      entries := Put(entries, texts[i].key, obj.value);
    }
    assert texts[..|texts|] == texts;
    r := Return(Dict(entries));
  }

  lemma DecodeEntriesNext(ft: FloatText, texts: seq<Entry<string>>, bound: nat, i: nat, entries: seq<Entry<Value>>)
    requires ValuesBelow(texts, bound) && i < |texts| && DecodeEntries(ft, texts[..i], bound) == Return(entries)
    ensures DecodeEntries(ft, texts[..i + 1], bound) ==
            var v := Decode(ft, texts[i].value);
            if v.Raise? then Raise(v.error) else Return(Put(entries, texts[i].key, v.value))
  {
    assert texts[..i + 1][..i] == texts[..i];
  }

  method DeserializeList(ft: FloatText, s: string) returns (r: Outcome<Value>)
    ensures r == DecodeArray(ft, s)
    decreases |s|, 0
  {
    var stringList := Json.LoadArray(s);
    if stringList.None? {
      return Raise(ValueError);
    }
    var texts := stringList.value;
    var resList := [];
    for i := 0 to |texts|
      invariant DecodeItems(ft, texts[..i], |s|) == Return(resList)
    {
      assert texts[..i + 1][..i] == texts[..i];
      var obj := Deserialize(ft, texts[i]);
      if obj.Raise? {
        DecodeItemsStops(ft, texts, |s|, i + 1);
        return Raise(obj.error);
      }
      resList := resList + [obj.value];
    }
    assert texts[..|texts|] == texts;
    r := Return(List(resList));
  }
}
