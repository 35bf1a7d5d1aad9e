/** JSON texts of flat arrays and flat objects of strings (sections 4, 5 and 7 of RFC 8259):
    the printer is `json.dumps` with its default ASCII output and separators, the reader is
    `json.loads`. The main results are that the reader inverts the printer, whatever the
    strings contain. */
module Json {
  import opened Python
  import opened OrderedDict

  const BACKSPACE: char := 8 as char
  const FORM_FEED: char := 12 as char

  // ----- string escapes -----

  function HexDigit(d: nat): char
    requires d < 16
  {
    if d < 10 then ('0' as int + d) as char else ('a' as int + d - 10) as char
  }

  function HexValue(c: char): (d: Option<nat>)
    ensures d.Some? ==> d.value < 16
  {
    if '0' <= c <= '9' then Some(c as int - '0' as int)
    else if 'a' <= c <= 'f' then Some(c as int - 'a' as int + 10)
    else if 'A' <= c <= 'F' then Some(c as int - 'A' as int + 10)
    else None
  }

  function Hex4(n: nat): (s: string)
    requires n < 0x10000
    ensures |s| == 4
  {
    var (n1, n2, n3) := (n / 16, n / 256, n / 4096);
    [HexDigit(n3), HexDigit(n2 - 16 * n3), HexDigit(n1 - 16 * n2), HexDigit(n - 16 * n1)]
  }

  /** The number written in the first four characters. */
  function ReadHex4(s: string): (n: Option<nat>)
    ensures n.Some? ==> |s| >= 4 && n.value < 0x10000
  {
    if |s| < 4 then None
    else
      var a :- HexValue(s[0]);
      var b :- HexValue(s[1]);
      var c :- HexValue(s[2]);
      var d :- HexValue(s[3]);
      Some(4096 * a + 256 * b + 16 * c + d)
  }

  /** The letter of a two-character escape. */
  function EscapeLetter(c: char): Option<char> {
    if c == '"' || c == '\\' then Some(c)
    else if c == '\n' then Some('n')
    else if c == '\r' then Some('r')
    else if c == '\t' then Some('t')
    else if c == BACKSPACE then Some('b')
    else if c == FORM_FEED then Some('f')
    else None
  }

  function UnescapeLetter(c: char): Option<char> {
    if c == '"' || c == '\\' || c == '/' then Some(c)
    else if c == 'n' then Some('\n')
    else if c == 'r' then Some('\r')
    else if c == 't' then Some('\t')
    else if c == 'b' then Some(BACKSPACE)
    else if c == 'f' then Some(FORM_FEED)
    else None
  }

  function EscapeChar(c: char): (s: string)
    ensures s != "" && s[0] != '"'
  {
    if EscapeLetter(c).Some? then ['\\', EscapeLetter(c).value]
    else if ' ' <= c <= '~' then [c]
    else "\\u" + UnicodeHex(c)
  }

  /** What follows `\u`: four digits, or a surrogate pair above the basic plane. */
  function UnicodeHex(c: char): (s: string)
    ensures |s| >= 4
  {
    if c as int < 0x10000 then Hex4(c as int)
    else
      var n := c as int - 0x10000;
      Hex4(0xD800 + n / 1024) + "\\u" + Hex4(0xDC00 + n - 1024 * (n / 1024))
  }

  function Escape(s: string): string {
    if s == "" then "" else EscapeChar(s[0]) + Escape(s[1..])
  }

  function Quote(s: string): string {
    "\"" + Escape(s) + "\""
  }

  /** The character after a `\u`, which is a surrogate pair above the basic plane. */
  function ReadUnicode(s: string): (r: Option<(char, string)>)
    ensures r.Some? ==> |r.value.1| < |s|
  {
    var n :- ReadHex4(s);
    if n < 0xD800 || 0xE000 <= n then Some((n as char, s[4..]))
    else if n < 0xDC00 && |s| >= 6 && s[4..6] == "\\u" then
      var low :- ReadHex4(s[6..]);
      if 0xDC00 <= low < 0xE000
      then Some(((0x10000 + 1024 * (n - 0xD800) + (low - 0xDC00)) as char, s[10..]))
      else None
    else None
  }

  /** One character of a JSON string; None at the closing quote and on malformed text. */
  function ReadChar(s: string): (r: Option<(char, string)>)
    ensures r.Some? ==> |r.value.1| < |s|
  {
    if s == "" || s[0] == '"' || s[0] < ' ' then None
    else if s[0] != '\\' then Some((s[0], s[1..]))
    else if |s| < 2 then None
    else if s[1] == 'u' then ReadUnicode(s[2..])
    else
      var c :- UnescapeLetter(s[1]);
      Some((c, s[2..]))
  }

  /** The characters up to the closing quote, and the text behind it. */
  function ReadChars(s: string): (r: Option<(string, string)>)
    ensures r.Some? ==> |r.value.0| + |r.value.1| < |s|
    decreases |s|
  {
    if s != "" && s[0] == '"' then Some(("", s[1..]))
    else
      var (c, rest) :- ReadChar(s);
      var (cs, rest') :- ReadChars(rest);
      Some(([c] + cs, rest'))
  }

  function ReadString(s: string): (r: Option<(string, string)>)
    ensures r.Some? ==> |r.value.0| + |r.value.1| < |s|
  {
    if s == "" || s[0] != '"' then None else ReadChars(s[1..])
  }

  lemma HexDigitRoundTrip(d: nat)
    requires d < 16
    ensures HexValue(HexDigit(d)) == Some(d)
  {
  }

  lemma Hex4RoundTrip(n: nat, tail: string)
    requires n < 0x10000
    ensures ReadHex4(Hex4(n) + tail) == Some(n)
  {
    var s := Hex4(n) + tail;
    var n1, n2, n3 := n / 16, n / 256, n / 4096;
    HexDigitRoundTrip(n3);
    HexDigitRoundTrip(n2 - 16 * n3);
    HexDigitRoundTrip(n1 - 16 * n2);
    HexDigitRoundTrip(n - 16 * n1);
  }

  lemma BasicPlaneRoundTrip(n: nat, tail: string)
    requires n < 0xD800 || 0xE000 <= n < 0x10000
    ensures ReadUnicode(Hex4(n) + tail) == Some((n as char, tail))
  {
    Hex4RoundTrip(n, tail);
    assert (Hex4(n) + tail)[4..] == tail;
  }

  lemma SurrogateRoundTrip(c: char, high: nat, low: nat, tail: string)
    requires 0xD800 <= high < 0xDC00 <= low < 0xE000
    requires c as int == 0x10000 + 1024 * (high - 0xD800) + (low - 0xDC00)
    ensures ReadUnicode(Hex4(high) + "\\u" + Hex4(low) + tail) == Some((c, tail))
  {
    var behind := Hex4(low) + tail;
    var s := Hex4(high) + ("\\u" + behind);
    assert Hex4(high) + "\\u" + Hex4(low) + tail == s;
    Hex4RoundTrip(high, "\\u" + behind);
    Hex4RoundTrip(low, tail);
    assert s[4..6] == "\\u" && s[6..] == behind && s[10..] == tail;
  }

  lemma UnicodeRoundTrip(c: char, tail: string)
    ensures ReadUnicode(UnicodeHex(c) + tail) == Some((c, tail))
  {
    if c as int < 0x10000 {
      BasicPlaneRoundTrip(c as int, tail);
    } else {
      var n := c as int - 0x10000;
      var high, low := 0xD800 + n / 1024, 0xDC00 + n - 1024 * (n / 1024);
      assert UnicodeHex(c) == Hex4(high) + "\\u" + Hex4(low);
      SurrogateRoundTrip(c, high, low, tail);
    }
  }

  lemma LetterRoundTrip(c: char)
    requires EscapeLetter(c).Some?
    ensures UnescapeLetter(EscapeLetter(c).value) == Some(c) && EscapeLetter(c).value != 'u'
  {
  }

  /** Every character survives escaping, whatever follows it. */
  lemma CharRoundTrip(c: char, tail: string)
    ensures ReadChar(EscapeChar(c) + tail) == Some((c, tail))
  {
    var s := EscapeChar(c) + tail;
    if EscapeLetter(c).Some? {
      LetterRoundTrip(c);
      assert s[2..] == tail;
    } else if ' ' <= c <= '~' {
      assert s[1..] == tail;
    } else {
      assert s[2..] == UnicodeHex(c) + tail;
      UnicodeRoundTrip(c, tail);
    }
  }

  lemma EscapeText(t: string, tail: string)
    requires t != ""
    ensures Escape(t) + "\"" + tail == EscapeChar(t[0]) + (Escape(t[1..]) + "\"" + tail)
    ensures Escape(t) != "" && Escape(t)[0] == EscapeChar(t[0])[0]
  {
  }

  lemma {:induction false} CharsRoundTrip(t: string, tail: string)
    ensures ReadChars(Escape(t) + "\"" + tail) == Some((t, tail))
  {
    if t == "" {
      assert (Escape(t) + "\"" + tail)[1..] == tail;
    } else {
      var rest := Escape(t[1..]) + "\"" + tail;
      EscapeText(t, tail);
      CharRoundTrip(t[0], rest);
      CharsRoundTrip(t[1..], tail);
      assert t == [t[0]] + t[1..];
    }
  }

  /** A quoted string is read back exactly, and the reader stops at its own closing quote. */
  lemma StringRoundTrip(t: string, tail: string)
    ensures ReadString(Quote(t) + tail) == Some((t, tail))
  {
    assert (Quote(t) + tail)[1..] == Escape(t) + "\"" + tail;
    CharsRoundTrip(t, tail);
  }

  // ----- arrays -----

  predicate IsSpace(c: char) { c in " \t\n\r" }

  function SkipSpace(s: string): (r: string)
    ensures |r| <= |s|
  {
    if s != "" && IsSpace(s[0]) then SkipSpace(s[1..]) else s
  }

  /** The text behind `c`, with optional space before it. */
  function Expect(s: string, c: char): (r: Option<string>)
    ensures r.Some? ==> |r.value| < |s|
  {
    var t := SkipSpace(s);
    if t != "" && t[0] == c then Some(t[1..]) else None
  }

  /** Space is skipped up to the first character that is none. */
  lemma ExpectHere(c: char, tail: string)
    requires !IsSpace(c)
    ensures SkipSpace([c] + tail) == [c] + tail
    ensures forall d :: Expect([c] + tail, d) == if c == d then Some(tail) else None
  {
    assert ([c] + tail)[1..] == tail;
  }

  lemma QuotedIsNotSpace(space: string, t: string, tail: string)
    requires space == "" || space == " "
    ensures SkipSpace(space + (Quote(t) + tail)) == Quote(t) + tail
  {
    var s := space + (Quote(t) + tail);
    if space == "" {
      assert s == Quote(t) + tail;
    } else {
      assert s[1..] == Quote(t) + tail;
    }
  }

  function DumpItems(items: seq<string>): string
    requires items != []
  {
    if |items| == 1 then Quote(items[0]) else Quote(items[0]) + ", " + DumpItems(items[1..])
  }

  /** `json.dumps` of a list of strings. */
  function DumpArray(items: seq<string>): (s: string)
    ensures s != "" && s[0] == '['
  {
    if items == [] then "[]" else "[" + DumpItems(items) + "]"
  }

  function ReadItems(s: string): (r: Option<(seq<string>, string)>)
    ensures r.Some? ==> |r.value.1| < |s| && forall i :: 0 <= i < |r.value.0| ==> |r.value.0[i]| < |s|
    decreases |s|
  {
    var (item, rest) :- ReadString(SkipSpace(s));
    if Expect(rest, ']').Some? then Some(([item], Expect(rest, ']').value))
    else
      var next :- Expect(rest, ',');
      var (items, rest') :- ReadItems(next);
      Some(([item] + items, rest'))
  }

  /** `json.loads` of an array whose elements are all strings. */
  function LoadArray(s: string): (r: Option<seq<string>>)
    ensures r.Some? ==> forall i :: 0 <= i < |r.value| ==> |r.value[i]| < |s|
  {
    var inner :- Expect(s, '[');
    if Expect(inner, ']').Some? then
      if SkipSpace(Expect(inner, ']').value) == "" then Some([]) else None
    else
      var (items, rest) :- ReadItems(inner);
      if SkipSpace(rest) == "" then Some(items) else None
  }

  /** One step of `ReadItems` in front of a comma. */
  lemma ReadItemsMore(s: string, item: string, rest: string, next: string, items: seq<string>, tail: string)
    requires ReadString(SkipSpace(s)) == Some((item, rest)) && rest == "," + next
    requires ReadItems(next) == Some((items, tail))
    ensures ReadItems(s) == Some(([item] + items, tail))
  {
    ExpectHere(',', next);
  }

  lemma ReadItemsLast(s: string, item: string, tail: string)
    requires ReadString(SkipSpace(s)) == Some((item, "]" + tail))
    ensures ReadItems(s) == Some(([item], tail))
  {
    ExpectHere(']', tail);
  }

  lemma ReadQuoted(space: string, t: string, rest: string)
    requires space == "" || space == " "
    ensures ReadString(SkipSpace(space + Quote(t) + rest)) == Some((t, rest))
  {
    assert space + Quote(t) + rest == space + (Quote(t) + rest);
    QuotedIsNotSpace(space, t, rest);
    StringRoundTrip(t, rest);
  }

  lemma HeadTail<T>(s: seq<T>)
    requires s != []
    ensures s == [s[0]] + s[1..] && (|s| == 1 ==> s == [s[0]])
  {
  }

  lemma Regroup(space: string, head: string, more: string, close: string, tail: string)
    ensures space + head + close + tail == space + head + (close + tail)
    ensures space + (head + ", " + more) + close + tail == space + head + ("," + (" " + more + close + tail))
  {
  }

  lemma {:induction false} ItemsRoundTrip(space: string, items: seq<string>, tail: string)
    requires items != [] && (space == "" || space == " ")
    ensures ReadItems(space + DumpItems(items) + "]" + tail) == Some((items, tail))
    decreases |items|
  {
    var s := space + DumpItems(items) + "]" + tail;
    Regroup(space, Quote(items[0]), if |items| == 1 then "" else DumpItems(items[1..]), "]", tail);
    if |items| == 1 {
      ReadQuoted(space, items[0], "]" + tail);
      ReadItemsLast(s, items[0], tail);
      HeadTail(items);
    } else {
      var next := " " + DumpItems(items[1..]) + "]" + tail;
      ReadQuoted(space, items[0], "," + next);
      ItemsRoundTrip(" ", items[1..], tail);
      ReadItemsMore(s, items[0], "," + next, next, items[1..], tail);
      HeadTail(items);
    }
  }

  /** `json.loads(json.dumps(items)) == items` */
  lemma ArrayRoundTrip(items: seq<string>)
    ensures LoadArray(DumpArray(items)) == Some(items)
  {
    if items == [] {
      ExpectHere('[', "]");
      ExpectHere(']', "");
    } else {
      var inner := "" + DumpItems(items) + "]" + "";
      assert DumpArray(items) == "[" + inner;
      ExpectHere('[', inner);
      assert inner[0] == '"';
      ItemsRoundTrip("", items, "");
    }
  }

  // ----- objects -----

  function DumpPairs(pairs: seq<Entry<string>>): string
    requires pairs != []
  {
    var head := Quote(pairs[0].key) + ": " + Quote(pairs[0].value);
    if |pairs| == 1 then head else head + ", " + DumpPairs(pairs[1..])
  }

  /** `json.dumps` of a dict from strings to strings. */
  function DumpObject(pairs: seq<Entry<string>>): (s: string)
    ensures s != "" && s[0] == '{'
  {
    if pairs == [] then "{}" else "{" + DumpPairs(pairs) + "}"
  }

  function ReadPair(s: string): (r: Option<(Entry<string>, string)>)
    ensures r.Some? ==> |r.value.1| < |s| && |r.value.0.value| < |s|
  {
    var (key, rest) :- ReadString(SkipSpace(s));
    var behind :- Expect(rest, ':');
    var (value, rest') :- ReadString(SkipSpace(behind));
    Some((Entry(key, value), rest'))
  }

  function ReadPairs(s: string): (r: Option<(seq<Entry<string>>, string)>)
    ensures r.Some? ==> |r.value.1| < |s| && forall i :: 0 <= i < |r.value.0| ==> |r.value.0[i].value| < |s|
    decreases |s|
  {
    var (pair, rest) :- ReadPair(s);
    if Expect(rest, '}').Some? then Some(([pair], Expect(rest, '}').value))
    else
      var next :- Expect(rest, ',');
      var (pairs, rest') :- ReadPairs(next);
      Some(([pair] + pairs, rest'))
  }

  /** A dict filled from pairs in order: a repeated key takes the last value. */
  function DictOf(pairs: seq<Entry<string>>): (d: seq<Entry<string>>)
    ensures forall i :: 0 <= i < |d| ==> d[i] in pairs
  {
    if pairs == [] then []
    else
      var n := |pairs| - 1;
      Put(DictOf(pairs[..n]), pairs[n].key, pairs[n].value)
  }

  /** `json.loads` of an object whose values are all strings. */
  function LoadObject(s: string): (r: Option<seq<Entry<string>>>)
    ensures r.Some? ==> forall i :: 0 <= i < |r.value| ==> |r.value[i].value| < |s|
  {
    var inner :- Expect(s, '{');
    if Expect(inner, '}').Some? then
      if SkipSpace(Expect(inner, '}').value) == "" then Some([]) else None
    else
      var (pairs, rest) :- ReadPairs(inner);
      if SkipSpace(rest) == "" then Some(DictOf(pairs)) else None
  }

  lemma {:induction false} DictOfDistinct(pairs: seq<Entry<string>>)
    requires DistinctKeys(pairs)
    ensures DictOf(pairs) == pairs
  {
    if pairs != [] {
      var n := |pairs| - 1;
      var init := pairs[..n];
      DictOfDistinct(init);
      assert DictOf(pairs) == Put(init, pairs[n].key, pairs[n].value);
      PutNewKey(init, pairs[n].key, pairs[n].value);
      InitAndLast(pairs);
    }
  }

  lemma InitAndLast(pairs: seq<Entry<string>>)
    requires pairs != []
    ensures pairs == pairs[..|pairs| - 1] + [Entry(pairs[|pairs| - 1].key, pairs[|pairs| - 1].value)]
  {
  }

  lemma RegroupPair(space: string, key: string, value: string, rest: string)
    ensures space + (key + ": " + value) + rest == space + key + (":" + (" " + value + rest))
  {
  }

  lemma PairRoundTrip(space: string, pair: Entry<string>, rest: string)
    requires space == "" || space == " "
    ensures ReadPair(space + (Quote(pair.key) + ": " + Quote(pair.value)) + rest) == Some((pair, rest))
  {
    var s := space + (Quote(pair.key) + ": " + Quote(pair.value)) + rest;
    var behind := " " + Quote(pair.value) + rest;
    RegroupPair(space, Quote(pair.key), Quote(pair.value), rest);
    ReadQuoted(space, pair.key, ":" + behind);
    ExpectHere(':', behind);
    ReadQuoted(" ", pair.value, rest);
  }

  lemma ReadPairsMore(s: string, pair: Entry<string>, rest: string, next: string, pairs: seq<Entry<string>>,
                      tail: string)
    requires ReadPair(s) == Some((pair, rest)) && rest == "," + next
    requires ReadPairs(next) == Some((pairs, tail))
    ensures ReadPairs(s) == Some(([pair] + pairs, tail))
  {
    ExpectHere(',', next);
  }

  lemma ReadPairsLast(s: string, pair: Entry<string>, tail: string)
    requires ReadPair(s) == Some((pair, "}" + tail))
    ensures ReadPairs(s) == Some(([pair], tail))
  {
    ExpectHere('}', tail);
  }

  /** The text of the pairs, with the first one split off. */
  lemma PairsText(space: string, pairs: seq<Entry<string>>, tail: string)
    requires pairs != []
    ensures var head := Quote(pairs[0].key) + ": " + Quote(pairs[0].value);
            var s := space + DumpPairs(pairs) + "}" + tail;
            if |pairs| == 1 then s == space + head + ("}" + tail)
            else s == space + head + ("," + (" " + DumpPairs(pairs[1..]) + "}" + tail))
  {
    var head := Quote(pairs[0].key) + ": " + Quote(pairs[0].value);
    Regroup(space, head, if |pairs| == 1 then "" else DumpPairs(pairs[1..]), "}", tail);
  }

  lemma PairsStep(space: string, s: string, pairs: seq<Entry<string>>, next: string, tail: string)
    requires pairs != [] && (space == "" || space == " ")
    requires s == space + (Quote(pairs[0].key) + ": " + Quote(pairs[0].value)) + ("," + next)
    requires ReadPairs(next) == Some((pairs[1..], tail))
    ensures ReadPairs(s) == Some((pairs, tail))
  {
    assert ReadPair(s) == Some((pairs[0], "," + next)) by { PairRoundTrip(space, pairs[0], "," + next); }
    HeadTail(pairs);
    ReadPairsMore(s, pairs[0], "," + next, next, pairs[1..], tail);
  }

  lemma PairsEnd(space: string, s: string, pairs: seq<Entry<string>>, tail: string)
    requires |pairs| == 1 && (space == "" || space == " ")
    requires s == space + (Quote(pairs[0].key) + ": " + Quote(pairs[0].value)) + ("}" + tail)
    ensures ReadPairs(s) == Some((pairs, tail))
  {
    PairRoundTrip(space, pairs[0], "}" + tail);
    ReadPairsLast(s, pairs[0], tail);
    HeadTail(pairs);
  }

  lemma {:induction false} PairsRoundTrip(space: string, pairs: seq<Entry<string>>, tail: string)
    requires pairs != [] && (space == "" || space == " ")
    ensures ReadPairs(space + DumpPairs(pairs) + "}" + tail) == Some((pairs, tail))
    decreases |pairs|
  {
    var s := space + DumpPairs(pairs) + "}" + tail;
    PairsText(space, pairs, tail);
    if |pairs| == 1 {
      PairsEnd(space, s, pairs, tail);
    } else {
      PairsRoundTrip(" ", pairs[1..], tail);
      PairsStep(space, s, pairs, " " + DumpPairs(pairs[1..]) + "}" + tail, tail);
    }
  }

  lemma LoadPairs(inner: string, pairs: seq<Entry<string>>)
    requires ReadPairs(inner) == Some((pairs, "")) && inner != "" && inner[0] == '"'
    ensures LoadObject("{" + inner) == Some(DictOf(pairs))
  {
    ExpectHere('{', inner);
  }

  lemma InBraces(text: string)
    ensures "{" + text + "}" == "{" + ("" + text + "}" + "")
  {
  }

  lemma PairsStartQuoted(d: seq<Entry<string>>)
    requires d != []
    ensures DumpPairs(d) != "" && DumpPairs(d)[0] == '"'
  {
    assert Quote(d[0].key)[0] == '"';
  }

  /** `json.loads(json.dumps(d)) == d`, in the same order. */
  lemma ObjectRoundTrip(d: seq<Entry<string>>)
    requires DistinctKeys(d)
    ensures LoadObject(DumpObject(d)) == Some(d)
  {
    if d == [] {
      ExpectHere('{', "}");
      ExpectHere('}', "");
    } else {
      var inner := "" + DumpPairs(d) + "}" + "";
      InBraces(DumpPairs(d));
      PairsStartQuoted(d);
      PairsRoundTrip("", d, "");
      LoadPairs(inner, d);
      DictOfDistinct(d);
    }
  }

  lemma HoldsObject(d: seq<Entry<string>>, s: string)
    requires DistinctKeys(d) && s == DumpObject(d)
    ensures s != "" && s[0] == '{' && LoadObject(s) == Some(d)
  {
    ObjectRoundTrip(d);
  }

  // ----- the form of the texts -----

  ghost predicate Ascii(s: string) {
    forall i :: 0 <= i < |s| ==> ' ' <= s[i] <= '~'
  }

  lemma AsciiJoin(a: string, b: string)
    requires Ascii(a) && Ascii(b)
    ensures Ascii(a + b)
  {
  }

  lemma HexDigitIsAscii(d: nat)
    requires d < 16
    ensures ' ' <= HexDigit(d) <= '~'
  {
  }

  lemma Hex4IsAscii(n: nat)
    requires n < 0x10000
    ensures Ascii(Hex4(n))
  {
    var (n1, n2, n3) := (n / 16, n / 256, n / 4096);
    HexDigitIsAscii(n3);
    HexDigitIsAscii(n2 - 16 * n3);
    HexDigitIsAscii(n1 - 16 * n2);
    HexDigitIsAscii(n - 16 * n1);
  }

  lemma UnicodeHexIsAscii(c: char)
    ensures Ascii(UnicodeHex(c))
  {
    if c as int < 0x10000 {
      Hex4IsAscii(c as int);
    } else {
      var n := c as int - 0x10000;
      var (high, low) := (0xD800 + n / 1024, 0xDC00 + n - 1024 * (n / 1024));
      Hex4IsAscii(high);
      Hex4IsAscii(low);
      AsciiJoin(Hex4(high), "\\u");
      AsciiJoin(Hex4(high) + "\\u", Hex4(low));
    }
  }

  lemma EscapeCharIsAscii(c: char)
    ensures Ascii(EscapeChar(c))
  {
    UnicodeHexIsAscii(c);
    AsciiJoin("\\u", UnicodeHex(c));
  }

  /** A quoted string is printable ASCII, whatever it holds. */
  lemma {:induction false} EscapeIsAscii(s: string)
    ensures Ascii(Escape(s)) && Ascii(Quote(s))
  {
    if s != "" {
      EscapeCharIsAscii(s[0]);
      EscapeIsAscii(s[1..]);
      AsciiJoin(EscapeChar(s[0]), Escape(s[1..]));
    }
  }

  /** One more element stands behind a comma and a space. */
  lemma {:induction false} DumpItemsMore(items: seq<string>, item: string)
    requires items != []
    ensures DumpItems(items + [item]) == DumpItems(items) + ", " + Quote(item)
  {
    var all := items + [item];
    if |items| == 1 {
      assert all[0] == items[0] && all[1..] == [item];
    } else {
      assert all[0] == items[0] && all[1..] == items[1..] + [item];
      DumpItemsMore(items[1..], item);
    }
  }

  /** Text is added in front of a closing bracket. */
  lemma Reopen(open: string, body: string, more: string, close: string)
    requires |close| == 1
    ensures var s := open + body + close; open + (body + ", " + more) + close == s[..|s| - 1] + ", " + more + close
  {
    var s := open + body + close;
    assert s[..|s| - 1] == open + body;
  }

  /** The whole text of a list, element by element. */
  lemma DumpArrayForm(items: seq<string>, item: string)
    ensures DumpArray([]) == "[]" && DumpArray([item]) == "[" + Quote(item) + "]"
    ensures items != [] ==>
              var s := DumpArray(items);
              DumpArray(items + [item]) == s[..|s| - 1] + ", " + Quote(item) + "]"
  {
    if items != [] {
      DumpItemsMore(items, item);
      Reopen("[", DumpItems(items), Quote(item), "]");
    }
  }

  lemma {:induction false} DumpPairsMore(pairs: seq<Entry<string>>, pair: Entry<string>)
    requires pairs != []
    ensures DumpPairs(pairs + [pair]) == DumpPairs(pairs) + ", " + (Quote(pair.key) + ": " + Quote(pair.value))
  {
    var all := pairs + [pair];
    if |pairs| == 1 {
      assert all[0] == pairs[0] && all[1..] == [pair];
    } else {
      assert all[0] == pairs[0] && all[1..] == pairs[1..] + [pair];
      DumpPairsMore(pairs[1..], pair);
    }
  }

  /** The whole text of a dict, entry by entry. */
  lemma DumpObjectForm(pairs: seq<Entry<string>>, pair: Entry<string>)
    ensures DumpObject([]) == "{}"
    ensures DumpObject([pair]) == "{" + (Quote(pair.key) + ": " + Quote(pair.value)) + "}"
    ensures pairs != [] ==>
              var s := DumpObject(pairs);
              DumpObject(pairs + [pair]) == s[..|s| - 1] + ", " + (Quote(pair.key) + ": " + Quote(pair.value)) + "}"
  {
    if pairs != [] {
      DumpPairsMore(pairs, pair);
      Reopen("{", DumpPairs(pairs), Quote(pair.key) + ": " + Quote(pair.value), "}");
    }
  }

  /** A raw control character, a lone backslash and a missing quote are errors. */
  lemma BrokenString(c: char, rest: string)
    requires c < ' '
    ensures ReadChar([c] + rest).None? && ReadChars([c] + rest).None?
    ensures ReadChar("").None? && ReadChar("\\").None? && ReadChars("").None?
  {
  }
}
