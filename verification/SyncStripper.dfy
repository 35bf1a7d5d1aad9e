/** The part of `get_buckets_from_sync_gateway_config` in
    `libraries/provision/install_sync_gateway.py` that replaces the sync functions, which a
    configuration writes between backticks, before it is read as JSON. */
module SyncStripper {
  import opened Python

  const TICK := '`'
  const FUNCTION := " \"function\" "

  /** The reference: one character at a time, with a flag for being inside backticks. */
  function Scan(text: string, inside: bool): string {
    if text == "" then ""
    else if text[0] == TICK then (if inside then "" else FUNCTION) + Scan(text[1..], !inside)
    else (if inside then "" else [text[0]]) + Scan(text[1..], inside)
  }

  /** The even segments; each but the very last one is followed by the replacement. */
  function Render(conf: seq<string>): string
    requires conf != []
  {
    if |conf| == 1 then conf[0]
    else conf[0] + FUNCTION + if |conf| == 2 then "" else Render(conf[2..])
  }

  function RenderFrom(conf: seq<string>, i: nat): string {
    if i < |conf| then Render(conf[i..]) else ""
  }

  /** Splitting and joining is scanning, for balanced and unbalanced texts alike. */
  lemma {:induction false} RenderIsScan(text: string)
    ensures Render(SplitOn(text, TICK)) == Scan(text, false)
    ensures var conf := SplitOn(text, TICK);
            Scan(text, true) == if |conf| == 1 then "" else Render(conf[1..])
  {
    if text != "" {
      RenderIsScan(text[1..]);
      var conf, rest := SplitOn(text, TICK), SplitOn(text[1..], TICK);
      if text[0] == TICK {
        assert conf[1..] == rest;
        RenderCons("", rest);
      } else {
        assert conf[1..] == rest[1..];
        RenderHead(text[0], rest);
      }
    }
  }

  lemma RenderCons(head: string, rest: seq<string>)
    requires rest != []
    ensures Render([head] + rest) == head + FUNCTION + if |rest| == 1 then "" else Render(rest[1..])
  {
    if |rest| > 1 {
      assert ([head] + rest)[2..] == rest[1..];
    }
  }

  lemma RenderHead(c: char, rest: seq<string>)
    requires rest != []
    ensures Render([[c] + rest[0]] + rest[1..]) == [c] + Render(rest)
  {
    if |rest| > 2 {
      assert ([[c] + rest[0]] + rest[1..])[2..] == rest[2..];
    }
  }

  lemma {:induction false} ScanRemovesTicks(text: string, inside: bool)
    ensures TICK !in Scan(text, inside)
  {
    if text != "" {
      ScanRemovesTicks(text[1..], if text[0] == TICK then !inside else inside);
    }
  }

  lemma {:induction false} ScanKeepsPlainText(text: string)
    requires TICK !in text
    ensures Scan(text, false) == text
  {
    if text != "" {
      ScanKeepsPlainText(text[1..]);
    }
  }

  /** The result has no backtick, so a second pass changes nothing. */
  lemma StripTwice(text: string)
    ensures TICK !in Scan(text, false) && Scan(Scan(text, false), false) == Scan(text, false)
  {
    ScanRemovesTicks(text, false);
    ScanKeepsPlainText(Scan(text, false));
  }

  lemma {:induction false} ScanSkips(section: string, rest: string)
    requires TICK !in section
    ensures Scan(section + "`" + rest, true) == Scan(rest, false)
    ensures Scan(section, true) == ""
  {
    var text := section + "`" + rest;
    if section == "" {
      assert text[1..] == rest;
    } else {
      assert text[0] == section[0] && text[1..] == section[1..] + "`" + rest;
      ScanSkips(section[1..], rest);
    }
  }

  lemma {:induction false} ScanKeepsFront(front: string, rest: string)
    requires TICK !in front
    ensures Scan(front + "`" + rest, false) == front + " \"function\" " + Scan(rest, true)
  {
    var text := front + "`" + rest;
    if front == "" {
      assert text[1..] == rest;
    } else {
      assert text[0] == front[0] && text[1..] == front[1..] + "`" + rest;
      ScanKeepsFront(front[1..], rest);
      assert front == [front[0]] + front[1..];
    }
  }

  /** A section between two backticks, and one that is not closed, becomes the string "function";
      what stands in front of it stays. */
  lemma SectionReplaced(front: string, section: string, rest: string)
    requires TICK !in front && TICK !in section
    ensures Scan(front + "`" + (section + "`" + rest), false) == front + " \"function\" " + Scan(rest, false)
    ensures Scan(front + "`" + section, false) == front + " \"function\" "
  {
    ScanKeepsFront(front, section + "`" + rest);
    ScanSkips(section, rest);
    ScanKeepsFront(front, section);
  }

  /** The loop over every second segment. */
  method Strip(confData: string) returns (tempConfig: string)
    ensures tempConfig == Scan(confData, false)
  {
    if TICK !in confData {
      ScanKeepsPlainText(confData);
      return confData;
    }
    var conf := SplitOn(confData, TICK);
    RenderIsScan(confData);
    tempConfig := "";
    var i := 0;
    while i < |conf|
      invariant 0 <= i
      invariant Render(conf) == tempConfig + RenderFrom(conf, i)
    {
      if i + 2 < |conf| {
        assert conf[i..][2..] == conf[i + 2..];
      }
      if i == |conf| - 1 {
        tempConfig := tempConfig + conf[i];
      } else {
        tempConfig := tempConfig + (conf[i] + FUNCTION);
      }
      i := i + 2;
    }
  }
}
