/** `compare_versions` and `check_xattr_support` of `keywords/utils.py`. A version is compared
    as one number: its dots are dropped and the shorter digit string is padded with zeros. */
module Versions {
  import opened Python

  function RemoveDots(s: string): string {
    if s == "" then "" else (if s[0] == '.' then "" else [s[0]]) + RemoveDots(s[1..])
  }

  /** The version without its build number. */
  function Release(version: string): string {
    SplitOn(version, '-')[0]
  }

  /** The text that is read as a number. */
  function Raw(version: string): string {
    RemoveDots(Release(version))
  }

  /** A plus sign in front counts like a zero. */
  function Unsigned(s: string): (r: string)
    ensures |r| == |s|
  {
    if s != "" && s[0] == '+' then "0" + s[1..] else s
  }

  /** The digit string that is compared. */
  function Digits(version: string): string {
    Unsigned(Raw(version))
  }

  /** A plus sign without a digit behind it is no number. */
  predicate LoneSign(s: string) { s == "+" }

  function Zeros(n: nat): (s: string)
    ensures |s| == n && AllDigits(s)
  {
    if n == 0 then "" else "0" + Zeros(n - 1)
  }

  function Sign(a: int, b: int): int {
    if a < b then -1 else if a > b then 1 else 0
  }

  // ----- the order on digit strings -----

  function First(s: string): nat
    requires AllDigits(s)
  {
    if s == "" then 0 else DigitValue(s[0])
  }

  function Rest(s: string): (r: string)
    ensures AllDigits(s) ==> AllDigits(r)
  {
    if s == "" then "" else s[1..]
  }

  /** The order from the left, digit by digit, with zeros where one string has ended. */
  function Lex(a: string, b: string): (r: int)
    requires AllDigits(a) && AllDigits(b)
    ensures r == -1 || r == 0 || r == 1
    decreases |a| + |b|
  {
    if a == "" && b == "" then 0
    else if First(a) != First(b) then Sign(First(a), First(b))
    else Lex(Rest(a), Rest(b))
  }

  lemma {:induction false} LexSymmetry(a: string, b: string)
    requires AllDigits(a) && AllDigits(b)
    ensures Lex(a, b) == -Lex(b, a)
    decreases |a| + |b|
  {
    if a != "" || b != "" {
      LexSymmetry(Rest(a), Rest(b));
    }
  }

  lemma {:induction false} LexTransitive(a: string, b: string, c: string)
    requires AllDigits(a) && AllDigits(b) && AllDigits(c)
    ensures Lex(a, b) <= 0 && Lex(b, c) <= 0 ==> Lex(a, c) <= 0
    decreases |a| + |b| + |c|
  {
    if a != "" || b != "" || c != "" {
      LexTransitive(Rest(a), Rest(b), Rest(c));
    }
  }

  lemma {:induction false} LexLast(a: string, b: string, c: char, d: char)
    requires AllDigits(a) && AllDigits(b) && |a| == |b| && IsDigit(c) && IsDigit(d)
    ensures Lex(a + [c], b + [d]) == if Lex(a, b) != 0 then Lex(a, b) else Sign(DigitValue(c), DigitValue(d))
  {
    if a == "" {
      assert Rest(a + [c]) == "" && Rest(b + [d]) == "";
    } else {
      assert Rest(a + [c]) == Rest(a) + [c] && Rest(b + [d]) == Rest(b) + [d];
      LexLast(Rest(a), Rest(b), c, d);
    }
  }

  /** On strings of one length the order is that of the numbers. */
  lemma {:induction false} ValueIsLex(a: string, b: string)
    requires AllDigits(a) && AllDigits(b) && |a| == |b|
    ensures Sign(DigitsValue(a), DigitsValue(b)) == Lex(a, b)
  {
    if a != "" {
      var n := |a| - 1;
      ValueIsLex(a[..n], b[..n]);
      LexLast(a[..n], b[..n], a[n], b[n]);
      assert a == a[..n] + [a[n]] && b == b[..n] + [b[n]];
    }
  }

  lemma {:induction false} LexZeros(n: nat, b: string)
    requires AllDigits(b)
    ensures Lex(Zeros(n), b) == Lex("", b)
  {
    if n > 0 {
      assert Rest(Zeros(n)) == Zeros(n - 1) && First(Zeros(n)) == 0;
      LexZeros(n - 1, Rest(b));
    }
  }

  /** Padding does not matter. */
  lemma {:induction false} LexPadded(a: string, b: string, n: nat)
    requires AllDigits(a) && AllDigits(b)
    ensures AllDigits(a + Zeros(n)) && Lex(a + Zeros(n), b) == Lex(a, b)
  {
    var p := a + Zeros(n);
    if a == "" {
      assert p == Zeros(n);
      LexZeros(n, b);
    } else {
      assert First(p) == First(a) && Rest(p) == Rest(a) + Zeros(n);
      LexPadded(Rest(a), Rest(b), n);
    }
  }

  // ----- compare_versions -----

  /** What the comparison returns for every pair of texts. A text without digits is no number,
      unless the other one is longer and the padding supplies them. */
  function CompareTexts(s: string, t: string): Outcome<int> {
    var (a, b) := (Unsigned(s), Unsigned(t));
    if !AllDigits(a) || !AllDigits(b) || (s == "" && t == "") then Raise(ValueError)
    else if |s| <= 1 && |t| <= 1 && (LoneSign(s) || LoneSign(t)) then Raise(ValueError)
    else Return(Lex(a, b))
  }

  function Compare(one: string, two: string): Outcome<int> {
    CompareTexts(Raw(one), Raw(two))
  }

  lemma {:induction false} OneMoreZero(n: nat)
    ensures Zeros(n + 1) == Zeros(n) + "0"
  {
    if n > 0 {
      OneMoreZero(n - 1);
    }
  }

  /** The loop that pads the shorter string. */
  method Pad(s: string, difference: nat) returns (r: string)
    ensures r == s + Zeros(difference)
  {
    r := s;
    for i := 0 to difference
      invariant r == s + Zeros(i)
    {
      OneMoreZero(i);
      r := r + "0";
    }
  }

  /** Compares the padded strings as numbers, which amounts to the order from the left. */
  method CompareVersions(one: string, two: string) returns (r: Outcome<int>)
    ensures r == Compare(one, two)
  {
    var a, b := RemoveDots(SplitOn(one, '-')[0]), RemoveDots(SplitOn(two, '-')[0]);
    var lenA, lenB := |a|, |b|;
    if lenA < lenB {
      a := Pad(a, lenB - lenA);
    }
    if lenA > lenB {
      b := Pad(b, lenA - lenB);
    }
    NoMinus(one);
    NoMinus(two);
    PaddedCompare(Raw(one), Raw(two), a, b);
    var numberA := ParseInt(a);
    if numberA.Raise? {
      return Raise(numberA.error);
    }
    var numberB := ParseInt(b);
    if numberB.Raise? {
      return Raise(numberB.error);
    }
    r := Return(if numberA.value < numberB.value then -1 else if numberA.value > numberB.value then 1 else 0);
  }

  lemma {:induction false} RemoveDotsMembers(s: string)
    ensures forall c :: c in RemoveDots(s) ==> c in s
  {
    if s != "" {
      RemoveDotsMembers(s[1..]);
    }
  }

  /** What is left of a version has no minus sign, because it is split there. */
  lemma NoMinus(version: string)
    ensures '-' !in Raw(version)
  {
    RemoveDotsMembers(Release(version));
    assert Release(version) in SplitOn(version, '-');
  }

  lemma DigitsJoin(a: string, b: string)
    ensures AllDigits(a + b) <==> AllDigits(a) && AllDigits(b)
  {
    assert forall c :: c in a + b <==> c in a || c in b;
  }

  lemma Assoc(a: string, b: string, c: string)
    ensures a + (b + c) == a + b + c
  {
  }

  /** `int` of digits, or of a plus sign and digits. */
  lemma ParsePlain(s: string)
    requires s == "" || (s[0] != '-' && s[0] != '+')
    ensures ParseInt(s) == if s == "" || !AllDigits(s) then Raise(ValueError) else Return(DigitsValue(s))
  {
  }

  lemma ParsePlus(body: string)
    ensures ParseInt("+" + body) ==
            if body == "" || !AllDigits(body) then Raise(ValueError) else Return(DigitsValue(body))
  {
    assert ("+" + body)[1..] == body;
  }

  lemma UnsignedPlus(t: string)
    ensures Unsigned("+" + t) == "0" + t && (LoneSign("+" + t) <==> t == "")
  {
    assert ("+" + t)[1..] == t;
    assert t != "" ==> |"+" + t| > 1;
  }

  /** `int` of what the padding leaves. */
  lemma ParsePadded(s: string, n: nat)
    requires '-' !in s
    ensures ParseInt(s + Zeros(n)) ==
            if !AllDigits(Unsigned(s)) || (s == "" && n == 0) || (LoneSign(s) && n == 0) then Raise(ValueError)
            else (DigitsJoin(Unsigned(s), Zeros(n)); Return(DigitsValue(Unsigned(s) + Zeros(n))))
  {
    if s != "" && s[0] == '+' {
      assert s == "+" + s[1..];
      ParsePaddedPlus(s[1..], n);
    } else {
      ParsePlain(s + Zeros(n));
      DigitsJoin(s, Zeros(n));
    }
  }

  lemma ParsePaddedPlus(t: string, n: nat)
    ensures ParseInt("+" + t + Zeros(n)) ==
            if !AllDigits(Unsigned("+" + t)) || (LoneSign("+" + t) && n == 0) then Raise(ValueError)
            else (DigitsJoin(Unsigned("+" + t), Zeros(n)); Return(DigitsValue(Unsigned("+" + t) + Zeros(n))))
  {
    var body := t + Zeros(n);
    Assoc("+", t, Zeros(n));
    Assoc("0", t, Zeros(n));
    ParsePlus(body);
    UnsignedPlus(t);
    DigitsJoin(t, Zeros(n));
    DigitsJoin("0", t);
    if AllDigits(body) {
      LeadingZeros(1, body);
      assert Zeros(1) == "0";
    }
  }

  /** Whether the padded text is a number depends on the text and on whether there is padding. */
  predicate IsPaddedNumber(s: string, n: nat) {
    AllDigits(Unsigned(s)) && (n > 0 || (s != "" && !LoneSign(s)))
  }

  lemma PaddedValues(s: string, t: string, n: nat, m: nat)
    requires '-' !in s && '-' !in t
    requires n == (if |s| < |t| then |t| - |s| else 0) && m == if |s| > |t| then |s| - |t| else 0
    ensures var (x, y) := (ParseInt(s + Zeros(n)), ParseInt(t + Zeros(m)));
            && (if IsPaddedNumber(s, n) then x.Return? else x == Raise(ValueError))
            && (if IsPaddedNumber(t, m) then y.Return? else y == Raise(ValueError))
            && (x.Return? && y.Return? ==> Sign(x.value, y.value) == Lex(Unsigned(s), Unsigned(t)))
  {
    ParsePadded(s, n);
    ParsePadded(t, m);
    Zeroless(Unsigned(s));
    Zeroless(Unsigned(t));
    PaddedNumbers(Unsigned(s), Unsigned(t), Unsigned(s) + Zeros(n), Unsigned(t) + Zeros(m));
  }

  lemma PaddedCompare(s: string, t: string, a: string, b: string)
    requires '-' !in s && '-' !in t
    requires a == s + Zeros(if |s| < |t| then |t| - |s| else 0) && b == t + Zeros(if |s| > |t| then |s| - |t| else 0)
    ensures var (x, y) := (ParseInt(a), ParseInt(b));
            && (x.Raise? ==> x == Raise(ValueError)) && (y.Raise? ==> y == Raise(ValueError))
            && CompareTexts(s, t) == if x.Raise? then x else if y.Raise? then y else Return(Sign(x.value, y.value))
  {
    PaddedValues(s, t, if |s| < |t| then |t| - |s| else 0, if |s| > |t| then |s| - |t| else 0);
  }

  lemma Zeroless(s: string)
    ensures s + Zeros(0) == s
  {
  }

  lemma PaddedNumbers(a: string, b: string, a': string, b': string)
    requires |a| <= |b| ==> a' == a + Zeros(|b| - |a|) && b' == b
    requires |a| > |b| ==> a' == a && b' == b + Zeros(|a| - |b|)
    ensures |a'| == |b'| && (AllDigits(a') <==> AllDigits(a)) && (AllDigits(b') <==> AllDigits(b))
    ensures AllDigits(a) && AllDigits(b) ==> Sign(DigitsValue(a'), DigitsValue(b')) == Lex(a, b)
  {
    if |a| <= |b| {
      assert forall i :: 0 <= i < |a| ==> a'[i] == a[i];
    } else {
      assert forall i :: 0 <= i < |b| ==> b'[i] == b[i];
    }
    if AllDigits(a) && AllDigits(b) {
      ValueIsLex(a', b');
      if |a| <= |b| {
        LexPadded(a, b, |b| - |a|);
      } else {
        LexPadded(b, a, |a| - |b|);
        LexSymmetry(a, b');
        LexSymmetry(a, b);
      }
    }
  }

  /** The version has digits and nothing else but dots, a plus sign in front and a build number. */
  predicate IsNumber(version: string) {
    AllDigits(Digits(version)) && Digits(version) != "" && !LoneSign(Raw(version))
  }

  /** The comparison is a total preorder: it compares any two versions that have digits, swaps
      sign with its arguments, and is transitive although each pair is padded differently. */
  lemma TotalPreorder(one: string, two: string, three: string)
    requires IsNumber(one) && IsNumber(two) && IsNumber(three)
    ensures Compare(one, two).Return? && Compare(two, one) == Return(-Compare(one, two).value)
    ensures Compare(one, one) == Return(0)
    ensures Compare(one, two).value <= 0 && Compare(two, three).value <= 0 ==> Compare(one, three).value <= 0
  {
    LexSymmetry(Digits(one), Digits(two));
    LexSymmetry(Digits(one), Digits(one));
    LexTransitive(Digits(one), Digits(two), Digits(three));
  }

  /** Build numbers do not count. */
  lemma BuildIgnored(version: string, build: string, other: string)
    requires '-' !in version
    ensures Compare(version + "-" + build, other) == Compare(version, other)
    ensures Compare(other, version + "-" + build) == Compare(other, version)
  {
    SplitHead(version, '-', build);
    SplitNothing(version, '-');
  }

  // ----- against the order by components -----

  function Components(version: string): seq<string> {
    SplitOn(Release(version), '.')
  }

  function Concat(parts: seq<string>): string {
    if parts == [] then "" else parts[0] + Concat(parts[1..])
  }

  lemma {:induction false} DigitsAreComponents(s: string)
    ensures RemoveDots(s) == Concat(SplitOn(s, '.'))
  {
    if s != "" {
      DigitsAreComponents(s[1..]);
      var rest := SplitOn(s[1..], '.');
      if s[0] == '.' {
        assert SplitOn(s, '.') == [""] + rest;
      } else {
        assert SplitOn(s, '.') == [[s[0]] + rest[0]] + rest[1..];
      }
    }
  }

  ghost predicate Numeric(parts: seq<string>) {
    forall i :: 0 <= i < |parts| ==> AllDigits(parts[i])
  }

  /** The usual order of versions: component by component, a missing one counting as 0. */
  ghost function ByComponents(a: seq<string>, b: seq<string>): (r: int)
    requires Numeric(a) && Numeric(b)
    ensures -1 <= r <= 1
    decreases |a| + |b|
  {
    if a == [] && b == [] then 0
    else
      var x := if a == [] then 0 else DigitsValue(a[0]);
      var y := if b == [] then 0 else DigitsValue(b[0]);
      if x != y then Sign(x, y) else ByComponents(if a == [] then [] else a[1..], if b == [] then [] else b[1..])
  }

  /** Zeros in front of the next component, which do not change its value. */
  function Shift(d: nat, parts: seq<string>): (r: seq<string>)
    ensures |r| == |parts| && (Numeric(parts) ==> Numeric(r))
  {
    if parts == [] then [] else [Zeros(d) + parts[0]] + parts[1..]
  }

  /** When the order of the digit strings is the order by components. It depends on the first
      components that are not equal as texts: they are equally wide; or the digits from the
      smaller of them on come before those from the larger one on; or they are one number written
      with different numbers of zeros, and the one with fewer zeros is followed by larger
      components. The zeros that one component 0 has more than the other count for the next
      component. */
  ghost predicate InOrder(a: seq<string>, b: seq<string>)
    requires Numeric(a) && Numeric(b)
    decreases |a| + |b|
  {
    a == [] || b == []
    || var (x, y, p, q) := (DigitsValue(a[0]), DigitsValue(b[0]), |a[0]|, |b[0]|);
       if p == q then x != y || InOrder(a[1..], b[1..])
       else if x < y then ConcatDigits(a); ConcatDigits(b); Lex(Concat(a), Concat(b)) < 0
       else if x > y then ConcatDigits(a); ConcatDigits(b); Lex(Concat(b), Concat(a)) < 0
       else if x > 0 then (if p < q then ByComponents(a[1..], b[1..]) > 0 else ByComponents(a[1..], b[1..]) < 0)
       else if p < q then InOrder(a[1..], Shift(q - p, b[1..]))
       else InOrder(Shift(p - q, a[1..]), b[1..])
  }

  lemma {:induction false} ConcatDigits(parts: seq<string>)
    requires Numeric(parts)
    ensures AllDigits(Concat(parts))
  {
    if parts != [] {
      ConcatDigits(parts[1..]);
    }
  }

  /** The order is decided by equally long heads, unless they are equal. */
  lemma {:induction false} LexAppend(a: string, b: string, p: string, q: string)
    requires AllDigits(a) && AllDigits(b) && AllDigits(p) && AllDigits(q) && |a| == |b|
    ensures Lex(a + p, b + q) == if Lex(a, b) != 0 then Lex(a, b) else Lex(p, q)
  {
    if a == "" {
      assert a + p == p && b + q == q;
    } else {
      assert Rest(a + p) == Rest(a) + p && Rest(b + q) == Rest(b) + q;
      LexAppend(Rest(a), Rest(b), p, q);
    }
  }

  /** Against nothing, a digit string is positive exactly if one of its parts is. */
  lemma {:induction false} LexAgainstNothing(parts: seq<string>)
    requires Numeric(parts)
    ensures AllDigits(Concat(parts)) && Lex(Concat(parts), "") == ByComponents(parts, [])
  {
    ConcatDigits(parts);
    if parts != [] {
      var head, n := parts[0], |parts[0]|;
      LexAgainstNothing(parts[1..]);
      LexPadded("", Concat(parts), n);
      assert "" + Zeros(n) == Zeros(n) && Zeros(n) + "" == Zeros(n);
      LexAppend(head, Zeros(n), Concat(parts[1..]), "");
      ValueIsLex(head, Zeros(n));
      ZerosValue(n);
      LexSymmetry(Concat(parts), "");
      LexSymmetry(Concat(parts), Zeros(n));
    }
  }

  lemma {:induction false} ZerosValue(n: nat)
    ensures DigitsValue(Zeros(n)) == 0
  {
    if n > 0 {
      ZerosValue(n - 1);
      OneMoreZero(n - 1);
      DigitsValueAppend(Zeros(n - 1), '0');
    }
  }

  lemma {:induction false} ByComponentsSymmetry(a: seq<string>, b: seq<string>)
    requires Numeric(a) && Numeric(b)
    ensures ByComponents(a, b) == -ByComponents(b, a)
    decreases |a| + |b|
  {
    if a != [] || b != [] {
      ByComponentsSymmetry(if a == [] then [] else a[1..], if b == [] then [] else b[1..]);
    }
  }

  lemma {:induction false} LeadingZeros(n: nat, s: string)
    requires AllDigits(s)
    ensures AllDigits(Zeros(n) + s) && DigitsValue(Zeros(n) + s) == DigitsValue(s)
  {
    if s == "" {
      assert Zeros(n) + s == Zeros(n);
      ZerosValue(n);
    } else {
      var k := |s| - 1;
      LeadingZeros(n, s[..k]);
      assert Zeros(n) + s == (Zeros(n) + s[..k]) + [s[k]];
      DigitsValueAppend(Zeros(n) + s[..k], s[k]);
    }
  }

  lemma {:induction false} LexTellsApart(a: string, b: string)
    requires AllDigits(a) && AllDigits(b) && |a| == |b|
    ensures Lex(a, b) == 0 <==> a == b
  {
    if a != "" {
      LexTellsApart(a[1..], b[1..]);
      assert a == [a[0]] + a[1..] && b == [b[0]] + b[1..];
    }
  }

  /** The same number with more zeros in front. */
  lemma SameNumber(a: string, b: string)
    requires AllDigits(a) && AllDigits(b) && |a| < |b| && DigitsValue(a) == DigitsValue(b)
    ensures b == Zeros(|b| - |a|) + a
  {
    LeadingZeros(|b| - |a|, a);
    ValueIsLex(Zeros(|b| - |a|) + a, b);
    LexTellsApart(Zeros(|b| - |a|) + a, b);
  }

  lemma NumberZero(a: string)
    requires AllDigits(a) && DigitsValue(a) == 0
    ensures a == Zeros(|a|)
  {
    ZerosValue(|a|);
    ValueIsLex(a, Zeros(|a|));
    LexTellsApart(a, Zeros(|a|));
  }

  lemma {:induction false} ZerosJoin(m: nat, n: nat)
    ensures Zeros(m + n) == Zeros(m) + Zeros(n)
  {
    if m > 0 {
      ZerosJoin(m - 1, n);
    }
  }

  lemma ZeroMoves(z: string, t: string, q: string)
    ensures ("0" + z + ("0" + t + q))[1..] == z + "0" + (t + q)
  {
  }

  lemma RestJoin(s: string, p: string)
    requires s != ""
    ensures s + p != "" && (s + p)[0] == s[0] && (s + p)[1..] == s[1..] + p
  {
  }

  /** Zeros in front make what follows smaller, whatever comes then. */
  lemma {:induction false} LexShifted(s: string, p: string, q: string, d: nat)
    requires AllDigits(s) && AllDigits(p) && AllDigits(q) && d > 0 && DigitsValue(s) > 0
    ensures AllDigits(s + p) && AllDigits(Zeros(d) + (s + q)) && Lex(s + p, Zeros(d) + (s + q)) == 1
  {
    var wide := Zeros(d) + (s + q);
    DigitsJoin(s, p);
    DigitsJoin(s, q);
    DigitsJoin(Zeros(d), s + q);
    RestJoin(s, p);
    RestJoin(Zeros(d), s + q);
    if s[0] == '0' {
      var t := s[1..];
      FirstZero(s);
      LexShifted(t, p, q, d);
      OneMoreZero(d - 1);
      ZeroMoves(Zeros(d - 1), t, q);
    }
  }

  lemma FirstZero(s: string)
    requires s != "" && s[0] == '0' && AllDigits(s)
    ensures s == "0" + s[1..] && AllDigits(s[1..]) && DigitsValue(s[1..]) == DigitsValue(s)
  {
    assert s == Zeros(1) + s[1..];
    LeadingZeros(1, s[1..]);
  }

  lemma ConcatCons(head: string, rest: seq<string>)
    ensures Concat([head] + rest) == head + Concat(rest)
  {
    assert ([head] + rest)[1..] == rest;
  }

  lemma ConcatShift(d: nat, parts: seq<string>)
    requires Numeric(parts) && parts != []
    ensures Concat(Shift(d, parts)) == Zeros(d) + Concat(parts)
    ensures AllDigits(Zeros(d) + parts[0]) && DigitsValue(Zeros(d) + parts[0]) == DigitsValue(parts[0])
  {
    LeadingZeros(d, parts[0]);
    ConcatCons(Zeros(d) + parts[0], parts[1..]);
    Assoc(Zeros(d), parts[0], Concat(parts[1..]));
  }

  lemma ByComponentsShift(d: nat, a: seq<string>, b: seq<string>)
    requires Numeric(a) && Numeric(b)
    ensures ByComponents(a, Shift(d, b)) == ByComponents(a, b)
  {
    if b != [] {
      ConcatShift(d, b);
      assert Shift(d, b)[1..] == b[1..];
    }
  }

  /** Behind two components 0 of different widths, the zeros that are left come first. */
  lemma LexOfZeros(x: string, y: string, p: string, q: string)
    requires AllDigits(x) && AllDigits(y) && AllDigits(p) && AllDigits(q) && |x| < |y|
    requires DigitsValue(x) == 0 && DigitsValue(y) == 0
    ensures AllDigits(x + p) && AllDigits(y + q) && AllDigits(Zeros(|y| - |x|) + q)
    ensures Lex(x + p, y + q) == Lex(p, Zeros(|y| - |x|) + q)
  {
    var d := |y| - |x|;
    DigitsJoin(x, p);
    DigitsJoin(y, q);
    DigitsJoin(Zeros(d), q);
    NumberZero(x);
    NumberZero(y);
    ZerosJoin(|x|, d);
    Assoc(Zeros(|x|), Zeros(d), q);
    LexAppend(x, x, p, Zeros(d) + q);
    LexTellsApart(x, x);
  }

  lemma JoinBehind(y: string, z: string, x: string, q: string)
    requires y == z + x
    ensures y + q == z + (x + q)
  {
  }

  /** Of one number above 0 the text with fewer zeros comes last. */
  lemma LexOfSame(x: string, y: string, p: string, q: string)
    requires AllDigits(x) && AllDigits(y) && AllDigits(p) && AllDigits(q) && |x| < |y|
    requires DigitsValue(x) == DigitsValue(y) > 0
    ensures AllDigits(x + p) && AllDigits(y + q) && Lex(x + p, y + q) == 1
  {
    var z := Zeros(|y| - |x|);
    SameNumber(x, y);
    LexShifted(x, p, q, |y| - |x|);
    JoinBehind(y, z, x, q);
  }

  /** The first two components are 0, with more zeros in the second. */
  lemma ConcatOfZeros(a: seq<string>, b: seq<string>)
    requires Numeric(a) && Numeric(b) && a != [] && b != [] && |a[0]| < |b[0]|
    requires DigitsValue(a[0]) == 0 && DigitsValue(b[0]) == 0
    ensures var rest := Shift(|b[0]| - |a[0]|, b[1..]);
            && AllDigits(Concat(a)) && AllDigits(Concat(b)) && AllDigits(Concat(a[1..])) && AllDigits(Concat(rest))
            && Lex(Concat(a), Concat(b)) == Lex(Concat(a[1..]), Concat(rest))
  {
    var d, ra, rb := |b[0]| - |a[0]|, Concat(a[1..]), Concat(b[1..]);
    ConcatDigits(a[1..]);
    ConcatDigits(b[1..]);
    ConcatDigits(Shift(d, b[1..]));
    LexOfZeros(a[0], b[0], ra, rb);
    if b[1..] != [] {
      ConcatShift(d, b[1..]);
    } else {
      LexZerosLast(ra, d);
      EmptyJoin(Zeros(d));
    }
  }

  lemma ComponentsOfZeros(a: seq<string>, b: seq<string>, d: nat)
    requires Numeric(a) && Numeric(b) && a != [] && b != [] && DigitsValue(a[0]) == DigitsValue(b[0])
    ensures ByComponents(a, b) == ByComponents(a[1..], Shift(d, b[1..]))
  {
    ByComponentsShift(d, a[1..], b[1..]);
  }

  lemma LexZerosLast(s: string, d: nat)
    requires AllDigits(s)
    ensures Lex(s, Zeros(d)) == Lex(s, "")
  {
    LexZeros(d, s);
    LexSymmetry(s, Zeros(d));
    LexSymmetry(s, "");
  }

  lemma EmptyJoin(s: string)
    ensures "" + s == s && s + "" == s
  {
  }

  /** The first two components are one number above 0, with more zeros in the second. */
  lemma ConcatOfSame(a: seq<string>, b: seq<string>)
    requires Numeric(a) && Numeric(b) && a != [] && b != [] && |a[0]| < |b[0]|
    requires DigitsValue(a[0]) == DigitsValue(b[0]) > 0
    ensures AllDigits(Concat(a)) && AllDigits(Concat(b)) && Lex(Concat(a), Concat(b)) == 1
  {
    ConcatDigits(a[1..]);
    ConcatDigits(b[1..]);
    LexOfSame(a[0], b[0], Concat(a[1..]), Concat(b[1..]));
  }

  /** The order of the digit strings is the order by components, if and only if the condition
      holds. */
  ghost predicate Agree(a: seq<string>, b: seq<string>)
    requires Numeric(a) && Numeric(b)
  {
    ConcatDigits(a);
    ConcatDigits(b);
    Lex(Concat(a), Concat(b)) == ByComponents(a, b) <==> InOrder(a, b)
  }

  lemma {:induction false} LexIsByComponents(a: seq<string>, b: seq<string>)
    requires Numeric(a) && Numeric(b)
    ensures Agree(a, b)
    decreases |a| + |b|
  {
    if a == [] || b == [] {
      NothingLeft(a, b);
    } else if |a[0]| == |b[0]| {
      if DigitsValue(a[0]) == DigitsValue(b[0]) {
        LexIsByComponents(a[1..], b[1..]);
      }
      SameWidth(a, b);
    } else if DigitsValue(a[0]) != DigitsValue(b[0]) {
      ValuesDiffer(a, b);
    } else if DigitsValue(a[0]) > 0 {
      SameInFront(a, b);
    } else if |a[0]| < |b[0]| {
      LexIsByComponents(a[1..], Shift(|b[0]| - |a[0]|, b[1..]));
      ZerosOnTheRight(a, b);
    } else {
      LexIsByComponents(Shift(|a[0]| - |b[0]|, a[1..]), b[1..]);
      ZerosOnTheLeft(a, b);
    }
  }

  lemma NothingLeft(a: seq<string>, b: seq<string>)
    requires Numeric(a) && Numeric(b) && (a == [] || b == [])
    ensures Agree(a, b)
  {
    if b == [] {
      LexAgainstNothing(a);
    } else {
      LexAgainstNothing(b);
      LexSymmetry("", Concat(b));
      ByComponentsSymmetry(a, b);
    }
  }

  lemma ValuesDiffer(a: seq<string>, b: seq<string>)
    requires Numeric(a) && Numeric(b) && a != [] && b != [] && |a[0]| != |b[0]|
    requires DigitsValue(a[0]) != DigitsValue(b[0])
    ensures Agree(a, b)
  {
    ConcatDigits(a);
    ConcatDigits(b);
    LexSymmetry(Concat(a), Concat(b));
  }

  lemma ZerosOnTheRight(a: seq<string>, b: seq<string>)
    requires Numeric(a) && Numeric(b) && a != [] && b != [] && |a[0]| < |b[0]|
    requires DigitsValue(a[0]) == 0 && DigitsValue(b[0]) == 0 && Agree(a[1..], Shift(|b[0]| - |a[0]|, b[1..]))
    ensures Agree(a, b)
  {
    ConcatDigits(a);
    ConcatDigits(b);
    ConcatDigits(a[1..]);
    ConcatDigits(Shift(|b[0]| - |a[0]|, b[1..]));
    ConcatOfZeros(a, b);
    ComponentsOfZeros(a, b, |b[0]| - |a[0]|);
    InOrderOfZeros(a, b);
  }

  lemma InOrderOfZeros(a: seq<string>, b: seq<string>)
    requires Numeric(a) && Numeric(b) && a != [] && b != [] && |a[0]| < |b[0]|
    requires DigitsValue(a[0]) == 0 && DigitsValue(b[0]) == 0
    ensures InOrder(a, b) <==> InOrder(a[1..], Shift(|b[0]| - |a[0]|, b[1..]))
  {
  }

  lemma ZerosOnTheLeft(a: seq<string>, b: seq<string>)
    requires Numeric(a) && Numeric(b) && a != [] && b != [] && |a[0]| > |b[0]|
    requires DigitsValue(a[0]) == 0 && DigitsValue(b[0]) == 0 && Agree(Shift(|a[0]| - |b[0]|, a[1..]), b[1..])
    ensures Agree(a, b)
  {
    var rest := Shift(|a[0]| - |b[0]|, a[1..]);
    ConcatOfZeros(b, a);
    ComponentsOfZeros(b, a, |a[0]| - |b[0]|);
    Mirrored(a, b, rest, b[1..]);
    InOrderOfLeftZeros(a, b);
  }

  lemma InOrderOfLeftZeros(a: seq<string>, b: seq<string>)
    requires Numeric(a) && Numeric(b) && a != [] && b != [] && |a[0]| > |b[0]|
    requires DigitsValue(a[0]) == 0 && DigitsValue(b[0]) == 0
    ensures InOrder(a, b) <==> InOrder(Shift(|a[0]| - |b[0]|, a[1..]), b[1..])
  {
  }

  /** Both orders swap sign with their arguments. */
  lemma Mirrored(a: seq<string>, b: seq<string>, c: seq<string>, d: seq<string>)
    requires Numeric(a) && Numeric(b) && Numeric(c) && Numeric(d)
    ensures AllDigits(Concat(a)) && AllDigits(Concat(b)) && AllDigits(Concat(c)) && AllDigits(Concat(d))
    ensures Lex(Concat(a), Concat(b)) == -Lex(Concat(b), Concat(a)) && ByComponents(a, b) == -ByComponents(b, a)
    ensures Lex(Concat(c), Concat(d)) == -Lex(Concat(d), Concat(c)) && ByComponents(c, d) == -ByComponents(d, c)
  {
    ConcatDigits(a);
    ConcatDigits(b);
    ConcatDigits(c);
    ConcatDigits(d);
    LexSymmetry(Concat(a), Concat(b));
    LexSymmetry(Concat(c), Concat(d));
    ByComponentsSymmetry(a, b);
    ByComponentsSymmetry(c, d);
  }

  lemma SameInFront(a: seq<string>, b: seq<string>)
    requires Numeric(a) && Numeric(b) && a != [] && b != [] && |a[0]| != |b[0]|
    requires DigitsValue(a[0]) == DigitsValue(b[0]) > 0
    ensures Agree(a, b)
  {
    if |a[0]| < |b[0]| {
      ConcatOfSame(a, b);
    } else {
      ConcatOfSame(b, a);
      LexSymmetry(Concat(a), Concat(b));
    }
  }

  lemma SameWidth(a: seq<string>, b: seq<string>)
    requires Numeric(a) && Numeric(b) && a != [] && b != [] && |a[0]| == |b[0]|
    requires DigitsValue(a[0]) == DigitsValue(b[0]) ==> Agree(a[1..], b[1..])
    ensures Agree(a, b)
  {
    ConcatDigits(a[1..]);
    ConcatDigits(b[1..]);
    ValueIsLex(a[0], b[0]);
    LexAppend(a[0], b[0], Concat(a[1..]), Concat(b[1..]));
  }

  /** The comparison is the usual one exactly if the condition holds. */
  lemma ComparesByComponents(one: string, two: string)
    requires Numeric(Components(one)) && Numeric(Components(two)) && (Digits(one) != "" || Digits(two) != "")
    ensures Compare(one, two) == Return(ByComponents(Components(one), Components(two))) <==>
            InOrder(Components(one), Components(two))
  {
    NumericIsUnsigned(one);
    NumericIsUnsigned(two);
    LexIsByComponents(Components(one), Components(two));
  }

  /** Components that are numbers have no sign. */
  lemma NumericIsUnsigned(version: string)
    requires Numeric(Components(version))
    ensures AllDigits(Raw(version)) && Digits(version) == Raw(version) == Concat(Components(version))
    ensures !LoneSign(Raw(version))
  {
    DigitsAreComponents(Release(version));
    ConcatDigits(Components(version));
    assert Raw(version) != "" ==> IsDigit(Raw(version)[0]);
  }

  /** Single digits, as in 1.4.2, meet the condition. */
  lemma {:induction false} SingleDigitsInOrder(a: seq<string>, b: seq<string>)
    requires Numeric(a) && Numeric(b)
    requires forall i :: 0 <= i < |a| ==> |a[i]| == 1
    requires forall i :: 0 <= i < |b| ==> |b[i]| == 1
    ensures InOrder(a, b)
  {
    if a != [] && b != [] {
      SingleDigitsInOrder(a[1..], b[1..]);
    }
  }

  lemma WideDigits()
    ensures Digits("1.10") == "110" && Digits("1.9") == "19"
    ensures Components("1.10") == ["1", "10"] && Components("1.9") == ["1", "9"]
  {
    assert "1.10" == "1" + "." + "10" && "1.9" == "1" + "." + "9";
    TwoParts("1", "10");
    TwoParts("1", "9");
  }

  lemma TwoParts(a: string, b: string)
    requires AllDigits(a) && AllDigits(b) && a != ""
    ensures Digits(a + "." + b) == a + b && Components(a + "." + b) == [a, b]
  {
    SplitNothing(a + "." + b, '-');
    DotInside(a, b);
    TwoComponents(a, b);
    assert Release(a + "." + b) == a + "." + b;
    assert Raw(a + "." + b) == a + b && (a + b)[0] == a[0] && IsDigit(a[0]);
  }

  lemma {:induction false} TwoComponents(a: string, b: string)
    requires '.' !in a && '.' !in b
    ensures SplitOn(a + "." + b, '.') == [a, b]
  {
    var s := a + "." + b;
    if a == "" {
      assert s[0] == '.' && s[1..] == b;
      SplitNothing(b, '.');
    } else {
      assert s[0] == a[0] && s[1..] == a[1..] + "." + b;
      TwoComponents(a[1..], b);
      assert [a[0]] + a[1..] == a;
    }
  }

  lemma WideLex()
    ensures AllDigits("110") && AllDigits("19") && Lex("110", "19") == -1
  {
    assert Rest("110") == "10" && Rest("19") == "9";
  }

  lemma WideByComponents()
    ensures Numeric(["1", "10"]) && Numeric(["1", "9"]) && ByComponents(["1", "10"], ["1", "9"]) == 1
  {
    assert ["1", "10"][1..] == ["10"] && ["1", "9"][1..] == ["9"];
    DigitsValueAppend("1", '0');
    assert "1" + ['0'] == "10";
    DigitsValueAppend("", '1');
    DigitsValueAppend("", '9');
    assert "" + ['1'] == "1" && "" + ['9'] == "9";
    assert DigitsValue("10") == 10 && DigitsValue("9") == 9;
  }

  /** With wider components the order can be wrong: 1.10 counts as older than 1.9. */
  lemma WideComponentsDisagree()
    ensures Compare("1.10", "1.9") == Return(-1)
    ensures Numeric(Components("1.10")) && Numeric(Components("1.9"))
    ensures ByComponents(Components("1.10"), Components("1.9")) == 1
  {
    WideDigits();
    WideLex();
    WideByComponents();
  }

  lemma {:induction false} SplitNothing(s: string, c: char)
    requires c !in s
    ensures SplitOn(s, c) == [s]
  {
    if s != "" {
      SplitNothing(s[1..], c);
      assert s == [s[0]] + s[1..];
    }
  }

  lemma {:induction false} DotInside(a: string, b: string)
    requires '.' !in a && '.' !in b
    ensures RemoveDots(a + "." + b) == a + b
  {
    if a == "" {
      if b == "" {
        assert (a + "." + b)[1..] == "";
      } else {
        assert (a + "." + b)[1..] == b;
        NoDots(b);
      }
    } else {
      assert (a + "." + b)[1..] == a[1..] + "." + b;
      DotInside(a[1..], b);
      assert [a[0]] + (a[1..] + b) == a + b;
    }
  }

  lemma {:induction false} NoDots(s: string)
    requires '.' !in s
    ensures RemoveDots(s) == s
  {
    if s != "" {
      NoDots(s[1..]);
    }
  }

  // ----- check_xattr_support -----

  const MIN_SERVER := "5.0.0"
  const MIN_SYNC_GATEWAY := "1.5"

  function CheckXattrSupport(server: string, syncGateway: string): Outcome<()> {
    var s :- Compare(server, MIN_SERVER);
    if s < 0 then Raise(FeatureSupportedError)
    else
      var g :- Compare(syncGateway, MIN_SYNC_GATEWAY);
      if g < 0 then Raise(FeatureSupportedError) else Return(())
  }

  lemma MinimaHaveDigits()
    ensures |Digits(MIN_SERVER)| >= 2 && |Digits(MIN_SYNC_GATEWAY)| >= 2
  {
    SplitNothing(MIN_SERVER, '-');
    SplitNothing(MIN_SYNC_GATEWAY, '-');
    assert MIN_SERVER[1..] == ".0.0" && ".0.0"[1..] == "0.0";
    assert MIN_SYNC_GATEWAY[1..] == ".5" && ".5"[1..] == "5";
  }

  lemma MinimumDigits()
    ensures Digits("5.0.0") == "500" && Digits("1.5") == "15" && AllDigits("500") && AllDigits("15")
  {
    assert "1.5" == "1" + "." + "5" && "1" + "5" == "15";
    TwoParts("1", "5");
    assert "5.0.0" == "5" + "." + ("0" + "." + "0") && "5" + ("0" + "0") == "500";
    ThreeParts("5", "0", "0");
  }

  lemma ThreeParts(a: string, b: string, c: string)
    requires AllDigits(a) && AllDigits(b) && AllDigits(c) && a != ""
    ensures Digits(a + "." + (b + "." + c)) == a + (b + c)
  {
    var version := a + "." + (b + "." + c);
    SplitNothing(version, '-');
    DropDot(a, b + "." + c);
    DotInside(b, c);
    assert Raw(version) == a + (b + c) && (a + (b + c))[0] == a[0] && IsDigit(a[0]);
  }

  lemma {:induction false} DropDot(a: string, rest: string)
    requires '.' !in a
    ensures RemoveDots(a + "." + rest) == a + RemoveDots(rest)
  {
    var s := a + "." + rest;
    if a == "" {
      assert s[0] == '.' && s[1..] == rest;
    } else {
      assert s[0] == a[0] && s[1..] == a[1..] + "." + rest;
      DropDot(a[1..], rest);
      assert [a[0]] + (a[1..] + RemoveDots(rest)) == a + RemoveDots(rest);
    }
  }

  /** The support asks for a server from 5.0.0 on and a gateway from 1.5 on, digit by digit. */
  lemma XattrSupportMeans(server: string, syncGateway: string)
    requires IsNumber(server) && IsNumber(syncGateway)
    ensures AllDigits("500") && AllDigits("15")
    ensures CheckXattrSupport(server, syncGateway) ==
            if Lex(Digits(server), "500") >= 0 && Lex(Digits(syncGateway), "15") >= 0 then Return(())
            else Raise(FeatureSupportedError)
  {
    MinimumDigits();
  }

  /** A newer version of either product never loses the support. */
  lemma XattrSupportIsMonotone(server: string, syncGateway: string, server': string, syncGateway': string)
    requires CheckXattrSupport(server, syncGateway) == Return(())
    requires Compare(server, server').Return? && Compare(server, server').value <= 0
    requires Compare(syncGateway, syncGateway').Return? && Compare(syncGateway, syncGateway').value <= 0
    ensures CheckXattrSupport(server', syncGateway') == Return(())
  {
    MinimaHaveDigits();
    StillAbove(MIN_SERVER, server, server');
    StillAbove(MIN_SYNC_GATEWAY, syncGateway, syncGateway');
  }

  lemma StillAbove(minimum: string, version: string, version': string)
    requires |Digits(minimum)| >= 2 && Compare(version, minimum).Return? && Compare(version, minimum).value >= 0
    requires Compare(version, version').Return? && Compare(version, version').value <= 0
    ensures Compare(version', minimum).Return? && Compare(version', minimum).value >= 0
  {
    var m, v, w := Digits(minimum), Digits(version), Digits(version');
    LexSymmetry(v, m);
    LexTransitive(m, v, w);
    LexSymmetry(m, w);
  }
}
