/** The Python built-ins that the modelled code relies on: exceptions, string tests,
    splitting, and decimal text. */
module Python {

  datatype Option<+T> = None | Some(value: T) {
    predicate IsFailure() { None? }
    function PropagateFailure<U>(): Option<U>
      requires None?
    {
      None
    }
    function Extract(): T
      requires Some?
    {
      value
    }
  }

  /** The exceptions that the modelled code raises or lets through. */
  datatype Exception =
    | ValueError | RuntimeError | KeyError | IndexError | TypeError | OverflowError | AssertionError
    | ChangesError | RestError | TimeoutError | ConflictError | UnboundLocalError | FeatureSupportedError
    | NotEnoughNodes | NotOwner | ReplicationError | IncompleteReplication | BadProgress | ProvisioningError

  /** How a call ends: with a value or with an exception. */
  datatype Outcome<+T> = Return(value: T) | Raise(error: Exception) {
    predicate IsFailure() { Raise? }
    function PropagateFailure<U>(): Outcome<U>
      requires Raise?
    {
      Raise(error)
    }
    function Extract(): T
      requires Return?
    {
      value
    }
  }

  predicate StartsWith(s: string, prefix: string) {
    |prefix| <= |s| && forall i :: 0 <= i < |prefix| ==> s[i] == prefix[i]
  }

  predicate EndsWith(s: string, suffix: string) {
    |suffix| <= |s| && s[|s| - |suffix|..] == suffix
  }

  /** `needle in s` */
  predicate Contains(s: string, needle: string) {
    exists i :: 0 <= i <= |s| && needle <= s[i..]
  }

  /** `s.split(c)` for a single-character separator. */
  function SplitOn(s: string, c: char): (parts: seq<string>)
    ensures |parts| >= 1
    ensures forall p <- parts :: c !in p
  {
    if s == "" then [""]
    else
      var rest := SplitOn(s[1..], c);
      if s[0] == c then [""] + rest else [[s[0]] + rest[0]] + rest[1..]
  }

  /** A text in front of a separator is the first part of the split. */
  lemma {:induction false} SplitHead(head: string, c: char, tail: string)
    requires c !in head
    ensures SplitOn(head + [c] + tail, c)[0] == head
  {
    if head == "" {
      assert (head + [c] + tail)[0] == c;
    } else {
      assert (head + [c] + tail)[1..] == head[1..] + [c] + tail;
      SplitHead(head[1..], c, tail);
    }
  }

  // ----- decimal text -----

  predicate IsDigit(c: char) { '0' <= c <= '9' }

  predicate AllDigits(s: string) {
    forall c <- s :: IsDigit(c)
  }

  function DigitValue(c: char): (d: nat)
    requires IsDigit(c)
    ensures d < 10
  {
    c as int - '0' as int
  }

  function DigitChar(d: nat): (c: char)
    requires d < 10
    ensures IsDigit(c) && DigitValue(c) == d
  {
    ('0' as int + d) as char
  }

  /** The number that a string of digits denotes (0 for the empty string). */
  function DigitsValue(s: string): nat
    requires AllDigits(s)
  {
    if s == "" then 0 else 10 * DigitsValue(s[..|s| - 1]) + DigitValue(s[|s| - 1])
  }

  function ShowNat(n: nat): (s: string)
    ensures s != "" && AllDigits(s)
  {
    if n < 10 then [DigitChar(n)] else ShowNat(n / 10) + [DigitChar(n % 10)]
  }

  /** `str(n)` for an int. */
  function ShowInt(n: int): string {
    if n < 0 then "-" + ShowNat(-n) else ShowNat(n)
  }

  /** `int(s)` for an optional sign and plain digits. */
  function ParseInt(s: string): Outcome<int> {
    var body := if s != "" && (s[0] == '-' || s[0] == '+') then s[1..] else s;
    if body == "" || !AllDigits(body) then Raise(ValueError)
    else
      var magnitude: int := DigitsValue(body);
      Return(if s[0] == '-' then -magnitude else magnitude)
  }

  lemma {:induction false} ShowNatValue(n: nat)
    ensures DigitsValue(ShowNat(n)) == n
  {
    if n < 10 {
      assert ShowNat(n)[..0] == "";
    } else {
      ShowNatValue(n / 10);
      assert ShowNat(n)[..|ShowNat(n)| - 1] == ShowNat(n / 10);
    }
  }

  /** `int(str(n)) == n` */
  lemma ParseShowInt(n: int)
    ensures ParseInt(ShowInt(n)) == Return(n)
  {
    ShowNatValue(if n < 0 then -n else n);
    if n < 0 {
      assert ShowInt(n)[1..] == ShowNat(-n);
    } else {
      assert IsDigit(ShowNat(n)[0]);
    }
  }

  /** The value of a concatenation of digit strings. */
  lemma {:induction false} DigitsValueAppend(s: string, c: char)
    requires AllDigits(s) && IsDigit(c)
    ensures AllDigits(s + [c]) && DigitsValue(s + [c]) == 10 * DigitsValue(s) + DigitValue(c)
  {
    assert (s + [c])[..|s + [c]| - 1] == s;
  }

  /** Python's `int(a / b)`: division truncated toward zero. */
  function TruncDiv(a: int, b: int): (q: int)
    requires b > 0
    ensures a >= 0 ==> q * b <= a < (q + 1) * b
    ensures a < 0 ==> (q - 1) * b < a <= q * b
  {
    if a >= 0 then a / b else -((-a) / b)
  }

  // ----- lists -----

  /** The elements that a test accepts, in order. */
  function Filter<T>(test: T -> bool, s: seq<T>): seq<T> {
    if s == [] then []
    else
      var n := |s| - 1;
      Filter(test, s[..n]) + if test(s[n]) then [s[n]] else []
  }

  lemma FilterOneMore<T>(test: T -> bool, s: seq<T>, k: nat)
    requires k < |s|
    ensures Filter(test, s[..k + 1]) == Filter(test, s[..k]) + if test(s[k]) then [s[k]] else []
  {
    assert s[..k + 1][..k] == s[..k];
  }

  lemma {:induction false} FilterMembers<T>(test: T -> bool, s: seq<T>)
    ensures forall e :: e in Filter(test, s) <==> e in s && test(e)
  {
    if s != [] {
      FilterMembers(test, s[..|s| - 1]);
    }
  }

  predicate Distinct<T(==)>(s: seq<T>) {
    forall i, j :: 0 <= i < j < |s| ==> s[i] != s[j]
  }

  lemma {:induction false} FilterDistinct<T>(test: T -> bool, s: seq<T>)
    requires Distinct(s)
    ensures Distinct(Filter(test, s))
  {
    if s != [] {
      FilterDistinct(test, s[..|s| - 1]);
      FilterMembers(test, s[..|s| - 1]);
    }
  }

  /** The elements that a test rejects, in order. */
  function Reject<T>(test: T -> bool, s: seq<T>): seq<T> {
    if s == [] then []
    else
      var n := |s| - 1;
      Reject(test, s[..n]) + if test(s[n]) then [] else [s[n]]
  }

  /** What a test accepts and what it rejects are together everything. */
  lemma {:induction false} FilterConserves<T>(test: T -> bool, s: seq<T>)
    ensures |Filter(test, s)| + |Reject(test, s)| == |s|
    ensures forall e :: e in Reject(test, s) <==> e in s && !test(e)
  {
    if s != [] {
      var n := |s| - 1;
      FilterConserves(test, s[..n]);
      assert s == s[..n] + [s[n]];
    }
  }

  /** What a function yields for the elements, one after the other. */
  function Gather<T, U>(f: T -> seq<U>, s: seq<T>): seq<U> {
    if s == [] then [] else Gather(f, s[..|s| - 1]) + f(s[|s| - 1])
  }

  lemma GatherOneMore<T, U>(f: T -> seq<U>, s: seq<T>, e: T)
    ensures Gather(f, s + [e]) == Gather(f, s) + f(e)
  {
    assert (s + [e])[..|s|] == s;
  }

  lemma GatherOne<T, U>(f: T -> seq<U>, e: T)
    ensures Gather(f, [e]) == f(e)
  {
    GatherOneMore(f, [], e);
    assert [] + [e] == [e];
  }

  lemma {:induction false} GatherAppend<T, U>(f: T -> seq<U>, a: seq<T>, b: seq<T>)
    ensures Gather(f, a + b) == Gather(f, a) + Gather(f, b)
  {
    if b == [] {
      assert a + b == a;
    } else {
      var n := |b| - 1;
      assert a + b == (a + b[..n]) + [b[n]];
      GatherAppend(f, a, b[..n]);
      GatherOneMore(f, a + b[..n], b[n]);
    }
  }

  lemma GatherFirst<T, U>(f: T -> seq<U>, s: seq<T>)
    requires s != []
    ensures Gather(f, s) == f(s[0]) + Gather(f, s[1..])
  {
    assert s == [s[0]] + s[1..];
    GatherAppend(f, [s[0]], s[1..]);
    GatherOne(f, s[0]);
  }

  lemma {:induction false} GatherNothing<T, U>(f: T -> seq<U>, s: seq<T>)
    requires forall i :: 0 <= i < |s| ==> f(s[i]) == []
    ensures Gather(f, s) == []
  {
    if s != [] {
      GatherNothing(f, s[..|s| - 1]);
    }
  }

  lemma {:induction false} GatherMember<T, U>(f: T -> seq<U>, s: seq<T>, e: U)
    ensures e in Gather(f, s) <==> exists i :: 0 <= i < |s| && e in f(s[i])
  {
    if s != [] {
      var n := |s| - 1;
      GatherMember(f, s[..n], e);
      assert forall i :: 0 <= i < n ==> s[..n][i] == s[i];
    }
  }

  /** Gathering in two rounds is gathering in one. */
  lemma {:induction false} GatherTwice<S, T, U>(f: T -> seq<U>, g: S -> seq<T>, h: S -> seq<U>, s: seq<S>)
    requires forall i :: 0 <= i < |s| ==> Gather(f, g(s[i])) == h(s[i])
    ensures Gather(f, Gather(g, s)) == Gather(h, s)
  {
    if s != [] {
      var n := |s| - 1;
      GatherTwice(f, g, h, s[..n]);
      GatherAppend(f, Gather(g, s[..n]), g(s[n]));
    }
  }
}
