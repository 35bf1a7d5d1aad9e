/** The deep comparison of `keywords/utils.py` in its exact mode: `compare_generic_types`,
    `deep_list_compare` and `deep_dict_compare`. */
module DeepCompare {
  import opened Python
  import opened OrderedDict

  /** A float: a finite number, an infinity or not a number. */
  datatype Number = Finite(r: real) | Infinity(positive: bool) | NaN

  datatype Value =
    | Null
    | Bool(b: bool)
    | Int(i: int)
    | Float(f: Number)
    | Str(s: string)
    | List(items: seq<Value>)
    | Dict(entries: seq<Entry<Value>>)

  /** `isinstance(v, int)`, which includes the bools. */
  predicate IsInt(v: Value) { v.Int? || v.Bool? }

  function AsInt(v: Value): int
    requires IsInt(v)
  {
    if v.Int? then v.i else if v.b then 1 else 0
  }

  /** `int(r)` for a finite float. */
  function Truncate(r: real): int {
    if r >= 0.0 then r.Floor else -((-r).Floor)
  }

  /** A finite float without a fractional part. */
  predicate Integral(f: Number) {
    f.Finite? && f.r == Truncate(f.r) as real
  }

  /** An int is compared with the truncated float, but a float with the exact int; and only the
      first of the two needs the float to be finite. */
  function CompareGeneric(a: Value, b: Value): Outcome<bool> {
    if a.Null? && b.Null? then Return(true)
    else if a.Str? && b.Str? then Return(a.s == b.s)
    else if a.Bool? && b.Bool? then Return(a.b == b.b)
    else if IsInt(a) && IsInt(b) then Return(AsInt(a) == AsInt(b))
    else if a.Float? && b.Float? then Return(a.f == b.f && !a.f.NaN?)
    else if a.Float? && IsInt(b) then Return(a.f == Finite(AsInt(b) as real))
    else if IsInt(a) && b.Float? then
      match b.f
      case Finite(r) => Return(AsInt(a) == Truncate(r))
      case Infinity(_) => Raise(OverflowError)
      case NaN => Raise(ValueError)
    else Return(false)
  }

  // ----- the comparison as functions -----

  function Deep(a: Value, b: Value): Outcome<bool>
    decreases a, 1
  {
    if a.Dict? && b.Dict? then DeepDict(a.entries, b.entries)
    else if a.List? && b.List? then DeepItems(a.items, b.items)
    else CompareGeneric(a, b)
  }

  /** The elements of the first list, in turn; the second must have as many. */
  function DeepItems(xs: seq<Value>, ys: seq<Value>): Outcome<bool>
    decreases xs, 0
  {
    if xs == [] then Return(true)
    else if ys == [] then Raise(IndexError)
    else
      var same :- Deep(xs[0], ys[0]);
      if same then DeepItems(xs[1..], ys[1..]) else Return(false)
  }

  /** The entries of the first dict, in turn, except for deleted keys. */
  function DeepEntries(xs: seq<Entry<Value>>, deleted: set<string>, d: seq<Entry<Value>>): Outcome<bool>
    decreases xs, 0
  {
    if xs == [] then Return(true)
    else if xs[0].key in deleted then DeepEntries(xs[1..], deleted, d)
    else
      var other := Get(d, xs[0].key);
      if other.None? then Raise(KeyError)
      else
        var same :- Deep(xs[0].value, other.value);
        if same then DeepEntries(xs[1..], deleted, d) else Return(false)
  }

  const STUB_KEYS := {"stub", "revpos", "ver"}

  /** Dicts of different size are different, unless the first is an attachment stub, which
      loses its bookkeeping keys first. */
  function DeepDict(xs: seq<Entry<Value>>, ys: seq<Entry<Value>>): Outcome<bool>
    decreases xs, 1
  {
    if |xs| == |ys| then DeepEntries(xs, {}, ys)
    else if Get(xs, "stub").None? then Return(false)
    else if Get(xs, "revpos").None? then Raise(KeyError)
    else DeepEntries(xs, STUB_KEYS, ys)
  }

  // ----- what the comparison leaves of its first argument -----

  /** A dict without some of its keys. */
  function Without(d: seq<Entry<Value>>, keys: set<string>): seq<Entry<Value>> {
    if d == [] then [] else (if d[0].key in keys then [] else [d[0]]) + Without(d[1..], keys)
  }

  /** The first value after the comparison, which deletes keys from it in place. */
  function Rest(a: Value, b: Value): Value
    decreases a, 1
  {
    if a.Dict? && b.Dict? then Dict(RestDict(a.entries, b.entries))
    else if a.List? && b.List? then List(RestItems(a.items, b.items))
    else a
  }

  /** The elements that were compared, and the others as they were. */
  function RestItems(xs: seq<Value>, ys: seq<Value>): seq<Value>
    decreases xs, 0
  {
    if xs == [] || ys == [] then xs
    else [Rest(xs[0], ys[0])] + if Deep(xs[0], ys[0]) == Return(true) then RestItems(xs[1..], ys[1..]) else xs[1..]
  }

  function RestEntries(xs: seq<Entry<Value>>, deleted: set<string>, d: seq<Entry<Value>>): seq<Entry<Value>>
    decreases xs, 0
  {
    if xs == [] then []
    else if xs[0].key in deleted then RestEntries(xs[1..], deleted, d)
    else
      var other := Get(d, xs[0].key);
      if other.None? then Without(xs, deleted)
      else
        [Entry(xs[0].key, Rest(xs[0].value, other.value))]
        + if Deep(xs[0].value, other.value) == Return(true) then RestEntries(xs[1..], deleted, d)
          else Without(xs[1..], deleted)
  }

  /** Without a "revpos" the "stub" is gone when the deletion fails. */
  function RestDict(xs: seq<Entry<Value>>, ys: seq<Entry<Value>>): seq<Entry<Value>>
    decreases xs, 1
  {
    if |xs| == |ys| then RestEntries(xs, {}, ys)
    else if Get(xs, "stub").None? then xs
    else if Get(xs, "revpos").None? then Without(xs, {"stub"})
    else RestEntries(xs, STUB_KEYS, ys)
  }

  // ----- the comparison as the loops that compute it -----

  /** Compares two values of one kind or of two, as both loops do with their elements. */
  method DeepCompareValues(a: Value, b: Value) returns (r: Outcome<bool>, rest: Value)
    ensures r == Deep(a, b) && rest == Rest(a, b)
    decreases a, 1
  {
    if a.Dict? && b.Dict? {
      var entries;
      r, entries := DeepDictCompare(a.entries, b.entries);
      rest := Dict(entries);
    } else if a.List? && b.List? {
      var items;
      r, items := DeepListCompare(a.items, b.items);
      rest := List(items);
    } else {
      r, rest := CompareGeneric(a, b), a;
    }
  }

  method DeepListCompare(xs: seq<Value>, ys: seq<Value>) returns (r: Outcome<bool>, rest: seq<Value>)
    ensures r == DeepItems(xs, ys) && rest == RestItems(xs, ys)
    decreases xs, 0
  {
    rest := [];
    for x := 0 to |xs|
      invariant x <= |ys| && DeepItems(xs, ys) == DeepItems(xs[x..], ys[x..])
      invariant RestItems(xs, ys) == rest + RestItems(xs[x..], ys[x..])
    {
      if x >= |ys| {
        return Raise(IndexError), rest + xs[x..];
      }
      assert xs[x..][1..] == xs[x + 1..] && ys[x..][1..] == ys[x + 1..];
      var same, item := DeepCompareValues(xs[x], ys[x]);
      AppendOne(rest, item, RestItems(xs[x..], ys[x..])[1..]);
      rest := rest + [item];
      if same != Return(true) {
        return same, rest + xs[x + 1..];
      }
    }
    r := Return(true);
  }

  lemma AppendOne<T>(a: seq<T>, e: T, b: seq<T>)
    ensures a + ([e] + b) == (a + [e]) + b
  {
  }

  method DeepDictCompare(xs: seq<Entry<Value>>, ys: seq<Entry<Value>>)
    returns (r: Outcome<bool>, rest: seq<Entry<Value>>)
    ensures r == DeepDict(xs, ys) && rest == RestDict(xs, ys)
    decreases xs, 1
  {
    var deleted := {};
    if |xs| != |ys| {
      if Get(xs, "stub").Some? {
        if Get(xs, "revpos").None? {
          return Raise(KeyError), Without(xs, {"stub"});
        }
        deleted := STUB_KEYS;
      } else {
        return Return(false), xs;
      }
    }
    r, rest := DeepCompareKeys(xs, deleted, ys);
  }

  /** The loop over the keys that are left. */
  method DeepCompareKeys(xs: seq<Entry<Value>>, deleted: set<string>, ys: seq<Entry<Value>>)
    returns (r: Outcome<bool>, rest: seq<Entry<Value>>)
    ensures r == DeepEntries(xs, deleted, ys) && rest == RestEntries(xs, deleted, ys)
    decreases xs, 0
  {
    rest := [];
    for i := 0 to |xs|
      invariant DeepEntries(xs, deleted, ys) == DeepEntries(xs[i..], deleted, ys)
      invariant RestEntries(xs, deleted, ys) == rest + RestEntries(xs[i..], deleted, ys)
    {
      assert xs[i..][1..] == xs[i + 1..] && xs[i..][0] == xs[i];
      if xs[i].key in deleted {
        continue;
      }
      var other := Get(ys, xs[i].key);
      if other.None? {
        return Raise(KeyError), rest + Without(xs[i..], deleted);
      }
      var same, value := DeepCompareValues(xs[i].value, other.value);
      AppendOne(rest, Entry(xs[i].key, value), RestEntries(xs[i..], deleted, ys)[1..]);
      rest := rest + [Entry(xs[i].key, value)];
      if same != Return(true) {
        return same, rest + Without(xs[i + 1..], deleted);
      }
    }
    r := Return(true);
  }

  // ----- what a True answer means -----

  /** The comparison completes and answers True. */
  predicate Same(a: Value, b: Value) { Deep(a, b) == Return(true) }

  lemma {:induction false} SameItems(xs: seq<Value>, ys: seq<Value>)
    ensures DeepItems(xs, ys) == Return(true) <==>
            |xs| <= |ys| && forall i :: 0 <= i < |xs| ==> Same(xs[i], ys[i])
  {
    if xs != [] && ys != [] {
      SameItems(xs[1..], ys[1..]);
      assert forall i :: 1 <= i < |xs| ==> xs[i] == xs[1..][i - 1];
      assert forall i :: 1 <= i < |ys| ==> ys[i] == ys[1..][i - 1];
    }
  }

  ghost predicate HasSame(d: seq<Entry<Value>>, e: Entry<Value>) {
    Get(d, e.key).Some? && Same(e.value, Get(d, e.key).value)
  }

  lemma {:induction false} SameEntries(xs: seq<Entry<Value>>, d: seq<Entry<Value>>)
    ensures DeepEntries(xs, {}, d) == Return(true) <==> forall i :: 0 <= i < |xs| ==> HasSame(d, xs[i])
  {
    if xs != [] {
      SameEntries(xs[1..], d);
      assert forall i :: 1 <= i < |xs| ==> xs[i] == xs[1..][i - 1];
    }
  }

  /** What Python guarantees of every dict. */
  ghost predicate WellFormed(v: Value) {
    match v
    case List(items) => forall i :: 0 <= i < |items| ==> WellFormed(items[i])
    case Dict(entries) =>
      DistinctKeys(entries) && forall i :: 0 <= i < |entries| ==> WellFormed(entries[i].value)
    case _ => true
  }

  /** No attachment stub anywhere. */
  ghost predicate NoStub(v: Value) {
    match v
    case List(items) => forall i :: 0 <= i < |items| ==> NoStub(items[i])
    case Dict(entries) =>
      Get(entries, "stub").None? && forall i :: 0 <= i < |entries| ==> NoStub(entries[i].value)
    case _ => true
  }

  ghost predicate NoNaN(v: Value) {
    match v
    case Float(f) => !f.NaN?
    case List(items) => forall i :: 0 <= i < |items| ==> NoNaN(items[i])
    case Dict(entries) => forall i :: 0 <= i < |entries| ==> NoNaN(entries[i].value)
    case _ => true
  }

  /** A value is the same as itself exactly if it holds no float that is not a number. */
  lemma {:induction false} SameReflexive(v: Value)
    requires WellFormed(v)
    ensures Same(v, v) <==> NoNaN(v)
  {
    match v
    case List(items) =>
      forall i | 0 <= i < |items| { SameReflexive(items[i]); }
      SameItems(items, items);
    case Dict(entries) =>
      forall i | 0 <= i < |entries|
        ensures HasSame(entries, entries[i]) <==> NoNaN(entries[i].value)
      {
        GetOwn(entries, i);
        SameReflexive(entries[i].value);
      }
      SameEntries(entries, entries);
      assert Deep(v, v) == DeepDict(entries, entries) == DeepEntries(entries, {}, entries);
    case _ =>
  }

  lemma SameDicts(xs: seq<Entry<Value>>, ys: seq<Entry<Value>>)
    requires Get(xs, "stub").None?
    ensures Same(Dict(xs), Dict(ys)) <==> |xs| == |ys| && forall i :: 0 <= i < |xs| ==> HasSame(ys, xs[i])
  {
    var a, b := Dict(xs), Dict(ys);
    assert Deep(a, b) == DeepDict(xs, ys);
    if |xs| == |ys| {
      assert DeepDict(xs, ys) == DeepEntries(xs, {}, ys);
      SameEntries(xs, ys);
    } else {
      assert DeepDict(xs, ys) == Return(false);
    }
  }

  // ----- when the comparison is transitive -----

  /** At no compared position is a float followed by an int and then by a float with a
      fractional part. */
  ghost predicate NoClash(a: Value, b: Value, c: Value)
    decreases a
  {
    if a.List? && b.List? && c.List? then
      forall i :: 0 <= i < |a.items| && i < |b.items| && i < |c.items| ==> NoClash(a.items[i], b.items[i], c.items[i])
    else if a.Dict? && b.Dict? && c.Dict? then
      forall i :: 0 <= i < |a.entries| ==> NoClashAt(a.entries[i], b.entries, c.entries)
    else !(a.Float? && IsInt(b) && c.Float? && !Integral(c.f))
  }

  ghost predicate NoClashAt(e: Entry<Value>, ys: seq<Entry<Value>>, zs: seq<Entry<Value>>)
    decreases e
  {
    var y, z := Get(ys, e.key), Get(zs, e.key);
    y.Some? && z.Some? ==> NoClash(e.value, y.value, z.value)
  }

  /** Of two True answers a third one follows exactly if there is no such clash. */
  lemma {:induction false} SameTransitive(a: Value, b: Value, c: Value)
    requires NoStub(a) && NoStub(b) && Same(a, b) && Same(b, c)
    ensures Same(a, c) <==> NoClash(a, b, c)
    decreases a, 1
  {
    if a.List? {
      ItemsTransitive(a.items, b.items, c.items);
    } else if a.Dict? {
      DictTransitive(a.entries, b.entries, c.entries);
    }
  }

  lemma {:induction false} ItemsTransitive(xs: seq<Value>, ys: seq<Value>, zs: seq<Value>)
    requires NoStub(List(xs)) && NoStub(List(ys)) && Same(List(xs), List(ys)) && Same(List(ys), List(zs))
    ensures Same(List(xs), List(zs)) <==> NoClash(List(xs), List(ys), List(zs))
    decreases xs, 0
  {
    SameItems(xs, ys);
    SameItems(ys, zs);
    SameItems(xs, zs);
    forall i | 0 <= i < |xs|
      ensures Same(xs[i], zs[i]) <==> NoClash(xs[i], ys[i], zs[i])
    {
      SameTransitive(xs[i], ys[i], zs[i]);
    }
  }

  lemma {:induction false} DictTransitive(xs: seq<Entry<Value>>, ys: seq<Entry<Value>>, zs: seq<Entry<Value>>)
    requires NoStub(Dict(xs)) && NoStub(Dict(ys))
    requires Same(Dict(xs), Dict(ys)) && Same(Dict(ys), Dict(zs))
    ensures Same(Dict(xs), Dict(zs)) <==> NoClash(Dict(xs), Dict(ys), Dict(zs))
    decreases xs, 0
  {
    SameDicts(xs, ys);
    SameDicts(ys, zs);
    SameDicts(xs, zs);
    forall i | 0 <= i < |xs|
      ensures HasSame(zs, xs[i]) <==> NoClashAt(xs[i], ys, zs)
    {
      assert HasSame(ys, xs[i]);
      var j := GetIndex(ys, xs[i].key);
      assert HasSame(zs, ys[j]);
      SameTransitive(xs[i].value, ys[j].value, Get(zs, xs[i].key).value);
    }
  }

  /** Such a clash. */
  lemma FloatsBreakTransitivity()
    ensures var a, b, c := Float(Finite(1.0)), Int(1), Float(Finite(1.5));
            Same(a, b) && Same(b, c) && !Same(a, c)
  {
    assert Truncate(1.5) == 1;
  }

  // ----- against structural equality -----

  /** A value without the order of its dicts and without the difference of bools, ints and
      floats that denote one number. */
  datatype Canon =
    | CNull
    | CNumber(r: real)
    | CInfinity(positive: bool)
    | CNaN
    | CStr(s: string)
    | CList(items: seq<Canon>)
    | CDict(entries: map<string, Canon>)

  function Canonical(v: Value): Canon
    decreases v, 1
  {
    match v
    case Null => CNull
    case Bool(_) => CNumber(AsInt(v) as real)
    case Int(i) => CNumber(i as real)
    case Float(Finite(r)) => CNumber(r)
    case Float(Infinity(positive)) => CInfinity(positive)
    case Float(NaN) => CNaN
    case Str(s) => CStr(s)
    case List(items) => CList(CanonicalItems(items))
    case Dict(entries) => CDict(CanonicalEntries(entries))
  }

  function CanonicalItems(items: seq<Value>): (r: seq<Canon>)
    ensures |r| == |items| && forall i :: 0 <= i < |items| ==> r[i] == Canonical(items[i])
    decreases items, 0
  {
    if items == [] then [] else [Canonical(items[0])] + CanonicalItems(items[1..])
  }

  function CanonicalEntries(entries: seq<Entry<Value>>): (r: map<string, Canon>)
    ensures forall k :: k in r <==> Get(entries, k).Some?
    ensures forall k :: k in r ==> r[k] == Canonical(Get(entries, k).value)
    decreases entries, 0
  {
    if entries == [] then map[]
    else CanonicalEntries(entries[1..])[entries[0].key := Canonical(entries[0].value)]
  }

  lemma TruncateInt(i: int)
    ensures Truncate(i as real) == i && Integral(Finite(i as real))
  {
    assert -(i as real) == (-i) as real;
  }

  lemma {:induction false} CanonicalSize(xs: seq<Entry<Value>>)
    requires DistinctKeys(xs)
    ensures |CanonicalEntries(xs)| == |xs|
  {
    if xs != [] {
      CanonicalSize(xs[1..]);
      assert xs[0].key !in CanonicalEntries(xs[1..]);
    }
  }

  // ----- when one True answer means equality -----

  /** Lists that are compared are equally long at every level, and no int meets a float with a
      fractional part. */
  ghost predicate Exact(a: Value, b: Value)
    decreases a
  {
    if a.List? && b.List? then
      |a.items| == |b.items| && forall i :: 0 <= i < |a.items| ==> Exact(a.items[i], b.items[i])
    else if a.Dict? && b.Dict? then
      forall i :: 0 <= i < |a.entries| ==> ExactAt(a.entries[i], b.entries)
    else !(IsInt(a) && b.Float? && !Integral(b.f))
  }

  ghost predicate ExactAt(e: Entry<Value>, ys: seq<Entry<Value>>)
    decreases e
  {
    Get(ys, e.key).Some? ==> Exact(e.value, Get(ys, e.key).value)
  }

  /** A True answer means that the values are equal exactly under this condition. */
  lemma {:induction false} SameIsEqual(a: Value, b: Value)
    requires WellFormed(a) && WellFormed(b) && NoStub(a) && Same(a, b)
    ensures Canonical(a) == Canonical(b) <==> Exact(a, b)
    decreases a, 3
  {
    if a.List? {
      ItemsAreEqual(a.items, b.items);
    } else if a.Dict? {
      DictsAreEqual(a.entries, b.entries);
    } else if IsInt(a) {
      TruncateInt(AsInt(a));
    }
  }

  lemma {:induction false} ItemsAreEqual(xs: seq<Value>, ys: seq<Value>)
    requires WellFormed(List(xs)) && WellFormed(List(ys)) && NoStub(List(xs)) && Same(List(xs), List(ys))
    ensures CanonicalItems(xs) == CanonicalItems(ys) <==> Exact(List(xs), List(ys))
    decreases xs, 2
  {
    SameItems(xs, ys);
    var cx, cy := CanonicalItems(xs), CanonicalItems(ys);
    if |xs| == |ys| {
      forall i | 0 <= i < |xs|
        ensures cx[i] == cy[i] <==> Exact(xs[i], ys[i])
      {
        SameIsEqual(xs[i], ys[i]);
      }
    } else {
      assert |cx| != |cy|;
    }
  }

  /** Equally many keys, all of them found in the other dict. */
  lemma SameKeySets(xs: seq<Entry<Value>>, ys: seq<Entry<Value>>)
    requires DistinctKeys(xs) && DistinctKeys(ys) && |xs| == |ys|
    requires forall i :: 0 <= i < |xs| ==> Get(ys, xs[i].key).Some?
    ensures CanonicalEntries(xs).Keys == CanonicalEntries(ys).Keys
  {
    CanonicalSize(xs);
    CanonicalSize(ys);
    var kx, ky := CanonicalEntries(xs).Keys, CanonicalEntries(ys).Keys;
    forall key | key in kx
      ensures key in ky
    {
      var i := GetIndex(xs, key);
    }
    SubsetOfSameSize(kx, ky);
  }

  lemma SubsetOfSameSize<T>(a: set<T>, b: set<T>)
    requires a <= b && |a| == |b|
    ensures a == b
  {
    assert b == a + (b - a);
    assert |b| == |a| + |b - a|;
  }

  lemma {:induction false} DictsAreEqual(xs: seq<Entry<Value>>, ys: seq<Entry<Value>>)
    requires WellFormed(Dict(xs)) && WellFormed(Dict(ys)) && NoStub(Dict(xs)) && Same(Dict(xs), Dict(ys))
    ensures CanonicalEntries(xs) == CanonicalEntries(ys) <==> Exact(Dict(xs), Dict(ys))
    decreases xs, 2
  {
    var cx, cy := CanonicalEntries(xs), CanonicalEntries(ys);
    SameDicts(xs, ys);
    assert forall i :: 0 <= i < |xs| ==> HasSame(ys, xs[i]);
    SameKeySets(xs, ys);
    forall i | 0 <= i < |xs|
      ensures cx[xs[i].key] == cy[xs[i].key] <==> ExactAt(xs[i], ys)
    {
      GetOwn(xs, i);
      var j := GetIndex(ys, xs[i].key);
      SameIsEqual(xs[i].value, ys[j].value);
    }
    EqualAtEachKey(xs, cx, cy);
  }

  lemma EqualAtEachKey(xs: seq<Entry<Value>>, cx: map<string, Canon>, cy: map<string, Canon>)
    requires cx == CanonicalEntries(xs) && cx.Keys == cy.Keys && forall i :: 0 <= i < |xs| ==> xs[i].key in cx
    ensures cx == cy <==> forall i :: 0 <= i < |xs| ==> cx[xs[i].key] == cy[xs[i].key]
  {
    if forall i :: 0 <= i < |xs| ==> cx[xs[i].key] == cy[xs[i].key] {
      forall key | key in cx
        ensures cx[key] == cy[key]
      {
        var i := GetIndex(xs, key);
        assert xs[i].key == key;
      }
    }
  }

  /** Values that denote the same are the same, unless they hold something that is not a number. */
  lemma {:induction false} EqualIsSame(a: Value, b: Value)
    requires WellFormed(a) && WellFormed(b) && NoStub(a) && NoNaN(a) && Canonical(a) == Canonical(b)
    ensures Same(a, b)
    decreases a, 3
  {
    if a.List? {
      var xs, ys := a.items, b.items;
      assert CanonicalItems(xs) == CanonicalItems(ys);
      forall i | 0 <= i < |xs|
        ensures Same(xs[i], ys[i])
      {
        assert CanonicalItems(xs)[i] == CanonicalItems(ys)[i];
        EqualIsSame(xs[i], ys[i]);
      }
      SameItems(xs, ys);
    } else if a.Dict? {
      EqualDictsAreSame(a.entries, b.entries);
    } else if IsInt(a) {
      TruncateInt(AsInt(a));
    }
  }

  lemma {:induction false} EqualDictsAreSame(xs: seq<Entry<Value>>, ys: seq<Entry<Value>>)
    requires WellFormed(Dict(xs)) && WellFormed(Dict(ys)) && NoStub(Dict(xs)) && NoNaN(Dict(xs))
    requires CanonicalEntries(xs) == CanonicalEntries(ys)
    ensures Same(Dict(xs), Dict(ys))
    decreases xs, 2
  {
    CanonicalSize(xs);
    CanonicalSize(ys);
    forall i | 0 <= i < |xs|
      ensures HasSame(ys, xs[i])
    {
      GetOwn(xs, i);
      assert xs[i].key in CanonicalEntries(xs);
      var j := GetIndex(ys, xs[i].key);
      EqualIsSame(xs[i].value, ys[j].value);
    }
    SameDicts(xs, ys);
  }

  /** The condition holds in both directions only between equal values. */
  lemma {:induction false} SameBothWaysIsExact(a: Value, b: Value)
    requires NoStub(a) && NoStub(b) && WellFormed(a) && WellFormed(b) && Same(a, b) && Same(b, a)
    ensures Exact(a, b)
    decreases a
  {
    if a.List? {
      SameItems(a.items, b.items);
      SameItems(b.items, a.items);
      forall i | 0 <= i < |a.items|
        ensures Exact(a.items[i], b.items[i])
      {
        SameBothWaysIsExact(a.items[i], b.items[i]);
      }
    } else if a.Dict? {
      SameDicts(a.entries, b.entries);
      SameDicts(b.entries, a.entries);
      forall i | 0 <= i < |a.entries|
        ensures ExactAt(a.entries[i], b.entries)
      {
        assert HasSame(b.entries, a.entries[i]);
        GetOwn(a.entries, i);
        var j := GetIndex(b.entries, a.entries[i].key);
        assert HasSame(a.entries, b.entries[j]);
        SameBothWaysIsExact(a.entries[i].value, b.entries[j].value);
      }
    } else if IsInt(a) {
      TruncateInt(AsInt(a));
    }
  }

  /** True in both directions is equality, and nothing less. */
  lemma SameBothWaysIsEqual(a: Value, b: Value)
    requires WellFormed(a) && WellFormed(b) && NoStub(a) && NoStub(b) && NoNaN(a) && NoNaN(b)
    ensures Same(a, b) && Same(b, a) <==> Canonical(a) == Canonical(b)
  {
    if Same(a, b) && Same(b, a) {
      SameBothWaysIsExact(a, b);
      SameIsEqual(a, b);
    }
    if Canonical(a) == Canonical(b) {
      EqualIsSame(a, b);
      EqualIsSame(b, a);
    }
  }

  /** Every list is the same as every list that it begins; the other direction raises. */
  lemma {:induction false} ListsCompareAsPrefixes(xs: seq<Value>, more: seq<Value>)
    requires WellFormed(List(xs)) && NoNaN(List(xs))
    ensures Same(List(xs), List(xs + more))
    ensures more != [] ==> Deep(List(xs + more), List(xs)) == Raise(IndexError)
  {
    if xs == [] {
      assert xs + more == more;
    } else {
      ListsCompareAsPrefixes(xs[1..], more);
      SameReflexive(xs[0]);
      assert (xs + more)[0] == xs[0] && (xs + more)[1..] == xs[1..] + more;
    }
  }

  // ----- comparing twice -----

  lemma {:induction false} WithoutNothing(d: seq<Entry<Value>>)
    ensures Without(d, {}) == d
  {
    if d != [] {
      WithoutNothing(d[1..]);
      assert d == [d[0]] + d[1..];
    }
  }

  /** Values without attachment stubs are left as they are. */
  lemma {:induction false} RestWithoutStubs(a: Value, b: Value)
    requires NoStub(a)
    ensures Rest(a, b) == a
    decreases a, 1
  {
    if a.List? && b.List? {
      RestItemsWithoutStubs(a.items, b.items);
    } else if a.Dict? && b.Dict? {
      RestEntriesWithoutStubs(a.entries, b.entries);
    }
  }

  lemma {:induction false} RestItemsWithoutStubs(xs: seq<Value>, ys: seq<Value>)
    requires forall i :: 0 <= i < |xs| ==> NoStub(xs[i])
    ensures RestItems(xs, ys) == xs
    decreases xs, 0
  {
    if xs != [] && ys != [] {
      RestWithoutStubs(xs[0], ys[0]);
      RestItemsWithoutStubs(xs[1..], ys[1..]);
      assert xs == [xs[0]] + xs[1..];
    }
  }

  lemma {:induction false} RestEntriesWithoutStubs(xs: seq<Entry<Value>>, d: seq<Entry<Value>>)
    requires forall i :: 0 <= i < |xs| ==> NoStub(xs[i].value)
    ensures RestEntries(xs, {}, d) == xs
    decreases xs, 0
  {
    if xs != [] {
      WithoutNothing(xs);
      WithoutNothing(xs[1..]);
      if Get(d, xs[0].key).Some? {
        RestWithoutStubs(xs[0].value, Get(d, xs[0].key).value);
      }
      RestEntriesWithoutStubs(xs[1..], d);
      assert xs == [Entry(xs[0].key, xs[0].value)] + xs[1..];
    }
  }

  /** Every stub that is compared has as many other keys as its counterpart has keys. */
  predicate StubsFit(a: Value, b: Value)
    decreases a, 1
  {
    if a.Dict? && b.Dict? then
      var (xs, ys) := (a.entries, b.entries);
      if |xs| == |ys| then EntriesFit(xs, {}, ys)
      else |Without(xs, STUB_KEYS)| == |ys| && EntriesFit(xs, STUB_KEYS, ys)
    else if a.List? && b.List? then ItemsFit(a.items, b.items)
    else true
  }

  predicate ItemsFit(xs: seq<Value>, ys: seq<Value>)
    decreases xs, 0
  {
    xs == [] || ys == [] || (StubsFit(xs[0], ys[0]) && ItemsFit(xs[1..], ys[1..]))
  }

  predicate EntriesFit(xs: seq<Entry<Value>>, deleted: set<string>, d: seq<Entry<Value>>)
    decreases xs, 0
  {
    xs == []
    || ((xs[0].key in deleted || Get(d, xs[0].key).None? || StubsFit(xs[0].value, Get(d, xs[0].key).value))
        && EntriesFit(xs[1..], deleted, d))
  }

  lemma {:induction false} RestOfEntries(xs: seq<Entry<Value>>, deleted: set<string>, d: seq<Entry<Value>>)
    requires DeepEntries(xs, deleted, d) == Return(true)
    ensures |RestEntries(xs, deleted, d)| == |Without(xs, deleted)|
    ensures forall i :: 0 <= i < |RestEntries(xs, deleted, d)| ==> RestEntries(xs, deleted, d)[i].key !in deleted
  {
    if xs != [] {
      RestOfEntries(xs[1..], deleted, d);
    }
  }

  /** After a True answer the comparison gives the same answer once more, exactly if the stubs
      fit: a stub that has lost its bookkeeping keys is an ordinary dict. */
  lemma {:induction false} CompareTwice(a: Value, b: Value)
    requires Same(a, b)
    ensures Same(Rest(a, b), b) <==> StubsFit(a, b)
    decreases a, 1
  {
    if a.List? && b.List? {
      ItemsTwice(a.items, b.items);
    } else if a.Dict? && b.Dict? {
      DictTwice(a.entries, b.entries);
    }
  }

  lemma {:induction false} ItemsTwice(xs: seq<Value>, ys: seq<Value>)
    requires DeepItems(xs, ys) == Return(true)
    ensures DeepItems(RestItems(xs, ys), ys) == Return(true) <==> ItemsFit(xs, ys)
    decreases xs, 0
  {
    if xs != [] {
      var rest := RestItems(xs, ys);
      CompareTwice(xs[0], ys[0]);
      ItemsTwice(xs[1..], ys[1..]);
      assert rest[0] == Rest(xs[0], ys[0]) && rest[1..] == RestItems(xs[1..], ys[1..]);
    }
  }

  lemma {:induction false} EntriesTwice(xs: seq<Entry<Value>>, deleted: set<string>, d: seq<Entry<Value>>)
    requires DeepEntries(xs, deleted, d) == Return(true)
    ensures DeepEntries(RestEntries(xs, deleted, d), {}, d) == Return(true) <==> EntriesFit(xs, deleted, d)
    decreases xs, 0
  {
    if xs != [] {
      EntriesTwice(xs[1..], deleted, d);
      if xs[0].key !in deleted {
        var rest, other := RestEntries(xs, deleted, d), Get(d, xs[0].key).value;
        CompareTwice(xs[0].value, other);
        assert rest[0] == Entry(xs[0].key, Rest(xs[0].value, other));
        assert rest[1..] == RestEntries(xs[1..], deleted, d);
      }
    }
  }

  lemma {:induction false} DictTwice(xs: seq<Entry<Value>>, ys: seq<Entry<Value>>)
    requires Same(Dict(xs), Dict(ys))
    ensures Same(Rest(Dict(xs), Dict(ys)), Dict(ys)) <==> StubsFit(Dict(xs), Dict(ys))
    decreases xs, 1
  {
    var deleted, rest := if |xs| == |ys| then {} else STUB_KEYS, RestDict(xs, ys);
    assert Deep(Dict(xs), Dict(ys)) == DeepDict(xs, ys);
    assert rest == RestEntries(xs, deleted, ys) && DeepEntries(xs, deleted, ys) == Return(true);
    EntriesTwice(xs, deleted, ys);
    RestOfEntries(xs, deleted, ys);
    WithoutNothing(xs);
    assert Rest(Dict(xs), Dict(ys)) == Dict(rest);
    assert Deep(Dict(rest), Dict(ys)) == DeepDict(rest, ys);
    if |rest| != |ys| {
      NoSuchKey(rest, "stub");
    }
  }

  lemma NoSuchKey(d: seq<Entry<Value>>, key: string)
    requires forall i :: 0 <= i < |d| ==> d[i].key != key
    ensures Get(d, key).None?
  {
  }

  /** A stub that does not fit: the first answer is True, the second is False. */
  lemma SecondAnswerDiffers()
    ensures var a := Dict([Entry("stub", Null), Entry("revpos", Null)]);
            var b := Dict([Entry("name", Null)]);
            Same(a, b) && !Same(Rest(a, b), b)
  {
    var xs, ys := [Entry("stub", Null), Entry("revpos", Null)], [Entry("name", Null)];
    var a, b := Dict(xs), Dict(ys);
    assert xs[1..] == [Entry("revpos", Null)] && xs[1..][1..] == [];
    assert Get(xs, "stub") == Some(Null) && Get(xs, "revpos") == Some(Null);
    assert DeepEntries(xs[1..], STUB_KEYS, ys) == Return(true) && Without(xs[1..], STUB_KEYS) == [];
    assert DeepEntries(xs, STUB_KEYS, ys) == Return(true) && Without(xs, STUB_KEYS) == [];
    assert Deep(a, b) == DeepDict(xs, ys);
    CompareTwice(a, b);
  }

  // ----- False answers and exceptions -----

  /** Two values that are neither both lists nor both dicts, and what makes them the same. */
  predicate SameLeaf(a: Value, b: Value) {
    || (a == Null && b == Null)
    || (a.Str? && b == a)
    || (IsInt(a) && IsInt(b) && NumberOf(a) == NumberOf(b))
    || (a.Float? && b == a && a.f != NaN)
    || (a.Float? && IsInt(b) && a.f == Finite(NumberOf(b)))
    || (IsInt(a) && b.Float? && b.f.Finite? && IsCutTo(b.f.r, NumberOf(a)))
  }

  function NumberOf(v: Value): real
    requires IsInt(v)
  {
    match v
    case Int(i) => i as real
    case Bool(b) => if b then 1.0 else 0.0
  }

  /** The whole number i is what is left of r without its fraction. */
  predicate IsCutTo(r: real, i: real) {
    if r >= 0.0 then i <= r < i + 1.0 else i - 1.0 < r <= i
  }

  lemma CutMeans(r: real, i: int)
    ensures Truncate(r) == i <==> IsCutTo(r, i as real)
  {
  }

  lemma NumberOfMeans(v: Value)
    requires IsInt(v)
    ensures NumberOf(v) == AsInt(v) as real
  {
  }

  /** Leaves raise only where an int meets a float that is no number; all else is True or False. */
  lemma LeafOutcome(a: Value, b: Value)
    requires !(a.List? && b.List?) && !(a.Dict? && b.Dict?)
    ensures Deep(a, b) ==
            if IsInt(a) && b.Float? && b.f.Infinity? then Raise(OverflowError)
            else if IsInt(a) && b == Float(NaN) then Raise(ValueError)
            else Return(SameLeaf(a, b))
  {
    if IsInt(a) {
      NumberOfMeans(a);
      if b.Float? && b.f.Finite? {
        CutMeans(b.f.r, AsInt(a));
      }
    }
    if IsInt(b) {
      NumberOfMeans(b);
    }
  }

  /** The first two elements that are not the same decide, and an exception there is passed on; only
      a second list that is too short raises on its own account. */
  lemma {:induction false} FirstDifference(xs: seq<Value>, ys: seq<Value>, k: nat)
    requires k < |xs| && k <= |ys| && (forall i :: 0 <= i < k ==> Same(xs[i], ys[i]))
    requires k < |ys| ==> !Same(xs[k], ys[k])
    ensures Deep(List(xs), List(ys)) == if k < |ys| then Deep(xs[k], ys[k]) else Raise(IndexError)
  {
    assert Deep(List(xs), List(ys)) == DeepItems(xs, ys);
    if k > 0 {
      assert Same(xs[0], ys[0]);
      FirstDifference(xs[1..], ys[1..], k - 1);
      assert Deep(List(xs[1..]), List(ys[1..])) == DeepItems(xs[1..], ys[1..]);
    } else if ys != [] {
      var first := Deep(xs[0], ys[0]);
      assert first != Return(true);
    }
  }

  /** The same for the keys of a dict, where a missing key raises. */
  lemma {:induction false} FirstDifferentKey(xs: seq<Entry<Value>>, d: seq<Entry<Value>>, k: nat)
    requires k < |xs| && (forall i :: 0 <= i < k ==> HasSame(d, xs[i])) && !HasSame(d, xs[k])
    ensures DeepEntries(xs, {}, d) ==
            var other := Get(d, xs[k].key);
            if other.None? then Raise(KeyError) else Deep(xs[k].value, other.value)
  {
    if k > 0 {
      assert HasSame(d, xs[0]);
      FirstDifferentKey(xs[1..], d, k - 1);
    }
  }

  predicate HasKey(d: seq<Entry<Value>>, key: string) {
    exists i :: 0 <= i < |d| && d[i].key == key
  }

  lemma HasKeyMeans(d: seq<Entry<Value>>, key: string)
    ensures HasKey(d, key) <==> Get(d, key).Some?
  {
    if i :| 0 <= i < |d| && d[i].key == key {
      assert d[i] in d;
    }
  }

  lemma {:induction false} WithoutMembers(d: seq<Entry<Value>>, keys: set<string>)
    ensures forall e :: e in Without(d, keys) <==> e in d && e.key !in keys
  {
    if d != [] {
      WithoutMembers(d[1..], keys);
    }
  }

  lemma {:induction false} SkipsDeleted(xs: seq<Entry<Value>>, deleted: set<string>, d: seq<Entry<Value>>)
    ensures DeepEntries(xs, deleted, d) == DeepEntries(Without(xs, deleted), {}, d)
  {
    if xs != [] {
      SkipsDeleted(xs[1..], deleted, d);
      if xs[0].key !in deleted {
        assert Without(xs, deleted)[0] == xs[0] && Without(xs, deleted)[1..] == Without(xs[1..], deleted);
      } else {
        assert Without(xs, deleted) == Without(xs[1..], deleted);
      }
    }
  }

  /** Dicts of one size are compared key by key. Of different sizes, only a stub is more than False:
      without a "revpos" it raises, otherwise all but three of its keys are compared. */
  lemma DictOutcome(xs: seq<Entry<Value>>, ys: seq<Entry<Value>>)
    ensures Deep(Dict(xs), Dict(ys)) ==
            if |xs| == |ys| then DeepEntries(xs, {}, ys)
            else if !HasKey(xs, "stub") then Return(false)
            else if !HasKey(xs, "revpos") then Raise(KeyError)
            else DeepEntries(Without(xs, {"stub", "revpos", "ver"}), {}, ys)
  {
    HasKeyMeans(xs, "stub");
    HasKeyMeans(xs, "revpos");
    SkipsDeleted(xs, STUB_KEYS, ys);
    assert Deep(Dict(xs), Dict(ys)) == DeepDict(xs, ys);
  }

  /** The first n elements as the comparison left them. */
  function Compared(xs: seq<Value>, ys: seq<Value>, n: nat): (r: seq<Value>)
    requires n <= |xs| && n <= |ys|
    ensures |r| == n
  {
    if n == 0 then [] else [Rest(xs[0], ys[0])] + Compared(xs[1..], ys[1..], n - 1)
  }

  lemma {:induction false} ComparedAt(xs: seq<Value>, ys: seq<Value>, n: nat, i: nat)
    requires i < n <= |xs| && n <= |ys|
    ensures Compared(xs, ys, n)[i] == Rest(xs[i], ys[i])
  {
    if i > 0 {
      ComparedAt(xs[1..], ys[1..], n - 1, i - 1);
    }
  }

  lemma PutBack(first: Value, done: seq<Value>, xs: seq<Value>, n: nat)
    requires n < |xs|
    ensures [first] + (done + xs[1..][n..]) == [first] + done + xs[n + 1..]
  {
  }

  /** What is left of a list whose k-th element decides: the elements up to it as the comparison left
      them, the others as they were. */
  lemma {:induction false} RestAtDifference(xs: seq<Value>, ys: seq<Value>, k: nat)
    requires k < |xs| && k <= |ys| && (forall i :: 0 <= i < k ==> Same(xs[i], ys[i]))
    requires k < |ys| ==> !Same(xs[k], ys[k])
    ensures var n := if k < |ys| then k + 1 else k; RestItems(xs, ys) == Compared(xs, ys, n) + xs[n..]
  {
    var n := if k < |ys| then k + 1 else k;
    if k > 0 {
      assert Same(xs[0], ys[0]);
      RestAtDifference(xs[1..], ys[1..], k - 1);
      PutBack(Rest(xs[0], ys[0]), Compared(xs[1..], ys[1..], n - 1), xs, n - 1);
    } else if n == 1 {
      assert Compared(xs, ys, 1) == [Rest(xs[0], ys[0])] + [];
    } else {
      assert xs[0..] == xs && Compared(xs, ys, 0) == [];
    }
  }

  /** A stub without a "revpos" has lost its "stub" when it raises. */
  lemma RestOfBrokenStub(xs: seq<Entry<Value>>, ys: seq<Entry<Value>>, e: Entry<Value>)
    requires |xs| != |ys| && HasKey(xs, "stub") && !HasKey(xs, "revpos")
    ensures e in RestDict(xs, ys) <==> e in xs && e.key != "stub"
  {
    HasKeyMeans(xs, "stub");
    HasKeyMeans(xs, "revpos");
    WithoutMembers(xs, {"stub"});
  }
}
