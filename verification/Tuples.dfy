/** Certificate options (certs.go: marshalTuples, parseTuples, marshalStringList): maps of strings as
    strictly sorted name/value pairs. */
module Tuples {
  import opened ByteStrings
  import opened Results
  import opened Wire

  datatype TupleError = Wired(error: Wire.Error) | NotInLexicalOrder

  type Options = map<Bytes, Bytes>

  // ----- Go's string order -----

  predicate Less(a: Bytes, b: Bytes) {
    if b == [] then false
    else if a == [] then true
    else if a[0] != b[0] then a[0] < b[0]
    else Less(a[1..], b[1..])
  }

  lemma {:induction false} LessTotal(a: Bytes, b: Bytes)
    ensures Less(a, b) || a == b || Less(b, a)
    ensures !(Less(a, b) && Less(b, a))
    ensures !Less(a, a)
  {
    if a != [] && b != [] {
      LessTotal(a[1..], b[1..]);
      assert a == [a[0]] + a[1..] && b == [b[0]] + b[1..];
    }
    if a != [] {
      LessTotal(a[1..], a[1..]);
    }
  }

  lemma {:induction false} LessTransitive(a: Bytes, b: Bytes, c: Bytes)
    requires Less(a, b) && Less(b, c)
    ensures Less(a, c)
  {
    if a != [] && a[0] == b[0] == c[0] {
      LessTransitive(a[1..], b[1..], c[1..]);
    }
  }

  /** Go's order of strings: at the first difference the smaller byte comes first, and a prefix comes before what it is a prefix of. */
  lemma {:induction false} LessIff(a: Bytes, b: Bytes)
    ensures Less(a, b) <==> exists i: nat :: CommonPrefix(a, b, i) && (if i == |a| then i < |b| else i < |b| && a[i] < b[i])
  {
    if a != [] && b != [] && a[0] == b[0] {
      LessIff(a[1..], b[1..]);
      assert a == [a[0]] + a[1..] && b == [b[0]] + b[1..];
      if Less(a, b) {
        var i: nat :| CommonPrefix(a[1..], b[1..], i) && (if i == |a[1..]| then i < |b[1..]| else i < |b[1..]| && a[1..][i] < b[1..][i]);
        assert a[..i + 1] == [a[0]] + a[1..][..i] && b[..i + 1] == [b[0]] + b[1..][..i];
        assert CommonPrefix(a, b, i + 1);
      }
      if i: nat :| CommonPrefix(a, b, i) && (if i == |a| then i < |b| else i < |b| && a[i] < b[i]) {
        assert i > 0;
        assert a[1..][..i - 1] == a[..i][1..] && b[1..][..i - 1] == b[..i][1..];
        assert CommonPrefix(a[1..], b[1..], i - 1);
      }
    } else {
      assert a[..0] == b[..0];
      assert Less(a, b) ==> CommonPrefix(a, b, 0);
    }
  }

  /** The first i bytes are the same. */
  predicate CommonPrefix(a: Bytes, b: Bytes, i: nat) {
    i <= |a| && i <= |b| && a[..i] == b[..i]
  }

  predicate Below(k: Bytes, s: set<Bytes>) {
    forall x | x in s :: Less(k, x)
  }

  lemma {:induction false} LeastExists(s: set<Bytes>)
    requires s != {}
    ensures exists k | k in s :: Below(k, s - {k})
  {
    var x :| x in s;
    var rest := s - {x};
    if rest == {} {
      assert Below(x, s - {x});
    } else {
      LeastExists(rest);
      var k :| k in rest && Below(k, rest - {k});
      LessTotal(x, k);
      if Less(x, k) {
        forall y | y in s - {x} ensures Less(x, y) {
          if y != k {
            assert y in rest - {k};
            LessTransitive(x, k, y);
          }
        }
        assert Below(x, s - {x});
      } else {
        assert Below(k, s - {k});
      }
    }
  }

  // ----- marshalTuples -----

  /** The keys in the order sort.Strings leaves them in. */
  ghost function SortedKeys(s: set<Bytes>): (r: seq<Bytes>)
    ensures |r| == |s| && (forall x :: x in r <==> x in s)
    ensures r != [] ==> Below(r[0], s - {r[0]})
  {
    if s == {} then []
    else
      LeastExists(s);
      var k :| k in s && Below(k, s - {k});
      [k] + SortedKeys(s - {k})
  }

  predicate Ascending(keys: seq<Bytes>) {
    forall i, j | 0 <= i < j < |keys| :: Less(keys[i], keys[j])
  }

  lemma {:induction false} SortedKeysAscend(s: set<Bytes>)
    ensures Ascending(SortedKeys(s))
  {
    if s != {} {
      var r := SortedKeys(s);
      SortedKeysAscend(s - {r[0]});
    }
  }

  /** There is only one sorted enumeration of a set. */
  lemma {:induction false} SortedKeysUnique(keys: seq<Bytes>, s: set<Bytes>)
    requires Ascending(keys) && forall x :: x in keys <==> x in s
    ensures keys == SortedKeys(s)
  {
    if keys == [] {
      assert s == {};
    } else {
      var k := keys[0];
      assert k in s;
      var m := SortedKeys(s)[0];
      assert m in keys;
      LessTotal(k, m);
      assert m == k;
      LessTotal(k, k);
      SortedKeysUnique(keys[1..], s - {k});
      assert keys == [k] + keys[1..];
    }
  }

  function EncodePairs(keys: seq<Bytes>, m: Options): Bytes
    requires forall k | k in keys :: k in m
  {
    if keys == [] then []
    else EncodeString(keys[0]) + EncodeString(m[keys[0]]) + EncodePairs(keys[1..], m)
  }

  ghost function MarshalTuplesSpec(m: Options): Bytes {
    EncodePairs(SortedKeys(m.Keys), m)
  }

  lemma {:induction false} EncodePairsSnoc(keys: seq<Bytes>, k: Bytes, m: Options)
    requires k in m && forall x | x in keys :: x in m
    ensures EncodePairs(keys + [k], m) == EncodePairs(keys, m) + EncodeString(k) + EncodeString(m[k])
  {
    if keys == [] {
      assert [k][1..] == [];
    } else {
      assert (keys + [k])[1..] == keys[1..] + [k];
      EncodePairsSnoc(keys[1..], k, m);
    }
  }

  /** marshalTuples: collects the keys, sorts them, and appends the pairs in that order. */
  method MarshalTuples(m: Options) returns (r: Bytes)
    ensures r == MarshalTuplesSpec(m)
  {
    var keys := SortKeys(m.Keys);
    r := [];
    for i := 0 to |keys|
      invariant r == EncodePairs(keys[..i], m)
    {
      EncodePairsSnoc(keys[..i], keys[i], m);
      assert keys[..i + 1] == keys[..i] + [keys[i]];
      r := r + EncodeString(keys[i]) + EncodeString(m[keys[i]]);
    }
    assert keys[..|keys|] == keys;
  }

  method SortKeys(s: set<Bytes>) returns (keys: seq<Bytes>)
    ensures keys == SortedKeys(s)
  {
    var todo := s;
    keys := [];
    while todo != {}
      invariant todo <= s
      invariant Ascending(keys) && forall x :: x in keys <==> x in s - todo
      decreases todo
    {
      var k :| k in todo;
      keys := InsertKey(keys, k);
      todo := todo - {k};
    }
    SortedKeysUnique(keys, s);
  }

  /** One insertion of the sort. */
  method InsertKey(keys: seq<Bytes>, k: Bytes) returns (r: seq<Bytes>)
    requires Ascending(keys) && k !in keys
    ensures Ascending(r) && forall x :: x in r <==> x in keys || x == k
  {
    var i := 0;
    while i < |keys| && Less(keys[i], k)
      invariant i <= |keys|
      invariant forall j | 0 <= j < i :: Less(keys[j], k)
    {
      i := i + 1;
    }
    forall j | i <= j < |keys| ensures Less(k, keys[j]) {
      LessTotal(keys[i], k);
      if j > i {
        LessTransitive(k, keys[i], keys[j]);
      }
    }
    r := keys[..i] + [k] + keys[i..];
  }

  // ----- parseTuples -----

  datatype Last = NoKey | LastKey(key: Bytes)

  predicate InOrder(last: Last, name: Bytes) {
    last.LastKey? ==> Less(last.key, name)
  }

  /** parseString twice; a pair of strings from the front. */
  function ParsePair(input: Bytes): Parsed<(Bytes, Bytes)> {
    match ParseString(input)
    case Short => Short
    case SliceFault => SliceFault
    case Got(name, rest) =>
      match ParseString(rest)
      case Short => Short
      case SliceFault => SliceFault
      case Got(data, rest) => Got((name, data), rest)
  }

  lemma PairIsCanonical(input: Bytes)
    requires ParsePair(input).Got?
    ensures var p := ParsePair(input);
            input == EncodeString(p.out.0) + EncodeString(p.out.1) + p.rest && |p.rest| < |input|
  {
    StringIsCanonical(input);
    var first := ParseString(input);
    StringIsCanonical(first.rest);
  }

  lemma PairRoundTrip(name: Bytes, data: Bytes, rest: Bytes)
    requires 8 + |name| + |data| + |rest| < TWO32
    ensures ParsePair(EncodeString(name) + EncodeString(data) + rest) == Got((name, data), rest)
  {
    StringRoundTrip(name, EncodeString(data) + rest);
    StringRoundTrip(data, rest);
    assert EncodeString(name) + EncodeString(data) + rest == EncodeString(name) + (EncodeString(data) + rest);
  }

  function ParseTuplesSpec(input: Bytes, last: Last): Result<Options, TupleError>
    decreases |input|
  {
    if input == [] then Ok(map[])
    else
      match ParsePair(input)
      case Short => Err(Wired(ShortRead))
      case SliceFault => Err(Wired(SliceOutOfRange))
      case Got((name, data), rest) =>
        if !InOrder(last, name) then Err(NotInLexicalOrder)
        else
          PairIsCanonical(input);
          match ParseTuplesSpec(rest, LastKey(name))
          case Err(e) => Err(e)
          case Ok(m) => Ok(m[name := data])
  }

  /** parseTuples: the loop over the remaining input. */
  method ParseTuples(input: Bytes) returns (r: Result<Options, TupleError>)
    ensures r == ParseTuplesSpec(input, NoKey)
  {
    var data := input;
    var tups: Options := map[];
    var last := NoKey;
    MergedNone(ParseTuplesSpec(input, NoKey));
    while |data| > 0
      invariant ParseTuplesSpec(input, NoKey) == Merged(tups, ParseTuplesSpec(data, last))
      decreases |data|
    {
      match ParsePair(data) {
        case Short => return Err(Wired(ShortRead));
        case SliceFault => return Err(Wired(SliceOutOfRange));
        case Got((name, value), rest) =>
          if last.LastKey? && !Less(last.key, name) {
            return Err(NotInLexicalOrder);
          }
          PairIsCanonical(data);
          MergedStep(tups, name, value, rest);
          tups := tups[name := value];
          data := rest;
          last := LastKey(name);
      }
    }
    assert tups + map[] == tups;
    return Ok(tups);
  }

  lemma MergedNone(r: Result<Options, TupleError>)
    ensures Merged(map[], r) == r
  {
    if r.Ok? {
      assert map[] + r.value == r.value;
    }
  }

  lemma MergedStep(tups: Options, name: Bytes, value: Bytes, rest: Bytes)
    ensures var more := ParseTuplesSpec(rest, LastKey(name));
            more.Ok? ==> Merged(tups, Ok(more.value[name := value])) == Merged(tups[name := value], more)
  {
    var more := ParseTuplesSpec(rest, LastKey(name));
    if more.Ok? {
      ParsedKeysAbove(rest, LastKey(name));
      LessTotal(name, name);
      assert tups + more.value[name := value] == tups[name := value] + more.value;
    }
  }

  ghost function Merged(m: Options, r: Result<Options, TupleError>): Result<Options, TupleError> {
    match r
    case Err(e) => Err(e)
    case Ok(more) => Ok(m + more)
  }

  lemma {:induction false} ParsedKeysAbove(input: Bytes, last: Last)
    requires ParseTuplesSpec(input, last).Ok?
    ensures forall k | k in ParseTuplesSpec(input, last).value :: InOrder(last, k)
    decreases |input|
  {
    if input != [] {
      var p := ParsePair(input);
      PairIsCanonical(input);
      ParsedKeysAbove(p.rest, LastKey(p.out.0));
      var more := ParseTuplesSpec(p.rest, LastKey(p.out.0)).value;
      forall k | k in more && last.LastKey? ensures Less(last.key, k) {
        LessTransitive(last.key, p.out.0, k);
      }
    }
  }

  // ----- the two are inverse -----

  /** Marshalling an accepted option list reproduces its bytes. */
  lemma {:induction false} MarshalOfParsed(input: Bytes, last: Last)
    requires ParseTuplesSpec(input, last).Ok?
    ensures MarshalTuplesSpec(ParseTuplesSpec(input, last).value) == input
    decreases |input|
  {
    var m := ParseTuplesSpec(input, last).value;
    if input == [] {
      assert m.Keys == {};
    } else {
      var p := ParsePair(input);
      var (name, data) := p.out;
      PairIsCanonical(input);
      MarshalOfParsed(p.rest, LastKey(name));
      ParsedKeysAbove(p.rest, LastKey(name));
      var more := ParseTuplesSpec(p.rest, LastKey(name)).value;
      LessTotal(name, name);
      assert name !in more;
      SortedKeysCons(name, more.Keys);
      assert m.Keys == more.Keys + {name};
      EncodePairsFrame(SortedKeys(more.Keys), more, m);
      var keys := SortedKeys(m.Keys);
      assert keys == [name] + SortedKeys(more.Keys) && keys[1..] == SortedKeys(more.Keys);
    }
  }

  lemma SortedKeysCons(k: Bytes, s: set<Bytes>)
    requires Below(k, s) && k !in s
    ensures SortedKeys(s + {k}) == [k] + SortedKeys(s)
  {
    SortedKeysAscend(s);
    AscendingCons(k, SortedKeys(s));
    SortedKeysUnique([k] + SortedKeys(s), s + {k});
  }

  lemma AscendingCons(k: Bytes, keys: seq<Bytes>)
    requires Ascending(keys) && forall x | x in keys :: Less(k, x)
    ensures Ascending([k] + keys)
  {
  }

  lemma AscendingTail(keys: seq<Bytes>)
    requires keys != [] && Ascending(keys)
    ensures Ascending(keys[1..]) && (|keys| > 1 ==> Less(keys[0], keys[1]))
  {
  }

  lemma {:induction false} EncodePairsFrame(keys: seq<Bytes>, m: Options, m': Options)
    requires forall k | k in keys :: k in m && k in m' && m[k] == m'[k]
    ensures EncodePairs(keys, m) == EncodePairs(keys, m')
  {
    if keys != [] {
      EncodePairsFrame(keys[1..], m, m');
    }
  }

  function Restrict(m: Options, keys: seq<Bytes>): Options {
    map k | k in keys && k in m :: m[k]
  }

  lemma RestrictCons(m: Options, keys: seq<Bytes>)
    requires keys != [] && keys[0] in m
    ensures Restrict(m, keys) == Restrict(m, keys[1..])[keys[0] := m[keys[0]]]
  {
    assert keys == [keys[0]] + keys[1..];
  }

  lemma {:induction false} ParseOfPairs(keys: seq<Bytes>, m: Options, last: Last)
    requires forall k | k in keys :: k in m
    requires Ascending(keys) && (keys != [] ==> InOrder(last, keys[0]))
    requires |EncodePairs(keys, m)| < TWO32
    ensures ParseTuplesSpec(EncodePairs(keys, m), last) == Ok(Restrict(m, keys))
  {
    if keys == [] {
      assert Restrict(m, keys) == map[];
    } else {
      var k := keys[0];
      PairRoundTrip(k, m[k], EncodePairs(keys[1..], m));
      AscendingTail(keys);
      ParseOfPairs(keys[1..], m, LastKey(k));
      RestrictCons(m, keys);
    }
  }

  /** Parsing what marshalTuples writes returns the map. */
  lemma ParseOfMarshalled(m: Options)
    requires |MarshalTuplesSpec(m)| < TWO32
    ensures ParseTuplesSpec(MarshalTuplesSpec(m), NoKey) == Ok(m)
  {
    SortedKeysAscend(m.Keys);
    ParseOfPairs(SortedKeys(m.Keys), m, NoKey);
    assert Restrict(m, SortedKeys(m.Keys)) == m;
  }

  /** parseTuples accepts exactly the images of marshalTuples. */
  lemma AcceptedIffMarshalled(input: Bytes)
    requires |input| < TWO32
    ensures ParseTuplesSpec(input, NoKey).Ok? <==> exists m: Options :: MarshalTuplesSpec(m) == input
  {
    if ParseTuplesSpec(input, NoKey).Ok? {
      MarshalOfParsed(input, NoKey);
    }
    if m: Options :| MarshalTuplesSpec(m) == input {
      ParseOfMarshalled(m);
    }
  }

  // ----- plain string lists (valid principals) -----

  function MarshalStringList(names: seq<Bytes>): Bytes {
    if names == [] then [] else EncodeString(names[0]) + MarshalStringList(names[1..])
  }

  function ParseStringList(input: Bytes): Result<seq<Bytes>, TupleError>
    decreases |input|
  {
    if input == [] then Ok([])
    else
      match ParseString(input)
      case Short => Err(Wired(ShortRead))
      case SliceFault => Err(Wired(SliceOutOfRange))
      case Got(name, rest) =>
        StringIsCanonical(input);
        match ParseStringList(rest)
        case Err(e) => Err(e)
        case Ok(names) => Ok([name] + names)
  }

  lemma {:induction false} ListOfParsed(input: Bytes)
    requires ParseStringList(input).Ok?
    ensures MarshalStringList(ParseStringList(input).value) == input
    decreases |input|
  {
    if input != [] {
      StringIsCanonical(input);
      var p := ParseString(input);
      ListOfParsed(p.rest);
      var names := ParseStringList(input).value;
      assert names[1..] == ParseStringList(p.rest).value;
    }
  }

  lemma {:induction false} ParseOfList(names: seq<Bytes>)
    requires |MarshalStringList(names)| < TWO32
    ensures ParseStringList(MarshalStringList(names)) == Ok(names)
  {
    if names != [] {
      StringRoundTrip(names[0], MarshalStringList(names[1..]));
      ParseOfList(names[1..]);
      assert names == [names[0]] + names[1..];
    }
  }
}
