/** The reflective codec of messages.go as an interpreter over a schema of field kinds. */
module Wire {
  import opened ByteStrings
  import opened Results
  import Mpint

  /** A struct field's type, as the switch in Marshal and Unmarshal sees it. */
  datatype Kind =
    | KBool
    | KArray(size: nat)
    | KU64
    | KU32
    | KU8
    | KString
    | KBytes
    | KRest
    | KNames
    | KInt

  /** A struct type; tag 0 stands for a first field without an sshtype tag. */
  datatype Schema = Schema(tag: byte, kinds: seq<Kind>)

  datatype Field =
    | VBool(flag: bool)
    | VArray(raw: Bytes)
    | VU64(n64: nat)
    | VU32(n32: nat)
    | VU8(n8: byte)
    | VString(str: Bytes)
    | VBytes(bytes: Bytes)
    | VRest(rest: Bytes)
    | VNames(names: seq<Bytes>)
    | VInt(mp: int)

  datatype Error =
    | ParseError(tag: byte)
    | UnexpectedMessage(expected: byte, got: byte)
    | ShortRead
    | FieldError(index: nat)
    | SliceOutOfRange

  /** What one of the parse functions returns; SliceFault is Go's run-time fault for in[4:end] with end < 4. */
  datatype Parsed<T> = Got(out: T, rest: Bytes) | Short | SliceFault

  const COMMA: byte := 44

  // ----- the parse functions -----

  /** parseString, with the uint32 arithmetic of its length test. */
  function ParseString(input: Bytes): Parsed<Bytes> {
    if |input| < 4 then Short
    else
      var end := (4 + BytesToNat(input[..4])) % TWO32;
      if |input| % TWO32 < end then Short
      else if end < 4 then SliceFault
      else Got(input[4..end], input[end..])
  }

  /** bytes.Split around commas. */
  function Split(c: Bytes): (r: seq<Bytes>)
    ensures |r| > 0
  {
    if c == [] then [[]]
    else
      var r := Split(c[1..]);
      if c[0] == COMMA then [[]] + r else [[c[0]] + r[0]] + r[1..]
  }

  function Join(names: seq<Bytes>): Bytes {
    if names == [] then []
    else if |names| == 1 then names[0]
    else names[0] + [COMMA] + Join(names[1..])
  }

  function ParseNames(input: Bytes): Parsed<seq<Bytes>> {
    match ParseString(input)
    case Got(contents, rest) => Got(if contents == [] then [] else Split(contents), rest)
    case Short => Short
    case SliceFault => SliceFault
  }

  function ParseInt(input: Bytes): Parsed<int> {
    match ParseString(input)
    case Got(contents, rest) => Got(Mpint.Value(contents), rest)
    case Short => Short
    case SliceFault => SliceFault
  }

  function ParseUint(input: Bytes, size: nat): Parsed<nat> {
    if |input| < size then Short else Got(BytesToNat(input[..size]), input[size..])
  }

  // ----- fields -----

  /** The values a Go variable of this type can hold. */
  predicate Typed(k: Kind, v: Field) {
    match k
    case KBool => v.VBool?
    case KArray(size) => v.VArray? && |v.raw| == size
    case KU64 => v.VU64? && v.n64 < TWO32 * TWO32
    case KU32 => v.VU32? && v.n32 < TWO32
    case KU8 => v.VU8?
    case KString => v.VString?
    case KBytes => v.VBytes?
    case KRest => v.VRest?
    case KNames => v.VNames?
    case KInt => v.VInt?
  }

  function EncodeString(s: Bytes): Bytes {
    U32(|s|) + s
  }

  function EncodeField(v: Field): Bytes {
    match v
    case VBool(b) => [if b then 1 else 0]
    case VArray(raw) => raw
    case VU64(n) => FixedBytes(n, 8)
    case VU32(n) => U32(n)
    case VU8(n) => [n]
    case VString(s) => EncodeString(s)
    case VBytes(s) => EncodeString(s)
    case VRest(r) => r
    case VNames(names) => EncodeString(Join(names))
    case VInt(n) => U32(Mpint.IntLength(n) - 4) + Mpint.Content(n)
  }

  function ParseField(k: Kind, data: Bytes): Parsed<Field> {
    match k
    case KBool => if |data| < 1 then Short else Got(VBool(data[0] != 0), data[1..])
    case KArray(size) => if |data| < size then Short else Got(VArray(data[..size]), data[size..])
    case KU64 => (match ParseUint(data, 8) case Got(n, rest) => Got(VU64(n), rest) case _ => Short)
    case KU32 => (match ParseUint(data, 4) case Got(n, rest) => Got(VU32(n), rest) case _ => Short)
    case KU8 => if |data| < 1 then Short else Got(VU8(data[0]), data[1..])
    case KString =>
      (match ParseString(data) case Got(s, rest) => Got(VString(s), rest) case Short => Short case SliceFault => SliceFault)
    case KBytes =>
      (match ParseString(data) case Got(s, rest) => Got(VBytes(s), rest) case Short => Short case SliceFault => SliceFault)
    case KRest => Got(VRest(data), [])
    case KNames =>
      (match ParseNames(data) case Got(n, rest) => Got(VNames(n), rest) case Short => Short case SliceFault => SliceFault)
    case KInt =>
      (match ParseInt(data) case Got(n, rest) => Got(VInt(n), rest) case Short => Short case SliceFault => SliceFault)
  }

  /** A string field that is cut short reports its own name, every other one errShortRead. */
  function FailAt(k: Kind, index: nat, fault: bool): Error {
    if fault then SliceOutOfRange else if k.KString? then FieldError(index) else ShortRead
  }

  // ----- whole messages -----

  function EncodeFields(vs: seq<Field>): Bytes {
    if vs == [] then [] else EncodeField(vs[0]) + EncodeFields(vs[1..])
  }

  function MarshalSpec(s: Schema, vs: seq<Field>): Bytes {
    (if s.tag > 0 then [s.tag] else []) + EncodeFields(vs)
  }

  /** Parses the fields of the given kinds, the first of which has number index in the struct. */
  function ParseFields(kinds: seq<Kind>, data: Bytes, index: nat): Result<(seq<Field>, Bytes), Error> {
    if kinds == [] then Ok(([], data))
    else
      match ParseField(kinds[0], data)
      case Short => Err(FailAt(kinds[0], index, false))
      case SliceFault => Err(FailAt(kinds[0], index, true))
      case Got(v, rest) =>
        match ParseFields(kinds[1..], rest, index + 1)
        case Err(e) => Err(e)
        case Ok((vs, left)) => Ok(([v] + vs, left))
  }

  function UnmarshalSpec(s: Schema, input: Bytes): Result<seq<Field>, Error> {
    if |input| == 0 then Err(ParseError(s.tag))
    else if s.tag > 0 && input[0] != s.tag then Err(UnexpectedMessage(s.tag, input[0]))
    else
      match ParseFields(s.kinds, if s.tag > 0 then input[1..] else input, 0)
      case Err(e) => Err(e)
      case Ok((vs, left)) => if |left| != 0 then Err(ParseError(s.tag)) else Ok(vs)
  }

  predicate AllTyped(kinds: seq<Kind>, vs: seq<Field>) {
    |kinds| == |vs| && forall i | 0 <= i < |kinds| :: Typed(kinds[i], vs[i])
  }

  /** A rest field takes everything, so it makes sense only in last position. */
  predicate RestOnlyLast(kinds: seq<Kind>) {
    forall i | 0 <= i < |kinds| - 1 :: !kinds[i].KRest?
  }

  /** The name lists that survive: no comma inside a name, and not the one-element list of the empty name. */
  predicate NamesSurvive(names: seq<Bytes>) {
    names != [[]] && forall i | 0 <= i < |names| :: COMMA !in names[i]
  }

  predicate Survives(v: Field) {
    v.VNames? ==> NamesSurvive(v.names)
  }

  predicate AllSurvive(vs: seq<Field>) {
    forall i | 0 <= i < |vs| :: Survives(vs[i])
  }

  // ----- the methods of the source -----

  /** marshalStruct: appends the fields to out one after the other. */
  method Marshal(s: Schema, vs: seq<Field>) returns (out: Bytes)
    ensures out == MarshalSpec(s, vs)
  {
    hide EncodeField, EncodeFields;
    out := [];
    if s.tag > 0 {
      out := out + [s.tag];
    }
    ghost var head := out;
    NoFields();
    assert vs[..0] == [] && head + [] == head;
    for i := 0 to |vs|
      invariant out == head + EncodeFields(vs[..i])
    {
      EncodeFieldsSnoc(vs[..i], vs[i]);
      assert vs[..i + 1] == vs[..i] + [vs[i]];
      out := AppendField(out, vs[i]);
    }
    assert vs[..|vs|] == vs;
  }

  lemma NoFields()
    ensures EncodeFields([]) == []
  {
  }

  /** One case of the switch in marshalStruct. */
  method AppendField(out: Bytes, v: Field) returns (r: Bytes)
    ensures r == out + EncodeField(v)
  {
    if v.VNames? {
      var list := JoinNames(v.names);
      r := out + EncodeString(list);
    } else {
      r := out + EncodeField(v);
    }
  }

  /** The inner loop of marshalStruct over the names of a list. */
  method JoinNames(names: seq<Bytes>) returns (out: Bytes)
    ensures out == Join(names)
  {
    out := [];
    for j := 0 to |names|
      invariant out == Join(names[..j])
    {
      JoinSnoc(names[..j], names[j]);
      assert names[..j + 1] == names[..j] + [names[j]];
      if j != 0 {
        out := out + [COMMA];
      }
      out := out + names[j];
    }
    assert names[..|names|] == names;
  }

  /** Unmarshal: consumes data field by field. */
  method Unmarshal(s: Schema, input: Bytes) returns (r: Result<seq<Field>, Error>)
    ensures r == UnmarshalSpec(s, input)
  {
    if |input| == 0 {
      return Err(ParseError(s.tag));
    }
    var data := input;
    if s.tag > 0 {
      if data[0] != s.tag {
        return Err(UnexpectedMessage(s.tag, data[0]));
      }
      data := data[1..];
    }
    ghost var start := data;
    var vs: seq<Field> := [];
    assert s.kinds[0..] == s.kinds;
    PrefixedNone(ParseFields(s.kinds, start, 0));
    for i := 0 to |s.kinds|
      invariant ParseFields(s.kinds, start, 0) == Prefixed(vs, ParseFields(s.kinds[i..], data, i))
    {
      var k := s.kinds[i];
      assert s.kinds[i..][1..] == s.kinds[i + 1..];
      match ParseField(k, data) {
        case Short =>
          return Err(if k.KString? then FieldError(i) else ShortRead);
        case SliceFault =>
          return Err(SliceOutOfRange);
        case Got(v, rest) =>
          PrefixedAssoc(vs, v, ParseFields(s.kinds[i + 1..], rest, i + 1));
          vs := vs + [v];
          data := rest;
      }
    }
    assert vs + [] == vs;
    if |data| != 0 {
      return Err(ParseError(s.tag));
    }
    return Ok(vs);
  }

  ghost function Prefixed(vs: seq<Field>, r: Result<(seq<Field>, Bytes), Error>): Result<(seq<Field>, Bytes), Error> {
    match r
    case Err(e) => Err(e)
    case Ok((more, left)) => Ok((vs + more, left))
  }

  lemma PrefixedNone(r: Result<(seq<Field>, Bytes), Error>)
    ensures Prefixed([], r) == r
  {
    if r.Ok? {
      assert [] + r.value.0 == r.value.0;
    }
  }

  lemma PrefixedAssoc(vs: seq<Field>, v: Field, r: Result<(seq<Field>, Bytes), Error>)
    ensures Prefixed(vs, Prefixed([v], r)) == Prefixed(vs + [v], r)
  {
    if r.Ok? {
      assert vs + ([v] + r.value.0) == vs + [v] + r.value.0;
    }
  }

  lemma {:induction false} EncodeFieldsSnoc(vs: seq<Field>, v: Field)
    ensures EncodeFields(vs + [v]) == EncodeFields(vs) + EncodeField(v)
  {
    if vs == [] {
      assert [v][1..] == [];
    } else {
      assert (vs + [v])[1..] == vs[1..] + [v];
      EncodeFieldsSnoc(vs[1..], v);
    }
  }

  lemma {:induction false} JoinSnoc(names: seq<Bytes>, n: Bytes)
    ensures Join(names + [n]) == if names == [] then n else Join(names) + [COMMA] + n
  {
    if names != [] {
      assert (names + [n])[1..] == names[1..] + [n];
      JoinSnoc(names[1..], n);
      if |names| == 1 {
        assert names[1..] == [];
      }
    }
  }

  // ----- strings -----

  /** The writer's form of a string is read back whole, whatever follows. */
  lemma StringRoundTrip(s: Bytes, rest: Bytes)
    requires 4 + |s| + |rest| < TWO32
    ensures ParseString(EncodeString(s) + rest) == Got(s, rest)
  {
    hide BytesToNat, U32;
    var input := EncodeString(s) + rest;
    WordRoundTrip(|s|);
    assert input[..4] == U32(|s|);
    assert input[4..4 + |s|] == s && input[4 + |s|..] == rest;
  }

  /** Only the writer's form is accepted. */
  lemma StringIsCanonical(input: Bytes)
    requires ParseString(input).Got?
    ensures var p := ParseString(input); input == EncodeString(p.out) + p.rest
  {
    var n := BytesToNat(input[..4]);
    Pow256Values();
    BytesToNatBound(input[..4]);
    FixedOfBytes(input[..4]);
    assert n < TWO32;
    var end := (4 + n) % TWO32;
    assert end == 4 + n;
    assert input == input[..4] + input[4..end] + input[end..];
  }

  /** parseString faults exactly when the length word plus four wraps around uint32. */
  lemma StringFaultsIff(input: Bytes)
    requires |input| < TWO32
    ensures ParseString(input).SliceFault? <==> |input| >= 4 && BytesToNat(input[..4]) >= TWO32 - 4
  {
    if |input| >= 4 {
      Pow256Values();
      BytesToNatBound(input[..4]);
    }
  }

  // ----- name lists -----

  lemma {:induction false} JoinSplit(c: Bytes)
    ensures Join(Split(c)) == c
  {
    if c != [] {
      JoinSplit(c[1..]);
      var r := Split(c[1..]);
      if c[0] == COMMA {
        assert ([[]] + r)[1..] == r;
      } else {
        var s := [[c[0]] + r[0]] + r[1..];
        assert s[1..] == r[1..];
      }
    }
  }

  function Commas(c: Bytes): nat {
    if c == [] then 0 else (if c[0] == COMMA then 1 else 0) + Commas(c[1..])
  }

  lemma {:induction false} SplitCount(c: Bytes)
    ensures |Split(c)| == 1 + Commas(c)
  {
    if c != [] {
      SplitCount(c[1..]);
    }
  }

  lemma {:induction false} CommasAppend(a: Bytes, b: Bytes)
    ensures Commas(a + b) == Commas(a) + Commas(b)
  {
    if a == [] {
      assert a + b == b;
    } else {
      assert (a + b)[1..] == a[1..] + b;
      CommasAppend(a[1..], b);
    }
  }

  lemma {:induction false} CommaFree(c: Bytes)
    ensures Commas(c) == 0 <==> COMMA !in c
  {
    if c != [] {
      CommaFree(c[1..]);
      assert c == [c[0]] + c[1..];
    }
  }

  lemma {:induction false} JoinCount(names: seq<Bytes>)
    requires names != []
    ensures 1 + Commas(Join(names)) >= |names|
    ensures 1 + Commas(Join(names)) == |names| <==> forall i | 0 <= i < |names| :: COMMA !in names[i]
  {
    var head := names[0];
    CommaFree(head);
    if |names| > 1 {
      var tail := names[1..];
      JoinCount(tail);
      CommasAppend(head + [COMMA], Join(tail));
      CommasAppend(head, [COMMA]);
      assert Commas([COMMA]) == 1 + Commas([COMMA][1..]) && [COMMA][1..] == [];
      assert forall i | 0 < i < |names| :: names[i] == tail[i - 1];
    }
  }

  lemma {:induction false} SplitJoin(names: seq<Bytes>)
    requires names != [] && forall i | 0 <= i < |names| :: COMMA !in names[i]
    ensures Split(Join(names)) == names
  {
    if |names| == 1 {
      SplitWord(names[0]);
    } else {
      SplitJoin(names[1..]);
      SplitWordThen(names[0], Join(names[1..]));
      assert names == [names[0]] + names[1..];
    }
  }

  lemma {:induction false} SplitWord(w: Bytes)
    requires COMMA !in w
    ensures Split(w) == [w]
  {
    if w != [] {
      SplitWord(w[1..]);
      assert w == [w[0]] + w[1..];
    }
  }

  lemma {:induction false} SplitWordThen(w: Bytes, c: Bytes)
    requires COMMA !in w
    ensures Split(w + [COMMA] + c) == [w] + Split(c)
  {
    var s := w + [COMMA] + c;
    if w == [] {
      assert s[1..] == c;
    } else {
      assert s[1..] == w[1..] + [COMMA] + c;
      SplitWordThen(w[1..], c);
      assert w == [w[0]] + w[1..];
    }
  }

  /** A name list comes back exactly when it has no comma in a name and is not [""]. */
  lemma NamesRoundTripIff(names: seq<Bytes>, rest: Bytes)
    requires 4 + |Join(names)| + |rest| < TWO32
    ensures var p := ParseNames(EncodeString(Join(names)) + rest);
            p.Got? && p.rest == rest && (p.out == names <==> NamesSurvive(names))
  {
    var c := Join(names);
    StringRoundTrip(c, rest);
    if names != [] {
      if NamesSurvive(names) {
        SplitJoin(names);
      } else {
        SplitCount(c);
        JoinCount(names);
      }
    }
  }

  // ----- fields and messages: reading what was written -----

  lemma FieldRoundTripIff(k: Kind, v: Field, rest: Bytes)
    requires Typed(k, v) && (k.KRest? ==> rest == [])
    requires |EncodeField(v)| + |rest| < TWO32
    ensures var p := ParseField(k, EncodeField(v) + rest);
            p.Got? && p.rest == rest && (p.out == v <==> Survives(v))
  {
    var input := EncodeField(v) + rest;
    match v {
      case VU64(n) =>
        Pow256Values();
        BytesOfFixed(n, 8);
        assert input[..8] == FixedBytes(n, 8) && input[8..] == rest;
      case VU32(n) =>
        Pow256Values();
        BytesOfFixed(n, 4);
        assert input[..4] == U32(n) && input[4..] == rest;
      case VArray(raw) =>
        assert input[..|raw|] == raw && input[|raw|..] == rest;
      case VBool(_) =>
        assert input[1..] == rest;
      case VU8(_) =>
        assert input[1..] == rest;
      case VRest(r) =>
        assert input == r;
      case VString(s) => StringRoundTrip(s, rest);
      case VBytes(s) => StringRoundTrip(s, rest);
      case VNames(names) => NamesRoundTripIff(names, rest);
      case VInt(n) =>
        Mpint.LengthIsExact(n);
        StringRoundTrip(Mpint.Content(n), rest);
        Mpint.ContentRoundTrip(n);
    }
  }

  lemma AllSurviveCons(vs: seq<Field>)
    requires vs != []
    ensures AllSurvive(vs) <==> Survives(vs[0]) && AllSurvive(vs[1..])
  {
    var tail := vs[1..];
    if AllSurvive(vs) {
      forall i | 0 <= i < |tail| ensures Survives(tail[i]) {
        assert Survives(vs[i + 1]);
      }
    }
    assert forall i | 0 < i < |vs| :: vs[i] == tail[i - 1];
  }

  lemma ConsEqual(v: Field, more: seq<Field>, vs: seq<Field>)
    requires vs != []
    ensures [v] + more == vs <==> v == vs[0] && more == vs[1..]
  {
    assert vs == [vs[0]] + vs[1..];
    assert ([v] + more)[1..] == more;
  }

  lemma {:induction false} FieldsRoundTripIff(kinds: seq<Kind>, vs: seq<Field>, index: nat)
    requires AllTyped(kinds, vs) && RestOnlyLast(kinds)
    requires |EncodeFields(vs)| < TWO32
    ensures var r := ParseFields(kinds, EncodeFields(vs), index);
            r.Ok? && r.value.1 == [] && (r.value.0 == vs <==> AllSurvive(vs))
  {
    if kinds != [] {
      var tail := vs[1..];
      assert AllTyped(kinds[1..], tail);
      if kinds[0].KRest? {
        assert |kinds| == 1 && tail == [];
      }
      FieldRoundTripIff(kinds[0], vs[0], EncodeFields(tail));
      FieldsRoundTripIff(kinds[1..], tail, index + 1);
      AllSurviveCons(vs);
      var p := ParseField(kinds[0], EncodeFields(vs));
      assert p.Got? && p.rest == EncodeFields(tail);
      ConsEqual(p.out, ParseFields(kinds[1..], p.rest, index + 1).value.0, vs);
    }
  }

  /** Unmarshal of Marshal: for every struct type with at most a trailing rest field and every value
      whose encoding is shorter than 2^32 bytes, the value comes back exactly when the encoding is not
      empty and its name lists survive. */
  lemma UnmarshalMarshal(s: Schema, vs: seq<Field>)
    requires AllTyped(s.kinds, vs) && RestOnlyLast(s.kinds)
    requires |MarshalSpec(s, vs)| < TWO32
    ensures UnmarshalSpec(s, MarshalSpec(s, vs)) == Ok(vs) <==>
            MarshalSpec(s, vs) != [] && AllSurvive(vs)
  {
    FieldsRoundTripIff(s.kinds, vs, 0);
    var input := MarshalSpec(s, vs);
    if s.tag > 0 {
      assert input[1..] == EncodeFields(vs);
    } else {
      assert input == EncodeFields(vs);
    }
  }

  /** The same for a struct type without a tag. */
  lemma UntaggedRoundTrip(kinds: seq<Kind>, vs: seq<Field>)
    requires AllTyped(kinds, vs) && RestOnlyLast(kinds) && AllSurvive(vs)
    requires 0 < |EncodeFields(vs)| < TWO32
    ensures UnmarshalSpec(Schema(0, kinds), EncodeFields(vs)) == Ok(vs)
  {
    assert MarshalSpec(Schema(0, kinds), vs) == EncodeFields(vs);
    UnmarshalMarshal(Schema(0, kinds), vs);
  }

  // ----- fields and messages: writing what was read -----

  /** Whether the first field of data has the one form its value is written in: true is 1, and an
      mpint has no redundant sign byte. All other kinds have no second form. */
  predicate CanonicalField(k: Kind, data: Bytes)
    requires ParseField(k, data).Got?
  {
    match k
    case KBool => data[0] <= 1
    case KInt => Mpint.Canonical(ParseString(data).out)
    case _ => true
  }

  predicate CanonicalFields(kinds: seq<Kind>, data: Bytes) {
    kinds != [] ==>
      var p := ParseField(kinds[0], data);
      p.Got? ==> CanonicalField(kinds[0], data) && CanonicalFields(kinds[1..], p.rest)
  }

  /** The bytes a field took from the input. */
  function Taken(k: Kind, data: Bytes): Bytes
    requires ParseField(k, data).Got? && |ParseField(k, data).rest| <= |data|
  {
    data[..|data| - |ParseField(k, data).rest|]
  }

  lemma FieldRemarshalIff(k: Kind, data: Bytes)
    requires ParseField(k, data).Got?
    ensures var p := ParseField(k, data);
            && |p.rest| <= |data| && data == Taken(k, data) + p.rest
            && Typed(k, p.out) && Survives(p.out)
            && (EncodeField(p.out) == Taken(k, data) <==> CanonicalField(k, data))
            && (|EncodeField(p.out)| == |Taken(k, data)| || (k.KInt? && !CanonicalField(k, data)))
  {
    var p := ParseField(k, data);
    match k {
      case KU64 => FixedOfBytes(data[..8]); Pow256Values(); BytesToNatBound(data[..8]);
      case KU32 => FixedOfBytes(data[..4]); Pow256Values(); BytesToNatBound(data[..4]);
      case KString => StringIsCanonical(data);
      case KBytes => StringIsCanonical(data);
      case KNames =>
        StringIsCanonical(data);
        var c := ParseString(data).out;
        JoinSplit(c);
        if c != [] {
          SplitCount(c);
          JoinCount(Split(c));
          assert Join([[]]) == [];
        }
      case KInt =>
        StringIsCanonical(data);
        var c := ParseString(data).out;
        Mpint.CanonicalIsContent(c);
        Mpint.LengthIsExact(p.out.mp);
        assert Taken(k, data) == EncodeString(c);
        if !CanonicalField(k, data) {
          var content := Mpint.Content(p.out.mp);
          assert EncodeField(p.out)[4..] == content && EncodeString(c)[4..] == c;
        }
      case _ =>
    }
  }

  /** The length word of a re-written mpint differs when its content is not canonical. */
  lemma IntRemarshalDiffers(data: Bytes, more: Bytes)
    requires ParseField(KInt, data).Got? && !CanonicalField(KInt, data)
    ensures EncodeField(ParseField(KInt, data).out) + more != data
  {
    StringIsCanonical(data);
    var c := ParseString(data).out;
    var n := Mpint.Value(c);
    Mpint.CanonicalIsContent(c);
    Mpint.ContentIsShortest(c);
    Mpint.LengthIsExact(n);
    var m := |Mpint.Content(n)|;
    assert m < |c|;
    if U32(m) == U32(|c|) {
      Pow256Values();
      BytesToNatBound(data[..4]);
      assert |c| < TWO32;
      BytesOfFixed(m, 4);
      BytesOfFixed(|c|, 4);
      assert false;
    }
    assert data[..4] == U32(|c|);
    assert (EncodeField(VInt(n)) + more)[..4] == U32(m);
  }

  lemma {:induction false} FieldsRemarshalIff(kinds: seq<Kind>, data: Bytes, index: nat)
    requires ParseFields(kinds, data, index).Ok? && ParseFields(kinds, data, index).value.1 == []
    ensures var vs := ParseFields(kinds, data, index).value.0;
            && AllTyped(kinds, vs)
            && (EncodeFields(vs) == data <==> CanonicalFields(kinds, data))
  {
    if kinds != [] {
      var k := kinds[0];
      var p := ParseField(k, data);
      FieldRemarshalIff(k, data);
      FieldsRemarshalIff(kinds[1..], p.rest, index + 1);
      var tail := ParseFields(kinds[1..], p.rest, index + 1).value.0;
      var vs := ParseFields(kinds, data, index).value.0;
      assert vs == [p.out] + tail && vs[1..] == tail;
      var head := EncodeField(p.out);
      if CanonicalField(k, data) {
        assert data == head + p.rest;
        if EncodeFields(vs) == data {
          assert EncodeFields(tail) == EncodeFields(vs)[|head|..] == data[|head|..] == p.rest;
        }
      } else if k.KInt? {
        IntRemarshalDiffers(data, EncodeFields(tail));
      } else {
        assert EncodeFields(vs)[..|head|] == head;
        assert data[..|head|] == Taken(k, data);
      }
    }
  }

  /** Marshal of Unmarshal: every accepted input is reproduced byte for byte exactly when its booleans
      are 0 or 1 and its mpints have no redundant sign byte. */
  lemma MarshalUnmarshal(s: Schema, input: Bytes)
    requires UnmarshalSpec(s, input).Ok?
    ensures MarshalSpec(s, UnmarshalSpec(s, input).value) == input <==>
            CanonicalFields(s.kinds, if s.tag > 0 then input[1..] else input)
  {
    var data := if s.tag > 0 then input[1..] else input;
    FieldsRemarshalIff(s.kinds, data, 0);
    var vs := UnmarshalSpec(s, input).value;
    if s.tag > 0 {
      assert input == [s.tag] + data;
      if MarshalSpec(s, vs) == input {
        assert EncodeFields(vs) == MarshalSpec(s, vs)[1..] == data;
      }
    } else {
      assert MarshalSpec(s, vs) == EncodeFields(vs);
    }
  }

  lemma {:induction false} CanonicalWithoutBoolOrInt(kinds: seq<Kind>, data: Bytes)
    requires forall i | 0 <= i < |kinds| :: !kinds[i].KBool? && !kinds[i].KInt?
    ensures CanonicalFields(kinds, data)
    decreases |kinds|
  {
    if kinds != [] && ParseField(kinds[0], data).Got? {
      CanonicalWithoutBoolOrInt(kinds[1..], ParseField(kinds[0], data).rest);
    }
  }

  /** So a message type without bool and mpint has exactly one wire form for each value. */
  lemma OneWireForm(s: Schema, input: Bytes)
    requires forall i | 0 <= i < |s.kinds| :: !s.kinds[i].KBool? && !s.kinds[i].KInt?
    requires UnmarshalSpec(s, input).Ok?
    ensures MarshalSpec(s, UnmarshalSpec(s, input).value) == input
  {
    MarshalUnmarshal(s, input);
    CanonicalWithoutBoolOrInt(s.kinds, if s.tag > 0 then input[1..] else input);
  }

  /** Values without a damaged name list are told apart by their encodings. */
  lemma MarshalInjective(s: Schema, x: seq<Field>, y: seq<Field>)
    requires AllTyped(s.kinds, x) && AllTyped(s.kinds, y) && RestOnlyLast(s.kinds)
    requires AllSurvive(x) && AllSurvive(y)
    requires 0 < |MarshalSpec(s, x)| < TWO32 && MarshalSpec(s, x) == MarshalSpec(s, y)
    ensures x == y
  {
    UnmarshalMarshal(s, x);
    UnmarshalMarshal(s, y);
  }

  // ----- layouts -----

  /** The fields of a message stand one after the other, in order. */
  lemma TwoFields(vs: seq<Field>)
    requires |vs| == 2
    ensures EncodeFields(vs) == EncodeField(vs[0]) + EncodeField(vs[1])
  {
    hide EncodeField;
    assert EncodeFields(vs[1..][1..]) == [];
    assert EncodeFields(vs[1..]) == EncodeField(vs[1]) + [];
  }

  lemma ThreeFields(vs: seq<Field>)
    requires |vs| == 3
    ensures EncodeFields(vs) == EncodeField(vs[0]) + EncodeField(vs[1]) + EncodeField(vs[2])
  {
    hide EncodeField;
    TwoFields(vs[1..]);
  }

  lemma FourFields(vs: seq<Field>)
    requires |vs| == 4
    ensures EncodeFields(vs) == EncodeField(vs[0]) + EncodeField(vs[1]) + EncodeField(vs[2]) + EncodeField(vs[3])
  {
    hide EncodeField;
    ThreeFields(vs[1..]);
  }

  lemma EightFields(vs: seq<Field>)
    requires |vs| == 8
    ensures EncodeFields(vs) == EncodeField(vs[0]) + EncodeField(vs[1]) + EncodeField(vs[2]) + EncodeField(vs[3])
                                + EncodeField(vs[4]) + EncodeField(vs[5]) + EncodeField(vs[6]) + EncodeField(vs[7])
  {
    hide EncodeField;
    FourFields(vs[4..]);
    assert vs[1..][1..] == vs[2..] && vs[2..][1..] == vs[3..] && vs[3..][1..] == vs[4..];
    assert EncodeFields(vs[3..]) == EncodeField(vs[3]) + EncodeFields(vs[4..]);
    assert EncodeFields(vs[2..]) == EncodeField(vs[2]) + EncodeFields(vs[3..]);
    assert EncodeFields(vs[1..]) == EncodeField(vs[1]) + EncodeFields(vs[2..]);
  }

  /** Strings of any kind have the same form. */
  lemma FieldForms()
    ensures forall s :: EncodeField(VString(s)) == EncodeString(s) && EncodeField(VBytes(s)) == EncodeString(s)
  {
    hide EncodeString;
  }

  /** Section 5 of RFC 4251: a boolean is one byte, 1 for true; integers have 1, 4 and 8 bytes, the most significant first; a string
      is its length in 4 bytes and its bytes; a name list is the string of its names with a comma between any two; an mpint is a
      string in two's complement with the most significant byte first. Arrays and rests have no length. */
  lemma WireForms(v: Field)
    requires v.VU64? ==> v.n64 < TWO32 * TWO32
    requires v.VU32? ==> v.n32 < TWO32
    requires v.VString? || v.VBytes? || v.VNames? || v.VInt? ==> |EncodeField(v)| < TWO32
    ensures var e := EncodeField(v);
            match v
            case VBool(b) => e == if b then [1] else [0]
            case VArray(raw) => e == raw
            case VU64(n) => |e| == 8 && BytesToNat(e) == n
            case VU32(n) => |e| == 4 && BytesToNat(e) == n
            case VU8(n) => e == [n]
            case VString(s) => |e| == 4 + |s| && BytesToNat(e[..4]) == |s| && e[4..] == s
            case VBytes(s) => |e| == 4 + |s| && BytesToNat(e[..4]) == |s| && e[4..] == s
            case VRest(r) => e == r
            case VNames(names) => |e| >= 4 && BytesToNat(e[..4]) == |e| - 4 && e[4..] == Join(names)
            case VInt(n) => |e| >= 4 && BytesToNat(e[..4]) == |e| - 4 && Mpint.Value(e[4..]) == n
  {
    hide Mpint.Content, Join;
    Pow256Values();
    match v {
      case VU64(n) => BytesOfFixed(n, 8);
      case VU32(n) => WordRoundTrip(n);
      case VString(s) => StringForm(s);
      case VBytes(s) => StringForm(s);
      case VNames(names) => StringForm(Join(names));
      case VInt(n) =>
        Mpint.LengthIsExact(n);
        Mpint.ContentRoundTrip(n);
        WordRoundTrip(Mpint.IntLength(n) - 4);
      case _ =>
    }
  }

  lemma StringForm(s: Bytes)
    requires |EncodeString(s)| < TWO32
    ensures var e := EncodeString(s); |e| == 4 + |s| && BytesToNat(e[..4]) == |s| && e[4..] == s
  {
    WordRoundTrip(|s|);
  }

  // ----- the data signed by publickey authentication (common.go) -----

  const MSG_USER_AUTH_REQUEST: byte := 50

  const SIGNED_DATA := Schema(0, [KBytes, KU8, KString, KString, KString, KBool, KBytes, KBytes])

  function SignedFields(session: Bytes, user: Bytes, service: Bytes, authMethod: Bytes, algo: Bytes, pubKey: Bytes): seq<Field> {
    [VBytes(session), VU8(MSG_USER_AUTH_REQUEST), VString(user), VString(service), VString(authMethod), VBool(true),
     VBytes(algo), VBytes(pubKey)]
  }

  function BuildDataSignedForAuth(session: Bytes, user: Bytes, service: Bytes, authMethod: Bytes, algo: Bytes, pubKey: Bytes): Bytes {
    MarshalSpec(SIGNED_DATA, SignedFields(session, user, service, authMethod, algo, pubKey))
  }

  lemma SignedFieldsFit(s: Bytes, u: Bytes, v: Bytes, m: Bytes, a: Bytes, k: Bytes)
    ensures var x := SignedFields(s, u, v, m, a, k); AllTyped(SIGNED_DATA.kinds, x) && AllSurvive(x)
    ensures BuildDataSignedForAuth(s, u, v, m, a, k) != []
  {
    var x := SignedFields(s, u, v, m, a, k);
    assert |EncodeField(x[0])| >= 4;
  }

  /** Two requests have the same signed bytes only if they agree in session, user, service, method,
      algorithm and key. */
  lemma SignedDataIsInjective(s: Bytes, u: Bytes, v: Bytes, m: Bytes, a: Bytes, k: Bytes,
                              s': Bytes, u': Bytes, v': Bytes, m': Bytes, a': Bytes, k': Bytes)
    requires BuildDataSignedForAuth(s, u, v, m, a, k) == BuildDataSignedForAuth(s', u', v', m', a', k')
    requires |BuildDataSignedForAuth(s, u, v, m, a, k)| < TWO32
    ensures s == s' && u == u' && v == v' && m == m' && a == a' && k == k'
  {
    var x, y := SignedFields(s, u, v, m, a, k), SignedFields(s', u', v', m', a', k');
    SignedFieldsFit(s, u, v, m, a, k);
    SignedFieldsFit(s', u', v', m', a', k');
    MarshalInjective(SIGNED_DATA, x, y);
    assert x[0] == y[0] && x[2] == y[2] && x[3] == y[3] && x[4] == y[4] && x[6] == y[6] && x[7] == y[7];
  }

  /** And these are they, as section 7 of RFC 4252 has them. */
  lemma SignedBytes(s: Bytes, u: Bytes, v: Bytes, m: Bytes, a: Bytes, k: Bytes)
    ensures BuildDataSignedForAuth(s, u, v, m, a, k) ==
            EncodeString(s) + [50] + EncodeString(u) + EncodeString(v) + EncodeString(m) + [1] + EncodeString(a) + EncodeString(k)
  {
    hide EncodeString;
    EightFields(SignedFields(s, u, v, m, a, k));
  }
}
