/** AMF0 values: nested objects with unordered properties, and ECMA arrays. */
module Amf0 {
  import opened Bytes

  const NUMBER: byte := 0
  const BOOLEAN: byte := 1
  const STRING: byte := 2
  const OBJECT: byte := 3
  const NULL: byte := 5
  const UNDEFINED: byte := 6
  const ECMA_ARRAY: byte := 8
  const OBJECT_END: byte := 9

  /** A value. The properties of an object are a map: they have no order. A number is its
      64-bit pattern. */
  datatype Value =
    | Number(bits: nat)
    | Boolean(b: bool)
    | Str(s: seq<byte>)
    | Object(properties: map<seq<byte>, Value>)
    | Null
    | Undefined

  /** A value together with an enumeration order of the properties of every object in it:
      what a traversal of the hash maps sees. */
  datatype Tree =
    | NumberT(bits: nat)
    | BooleanT(b: bool)
    | StrT(s: seq<byte>)
    | ObjectT(props: seq<Prop>)
    | NullT
    | UndefinedT

  datatype Prop = Prop(key: seq<byte>, value: Tree)

  /** The value a tree enumerates. */
  function Meaning(t: Tree): Value
    decreases t, 0
  {
    match t
    case NumberT(n) => Number(n)
    case BooleanT(b) => Boolean(b)
    case StrT(s) => Str(s)
    case ObjectT(ps) => Object(Properties(ps, map[]))
    case NullT => Null
    case UndefinedT => Undefined
  }

  /** The properties added one after another: the last value of a key wins. */
  function Properties(ps: seq<Prop>, acc: map<seq<byte>, Value>): map<seq<byte>, Value>
    decreases ps, 1
  {
    if ps == [] then acc else Properties(ps[1..], acc[ps[0].key := Meaning(ps[0].value)])
  }

  /** Lengths and numbers fit their fields. */
  predicate Fits(t: Tree)
    decreases t, 0
  {
    match t
    case NumberT(n) => n < Pow256(8)
    case StrT(s) => |s| < 0x1_0000
    case ObjectT(ps) => AllFit(ps)
    case _ => true
  }

  predicate AllFit(ps: seq<Prop>)
    decreases ps, 1
  {
    ps == [] || (|ps[0].key| < 0x1_0000 && Fits(ps[0].value) && AllFit(ps[1..]))
  }

  // ------------------------------------------------------------------
  // Encoding

  function Encoded(t: Tree): seq<byte>
    decreases t, 0
  {
    match t
    case NumberT(n) => [NUMBER] + ToBe(n, 8)
    case BooleanT(b) => [BOOLEAN, if b then 1 else 0]
    case StrT(s) => [STRING] + ToBe(|s|, 2) + s
    case ObjectT(ps) => [OBJECT] + EncodedProps(ps) + [0, 0, OBJECT_END]
    case NullT => [NULL]
    case UndefinedT => [UNDEFINED]
  }

  function EncodedProps(ps: seq<Prop>): seq<byte>
    decreases ps, 1
  {
    if ps == [] then [] else ToBe(|ps[0].key|, 2) + ps[0].key + Encoded(ps[0].value) + EncodedProps(ps[1..])
  }

  /** `size()`: how long the encoding will be. */
  function Size(t: Tree): nat
    decreases t, 0
  {
    match t
    case NumberT(_) => 9
    case BooleanT(_) => 2
    case StrT(s) => 1 + 2 + |s|
    case ObjectT(ps) => 1 + SizeOfProps(ps) + 3
    case NullT => 1
    case UndefinedT => 1
  }

  function SizeOfProps(ps: seq<Prop>): nat
    decreases ps, 1
  {
    if ps == [] then 0 else 2 + |ps[0].key| + Size(ps[0].value) + SizeOfProps(ps[1..])
  }

  lemma {:induction false} SizeIsLength(t: Tree)
    ensures Size(t) == |Encoded(t)|
    decreases t, 0
  {
    if t.ObjectT? {
      SizeOfPropsIsLength(t.props);
    }
  }

  lemma {:induction false} SizeOfPropsIsLength(ps: seq<Prop>)
    ensures SizeOfProps(ps) == |EncodedProps(ps)|
    decreases ps, 1
  {
    if ps != [] {
      SizeIsLength(ps[0].value);
      SizeOfPropsIsLength(ps[1..]);
    }
  }

  // ------------------------------------------------------------------
  // Decoding

  datatype Result = Ok(consumed: nat, value: Value) | Err(code: int)

  function DecodeNumber(d: seq<byte>): Result {
    if |d| < 1 then Err(-1)
    else if d[0] != NUMBER then Err(-2)
    else if |d| < 9 then Err(-3)
    else Ok(9, Number(FromBe(d[1..9])))
  }

  function DecodeBoolean(d: seq<byte>): Result {
    if |d| < 1 then Err(-1)
    else if d[0] != BOOLEAN then Err(-2)
    else if |d| < 2 then Err(-3)
    else Ok(2, Boolean(d[1] > 0))
  }

  function DecodeString(d: seq<byte>): Result {
    if |d| < 1 then Err(-1)
    else if d[0] != STRING then Err(-2)
    else if |d| < 3 then Err(-3)
    else
      var n := FromBe(d[1..3]);
      if |d| < 3 + n then Err(-4) else Ok(3 + n, Str(d[3..3 + n]))
  }

  function DecodeMarker(d: seq<byte>, marker: byte, v: Value): Result {
    if |d| < 1 then Err(-1) else if d[0] != marker then Err(-2) else Ok(1, v)
  }

  predicate AtObjectEnd(d: seq<byte>) {
    |d| >= 3 && d[0] == 0 && d[1] == 0 && d[2] == OBJECT_END
  }

  /** The values that are not objects. */
  function DecodeScalar(d: seq<byte>): (r: Result)
    ensures r.Ok? ==> 1 <= r.consumed <= |d|
  {
    if d == [] then Err(-1)
    else if d[0] == NUMBER then DecodeNumber(d)
    else if d[0] == BOOLEAN then DecodeBoolean(d)
    else if d[0] == STRING then DecodeString(d)
    else if d[0] == NULL then DecodeMarker(d, NULL, Null)
    else if d[0] == UNDEFINED then DecodeMarker(d, UNDEFINED, Undefined)
    else Err(-1)
  }

  /** The value of a property. The program looks at the marker before it knows that there
      is one; with nothing left every branch ends in the same error. */
  function DecodeValue(d: seq<byte>): (r: Result)
    ensures r.Ok? ==> 1 <= r.consumed <= |d|
    decreases |d|, 1
  {
    if d != [] && d[0] == OBJECT then DecodeObject(d) else DecodeScalar(d)
  }

  function DecodeObject(d: seq<byte>): (r: Result)
    ensures r.Ok? ==> 1 <= r.consumed <= |d|
    decreases |d|, 0
  {
    if |d| < 1 then Err(-1)
    else if d[0] != OBJECT then Err(-2)
    else DecodeProps(d[1..], map[], 1)
  }

  /** The property loop of an object: `pos` bytes have been consumed, `d` is left. */
  function DecodeProps(d: seq<byte>, acc: map<seq<byte>, Value>, pos: nat): (r: Result)
    ensures r.Ok? ==> pos <= r.consumed <= pos + |d|
    decreases |d|, 2
  {
    if |d| == 0 then Ok(pos, Object(acc))
    else if AtObjectEnd(d) then Ok(pos + 3, Object(acc))
    else if |d| < 2 then Err(-3)
    else
      var n := FromBe(d[..2]);
      if |d| < 2 + n then Err(-4)
      else
        var rest := d[2 + n..];
        var v := DecodeValue(rest);
        if v.Err? then Err(-1)
        else DecodeProps(rest[v.consumed..], acc[d[2..2 + n] := v.value], pos + 2 + n + v.consumed)
  }

  // ------------------------------------------------------------------
  // The round trip

  lemma ScalarRoundTrip(t: Tree, trail: seq<byte>)
    requires Fits(t) && !t.ObjectT?
    ensures DecodeValue(Encoded(t) + trail) == Ok(|Encoded(t)|, Meaning(t))
  {
    var d := Encoded(t) + trail;
    match t
    case NumberT(n) =>
      assert d[1..9] == ToBe(n, 8);
      BeRoundTrip(n, 8);
    case StrT(s) =>
      assert d[1..3] == ToBe(|s|, 2);
      Pow256Values();
      BeRoundTrip(|s|, 2);
      assert d[3..3 + |s|] == s;
    case _ =>
  }

  /** Every nested object, in every enumeration order of its properties, followed by any
      bytes at all: decoding consumes exactly the encoding and yields the same value. */
  lemma {:induction false} RoundTrip(t: Tree, trail: seq<byte>)
    requires Fits(t)
    ensures DecodeValue(Encoded(t) + trail) == Ok(|Encoded(t)|, Meaning(t))
    decreases t, 0
  {
    if t.ObjectT? {
      var d := Encoded(t) + trail;
      assert d[1..] == EncodedProps(t.props) + [0, 0, OBJECT_END] + trail;
      PropsRoundTrip(t.props, map[], 1, trail);
    } else {
      ScalarRoundTrip(t, trail);
    }
  }

  lemma {:induction false} PropsRoundTrip(ps: seq<Prop>, acc: map<seq<byte>, Value>, pos: nat, trail: seq<byte>)
    requires AllFit(ps)
    ensures DecodeProps(EncodedProps(ps) + [0, 0, OBJECT_END] + trail, acc, pos)
            == Ok(pos + |EncodedProps(ps)| + 3, Object(Properties(ps, acc)))
    decreases ps, 1
  {
    hide Encoded, Meaning, DecodeValue, DecodeProps, Fits, ToBe, FromBe;
    if ps == [] {
      EndRead(trail, acc, pos);
      assert EncodedProps(ps) + [0, 0, OBJECT_END] + trail == [0, 0, OBJECT_END] + trail;
    } else {
      var p := ps[0];
      var e := Encoded(p.value);
      var tail := EncodedProps(ps[1..]) + [0, 0, OBJECT_END] + trail;
      Regroup(ToBe(|p.key|, 2) + p.key, e, EncodedProps(ps[1..]), [0, 0, OBJECT_END], trail);
      RoundTrip(p.value, tail);
      EncodedStart(p.value);
      PropRead(p.key, e, tail, Meaning(p.value), acc, pos);
      PropsRoundTrip(ps[1..], acc[p.key := Meaning(p.value)], pos + 2 + |p.key| + |e|, trail);
    }
  }

  lemma Regroup<T>(a: seq<T>, b: seq<T>, c: seq<T>, d: seq<T>, e: seq<T>)
    ensures a + b + c + d + e == a + (b + (c + d + e))
  {
  }

  lemma EndRead(trail: seq<byte>, acc: map<seq<byte>, Value>, pos: nat)
    ensures DecodeProps([0, 0, OBJECT_END] + trail, acc, pos) == Ok(pos + 3, Object(acc))
  {
    assert AtObjectEnd([0, 0, OBJECT_END] + trail);
  }

  /** One property is read and the loop goes on behind it. */
  lemma PropRead(key: seq<byte>, e: seq<byte>, tail: seq<byte>, v: Value, acc: map<seq<byte>, Value>, pos: nat)
    requires |key| < 0x1_0000
    requires |e| >= 1 && e[0] != OBJECT_END
    requires DecodeValue(e + tail) == Ok(|e|, v)
    ensures DecodeProps(ToBe(|key|, 2) + key + (e + tail), acc, pos)
            == DecodeProps(tail, acc[key := v], pos + 2 + |key| + |e|)
  {
    hide DecodeValue, FromBe, ToBe;
    KeyRead(key, e + tail);
    assert (e + tail)[|e|..] == tail;
  }

  /** A key and what follows it. */
  lemma KeyRead(key: seq<byte>, rest: seq<byte>)
    requires |key| < 0x1_0000
    ensures var d := ToBe(|key|, 2) + key + rest;
            && FromBe(d[..2]) == |key| && d[2..2 + |key|] == key && d[2 + |key|..] == rest
            && (|key| > 0 ==> d[0] != 0 || d[1] != 0)
            && (|key| == 0 && rest != [] ==> d[2] == rest[0])
  {
    Pow256Values();
    BeRoundTrip(|key|, 2);
    FromBeTwo(0, 0);
    hide ToBe, FromBe;
    KeySlices(ToBe(|key|, 2), key, rest);
    var d := ToBe(|key|, 2) + key + rest;
    if d[0] == 0 && d[1] == 0 {
      assert d[..2] == [0, 0];
    }
  }

  lemma KeySlices(n: seq<byte>, key: seq<byte>, rest: seq<byte>)
    requires |n| == 2
    ensures var d := n + key + rest;
            && d[..2] == n && d[2..2 + |key|] == key && d[2 + |key|..] == rest
            && (|key| == 0 && rest != [] ==> d[2] == rest[0])
  {
  }

  /** No value starts with the object-end marker, so an empty key is not mistaken for it. */
  lemma EncodedStart(t: Tree)
    ensures |Encoded(t)| >= 1 && Encoded(t)[0] != OBJECT_END
  {
  }

  /** Section 2 of the AMF0 specification, byte by byte. */
  lemma WireForms()
    ensures Encoded(NumberT(0)) == [0, 0, 0, 0, 0, 0, 0, 0, 0]
    ensures Encoded(BooleanT(true)) == [1, 1] && Encoded(BooleanT(false)) == [1, 0]
    ensures Encoded(StrT([120])) == [2, 0, 1, 120]
    ensures Encoded(ObjectT([Prop([97], NullT)])) == [3, 0, 1, 97, 5, 0, 0, 9]
    ensures Encoded(NullT) == [5] && Encoded(UndefinedT) == [6]
  {
    ToBeOne();
    hide ToBe;
    var p := Prop([97], NullT);
    assert [p][1..] == [] && EncodedProps([]) == [];
    assert EncodedProps([p]) == [0, 1] + [97] + [5] + [];
  }

  lemma ToBeOne()
    ensures ToBe(1, 2) == [0, 1] && ToBe(0, 8) == [0, 0, 0, 0, 0, 0, 0, 0]
  {
    assert ToBe(0, 0) == [] && ToBe(0, 1) == [0];
    assert ToBe(0, 2) == [0, 0];
    assert ToBe(0, 3) == [0, 0, 0];
    assert ToBe(0, 4) == [0, 0, 0, 0];
    assert ToBe(0, 5) == [0, 0, 0, 0, 0];
    assert ToBe(0, 6) == [0, 0, 0, 0, 0, 0];
    assert ToBe(0, 7) == [0, 0, 0, 0, 0, 0, 0];
  }

  /** Decoding is total: an error code, or a count that stays inside the bytes given. */
  lemma {:induction false} DecodeTotal(d: seq<byte>)
    ensures var r := DecodeObject(d);
            if r.Ok? then 1 <= r.consumed <= |d| else -4 <= r.code <= -1
  {
    if d != [] && d[0] == OBJECT {
      PropsTotal(d[1..], map[], 1);
    }
  }

  lemma {:induction false} PropsTotal(d: seq<byte>, acc: map<seq<byte>, Value>, pos: nat)
    ensures var r := DecodeProps(d, acc, pos);
            if r.Ok? then pos <= r.consumed <= pos + |d| else -4 <= r.code <= -1
    decreases |d|
  {
    hide DecodeValue, DecodeProps, FromBe, AtObjectEnd;
    if d == [] {
      NothingLeft(acc, pos);
    } else if AtObjectEnd(d) {
      EndFound(d, acc, pos);
    } else {
      ObjectShort(d, acc, pos);
      if |d| >= 2 && |d| >= 2 + FromBe(d[..2]) {
        ObjectOnce(d, acc, pos);
        var n := FromBe(d[..2]);
        var rest := d[2 + n..];
        var v := DecodeValue(rest);
        if v.Ok? {
          PropsTotal(rest[v.consumed..], acc[d[2..2 + n] := v.value], pos + 2 + n + v.consumed);
        }
      }
    }
  }

  lemma NothingLeft(acc: map<seq<byte>, Value>, pos: nat)
    ensures DecodeProps([], acc, pos) == Ok(pos, Object(acc))
  {
  }

  lemma EndFound(d: seq<byte>, acc: map<seq<byte>, Value>, pos: nat)
    requires AtObjectEnd(d)
    ensures |d| >= 3 && DecodeProps(d, acc, pos) == Ok(pos + 3, Object(acc))
  {
  }

  // ------------------------------------------------------------------
  // Encodings that were cut off

  /** At byte `x` of an encoding that begins at `at`, the loop of some object that is not yet
      closed looks for its next property. */
  predicate LoopPoint(t: Tree, at: nat, x: nat)
    decreases t, 0
  {
    t.ObjectT? && (x == at + 1 || AfterProp(t.props, at + 1, x))
  }

  predicate AfterProp(ps: seq<Prop>, at: nat, x: nat)
    decreases ps, 1
  {
    ps != [] &&
    var value := at + 2 + |ps[0].key|;
    var end := value + Size(ps[0].value);
    LoopPoint(ps[0].value, value, x) || x == end || AfterProp(ps[1..], end, x)
  }

  lemma {:induction false} LoopPointInside(t: Tree, at: nat, x: nat)
    requires LoopPoint(t, at, x)
    ensures at + 1 <= x && x + 3 <= at + Size(t)
    decreases t, 0
  {
    if x != at + 1 {
      AfterPropInside(t.props, at + 1, x);
    }
  }

  lemma {:induction false} AfterPropInside(ps: seq<Prop>, at: nat, x: nat)
    requires AfterProp(ps, at, x)
    ensures at + 2 < x <= at + SizeOfProps(ps)
    decreases ps, 1
  {
    var value := at + 2 + |ps[0].key|;
    var end := value + Size(ps[0].value);
    SizePositive(ps[0].value);
    if LoopPoint(ps[0].value, value, x) {
      LoopPointInside(ps[0].value, value, x);
    } else if x != end {
      AfterPropInside(ps[1..], end, x);
    }
  }

  lemma SizePositive(t: Tree)
    ensures Size(t) >= 1
  {
  }

  lemma ScalarCut(t: Tree, n: nat)
    requires Fits(t) && !t.ObjectT? && n < Size(t)
    ensures n <= |Encoded(t)| && DecodeValue(Encoded(t)[..n]).Err?
  {
    hide ToBe, FromBe, DecodeProps, EncodedProps;
    var d := Encoded(t);
    if t.StrT? && n >= 3 {
      assert d[1..3] == ToBe(|t.s|, 2);
      assert d[..n][1..3] == d[1..3];
      Pow256Values();
      BeRoundTrip(|t.s|, 2);
    }
  }

  /** A first part of an encoding still decodes, and is consumed whole, exactly when it is all of
      it or ends where an object looks for its next property: the end markers may be missing. */
  lemma {:induction false} CutDecodesIff(t: Tree, at: nat, n: nat)
    requires Fits(t) && n <= Size(t)
    ensures n <= |Encoded(t)|
    ensures var r := DecodeValue(Encoded(t)[..n]);
            (r.Ok? <==> n == Size(t) || LoopPoint(t, at, at + n)) && (r.Ok? ==> r.consumed == n)
    decreases t, 0
  {
    hide FromBe, ToBe, DecodeProps, DecodeScalar, AfterProp, EncodedProps;
    SizeIsLength(t);
    if n == Size(t) {
      assert Encoded(t)[..n] == Encoded(t) + [];
      RoundTrip(t, []);
      if LoopPoint(t, at, at + n) {
        LoopPointInside(t, at, at + n);
      }
    } else if !t.ObjectT? {
      ScalarCut(t, n);
    } else if n == 0 {
      if LoopPoint(t, at, at) {
        LoopPointInside(t, at, at);
      }
    } else {
      SizeOfPropsIsLength(t.props);
      CutMarker(EncodedProps(t.props) + [0, 0, OBJECT_END], n);
      assert Encoded(t) == [OBJECT] + (EncodedProps(t.props) + [0, 0, OBJECT_END]);
      PropsCut(t.props, map[], 1, at + 1, n - 1);
    }
  }

  lemma CutMarker(s: seq<byte>, n: nat)
    requires 1 <= n <= |s| + 1
    ensures DecodeValue(([OBJECT] + s)[..n]) == DecodeProps(s[..n - 1], map[], 1)
  {
    hide DecodeProps;
    assert ([OBJECT] + s)[..n][1..] == s[..n - 1];
  }

  lemma {:induction false} PropsCut(ps: seq<Prop>, acc: map<seq<byte>, Value>, pos: nat, at: nat, m: nat)
    requires AllFit(ps) && m < SizeOfProps(ps) + 3
    ensures m <= |EncodedProps(ps)| + 3
    ensures var r := DecodeProps((EncodedProps(ps) + [0, 0, OBJECT_END])[..m], acc, pos);
            (r.Ok? <==> m == 0 || AfterProp(ps, at, at + m)) && (r.Ok? ==> r.consumed == pos + m)
    decreases ps, 1
  {
    hide Encoded, DecodeValue, DecodeProps, Fits, ToBe, FromBe, LoopPoint, Size, AfterProp, Meaning;
    SizeOfPropsIsLength(ps);
    var all := EncodedProps(ps) + [0, 0, OBJECT_END];
    if m == 0 {
      assert all[..0] == [];
      NothingLeft(acc, pos);
    } else if ps == [] {
      assert all == [0, 0, OBJECT_END];
      EndCut(acc, pos, m);
      NoPropAfter(at, at + m);
    } else {
      var p := ps[0];
      var e, tail := Encoded(p.value), EncodedProps(ps[1..]) + [0, 0, OBJECT_END];
      var value, x := at + 2 + |p.key|, at + m;
      SizeIsLength(p.value);
      EncodedStart(p.value);
      RegroupFour(ToBe(|p.key|, 2) + p.key, e, EncodedProps(ps[1..]), [0, 0, OBJECT_END]);
      KeyCut(p.key, e + tail, m, acc, pos);
      BeforeValue(ps, at, x);
      if x >= value {
        var j := x - value;
        if j < |e| {
          assert (e + tail)[..j] == e[..j];
          CutDecodesIff(p.value, value, j);
          assert e[..j][j..] == [];
          NothingLeft(acc[p.key := CutValue(e[..j])], pos + m);
        } else {
          var k := j - |e|;
          SizeOfPropsIsLength(ps[1..]);
          assert (e + tail)[..j] == e + tail[..k];
          RoundTrip(p.value, tail[..k]);
          assert (e + tail[..k])[|e|..] == tail[..k];
          PropsCut(ps[1..], acc[p.key := Meaning(p.value)], pos + 2 + |p.key| + |e|, value + |e|, k);
        }
      }
    }
  }

  lemma NoPropAfter(at: nat, x: nat)
    ensures !AfterProp([], at, x)
  {
  }

  lemma RegroupFour<T>(a: seq<T>, b: seq<T>, c: seq<T>, d: seq<T>)
    ensures a + b + c + d == a + (b + (c + d))
  {
  }

  function CutValue(d: seq<byte>): Value {
    var r := DecodeValue(d);
    if r.Ok? then r.value else Null
  }

  /** An end marker that was cut off is an error, except when nothing of it is there. */
  lemma EndCut(acc: map<seq<byte>, Value>, pos: nat, m: nat)
    requires m < 3
    ensures var r := DecodeProps([0, 0, OBJECT_END][..m], acc, pos);
            (r.Ok? <==> m == 0) && (r.Ok? ==> r.consumed == pos)
  {
    var d := [0, 0, OBJECT_END][..m];
    if m == 2 {
      assert d == [0, 0] && d[..2] == d;
      FromBeTwo(0, 0);
      assert d[2..] == [];
    }
  }

  /** Where a point lies with respect to the value of the first property. */
  lemma BeforeValue(ps: seq<Prop>, at: nat, x: nat)
    requires ps != [] && at <= x
    ensures var value := at + 2 + |ps[0].key|;
            var end := value + Size(ps[0].value);
            && (x < value ==> !AfterProp(ps, at, x))
            && (value <= x < end ==> (AfterProp(ps, at, x) <==> LoopPoint(ps[0].value, value, x)))
            && (end <= x ==> (AfterProp(ps, at, x) <==> x == end || AfterProp(ps[1..], end, x)))
  {
    hide LoopPoint, Size;
    var value := at + 2 + |ps[0].key|;
    var end := value + Size(ps[0].value);
    if LoopPoint(ps[0].value, value, x) {
      LoopPointInside(ps[0].value, value, x);
    }
    if AfterProp(ps[1..], end, x) {
      AfterPropInside(ps[1..], end, x);
    }
  }

  /** A property that was cut off: in front of its value this is an error, and otherwise the
      value, as far as it is there, decides. */
  lemma KeyCut(key: seq<byte>, rest: seq<byte>, m: nat, acc: map<seq<byte>, Value>, pos: nat)
    requires |key| < 0x1_0000 && rest != [] && rest[0] != OBJECT_END
    requires 0 < m <= 2 + |key| + |rest|
    ensures var r := DecodeProps((ToBe(|key|, 2) + key + rest)[..m], acc, pos);
            if m < 2 then r == Err(-3)
            else if m < 2 + |key| then r == Err(-4)
            else
              var left := rest[..m - 2 - |key|];
              var v := DecodeValue(left);
              r == if v.Err? then Err(-1)
                   else DecodeProps(left[v.consumed..], acc[key := v.value], pos + 2 + |key| + v.consumed)
  {
    hide DecodeValue, DecodeProps, ToBe, FromBe;
    var all := ToBe(|key|, 2) + key + rest;
    var d := all[..m];
    KeyRead(key, rest);
    assert !AtObjectEnd(d) by {
      if m >= 3 {
        assert d[0] == all[0] && d[1] == all[1] && d[2] == all[2];
      }
    }
    hide AtObjectEnd;
    ObjectShort(d, acc, pos);
    if m >= 2 {
      assert d[..2] == all[..2];
      if m >= 2 + |key| {
        assert d[2..2 + |key|] == all[2..2 + |key|];
        assert d[2 + |key|..] == rest[..m - 2 - |key|];
        ObjectOnce(d, acc, pos);
      }
    }
  }

  /** A witness: the marker of an object alone is an empty object. */
  lemma MarkerAlone()
    ensures DecodeValue([OBJECT]) == Ok(1, Object(map[]))
  {
    assert [OBJECT][1..] == [];
    NothingLeft(map[], 1);
  }

  // ------------------------------------------------------------------
  // The order of the properties does not matter

  ghost predicate IsLast(ps: seq<Prop>, k: seq<byte>, i: nat) {
    i < |ps| && ps[i].key == k && forall j :: i < j < |ps| ==> ps[j].key != k
  }

  ghost predicate Names(ps: seq<Prop>, k: seq<byte>) {
    exists i :: 0 <= i < |ps| && ps[i].key == k
  }

  ghost predicate DistinctKeys(ps: seq<Prop>) {
    forall i, j :: 0 <= i < j < |ps| ==> ps[i].key != ps[j].key
  }

  /** A key has the value of its last occurrence. */
  lemma {:induction false} LastWins(ps: seq<Prop>, acc: map<seq<byte>, Value>, k: seq<byte>, i: nat)
    requires IsLast(ps, k, i)
    ensures k in Properties(ps, acc) && Properties(ps, acc)[k] == Meaning(ps[i].value)
    decreases |ps|
  {
    hide Meaning;
    var next := acc[ps[0].key := Meaning(ps[0].value)];
    if i == 0 {
      OthersKept(ps[1..], next, k);
    } else {
      LastWins(ps[1..], next, k, i - 1);
    }
  }

  /** A key that is not named is left as it was. */
  lemma {:induction false} OthersKept(ps: seq<Prop>, acc: map<seq<byte>, Value>, k: seq<byte>)
    requires !Names(ps, k)
    ensures k in Properties(ps, acc) <==> k in acc
    ensures k in acc ==> Properties(ps, acc)[k] == acc[k]
    decreases |ps|
  {
    hide Meaning;
    if ps != [] {
      assert ps[0].key != k;
      assert forall i :: 0 <= i < |ps| - 1 ==> ps[1..][i] == ps[i + 1];
      OthersKept(ps[1..], acc[ps[0].key := Meaning(ps[0].value)], k);
    }
  }

  /** Two enumerations of the same properties mean the same object. */
  lemma OrderIrrelevant(ps: seq<Prop>, qs: seq<Prop>)
    requires DistinctKeys(ps) && DistinctKeys(qs)
    requires multiset(ps) == multiset(qs)
    ensures Meaning(ObjectT(ps)) == Meaning(ObjectT(qs))
  {
    var a := Properties(ps, map[]);
    var b := Properties(qs, map[]);
    forall k ensures (k in a <==> k in b) && (k in a ==> a[k] == b[k]) {
      SameAt(ps, qs, k);
    }
    assert a == b;
  }

  lemma SameAt(ps: seq<Prop>, qs: seq<Prop>, k: seq<byte>)
    requires DistinctKeys(ps) && DistinctKeys(qs)
    requires multiset(ps) == multiset(qs)
    ensures k in Properties(ps, map[]) <==> k in Properties(qs, map[])
    ensures k in Properties(ps, map[]) ==> Properties(ps, map[])[k] == Properties(qs, map[])[k]
  {
    hide Meaning, Properties;
    if Names(ps, k) {
      var i :| 0 <= i < |ps| && ps[i].key == k;
      assert ps[i] in multiset(ps);
      assert ps[i] in multiset(qs);
      var j :| 0 <= j < |qs| && qs[j] == ps[i];
      LastWins(ps, map[], k, i);
      LastWins(qs, map[], k, j);
    } else {
      forall j | 0 <= j < |qs| ensures qs[j].key != k {
        assert qs[j] in multiset(qs);
        assert qs[j] in multiset(ps);
      }
      OthersKept(ps, map[], k);
      OthersKept(qs, map[], k);
    }
  }

  /** Two trees that differ only in the order of properties, at any depth. */
  ghost predicate Reordered(t: Tree, u: Tree)
    decreases t
  {
    if t.ObjectT? && u.ObjectT? then
      var ps, qs := t.props, u.props;
      && DistinctKeys(ps) && DistinctKeys(qs)
      && (forall k :: Names(ps, k) <==> Names(qs, k))
      && (forall i, j :: 0 <= i < |ps| && 0 <= j < |qs| && ps[i].key == qs[j].key ==>
            Reordered(ps[i].value, qs[j].value))
    else t == u
  }

  /** They mean the same value. */
  lemma {:induction false} ReorderedMeansSame(t: Tree, u: Tree)
    requires Reordered(t, u)
    ensures Meaning(t) == Meaning(u)
    decreases t
  {
    if t.ObjectT? && u.ObjectT? {
      var a, b := Properties(t.props, map[]), Properties(u.props, map[]);
      forall k ensures (k in a <==> k in b) && (k in a ==> a[k] == b[k]) {
        ReorderedAt(t, u, k);
      }
      assert a == b;
    }
  }

  lemma {:induction false} ReorderedAt(t: Tree, u: Tree, k: seq<byte>)
    requires t.ObjectT? && u.ObjectT? && Reordered(t, u)
    ensures var a, b := Properties(t.props, map[]), Properties(u.props, map[]);
            (k in a <==> k in b) && (k in a ==> a[k] == b[k])
    decreases t, 0
  {
    hide Meaning, Properties;
    var ps, qs := t.props, u.props;
    if Names(ps, k) {
      var i :| 0 <= i < |ps| && ps[i].key == k;
      var j :| 0 <= j < |qs| && qs[j].key == k;
      LastWins(ps, map[], k, i);
      LastWins(qs, map[], k, j);
      ReorderedMeansSame(ps[i].value, qs[j].value);
    } else {
      OthersKept(ps, map[], k);
      OthersKept(qs, map[], k);
    }
  }

  /** Encode with one order at every level, encode with another: the decoder cannot tell them
      apart. */
  lemma AnyOrderSameValue(t: Tree, u: Tree, trail: seq<byte>)
    requires Fits(t) && Fits(u) && Reordered(t, u)
    ensures DecodeValue(Encoded(t) + trail).Ok? && DecodeValue(Encoded(u) + trail).Ok?
    ensures DecodeValue(Encoded(t) + trail).value == DecodeValue(Encoded(u) + trail).value
  {
    hide Encoded, DecodeValue, Meaning, Reordered, Fits;
    RoundTrip(t, trail);
    RoundTrip(u, trail);
    ReorderedMeansSame(t, u);
  }

  // ------------------------------------------------------------------
  // Encoding into a buffer with `room` bytes. The key of a property is copied without
  // asking whether it fits.

  datatype Written = Wrote(bytes: seq<byte>) | Failed(code: int) | Overrun

  function EncodeInto(t: Tree, room: nat): (w: Written)
    ensures w.Wrote? ==> |w.bytes| <= room
    decreases t, 0
  {
    if room < 1 then Failed(-1)
    else
      match t
      case NumberT(n) => if room < 9 then Failed(-2) else Wrote([NUMBER] + ToBe(n, 8))
      case BooleanT(b) => if room < 2 then Failed(-2) else Wrote([BOOLEAN, if b then 1 else 0])
      case StrT(s) =>
        if room < 3 then Failed(-2)
        else if room - 3 < |s| then Failed(-3)
        else Wrote([STRING] + ToBe(|s|, 2) + s)
      case ObjectT(ps) => PropsInto(ps, [OBJECT], room - 1)
      case NullT => Wrote([NULL])
      case UndefinedT => Wrote([UNDEFINED])
  }

  /** The property loop: `out` has been written and `room` bytes are left. */
  function PropsInto(ps: seq<Prop>, out: seq<byte>, room: nat): (w: Written)
    ensures w.Wrote? ==> |w.bytes| <= |out| + room
    decreases ps, 1
  {
    if ps == [] then if room < 3 then Failed(-4) else Wrote(out + [0, 0, OBJECT_END])
    else if room < 2 then Failed(-3)
    else if room - 2 < |ps[0].key| then Overrun
    else
      var left := room - 2 - |ps[0].key|;
      var w := EncodeInto(ps[0].value, left);
      if w.Failed? then Failed(-3)
      else if w.Overrun? then Overrun
      else PropsInto(ps[1..], out + ToBe(|ps[0].key|, 2) + ps[0].key + w.bytes, left - |w.bytes|)
  }

  /** `encode` succeeds exactly when the buffer has `size()` bytes, and then it fills
      exactly those. */
  lemma {:induction false} EncodeExact(t: Tree, room: nat)
    ensures EncodeInto(t, room) == Wrote(Encoded(t)) <==> Size(t) <= room
    ensures Size(t) > room ==> !EncodeInto(t, room).Wrote?
    decreases t, 0
  {
    hide ToBe;
    SizeIsLength(t);
    if t.ObjectT? && room >= 1 {
      PropsExact(t.props, [OBJECT], room - 1);
    }
  }

  lemma {:induction false} PropsExact(ps: seq<Prop>, out: seq<byte>, room: nat)
    ensures if SizeOfProps(ps) + 3 <= room
            then PropsInto(ps, out, room) == Wrote(out + EncodedProps(ps) + [0, 0, OBJECT_END])
            else !PropsInto(ps, out, room).Wrote?
    decreases ps, 1
  {
    hide ToBe, Encoded, EncodeInto, Size;
    if ps == [] {
      assert out + EncodedProps(ps) == out;
    } else if room >= 2 && room - 2 >= |ps[0].key| {
      var p := ps[0];
      var e := Encoded(p.value);
      var left := room - 2 - |p.key|;
      EncodeExact(p.value, left);
      SizeIsLength(p.value);
      if |e| <= left {
        PropsExact(ps[1..], out + ToBe(|p.key|, 2) + p.key + e, left - |e|);
        assert out + EncodedProps(ps)
            == out + ToBe(|p.key|, 2) + p.key + e + EncodedProps(ps[1..]);
      }
    }
  }

  /** Byte `x` of an encoding that begins at `at` belongs to the text of a key, at any depth. */
  predicate InKey(t: Tree, at: nat, x: nat)
    decreases t, 0
  {
    t.ObjectT? && InKeys(t.props, at + 1, x)
  }

  predicate InKeys(ps: seq<Prop>, at: nat, x: nat)
    decreases ps, 1
  {
    ps != [] &&
    var value := at + 2 + |ps[0].key|;
    || at + 2 <= x < value
    || InKey(ps[0].value, value, x)
    || InKeys(ps[1..], value + Size(ps[0].value), x)
  }

  lemma {:induction false} KeysInside(t: Tree, at: nat, x: nat)
    requires InKey(t, at, x)
    ensures at + 3 <= x < at + Size(t)
    decreases t, 0
  {
    KeysInsideProps(t.props, at + 1, x);
  }

  lemma {:induction false} KeysInsideProps(ps: seq<Prop>, at: nat, x: nat)
    requires InKeys(ps, at, x)
    ensures at + 2 <= x < at + SizeOfProps(ps)
    decreases ps, 1
  {
    var value := at + 2 + |ps[0].key|;
    if InKey(ps[0].value, value, x) {
      KeysInside(ps[0].value, value, x);
    } else if InKeys(ps[1..], value + Size(ps[0].value), x) {
      KeysInsideProps(ps[1..], value + Size(ps[0].value), x);
    }
  }

  /** A buffer that is too short is overrun exactly when it ends inside the text of a key. */
  lemma {:induction false} OverrunIff(t: Tree, at: nat, room: nat)
    ensures EncodeInto(t, room).Overrun? <==> InKey(t, at, at + room)
    decreases t, 0
  {
    hide ToBe;
    if t.ObjectT? {
      if room >= 1 {
        OverrunPropsIff(t.props, [OBJECT], at + 1, room - 1);
      } else if InKey(t, at, at + room) {
        KeysInside(t, at, at + room);
      }
    }
  }

  lemma {:induction false} OverrunPropsIff(ps: seq<Prop>, out: seq<byte>, at: nat, room: nat)
    ensures PropsInto(ps, out, room).Overrun? <==> InKeys(ps, at, at + room)
    decreases ps, 1
  {
    hide ToBe, EncodeInto, Encoded, Size, InKey;
    if ps != [] {
      var p, x := ps[0], at + room;
      var value := at + 2 + |p.key|;
      if x < value {
        if InKey(p.value, value, x) {
          KeysInside(p.value, value, x);
        }
        if InKeys(ps[1..], value + Size(p.value), x) {
          KeysInsideProps(ps[1..], value + Size(p.value), x);
        }
      } else {
        var left := x - value;
        OverrunIff(p.value, value, left);
        EncodeExact(p.value, left);
        SizeIsLength(p.value);
        var e := Encoded(p.value);
        if |e| <= left {
          OverrunPropsIff(ps[1..], out + ToBe(|p.key|, 2) + p.key + e, value + |e|, left - |e|);
        } else if InKeys(ps[1..], value + Size(p.value), x) {
          KeysInsideProps(ps[1..], value + Size(p.value), x);
        }
      }
    }
  }

  /** A witness: four bytes for an object with one key of three. */
  lemma ShortBufferOverrun()
    ensures EncodeInto(ObjectT([Prop([1, 2, 3], NullT)]), 4).Overrun?
  {
    var p := Prop([1, 2, 3], NullT);
    assert InKeys([p], 1, 4);
    OverrunIff(ObjectT([p]), 0, 4);
  }

  // ------------------------------------------------------------------
  // ECMA arrays: a count, that many scalar properties, the end marker

  predicate ScalarMarker(b: byte) {
    b == NUMBER || b == BOOLEAN || b == STRING || b == NULL || b == UNDEFINED
  }

  /** The count field is read as a 32-bit two's complement number. */
  function DecodeEcma(d: seq<byte>): (r: Result)
    ensures r.Ok? ==> 8 <= r.consumed <= |d|
  {
    if |d| < 1 then Err(-1)
    else if d[0] != ECMA_ARRAY then Err(-2)
    else if |d| < 5 then Err(-3)
    else EcmaLoop(d[5..], I32(FromBe(d[1..5])), map[], 5)
  }

  function EcmaLoop(d: seq<byte>, count: int, acc: map<seq<byte>, Value>, pos: nat): (r: Result)
    ensures r.Ok? ==> pos + 3 <= r.consumed <= pos + |d|
    decreases |d|
  {
    if count <= 0 then if AtObjectEnd(d) then Ok(pos + 3, Object(acc)) else Err(-8)
    else if |d| < 2 then Err(-4)
    else
      var n := FromBe(d[..2]);
      if |d| < 2 + n then Err(-5)
      else
        var rest := d[2 + n..];
        if rest == [] then Err(-6)
        else if !ScalarMarker(rest[0]) then Err(-7)
        else
          var v := DecodeScalar(rest);
          if v.Err? then Err(-8)
          else EcmaLoop(rest[v.consumed..], count - 1, acc[d[2..2 + n] := v.value], pos + 2 + n + v.consumed)
  }

  predicate AllScalar(ps: seq<Prop>) {
    forall i :: 0 <= i < |ps| ==> !ps[i].value.ObjectT?
  }

  function EcmaEncoded(ps: seq<Prop>): seq<byte> {
    [ECMA_ARRAY] + ToBe(|ps|, 4) + EncodedProps(ps) + [0, 0, OBJECT_END]
  }

  /** Every well-formed array, with any keys repeated, decodes to its last values. */
  lemma EcmaRoundTrip(ps: seq<Prop>, trail: seq<byte>)
    requires AllFit(ps) && AllScalar(ps) && |ps| < 0x8000_0000
    ensures DecodeEcma(EcmaEncoded(ps) + trail) == Ok(|EcmaEncoded(ps)|, Object(Properties(ps, map[])))
  {
    hide EncodedProps, EcmaLoop, Properties, ToBe, FromBe;
    var d := EcmaEncoded(ps) + trail;
    assert d[1..5] == ToBe(|ps|, 4);
    Pow256Values();
    BeRoundTrip(|ps|, 4);
    assert d[5..] == EncodedProps(ps) + [0, 0, OBJECT_END] + trail;
    EcmaLoopRoundTrip(ps, map[], 5, trail);
  }

  lemma {:induction false} EcmaLoopRoundTrip(ps: seq<Prop>, acc: map<seq<byte>, Value>, pos: nat, trail: seq<byte>)
    requires AllFit(ps) && AllScalar(ps)
    ensures EcmaLoop(EncodedProps(ps) + [0, 0, OBJECT_END] + trail, |ps|, acc, pos)
            == Ok(pos + |EncodedProps(ps)| + 3, Object(Properties(ps, acc)))
    decreases |ps|
  {
    hide Encoded, Meaning, DecodeScalar, EcmaLoop, Fits, ToBe, FromBe;
    if ps == [] {
      assert EncodedProps(ps) + [0, 0, OBJECT_END] + trail == [0, 0, OBJECT_END] + trail;
      EcmaEnd(trail, acc, pos);
    } else {
      var p := ps[0];
      var e := Encoded(p.value);
      var tail := EncodedProps(ps[1..]) + [0, 0, OBJECT_END] + trail;
      Regroup(ToBe(|p.key|, 2) + p.key, e, EncodedProps(ps[1..]), [0, 0, OBJECT_END], trail);
      ScalarStart(p.value, tail);
      EcmaRead(p.key, e, tail, |ps|, Meaning(p.value), acc, pos);
      EcmaLoopRoundTrip(ps[1..], acc[p.key := Meaning(p.value)], pos + 2 + |p.key| + |e|, trail);
    }
  }

  lemma EcmaEnd(trail: seq<byte>, acc: map<seq<byte>, Value>, pos: nat)
    ensures EcmaLoop([0, 0, OBJECT_END] + trail, 0, acc, pos) == Ok(pos + 3, Object(acc))
  {
    assert AtObjectEnd([0, 0, OBJECT_END] + trail);
  }

  lemma ScalarStart(t: Tree, tail: seq<byte>)
    requires Fits(t) && !t.ObjectT?
    ensures DecodeScalar(Encoded(t) + tail) == Ok(|Encoded(t)|, Meaning(t))
    ensures |Encoded(t)| >= 1 && ScalarMarker(Encoded(t)[0])
  {
    ScalarRoundTrip(t, tail);
    assert (Encoded(t) + tail)[0] == Encoded(t)[0];
  }

  lemma EcmaRead(key: seq<byte>, e: seq<byte>, tail: seq<byte>, count: nat, v: Value,
                 acc: map<seq<byte>, Value>, pos: nat)
    requires |key| < 0x1_0000 && count > 0
    requires |e| >= 1 && ScalarMarker(e[0])
    requires DecodeScalar(e + tail) == Ok(|e|, v)
    ensures EcmaLoop(ToBe(|key|, 2) + key + (e + tail), count, acc, pos)
            == EcmaLoop(tail, count - 1, acc[key := v], pos + 2 + |key| + |e|)
  {
    hide DecodeScalar, FromBe, ToBe;
    KeyRead(key, e + tail);
    assert (e + tail)[0] == e[0];
    assert (e + tail)[|e|..] == tail;
  }

  // ------------------------------------------------------------------
  // The loops of the program

  /** `size()`. */
  method SizeOf(t: Tree) returns (n: nat)
    ensures n == |Encoded(t)|
  {
    SizeIsLength(t);
    match t
    case NumberT(_) => n := 9;
    case BooleanT(_) => n := 2;
    case StrT(s) => n := 1 + 2 + |s|;
    case NullT => n := 1;
    case UndefinedT => n := 1;
    case ObjectT(ps) =>
      n := 1;
      var i := 0;
      while i < |ps|
        invariant 0 <= i <= |ps|
        invariant n + SizeOfProps(ps[i..]) == 1 + SizeOfProps(ps)
      {
        var one := SizeOf(ps[i].value);
        SizeIsLength(ps[i].value);
        assert ps[i..][0] == ps[i] && ps[i..][1..] == ps[i + 1..];
        n := n + 2 + |ps[i].key| + one;
        i := i + 1;
      }
      n := n + 3;
  }

  /** `encode`: what is written when the buffer has `room` bytes. */
  method Encode(t: Tree, room: nat) returns (w: Written)
    ensures w == EncodeInto(t, room)
    ensures w == Wrote(Encoded(t)) <==> |Encoded(t)| <= room
    ensures w.Overrun? <==> InKey(t, 0, room)
  {
    EncodeExact(t, room);
    OverrunIff(t, 0, room);
    SizeIsLength(t);
    if !t.ObjectT? || room < 1 {
      return EncodeInto(t, room);
    }
    assert EncodeInto(t, room) == PropsInto(t.props, [OBJECT], room - 1);
    hide ToBe, EncodeInto, Encoded, Size;
    var ps, out, left: nat, i := t.props, [OBJECT], room - 1, 0;
    while i < |ps|
      invariant 0 <= i <= |ps|
      invariant PropsInto(ps[i..], out, left) == EncodeInto(t, room)
    {
      var p := ps[i];
      assert ps[i..][0] == p && ps[i..][1..] == ps[i + 1..];
      if left < 2 {
        return Failed(-3);
      }
      if left - 2 < |p.key| {
        return Overrun;
      }
      left := left - 2 - |p.key|;
      var one := Encode(p.value, left);
      if one.Failed? {
        return Failed(-3);
      }
      if one.Overrun? {
        return Overrun;
      }
      out := out + ToBe(|p.key|, 2) + p.key + one.bytes;
      left := left - |one.bytes|;
      i := i + 1;
    }
    assert ps[i..] == [];
    if left < 3 {
      return Failed(-4);
    }
    return Wrote(out + [0, 0, OBJECT_END]);
  }

  lemma TakeAt<T>(s: seq<T>, pos: nat, n: nat)
    requires pos + n <= |s|
    ensures s[pos..][..n] == s[pos..pos + n]
  {
  }

  lemma DropAt<T>(s: seq<T>, pos: nat, n: nat)
    requires pos + n <= |s|
    ensures s[pos..][n..] == s[pos + n..]
  {
  }

  lemma SliceAt<T>(s: seq<T>, pos: nat, i: nat, j: nat)
    requires i <= j && pos + j <= |s|
    ensures s[pos..][i..j] == s[pos + i..pos + j] && s[pos..][j..] == s[pos + j..]
  {
  }

  /** One round of a property loop: the loop ends, or a property has been read. */
  datatype Round = Stop(result: Result) | Read(key: seq<byte>, value: Value, end: nat)

  function ObjectRound(data: seq<byte>, pos: nat): (s: Round)
    requires pos < |data|
    ensures s.Read? ==> pos < s.end <= |data|
  {
    if |data| - pos < 2 then Stop(Err(-3))
    else
      var start := pos + 2 + FromBe(data[pos..pos + 2]);
      if |data| < start then Stop(Err(-4))
      else
        var v := DecodeValue(data[start..]);
        if v.Err? then Stop(Err(-1)) else Read(data[pos + 2..start], v.value, start + v.consumed)
  }

  lemma ObjectOnce(d: seq<byte>, acc: map<seq<byte>, Value>, pos: nat)
    requires |d| >= 2 && |d| >= 2 + FromBe(d[..2]) && !AtObjectEnd(d)
    ensures var n := FromBe(d[..2]);
            var v := DecodeValue(d[2 + n..]);
            DecodeProps(d, acc, pos)
            == if v.Err? then Err(-1)
               else DecodeProps(d[2 + n..][v.consumed..], acc[d[2..2 + n] := v.value], pos + 2 + n + v.consumed)
  {
    hide FromBe, DecodeValue, AtObjectEnd;
  }

  lemma ObjectShort(d: seq<byte>, acc: map<seq<byte>, Value>, pos: nat)
    requires d != [] && !AtObjectEnd(d)
    ensures |d| < 2 ==> DecodeProps(d, acc, pos) == Err(-3)
    ensures 2 <= |d| < 2 + FromBe(d[..2]) ==> DecodeProps(d, acc, pos) == Err(-4)
  {
    hide FromBe, DecodeValue, AtObjectEnd;
  }

  lemma ObjectRounds(data: seq<byte>, pos: nat, acc: map<seq<byte>, Value>)
    requires pos < |data| && !AtObjectEnd(data[pos..])
    ensures var s := ObjectRound(data, pos);
            DecodeProps(data[pos..], acc, pos)
            == if s.Stop? then s.result else DecodeProps(data[s.end..], acc[s.key := s.value], s.end)
  {
    hide FromBe, DecodeValue, AtObjectEnd, DecodeProps;
    ObjectShort(data[pos..], acc, pos);
    if |data| - pos >= 2 {
      TakeAt(data, pos, 2);
      var n := FromBe(data[pos..pos + 2]);
      if |data| - pos >= 2 + n {
        ObjectOnce(data[pos..], acc, pos);
        SliceAt(data, pos, 2, 2 + n);
        var v := DecodeValue(data[pos + 2 + n..]);
        if v.Ok? {
          DropAt(data, pos + 2 + n, v.consumed);
        }
      }
    }
  }

  method ReadProperty(data: seq<byte>, pos: nat) returns (s: Round)
    requires pos < |data|
    ensures s == ObjectRound(data, pos)
    decreases |data| - pos, 2
  {
    hide FromBe, DecodeValue;
    if |data| - pos < 2 {
      return Stop(Err(-3));
    }
    var start := pos + 2 + FromBe(data[pos..pos + 2]);
    if |data| < start {
      return Stop(Err(-4));
    }
    var v := DecodeOne(data[start..]);
    if v.Err? {
      return Stop(Err(-1));
    }
    return Read(data[pos + 2..start], v.value, start + v.consumed);
  }

  /** `decode` of an object: the loop over its properties. */
  method Decode(data: seq<byte>) returns (r: Result)
    ensures r == DecodeObject(data)
    decreases |data|, 0
  {
    if |data| < 1 {
      return Err(-1);
    }
    if data[0] != OBJECT {
      return Err(-2);
    }
    assert DecodeObject(data) == DecodeProps(data[1..], map[], 1);
    hide ObjectRound, DecodeObject;
    var pos := 1;
    var properties := map[];
    while pos < |data|
      invariant 1 <= pos <= |data|
      invariant DecodeProps(data[pos..], properties, pos) == DecodeObject(data)
    {
      if AtObjectEnd(data[pos..]) {
        return Ok(pos + 3, Object(properties));
      }
      var s := ReadProperty(data, pos);
      ObjectRounds(data, pos, properties);
      if s.Stop? {
        return s.result;
      }
      properties := properties[s.key := s.value];
      pos := s.end;
    }
    return Ok(pos, Object(properties));
  }

  /** The value of a property, chosen by its marker. */
  method DecodeOne(data: seq<byte>) returns (r: Result)
    ensures r == DecodeValue(data)
    decreases |data|, 1
  {
    if data != [] && data[0] == OBJECT {
      r := Decode(data);
    } else {
      r := DecodeScalar(data);
    }
  }

  function ArrayRound(data: seq<byte>, pos: nat): (s: Round)
    requires pos <= |data|
    ensures s.Read? ==> pos < s.end <= |data|
  {
    if |data| - pos < 2 then Stop(Err(-4))
    else
      var start := pos + 2 + FromBe(data[pos..pos + 2]);
      if |data| < start then Stop(Err(-5))
      else if |data| == start then Stop(Err(-6))
      else if !ScalarMarker(data[start]) then Stop(Err(-7))
      else
        var v := DecodeScalar(data[start..]);
        if v.Err? then Stop(Err(-8)) else Read(data[pos + 2..start], v.value, start + v.consumed)
  }

  lemma ArrayOnce(d: seq<byte>, count: int, acc: map<seq<byte>, Value>, pos: nat)
    requires |d| >= 2 && |d| > 2 + FromBe(d[..2]) && count > 0
    ensures var n := FromBe(d[..2]);
            var v := DecodeScalar(d[2 + n..]);
            EcmaLoop(d, count, acc, pos)
            == if !ScalarMarker(d[2 + n..][0]) then Err(-7)
               else if v.Err? then Err(-8)
               else EcmaLoop(d[2 + n..][v.consumed..], count - 1, acc[d[2..2 + n] := v.value], pos + 2 + n + v.consumed)
  {
    hide FromBe, DecodeScalar, ScalarMarker;
  }

  lemma ArrayShort(d: seq<byte>, count: int, acc: map<seq<byte>, Value>, pos: nat)
    requires count > 0
    ensures |d| < 2 ==> EcmaLoop(d, count, acc, pos) == Err(-4)
    ensures 2 <= |d| < 2 + FromBe(d[..2]) ==> EcmaLoop(d, count, acc, pos) == Err(-5)
    ensures 2 <= |d| == 2 + FromBe(d[..2]) ==> EcmaLoop(d, count, acc, pos) == Err(-6)
  {
    hide FromBe, DecodeScalar, ScalarMarker;
  }

  lemma ArrayRounds(data: seq<byte>, pos: nat, count: int, acc: map<seq<byte>, Value>)
    requires pos <= |data| && count > 0
    ensures var s := ArrayRound(data, pos);
            EcmaLoop(data[pos..], count, acc, pos)
            == if s.Stop? then s.result else EcmaLoop(data[s.end..], count - 1, acc[s.key := s.value], s.end)
  {
    hide FromBe, DecodeScalar, ScalarMarker, EcmaLoop;
    ArrayShort(data[pos..], count, acc, pos);
    if |data| - pos >= 2 {
      TakeAt(data, pos, 2);
      var start := pos + 2 + FromBe(data[pos..pos + 2]);
      if |data| > start {
        ArrayOnce(data[pos..], count, acc, pos);
        SliceAt(data, pos, 2, start - pos);
        var v := DecodeScalar(data[start..]);
        if v.Ok? {
          DropAt(data, start, v.consumed);
        }
      }
    }
  }

  lemma ArrayEnd(d: seq<byte>, count: int, acc: map<seq<byte>, Value>, pos: nat)
    requires count <= 0
    ensures EcmaLoop(d, count, acc, pos) == if AtObjectEnd(d) then Ok(pos + 3, Object(acc)) else Err(-8)
  {
  }

  /** `decode` of an ECMA array: the loop counts down from the count field. */
  method DecodeArray(data: seq<byte>) returns (r: Result)
    ensures r == DecodeEcma(data)
  {
    if |data| < 1 {
      return Err(-1);
    }
    if data[0] != ECMA_ARRAY {
      return Err(-2);
    }
    if |data| < 5 {
      return Err(-3);
    }
    r := ReadElements(data, I32(FromBe(data[1..5])));
  }

  method ReadElements(data: seq<byte>, n: int) returns (r: Result)
    requires |data| >= 5
    ensures r == EcmaLoop(data[5..], n, map[], 5)
  {
    hide ArrayRound, EcmaLoop, AtObjectEnd;
    var count := n;
    var pos := 5;
    var properties := map[];
    while count > 0
      invariant 5 <= pos <= |data|
      invariant EcmaLoop(data[pos..], count, properties, pos) == EcmaLoop(data[5..], n, map[], 5)
    {
      var s := ArrayRound(data, pos);
      ArrayRounds(data, pos, count, properties);
      if s.Stop? {
        return s.result;
      }
      properties := properties[s.key := s.value];
      pos := s.end;
      count := count - 1;
    }
    ArrayEnd(data[pos..], count, properties, pos);
    if !AtObjectEnd(data[pos..]) {
      return Err(-8);
    }
    return Ok(pos + 3, Object(properties));
  }
}
