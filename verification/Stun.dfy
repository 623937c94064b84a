/** STUN messages: attributes, MESSAGE-INTEGRITY and FINGERPRINT. */
module Stun {
  import opened Bytes
  import Crc32

  const MAGIC_COOKIE := 0x2112_A442
  const COLON: byte := 58

  datatype Attr =
    | MappedAddress(family: byte, port: nat, address: nat)
    | NetworkInfo(id: nat, cost: nat)
    | Priority(value: nat)
    | UseCandidate
    | Controlled(tieBreaker: nat)
    | Controlling(tieBreaker: nat)

  datatype User = User(local: seq<byte>, remote: seq<byte>)

  // ------------------------------------------------------------------
  // User names

  /** Padded to a multiple of four. */
  function Pad4(n: nat): (p: nat)
    ensures p % 4 == 0 && n <= p < n + 4
  {
    (n + 3) / 4 * 4
  }

  function UserText(u: User): seq<byte> {
    if u.remote == [] then u.local else u.local + [COLON] + u.remote
  }

  /** Where the first colon is, or the length. */
  function FindColon(s: seq<byte>): (k: nat)
    ensures k <= |s| && COLON !in s[..k]
    ensures k < |s| ==> s[k] == COLON
  {
    if s == [] || s[0] == COLON then 0
    else
      var k := 1 + FindColon(s[1..]);
      assert s[..k] == [s[0]] + s[1..][..k - 1];
      k
  }

  /** The non-empty stretches between colons. */
  function Fields(s: seq<byte>): seq<seq<byte>> {
    if s == [] then []
    else
      var k := FindColon(s);
      (if k > 0 then [s[..k]] else []) + (if k == |s| then [] else Fields(s[k + 1..]))
  }

  /** The fields from `first` on: one up to the next colon, unless it is empty, and the rest. */
  lemma FieldsFrom(s: seq<byte>, first: nat)
    requires first < |s|
    ensures var second := first + FindColon(s[first..]);
            Fields(s[first..]) == (if first != second then [s[first..second]] else [])
                                  + (if second == |s| then [] else Fields(s[second + 1..]))
  {
    hide FindColon;
    var second := first + FindColon(s[first..]);
    assert s[first..][..second - first] == s[first..second];
    if second < |s| {
      assert s[first..][second - first + 1..] == s[second + 1..];
    }
  }

  lemma Join<T>(a: seq<T>, b: seq<T>, c: seq<T>)
    ensures a + (b + c) == a + b + c && a + [] == a
  {
  }

  /** `split`. */
  method Split(s: seq<byte>) returns (out: seq<seq<byte>>)
    ensures out == Fields(s)
  {
    hide FindColon, Fields;
    out := [];
    var first := 0;
    assert s[0..] == s && [] + Fields(s) == Fields(s);
    while first < |s|
      invariant 0 <= first <= |s|
      invariant out + Fields(s[first..]) == Fields(s)
    {
      var second := first + FindColon(s[first..]);
      FieldsFrom(s, first);
      Join(out, if first != second then [s[first..second]] else [],
           if second == |s| then [] else Fields(s[second + 1..]));
      if first != second {
        out := out + [s[first..second]];
      }
      if second == |s| {
        return;
      }
      first := second + 1;
    }
    NoFields(s[first..]);
    Join(out, [], []);
  }

  lemma NoFields(s: seq<byte>)
    requires s == []
    ensures Fields(s) == []
  {
  }

  /** What the receiver makes of a user name. Anything but one or two fields leaves it empty. */
  function ReadUser(text: seq<byte>): User {
    var fs := Fields(text);
    if |fs| == 1 then User(fs[0], [])
    else if |fs| == 2 then User(fs[0], fs[1])
    else User([], [])
  }

  predicate Plain(s: seq<byte>) {
    COLON !in s
  }

  lemma {:induction false} FieldsArePlain(s: seq<byte>)
    ensures forall i :: 0 <= i < |Fields(s)| ==> Plain(Fields(s)[i])
    decreases |s|
  {
    if s != [] && FindColon(s) < |s| {
      FieldsArePlain(s[FindColon(s) + 1..]);
    }
  }

  lemma {:induction false} FindColonIn(s: seq<byte>, k: nat)
    requires k <= |s| && Plain(s[..k]) && (k < |s| ==> s[k] == COLON)
    ensures FindColon(s) == k
    decreases |s|
  {
    if k > 0 {
      assert s[0] == s[..k][0];
      assert s[1..][..k - 1] == s[..k][1..];
      FindColonIn(s[1..], k - 1);
    }
  }

  lemma OneField(s: seq<byte>)
    requires Plain(s) && s != []
    ensures Fields(s) == [s]
  {
    assert s[..|s|] == s;
    FindColonIn(s, |s|);
  }

  lemma TwoFields(a: seq<byte>, b: seq<byte>)
    requires Plain(a) && Plain(b) && b != []
    ensures Fields(a + [COLON] + b) == (if a == [] then [] else [a]) + [b]
  {
    var s := a + [COLON] + b;
    assert s[..|a|] == a && s[|a|] == COLON && s[|a| + 1..] == b;
    FindColonIn(s, |a|);
    OneField(b);
  }

  /** A user name survives exactly when neither half has a colon in it and a remote half does
      not stand alone. */
  lemma UserReadBackIff(u: User)
    ensures ReadUser(UserText(u)) == u <==> Readable(u)
  {
    var r := ReadUser(UserText(u));
    FieldsArePlain(UserText(u));
    assert Plain(r.local) && Plain(r.remote);
    if Plain(u.local) && Plain(u.remote) {
      if u.remote != [] {
        TwoFields(u.local, u.remote);
      } else if u.local != [] {
        OneField(u.local);
      }
    }
  }

  predicate Readable(u: User) {
    Plain(u.local) && Plain(u.remote) && (u.remote != [] ==> u.local != [])
  }

  // ------------------------------------------------------------------
  // Encoding

  function AttrHeader(t: nat, n: nat): (s: seq<byte>)
    ensures |s| == 4
  {
    ToBe(t, 2) + ToBe(n, 2)
  }

  /** The two tie-breaker attributes are written longer than they are counted. */
  function AttrSize(a: Attr): nat {
    match a
    case MappedAddress(_, _, _) => 12
    case NetworkInfo(_, _) => 8
    case Priority(_) => 8
    case UseCandidate => 4
    case Controlled(_) => 8
    case Controlling(_) => 8
  }

  function AttrBytes(a: Attr): seq<byte> {
    match a
    case MappedAddress(f, p, ip) => AttrHeader(0x0001, 8) + [0, f] + ToBe(p, 2) + ToBe(ip, 4)
    case NetworkInfo(i, c) => AttrHeader(0xc057, 4) + ToBe(i, 2) + ToBe(c, 2)
    case Priority(v) => AttrHeader(0x0024, 4) + ToBe(v, 4)
    case UseCandidate => AttrHeader(0x0025, 0)
    case Controlled(v) => AttrHeader(0x8029, 8) + ToBe(v, 8)
    case Controlling(v) => AttrHeader(0x802a, 8) + ToBe(v, 8)
  }

  /** Every field has its width. */
  predicate FieldsFit(a: Attr) {
    match a
    case MappedAddress(_, p, ip) => p < 0x1_0000 && ip < 0x1_0000_0000
    case NetworkInfo(i, c) => i < 0x1_0000 && c < 0x1_0000
    case Priority(v) => v < 0x1_0000_0000
    case UseCandidate => true
    case Controlled(v) => v < Pow256(8)
    case Controlling(v) => v < Pow256(8)
  }

  /** The attribute is counted as it is written, too. */
  predicate AttrFits(a: Attr) {
    FieldsFit(a) && !a.Controlled? && !a.Controlling?
  }

  /** The attributes byte by byte, with the types of section 18.2 of RFC 5389 and section 21.2 of
      RFC 5245. */
  lemma StandardAttrs(family: byte, id: nat)
    ensures AttrBytes(MappedAddress(family, 0x1234, 0x01020304)) == [0, 1, 0, 8, 0, family, 0x12, 0x34, 1, 2, 3, 4]
    ensures AttrBytes(Priority(0x01020304)) == [0, 0x24, 0, 4, 1, 2, 3, 4]
    ensures AttrBytes(UseCandidate) == [0, 0x25, 0, 0]
    ensures AttrBytes(NetworkInfo(0x0102, 0x0304)) == [0xc0, 0x57, 0, 4, 1, 2, 3, 4]
    ensures AttrHeader(0x8029, 8) == [0x80, 0x29, 0, 8] && AttrHeader(0x802a, 8) == [0x80, 0x2a, 0, 8]
    ensures AttrBytes(Controlled(id))[..4] == [0x80, 0x29, 0, 8]
    ensures AttrBytes(Controlling(id))[..4] == [0x80, 0x2a, 0, 8]
  {
    hide ToBe;
    Two(0x0001);
    Two(0x0024);
    Two(0x0025);
    Two(0xc057);
    Two(0x8029);
    Two(0x802a);
    Two(0);
    Two(4);
    Two(8);
    Two(0x1234);
    Two(0x0102);
    Two(0x0304);
    Four(0x01020304);
  }

  lemma Two(v: nat)
    ensures ToBe(v, 2) == [v / 256 % 256, v % 256]
  {
    assert ToBe(v / 256 / 256, 0) == [];
    assert ToBe(v / 256, 1) == [v / 256 % 256];
  }

  lemma Four(v: nat)
    ensures ToBe(v, 4) == [v / 256 / 256 / 256 % 256, v / 256 / 256 % 256, v / 256 % 256, v % 256]
  {
    Two(v / 256 / 256);
    assert ToBe(v / 256, 3) == ToBe(v / 256 / 256, 2) + [v / 256 % 256];
  }

  function AttrsSize(attrs: seq<Attr>): nat {
    if attrs == [] then 0 else AttrsSize(attrs[..|attrs| - 1]) + AttrSize(attrs[|attrs| - 1])
  }

  function AttrsBytes(attrs: seq<Attr>): seq<byte> {
    if attrs == [] then [] else AttrsBytes(attrs[..|attrs| - 1]) + AttrBytes(attrs[|attrs| - 1])
  }

  lemma {:induction false} AttrsLength(attrs: seq<Attr>)
    requires forall i :: 0 <= i < |attrs| ==> AttrFits(attrs[i])
    ensures |AttrsBytes(attrs)| == AttrsSize(attrs) && AttrsSize(attrs) % 4 == 0
  {
    hide AttrBytes, AttrSize, AttrFits;
    if attrs != [] {
      AttrsLength(attrs[..|attrs| - 1]);
      AttrLength(attrs[|attrs| - 1]);
    }
  }

  lemma AttrLength(a: Attr)
    requires AttrFits(a)
    ensures |AttrBytes(a)| == AttrSize(a) && AttrSize(a) % 4 == 0
  {
    hide ToBe;
  }

  /** A message to send: `transaction` has 12 bytes. */
  datatype Message = Message(kind: nat, transaction: seq<byte>, user: User, attrs: seq<Attr>)

  function UserSize(u: User): nat {
    4 + Pad4(|UserText(u)|)
  }

  /** `size(true, true)`. */
  function Size(m: Message): (n: nat)
    ensures n >= 56
  {
    20 + AttrsSize(m.attrs) + UserSize(m.user) + 24 + 8
  }

  predicate Fits(m: Message) {
    && m.kind < 0x1_0000 && m.kind / 64 % 4 == 0
    && |m.transaction| == 12
    && (forall i :: 0 <= i < |m.attrs| ==> AttrFits(m.attrs[i]))
    && Size(m) - 20 < 0x1_0000
  }

  function Head(m: Message): (s: seq<byte>)
    requires |m.transaction| == 12
    ensures |s| == 20
  {
    ToBe(m.kind, 2) + ToBe(Size(m) - 20, 2) + ToBe(MAGIC_COOKIE, 4) + m.transaction
  }

  /** The user name is followed by whatever was in the buffer up to the next multiple of 4. */
  function UserBytes(u: User, pad: seq<byte>): seq<byte> {
    AttrHeader(0x0006, |UserText(u)|) + UserText(u) + pad
  }

  /** Everything in front of the integrity attribute. */
  function Body(m: Message, pad: seq<byte>): (s: seq<byte>)
    requires |m.transaction| == 12
    ensures |s| >= 24
  {
    Head(m) + UserBytes(m.user, pad) + AttrsBytes(m.attrs)
  }

  // ------------------------------------------------------------------
  // Integrity and fingerprint

  /** The header's length field with another length in it. */
  function Patched(d: seq<byte>, n: nat): seq<byte>
    requires |d| >= 4
  {
    d[..2] + ToBe(n, 2) + d[4..]
  }

  /** The least length of a message with an integrity attribute. */
  function LeastLength(fingerprint: bool): nat {
    if fingerprint then 52 else 44
  }

  /** The length of the content up to and including the integrity attribute, in a message of
      `n` bytes. */
  function CoveredLength(n: nat, fingerprint: bool): nat
    requires n >= LeastLength(fingerprint)
  {
    n - 20 - (if fingerprint then 8 else 0)
  }

  /** What the HMAC of section 15.4 of RFC 5389 is taken of: the bytes in front of the attribute. */
  function IntegrityInput(d: seq<byte>, n: nat, fingerprint: bool): seq<byte>
    requires n >= LeastLength(fingerprint) && CoveredLength(n, fingerprint) + 20 - 24 <= |d|
  {
    var covered := CoveredLength(n, fingerprint);
    Patched(d, covered)[..covered + 20 - 24]
  }

  function AsBv(s: seq<byte>): seq<bv8> {
    seq(|s|, i requires 0 <= i < |s| => s[i] as bv8)
  }

  /** The value of section 15.5 of RFC 5389, as four bytes. */
  function Fingerprint(d: seq<byte>): nat {
    Stamped(Crc32.Crc(AsBv(d)))
  }

  /** A CRC exclusive-or the letters "STUN". */
  function Stamped(crc: bv32): nat {
    (crc ^ 0x5354_554e) as nat
  }

  function IntegrityBytes(tag: Tag): seq<byte> {
    AttrHeader(0x0008, 20) + tag
  }

  function FingerprintBytes(v: nat): seq<byte> {
    AttrHeader(0x8028, 4) + ToBe(v, 4)
  }

  /** The message with its integrity attribute, then the whole. */
  function Sealed(m: Message, pad: seq<byte>, mac: seq<byte> -> Tag): seq<byte>
    requires |m.transaction| == 12
  {
    var body := Body(m, pad);
    body + IntegrityBytes(mac(Patched(body, |body| + 24 - 20)))
  }

  function Produced(m: Message, pad: seq<byte>, mac: seq<byte> -> Tag): seq<byte>
    requires |m.transaction| == 12
  {
    var sealed := Sealed(m, pad, mac);
    sealed + FingerprintBytes(Fingerprint(sealed))
  }

  /** The rest of the message byte by byte: sections 6 and 15.3 to 15.5 of RFC 5389. */
  lemma StandardHeaders(m: Message, u: User, pad: seq<byte>, tag: Tag, v: nat)
    requires |m.transaction| == 12
    ensures Head(m)[4..8] == [0x21, 0x12, 0xa4, 0x42] && Head(m)[8..20] == m.transaction
    ensures UserBytes(u, pad)[..2] == [0, 6]
    ensures IntegrityBytes(tag) == [0, 8, 0, 20] + tag
    ensures FingerprintBytes(v)[..4] == [0x80, 0x28, 0, 4]
  {
    hide ToBe, Size;
    Four(MAGIC_COOKIE);
    Two(0x0006);
    Two(0x0008);
    Two(20);
    Two(0x8028);
    Two(4);
  }

  /** The fingerprint of the digits 1 to 9: the check value of the CRC, xored with "STUN". */
  lemma FingerprintExample()
    ensures Fingerprint([49, 50, 51, 52, 53, 54, 55, 56, 57]) == 0x98a0_6c68
  {
    var d: seq<byte> := [49, 50, 51, 52, 53, 54, 55, 56, 57];
    assert AsBv(d) == [49, 50, 51, 52, 53, 54, 55, 56, 57];
    Crc32.CheckValue();
    hide Crc32.Reference;
    assert Crc32.Crc(AsBv(d)) == 0xcbf4_3926;
  }

  // ------------------------------------------------------------------
  // Decoding

  datatype Parsed = Parsed(user: Option<User>, attrs: seq<Attr>, integrity: Option<seq<byte>>, fingerprint: Option<nat>)

  /** `Stuck`: an attribute that the loop does not step over, so that it never ends.
      `Undefined`: a read behind the end of the bytes. */
  datatype Result<T> = Ok(value: T) | Err(code: int) | Stuck | Undefined

  datatype Received = Received(kind: nat, transaction: seq<byte>, parsed: Parsed)

  /** One attribute: what the loop knows after it and the bytes behind it. */
  datatype Round = Round(parsed: Parsed, used: nat)

  function AddAttr(p: Parsed, a: Attr, used: nat): Result<Round> {
    Ok(Round(p.(attrs := p.attrs + [a]), used))
  }

  function ReadAttr(d: seq<byte>, p: Parsed): (r: Result<Round>)
    requires d != []
    ensures r.Ok? ==> 4 <= r.value.used <= |d|
  {
    if |d| < 2 then Undefined
    else
      var t := FromBe(d[..2]);
      var n := if |d| < 4 then 0 else FromBe(d[2..4]);
      if t == 0x0001 then
        if |d| < 12 then Err(-2)
        else AddAttr(p, MappedAddress(d[5], FromBe(d[6..8]), FromBe(d[8..12])), 12)
      else if t == 0x0006 then
        if |d| < 5 then Err(-3)
        else if |d| < 4 + Pad4(n) then Undefined
        else Ok(Round(p.(user := Some(ReadUser(d[4..4 + n]))), 4 + Pad4(n)))
      else if t == 0x0008 then
        if |d| < 24 || n != 20 then Err(-4)
        else Ok(Round(p.(integrity := Some(d[4..24])), 24))
      else if t == 0xc057 then
        if |d| < 5 || n != 4 then Err(-5)
        else if |d| < 8 then Undefined
        else AddAttr(p, NetworkInfo(FromBe(d[4..6]), FromBe(d[6..8])), 8)
      else if t == 0x0024 then
        if |d| < 8 || n != 4 then Err(-6)
        else AddAttr(p, Priority(FromBe(d[4..8])), 8)
      else if t == 0x0025 then
        if |d| < 4 then Err(-7) else AddAttr(p, UseCandidate, 4)
      else if t == 0x8029 || t == 0x802a then
        if |d| < 8 || n != 8 then Err(if t == 0x8029 then -8 else -9)
        else if |d| < 12 then Undefined
        else
          var v := FromBe(d[4..12]);
          AddAttr(p, if t == 0x8029 then Controlled(v) else Controlling(v), 12)
      else if NeverPassed(t) then Stuck
      else Err(-10)
  }

  /** The attribute loop; it stops behind the integrity attribute. */
  function ReadAttrs(d: seq<byte>, p: Parsed): (r: Result<Round>)
    ensures r.Ok? ==> r.value.used <= |d|
    decreases |d|
  {
    if d == [] then Ok(Round(p, 0))
    else
      var r := ReadAttr(d, p);
      match r
      case Err(c) => Err(c)
      case Stuck => Stuck
      case Undefined => Undefined
      case Ok(v) =>
        if v.parsed.integrity.Some? then r
        else
          var rest := ReadAttrs(d[v.used..], v.parsed);
          if rest.Ok? then Ok(rest.value.(used := rest.value.used + v.used)) else rest
  }

  function ReadFingerprint(d: seq<byte>, p: Parsed): Result<Parsed> {
    if d == [] then Ok(p)
    else if |d| < 2 then Undefined
    else if FromBe(d[..2]) != 0x8028 then Ok(p)
    else if |d| < 8 || FromBe(d[2..4]) != 4 then Err(-11)
    else Ok(p.(fingerprint := Some(FromBe(d[4..8]))))
  }

  function Decode(d: seq<byte>): Result<Received> {
    if |d| < 20 then Err(-1)
    else
      var kind := FromBe(d[..2]);
      if kind / 64 % 4 != 0 || FromBe(d[4..8]) != MAGIC_COOKIE then Err(-1)
      else
        var r := ReadAttrs(d[20..], Parsed(None, [], None, None));
        match r
        case Err(c) => Err(c)
        case Stuck => Stuck
        case Undefined => Undefined
        case Ok(v) =>
          var f := ReadFingerprint(d[20 + v.used..], v.parsed);
          match f
          case Err(c) => Err(c)
          case Stuck => Stuck
          case Undefined => Undefined
          case Ok(p) => Ok(Received(kind, d[8..20], p))
  }

  /** An attribute that is cut off behind its type is answered with the code of that type, and an
      unknown type with -10. */
  lemma CutAttrCodes(d: seq<byte>, p: Parsed)
    requires 2 <= |d| < 4
    ensures var t, r := FromBe(d[..2]), ReadAttr(d, p);
            && (t == 0x0001 ==> r == Err(-2)) && (t == 0x0006 ==> r == Err(-3)) && (t == 0x0008 ==> r == Err(-4))
            && (t == 0xc057 ==> r == Err(-5)) && (t == 0x0024 ==> r == Err(-6)) && (t == 0x0025 ==> r == Err(-7))
            && (t == 0x8029 ==> r == Err(-8)) && (t == 0x802a ==> r == Err(-9))
            && (t == 0x0000 || t == 0x8028 || 0x000c <= t < 0x0024 ==> r == Err(-10))
  {
    hide FromBe;
  }

  /** How many bytes the attribute loop steps over before it goes on, by the type, the length
      field and what is there; 0 if it does not go on. */
  function Width(d: seq<byte>): (n: nat)
    ensures n <= |d|
  {
    if |d| < 4 then 0
    else
      var t, n := FromBe(d[..2]), FromBe(d[2..4]);
      var w := if t == 0x0001 then 12
               else if t == 0x0006 && |d| >= 5 then 4 + Pad4(n)
               else if (t == 0xc057 || t == 0x0024) && n == 4 then 8
               else if t == 0x0025 then 4
               else if (t == 0x8029 || t == 0x802a) && n == 8 then 12
               else 0;
      if w <= |d| then w else 0
  }

  /** Where the loop stops stepping over attributes. */
  function StopsAt(d: seq<byte>): seq<byte>
    decreases |d|
  {
    if Width(d) == 0 then d else StopsAt(d[Width(d)..])
  }

  /** The eight types whose attributes the loop looks at for ever. */
  predicate NeverPassed(t: nat) {
    0x0002 <= t <= 0x0005 || t == 0x0007 || 0x0009 <= t <= 0x000b
  }

  lemma WidthIsUsed(d: seq<byte>, p: Parsed)
    requires d != [] && p.integrity.None?
    ensures var r := ReadAttr(d, p);
            && (r.Ok? && r.value.parsed.integrity.None? <==> Width(d) > 0)
            && (Width(d) > 0 ==> r.value.used == Width(d))
            && (r.Stuck? <==> |d| >= 2 && NeverPassed(FromBe(d[..2])))
            && (Width(d) > 0 ==> !NeverPassed(FromBe(d[..2])))
  {
    hide FromBe, ReadUser;
  }

  lemma {:induction false} LoopStuckIff(d: seq<byte>, p: Parsed)
    requires p.integrity.None?
    ensures ReadAttrs(d, p).Stuck? <==> |StopsAt(d)| >= 2 && NeverPassed(FromBe(StopsAt(d)[..2]))
    decreases |d|
  {
    hide FromBe, ReadAttr, Width, NeverPassed;
    if d == [] {
      NoWidth(d);
    } else {
      WidthIsUsed(d, p);
      if Width(d) > 0 {
        LoopStuckIff(d[Width(d)..], ReadAttr(d, p).value.parsed);
      }
    }
  }

  lemma NoWidth(d: seq<byte>)
    requires d == []
    ensures Width(d) == 0
  {
  }

  /** Decoding never ends exactly when the header is read and the first attribute that is not
      stepped over has one of the eight types. */
  lemma NeverEndsIff(d: seq<byte>)
    ensures Decode(d).Stuck?
            <==> && |d| >= 20 && FromBe(d[..2]) / 64 % 4 == 0 && FromBe(d[4..8]) == MAGIC_COOKIE
                 && |StopsAt(d[20..])| >= 2 && NeverPassed(FromBe(StopsAt(d[20..])[..2]))
  {
    hide FromBe, ReadAttrs, StopsAt, NeverPassed, ReadFingerprint;
    if |d| >= 20 {
      LoopStuckIff(d[20..], Parsed(None, [], None, None));
      NoStuckFingerprint(d);
    }
  }

  lemma NoStuckFingerprint(d: seq<byte>)
    requires |d| >= 20
    ensures var r := ReadAttrs(d[20..], Parsed(None, [], None, None));
            r.Ok? ==> !ReadFingerprint(d[20 + r.value.used..], r.value.parsed).Stuck?
  {
    hide FromBe, ReadAttrs;
  }

  /** A witness: a binding request whose only attribute is an empty RESPONSE-ADDRESS. */
  lemma ResponseAddressNeverEnds(transaction: seq<byte>)
    requires |transaction| == 12
    ensures Decode([0, 1, 0, 4, 0x21, 0x12, 0xa4, 0x42] + transaction + [0, 2, 0, 0]).Stuck?
  {
    hide FromBe, Decode;
    var head: seq<byte> := [0, 1, 0, 4, 0x21, 0x12, 0xa4, 0x42];
    var d := head + transaction + [0, 2, 0, 0];
    assert d[..2] == [0, 1] && d[4..8] == [0x21, 0x12, 0xa4, 0x42] && d[20..] == [0, 2, 0, 0];
    FromBeFour(0x21, 0x12, 0xa4, 0x42);
    FromBeTwo(0, 1);
    FromBeTwo(0, 2);
    FromBeTwo(0, 0);
    assert [0, 2, 0, 0][..2] == [0, 2] && [0, 2, 0, 0][2..4] == [0, 0];
    assert Width(d[20..]) == 0;
    NeverEndsIff(d);
  }

  // ------------------------------------------------------------------
  // Produce and check

  lemma Number(v: nat, n: nat)
    requires v < Pow256(n)
    ensures FromBe(ToBe(v, n)) == v
  {
    BeRoundTrip(v, n);
  }

  lemma HeaderRead(t: nat, n: nat, rest: seq<byte>)
    requires t < 0x1_0000 && n < 0x1_0000
    ensures var d := AttrHeader(t, n) + rest;
            |d| >= 4 && FromBe(d[..2]) == t && FromBe(d[2..4]) == n && d[4..] == rest
  {
    var d := AttrHeader(t, n) + rest;
    assert d[..2] == ToBe(t, 2) && d[2..4] == ToBe(n, 2);
    Pow256Values();
    Number(t, 2);
    Number(n, 2);
  }

  /** Every attribute is read back, whatever follows it. */
  lemma AttrRead(a: Attr, rest: seq<byte>, p: Parsed)
    requires FieldsFit(a)
    ensures ReadAttr(AttrBytes(a) + rest, p) == Ok(Round(p.(attrs := p.attrs + [a]), |AttrBytes(a)|))
  {
    hide ToBe, FromBe, AttrHeader;
    Pow256Values();
    var d := AttrBytes(a) + rest;
    match a
    case MappedAddress(f, port, ip) =>
      var value := [0, f] + ToBe(port, 2) + ToBe(ip, 4);
      assert d == AttrHeader(0x0001, 8) + (value + rest);
      HeaderRead(0x0001, 8, value + rest);
      assert d[6..8] == ToBe(port, 2) && d[8..12] == ToBe(ip, 4) && d[5] == f;
      Number(port, 2);
      Number(ip, 4);
    case NetworkInfo(i, c) =>
      var value := ToBe(i, 2) + ToBe(c, 2);
      assert d == AttrHeader(0xc057, 4) + (value + rest);
      HeaderRead(0xc057, 4, value + rest);
      assert d[4..6] == ToBe(i, 2) && d[6..8] == ToBe(c, 2);
      Number(i, 2);
      Number(c, 2);
    case Priority(v) =>
      assert d == AttrHeader(0x0024, 4) + (ToBe(v, 4) + rest);
      HeaderRead(0x0024, 4, ToBe(v, 4) + rest);
      assert d[4..8] == ToBe(v, 4);
      Number(v, 4);
    case UseCandidate =>
      HeaderRead(0x0025, 0, rest);
    case Controlled(v) =>
      assert d == AttrHeader(0x8029, 8) + (ToBe(v, 8) + rest);
      HeaderRead(0x8029, 8, ToBe(v, 8) + rest);
      assert d[4..12] == ToBe(v, 8);
      Number(v, 8);
    case Controlling(v) =>
      assert d == AttrHeader(0x802a, 8) + (ToBe(v, 8) + rest);
      HeaderRead(0x802a, 8, ToBe(v, 8) + rest);
      assert d[4..12] == ToBe(v, 8);
      Number(v, 8);
  }

  function Shift(r: Result<Round>, n: nat): Result<Round> {
    if r.Ok? then Ok(r.value.(used := r.value.used + n)) else r
  }

  /** One attribute in front of others. */
  lemma AttrThen(a: seq<byte>, rest: seq<byte>, p: Parsed, q: Parsed)
    requires a != [] && ReadAttr(a + rest, p) == Ok(Round(q, |a|)) && q.integrity.None?
    ensures ReadAttrs(a + rest, p) == Shift(ReadAttrs(rest, q), |a|)
  {
    hide ReadAttr;
    assert (a + rest)[|a|..] == rest;
  }

  lemma {:induction false} AttrsRead(attrs: seq<Attr>, rest: seq<byte>, p: Parsed)
    requires forall i :: 0 <= i < |attrs| ==> FieldsFit(attrs[i])
    requires p.integrity.None?
    ensures ReadAttrs(AttrsBytes(attrs) + rest, p)
            == Shift(ReadAttrs(rest, p.(attrs := p.attrs + attrs)), |AttrsBytes(attrs)|)
  {
    hide ReadAttrs, ReadAttr, AttrBytes, FieldsFit;
    if attrs == [] {
      assert AttrsBytes(attrs) + rest == rest && p.attrs + attrs == p.attrs;
    } else {
      var front, a := attrs[..|attrs| - 1], attrs[|attrs| - 1];
      var q := p.(attrs := p.attrs + front);
      assert AttrsBytes(attrs) + rest == AttrsBytes(front) + (AttrBytes(a) + rest);
      AttrsRead(front, AttrBytes(a) + rest, p);
      AttrRead(a, rest, q);
      AttrLonger(a);
      assert q.attrs + [a] == p.attrs + attrs;
      AttrThen(AttrBytes(a), rest, q, q.(attrs := q.attrs + [a]));
    }
  }

  lemma AttrLonger(a: Attr)
    ensures AttrBytes(a) != []
  {
    hide ToBe;
  }

  lemma UserRead(u: User, pad: seq<byte>, rest: seq<byte>, p: Parsed)
    requires |UserText(u)| < 0x1_0000 && |pad| == Pad4(|UserText(u)|) - |UserText(u)| && rest != []
    ensures ReadAttr(UserBytes(u, pad) + rest, p)
            == Ok(Round(p.(user := Some(ReadUser(UserText(u)))), UserSize(u)))
    ensures |UserBytes(u, pad)| == UserSize(u)
  {
    hide ToBe, FromBe, AttrHeader, ReadUser;
    var n := |UserText(u)|;
    var d := UserBytes(u, pad) + rest;
    assert d == AttrHeader(0x0006, n) + (UserText(u) + pad + rest);
    HeaderRead(0x0006, n, UserText(u) + pad + rest);
    assert d[4..4 + n] == UserText(u);
  }

  lemma IntegrityRead(tag: Tag, rest: seq<byte>, p: Parsed)
    ensures ReadAttrs(IntegrityBytes(tag) + rest, p) == Ok(Round(p.(integrity := Some(tag)), 24))
  {
    hide ToBe, FromBe, AttrHeader;
    var d := IntegrityBytes(tag) + rest;
    assert d == AttrHeader(0x0008, 20) + (tag + rest);
    HeaderRead(0x0008, 20, tag + rest);
    assert d[4..24] == tag;
  }

  lemma FingerprintRead(v: nat, p: Parsed)
    requires v < 0x1_0000_0000
    ensures ReadFingerprint(FingerprintBytes(v), p) == Ok(p.(fingerprint := Some(v)))
  {
    hide ToBe, FromBe, AttrHeader;
    var d := FingerprintBytes(v);
    HeaderRead(0x8028, 4, ToBe(v, 4));
    assert d[4..8] == ToBe(v, 4);
    Pow256Values();
    Number(v, 4);
  }

  /** What a receiver is to find in a message. */
  function Expected(m: Message, pad: seq<byte>, mac: seq<byte> -> Tag): Parsed
    requires |m.transaction| == 12
  {
    var body := Body(m, pad);
    Parsed(Some(ReadUser(UserText(m.user))), m.attrs, Some(mac(Patched(body, |body| + 4))),
           Some(Fingerprint(Sealed(m, pad, mac))))
  }

  predicate PadFor(m: Message, pad: seq<byte>) {
    |pad| == Pad4(|UserText(m.user)|) - |UserText(m.user)|
  }

  lemma ProducedSize(m: Message, pad: seq<byte>, mac: seq<byte> -> Tag)
    requires Fits(m) && PadFor(m, pad)
    ensures |Body(m, pad)| == Size(m) - 32 && |Sealed(m, pad, mac)| == Size(m) - 8
    ensures |Produced(m, pad, mac)| == Size(m) && Size(m) % 4 == 0
  {
    hide ToBe, Fingerprint;
    AttrsLength(m.attrs);
  }

  lemma HeadRead(m: Message, rest: seq<byte>)
    requires Fits(m)
    ensures var d := Head(m) + rest;
            && FromBe(d[..2]) == m.kind && FromBe(d[2..4]) == Size(m) - 20 && FromBe(d[4..8]) == MAGIC_COOKIE
            && d[8..20] == m.transaction && d[20..] == rest
  {
    hide ToBe, FromBe, Size, AttrFits;
    var d := Head(m) + rest;
    assert d[..2] == ToBe(m.kind, 2) && d[2..4] == ToBe(Size(m) - 20, 2) && d[4..8] == ToBe(MAGIC_COOKIE, 4);
    Pow256Values();
    Number(m.kind, 2);
    Number(Size(m) - 20, 2);
    Number(MAGIC_COOKIE, 4);
  }

  /** All attributes of a produced message, in order. */
  lemma AllRead(m: Message, pad: seq<byte>, tag: Tag, rest: seq<byte>)
    requires Fits(m) && PadFor(m, pad)
    ensures ReadAttrs(UserBytes(m.user, pad) + AttrsBytes(m.attrs) + IntegrityBytes(tag) + rest,
                      Parsed(None, [], None, None))
            == Ok(Round(Parsed(Some(ReadUser(UserText(m.user))), m.attrs, Some(tag), None), Size(m) - 28))
  {
    hide ReadAttrs, ReadAttr, ReadUser, FieldsFit, UserText, AttrsBytes, AttrHeader;
    var p := Parsed(None, [], None, None);
    var q := p.(user := Some(ReadUser(UserText(m.user))));
    var a, b, c := UserBytes(m.user, pad), AttrsBytes(m.attrs), IntegrityBytes(tag);
    assert a + b + c + rest == a + (b + (c + rest));
    UserRead(m.user, pad, b + (c + rest), p);
    AttrThen(a, b + (c + rest), p, q);
    AttrsRead(m.attrs, c + rest, q);
    assert [] + m.attrs == m.attrs;
    AttrsLength(m.attrs);
    IntegrityRead(tag, rest, q.(attrs := m.attrs));
  }

  lemma FingerprintBound(d: seq<byte>)
    ensures Fingerprint(d) < 0x1_0000_0000
  {
  }

  /** `checkMsgIntegrity` of a message of `n` bytes. */
  predicate IntegrityHolds(d: seq<byte>, n: nat, p: Parsed, mac: seq<byte> -> Tag)
    requires LeastLength(p.fingerprint.Some?) <= n <= |d|
  {
    p.integrity == Some(mac(IntegrityInput(d, n, p.fingerprint.Some?)))
  }

  /** `checkFingerPrint`: a message without one passes. */
  predicate FingerprintHolds(d: seq<byte>, n: nat, p: Parsed)
    requires 8 <= n <= |d|
  {
    p.fingerprint.None? || p.fingerprint.value == Fingerprint(d[..n - 8])
  }

  /** A message that fits is written in exactly `size(true, true)` bytes, a multiple of four
      that the length field agrees with. It is read back with its transaction and attributes,
      and the user name as `UserReadBackIff` says; and both checks succeed, whatever lay in
      the padding. */
  lemma ProduceAndCheck(m: Message, pad: seq<byte>, mac: seq<byte> -> Tag)
    requires Fits(m) && PadFor(m, pad)
    ensures var d := Produced(m, pad, mac);
            && |d| == Size(m) && |d| % 4 == 0 && FromBe(d[2..4]) + 20 == |d|
            && Decode(d) == Ok(Received(m.kind, m.transaction, Expected(m, pad, mac)))
            && IntegrityHolds(d, |d|, Expected(m, pad, mac), mac)
            && FingerprintHolds(d, |d|, Expected(m, pad, mac))
  {
    hide ReadAttrs, ReadUser, Head, UserBytes, AttrsBytes, IntegrityBytes, FingerprintBytes, ReadFingerprint,
      Fingerprint, Size, FromBe, ToBe, AttrFits, Patched;
    ProducedSize(m, pad, mac);
    var d := Produced(m, pad, mac);
    var body, sealed := Body(m, pad), Sealed(m, pad, mac);
    var tag := mac(Patched(body, |body| + 4));
    var mark := Fingerprint(sealed);
    var a, b, c, e := UserBytes(m.user, pad), AttrsBytes(m.attrs), IntegrityBytes(tag), FingerprintBytes(mark);
    assert d == Head(m) + (a + b + c + e);
    HeadRead(m, a + b + c + e);
    AllRead(m, pad, tag, e);
    assert d[20 + (Size(m) - 28)..] == e;
    FingerprintBound(sealed);
    FingerprintRead(mark, Parsed(Some(ReadUser(UserText(m.user))), m.attrs, Some(tag), None));
    assert d[..|d| - 8] == sealed;
    SameInput(body, d);
  }

  /** The receiver takes the HMAC of the bytes the sender took it of. */
  lemma SameInput(body: seq<byte>, d: seq<byte>)
    requires |body| >= 24 && body <= d
    ensures IntegrityInput(d, |body| + 32, true) == Patched(body, |body| + 4)
  {
    hide ToBe;
  }

  // ------------------------------------------------------------------
  // The program: buffers written and patched in place

  method WriteAt(buf: array<byte>, pos: nat, s: seq<byte>)
    requires pos + |s| <= buf.Length
    modifies buf
    ensures buf[..] == old(buf[..pos]) + s + old(buf[pos + |s|..])
  {
    forall i | 0 <= i < |s| {
      buf[pos + i] := s[i];
    }
    assert buf[..pos] == old(buf[..pos]) && buf[pos..pos + |s|] == s && buf[pos + |s|..] == old(buf[pos + |s|..]);
    assert buf[..] == buf[..pos] + buf[pos..pos + |s|] + buf[pos + |s|..];
  }

  /** The length field is overwritten, the HMAC taken, and the field restored. */
  method TakeIntegrity(buf: array<byte>, n: nat, fingerprint: bool, mac: seq<byte> -> Tag) returns (tag: Tag)
    requires n >= LeastLength(fingerprint) && CoveredLength(n, fingerprint) + 20 - 24 <= buf.Length
    modifies buf
    ensures buf[..] == old(buf[..])
    ensures tag == mac(IntegrityInput(old(buf[..]), n, fingerprint))
  {
    hide ToBe;
    var backup := buf[2..4];
    var covered := n - 20;
    if fingerprint {
      covered := covered - 8;
    }
    WriteAt(buf, 2, ToBe(covered, 2));
    assert buf[..] == Patched(old(buf[..]), covered);
    assert buf[..covered + 20 - 24] == buf[..][..covered + 20 - 24];
    tag := mac(buf[..covered + 20 - 24]);
    ghost var patched := buf[..];
    WriteAt(buf, 2, backup);
    Restored(old(buf[..]), patched, covered);
  }

  lemma Restored(was: seq<byte>, patched: seq<byte>, n: nat)
    requires |was| >= 4 && patched == Patched(was, n)
    ensures patched[..2] + was[2..4] + patched[4..] == was
  {
    hide ToBe;
  }

  method CheckMsgIntegrity(buf: array<byte>, n: nat, p: Parsed, mac: seq<byte> -> Tag) returns (ok: bool)
    requires LeastLength(p.fingerprint.Some?) <= n <= buf.Length && p.integrity.Some?
    modifies buf
    ensures buf[..] == old(buf[..])
    ensures ok <==> IntegrityHolds(buf[..], n, p, mac)
  {
    var tag := TakeIntegrity(buf, n, p.fingerprint.Some?, mac);
    ok := tag == p.integrity.value;
  }

  method TakeFingerprint(d: seq<byte>) returns (v: nat)
    ensures v == Fingerprint(d)
  {
    hide Stamped, AsBv, Crc32.Crc;
    var crc := Crc32.GetCrc32(AsBv(d));
    v := Stamped(crc);
  }

  method CheckFingerPrint(buf: array<byte>, n: nat, p: Parsed) returns (ok: bool)
    requires 8 <= n <= buf.Length
    ensures ok <==> FingerprintHolds(buf[..], n, p)
  {
    hide Fingerprint;
    if p.fingerprint.None? {
      return true;
    }
    assert buf[..n - 8] == buf[..][..n - 8];
    var v := TakeFingerprint(buf[..n - 8]);
    ok := v == p.fingerprint.value;
  }

  /** A buffer that held `was` and has been filled with `done` from the front. */
  predicate Filled(b: seq<byte>, was: seq<byte>, done: seq<byte>) {
    |done| <= |was| && b == done + was[|done|..]
  }

  /** The next bytes go behind the ones already there. */
  method Put(buf: array<byte>, pos: nat, s: seq<byte>, ghost was: seq<byte>, ghost done: seq<byte>)
    requires Filled(buf[..], was, done) && pos == |done| && |done + s| <= |was|
    modifies buf
    ensures Filled(buf[..], was, done + s)
  {
    WriteAt(buf, pos, s);
    ghost var b := done + was[|done|..];
    assert b[..pos] == done && b[pos + |s|..] == was[|done + s|..];
  }

  /** Bytes that are stepped over stay what they were. */
  lemma SteppedOver(b: seq<byte>, was: seq<byte>, done: seq<byte>, n: nat)
    requires Filled(b, was, done) && |done| + n <= |was|
    ensures Filled(b, was, done + was[|done|..|done| + n])
  {
    assert was[|done|..] == was[|done|..|done| + n] + was[|done| + n..];
  }

  lemma {:induction false} AttrsPrefix(attrs: seq<Attr>, i: nat)
    requires i <= |attrs|
    ensures |AttrsBytes(attrs[..i])| <= |AttrsBytes(attrs)|
    ensures i < |attrs| ==> AttrsBytes(attrs[..i + 1]) == AttrsBytes(attrs[..i]) + AttrBytes(attrs[i])
    decreases |attrs|
  {
    hide AttrBytes;
    if i < |attrs| {
      assert attrs[..i + 1][..i] == attrs[..i];
      var front := attrs[..|attrs| - 1];
      AttrsPrefix(front, i);
      assert front[..i] == attrs[..i];
    } else {
      assert attrs[..i] == attrs;
    }
  }

  datatype Written = Wrote(n: nat) | Failed(code: int) | Overrun

  /** What becomes of an encoding in a buffer of `room` bytes: it is written when there is room
      for all of it. A shorter buffer is answered with a code, except that one that ends in the
      padding of the user name is overrun, because the padding is stepped over unchecked. */
  function EncodeOutcome(m: Message, room: nat): Written {
    if room < 24 + |UserText(m.user)| then Failed(-1)
    else if room < 20 + UserSize(m.user) then Overrun
    else if room < Size(m) - 32 then Failed(-2)
    else if room < Size(m) - 8 then Failed(-3)
    else if room < Size(m) then Failed(-4)
    else Wrote(Size(m))
  }

  /** The bytes a buffer has where the padding of the user name will be. */
  function PadIn(m: Message, was: seq<byte>): seq<byte>
    requires |was| >= 20 + UserSize(m.user)
  {
    was[24 + |UserText(m.user)|..20 + UserSize(m.user)]
  }

  /** `encode` with integrity and fingerprint, into a buffer of any size. */
  method Encode(m: Message, buf: array<byte>, mac: seq<byte> -> Tag) returns (w: Written)
    requires Fits(m)
    modifies buf
    ensures w == EncodeOutcome(m, buf.Length)
    ensures w.Wrote? ==> PadFor(m, PadIn(m, old(buf[..])))
                         && Filled(buf[..], old(buf[..]), Produced(m, PadIn(m, old(buf[..])), mac))
  {
    hide UserText, Filled, Produced, AttrFits, AttrsSize, Head, UserBytes;
    ghost var was := buf[..];
    if buf.Length < 20 {
      return Failed(-1);
    }
    NothingFilled(was);
    assert [] + Head(m) == Head(m);
    Put(buf, 0, Head(m), was, []);
    if buf.Length - 20 < 4 || buf.Length - 24 < |UserText(m.user)| {
      return Failed(-1);
    }
    if buf.Length - 20 < UserSize(m.user) {
      return Overrun;
    }
    PutUser(m, buf, was);
    var pos, ok := PutAttrs(m, buf, PadIn(m, was), was);
    if !ok {
      return Failed(-2);
    }
    w := Finish(m, buf, pos, PadIn(m, was), was, mac);
  }

  method PutUser(m: Message, buf: array<byte>, ghost was: seq<byte>)
    requires |m.transaction| == 12 && |was| >= 20 + UserSize(m.user) && Filled(buf[..], was, Head(m))
    modifies buf
    ensures Filled(buf[..], was, Head(m) + UserBytes(m.user, PadIn(m, was)))
  {
    hide ToBe, AttrHeader, Filled, UserText, AttrsSize, Head, Pad4;
    var text := UserText(m.user);
    var user := AttrHeader(0x0006, |text|) + text;
    Put(buf, 20, user, was, Head(m));
    SteppedOver(buf[..], was, Head(m) + user, UserSize(m.user) - 4 - |text|);
    Join(Head(m), user, PadIn(m, was));
  }

  lemma NothingFilled(was: seq<byte>)
    ensures Filled(was, was, [])
  {
  }

  /** The loop over the attributes stops at the first that does not fit. */
  method PutAttrs(m: Message, buf: array<byte>, ghost pad: seq<byte>, ghost was: seq<byte>)
    returns (pos: nat, ok: bool)
    requires Fits(m) && PadFor(m, pad) && |was| == buf.Length >= 20 + UserSize(m.user)
    requires Filled(buf[..], was, Head(m) + UserBytes(m.user, pad))
    modifies buf
    ensures ok <==> buf.Length >= Size(m) - 32
    ensures ok ==> pos == |Body(m, pad)| && Filled(buf[..], was, Body(m, pad))
  {
    hide ToBe, AttrHeader, AttrBytes, AttrsBytes, AttrFits, Filled, UserText;
    ProducedSize(m, pad, _ => ZERO);
    pos, ok := 20 + UserSize(m.user), true;
    ghost var done := Head(m) + UserBytes(m.user, pad);
    NoAttrs(m.attrs);
    assert done + AttrsBytes([]) == done;
    var i := 0;
    while i < |m.attrs|
      invariant 0 <= i <= |m.attrs|
      invariant pos == |done + AttrsBytes(m.attrs[..i])| <= buf.Length
      invariant Filled(buf[..], was, done + AttrsBytes(m.attrs[..i]))
    {
      AttrsPrefix(m.attrs, i);
      AttrsPrefix(m.attrs, i + 1);
      Join(done, AttrsBytes(m.attrs[..i]), AttrBytes(m.attrs[i]));
      if buf.Length - pos < |AttrBytes(m.attrs[i])| {
        return pos, false;
      }
      Put(buf, pos, AttrBytes(m.attrs[i]), was, done + AttrsBytes(m.attrs[..i]));
      pos := pos + |AttrBytes(m.attrs[i])|;
      i := i + 1;
    }
    assert m.attrs[..i] == m.attrs;
  }

  const ZERO: Tag := seq(20, i => 0)

  lemma NoAttrs(attrs: seq<Attr>)
    ensures attrs[..0] == [] && AttrsBytes([]) == []
  {
  }

  /** The integrity attribute and, over everything so far, the fingerprint. */
  method Finish(m: Message, buf: array<byte>, pos: nat, ghost pad: seq<byte>, ghost was: seq<byte>,
                mac: seq<byte> -> Tag)
    returns (w: Written)
    requires Fits(m) && PadFor(m, pad) && |was| == buf.Length
    requires pos == |Body(m, pad)| && Filled(buf[..], was, Body(m, pad))
    modifies buf
    ensures w == if buf.Length < Size(m) - 8 then Failed(-3)
                 else if buf.Length < Size(m) then Failed(-4)
                 else Wrote(Size(m))
    ensures w.Wrote? ==> Filled(buf[..], was, Produced(m, pad, mac))
  {
    hide ToBe, AttrHeader, AttrFits, Fingerprint, Patched, Body, IntegrityInput, UserText, Size;
    ghost var body := Body(m, pad);
    ProducedSize(m, pad, mac);
    var length := pos - 20 + 24 + 8;
    var tag := TakeIntegrity(buf, length + 20, true, mac);
    SameInput(body, buf[..]);
    if buf.Length - pos < 24 {
      return Failed(-3);
    }
    Put(buf, pos, IntegrityBytes(tag), was, body);
    assert body + IntegrityBytes(tag) == Sealed(m, pad, mac);
    assert buf[..pos + 24] == Sealed(m, pad, mac);
    var mark := TakeFingerprint(buf[..pos + 24]);
    if buf.Length - pos - 24 < 8 {
      return Failed(-4);
    }
    Put(buf, pos + 24, FingerprintBytes(mark), was, Sealed(m, pad, mac));
    return Wrote(pos + 32);
  }

  /** `decode`: the attribute loop. */
  method DecodeMessage(d: seq<byte>) returns (r: Result<Received>)
    ensures r == Decode(d)
  {
    hide FromBe, ReadAttr, ReadFingerprint;
    if |d| < 20 {
      return Err(-1);
    }
    var kind := FromBe(d[..2]);
    if kind / 64 % 4 != 0 || FromBe(d[4..8]) != MAGIC_COOKIE {
      return Err(-1);
    }
    var attrs := DecodeAttrs(d);
    match attrs {
      case Err(c) => return Err(c);
      case Stuck => return Stuck;
      case Undefined => return Undefined;
      case Ok(v) =>
        var f := ReadFingerprint(d[20 + v.used..], v.parsed);
        match f {
          case Err(c) => return Err(c);
          case Stuck => return Stuck;
          case Undefined => return Undefined;
          case Ok(p) => return Ok(Received(kind, d[8..20], p));
        }
    }
  }

  /** One round of the attribute loop. */
  lemma OneRound(d: seq<byte>, pos: nat, p: Parsed)
    requires 20 <= pos < |d|
    ensures var one := ReadAttr(d[pos..], p);
            Shift(ReadAttrs(d[pos..], p), pos - 20)
            == if one.Ok? && one.value.parsed.integrity.None?
               then Shift(ReadAttrs(d[pos + one.value.used..], one.value.parsed), pos + one.value.used - 20)
               else Shift(one, pos - 20)
  {
    hide ReadAttr;
    var one := ReadAttr(d[pos..], p);
    if one.Ok? {
      assert d[pos..][one.value.used..] == d[pos + one.value.used..];
    }
  }

  lemma NoRound(d: seq<byte>, p: Parsed)
    requires d == []
    ensures ReadAttrs(d, p) == Ok(Round(p, 0))
  {
  }

  method DecodeAttrs(d: seq<byte>) returns (r: Result<Round>)
    requires |d| >= 20
    ensures r == ReadAttrs(d[20..], Parsed(None, [], None, None))
  {
    hide ReadAttr, ReadAttrs;
    var p := Parsed(None, [], None, None);
    var pos := 20;
    while pos < |d|
      invariant 20 <= pos <= |d|
      invariant Shift(ReadAttrs(d[pos..], p), pos - 20) == ReadAttrs(d[20..], Parsed(None, [], None, None))
    {
      OneRound(d, pos, p);
      var one := ReadAttr(d[pos..], p);
      match one {
        case Err(c) => return Err(c);
        case Stuck => return Stuck;
        case Undefined => return Undefined;
        case Ok(v) =>
          p := v.parsed;
          pos := pos + v.used;
          if p.integrity.Some? {
            return Ok(Round(p, pos - 20));
          }
      }
    }
    NoRound(d[pos..], p);
    return Ok(Round(p, pos - 20));
  }
}
