/** Protected DTLS records: content, MAC and padding under a block cipher. The MAC and the
    cipher under fixed keys are functions given to the model. */
module DtlsRecord {
  import opened Bytes

  const HEADER_SIZE := 13
  const IV_SIZE := 16
  const BLOCK_SIZE := 16
  const MAC_SIZE := 20

  /** One direction of the connection: HMAC-SHA1 and AES-128-CBC with the keys put in. */
  datatype Suite = Suite(
    mac: seq<byte> -> Tag,
    encrypt: (seq<byte>, seq<byte>) -> seq<byte>,
    decrypt: (seq<byte>, seq<byte>) -> seq<byte>)

  /** Decryption undoes encryption of whole blocks, and encryption keeps their length. */
  ghost predicate Inverse(s: Suite) {
    forall iv, x :: |x| % BLOCK_SIZE == 0 ==>
      |s.encrypt(iv, x)| == |x| && s.decrypt(iv, s.encrypt(iv, x)) == x
  }

  // ------------------------------------------------------------------
  // The header

  datatype Header = Header(contentType: byte, major: byte, minor: byte, epoch: nat, number: nat, length: nat)

  function HeaderBytes(h: Header): (s: seq<byte>)
    ensures |s| == HEADER_SIZE
  {
    [h.contentType, h.major, h.minor] + ToBe(h.epoch, 2) + ToBe(h.number, 6) + ToBe(h.length, 2)
  }

  datatype HeaderResult = Read(header: Header) | Short(code: int)

  function DecodeHeader(d: seq<byte>): HeaderResult {
    if |d| < 1 then Short(-1)
    else if |d| < 3 then Short(-2)
    else if |d| < 5 then Short(-3)
    else if |d| < 11 then Short(-4)
    else if |d| < 13 then Short(-3)
    else Read(Header(d[0], d[1], d[2], FromBe(d[3..5]), FromBe(d[5..11]), FromBe(d[11..13])))
  }

  /** What a header is after it has been written and read: every field cut to its width. */
  function Cut(h: Header): Header {
    h.(epoch := h.epoch % 0x1_0000, number := h.number % 0x1_0000_0000_0000, length := h.length % 0x1_0000)
  }

  /** A header comes back with every field cut to its width. */
  lemma HeaderRoundTrip(h: Header, rest: seq<byte>)
    ensures DecodeHeader(HeaderBytes(h) + rest) == Read(Cut(h))
  {
    hide ToBe, FromBe;
    var d := HeaderBytes(h) + rest;
    Pow256Values();
    assert d[3..5] == ToBe(h.epoch, 2);
    assert d[5..11] == ToBe(h.number, 6);
    assert d[11..13] == ToBe(h.length, 2);
    BeWraps(h.epoch, 2);
    BeRoundTrip(h.epoch % Pow256(2), 2);
    BeWraps(h.number, 6);
    BeRoundTrip(h.number % Pow256(6), 6);
    BeWraps(h.length, 2);
    BeRoundTrip(h.length % Pow256(2), 2);
  }

  // ------------------------------------------------------------------
  // The plaintext: content, MAC, padding

  function BlockedSize(n: nat): nat {
    ((n + MAC_SIZE) / BLOCK_SIZE + 1) * BLOCK_SIZE
  }

  function PaddingLength(n: nat): (k: nat)
    ensures 1 <= k <= 16 && (n + MAC_SIZE + k) % BLOCK_SIZE == 0
  {
    BlockedSize(n) - n - MAC_SIZE
  }

  function Padding(k: nat): (s: seq<byte>)
    requires 1 <= k <= 16
    ensures |s| == k
    ensures forall i :: 0 <= i < k ==> s[i] == k - 1
  {
    var b: byte := k - 1;
    seq(k, i => b)
  }

  function Layout(content: seq<byte>, mac: Tag): (s: seq<byte>)
    ensures |s| == BlockedSize(|content|) && |s| % BLOCK_SIZE == 0
    ensures content + mac <= s
  {
    content + mac + Padding(PaddingLength(|content|))
  }

  /** What the receiver takes a plaintext apart into. The last byte counts the padding bytes in
      front of it; their values are not looked at. A plaintext too short for what it claims is
      read outside its bounds. */
  datatype Parts = Parts(content: seq<byte>, mac: seq<byte>) | OutOfBounds

  function Unpack(out: seq<byte>): Parts {
    if out == [] || |out| - 1 - out[|out| - 1] < MAC_SIZE then OutOfBounds
    else
      var end := |out| - 1 - out[|out| - 1];
      Parts(out[..end - MAC_SIZE], out[end - MAC_SIZE..end])
  }

  lemma UnpackLayout(content: seq<byte>, mac: Tag)
    ensures Unpack(Layout(content, mac)) == Parts(content, mac)
  {
    hide PaddingLength;
    var s := Layout(content, mac);
    var k := PaddingLength(|content|);
    assert s[|s| - 1] == Padding(k)[k - 1];
    assert s[..|content|] == content;
    assert s[|content|..|content| + MAC_SIZE] == mac;
  }

  /** Exactly the plaintexts the receiver takes apart into given parts. */
  lemma UnpackIff(out: seq<byte>, content: seq<byte>, mac: Tag)
    ensures Unpack(out) == Parts(content, mac) <==> Tail(out, content, mac)
  {
    if Unpack(out) == Parts(content, mac) {
      var end := |out| - 1 - out[|out| - 1];
      assert out == out[..end - MAC_SIZE] + out[end - MAC_SIZE..end] + out[end..];
    }
    if Tail(out, content, mac) {
      var n := |content| + MAC_SIZE;
      assert out[|out| - 1] == |out| - n - 1;
      assert out[..|content|] == content && out[|content|..n] == mac;
    }
  }

  /** The parts come first and the last byte counts the rest, itself left out. */
  predicate Tail(out: seq<byte>, content: seq<byte>, mac: Tag) {
    content + mac < out && out[|out| - 1] == |out| - |content| - MAC_SIZE - 1
  }

  /** The sender fills its buffer from the end. */
  method FillPlaintext(content: seq<byte>, mac: Tag) returns (plain: array<byte>)
    ensures fresh(plain) && plain[..] == Layout(content, mac)
  {
    var size := IV_SIZE + BlockedSize(|content|);
    var padding := size - IV_SIZE - |content| - MAC_SIZE;
    assert padding == PaddingLength(|content|);
    hide PaddingLength, BlockedSize, Padding;
    var value: byte := padding - 1;
    plain := new byte[size - IV_SIZE](i => 0);
    var pos := plain.Length - padding;
    forall i | pos <= i < plain.Length {
      plain[i] := value;
    }
    pos := pos - MAC_SIZE;
    forall i | 0 <= i < MAC_SIZE {
      plain[pos + i] := mac[i];
    }
    pos := pos - |content|;
    forall i | 0 <= i < |content| {
      plain[pos + i] := content[i];
    }
    assert plain[..] == content + mac + Padding(padding);
  }

  // ------------------------------------------------------------------
  // Whole records

  /** The bytes the MAC covers; the length of the content is kept in 16 bits. */
  function MacInput(h: Header, content: seq<byte>): seq<byte> {
    ToBe(h.epoch, 2) + ToBe(h.number, 6) + [h.contentType] + [h.major, h.minor]
    + ToBe(|content|, 2) + content[..|content| % 0x1_0000]
  }

  /** Section 6.2.3.1 of RFC 5246 with section 4.1.2.1 of RFC 6347: epoch and number, type, version,
      length, content; the first four as they stand in the record's own header. */
  lemma MacCovers(h: Header, content: seq<byte>)
    requires |content| < 0x1_0000
    ensures var head := HeaderBytes(h);
            MacInput(h, content) == head[3..11] + head[0..1] + head[1..3] + ToBe(|content|, 2) + content
  {
    hide ToBe;
    var e, n := ToBe(h.epoch, 2), ToBe(h.number, 6);
    HeaderParts([h.contentType, h.major, h.minor], e, n, ToBe(h.length, 2));
    WholeContent(content);
    var head := HeaderBytes(h);
    assert head[3..11] == e + n && head[0..1] == [h.contentType] && head[1..3] == [h.major, h.minor];
  }

  lemma WholeContent(content: seq<byte>)
    requires |content| < 0x1_0000
    ensures content[..|content| % 0x1_0000] == content
  {
  }

  lemma HeaderParts(a: seq<byte>, e: seq<byte>, n: seq<byte>, l: seq<byte>)
    requires |a| == 3 && |e| == 2 && |n| == 6
    ensures var head := a + e + n + l;
            head[3..11] == e + n && head[0..1] == [a[0]] && head[1..3] == [a[1], a[2]]
  {
  }

  function Seal(s: Suite, h: Header, iv: seq<byte>, content: seq<byte>): seq<byte> {
    HeaderBytes(h.(length := IV_SIZE + BlockedSize(|content|)))
    + iv + s.encrypt(iv, Layout(content, s.mac(MacInput(h, content))))
  }

  datatype Opened = Opened(header: Header, content: seq<byte>, consumed: nat) | Refused(code: int) | Undefined

  /** The length field says how much to decrypt; it is not compared with what has arrived. */
  function Open(s: Suite, d: seq<byte>): Opened {
    var r := DecodeHeader(d);
    if r.Short? then Refused(-1)
    else if |d| < HEADER_SIZE + IV_SIZE then Refused(-2)
    else if r.header.length < IV_SIZE || |d| < HEADER_SIZE + r.header.length then Undefined
    else
      var iv := d[HEADER_SIZE..HEADER_SIZE + IV_SIZE];
      var parts := Unpack(s.decrypt(iv, d[HEADER_SIZE + IV_SIZE..HEADER_SIZE + r.header.length]));
      if parts.OutOfBounds? then Undefined
      else if s.mac(MacInput(r.header, parts.content)) != parts.mac then Refused(-2)
      else Opened(r.header, parts.content, HEADER_SIZE + r.header.length)
  }

  /** The length field of a record tells its real length exactly when the whole fits in 16 bits. */
  lemma LengthFieldIff(h: Header, n: nat)
    ensures Cut(h.(length := IV_SIZE + BlockedSize(n))).length == IV_SIZE + BlockedSize(n) <==> n <= 65483
  {
  }

  /** Every record that fits, followed by anything, opens under the same keys: same content,
      same header, and exactly its own bytes are consumed. */
  lemma RecordRoundTrip(s: Suite, h: Header, iv: seq<byte>, content: seq<byte>, rest: seq<byte>)
    requires Inverse(s) && |iv| == IV_SIZE && |content| <= 65483
    requires Cut(h).epoch == h.epoch && Cut(h).number == h.number
    ensures var sealed := Seal(s, h, iv, content);
            Open(s, sealed + rest)
            == Opened(h.(length := IV_SIZE + BlockedSize(|content|)), content, |sealed|)
  {
    hide ToBe, FromBe, HeaderBytes, DecodeHeader, MacInput, Layout, Unpack, BlockedSize;
    var mac := s.mac(MacInput(h, content));
    var plain := Layout(content, mac);
    var full := h.(length := IV_SIZE + BlockedSize(|content|));
    var sealed := Seal(s, h, iv, content);
    var code := s.encrypt(iv, plain);
    var head := HeaderBytes(full);
    LengthFieldIff(h, |content|);
    assert Cut(full) == full;
    assert sealed + rest == head + (iv + code + rest);
    HeaderRoundTrip(full, iv + code + rest);
    assert |code| == |plain|;
    Slices(head, iv, code, rest);
    UnpackLayout(content, mac);
    MacIgnoresLength(h, full, content);
  }

  lemma Slices(head: seq<byte>, iv: seq<byte>, code: seq<byte>, rest: seq<byte>)
    requires |head| == HEADER_SIZE && |iv| == IV_SIZE
    ensures var d := head + iv + code + rest;
            && d[HEADER_SIZE..HEADER_SIZE + IV_SIZE] == iv
            && d[HEADER_SIZE + IV_SIZE..HEADER_SIZE + IV_SIZE + |code|] == code
  {
  }

  lemma MacIgnoresLength(h: Header, g: Header, content: seq<byte>)
    requires g == h.(length := g.length)
    ensures MacInput(h, content) == MacInput(g, content)
  {
  }
}
