/** Encrypted group text packets: frame layout, padding, ECB block by block, truncated MAC, lookup of
    the key by hash byte, and the parser of the decrypted text. SHA-256, HMAC (section 2 of RFC 2104)
    and the AES block cipher (FIPS 197, in the mode of section 6.1 of NIST SP 800-38A) are abstract. */
module GroupText {
  import opened Common
  import opened JsText
  import opened Utf8

  datatype Crypto = Crypto(
    sha: seq<byte> -> seq<byte>,
    hmac: (seq<byte>, seq<byte>) -> seq<byte>,
    enc: (seq<byte>, seq<byte>) -> seq<byte>,
    dec: (seq<byte>, seq<byte>) -> seq<byte>)

  /** Digest sizes, and decryption of a block inverts encryption under the same key. */
  ghost predicate Sound(c: Crypto) {
    && (forall m :: |c.sha(m)| == 32)
    && (forall k, m :: |c.hmac(k, m)| == 32)
    && forall k, b :: |k| == 16 && |b| == 16 ==> |c.enc(k, b)| == 16 && c.dec(k, c.enc(k, b)) == b
  }

  // ---- hexadecimal ----

  function HexDigit(d: nat): (c: char)
    requires d < 16
    ensures HexValue(c) == Some(d)
  {
    if d < 10 then '0' + d as char else 'a' + (d - 10) as char
  }

  function HexValue(c: char): (v: Option<nat>)
    ensures v.Some? ==> v.value < 16
  {
    if '0' <= c <= '9' then Some(c as int - '0' as int)
    else if 'a' <= c <= 'f' then Some(c as int - 'a' as int + 10)
    else if 'A' <= c <= 'F' then Some(c as int - 'A' as int + 10)
    else None
  }

  function ToHex(b: seq<byte>): (s: string) {
    if b == [] then "" else [HexDigit(b[0] / 16), HexDigit(b[0] % 16)] + ToHex(b[1..])
  }

  /** `parseInt` of two characters in base 16, stored into a byte. */
  function PairValue(c: char, d: char): (b: byte) {
    match (HexValue(c), HexValue(d))
    case (Some(x), Some(y)) => x * 16 + y
    case (Some(x), None) => x
    case (None, Some(y)) =>
      if IsSpace(c) || c == '+' then y else if c == '-' then (256 - y) % 256 else 0
    case (None, None) => 0
  }

  function FromHex(s: string): (b: seq<byte>) {
    if |s| < 2 then [] else [PairValue(s[0], s[1])] + FromHex(s[2..])
  }

  lemma {:induction false} HexRoundTrip(b: seq<byte>)
    ensures FromHex(ToHex(b)) == b && |ToHex(b)| == 2 * |b|
  {
    if b != [] {
      HexRoundTrip(b[1..]);
      assert ToHex(b)[2..] == ToHex(b[1..]);
    }
  }

  // ---- the frame ----

  function Zeros(n: nat): (z: seq<byte>)
    ensures |z| == n
  {
    seq(n, _ => 0)
  }

  function LittleEndian(n: nat): (b: seq<byte>)
    requires n < 0x1_0000_0000
    ensures |b| == 4
  {
    [n % 256, n / 256 % 256, n / 65536 % 256, n / 16777216]
  }

  function PaddedLength(n: nat): (p: nat)
    ensures p % 16 == 0 && n <= p < n + 16
  {
    (n + 15) / 16 * 16
  }

  /** Timestamp, flags, text, at least one zero byte, up to a multiple of the block size. */
  function Plaintext(ts: nat, text: string): (pt: seq<byte>)
    requires ts < 0x1_0000_0000
    ensures |pt| > 0 && |pt| % 16 == 0
  {
    var body := EncodeAll(text);
    LittleEndian(ts) + [0] + body + Zeros(PaddedLength(5 + |body| + 1) - 5 - |body|)
  }

  /** A block function applied to each 16-byte block. */
  function Ecb(f: seq<byte> -> seq<byte>, data: seq<byte>): (r: seq<byte>) {
    if |data| < 16 then [] else f(data[..16]) + Ecb(f, data[16..])
  }

  function Secret(key: seq<byte>): (s: seq<byte>) { key + Zeros(16) }

  datatype Payload = Payload(hash: byte, mac: string, data: string)

  function ChannelKey(c: Crypto, name: string): (key: seq<byte>)
    requires |c.sha(EncodeAll(name))| == 32
  {
    c.sha(EncodeAll(name))[..16]
  }

  function HashByte(c: Crypto, key: seq<byte>): (h: byte)
    requires |c.sha(key)| == 32
  {
    c.sha(key)[0]
  }

  ghost function Sealed(c: Crypto, key: seq<byte>, ts: nat, text: string): (p: Payload)
    requires Sound(c) && ts < 0x1_0000_0000
  {
    var ct := Ecb(b => c.enc(key, b), Plaintext(ts, text));
    Payload(HashByte(c, key), ToHex(c.hmac(Secret(key), ct)[..2]), ToHex(ct))
  }

  /** Copies bytes into a buffer. */
  method Write(pt: array<byte>, at: nat, bytes: seq<byte>)
    requires at + |bytes| <= pt.Length
    modifies pt
    ensures forall j :: 0 <= j < pt.Length ==>
              pt[j] == if at <= j < at + |bytes| then bytes[j - at] else old(pt[j])
  {
    for i := 0 to |bytes|
      invariant forall j :: 0 <= j < pt.Length ==> pt[j] == if at <= j < at + i then bytes[j - at] else old(pt[j])
    {
      pt[at + i] := bytes[i];
    }
  }

  /** Writes the frame into a zeroed buffer: timestamp, flags, text. */
  method WriteFrame(ts: nat, text: string) returns (pt: array<byte>)
    requires ts < 0x1_0000_0000
    ensures fresh(pt) && pt[..] == Plaintext(ts, text)
  {
    var body := EncodeAll(text);
    pt := new byte[PaddedLength(5 + |body| + 1)](_ => 0);
    Write(pt, 0, LittleEndian(ts));
    pt[4] := 0;
    Write(pt, 5, body);
  }

  /** Frames, encrypts and signs a message. */
  method BuildEncryptedGrpTxt(c: Crypto, channelName: string, sender: string, message: string, ts: nat)
    returns (p: Payload, keyHex: string)
    requires Sound(c) && ts < 0x1_0000_0000
    ensures p == Sealed(c, ChannelKey(c, channelName), ts, sender + ": " + message)
    ensures keyHex == ToHex(ChannelKey(c, channelName))
  {
    var key := ChannelKey(c, channelName);
    var pt := WriteFrame(ts, sender + ": " + message);
    var ct := Ecb(b => c.enc(key, b), pt[..]);
    var mac := c.hmac(Secret(key), ct)[..2];
    return Payload(HashByte(c, key), ToHex(mac), ToHex(ct)), ToHex(key);
  }

  // ---- parsing the decrypted text ----

  /** Number of bytes before the first zero byte. */
  function FirstZero(b: seq<byte>): (n: nat)
    ensures n <= |b| && (n < |b| ==> b[n] == 0) && forall i :: 0 <= i < n ==> b[i] != 0
  {
    if b == [] || b[0] == 0 then 0 else 1 + FirstZero(b[1..])
  }

  function DropBom(s: string): (r: string) { if s != "" && s[0] == '\U{FEFF}' then s[1..] else s }

  predicate Control(ch: char) { ch as int < 32 && ch != '\n' && ch != '\r' && ch != '\t' }

  function NonPrintable(s: string): (n: nat) {
    if s == "" then 0 else (if Control(s[0]) then 1 else 0) + NonPrintable(s[1..])
  }

  /** Length in UTF-16 code units, which is what JavaScript indices count. */
  function Utf16Length(s: string): (n: nat)
    ensures n >= |s|
  {
    if s == "" then 0 else (if s[0] as int >= 0x10000 then 2 else 1) + Utf16Length(s[1..])
  }

  /** Number of characters before the first `": "`, or the whole length. */
  function ColonIndex(s: string): (i: nat)
    ensures i <= |s|
    ensures i < |s| ==> i + 1 < |s| && s[i] == ':' && s[i + 1] == ' '
  {
    if s == "" then 0
    else if |s| >= 2 && s[0] == ':' && s[1] == ' ' then 0
    else 1 + ColonIndex(s[1..])
  }

  predicate PlainSender(s: string) { ':' !in s && '[' !in s && ']' !in s }

  datatype Parsed = Parsed(timestamp: int, flags: byte, sender: string, message: string)

  function ParseText(timestamp: int, flags: byte, text: string): (r: Option<Parsed>) {
    if NonPrintable(text) > 2 then None
    else
      var i := ColonIndex(text);
      if i < |text| && 0 < Utf16Length(text[..i]) < 50 && PlainSender(text[..i])
      then Some(Parsed(timestamp, flags, text[..i], text[i + 2..]))
      else Some(Parsed(timestamp, flags, "", text))
  }

  /** `a | b << 8 | c << 16 | d << 24`: bitwise operators yield a signed 32-bit number. */
  function SignedTimestamp(b: seq<byte>): (t: int)
    requires |b| == 4
  {
    var n := b[0] + 256 * (b[1] as int) + 65536 * (b[2] as int) + 16777216 * (b[3] as int);
    if n < 0x8000_0000 then n else n - 0x1_0000_0000
  }

  function ParsePlaintext(pt: seq<byte>): (r: Option<Parsed>) {
    if |pt| < 5 then None
    else
      var body := pt[5..];
      ParseText(SignedTimestamp(pt[..4]), pt[4], DropBom(Decode(body[..FirstZero(body)])))
  }

  // ---- decrypting a live packet ----

  function VerifyMac(c: Crypto, key: seq<byte>, ct: seq<byte>, macHex: string): (ok: bool) {
    var sig, mac := c.hmac(Secret(key), ct), FromHex(macHex);
    |sig| >= 2 && |mac| >= 2 && sig[0] == mac[0] && sig[1] == mac[1]
  }

  function Decrypt(c: Crypto, key: seq<byte>, macHex: string, dataHex: string): (r: Option<Parsed>) {
    var ct := FromHex(dataHex);
    if |ct| == 0 || |ct| % 16 != 0 then None
    else if !VerifyMac(c, key, ct, macHex) then None
    else ParsePlaintext(Ecb(b => c.dec(key, b), ct))
  }

  datatype KeyEntry = KeyEntry(name: string, key: seq<byte>)

  datatype Stored = Stored(name: string, keyHex: string)

  predicate Usable(s: Stored) { s.keyHex != "" && |FromHex(s.keyHex)| == 16 }

  ghost function KeyMap(c: Crypto, stored: seq<Stored>): (m: map<byte, KeyEntry>)
    requires Sound(c)
  {
    if stored == [] then map[]
    else
      var m, s := KeyMap(c, stored[..|stored| - 1]), stored[|stored| - 1];
      var key := FromHex(s.keyHex);
      if Usable(s) && HashByte(c, key) !in m then m[HashByte(c, key) := KeyEntry(s.name, key)] else m
  }

  /** The index from hash byte to key; on a collision the first stored key wins. */
  method BuildKeyMap(c: Crypto, stored: seq<Stored>) returns (m: map<byte, KeyEntry>)
    requires Sound(c)
    ensures m == KeyMap(c, stored)
  {
    m := map[];
    for i := 0 to |stored|
      invariant m == KeyMap(c, stored[..i])
    {
      assert stored[..i + 1][..i] == stored[..i];
      if stored[i].keyHex == "" { continue; }
      var key := FromHex(stored[i].keyHex);
      if |key| != 16 { continue; }
      var h := HashByte(c, key);
      if h !in m { m := m[h := KeyEntry(stored[i].name, key)]; }
    }
    assert stored[..|stored|] == stored;
  }

  datatype LiveText = LiveText(sender: string, text: string, channelName: string, hash: byte, timestamp: Option<int>)

  function TryDecryptLive(c: Crypto, p: Payload, keys: map<byte, KeyEntry>): (r: Option<LiveText>) {
    if p.data == "" || p.mac == "" || p.hash !in keys then None
    else match Decrypt(c, keys[p.hash].key, p.mac, p.data)
      case None => None
      case Some(q) =>
        Some(LiveText(if q.sender != "" then q.sender else "Unknown", q.message, keys[p.hash].name, p.hash,
                      if q.timestamp != 0 then Some(q.timestamp) else None))
  }

  // ---- the pieces of the round trip ----

  lemma {:induction false} EcbInverts(f: seq<byte> -> seq<byte>, g: seq<byte> -> seq<byte>, data: seq<byte>)
    requires |data| % 16 == 0
    requires forall b :: |b| == 16 ==> |f(b)| == 16 && g(f(b)) == b
    ensures |Ecb(f, data)| == |data| && Ecb(g, Ecb(f, data)) == data
  {
    if data != [] {
      EcbInverts(f, g, data[16..]);
      var ct := Ecb(f, data);
      assert ct[..16] == f(data[..16]) && ct[16..] == Ecb(f, data[16..]);
      assert data == data[..16] + data[16..];
    }
  }

  /** Seconds since 1970 come back as a signed 32-bit number. */
  lemma TimestampWraps(ts: nat)
    requires ts < 0x1_0000_0000
    ensures SignedTimestamp(LittleEndian(ts)) == if ts < 0x8000_0000 then ts else ts - 0x1_0000_0000
  {
    BaseDigits(ts);
  }

  lemma BaseDigits(n: nat)
    ensures n % 256 + 256 * (n / 256 % 256) + 65536 * (n / 65536 % 256) + 16777216 * (n / 16777216) == n
  {
    assert n / 65536 == n / 256 / 256 && n / 16777216 == n / 65536 / 256;
  }

  function NulIndex(s: string): (n: nat)
    ensures n <= |s| && '\0' !in s[..n]
    ensures n < |s| ==> s[n] == '\0'
  {
    if s == "" || s[0] == '\0' then 0 else
      assert forall n :: 0 <= n <= |s[1..]| ==> s[..n + 1] == [s[0]] + s[1..][..n];
      1 + NulIndex(s[1..])
  }

  /** What of a text reaches the parser: up to the first NUL, without a leading byte order mark. */
  function Delivered(text: string): (r: string) { DropBom(text[..NulIndex(text)]) }

  lemma {:induction false} FirstZeroAfter(b: seq<byte>, rest: seq<byte>)
    requires forall i :: 0 <= i < |b| ==> b[i] != 0
    requires rest != [] && rest[0] == 0
    ensures FirstZero(b + rest) == |b|
  {
    if b == [] {
      assert b + rest == rest;
    } else {
      assert (b + rest)[1..] == b[1..] + rest;
      FirstZeroAfter(b[1..], rest);
    }
  }

  /** Zero bytes cut the encoded text at its first NUL. */
  lemma BodyCut(head: string, tail: string, pad: seq<byte>)
    requires '\0' !in head && (tail == "" || tail[0] == '\0') && pad != [] && pad[0] == 0
    ensures var body := EncodeAll(head + tail) + pad; body[..FirstZero(body)] == EncodeAll(head)
  {
    ZeroFirst(tail, pad);
    NoZeroByte(head);
    BodyParts(head, tail, pad);
    CutBefore(EncodeAll(head + tail) + pad, EncodeAll(head), EncodeAll(tail) + pad);
  }

  lemma BodyParts(head: string, tail: string, pad: seq<byte>)
    ensures EncodeAll(head + tail) + pad == EncodeAll(head) + (EncodeAll(tail) + pad)
  {
    EncodeAppend(head, tail);
    Reassociate(EncodeAll(head), EncodeAll(tail), pad);
  }

  lemma Reassociate(a: seq<byte>, b: seq<byte>, c: seq<byte>)
    ensures (a + b) + c == a + (b + c)
  {
  }

  lemma CutBefore(body: seq<byte>, b: seq<byte>, rest: seq<byte>)
    requires body == b + rest
    requires (forall i :: 0 <= i < |b| ==> b[i] != 0) && rest != [] && rest[0] == 0
    ensures body[..FirstZero(body)] == b
  {
    FirstZeroAfter(b, rest);
  }

  lemma ZeroFirst(tail: string, pad: seq<byte>)
    requires (tail == "" || tail[0] == '\0') && pad != [] && pad[0] == 0
    ensures var rest := EncodeAll(tail) + pad; rest != [] && rest[0] == 0
  {
  }

  lemma BodyDelivered(text: string, pad: seq<byte>)
    requires pad != [] && pad[0] == 0
    ensures var body := EncodeAll(text) + pad; Decode(body[..FirstZero(body)]) == text[..NulIndex(text)]
  {
    var n := NulIndex(text);
    assert text == text[..n] + text[n..];
    BodyCut(text[..n], text[n..], pad);
    RoundTrip(text[..n]);
  }

  lemma PlaintextDelivered(ts: nat, text: string)
    requires ts < 0x1_0000_0000
    ensures ParsePlaintext(Plaintext(ts, text)) == ParseText(SignedTimestamp(LittleEndian(ts)), 0, Delivered(text))
  {
    var pt, body := Plaintext(ts, text), EncodeAll(text);
    var pad := Zeros(PaddedLength(5 + |body| + 1) - 5 - |body|);
    assert pt[..4] == LittleEndian(ts) && pt[4] == 0 && pt[5..] == body + pad;
    BodyDelivered(text, pad);
  }

  /** The MAC matches, ECB inverts, and the parser sees the delivered text. */
  lemma DecryptSealed(c: Crypto, key: seq<byte>, ts: nat, text: string)
    requires Sound(c) && |key| == 16 && ts < 0x1_0000_0000
    ensures var p := Sealed(c, key, ts, text);
            && p.data != "" && p.mac != ""
            && Decrypt(c, key, p.mac, p.data) == ParseText(SignedTimestamp(LittleEndian(ts)), 0, Delivered(text))
  {
    var pt := Plaintext(ts, text);
    var f, g := (b: seq<byte>) => c.enc(key, b), (b: seq<byte>) => c.dec(key, b);
    EcbInverts(f, g, pt);
    var ct := Ecb(f, pt);
    var sig := c.hmac(Secret(key), ct);
    HexRoundTrip(ct);
    HexRoundTrip(sig[..2]);
    PlaintextDelivered(ts, text);
  }

  lemma {:induction false} KeyMapFirst(c: Crypto, stored: seq<Stored>, i: nat)
    requires Sound(c) && i < |stored| && Usable(stored[i])
    requires forall j :: 0 <= j < i && Usable(stored[j]) ==>
               HashByte(c, FromHex(stored[j].keyHex)) != HashByte(c, FromHex(stored[i].keyHex))
    ensures var key := FromHex(stored[i].keyHex);
            && HashByte(c, key) in KeyMap(c, stored)
            && KeyMap(c, stored)[HashByte(c, key)] == KeyEntry(stored[i].name, key)
  {
    var last := |stored| - 1;
    if i < last {
      KeyMapFirst(c, stored[..last], i);
    } else {
      KeyMapAbsent(c, stored[..last], HashByte(c, FromHex(stored[i].keyHex)));
    }
  }

  lemma {:induction false} KeyMapAbsent(c: Crypto, stored: seq<Stored>, h: byte)
    requires Sound(c)
    requires forall j :: 0 <= j < |stored| && Usable(stored[j]) ==> HashByte(c, FromHex(stored[j].keyHex)) != h
    ensures h !in KeyMap(c, stored)
  {
    if stored != [] { KeyMapAbsent(c, stored[..|stored| - 1], h); }
  }

  // ---- when sender and text come back ----

  /** What the receiver can tell apart again. */
  predicate Readable(sender: string, message: string) {
    && sender != "" && Utf16Length(sender) < 50 && PlainSender(sender) && sender[0] != '\U{FEFF}'
    && '\0' !in sender && '\0' !in message
    && NonPrintable(sender + ": " + message) <= 2
  }

  function Shown(q: Parsed): (r: (string, string)) {
    (if q.sender != "" then q.sender else "Unknown", q.message)
  }

  lemma {:induction false} ColonAfter(sender: string, rest: string)
    requires ':' !in sender && |rest| >= 2 && rest[0] == ':' && rest[1] == ' '
    ensures ColonIndex(sender + rest) == |sender|
  {
    if sender == "" {
      assert sender + rest == rest;
    } else {
      assert sender[0] in sender;
      assert (sender + rest)[1..] == sender[1..] + rest;
      ColonAfter(sender[1..], rest);
    }
  }

  lemma DeliveredWhole(text: string)
    ensures |Delivered(text)| <= |text|
    ensures Delivered(text) == text <==> '\0' !in text && (text == "" || text[0] != '\U{FEFF}')
  {
    var n := NulIndex(text);
    if n < |text| { assert '\0' in text; } else { assert text[..n] == text; }
    if text != "" && n > 0 { assert text[..n][0] == text[0]; }
  }

  lemma ReadableComesBack(timestamp: int, sender: string, message: string)
    requires Readable(sender, message)
    ensures ParseText(timestamp, 0, Delivered(sender + ": " + message)) == Some(Parsed(timestamp, 0, sender, message))
  {
    var text := sender + ": " + message;
    assert '\0' !in text && text[0] == sender[0];
    DeliveredWhole(text);
    assert text == sender + (": " + message);
    ColonAfter(sender, ": " + message);
    assert text[..|sender|] == sender && text[|sender| + 2..] == message;
  }

  lemma SplitText(text: string, i: nat)
    requires i + 1 < |text| && text[i] == ':' && text[i + 1] == ' '
    ensures text == text[..i] + ": " + text[i + 2..]
  {}

  lemma PartsOf(sender: string, message: string)
    requires '\0' !in sender + ": " + message
    ensures '\0' !in sender && '\0' !in message
  {
    var text := sender + ": " + message;
    assert text[..|sender|] == sender && text[|sender| + 2..] == message;
  }

  lemma OnlyReadableComesBack(timestamp: int, sender: string, message: string)
    requires var r := ParseText(timestamp, 0, Delivered(sender + ": " + message));
             r.Some? && Shown(r.value) == (sender, message)
    ensures Readable(sender, message)
  {
    var text := sender + ": " + message;
    var seen := Delivered(text);
    var q := ParseText(timestamp, 0, seen).value;
    DeliveredWhole(text);
    if q.sender != "" {
      SplitText(seen, ColonIndex(seen));
      assert seen == text && text[0] == sender[0];
      PartsOf(sender, message);
    } else {
      UnknownNeverMatches(message);
      assert false;
    }
  }

  /** A text without a readable sender is shown under a stock name, and never as sent. */
  lemma UnknownNeverMatches(message: string)
    ensures Delivered("Unknown" + ": " + message) != message
  {
    var text := "Unknown" + ": " + message;
    var n := NulIndex(text);
    assert text[0] == 'U' && text[9..] == message;
    if n > 0 { assert text[..n][0] == 'U'; }
    assert Delivered(text) == text[..n];
    assert n < |text| ==> '\0' in text[9..] || n < 9;
  }

  /** The stored keys give `name` as the channel of packets under its key. */
  ghost predicate Filed(c: Crypto, stored: seq<Stored>, name: string)
    requires Sound(c)
  {
    exists i :: 0 <= i < |stored| && stored[i] == Stored(name, ToHex(ChannelKey(c, name)))
      && forall j :: 0 <= j < i && Usable(stored[j]) ==>
           HashByte(c, FromHex(stored[j].keyHex)) != HashByte(c, ChannelKey(c, name))
  }

  lemma FiledKey(c: Crypto, stored: seq<Stored>, name: string)
    requires Sound(c) && Filed(c, stored, name)
    ensures var key := ChannelKey(c, name);
            HashByte(c, key) in KeyMap(c, stored) && KeyMap(c, stored)[HashByte(c, key)] == KeyEntry(name, key)
  {
    var key := ChannelKey(c, name);
    HexRoundTrip(key);
    var i :| 0 <= i < |stored| && stored[i] == Stored(name, ToHex(key))
             && forall j :: 0 <= j < i && Usable(stored[j]) ==>
                              HashByte(c, FromHex(stored[j].keyHex)) != HashByte(c, key);
    KeyMapFirst(c, stored, i);
  }

  /** Encode-then-decrypt recovers sender and text exactly if they are readable, and the timestamp
      exactly if it fits in 31 bits and is not zero. */
  lemma RoundTripIff(c: Crypto, stored: seq<Stored>, name: string, sender: string, message: string, ts: nat)
    requires Sound(c) && ts < 0x1_0000_0000 && Filed(c, stored, name)
    ensures var key := ChannelKey(c, name);
            var r := TryDecryptLive(c, Sealed(c, key, ts, sender + ": " + message), KeyMap(c, stored));
            && (r.Some? && (r.value.sender, r.value.text) == (sender, message) <==> Readable(sender, message))
            && (Readable(sender, message) ==>
                  && r.value.channelName == name && r.value.hash == HashByte(c, key)
                  && (r.value.timestamp == Some(ts) <==> 0 < ts < 0x8000_0000))
  {
    var key := ChannelKey(c, name);
    var text := sender + ": " + message;
    FiledKey(c, stored, name);
    DecryptSealed(c, key, ts, text);
    TimestampWraps(ts);
    var parsed := ParseText(SignedTimestamp(LittleEndian(ts)), 0, Delivered(text));
    if Readable(sender, message) {
      ReadableComesBack(SignedTimestamp(LittleEndian(ts)), sender, message);
    } else if parsed.Some? && Shown(parsed.value) == (sender, message) {
      OnlyReadableComesBack(SignedTimestamp(LittleEndian(ts)), sender, message);
    }
  }

  // ---- when another stored key has the same hash byte ----

  /** A packet under a hash byte that no usable stored key has is not shown. */
  lemma UnknownHashHidden(c: Crypto, stored: seq<Stored>, key: seq<byte>, ts: nat, text: string)
    requires Sound(c) && |key| == 16 && ts < 0x1_0000_0000
    requires forall j :: 0 <= j < |stored| && Usable(stored[j]) ==>
               HashByte(c, FromHex(stored[j].keyHex)) != HashByte(c, key)
    ensures TryDecryptLive(c, Sealed(c, key, ts, text), KeyMap(c, stored)) == None
  {
    KeyMapAbsent(c, stored, HashByte(c, key));
  }

  /** Only the first stored key of the packet's hash byte is tried. The packet is shown exactly if its two
      MAC bytes also verify under that key and what that key deciphers parses; it is then shown as that
      key's channel, whichever key it was sealed with. */
  lemma FirstKeyDecides(c: Crypto, stored: seq<Stored>, i: nat, key: seq<byte>, ts: nat, text: string)
    requires Sound(c) && |key| == 16 && ts < 0x1_0000_0000
    requires i < |stored| && Usable(stored[i]) && HashByte(c, FromHex(stored[i].keyHex)) == HashByte(c, key)
    requires forall j :: 0 <= j < i && Usable(stored[j]) ==> HashByte(c, FromHex(stored[j].keyHex)) != HashByte(c, key)
    ensures var other := FromHex(stored[i].keyHex);
            var ct := Ecb(b => c.enc(key, b), Plaintext(ts, text));
            var r := TryDecryptLive(c, Sealed(c, key, ts, text), KeyMap(c, stored));
            && (r.Some? <==> c.hmac(Secret(other), ct)[..2] == c.hmac(Secret(key), ct)[..2]
                             && ParsePlaintext(Ecb(b => c.dec(other, b), ct)).Some?)
            && (r.Some? ==> r.value.channelName == stored[i].name)
  {
    var other := FromHex(stored[i].keyHex);
    var ct := Ecb(b => c.enc(key, b), Plaintext(ts, text));
    KeyMapFirst(c, stored, i);
    OtherKey(c, key, other, ts, text);
  }

  lemma OtherKey(c: Crypto, key: seq<byte>, other: seq<byte>, ts: nat, text: string)
    requires Sound(c) && |key| == 16 && |other| == 16 && ts < 0x1_0000_0000
    ensures var p := Sealed(c, key, ts, text);
            var ct := Ecb(b => c.enc(key, b), Plaintext(ts, text));
            && p.data != "" && p.mac != ""
            && Decrypt(c, other, p.mac, p.data)
               == if c.hmac(Secret(other), ct)[..2] != c.hmac(Secret(key), ct)[..2] then None
                  else ParsePlaintext(Ecb(b => c.dec(other, b), ct))
  {
    var pt := Plaintext(ts, text);
    EcbInverts(b => c.enc(key, b), b => c.dec(key, b), pt);
    var ct := Ecb(b => c.enc(key, b), pt);
    HexRoundTrip(ct);
    MacAgrees(c, other, ct, c.hmac(Secret(key), ct));
  }

  lemma MacAgrees(c: Crypto, other: seq<byte>, ct: seq<byte>, mine: seq<byte>)
    requires Sound(c) && |mine| == 32
    ensures ToHex(mine[..2]) != ""
    ensures VerifyMac(c, other, ct, ToHex(mine[..2])) <==> c.hmac(Secret(other), ct)[..2] == mine[..2]
  {
    var theirs := c.hmac(Secret(other), ct);
    HexRoundTrip(mine[..2]);
    assert theirs[..2] == [theirs[0], theirs[1]] && mine[..2] == [mine[0], mine[1]];
  }

  // ---- the bytes themselves ----

  /** Two characters a byte, an odd last one ignored. */
  lemma {:induction false} HexBytes(s: string, k: nat)
    ensures |FromHex(s)| == |s| / 2
    ensures k < |s| / 2 ==> FromHex(s)[k] == PairValue(s[2 * k], s[2 * k + 1])
  {
    if |s| >= 2 {
      HexBytes(s[2..], if k > 0 then k - 1 else 0);
    }
  }

  /** Digits of either case have their value. */
  lemma HexValues(d: nat)
    requires d < 16
    ensures d < 10 ==> HexValue('0' + d as char) == Some(d)
    ensures d >= 10 ==> HexValue('a' + (d - 10) as char) == HexValue('A' + (d - 10) as char) == Some(d)
  {
  }

  /** What is no pair of digits is read as far as a number goes: one digit before something else, or one
      after a blank or a sign, taken modulo 256; and as nothing otherwise. */
  lemma HexJunk(c: char, d: char)
    ensures HexValue(c).Some? && HexValue(d).None? ==> PairValue(c, d) == HexValue(c).value
    ensures HexValue(c).None? && HexValue(d).Some? ==>
              (PairValue(c, d) + (if c == '-' then HexValue(d).value else 0)) % 256
              == if IsSpace(c) || c == '+' then HexValue(d).value else 0
    ensures HexValue(c).None? && HexValue(d).None? ==> PairValue(c, d) == 0
  {
  }

  lemma {:induction false} EcbLength(f: seq<byte> -> seq<byte>, data: seq<byte>)
    requires forall b :: |b| == 16 ==> |f(b)| == 16
    ensures |Ecb(f, data)| == |data| - |data| % 16
  {
    if |data| >= 16 { EcbLength(f, data[16..]); }
  }

  lemma SliceAfter<T>(a: seq<T>, b: seq<T>, i: nat, j: nat)
    requires i <= j <= |b|
    ensures (a + b)[|a| + i..|a| + j] == b[i..j]
  {
  }

  /** Each whole block goes through the cipher on its own and stays in its place. */
  lemma {:induction false} EcbBlock(f: seq<byte> -> seq<byte>, data: seq<byte>, at: nat)
    requires forall b :: |b| == 16 ==> |f(b)| == 16
    requires at % 16 == 0 && at + 16 <= |data|
    ensures at + 16 <= |Ecb(f, data)| && Ecb(f, data)[at..at + 16] == f(data[at..at + 16])
  {
    var head, rest := f(data[..16]), Ecb(f, data[16..]);
    EcbLength(f, data);
    if at > 0 {
      EcbBlock(f, data[16..], at - 16);
      SliceAfter(head, rest, at - 16, at);
      SliceAfter(data[..16], data[16..], at - 16, at);
      assert data == data[..16] + data[16..];
    }
  }

  /** The frame byte by byte: the timestamp with its lowest byte first, flags zero, the text, and zeros,
      one at least, up to the next multiple of sixteen. */
  lemma FrameBytes(ts: nat, text: string)
    requires ts < 0x1_0000_0000
    ensures var pt, body := Plaintext(ts, text), EncodeAll(text);
            && |pt| % 16 == 0 && 6 + |body| <= |pt| < 6 + |body| + 16
            && pt[0] + 256 * (pt[1] as int) + 65536 * (pt[2] as int) + 16777216 * (pt[3] as int) == ts
            && pt[4] == 0 && pt[5..5 + |body|] == body
            && forall i :: 5 + |body| <= i < |pt| ==> pt[i] == 0
  {
    BaseDigits(ts);
  }

  /** The key is the first half of the digest of the channel's name. */
  lemma KeyBytes(c: Crypto, name: string)
    requires Sound(c)
    ensures |ChannelKey(c, name)| == 16 && ChannelKey(c, name) <= c.sha(EncodeAll(name))
    ensures [HashByte(c, ChannelKey(c, name))] <= c.sha(ChannelKey(c, name))
  {
  }

  /** The packet byte by byte: the hash byte of the key, each block of the frame enciphered on its own, and
      the first two bytes of the HMAC of that under the key followed by sixteen zeros. */
  lemma SealedBytes(c: Crypto, key: seq<byte>, ts: nat, text: string, at: nat)
    requires Sound(c) && |key| == 16 && ts < 0x1_0000_0000 && at % 16 == 0
    ensures var p, pt, ct := Sealed(c, key, ts, text), Plaintext(ts, text), FromHex(Sealed(c, key, ts, text).data);
            && [p.hash] <= c.sha(key) && |ct| == |pt| && |FromHex(p.mac)| == 2
            && FromHex(p.mac) <= c.hmac(key + seq(16, _ => 0), ct)
            && (at + 16 <= |pt| ==> ct[at..at + 16] == c.enc(key, pt[at..at + 16]))
  {
    var pt := Plaintext(ts, text);
    var ct := Ecb(b => c.enc(key, b), pt);
    EcbLength(b => c.enc(key, b), pt);
    if at + 16 <= |pt| { EcbBlock(b => c.enc(key, b), pt, at); }
    HexRoundTrip(ct);
    HexRoundTrip(c.hmac(Secret(key), ct)[..2]);
    assert Zeros(16) == seq(16, _ => 0);
  }

  // ---- what is shown for any text ----

  lemma {:induction false} NonPrintableIs(s: string)
    ensures NonPrintable(s) == CountIf(s, ch => ch as int < 32 && ch as int !in {9, 10, 13})
  {
    var p := (ch: char) => ch as int < 32 && ch as int !in {9, 10, 13};
    if s != "" {
      assert s == [s[0]] + s[1..];
      CountIfAppend([s[0]], s[1..], p);
      assert [s[0]][..0] == [];
      assert CountIf([s[0]], p) == CountIf([s[0]][..0], p) + if p(s[0]) then 1 else 0;
      NonPrintableIs(s[1..]);
    }
  }

  lemma {:induction false} Utf16LengthIs(s: string)
    ensures Utf16Length(s) == |s| + CountIf(s, ch => ch as int > 0xFFFF)
  {
    var p := (ch: char) => ch as int > 0xFFFF;
    if s != "" {
      assert s == [s[0]] + s[1..];
      CountIfAppend([s[0]], s[1..], p);
      assert [s[0]][..0] == [];
      assert CountIf([s[0]], p) == CountIf([s[0]][..0], p) + if p(s[0]) then 1 else 0;
      Utf16LengthIs(s[1..]);
    }
  }

  /** The text is a sender of 1 to 49 UTF-16 units without colon or brackets, a colon and a space, and the message. */
  predicate SentBy(text: string, sender: string, message: string) {
    && text == sender + ": " + message && 0 < Utf16Length(sender) < 50
    && forall c :: c in sender ==> c != ':' && c != '[' && c != ']'
  }

  /** The parser rejects exactly texts with more than two control characters; it finds exactly the sender
      and the message a text is made of, and else takes the whole text for the message. */
  lemma ParseTextIff(timestamp: int, flags: byte, text: string, sender: string, message: string)
    ensures var r := ParseText(timestamp, flags, text);
            && (r.None? <==> NonPrintable(text) > 2)
            && (r.Some? ==>
                  && r.value.timestamp == timestamp && r.value.flags == flags
                  && (SentBy(text, sender, message)
                      <==> sender != "" && r.value.sender == sender && r.value.message == message)
                  && (r.value.sender == "" ==> r.value.message == text))
  {
    if SentBy(text, sender, message) { SentByFound(text, sender, message); }
    if ColonIndex(text) < |text| { SplitText(text, ColonIndex(text)); }
  }

  lemma SentByFound(text: string, sender: string, message: string)
    requires SentBy(text, sender, message)
    ensures ColonIndex(text) == |sender| < |text| && text[..|sender|] == sender && text[|sender| + 2..] == message
  {
    assert text == sender + (": " + message);
    ColonAfter(sender, ": " + message);
  }

  /** A text without such a sender is shown whole, up to its first NUL and without a leading byte order
      mark, under the name Unknown; one with too many control characters is not shown at all. */
  lemma UnknownSender(c: Crypto, stored: seq<Stored>, name: string, text: string, ts: nat)
    requires Sound(c) && ts < 0x1_0000_0000 && Filed(c, stored, name)
    requires forall sender, message :: !SentBy(Delivered(text), sender, message)
    ensures var r := TryDecryptLive(c, Sealed(c, ChannelKey(c, name), ts, text), KeyMap(c, stored));
            && (r.None? <==> NonPrintable(Delivered(text)) > 2)
            && (r.Some? ==> r.value.sender == "Unknown" && r.value.text == Delivered(text))
  {
    FiledKey(c, stored, name);
    DecryptSealed(c, ChannelKey(c, name), ts, text);
    var t := SignedTimestamp(LittleEndian(ts));
    var parsed := ParseText(t, 0, Delivered(text));
    ParseTextIff(t, 0, Delivered(text), "", "");
    if parsed.Some? {
      assert !SentBy(Delivered(text), parsed.value.sender, parsed.value.message);
      ParseTextIff(t, 0, Delivered(text), parsed.value.sender, parsed.value.message);
    }
  }

  /** What reaches the parser: everything before the first NUL, and one leading byte order mark is dropped. */
  lemma DeliveredIs(head: string, rest: string)
    requires '\0' !in head
    ensures Delivered(head + ("\0" + rest)) == Delivered(head)
    ensures Delivered("\U{FEFF}" + head) == head
    ensures (head == "" || head[0] != '\U{FEFF}') ==> Delivered(head) == head
  {
    NulAfter(head, rest);
    assert (head + ("\0" + rest))[..|head|] == head;
    NoNul(head);
    assert head[..|head|] == head;
    var marked := "\U{FEFF}" + head;
    forall c | c in marked ensures c != '\0' { assert c == '\U{FEFF}' || c in head; }
    NoNul(marked);
    assert marked[..|marked|] == marked && marked[1..] == head;
  }

  lemma NulAfter(head: string, rest: string)
    requires '\0' !in head
    ensures NulIndex(head + ("\0" + rest)) == |head|
  {
    var s := head + ("\0" + rest);
    assert s[|head|] == '\0' && forall i :: 0 <= i < |head| ==> s[i] in head;
  }

  lemma NoNul(s: string)
    requires '\0' !in s
    ensures NulIndex(s) == |s|
  {
    assert forall i :: 0 <= i < |s| ==> s[i] in s;
  }

  /** Whatever packet is shown had data of one block at least and whole blocks only, and its two MAC bytes
      are those of the data under the stored key that its hash byte names. */
  lemma ShownIsVerified(c: Crypto, p: Payload, keys: map<byte, KeyEntry>)
    requires TryDecryptLive(c, p, keys).Some?
    ensures var ct, mac := FromHex(p.data), FromHex(p.mac);
            && p.hash in keys && |ct| > 0 && |ct| % 16 == 0
            && |mac| >= 2 && mac[..2] <= c.hmac(keys[p.hash].key + seq(16, _ => 0), ct)
            && TryDecryptLive(c, p, keys).value.channelName == keys[p.hash].name
            && TryDecryptLive(c, p, keys).value.hash == p.hash
  {
    assert Zeros(16) == seq(16, _ => 0);
  }
}
