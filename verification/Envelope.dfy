/**
 The encrypted envelope of a command: crypto header, PKCS#7 padding and AES-GCM sealing
 (src/protocol/crypted.rs, src/crypto/aes_gcm_codec.rs). Sealing itself is a parameter.
 */
module Envelope {
  import opened Bytes

  const IV_SIZE: nat := 12
  const GCM_TAG_SIZE: nat := 16
  const PKCS7_BLOCK_SIZE: nat := 16
  const CRYPTO_HEADER_SIZE: nat := 12

  /** `seal` maps a nonce and a text to ciphertext and tag; `open` is the receiver's side. */
  datatype Cipher = Cipher(
    seal: (seq<byte>, seq<byte>) -> (seq<byte>, seq<byte>),
    open: (seq<byte>, seq<byte>, seq<byte>) -> Option<seq<byte>>)

  /** What is assumed of AES-GCM: opening undoes sealing, and sealing keeps the length. */
  ghost predicate Inverts(c: Cipher) {
    forall nonce, text ::
      var (ct, tag) := c.seal(nonce, text);
      |ct| == |text| && |tag| == GCM_TAG_SIZE && c.open(nonce, ct, tag) == Some(text)
  }

  // Padding.

  function PaddingLen(len: nat): (p: nat)
    ensures 1 <= p <= PKCS7_BLOCK_SIZE && (len + p) % PKCS7_BLOCK_SIZE == 0
  {
    PKCS7_BLOCK_SIZE - len % PKCS7_BLOCK_SIZE
  }

  function Padded(text: seq<byte>): seq<byte> {
    text + seq(PaddingLen(|text|), i => ByteOf(PaddingLen(|text|)))
  }

  function PaddingOf(buf: seq<byte>): (p: Option<nat>)
    ensures p.Some? ==> 0 < p.value <= |buf|
  {
    if buf == [] then None
    else
      var padding := buf[|buf| - 1] as nat;
      if padding == 0 || padding > PKCS7_BLOCK_SIZE || padding > |buf| then None
      else if forall i :: |buf| - padding <= i < |buf| ==> buf[i] == buf[|buf| - 1] then Some(padding)
      else None
  }

  lemma {:induction false} PaddingFound(text: seq<byte>)
    ensures PaddingOf(Padded(text)) == Some(PaddingLen(|text|))
  {
    hide ByteOf;
    var p := PaddingLen(|text|);
    var buf := Padded(text);
    assert |buf| == |text| + p && buf[|buf| - 1] == ByteOf(p);
  }

  // Sealed bytes: nonce, tag, ciphertext.

  function Encrypt(c: Cipher, iv: seq<byte>, text: seq<byte>): seq<byte> {
    var (ct, tag) := c.seal(iv, Padded(text));
    iv + tag + ct
  }

  function Decrypt(c: Cipher, data: seq<byte>): Option<seq<byte>> {
    var offset := IV_SIZE + GCM_TAG_SIZE;
    if |data| <= offset then None
    else
      var buf := c.open(data[..IV_SIZE], data[offset..], data[IV_SIZE..offset]);
      if buf.None? || PaddingOf(buf.value).None? then None
      else Some(buf.value[..|buf.value| - PaddingOf(buf.value).value])
  }

  lemma {:induction false} DecryptUndoes(c: Cipher, iv: seq<byte>, text: seq<byte>)
    requires Inverts(c) && |iv| == IV_SIZE
    ensures Decrypt(c, Encrypt(c, iv, text)) == Some(text)
    ensures |Encrypt(c, iv, text)| == IV_SIZE + GCM_TAG_SIZE + |text| + PaddingLen(|text|)
  {
    hide PaddingOf, ByteOf;
    var padded := Padded(text);
    var (ct, tag) := c.seal(iv, padded);
    PaddingFound(text);
    var data := Encrypt(c, iv, text);
    assert data == iv + tag + ct;
    assert data[..IV_SIZE] == iv && data[IV_SIZE..IV_SIZE + GCM_TAG_SIZE] == tag;
    assert data[IV_SIZE + GCM_TAG_SIZE..] == ct;
    assert padded[..|text|] == text;
  }

  // Header.

  /** Little-endian bytes of a number. */
  function LittleEndian(n: nat, size: nat): (r: seq<byte>)
    ensures |r| == size
  {
    if size == 0 then [] else [ByteOf(n % 256)] + LittleEndian(n / 256, size - 1)
  }

  function Value(s: seq<byte>): nat {
    if s == [] then 0 else s[0] as nat + 256 * Value(s[1..])
  }

  function Pow256(k: nat): nat {
    if k == 0 then 1 else 256 * Pow256(k - 1)
  }

  lemma {:induction false} ValueOfBytes(n: nat, size: nat)
    requires n < Pow256(size)
    ensures Value(LittleEndian(n, size)) == n
  {
    hide ByteOf;
    if size > 0 {
      ValueOfBytes(n / 256, size - 1);
      assert LittleEndian(n, size)[1..] == LittleEndian(n / 256, size - 1);
    }
  }

  datatype Header = Header(rnd: nat, msgNum: nat, cmd: byte, wantAck: bool)

  predicate HeaderFits(h: Header) {
    h.rnd < Pow256(2) && h.msgNum < Pow256(8)
  }

  function HeaderBytes(h: Header): (r: seq<byte>)
    ensures |r| == CRYPTO_HEADER_SIZE
  {
    LittleEndian(h.rnd, 2) + LittleEndian(h.msgNum, 8) + [h.cmd, if h.wantAck then 1 else 0]
  }

  function ParseHeader(s: seq<byte>): Option<Header> {
    if |s| < CRYPTO_HEADER_SIZE then None
    else Some(Header(Value(s[..2]), Value(s[2..10]), s[10], s[11] != 0))
  }

  lemma {:induction false} HeaderParses(h: Header, rest: seq<byte>)
    requires HeaderFits(h)
    ensures ParseHeader(HeaderBytes(h) + rest) == Some(h)
  {
    hide Value, LittleEndian, Pow256;
    var a, b, c := LittleEndian(h.rnd, 2), LittleEndian(h.msgNum, 8), [h.cmd, if h.wantAck then 1 else 0];
    var s := HeaderBytes(h) + rest;
    assert s[..2] == a && s[2..10] == b && s[10] == c[0] && s[11] == c[1];
    ValueOfBytes(h.rnd, 2);
    ValueOfBytes(h.msgNum, 8);
  }
}
