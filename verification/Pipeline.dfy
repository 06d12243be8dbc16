/**
 From command to slices and back: compression, encryption, slicing, reassembly, decryption, decompression
 (src/client/protocol_sliced_send.rs, src/client/protocol_io.rs, src/client/protocol_helpers.rs).
 */
module Pipeline {
  import opened Bytes
  import opened Slicing
  import opened SynLzFormat
  import C = SynLzCompressor
  import D = SynLzDecoder
  import SynLzRoundTrip
  import SynLzSizes
  import opened Envelope
  import W = ReplayWindow
  import R = SlicedReceiving
  import X = ExactlyOnce

  const COMPRESSED_FLAG: byte := 0x80
  const CRYPTED: byte := 19
  const PACKET_HEADER_SIZE: nat := 15

  /** Crypto header, nonce, tag, longest padding and the command byte. */
  const ENCRYPTED_FIXED_OVERHEAD: nat := 12 + 12 + 16 + 16 + 1

  predicate Flagged(cmd: byte) {
    cmd & COMPRESSED_FLAG != 0
  }

  lemma {:induction false} FlagBit(cmd: byte)
    requires !Flagged(cmd)
    ensures Flagged(cmd | COMPRESSED_FLAG) && (cmd | COMPRESSED_FLAG) & 0x7F == cmd && cmd & 0x7F == cmd
    ensures CRYPTED & 0x7F == CRYPTED && (CRYPTED | COMPRESSED_FLAG) & 0x7F == CRYPTED
  {
  }

  // Sending.

  function MaybeCompress(cmd: byte, data: seq<byte>): (byte, seq<byte>) {
    if !Flagged(cmd) && C.MaybeCompressed(data).Some? then (cmd | COMPRESSED_FLAG, C.MaybeCompressed(data).value)
    else (cmd, data)
  }

  function CryptedWireCmd(inner: byte): byte {
    if Flagged(inner) then CRYPTED | COMPRESSED_FLAG else CRYPTED
  }

  /** How an encrypted command travels: the key, and the fresh values drawn for this packet. */
  datatype Crypto = Crypto(cipher: Cipher, iv: seq<byte>, rnd: nat, msgNum: nat, wantAck: bool) {
    ghost predicate Valid() {
      Inverts(cipher) && |iv| == IV_SIZE && rnd < Pow256(2) && msgNum < Pow256(8)
    }
  }

  function Room(actualPmtu: nat): int {
    actualPmtu - PACKET_HEADER_SIZE - SLICE_HEADER_SIZE
  }

  /** The size gate on the effective payload. */
  predicate Passes(size: nat, actualPmtu: nat) {
    Room(actualPmtu) > 0 && 0 < size < Room(actualPmtu) * 256 - ENCRYPTED_FIXED_OVERHEAD
  }

  /** Command byte and data to be sliced, or nothing when the gate refuses them. */
  function Outbound(cmd: byte, data: seq<byte>, crypto: Option<Crypto>, actualPmtu: nat)
    : (r: Option<(byte, seq<byte>)>)
  {
    var (sendCmd, sendData) := MaybeCompress(cmd, data);
    if !Passes(|sendData|, actualPmtu) then None
    else if crypto.None? then Some((sendCmd, sendData))
    else
      var c := crypto.value;
      Some((CryptedWireCmd(sendCmd),
            Encrypt(c.cipher, c.iv, HeaderBytes(Header(c.rnd, c.msgNum, sendCmd, c.wantAck)) + sendData)))
  }

  // Receiving.

  /** Command families that are dropped when they arrive unencrypted. */
  predicate Sensitive(cmd: byte) {
    cmd in {28, 30, 29, 32, 27, 24, 37}
  }

  const API: byte := 31

  /**
   Decoding one command: decryption with the replay check, the plaintext gate, decompression, and the
   gate on plaintext API responses, whose verdict on a payload is the parameter `apiDropped`.
   */
  function Decode(cipher: Option<Cipher>, w: W.Window, apiDropped: seq<byte> -> bool, rawCmd: byte, data: seq<byte>)
    : Option<(byte, seq<byte>)>
    requires W.Shaped(w)
  {
    if rawCmd & 0x7F == CRYPTED then
      if cipher.None? then None
      else
        var text := Decrypt(cipher.value, data);
        if text.None? || ParseHeader(text.value).None? then None
        else
          var h := ParseHeader(text.value).value;
          if !W.Checked(w, h.msgNum).1 then None
          else Unpack(h.cmd, text.value[CRYPTO_HEADER_SIZE..])
    else if Sensitive(rawCmd & 0x7F) then None
    else
      var r := Unpack(rawCmd, data);
      if r.Some? && r.value.0 & 0x7F == API && apiDropped(r.value.1) then None else r
  }

  function Unpack(cmd: byte, payload: seq<byte>): Option<(byte, seq<byte>)> {
    if Flagged(cmd) then
      var d := D.Decoded(payload, MAX_DECOMPRESSED_SIZE);
      if d.None? then None else Some((cmd & 0x7F, d.value))
    else Some((cmd, payload))
  }

  // Inverses.

  /** Unpacking gives back what was packed unless the payload was compressed beyond the decoder's limit. */
  lemma {:induction false} UnpackUndoes(cmd: byte, data: seq<byte>)
    requires !Flagged(cmd)
    ensures
      var (sendCmd, sendData) := MaybeCompress(cmd, data);
      Unpack(sendCmd, sendData) == Some((cmd, data)) <==> (Flagged(sendCmd) ==> |data| <= MAX_DECOMPRESSED_SIZE)
  {
    hide C.Compressed, D.Decoded, Flagged;
    FlagBit(cmd);
    SynLzRoundTrip.RoundTrip(data);
  }

  /** The compressed size decides: whether this command goes out compressed. */
  predicate GoesCompressed(cmd: byte, data: seq<byte>) {
    !Flagged(cmd) && C.MaybeCompressed(data).Some?
  }

  /** The largest PMTU at which the gate also keeps every payload within the decoder's limit. */
  const LARGEST_SAFE_PMTU: nat := 24025

  /** At these PMTUs a payload whose compressed form passes the gate is one the receiver will decompress. */
  lemma {:induction false} GateKeepsLimit(cmd: byte, data: seq<byte>, crypto: Option<Crypto>, actualPmtu: nat)
    requires actualPmtu <= LARGEST_SAFE_PMTU && Outbound(cmd, data, crypto, actualPmtu).Some?
    ensures GoesCompressed(cmd, data) ==> |data| <= MAX_DECOMPRESSED_SIZE
  {
    hide C.Compressed, Flagged, Encrypt, HeaderBytes;
    if GoesCompressed(cmd, data) {
      SynLzSizes.CompressedLeast(data);
    }
  }

  lemma {:induction false} LongTriples(actualPmtu: nat)
    requires actualPmtu > LARGEST_SAFE_PMTU
    ensures
      var data := SynLzSizes.Triples(MAX_DECOMPRESSED_SIZE + 1);
      && |data| > MAX_DECOMPRESSED_SIZE && C.MaybeCompressed(data).Some?
      && Passes(|C.MaybeCompressed(data).value|, actualPmtu)
  {
    hide C.Compressed, SynLzSizes.Triples;
    SynLzSizes.TriplesLength(MAX_DECOMPRESSED_SIZE + 1);
    SynLzSizes.TriplesCompressed(MAX_DECOMPRESSED_SIZE + 1);
    SynLzSizes.CompressedLeast(SynLzSizes.Triples(MAX_DECOMPRESSED_SIZE + 1));
  }

  /** At any larger PMTU some payload passes the gate and is not decoded, encrypted or not. */
  lemma {:induction false} LongPayloadLost(cmd: byte, c: Crypto, actualPmtu: nat, w: W.Window,
      apiDropped: seq<byte> -> bool) returns (data: seq<byte>)
    requires !Flagged(cmd) && cmd != CRYPTED && c.Valid() && W.Shaped(w) && W.Checked(w, c.msgNum).1
    requires actualPmtu > LARGEST_SAFE_PMTU
    ensures Outbound(cmd, data, Some(c), actualPmtu).Some? && Outbound(cmd, data, None, actualPmtu).Some?
    ensures
      var (wireCmd, wireData) := Outbound(cmd, data, Some(c), actualPmtu).value;
      Decode(Some(c.cipher), w, apiDropped, wireCmd, wireData) != Some((cmd, data))
    ensures
      var (wireCmd, wireData) := Outbound(cmd, data, None, actualPmtu).value;
      Decode(Some(c.cipher), w, apiDropped, wireCmd, wireData) != Some((cmd, data))
  {
    hide C.MaybeCompressed, Decode, Flagged, Encrypt, HeaderBytes, W.Checked, Inverts, Sensitive,
        SynLzSizes.Triples, Passes;
    data := SynLzSizes.Triples(MAX_DECOMPRESSED_SIZE + 1);
    LongTriples(actualPmtu);
    EncryptedInverse(cmd, data, c, actualPmtu, w, apiDropped);
    PlainInverse(cmd, data, actualPmtu, Some(c.cipher), w, apiDropped);
  }

  /** An encrypted command that arrives for the first time is decoded to what was sent. */
  lemma {:induction false} EncryptedInverse(cmd: byte, data: seq<byte>, c: Crypto, actualPmtu: nat, w: W.Window,
      apiDropped: seq<byte> -> bool)
    requires !Flagged(cmd) && c.Valid() && W.Shaped(w) && W.Checked(w, c.msgNum).1
    requires Outbound(cmd, data, Some(c), actualPmtu).Some?
    ensures
      var (wireCmd, wireData) := Outbound(cmd, data, Some(c), actualPmtu).value;
      Decode(Some(c.cipher), w, apiDropped, wireCmd, wireData) == Some((cmd, data))
      <==> (GoesCompressed(cmd, data) ==> |data| <= MAX_DECOMPRESSED_SIZE)
    ensures actualPmtu <= LARGEST_SAFE_PMTU ==>
      var (wireCmd, wireData) := Outbound(cmd, data, Some(c), actualPmtu).value;
      Decode(Some(c.cipher), w, apiDropped, wireCmd, wireData) == Some((cmd, data))
  {
    hide C.MaybeCompressed, D.Decoded, Encrypt, Decrypt, HeaderBytes, ParseHeader, W.Checked, Inverts, Flagged, Unpack,
        Pow256;
    FlagBit(cmd);
    UnpackUndoes(cmd, data);
    var (sendCmd, sendData) := MaybeCompress(cmd, data);
    var h := Header(c.rnd, c.msgNum, sendCmd, c.wantAck);
    var text := HeaderBytes(h) + sendData;
    DecryptUndoes(c.cipher, c.iv, text);
    HeaderParses(h, sendData);
    assert text[CRYPTO_HEADER_SIZE..] == sendData;
    WireCmdIsCrypted(sendCmd);
    if actualPmtu <= LARGEST_SAFE_PMTU {
      GateKeepsLimit(cmd, data, Some(c), actualPmtu);
    }
  }

  lemma {:induction false} WireCmdIsCrypted(sendCmd: byte)
    ensures CryptedWireCmd(sendCmd) & 0x7F == CRYPTED
  {
  }

  lemma {:induction false} DecodePlain(cipher: Option<Cipher>, w: W.Window, apiDropped: seq<byte> -> bool, rawCmd: byte,
      data: seq<byte>)
    requires rawCmd & 0x7F != CRYPTED && W.Shaped(w)
    ensures
      var r := Unpack(rawCmd, data);
      Decode(cipher, w, apiDropped, rawCmd, data) ==
        if Sensitive(rawCmd & 0x7F) || (r.Some? && r.value.0 & 0x7F == API && apiDropped(r.value.1)) then None else r
  {
    hide Unpack, Sensitive;
  }

  /** An unencrypted command is decoded to what was sent unless a plaintext gate drops it. */
  lemma {:induction false} PlainInverse(cmd: byte, data: seq<byte>, actualPmtu: nat, cipher: Option<Cipher>,
      w: W.Window, apiDropped: seq<byte> -> bool)
    requires !Flagged(cmd) && cmd != CRYPTED && W.Shaped(w)
    requires Outbound(cmd, data, None, actualPmtu).Some?
    ensures
      var (wireCmd, wireData) := Outbound(cmd, data, None, actualPmtu).value;
      Decode(cipher, w, apiDropped, wireCmd, wireData) == Some((cmd, data))
      <==> && !Sensitive(cmd) && !(cmd == API && apiDropped(data))
           && (GoesCompressed(cmd, data) ==> |data| <= MAX_DECOMPRESSED_SIZE)
    ensures actualPmtu <= LARGEST_SAFE_PMTU ==>
      var (wireCmd, wireData) := Outbound(cmd, data, None, actualPmtu).value;
      Decode(cipher, w, apiDropped, wireCmd, wireData) == Some((cmd, data))
      <==> !Sensitive(cmd) && !(cmd == API && apiDropped(data))
  {
    hide C.MaybeCompressed, Flagged, Sensitive, Unpack, Passes, Decode;
    FlagBit(cmd);
    UnpackUndoes(cmd, data);
    var (sendCmd, sendData) := MaybeCompress(cmd, data);
    DecodePlain(cipher, w, apiDropped, sendCmd, sendData);
    if actualPmtu <= LARGEST_SAFE_PMTU {
      GateKeepsLimit(cmd, data, None, actualPmtu);
    }
  }

  // Sizes.

  /** What passes the gate fits 256 blocks, so block numbers fit a byte, and each slice fits the packet. */
  lemma {:induction false} FitsBlocks(cmd: byte, data: seq<byte>, crypto: Option<Crypto>, actualPmtu: nat)
    requires crypto.Some? ==> crypto.value.Valid()
    requires Outbound(cmd, data, crypto, actualPmtu).Some?
    ensures
      var whole := [Outbound(cmd, data, crypto, actualPmtu).value.0] + Outbound(cmd, data, crypto, actualPmtu).value.1;
      0 < Room(actualPmtu) && 1 <= BlockCount(|whole|, Room(actualPmtu)) <= 256
  {
    hide C.MaybeCompressed, Encrypt, HeaderBytes, Inverts, Flagged, BlockCount;
    var (sendCmd, sendData) := MaybeCompress(cmd, data);
    var room := Room(actualPmtu);
    if crypto.Some? {
      var c := crypto.value;
      DecryptUndoes(c.cipher, c.iv, HeaderBytes(Header(c.rnd, c.msgNum, sendCmd, c.wantAck)) + sendData);
    }
    var size := 1 + |Outbound(cmd, data, crypto, actualPmtu).value.1|;
    assert 0 < size < room * 256;
    BlocksWithin(size, room, 256);
  }

  lemma {:induction false} BlocksWithin(size: nat, room: nat, most: nat)
    requires 0 < room && 0 < size <= room * most
    ensures 1 <= BlockCount(size, room) <= most
  {
  }

  lemma {:induction false} SliceFits(slices: seq<seq<byte>>, whole: seq<byte>, actualPmtu: nat, datagramNum: nat,
      i: nat)
    requires 0 < Room(actualPmtu) && AreSlices(slices, whole, Room(actualPmtu), datagramNum) && i < |slices|
    ensures |slices[i]| <= actualPmtu - PACKET_HEADER_SIZE
  {
    hide SliceHeader, Chunk;
  }

  /** Compress, gate, encrypt and slice one command. */
  method CreateSlicedObject(cmd: byte, data: seq<byte>, crypto: Option<Crypto>, actualPmtu: nat, datagramNum: nat)
    returns (slices: Option<seq<seq<byte>>>)
    requires datagramNum < 0x1_0000
    ensures slices.Some? <==> Outbound(cmd, data, crypto, actualPmtu).Some?
    ensures slices.Some? ==>
      var (wireCmd, wireData) := Outbound(cmd, data, crypto, actualPmtu).value;
      && AreSlices(slices.value, [wireCmd] + wireData, Room(actualPmtu), datagramNum)
      && forall i :: 0 <= i < |slices.value| ==> |slices.value[i]| <= actualPmtu - PACKET_HEADER_SIZE
  {
    hide C.MaybeCompressed, Encrypt, HeaderBytes, Inverts, Flagged, AreSlices;
    var sendCmd, sendData := cmd, data;
    if !Flagged(cmd) && |data| > 64 {
      var compressed := C.MpCompress(data);
      if compressed.Some? {
        sendCmd, sendData := cmd | COMPRESSED_FLAG, compressed.value;
      }
    } else {
      SmallStays(data);
    }
    assert (sendCmd, sendData) == MaybeCompress(cmd, data);
    if Room(actualPmtu) <= 0 {
      return None;
    }
    var maxSize := Room(actualPmtu) * 256 - ENCRYPTED_FIXED_OVERHEAD;
    if |sendData| >= maxSize || sendData == [] {
      return None;
    }
    var wireCmd, wireData := sendCmd, sendData;
    if crypto.Some? {
      var c := crypto.value;
      var text := HeaderBytes(Header(c.rnd, c.msgNum, sendCmd, c.wantAck)) + sendData;
      wireCmd, wireData := CryptedWireCmd(sendCmd), Encrypt(c.cipher, c.iv, text);
    }
    var made := MakeSlices(wireCmd, wireData, Room(actualPmtu), datagramNum);
    forall i | 0 <= i < |made| ensures |made[i]| <= actualPmtu - PACKET_HEADER_SIZE {
      SliceFits(made, [wireCmd] + wireData, actualPmtu, datagramNum, i);
    }
    slices := Some(made);
  }

  lemma {:induction false} SmallStays(data: seq<byte>)
    ensures |data| <= 64 ==> C.MaybeCompressed(data).None?
  {
    hide C.Compressed;
  }

  /** A command on the wire, under the number it was given. */
  ghost function OnWire(cmd: byte, data: seq<byte>, crypto: Option<Crypto>, actualPmtu: nat, num: nat): (s: X.Sliced)
    requires crypto.Some? ==> crypto.value.Valid()
    requires num < 0x1_0000 && Outbound(cmd, data, crypto, actualPmtu).Some?
    ensures s.Valid() && s.num == num
  {
    var (wireCmd, wireData) := Outbound(cmd, data, crypto, actualPmtu).value;
    FitsBlocks(cmd, data, crypto, actualPmtu);
    X.Sliced(num, wireCmd, wireData, Room(actualPmtu))
  }

  /**
   Sender to receiver: an encrypted command whose slices come within one reservation, in any order and
   amid any other traffic, is handed on once if the number could be opened and all slices came, and not
   at all otherwise. What is handed on decodes to what was sent, unless it was compressed from more than
   the decoder's limit, which takes a PMTU above the largest safe one.
   */
  lemma {:induction false} CommandSurvives(cmd: byte, data: seq<byte>, c: Crypto, actualPmtu: nat, num: nat,
                        r: R.Receiver, run: seq<X.Entry>, w: W.Window, apiDropped: seq<byte> -> bool)
    requires !Flagged(cmd) && c.Valid() && num < 0x1_0000 && Outbound(cmd, data, Some(c), actualPmtu).Some?
    requires W.Shaped(w) && W.Checked(w, c.msgNum).1
    requires R.Inv(r) && run != [] && X.IsRun(r, run) && X.Startable(r, run[0].event.now, num)
    requires
      var sent := OnWire(cmd, data, Some(c), actualPmtu, num);
      sent.BlockIn(run[0].event) != {} && X.Within(sent, run, X.Base(r, run[0].event.now, num))
    ensures
      var sent := OnWire(cmd, data, Some(c), actualPmtu, num);
      var got := sent.Deliveries(run);
      if X.Opens(r, run[0].event.now, num) && sent.Covered(sent.BlocksIn(run)) then
        && |got| == 1
        && (Decode(Some(c.cipher), w, apiDropped, got[0].cmd, got[0].data) == Some((cmd, data))
            <==> (GoesCompressed(cmd, data) ==> |data| <= MAX_DECOMPRESSED_SIZE))
        && (actualPmtu <= LARGEST_SAFE_PMTU ==>
              Decode(Some(c.cipher), w, apiDropped, got[0].cmd, got[0].data) == Some((cmd, data)))
      else got == []
  {
    hide Outbound, Decode, W.Checked, X.Opens, X.Startable, X.Step, X.Within, X.IsRun, X.Base, X.Sliced.Deliveries,
        X.Sliced.BlocksIn, X.Sliced.BlockIn, X.Sliced.Covered, X.Sliced.Valid, Inverts, R.Inv, Flagged, GoesCompressed;
    X.ExactlyOnceDelivery(r, run, OnWire(cmd, data, Some(c), actualPmtu, num));
    EncryptedInverse(cmd, data, c, actualPmtu, w, apiDropped);
  }
}
