/** The byte cipher of exported keys, in place, and its inverse (src/key_import.rs). */
module KeyCipher {
  import opened Bytes

  /** What one byte position contributes: its counter and the password bytes it meets. */
  datatype Mix = Mix(
    al: byte, ah: byte, nibble: byte, c0: byte, c1: byte, c2: byte, c3: byte, cn0: byte, cn1: byte, cn2: byte)

  /** A password byte, or zero beyond its end. */
  function CodeAt(code: seq<byte>, i: nat): byte {
    if i < |code| then code[i] else 0
  }

  function MixAt(code: seq<byte>, counter: nat): Mix {
    var n := counter % 16;
    Mix(ByteOf(counter % 256), ByteOf(counter / 256 % 256), ByteOf(n),
        CodeAt(code, 0), CodeAt(code, 1), CodeAt(code, 2), CodeAt(code, 3),
        CodeAt(code, n), CodeAt(code, n + 1), CodeAt(code, n + 2))
  }

  /** Rotation by the low three bits of `k`. */
  function RotateLeft(b: byte, k: byte): byte {
    b.RotateLeft((k & 7) as nat)
  }

  function RotateRight(b: byte, k: byte): byte {
    b.RotateRight((k & 7) as nat)
  }

  // Byte arithmetic wraps around.

  function Add(b: byte, x: byte): byte {
    b + x
  }

  function Sub(b: byte, x: byte): byte {
    b - x
  }

  function Xor(b: byte, x: byte): byte {
    b ^ x
  }

  // Five stages and their inverses.

  function Outer(b: byte, m: Mix): byte {
    Xor(Sub(Sub(b, m.ah), m.al), m.al)
  }

  function OuterBack(b: byte, m: Mix): byte {
    Add(Add(Xor(b, m.al), m.al), m.ah)
  }

  function Turn(b: byte, m: Mix): byte {
    RotateLeft(Sub(RotateRight(b, m.c2), m.al), m.c2)
  }

  function TurnBack(b: byte, m: Mix): byte {
    RotateLeft(Add(RotateRight(b, m.c2), m.al), m.c2)
  }

  function Keyed(b: byte, m: Mix): byte {
    Sub(Xor(Sub(b, Xor(m.c1, m.ah)), m.c0), m.c3)
  }

  function KeyedBack(b: byte, m: Mix): byte {
    Add(Xor(Add(b, m.c3), m.c0), Xor(m.c1, m.ah))
  }

  function Placed(b: byte, m: Mix): byte {
    Sub(RotateRight(Xor(b, Add(Add(m.cn2, m.nibble), m.ah)), m.cn1), m.nibble)
  }

  function PlacedBack(b: byte, m: Mix): byte {
    Xor(RotateLeft(Add(b, m.nibble), m.cn1), Add(Add(m.cn2, m.nibble), m.ah))
  }

  function Inner(b: byte, m: Mix): byte {
    Sub(Sub(Xor(b, Add(Add(m.cn0, m.cn1), 1)), m.ah), m.al)
  }

  function InnerBack(b: byte, m: Mix): byte {
    Xor(Add(Add(b, m.al), m.ah), Add(Add(m.cn0, m.cn1), 1))
  }

  function DecodeByte(b: byte, m: Mix): byte {
    Inner(Placed(Keyed(Turn(Outer(b, m), m), m), m), m)
  }

  function EncodeByte(b: byte, m: Mix): byte {
    OuterBack(TurnBack(KeyedBack(PlacedBack(InnerBack(b, m), m), m), m), m)
  }

  lemma {:induction false} RotateBack(b: byte, k: byte)
    ensures RotateRight(RotateLeft(b, k), k) == b && RotateLeft(RotateRight(b, k), k) == b
  {
  }

  lemma {:induction false} Back(b: byte, x: byte)
    ensures Sub(Add(b, x), x) == b && Add(Sub(b, x), x) == b && Xor(Xor(b, x), x) == b
  {
  }

  lemma {:induction false} OuterStage(b: byte, m: Mix)
    ensures Outer(OuterBack(b, m), m) == b && OuterBack(Outer(b, m), m) == b
  {
    hide Add, Sub, Xor;
    var t := Xor(b, m.al);
    Back(Add(t, m.al), m.ah);
    Back(t, m.al);
    Back(b, m.al);
    var u := Sub(b, m.ah);
    Back(Sub(u, m.al), m.al);
    Back(u, m.al);
    Back(b, m.ah);
  }

  lemma {:induction false} TurnStage(b: byte, m: Mix)
    ensures Turn(TurnBack(b, m), m) == b && TurnBack(Turn(b, m), m) == b
  {
    hide Add, Sub, RotateLeft, RotateRight;
    var t := RotateRight(b, m.c2);
    RotateBack(Add(t, m.al), m.c2);
    RotateBack(Sub(t, m.al), m.c2);
    Back(t, m.al);
    RotateBack(b, m.c2);
  }

  lemma {:induction false} KeyedStage(b: byte, m: Mix)
    ensures Keyed(KeyedBack(b, m), m) == b && KeyedBack(Keyed(b, m), m) == b
  {
    hide Add, Sub, Xor;
    var x := Xor(m.c1, m.ah);
    Back(Xor(Add(b, m.c3), m.c0), x);
    Back(Add(b, m.c3), m.c0);
    Back(b, m.c3);
    Back(Xor(Sub(b, x), m.c0), m.c3);
    Back(Sub(b, x), m.c0);
    Back(b, x);
  }

  lemma {:induction false} PlacedStage(b: byte, m: Mix)
    ensures Placed(PlacedBack(b, m), m) == b && PlacedBack(Placed(b, m), m) == b
  {
    hide Add, Sub, Xor, RotateLeft, RotateRight;
    var x := Add(Add(m.cn2, m.nibble), m.ah);
    Back(RotateLeft(Add(b, m.nibble), m.cn1), x);
    RotateBack(Add(b, m.nibble), m.cn1);
    Back(b, m.nibble);
    Back(RotateRight(Xor(b, x), m.cn1), m.nibble);
    RotateBack(Xor(b, x), m.cn1);
    Back(b, x);
  }

  lemma {:induction false} InnerStage(b: byte, m: Mix)
    ensures Inner(InnerBack(b, m), m) == b && InnerBack(Inner(b, m), m) == b
  {
    hide Add, Sub, Xor;
    var x := Add(Add(m.cn0, m.cn1), 1);
    Back(Add(Add(b, m.al), m.ah), x);
    Back(Add(b, m.al), m.ah);
    Back(b, m.al);
    var t := Xor(b, x);
    Back(Sub(t, m.ah), m.al);
    Back(t, m.ah);
    Back(b, x);
  }

  /** Each position's byte map is a bijection: the two maps undo one another. */
  lemma {:induction false} ByteMaps(b: byte, m: Mix)
    ensures DecodeByte(EncodeByte(b, m), m) == b && EncodeByte(DecodeByte(b, m), m) == b
  {
    hide Outer, OuterBack, Turn, TurnBack, Keyed, KeyedBack, Placed, PlacedBack, Inner, InnerBack;
    var e1 := InnerBack(b, m);
    var e2 := PlacedBack(e1, m);
    var e3 := KeyedBack(e2, m);
    var e4 := TurnBack(e3, m);
    OuterStage(e4, m);
    TurnStage(e3, m);
    KeyedStage(e2, m);
    PlacedStage(e1, m);
    InnerStage(b, m);
    var d1 := Outer(b, m);
    var d2 := Turn(d1, m);
    var d3 := Keyed(d2, m);
    var d4 := Placed(d3, m);
    InnerStage(d4, m);
    PlacedStage(d3, m);
    KeyedStage(d2, m);
    TurnStage(d1, m);
    OuterStage(b, m);
  }

  // Whole buffers.

  /** Decoding leaves the buffer alone when there is no password. */
  function Decoded(buf: seq<byte>, code: seq<byte>): (r: seq<byte>)
    ensures |r| == |buf|
  {
    if code == [] then buf else seq(|buf|, i requires 0 <= i < |buf| => DecodeByte(buf[i], MixAt(code, i)))
  }

  function Encoded(buf: seq<byte>, code: seq<byte>): (r: seq<byte>)
    ensures |r| == |buf|
  {
    seq(|buf|, i requires 0 <= i < |buf| => EncodeByte(buf[i], MixAt(code, i)))
  }

  method DecodeBuffer(buf: array<byte>, code: seq<byte>)
    modifies buf
    ensures buf[..] == Decoded(old(buf[..]), code)
  {
    hide DecodeByte, MixAt;
    if |code| == 0 || buf.Length == 0 {
      return;
    }
    for counter := 0 to buf.Length
      invariant forall i :: 0 <= i < counter ==> buf[i] == DecodeByte(old(buf[i]), MixAt(code, i))
      invariant forall i :: counter <= i < buf.Length ==> buf[i] == old(buf[i])
    {
      buf[counter] := DecodeByte(buf[counter], MixAt(code, counter));
    }
  }

  method EncodeBuffer(buf: array<byte>, code: seq<byte>)
    modifies buf
    ensures buf[..] == Encoded(old(buf[..]), code)
  {
    hide EncodeByte, MixAt;
    for counter := 0 to buf.Length
      invariant forall i :: 0 <= i < counter ==> buf[i] == EncodeByte(old(buf[i]), MixAt(code, i))
      invariant forall i :: counter <= i < buf.Length ==> buf[i] == old(buf[i])
    {
      buf[counter] := EncodeByte(buf[counter], MixAt(code, counter));
    }
  }

  /** The first byte changes when there is no password. */
  lemma {:induction false} FirstByteChanges(b: byte)
    ensures EncodeByte(b, MixAt([], 0)) != b
  {
    hide ByteOf;
    var m := MixAt([], 0);
    ZeroByte(ByteOf(0));
    assert m == Mix(0, 0, 0, 0, 0, 0, 0, 0, 0, 0);
    NoTurn(b ^ 1);
    FlipChanges(b);
  }

  lemma {:induction false} ZeroByte(b: byte)
    requires b as nat == 0
    ensures b == 0
  {
  }

  lemma {:induction false} NoTurn(b: byte)
    ensures RotateLeft(b, 0) == b && RotateRight(b, 0) == b
  {
  }

  lemma {:induction false} FlipChanges(b: byte)
    ensures b ^ 1 != b
  {
  }

  /**
   Decoding undoes encoding exactly when there is a password or nothing to encode: without a password the
   encoder still mixes in the counter, and the decoder returns at once.
   */
  lemma {:induction false} DecodeUndoesEncode(buf: seq<byte>, code: seq<byte>)
    ensures Decoded(Encoded(buf, code), code) == buf <==> code != [] || buf == []
  {
    hide EncodeByte, DecodeByte, MixAt;
    if code != [] {
      forall i | 0 <= i < |buf| ensures Decoded(Encoded(buf, code), code)[i] == buf[i] {
        ByteMaps(buf[i], MixAt(code, i));
      }
    } else if buf != [] {
      FirstByteChanges(buf[0]);
      assert Encoded(buf, code)[0] != buf[0];
    }
  }

  /** With a password, every buffer is the encoding of exactly one buffer. */
  lemma {:induction false} EncodeUndoesDecode(buf: seq<byte>, code: seq<byte>)
    requires code != []
    ensures Encoded(Decoded(buf, code), code) == buf
  {
    hide EncodeByte, DecodeByte, MixAt;
    forall i | 0 <= i < |buf| ensures Encoded(Decoded(buf, code), code)[i] == buf[i] {
      ByteMaps(buf[i], MixAt(code, i));
    }
  }
}
