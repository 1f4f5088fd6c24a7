// The demo format of g_game.c: four bytes a command, after a header, up to a marker.
module DemoCodec {
  import N = LockstepNode

  type Ticcmd = N.Ticcmd
  type Byte = x: int | 0 <= x < 256

  const DEMOMARKER: Byte := 0x80

  /** The C types of the fields. */
  predicate InRange(c: Ticcmd) {
    && -128 <= c.forwardmove < 128 && -128 <= c.sidemove < 128
    && -0x8000 <= c.angleturn < 0x8000 && 0 <= c.buttons < 256
  }

  function ToByte(x: int): Byte {
    x % 256
  }

  /** (signed char) b */
  function SignedChar(b: Byte): int {
    if b >= 128 then b - 256 else b
  }

  /** Assignment to a short. */
  function ToShort(x: int): int {
    (x + 0x8000) % 0x1_0000 - 0x8000
  }

  /** (angle + 128) >> 8, as a byte. */
  function AngleByte(a: int): Byte {
    ToByte((a + 128) / 256)
  }

  /** ((unsigned char) b) << 8, as a short. */
  function AngleOf(b: Byte): int {
    var x: int := b;
    ToShort(x * 256)
  }

  /** The angle that is read back. */
  function Quantise(a: int): int {
    AngleOf(AngleByte(a))
  }

  function EncodeCmd(c: Ticcmd): (b: seq<Byte>)
    ensures |b| == 4
  {
    [ToByte(c.forwardmove), ToByte(c.sidemove), AngleByte(c.angleturn), ToByte(c.buttons)]
  }

  /** The fields of c that a demo does not hold stay as they are. */
  function DecodeCmd(c: Ticcmd, b: seq<Byte>): Ticcmd
    requires |b| == 4
  {
    c.(forwardmove := SignedChar(b[0]), sidemove := SignedChar(b[1]), angleturn := AngleOf(b[2]), buttons := b[3])
  }

  function Quantised(c: Ticcmd): Ticcmd {
    c.(angleturn := Quantise(c.angleturn))
  }

  /** d with the moves of c. */
  function WithMoves(d: Ticcmd, c: Ticcmd): Ticcmd {
    d.(forwardmove := c.forwardmove, sidemove := c.sidemove, angleturn := c.angleturn, buttons := c.buttons)
  }

  /** A command that may stand on a tape. */
  predicate OnTape(c: Ticcmd) {
    InRange(c) && c.forwardmove != -128 && Quantise(c.angleturn) == c.angleturn
  }

  lemma QuantiseRange(a: int)
    ensures -0x8000 <= Quantise(a) < 0x8000 && Quantise(a) % 256 == 0
  {
    var b: int := AngleByte(a);
    assert (b * 256 + 0x8000) % 0x1_0000 == if b < 128 then b * 256 + 0x8000 else b * 256 - 0x8000;
  }

  lemma AngleByteQuantised(a: int)
    ensures AngleByte(Quantise(a)) == AngleByte(a)
  {
    var b: int := AngleByte(a);
    var q := if b < 128 then b else b - 256;
    assert Quantise(a) == q * 256;
    assert (q * 256 + 128) / 256 == q;
    assert q % 256 == b;
  }

  /** Which byte tells what: byte 0 the forward move, 1 the side move, 2 the angle as far as it
      is kept, 3 the buttons. */
  lemma ByteExact(c: Ticcmd, d: Ticcmd)
    requires InRange(c) && InRange(d)
    ensures EncodeCmd(c)[0] == EncodeCmd(d)[0] <==> c.forwardmove == d.forwardmove
    ensures EncodeCmd(c)[1] == EncodeCmd(d)[1] <==> c.sidemove == d.sidemove
    ensures EncodeCmd(c)[2] == EncodeCmd(d)[2] <==> Quantise(c.angleturn) == Quantise(d.angleturn)
    ensures EncodeCmd(c)[3] == EncodeCmd(d)[3] <==> c.buttons == d.buttons
  {
    SameByte(c.forwardmove, d.forwardmove);
    SameByte(c.sidemove, d.sidemove);
    SameAngle(c.angleturn, d.angleturn);
    assert ToByte(c.buttons) == c.buttons && ToByte(d.buttons) == d.buttons;
  }

  lemma SameByte(x: int, y: int)
    requires -128 <= x < 128 && -128 <= y < 128
    ensures ToByte(x) == ToByte(y) <==> x == y
  {
  }

  lemma SameAngle(a: int, b: int)
    ensures AngleByte(a) == AngleByte(b) <==> Quantise(a) == Quantise(b)
  {
    AngleByteQuantised(a);
    AngleByteQuantised(b);
  }

  /** Forward at 50, left at 40, turning by 0x1280, firing. */
  lemma BytesOf(c: Ticcmd)
    requires c.forwardmove == 50 && c.sidemove == -40 && c.angleturn == 0x1280 && c.buttons == 1
    ensures EncodeCmd(c) == [50, 216, 0x13, 1]
  {
  }

  /** Quantising again changes nothing. */
  lemma QuantiseIdempotent(a: int)
    ensures Quantise(Quantise(a)) == Quantise(a)
  {
    AngleByteQuantised(a);
  }

  /** The quantised angle is the nearest multiple of 256, around the circle. */
  lemma QuantiseNearest(a: int)
    requires -0x8000 <= a < 0x8000
    ensures -128 <= ToShort(a - Quantise(a)) < 128
  {
    var k := (a + 128) / 256;
    assert -128 <= k <= 128;
    assert Quantise(a) == if k == 128 then -0x8000 else k * 256 by {
      if k < 0 { assert k % 256 == k + 256; }
    }
  }

  lemma SignedCharBack(x: int)
    requires -128 <= x < 128
    ensures SignedChar(ToByte(x)) == x && (ToByte(x) == DEMOMARKER <==> x == -128)
  {
    assert ToByte(x) == if x < 0 then x + 256 else x;
  }

  lemma CmdRoundTrip(c: Ticcmd, d: Ticcmd)
    requires InRange(c)
    ensures DecodeCmd(d, EncodeCmd(c)) == WithMoves(d, Quantised(c))
    ensures EncodeCmd(c)[0] == DEMOMARKER <==> c.forwardmove == -128
  {
    SignedCharBack(c.forwardmove);
    SignedCharBack(c.sidemove);
    assert ToByte(c.buttons) == c.buttons;
  }

  lemma QuantisedOnTape(c: Ticcmd)
    requires InRange(c) && c.forwardmove != -128
    ensures OnTape(Quantised(c)) && EncodeCmd(Quantised(c)) == EncodeCmd(c)
  {
    QuantiseRange(c.angleturn);
    QuantiseIdempotent(c.angleturn);
    AngleByteQuantised(c.angleturn);
  }

  // ---------------------------------------------------------------------------
  // Whole tapes

  function EncodeAll(cs: seq<Ticcmd>): (b: seq<Byte>)
    ensures |b| == 4 * |cs|
  {
    if cs == [] then [] else EncodeCmd(cs[0]) + EncodeAll(cs[1..])
  }

  lemma {:induction false} EncodeMore(cs: seq<Ticcmd>, c: Ticcmd)
    ensures EncodeAll(cs + [c]) == EncodeAll(cs) + EncodeCmd(c)
  {
    if cs == [] {
      assert EncodeAll([c]) == EncodeCmd(c) + [];
    } else {
      assert (cs + [c])[1..] == cs[1..] + [c];
      EncodeMore(cs[1..], c);
    }
  }

  lemma {:induction false} EncodedAt(cs: seq<Ticcmd>, k: nat)
    requires k < |cs|
    ensures EncodeAll(cs)[4 * k..4 * k + 4] == EncodeCmd(cs[k])
  {
    if k > 0 {
      EncodedAt(cs[1..], k - 1);
      assert EncodeAll(cs)[4 * k..4 * k + 4] == EncodeAll(cs[1..])[4 * (k - 1)..4 * (k - 1) + 4];
    }
  }

  const BLANK := N.Ticcmd(0, 0, 0, 0, 0, 0)

  /** The moves that reading yields up to the marker. */
  function PlayedBack(b: seq<Byte>): seq<Ticcmd> {
    if |b| < 4 || b[0] == DEMOMARKER then [] else [DecodeCmd(BLANK, b[..4])] + PlayedBack(b[4..])
  }

  function Moves(cs: seq<Ticcmd>): (r: seq<Ticcmd>)
    ensures |r| == |cs|
  {
    if cs == [] then [] else [WithMoves(BLANK, Quantised(cs[0]))] + Moves(cs[1..])
  }

  /** A tape plays back every command put on it, with its angle quantised, exactly if none
      of them has a forwardmove of -128. */
  lemma {:induction false} TapeRoundTrip(cs: seq<Ticcmd>)
    requires forall c :: c in cs ==> InRange(c)
    ensures PlayedBack(EncodeAll(cs) + [DEMOMARKER]) == Moves(cs) <==> forall c :: c in cs ==> c.forwardmove != -128
  {
    if cs != [] {
      var b, rest := EncodeAll(cs) + [DEMOMARKER], cs[1..];
      assert b[..4] == EncodeCmd(cs[0]) && b[4..] == EncodeAll(rest) + [DEMOMARKER];
      CmdRoundTrip(cs[0], BLANK);
      TapeRoundTrip(rest);
      assert b[0] == EncodeCmd(cs[0])[0];
      assert forall c :: c in cs <==> c == cs[0] || c in rest;
      if cs[0].forwardmove != -128 {
        Cons(WithMoves(BLANK, Quantised(cs[0])), PlayedBack(b[4..]), Moves(rest));
      }
    }
  }

  lemma Cons(c: Ticcmd, a: seq<Ticcmd>, b: seq<Ticcmd>)
    ensures [c] + a == [c] + b <==> a == b
  {
    assert ([c] + a)[1..] == a && ([c] + b)[1..] == b;
  }
}
