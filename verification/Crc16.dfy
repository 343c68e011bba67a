/**
 * The table-driven CRC (src/lib/crc16.c) against schoolbook division of bit strings by
 * x^16 + x^12 + x^5 + 1 (ITU-T V.41, section 2), and what the checksum detects. Bytes are unsigned.
 */
module Crc16 {

  /** CRC16_TABLE, by the two halves of the index. */
  function Table(i: bv8): bv16 {
    match i >> 4
    case 0x0 => (match i & 0xF
      case 0x0 => 0x0000 case 0x1 => 0x1021 case 0x2 => 0x2042 case 0x3 => 0x3063
      case 0x4 => 0x4084 case 0x5 => 0x50A5 case 0x6 => 0x60C6 case 0x7 => 0x70E7
      case 0x8 => 0x8108 case 0x9 => 0x9129 case 0xA => 0xA14A case 0xB => 0xB16B
      case 0xC => 0xC18C case 0xD => 0xD1AD case 0xE => 0xE1CE case _ => 0xF1EF)
    case 0x1 => (match i & 0xF
      case 0x0 => 0x1231 case 0x1 => 0x0210 case 0x2 => 0x3273 case 0x3 => 0x2252
      case 0x4 => 0x52B5 case 0x5 => 0x4294 case 0x6 => 0x72F7 case 0x7 => 0x62D6
      case 0x8 => 0x9339 case 0x9 => 0x8318 case 0xA => 0xB37B case 0xB => 0xA35A
      case 0xC => 0xD3BD case 0xD => 0xC39C case 0xE => 0xF3FF case _ => 0xE3DE)
    case 0x2 => (match i & 0xF
      case 0x0 => 0x2462 case 0x1 => 0x3443 case 0x2 => 0x0420 case 0x3 => 0x1401
      case 0x4 => 0x64E6 case 0x5 => 0x74C7 case 0x6 => 0x44A4 case 0x7 => 0x5485
      case 0x8 => 0xA56A case 0x9 => 0xB54B case 0xA => 0x8528 case 0xB => 0x9509
      case 0xC => 0xE5EE case 0xD => 0xF5CF case 0xE => 0xC5AC case _ => 0xD58D)
    case 0x3 => (match i & 0xF
      case 0x0 => 0x3653 case 0x1 => 0x2672 case 0x2 => 0x1611 case 0x3 => 0x0630
      case 0x4 => 0x76D7 case 0x5 => 0x66F6 case 0x6 => 0x5695 case 0x7 => 0x46B4
      case 0x8 => 0xB75B case 0x9 => 0xA77A case 0xA => 0x9719 case 0xB => 0x8738
      case 0xC => 0xF7DF case 0xD => 0xE7FE case 0xE => 0xD79D case _ => 0xC7BC)
    case 0x4 => (match i & 0xF
      case 0x0 => 0x48C4 case 0x1 => 0x58E5 case 0x2 => 0x6886 case 0x3 => 0x78A7
      case 0x4 => 0x0840 case 0x5 => 0x1861 case 0x6 => 0x2802 case 0x7 => 0x3823
      case 0x8 => 0xC9CC case 0x9 => 0xD9ED case 0xA => 0xE98E case 0xB => 0xF9AF
      case 0xC => 0x8948 case 0xD => 0x9969 case 0xE => 0xA90A case _ => 0xB92B)
    case 0x5 => (match i & 0xF
      case 0x0 => 0x5AF5 case 0x1 => 0x4AD4 case 0x2 => 0x7AB7 case 0x3 => 0x6A96
      case 0x4 => 0x1A71 case 0x5 => 0x0A50 case 0x6 => 0x3A33 case 0x7 => 0x2A12
      case 0x8 => 0xDBFD case 0x9 => 0xCBDC case 0xA => 0xFBBF case 0xB => 0xEB9E
      case 0xC => 0x9B79 case 0xD => 0x8B58 case 0xE => 0xBB3B case _ => 0xAB1A)
    case 0x6 => (match i & 0xF
      case 0x0 => 0x6CA6 case 0x1 => 0x7C87 case 0x2 => 0x4CE4 case 0x3 => 0x5CC5
      case 0x4 => 0x2C22 case 0x5 => 0x3C03 case 0x6 => 0x0C60 case 0x7 => 0x1C41
      case 0x8 => 0xEDAE case 0x9 => 0xFD8F case 0xA => 0xCDEC case 0xB => 0xDDCD
      case 0xC => 0xAD2A case 0xD => 0xBD0B case 0xE => 0x8D68 case _ => 0x9D49)
    case 0x7 => (match i & 0xF
      case 0x0 => 0x7E97 case 0x1 => 0x6EB6 case 0x2 => 0x5ED5 case 0x3 => 0x4EF4
      case 0x4 => 0x3E13 case 0x5 => 0x2E32 case 0x6 => 0x1E51 case 0x7 => 0x0E70
      case 0x8 => 0xFF9F case 0x9 => 0xEFBE case 0xA => 0xDFDD case 0xB => 0xCFFC
      case 0xC => 0xBF1B case 0xD => 0xAF3A case 0xE => 0x9F59 case _ => 0x8F78)
    case 0x8 => (match i & 0xF
      case 0x0 => 0x9188 case 0x1 => 0x81A9 case 0x2 => 0xB1CA case 0x3 => 0xA1EB
      case 0x4 => 0xD10C case 0x5 => 0xC12D case 0x6 => 0xF14E case 0x7 => 0xE16F
      case 0x8 => 0x1080 case 0x9 => 0x00A1 case 0xA => 0x30C2 case 0xB => 0x20E3
      case 0xC => 0x5004 case 0xD => 0x4025 case 0xE => 0x7046 case _ => 0x6067)
    case 0x9 => (match i & 0xF
      case 0x0 => 0x83B9 case 0x1 => 0x9398 case 0x2 => 0xA3FB case 0x3 => 0xB3DA
      case 0x4 => 0xC33D case 0x5 => 0xD31C case 0x6 => 0xE37F case 0x7 => 0xF35E
      case 0x8 => 0x02B1 case 0x9 => 0x1290 case 0xA => 0x22F3 case 0xB => 0x32D2
      case 0xC => 0x4235 case 0xD => 0x5214 case 0xE => 0x6277 case _ => 0x7256)
    case 0xA => (match i & 0xF
      case 0x0 => 0xB5EA case 0x1 => 0xA5CB case 0x2 => 0x95A8 case 0x3 => 0x8589
      case 0x4 => 0xF56E case 0x5 => 0xE54F case 0x6 => 0xD52C case 0x7 => 0xC50D
      case 0x8 => 0x34E2 case 0x9 => 0x24C3 case 0xA => 0x14A0 case 0xB => 0x0481
      case 0xC => 0x7466 case 0xD => 0x6447 case 0xE => 0x5424 case _ => 0x4405)
    case 0xB => (match i & 0xF
      case 0x0 => 0xA7DB case 0x1 => 0xB7FA case 0x2 => 0x8799 case 0x3 => 0x97B8
      case 0x4 => 0xE75F case 0x5 => 0xF77E case 0x6 => 0xC71D case 0x7 => 0xD73C
      case 0x8 => 0x26D3 case 0x9 => 0x36F2 case 0xA => 0x0691 case 0xB => 0x16B0
      case 0xC => 0x6657 case 0xD => 0x7676 case 0xE => 0x4615 case _ => 0x5634)
    case 0xC => (match i & 0xF
      case 0x0 => 0xD94C case 0x1 => 0xC96D case 0x2 => 0xF90E case 0x3 => 0xE92F
      case 0x4 => 0x99C8 case 0x5 => 0x89E9 case 0x6 => 0xB98A case 0x7 => 0xA9AB
      case 0x8 => 0x5844 case 0x9 => 0x4865 case 0xA => 0x7806 case 0xB => 0x6827
      case 0xC => 0x18C0 case 0xD => 0x08E1 case 0xE => 0x3882 case _ => 0x28A3)
    case 0xD => (match i & 0xF
      case 0x0 => 0xCB7D case 0x1 => 0xDB5C case 0x2 => 0xEB3F case 0x3 => 0xFB1E
      case 0x4 => 0x8BF9 case 0x5 => 0x9BD8 case 0x6 => 0xABBB case 0x7 => 0xBB9A
      case 0x8 => 0x4A75 case 0x9 => 0x5A54 case 0xA => 0x6A37 case 0xB => 0x7A16
      case 0xC => 0x0AF1 case 0xD => 0x1AD0 case 0xE => 0x2AB3 case _ => 0x3A92)
    case 0xE => (match i & 0xF
      case 0x0 => 0xFD2E case 0x1 => 0xED0F case 0x2 => 0xDD6C case 0x3 => 0xCD4D
      case 0x4 => 0xBDAA case 0x5 => 0xAD8B case 0x6 => 0x9DE8 case 0x7 => 0x8DC9
      case 0x8 => 0x7C26 case 0x9 => 0x6C07 case 0xA => 0x5C64 case 0xB => 0x4C45
      case 0xC => 0x3CA2 case 0xD => 0x2C83 case 0xE => 0x1CE0 case _ => 0x0CC1)
    case _ => (match i & 0xF
      case 0x0 => 0xEF1F case 0x1 => 0xFF3E case 0x2 => 0xCF5D case 0x3 => 0xDF7C
      case 0x4 => 0xAF9B case 0x5 => 0xBFBA case 0x6 => 0x8FD9 case 0x7 => 0x9FF8
      case 0x8 => 0x6E17 case 0x9 => 0x7E36 case 0xA => 0x4E55 case 0xB => 0x5E74
      case 0xC => 0x2E93 case 0xD => 0x3EB2 case 0xE => 0x0ED1 case _ => 0x1EF0)
  }

  /** do_crc16 on the first `length` bytes of `data`. */
  method DoCrc16(initial: bv16, data: array<bv8>, length: nat) returns (crc: bv16)
    requires length <= data.Length
    ensures Bits(crc) == FeedBits(Bits(initial), MessageBits(data[..length]))
    ensures Bits(crc) == Remainder(XorFront(Bits(initial), MessageBits(data[..length]) + ZEROS))
  {
    hide Table, FeedBits, MessageBits, ByteBits, Remainder, Bits;
    crc := initial;
    var i, left := 0, length;
    NoBits(Bits(initial));
    assert data[..0] == [];
    while left > 0
      invariant i + left == length
      invariant Bits(crc) == FeedBits(Bits(initial), MessageBits(data[..i]))
    {
      ByteAtOnce(crc, data[i]);
      Composes(Bits(initial), data[..i], [data[i]]);
      assert data[..i + 1] == data[..i] + [data[i]];
      OneByte(data[i]);
      crc := (crc << 8) ^ Table(data[i] ^ High(crc));
      i, left := i + 1, left - 1;
    }
    DivisionIsFeeding(Bits(initial), MessageBits(data[..length]));
  }

  method GetCrc16(data: array<bv8>, length: nat) returns (crc: bv16)
    requires length <= data.Length
    ensures Bits(crc) == Remainder(XorFront(Bits(0xFFFF), MessageBits(data[..length]) + ZEROS))
  {
    crc := DoCrc16(0xFFFF, data, length);
  }

  // ----- bit strings, the most significant bit first

  function High(r: bv16): bv8 { ((r >> 8) & 0xFF) as bv8 }

  function Low(r: bv16): bv8 { (r & 0xFF) as bv8 }

  predicate Bit(b: bv8, mask: bv8) { b & mask != 0 }

  function Mask(k: nat): (m: bv8)
    requires k < 8
    ensures m & (m - 1) == 0
  {
    match k
    case 0 => 0x80 case 1 => 0x40 case 2 => 0x20 case 3 => 0x10
    case 4 => 0x08 case 5 => 0x04 case 6 => 0x02 case _ => 0x01
  }

  function ByteBits(b: bv8): (s: seq<bool>)
    ensures |s| == 8
  {
    seq(8, k requires 0 <= k < 8 => Bit(b, Mask(k)))
  }

  function Bits(r: bv16): (s: seq<bool>)
    ensures |s| == 16
  {
    ByteBits(High(r)) + ByteBits(Low(r))
  }

  function MessageBits(data: seq<bv8>): seq<bool> {
    if data == [] then [] else ByteBits(data[0]) + MessageBits(data[1..])
  }

  const ZEROS: seq<bool> := seq(16, _ => false)

  // ----- division of polynomials over the bits

  /** x^12 + x^5 + 1, the generator without its leading term, from the coefficient of x^15 down. */
  const GENERATOR: seq<bool> :=
    [false, false, false, true, false, false, false, false, false, false, true, false, false, false, false, true]

  /** `p` with `a` added to its leading bits. */
  function XorFront(a: seq<bool>, p: seq<bool>): (r: seq<bool>)
    requires |a| <= |p|
    ensures |r| == |p|
  {
    seq(|p|, i requires 0 <= i < |p| => if i < |a| then a[i] != p[i] else p[i])
  }

  /** The remainder of `p`, a polynomial given by its coefficients, on division by the generator. */
  function Remainder(p: seq<bool>): (r: seq<bool>)
    requires |p| >= 16
    ensures |r| == 16
    decreases |p|
  {
    if |p| == 16 then p
    else Remainder(if p[0] then XorFront(GENERATOR, p[1..]) else p[1..])
  }

  // ----- the same with a register, one bit at a time

  function Step(r: seq<bool>, b: bool): (s: seq<bool>)
    requires |r| == 16
    ensures |s| == 16
    ensures forall i :: 0 <= i < 16 ==>
                          s[i] == ((i < 15 && r[i + 1]) != ((i == 3 || i == 10 || i == 15) && r[0] != b))
  {
    if r[0] != b then XorFront(GENERATOR, r[1..] + [false]) else r[1..] + [false]
  }

  function FeedBits(r: seq<bool>, bits: seq<bool>): (s: seq<bool>)
    requires |r| == 16
    ensures |s| == 16
    decreases bits
  {
    if bits == [] then r else FeedBits(Step(r, bits[0]), bits[1..])
  }

  /** One step of the register is one step of the division. */
  lemma StepDivides(r: seq<bool>, b: bool, rest: seq<bool>)
    requires |r| == 16 && |rest| >= 16
    ensures Remainder(XorFront(r, [b] + rest)) == Remainder(XorFront(Step(r, b), rest))
  {
    var p, q := XorFront(r, [b] + rest), XorFront(Step(r, b), rest);
    var p' := if p[0] then XorFront(GENERATOR, p[1..]) else p[1..];
    forall i | 0 <= i < |rest| ensures p'[i] == q[i] {
      assert p[1..][i] == p[i + 1] && ([b] + rest)[i + 1] == rest[i];
    }
    assert p' == q;
  }

  /**
   * Feeding a message to a register preset to `r` leaves the remainder of the message, shifted by 16
   * places, with `r` added to its leading bits.
   */
  lemma {:induction false} DivisionIsFeeding(r: seq<bool>, bits: seq<bool>)
    requires |r| == 16
    ensures Remainder(XorFront(r, bits + ZEROS)) == FeedBits(r, bits)
    decreases bits
  {
    if bits == [] {
      assert bits + ZEROS == ZEROS;
      assert XorFront(r, ZEROS) == r;
    } else {
      assert bits + ZEROS == [bits[0]] + (bits[1..] + ZEROS);
      StepDivides(r, bits[0], bits[1..] + ZEROS);
      DivisionIsFeeding(Step(r, bits[0]), bits[1..]);
    }
  }

  // ----- a byte at once

  /** The bit that step number `j` of `m` feeds back, seen at place `i` after the last step from the tap at `c`. */
  predicate Tap(r: seq<bool>, m: seq<bool>, c: nat, i: nat)
    requires |r| == 16 && |m| <= 16
  {
    var j := i - c + |m| - 1;
    0 <= j < |m| && r[j] != m[j]
  }

  lemma LaterTap(r: seq<bool>, m: seq<bool>, c: nat, i: nat)
    requires |r| == 16 && 0 < |m| <= 4
    ensures Tap(r, m, c, i) == (Tap(Step(r, m[0]), m[1..], c, i) || (i + |m| == c + 1 && r[0] != m[0]))
  {
    var j := i - c + |m| - 1;
    if 0 < j < |m| { assert Step(r, m[0])[j - 1] == r[j] && m[1..][j - 1] == m[j]; }
  }

  /** Up to four steps: the leading bits meet the message and come back at the three taps. */
  lemma {:induction false} FewSteps(r: seq<bool>, m: seq<bool>, i: nat)
    requires |r| == 16 && |m| <= 4 && i < 16
    ensures FeedBits(r, m)[i] ==
            ((i + |m| < 16 && r[i + |m|]) != (Tap(r, m, 3, i) || Tap(r, m, 10, i) || Tap(r, m, 15, i)))
    decreases m
  {
    if m != [] {
      var r' := Step(r, m[0]);
      FewSteps(r', m[1..], i);
      LaterTap(r, m, 3, i);
      LaterTap(r, m, 10, i);
      LaterTap(r, m, 15, i);
      hide Tap;
    }
  }

  /** The bits of a table index `x` that are fed back in eight steps. */
  predicate FedBack(x: seq<bool>, k: nat)
    requires |x| == 8 && k < 8
  {
    x[k] != (k >= 4 && x[k - 4])
  }

  /** The bits of the table entry for the index with the bits `x`. */
  predicate Entry(x: seq<bool>, i: nat)
    requires |x| == 8 && i < 16
  {
    (i < 4 && FedBack(x, i + 4)) != ((3 <= i < 11 && FedBack(x, i - 3)) != (8 <= i && FedBack(x, i - 8)))
  }

  lemma EightSteps(r: seq<bool>, m: seq<bool>, i: nat)
    requires |r| == 16 && |m| == 8 && i < 16
    ensures FeedBits(r, m)[i] == ((i < 8 && r[i + 8]) != Entry(XorFront(m, r[..8]), i))
  {
    hide FeedBits;
    var a, b := m[..4], m[4..];
    assert m == a + b;
    FeedJoin(r, a, b);
    var s := FeedBits(r, a);
    FewSteps(s, b, i);
    if i < 12 { FewSteps(r, a, i + 4); }
    if i < 4 { FewSteps(r, a, i); }
    if 7 <= i < 11 { FewSteps(r, a, i - 7); }
    if 12 <= i { FewSteps(r, a, i - 12); }
  }

  lemma TableFormula(i: bv8)
    ensures var t := (i ^ (i >> 4)) as bv16; Table(i) == (t << 12) ^ (t << 5) ^ t
  {
  }

  lemma HighEntry(i: bv8, k: nat)
    requires k < 8
    ensures Bit(High(Table(i)), Mask(k)) == Entry(ByteBits(i), k)
  {
    hide Table, Bit, High, ByteBits;
    HighMasks(i);
    NamedBits(i);
    match k
    case 0 => case 1 => case 2 => case 3 => case 4 => case 5 => case 6 => case _ =>
  }

  lemma LowEntry(i: bv8, k: nat)
    requires k < 8
    ensures Bit(Low(Table(i)), Mask(k)) == Entry(ByteBits(i), k + 8)
  {
    hide Table, Bit, Low, Entry, ByteBits;
    var x := ByteBits(i);
    LowMasks(i);
    NamedBits(i);
    assert Entry(x, k + 8) == ((k < 3 && FedBack(x, k + 5)) != FedBack(x, k)) by { EntryBelow(x, k); }
    match k
    case 0 => case 1 => case 2 => case 3 => case 4 => case 5 => case 6 => case _ =>
  }

  lemma NamedBits(b: bv8)
    ensures var x := ByteBits(b);
            && x[0] == Bit(b, 0x80) && x[1] == Bit(b, 0x40) && x[2] == Bit(b, 0x20) && x[3] == Bit(b, 0x10)
            && x[4] == Bit(b, 0x08) && x[5] == Bit(b, 0x04) && x[6] == Bit(b, 0x02) && x[7] == Bit(b, 0x01)
  {
  }

  lemma EntryBelow(x: seq<bool>, k: nat)
    requires |x| == 8 && k < 8
    ensures Entry(x, k + 8) == ((k < 3 && FedBack(x, k + 5)) != FedBack(x, k))
  {
  }

  lemma HighMasks(i: bv8)
    ensures var h := High(Table(i));
            && Bit(h, 0x80) == (Bit(i, 0x08) != Bit(i, 0x80)) && Bit(h, 0x40) == (Bit(i, 0x04) != Bit(i, 0x40))
            && Bit(h, 0x20) == (Bit(i, 0x02) != Bit(i, 0x20))
            && Bit(h, 0x10) == ((Bit(i, 0x01) != Bit(i, 0x10)) != Bit(i, 0x80))
            && Bit(h, 0x08) == Bit(i, 0x40) && Bit(h, 0x04) == Bit(i, 0x20)
            && Bit(h, 0x02) == Bit(i, 0x10) && Bit(h, 0x01) == (Bit(i, 0x08) != Bit(i, 0x80))
  {
    hide Table;
    TableFormula(i);
  }

  lemma LowMasks(i: bv8)
    ensures var l := Low(Table(i));
            && Bit(l, 0x80) == (Bit(i, 0x80) != (Bit(i, 0x04) != Bit(i, 0x40)))
            && Bit(l, 0x40) == (Bit(i, 0x40) != (Bit(i, 0x02) != Bit(i, 0x20)))
            && Bit(l, 0x20) == (Bit(i, 0x20) != (Bit(i, 0x01) != Bit(i, 0x10))) && Bit(l, 0x10) == Bit(i, 0x10)
            && Bit(l, 0x08) == (Bit(i, 0x08) != Bit(i, 0x80)) && Bit(l, 0x04) == (Bit(i, 0x04) != Bit(i, 0x40))
            && Bit(l, 0x02) == (Bit(i, 0x02) != Bit(i, 0x20)) && Bit(l, 0x01) == (Bit(i, 0x01) != Bit(i, 0x10))
  {
    hide Table;
    TableFormula(i);
  }

  /** The bits of every entry of the table. */
  lemma TableBits(i: bv8)
    ensures forall k :: 0 <= k < 16 ==> Bits(Table(i))[k] == Entry(ByteBits(i), k)
  {
    hide Table, Entry, Bit, High, Low;
    forall k | 0 <= k < 16 ensures Bits(Table(i))[k] == Entry(ByteBits(i), k) {
      if k < 8 { HighEntry(i, k); } else { LowEntry(i, k - 8); }
    }
  }

  lemma UpdateBytes(crc: bv16, t: bv16)
    ensures High((crc << 8) ^ t) == Low(crc) ^ High(t) && Low((crc << 8) ^ t) == Low(t)
  {
  }

  lemma BitOfXor(x: bv8, y: bv8, mask: bv8)
    requires mask & (mask - 1) == 0
    ensures Bit(x ^ y, mask) == (Bit(x, mask) != Bit(y, mask))
  {
  }

  lemma XorBits(x: bv8, y: bv8)
    ensures ByteBits(x ^ y) == XorFront(ByteBits(x), ByteBits(y))
  {
    forall k | 0 <= k < 8 ensures ByteBits(x ^ y)[k] == (ByteBits(x)[k] != ByteBits(y)[k]) {
      BitOfXor(x, y, Mask(k));
    }
  }

  /** What the table step does to each bit of the register. */
  lemma UpdateBits(crc: bv16, t: bv16)
    ensures forall k :: 0 <= k < 16 ==> Bits((crc << 8) ^ t)[k] == ((k < 8 && Bits(crc)[k + 8]) != Bits(t)[k])
  {
    hide Bits, ByteBits, High, Low, XorFront;
    UpdateBytes(crc, t);
    XoredBits((crc << 8) ^ t, crc, t);
  }

  lemma XoredBits(r: bv16, crc: bv16, t: bv16)
    requires High(r) == Low(crc) ^ High(t) && Low(r) == Low(t)
    ensures forall k :: 0 <= k < 16 ==> Bits(r)[k] == ((k < 8 && Bits(crc)[k + 8]) != Bits(t)[k])
  {
    hide ByteBits, High, Low;
    XorBits(Low(crc), High(t));
  }

  lemma IndexBits(crc: bv16, b: bv8)
    ensures ByteBits(b ^ High(crc)) == XorFront(ByteBits(b), Bits(crc)[..8])
  {
    hide ByteBits, High, Low, XorFront;
    XorBits(b, High(crc));
    assert Bits(crc)[..8] == ByteBits(High(crc));
  }

  lemma EightStepsAll(after: seq<bool>, r: seq<bool>, m: seq<bool>, x: seq<bool>, t: seq<bool>)
    requires |after| == |r| == |t| == 16 && |m| == |x| == 8 && x == XorFront(m, r[..8])
    requires forall k :: 0 <= k < 16 ==> after[k] == ((k < 8 && r[k + 8]) != t[k])
    requires forall k :: 0 <= k < 16 ==> t[k] == Entry(x, k)
    ensures after == FeedBits(r, m)
  {
    hide FeedBits, Entry, XorFront;
    forall k | 0 <= k < 16 ensures after[k] == FeedBits(r, m)[k] { EightSteps(r, m, k); }
  }

  lemma ByteAtOnce(crc: bv16, b: bv8)
    ensures Bits((crc << 8) ^ Table(b ^ High(crc))) == FeedBits(Bits(crc), ByteBits(b))
  {
    IndexBits(crc, b);
    TableStep(crc, Table(b ^ High(crc)), ByteBits(b), b ^ High(crc));
  }

  lemma TableStep(crc: bv16, t: bv16, m: seq<bool>, i: bv8)
    requires t == Table(i) && |m| == 8 && ByteBits(i) == XorFront(m, Bits(crc)[..8])
    ensures Bits((crc << 8) ^ t) == FeedBits(Bits(crc), m)
  {
    hide Table, Bit, High, Low;
    UpdateBits(crc, t);
    TableBits(i);
    EightStepsAll(Bits((crc << 8) ^ t), Bits(crc), m, ByteBits(i), Bits(t));
  }

  // ----- composition

  lemma NoBits(r: seq<bool>)
    requires |r| == 16
    ensures FeedBits(r, MessageBits([])) == r
  {
  }

  lemma OneByte(b: bv8)
    ensures MessageBits([b]) == ByteBits(b)
  {
    assert [b][1..] == [] && MessageBits([]) == [];
  }

  lemma {:induction false} MessageJoin(a: seq<bv8>, b: seq<bv8>)
    ensures MessageBits(a + b) == MessageBits(a) + MessageBits(b)
  {
    if a == [] {
      assert a + b == b;
    } else {
      assert (a + b)[1..] == a[1..] + b;
      MessageJoin(a[1..], b);
    }
  }

  lemma {:induction false} FeedJoin(r: seq<bool>, a: seq<bool>, b: seq<bool>)
    requires |r| == 16
    ensures FeedBits(r, a + b) == FeedBits(FeedBits(r, a), b)
    decreases a
  {
    if a == [] {
      assert a + b == b;
    } else {
      assert (a + b)[1..] == a[1..] + b;
      FeedJoin(Step(r, a[0]), a[1..], b);
    }
  }

  /** The checksum of two messages one after the other: that of the first is the preset for the second. */
  lemma Composes(r: seq<bool>, a: seq<bv8>, b: seq<bv8>)
    requires |r| == 16
    ensures FeedBits(r, MessageBits(a + b)) == FeedBits(FeedBits(r, MessageBits(a)), MessageBits(b))
  {
    MessageJoin(a, b);
    FeedJoin(r, MessageBits(a), MessageBits(b));
  }

  /** A register fed its own leading byte shifts. */
  lemma OwnByteShifts(r: seq<bool>)
    requires |r| == 16
    ensures FeedBits(r, r[..8]) == r[8..] + ZEROS[..8]
  {
    hide FeedBits;
    var s := FeedBits(r, r[..8]);
    forall i | 0 <= i < 16 ensures s[i] == (i < 8 && r[i + 8]) {
      EightSteps(r, r[..8], i);
    }
    assert s == r[8..] + ZEROS[..8];
  }

  /** A message with its checksum appended, the high byte first, leaves nothing. */
  lemma ResidueIsZero(initial: bv16, data: seq<bv8>, crc: bv16)
    requires Bits(crc) == FeedBits(Bits(initial), MessageBits(data))
    ensures FeedBits(Bits(initial), MessageBits(data + [High(crc), Low(crc)])) == ZEROS
  {
    hide FeedBits, MessageBits, ByteBits, High, Low;
    var r := Bits(crc);
    assert data + [High(crc), Low(crc)] == (data + [High(crc)]) + [Low(crc)];
    Composes(Bits(initial), data + [High(crc)], [Low(crc)]);
    Composes(Bits(initial), data, [High(crc)]);
    OneByte(High(crc));
    OneByte(Low(crc));
    assert r[..8] == ByteBits(High(crc)) && r[8..] == ByteBits(Low(crc));
    var shifted := r[8..] + ZEROS[..8];
    OwnByteShifts(r);
    OwnByteShifts(shifted);
    assert shifted[..8] == r[8..] && shifted[8..] + ZEROS[..8] == ZEROS;
  }

  // ----- what the checksum detects

  lemma {:induction false} FeedInjective(p: seq<bool>, q: seq<bool>, bits: seq<bool>)
    requires |p| == |q| == 16 && FeedBits(p, bits) == FeedBits(q, bits)
    ensures p == q
    decreases bits
  {
    if bits != [] {
      var b := bits[0];
      var p', q' := Step(p, b), Step(q, b);
      FeedInjective(p', q', bits[1..]);
      assert p'[15] == q'[15];
      forall i | 0 <= i < 16 ensures p[i] == q[i] {
        if i > 0 { assert p'[i - 1] == q'[i - 1]; }
      }
    }
  }

  /** Registers that meet after `k` bits each agree on all but their leading `k` bits. */
  lemma {:induction false} MeetingRegisters(p: seq<bool>, q: seq<bool>, x: seq<bool>, y: seq<bool>)
    requires |p| == |q| == 16 && |x| == |y| <= 16 && FeedBits(p, x) == FeedBits(q, y)
    ensures forall i :: |x| <= i < 16 ==> p[i] == q[i]
    decreases x
  {
    if x != [] {
      var p', q' := Step(p, x[0]), Step(q, y[0]);
      MeetingRegisters(p', q', x[1..], y[1..]);
      assert p'[15] == q'[15];
      forall i | |x| <= i < 16 ensures p[i] == q[i] { assert p'[i - 1] == q'[i - 1]; }
    }
  }

  lemma {:induction false} ShortDiffer(r: seq<bool>, x: seq<bool>, y: seq<bool>)
    requires |r| == 16 && |x| == |y| <= 16 && x != y
    ensures FeedBits(r, x) != FeedBits(r, y)
    decreases x
  {
    if x[0] == y[0] {
      assert x == [x[0]] + x[1..] && y == [y[0]] + y[1..];
      ShortDiffer(Step(r, x[0]), x[1..], y[1..]);
    } else {
      var p, q := Step(r, x[0]), Step(r, y[0]);
      assert p[15] != q[15];
      if FeedBits(r, x) == FeedBits(r, y) {
        MeetingRegisters(p, q, x[1..], y[1..]);
        assert false;
      }
    }
  }

  /** Two messages that differ in a burst of at most 16 bits have different checksums. */
  lemma DetectsBurst(r: seq<bool>, a: seq<bool>, x: seq<bool>, y: seq<bool>, z: seq<bool>)
    requires |r| == 16 && |x| == |y| <= 16 && x != y
    ensures FeedBits(r, a + x + z) != FeedBits(r, a + y + z)
  {
    FeedJoin(r, a + x, z);
    FeedJoin(r, a + y, z);
    FeedJoin(r, a, x);
    FeedJoin(r, a, y);
    ShortDiffer(FeedBits(r, a), x, y);
    if FeedBits(r, a + x + z) == FeedBits(r, a + y + z) {
      FeedInjective(FeedBits(r, a + x), FeedBits(r, a + y), z);
      assert false;
    }
  }
}
