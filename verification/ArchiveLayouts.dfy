/** The bytes of an archive: where each part stands, and what a reader refuses. */
module ArchiveLayouts {
  import opened Optional
  import opened ArchiveFrames

  /** Four bytes as a number, the most significant one first. */
  function Word(a: Byte, b: Byte, c: Byte, d: Byte): nat {
    0x100_0000 * a + 0x1_0000 * b + 0x100 * c + d
  }

  lemma OneByte(b: Bytes)
    requires |b| == 1
    ensures FromBig(b) == b[0]
  {
    assert b[..0] == [];
  }

  lemma OneMore(b: Bytes)
    requires b != []
    ensures FromBig(b) == 256 * FromBig(b[..|b| - 1]) + b[|b| - 1]
  {
  }

  lemma FourAre(b: Bytes)
    requires |b| == 4
    ensures FromBig(b) == Word(b[0], b[1], b[2], b[3])
  {
    hide FromBig;
    assert b[..3][..2] == b[..2] && b[..2][..1] == b[..1];
    OneMore(b);
    OneMore(b[..3]);
    OneMore(b[..2]);
    OneByte(b[..1]);
  }

  lemma {:induction false} HighAndLow(b: Bytes, k: nat)
    requires k <= |b|
    ensures FromBig(b) == FromBig(b[..k]) * Limit(|b| - k) + FromBig(b[k..])
  {
    if k == |b| {
      assert b[..k] == b;
    } else {
      var n := |b| - 1;
      HighAndLow(b[..n], k);
      assert b[..n][..k] == b[..k] && b[..n][k..] == b[k..][..n - k];
      Spread(FromBig(b[..k]), Limit(n - k));
    }
  }

  lemma Spread(x: nat, y: nat)
    ensures 256 * (x * y) == x * (256 * y)
  {
  }

  /** Eight bytes are two words. */
  lemma EightAre(b: Bytes)
    requires |b| == 8
    ensures FromBig(b) == 0x1_0000_0000 * Word(b[0], b[1], b[2], b[3]) + Word(b[4], b[5], b[6], b[7])
  {
    hide FromBig, Limit, Word;
    HighAndLow(b, 4);
    FourAre(b[..4]);
    FourAre(b[4..]);
    FourBytes();
  }

  /** The first 18 bytes are the characters of the format's name. */
  predicate HasMagic(b: Bytes) {
    && |b| >= 18
    && b[0] == 'R' as int && b[1] == 'T' as int && b[2] == 'R' as int && b[3] == 'V' as int && b[4] == '-' as int && b[5] == 'P' as int
    && b[6] == 'Q' as int && b[7] == '-' as int && b[8] == 'A' as int && b[9] == 'R' as int && b[10] == 'C' as int && b[11] == 'H' as int
    && b[12] == 'I' as int && b[13] == 'V' as int && b[14] == 'E' as int && b[15] == '-' as int && b[16] == 'v' as int && b[17] == '1' as int
  }

  lemma MagicIs(b: Bytes)
    requires |b| >= 18
    ensures HasMagic(b) <==> b[..18] == MagicBytes()
  {
    var m := MagicBytes();
    assert MAGIC == ['R', 'T', 'R', 'V', '-', 'P', 'Q', '-', 'A', 'R', 'C', 'H', 'I', 'V', 'E', '-', 'v', '1'];
    assert HasMagic(m);
    if HasMagic(b) {
      assert forall i :: 0 <= i < 18 ==> b[i] == m[i];
    }
    if b[..18] == m {
      assert forall i :: 0 <= i < 18 ==> b[..18][i] == b[i];
    }
  }

  // ----- Writing -----

  /** A frame: one byte of type, four bytes of length, the ciphertext. */
  lemma FrameLayout(ctx: Context, index: nat, f: Frame)
    ensures var b, cipher := Encoded(ctx, index, f), Sealed(ctx, index, f);
            && |b| == 5 + |cipher| && b[0] == f.frameType && b[5..] == cipher
            && (|cipher| < 0x1_0000_0000 ==> Word(b[1], b[2], b[3], b[4]) == |cipher|)
  {
    hide Big, FromBig, FrameAAD;
    var b, cipher := Encoded(ctx, index, f), Sealed(ctx, index, f);
    assert b[1..5] == Big(|cipher|, 4);
    FourBytes();
    if |cipher| < 0x1_0000_0000 {
      BigRoundTrip(|cipher|, 4);
    }
    FourAre(b[1..5]);
  }

  /** What a frame is sealed under: the name, a zero byte, the header hash, eight bytes of index, one byte of type. */
  lemma SealedUnder(ctx: Context, index: nat, frameType: Byte)
    ensures var b, n := FrameAAD(ctx, index, frameType), 19 + |ctx.headerHash|;
            && |b| == n + 9 && HasMagic(b) && b[18] == 0 && b[19..n] == ctx.headerHash && b[n + 8] == frameType
            && (index < 0x1_0000_0000_0000_0000 ==>
                  index == 0x1_0000_0000 * Word(b[n], b[n + 1], b[n + 2], b[n + 3]) + Word(b[n + 4], b[n + 5], b[n + 6], b[n + 7]))
  {
    hide Big, FromBig, MagicBytes;
    var b, n := FrameAAD(ctx, index, frameType), 19 + |ctx.headerHash|;
    assert b[..18] == MagicBytes() && b[19..n] == ctx.headerHash && b[n..n + 8] == Big(index, 8);
    MagicIs(b);
    assert Limit(8) == 0x1_0000_0000_0000_0000 by { EightBytes(); }
    if index < Limit(8) {
      BigRoundTrip(index, 8);
    }
    EightAre(b[n..n + 8]);
  }

  lemma EightBytes()
    ensures Limit(8) == 0x1_0000_0000_0000_0000
  {
    FourBytes();
    assert Limit(5) == 256 * Limit(4) && Limit(6) == 256 * Limit(5) && Limit(7) == 256 * Limit(6);
  }

  /** The envelope: the name, four bytes of length, the header. */
  lemma EnvelopeLayout(header: Bytes)
    ensures var b := Envelope(header);
            && |b| == 22 + |header| && HasMagic(b) && b[22..] == header
            && (|header| < 0x1_0000_0000 ==> Word(b[18], b[19], b[20], b[21]) == |header|)
  {
    hide Big, FromBig, MagicBytes;
    var b := Envelope(header);
    assert b[..18] == MagicBytes() && b[18..22] == Big(|header|, 4);
    MagicIs(b);
    FourBytes();
    if |header| < 0x1_0000_0000 {
      BigRoundTrip(|header|, 4);
    }
    FourAre(b[18..22]);
  }

  // ----- Reading -----

  /** A frame is taken exactly when its type is 0 or 1, its length is at most 1 MiB and 4 KiB, it is all there, and it opens. */
  lemma FrameTakenIff(ctx: Context, index: nat, b: Bytes)
    ensures ParseFrame(ctx, index, b).Good? <==>
            && |b| >= 5 && (b[0] == 0 || b[0] == 1)
            && var n := Word(b[1], b[2], b[3], b[4]);
               n <= 1024 * 1024 + 4096 && |b| >= 5 + n && ctx.open(index, FrameAAD(ctx, index, b[0]), b[5..5 + n]).Some?
  {
    hide FromBig, FrameAAD;
    if |b| >= 5 {
      FourAre(b[1..5]);
    }
  }

  /** An envelope is opened exactly when it has the name, a header of 1 to 65536 bytes that is all there, and the header is valid. */
  lemma EnvelopeTakenIff(valid: Bytes -> bool, b: Bytes)
    ensures OpenEnvelope(valid, b).Some? <==>
            && |b| >= 22 && HasMagic(b)
            && var n := Word(b[18], b[19], b[20], b[21]);
               1 <= n <= 64 * 1024 && |b| >= 22 + n && valid(b[22..22 + n])
  {
    hide FromBig, MagicBytes;
    if |b| >= 22 {
      MagicIs(b);
      FourAre(b[18..22]);
    }
  }
}
