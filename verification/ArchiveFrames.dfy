/** The encrypted archive: framing of the payload, and reading it back. */
module ArchiveFrames {
  import opened Optional

  type Byte = b: int | 0 <= b < 256

  type Bytes = seq<Byte>

  const MAGIC: string := "RTRV-PQ-ARCHIVE-v1"
  const CHUNK: nat := 1024 * 1024
  const MAX_FRAME: nat := CHUNK + 4096
  const MAX_HEADER: nat := 64 * 1024
  const DATA: Byte := 0
  const FINAL: Byte := 1

  function MagicBytes(): (r: Bytes)
    ensures |r| == 18
  {
    seq(|MAGIC|, i requires 0 <= i < |MAGIC| => (MAGIC[i] as int) % 256)
  }

  // ----- Big-endian numbers -----

  function Big(n: nat, k: nat): (r: Bytes)
    ensures |r| == k
  {
    if k == 0 then [] else Big(n / 256, k - 1) + [n % 256]
  }

  function FromBig(b: Bytes): nat {
    if b == [] then 0 else 256 * FromBig(b[..|b| - 1]) + b[|b| - 1]
  }

  function Limit(k: nat): nat {
    if k == 0 then 1 else 256 * Limit(k - 1)
  }

  lemma {:induction false} BigRoundTrip(n: nat, k: nat)
    requires n < Limit(k)
    ensures FromBig(Big(n, k)) == n
  {
    if k > 0 {
      BigRoundTrip(n / 256, k - 1);
      assert Big(n, k)[..k - 1] == Big(n / 256, k - 1);
    }
  }

  lemma {:induction false} FromBigRoundTrip(b: Bytes)
    ensures FromBig(b) < Limit(|b|) && Big(FromBig(b), |b|) == b
  {
    if b != [] {
      var front := b[..|b| - 1];
      FromBigRoundTrip(front);
      assert FromBig(b) / 256 == FromBig(front) && FromBig(b) % 256 == b[|b| - 1];
      assert b == front + [b[|b| - 1]];
    }
  }

  lemma FourBytes()
    ensures Limit(4) == 0x1_0000_0000
  {
    assert Limit(1) == 256 && Limit(2) == 65536;
  }

  // ----- The encryption context -----

  /** A sequence-numbered sealing context as in section 5.2 of RFC 9180, with the hash of the archive header. */
  datatype Context = Context(
    seal: (nat, Bytes, Bytes) -> Bytes,
    open: (nat, Bytes, Bytes) -> Option<Bytes>,
    headerHash: Bytes)

  /** Opening undoes sealing, and sealing adds no more than the frame limit allows. */
  ghost predicate Correct(ctx: Context) {
    forall n, aad, plain :: ctx.open(n, aad, ctx.seal(n, aad, plain)) == Some(plain) && |ctx.seal(n, aad, plain)| <= |plain| + 4096
  }

  /** Only sealed frames open: the ideal of authenticity. */
  ghost predicate Authentic(ctx: Context) {
    forall n, aad, cipher :: ctx.open(n, aad, cipher).Some? ==> cipher == ctx.seal(n, aad, ctx.open(n, aad, cipher).value)
  }

  /** `archiveFrameAAD`: the magic, a zero byte, the header hash, the frame index, the frame type. */
  function FrameAAD(ctx: Context, index: nat, frameType: Byte): Bytes {
    MagicBytes() + [0] + ctx.headerHash + Big(index, 8) + [frameType]
  }

  /** A frame cannot stand in for another: the authenticated data tell index and type apart. */
  lemma FrameAADInjective(ctx: Context, i: nat, t: Byte, j: nat, u: Byte)
    requires i < Limit(8) && j < Limit(8) && FrameAAD(ctx, i, t) == FrameAAD(ctx, j, u)
    ensures i == j && t == u
  {
    hide Big, MagicBytes;
    var a, n := FrameAAD(ctx, i, t), 19 + |ctx.headerHash|;
    assert Big(i, 8) == a[n..n + 8] && Big(j, 8) == a[n..n + 8];
    assert a[n + 8] == t && a[n + 8] == u;
    BigRoundTrip(i, 8);
    BigRoundTrip(j, 8);
  }

  // ----- Frames -----

  datatype Frame = Frame(frameType: Byte, plaintext: Bytes)

  function Sealed(ctx: Context, index: nat, f: Frame): Bytes {
    ctx.seal(index, FrameAAD(ctx, index, f.frameType), f.plaintext)
  }

  /** The bytes of a frame: its type, the length of the ciphertext, the ciphertext. */
  function Encoded(ctx: Context, index: nat, f: Frame): Bytes {
    [f.frameType] + Big(|Sealed(ctx, index, f)|, 4) + Sealed(ctx, index, f)
  }

  function Stream(ctx: Context, index: nat, frames: seq<Frame>): Bytes
    decreases |frames|
  {
    if frames == [] then [] else Encoded(ctx, index, frames[0]) + Stream(ctx, index + 1, frames[1..])
  }

  function Payload(frames: seq<Frame>): Bytes {
    if frames == [] then [] else frames[0].plaintext + Payload(frames[1..])
  }

  /** A frame a reader can take. */
  predicate Fits(f: Frame) {
    (f.frameType == DATA && |f.plaintext| <= CHUNK) || (f.frameType == FINAL && f.plaintext == [])
  }

  /** Data frames followed by one final frame. */
  predicate Whole(frames: seq<Frame>) {
    && frames != [] && frames[|frames| - 1] == Frame(FINAL, [])
    && forall i :: 0 <= i < |frames| - 1 ==> frames[i].frameType == DATA && |frames[i].plaintext| <= CHUNK
  }

  // ----- Reading one frame -----

  datatype Parse = Bad | Good(frame: Frame, rest: Bytes)

  function ParseFrame(ctx: Context, index: nat, input: Bytes): Parse {
    if |input| < 5 then Bad
    else
      var frameType, len := input[0], FromBig(input[1..5]);
      if frameType != DATA && frameType != FINAL then Bad
      else if len > MAX_FRAME || |input| < 5 + len then Bad
      else
        match ctx.open(index, FrameAAD(ctx, index, frameType), input[5..5 + len])
        case None => Bad
        case Some(plain) => Good(Frame(frameType, plain), input[5 + len..])
  }

  /** What reading delivers before it ends, and whether it ends with the end of the archive. */
  datatype Decoded = Decoded(data: Bytes, complete: bool)

  function Decode(ctx: Context, index: nat, input: Bytes): Decoded
    decreases |input|
  {
    match ParseFrame(ctx, index, input)
    case Bad => Decoded([], false)
    case Good(frame, rest) =>
      if frame.frameType == FINAL then Decoded([], frame.plaintext == [] && rest == [])
      else
        var next := Decode(ctx, index + 1, rest);
        Decoded(frame.plaintext + next.data, next.complete)
  }

  /** The frame opens in its place, and sealing it added no more than the frame limit allows. */
  ghost predicate Opens(ctx: Context, index: nat, f: Frame) {
    ctx.open(index, FrameAAD(ctx, index, f.frameType), Sealed(ctx, index, f)) == Some(f.plaintext) && |Sealed(ctx, index, f)| <= |f.plaintext| + 4096
  }

  ghost predicate AllOpen(ctx: Context, index: nat, frames: seq<Frame>) {
    forall k :: 0 <= k < |frames| ==> Opens(ctx, index + k, frames[k])
  }

  lemma CorrectOpens(ctx: Context, index: nat, frames: seq<Frame>)
    requires Correct(ctx)
    ensures AllOpen(ctx, index, frames)
  {
    hide FrameAAD;
  }

  lemma AllOpenTail(ctx: Context, index: nat, frames: seq<Frame>)
    requires AllOpen(ctx, index, frames) && frames != []
    ensures Opens(ctx, index, frames[0]) && AllOpen(ctx, index + 1, frames[1..])
  {
    hide Opens;
    assert Opens(ctx, index + 0, frames[0]);
    forall k | 0 <= k < |frames[1..]|
      ensures Opens(ctx, index + 1 + k, frames[1..][k])
    {
      assert Opens(ctx, index + (k + 1), frames[k + 1]);
    }
  }

  lemma SealedFits(ctx: Context, index: nat, f: Frame)
    requires Opens(ctx, index, f) && Fits(f)
    ensures |Sealed(ctx, index, f)| <= MAX_FRAME
    ensures FromBig(Big(|Sealed(ctx, index, f)|, 4)) == |Sealed(ctx, index, f)|
    ensures ctx.open(index, FrameAAD(ctx, index, f.frameType), Sealed(ctx, index, f)) == Some(f.plaintext)
  {
    FourBytes();
    BigRoundTrip(|Sealed(ctx, index, f)|, 4);
  }

  /** A frame parses back, whatever follows it. */
  lemma ParseEncoded(ctx: Context, index: nat, f: Frame, rest: Bytes)
    requires Opens(ctx, index, f) && Fits(f)
    ensures ParseFrame(ctx, index, Encoded(ctx, index, f) + rest) == Good(f, rest)
  {
    hide Big, FromBig, Opens, FrameAAD;
    SealedFits(ctx, index, f);
    var cipher := Sealed(ctx, index, f);
    var input := Encoded(ctx, index, f) + rest;
    assert input[0] == f.frameType && input[1..5] == Big(|cipher|, 4);
    assert input[5..5 + |cipher|] == cipher && input[5 + |cipher|..] == rest;
  }

  /** A frame cut short does not parse. */
  lemma ParseCut(ctx: Context, index: nat, f: Frame, n: nat)
    requires Opens(ctx, index, f) && Fits(f) && n < |Encoded(ctx, index, f)|
    ensures ParseFrame(ctx, index, Encoded(ctx, index, f)[..n]) == Bad
  {
    hide Big, FromBig, Opens, FrameAAD;
    SealedFits(ctx, index, f);
    var input := Encoded(ctx, index, f)[..n];
    if n >= 5 {
      assert input[1..5] == Big(|Sealed(ctx, index, f)|, 4);
    }
  }

  // ----- Whole archives -----

  lemma WholeTail(frames: seq<Frame>)
    requires Whole(frames) && |frames| > 1
    ensures Whole(frames[1..]) && frames[0].frameType == DATA && Fits(frames[0])
  {
  }

  /** Reading a whole archive delivers its payload and then the end. */
  lemma {:induction false} DecodeStream(ctx: Context, index: nat, frames: seq<Frame>)
    requires AllOpen(ctx, index, frames) && Whole(frames)
    ensures Decode(ctx, index, Stream(ctx, index, frames)) == Decoded(Payload(frames), true)
    decreases |frames|
  {
    hide AllOpen, Opens, ParseFrame, Encoded;
    AllOpenTail(ctx, index, frames);
    var rest := Stream(ctx, index + 1, frames[1..]);
    ParseEncoded(ctx, index, frames[0], rest);
    if |frames| > 1 {
      WholeTail(frames);
      DecodeStream(ctx, index + 1, frames[1..]);
    }
  }

  /** Reading any strict prefix delivers a prefix of the payload and then an error. */
  lemma {:induction false} DecodePrefix(ctx: Context, index: nat, frames: seq<Frame>, n: nat)
    requires AllOpen(ctx, index, frames) && Whole(frames) && n < |Stream(ctx, index, frames)|
    ensures !Decode(ctx, index, Stream(ctx, index, frames)[..n]).complete
    ensures Decode(ctx, index, Stream(ctx, index, frames)[..n]).data <= Payload(frames)
    decreases |frames|
  {
    hide AllOpen, Opens, ParseFrame, Encoded;
    AllOpenTail(ctx, index, frames);
    var first, rest := Encoded(ctx, index, frames[0]), Stream(ctx, index + 1, frames[1..]);
    var input := (first + rest)[..n];
    if n < |first| {
      assert input == first[..n];
      ParseCut(ctx, index, frames[0], n);
    } else {
      assert |frames| > 1;
      WholeTail(frames);
      assert input == first + rest[..n - |first|];
      ParseEncoded(ctx, index, frames[0], rest[..n - |first|]);
      DecodePrefix(ctx, index + 1, frames[1..], n - |first|);
    }
  }

  lemma ParsedIsEncoded(ctx: Context, index: nat, input: Bytes)
    requires Authentic(ctx) && ParseFrame(ctx, index, input).Good?
    ensures var p := ParseFrame(ctx, index, input); input == Encoded(ctx, index, p.frame) + p.rest
  {
    hide Big, FromBig, FrameAAD;
    var p, len := ParseFrame(ctx, index, input), FromBig(input[1..5]);
    FromBigRoundTrip(input[1..5]);
    assert input[5..5 + len] == Sealed(ctx, index, p.frame);
    assert input == [input[0]] + input[1..5] + input[5..5 + len] + input[5 + len..];
  }

  /** With an authentic context, what reads to its end is a sequence of sealed frames with that payload, and nothing else. */
  lemma {:induction false} AcceptedIsStream(ctx: Context, index: nat, input: Bytes) returns (frames: seq<Frame>)
    requires Authentic(ctx) && Decode(ctx, index, input).complete
    ensures input == Stream(ctx, index, frames) && Payload(frames) == Decode(ctx, index, input).data
    ensures frames != [] && frames[|frames| - 1] == Frame(FINAL, []) && forall i :: 0 <= i < |frames| - 1 ==> frames[i].frameType == DATA
    decreases |input|
  {
    hide Authentic, ParseFrame, Encoded;
    var p := ParseFrame(ctx, index, input);
    ParsedIsEncoded(ctx, index, input);
    if p.frame.frameType == FINAL {
      frames := [p.frame];
      assert frames[1..] == [];
      assert Stream(ctx, index, frames) == Encoded(ctx, index, p.frame) + [];
    } else {
      assert p.frame.frameType == DATA by { ParsedType(ctx, index, input); }
      assert |p.rest| < |input| by { ParsedShorter(ctx, index, input); }
      var rest := AcceptedIsStream(ctx, index + 1, p.rest);
      frames := [p.frame] + rest;
      assert frames[1..] == rest;
    }
  }

  lemma ParsedType(ctx: Context, index: nat, input: Bytes)
    requires ParseFrame(ctx, index, input).Good?
    ensures var t := ParseFrame(ctx, index, input).frame.frameType; t == DATA || t == FINAL
  {
  }

  lemma ParsedShorter(ctx: Context, index: nat, input: Bytes)
    requires ParseFrame(ctx, index, input).Good?
    ensures |ParseFrame(ctx, index, input).rest| < |input|
  {
  }

  /** Nothing opens but what one writer sealed, each frame under the authenticated data of its own place and type, and those frames do. */
  ghost predicate OneWriter(ctx: Context, frames: seq<Frame>) {
    && AllOpen(ctx, 0, frames)
    && forall n, aad, cipher :: ctx.open(n, aad, cipher).Some? ==>
                                  exists k :: 0 <= k < |frames| && SealedAs(ctx, k, frames[k], aad, cipher)
  }

  predicate SealedAs(ctx: Context, k: nat, f: Frame, aad: Bytes, cipher: Bytes) {
    aad == FrameAAD(ctx, k, f.frameType) && cipher == Sealed(ctx, k, f)
  }

  /** The context in which exactly these frames open. */
  function Ideal(ctx: Context, frames: seq<Frame>): Context {
    ctx.(open := (n: nat, aad: Bytes, cipher: Bytes) => if n < |frames| && SealedAs(ctx, n, frames[n], aad, cipher) then Some(frames[n].plaintext) else None)
  }

  lemma IdealHasOneWriter(ctx: Context, frames: seq<Frame>)
    requires forall k :: 0 <= k < |frames| ==> |Sealed(ctx, k, frames[k])| <= |frames[k].plaintext| + 4096
    ensures OneWriter(Ideal(ctx, frames), frames)
  {
  }

  /** The frame parsed at place `i` is the one the writer put there. */
  lemma ParsedInPlace(ctx: Context, frames: seq<Frame>, i: nat, input: Bytes)
    requires OneWriter(ctx, frames) && i < |frames| <= Limit(8) && ParseFrame(ctx, i, input).Good?
    ensures var p := ParseFrame(ctx, i, input); p.frame == frames[i] && input == Encoded(ctx, i, frames[i]) + p.rest
  {
    hide Big, FromBig, FrameAAD, Limit;
    var p, len := ParseFrame(ctx, i, input), FromBig(input[1..5]);
    var aad, cipher := FrameAAD(ctx, i, input[0]), input[5..5 + len];
    var k :| 0 <= k < |frames| && SealedAs(ctx, k, frames[k], aad, cipher);
    FrameAADInjective(ctx, i, input[0], k, frames[k].frameType);
    assert Opens(ctx, 0 + i, frames[i]);
    FromBigRoundTrip(input[1..5]);
    assert input == [input[0]] + input[1..5] + cipher + input[5 + len..];
  }

  lemma {:induction false} EndsAsWritten(ctx: Context, frames: seq<Frame>, i: nat, input: Bytes)
    requires Whole(frames) && OneWriter(ctx, frames) && i < |frames| <= Limit(8) && Decode(ctx, i, input).complete
    ensures input == Stream(ctx, i, frames[i..])
    decreases |input|
  {
    hide OneWriter, ParseFrame, Encoded, Limit;
    var p := ParseFrame(ctx, i, input);
    ParsedInPlace(ctx, frames, i, input);
    assert frames[i..][1..] == frames[i + 1..];
    if p.frame.frameType != FINAL {
      assert i + 1 < |frames|;
      assert |p.rest| < |input| by { ParsedShorter(ctx, i, input); }
      EndsAsWritten(ctx, frames, i + 1, p.rest);
    } else {
      assert i + 1 == |frames|;
      assert input == Encoded(ctx, i, frames[i]) + [];
    }
  }

  /** What reads to its end is exactly what the writer wrote, frame for frame: none missing, moved, repeated or replaced. */
  lemma OnlyThatStream(ctx: Context, frames: seq<Frame>, input: Bytes)
    requires Whole(frames) && OneWriter(ctx, frames) && |frames| <= Limit(8)
    ensures Decode(ctx, 0, input).complete <==> input == Stream(ctx, 0, frames)
    ensures Decode(ctx, 0, input).complete ==> Decode(ctx, 0, input).data == Payload(frames)
  {
    assert AllOpen(ctx, 0, frames);
    hide OneWriter, AllOpen, Decode, Stream, Payload, Limit;
    DecodeStream(ctx, 0, frames);
    if Decode(ctx, 0, input).complete {
      assert frames[0..] == frames;
      EndsAsWritten(ctx, frames, 0, input);
    }
  }

  // ----- Writing -----

  lemma {:induction false} StreamMore(ctx: Context, index: nat, frames: seq<Frame>, f: Frame)
    ensures Stream(ctx, index, frames + [f]) == Stream(ctx, index, frames) + Encoded(ctx, index + |frames|, f)
    decreases |frames|
  {
    hide Encoded;
    if frames != [] {
      assert (frames + [f])[1..] == frames[1..] + [f];
      StreamMore(ctx, index + 1, frames[1..], f);
    } else {
      assert ([] + [f])[1..] == [];
    }
  }

  lemma {:induction false} PayloadMore(frames: seq<Frame>, f: Frame)
    ensures Payload(frames + [f]) == Payload(frames) + f.plaintext
  {
    if frames != [] {
      assert (frames + [f])[1..] == frames[1..] + [f];
      PayloadMore(frames[1..], f);
    } else {
      assert ([] + [f])[1..] == [];
    }
  }

  ghost predicate AllData(frames: seq<Frame>) {
    forall i :: 0 <= i < |frames| ==> frames[i].frameType == DATA && 0 < |frames[i].plaintext| <= CHUNK
  }

  class ArchiveWriter {
    const ctx: Context
    var output: Bytes
    var frameIndex: nat
    var closed: bool
    ghost var frames: seq<Frame>
    ghost var header: Bytes

    /** The output is the header followed by the frames written so far. */
    ghost predicate Valid()
      reads this
    {
      && frameIndex == |frames| && output == header + Stream(ctx, 0, frames)
      && (if closed then frames != [] && frames[|frames| - 1] == Frame(FINAL, []) && AllData(frames[..|frames| - 1]) else AllData(frames))
    }

    constructor (ctx: Context, header: Bytes)
      ensures Valid() && !closed && frames == [] && this.ctx == ctx && this.header == header
    {
      this.ctx, output, frameIndex, closed, frames := ctx, header, 0, false, [];
      this.header := header;
    }

    /** `writeFrame`. */
    method WriteFrame(f: Frame)
      requires frameIndex == |frames| && output == header + Stream(ctx, 0, frames)
      modifies this`output, this`frameIndex, this`frames
      ensures frameIndex == |frames| && output == header + Stream(ctx, 0, frames) && frames == old(frames) + [f]
    {
      hide Stream, Encoded;
      StreamMore(ctx, 0, frames, f);
      output := output + Encoded(ctx, frameIndex, f);
      frameIndex := frameIndex + 1;
      frames := frames + [f];
    }

    /** `Write`: the data in chunks of at most one mebibyte, one data frame each; nothing once closed. */
    method Write(p: Bytes) returns (written: nat, ok: bool)
      requires Valid()
      modifies this`output, this`frameIndex, this`frames
      ensures Valid() && ok == !closed && written == if ok then |p| else 0
      ensures Payload(frames) == Payload(old(frames)) + if ok then p else []
      ensures !ok ==> frames == old(frames)
      ensures old(frames) <= frames && forall i :: |old(frames)| <= i < |frames| - 1 ==> |frames[i].plaintext| == CHUNK
    {
      hide Stream, Payload;
      written := 0;
      if closed {
        return 0, false;
      }
      ghost var start := Payload(frames);
      while written < |p|
        invariant written <= |p| && Valid() && !closed
        invariant Payload(frames) == start + p[..written]
        invariant old(frames) <= frames && forall i :: |old(frames)| <= i < |frames| ==> |frames[i].plaintext| == CHUNK || (i == |frames| - 1 && written == |p|)
      {
        var chunkSize := if |p| - written > CHUNK then CHUNK else |p| - written;
        var f := Frame(DATA, p[written..written + chunkSize]);
        PayloadMore(frames, f);
        WriteFrame(f);
        assert p[..written + chunkSize] == p[..written] + p[written..written + chunkSize];
        written := written + chunkSize;
      }
      assert p[..|p|] == p;
      return written, true;
    }

    /** `Close`: one final frame, once. */
    method Close() returns (ok: bool)
      requires Valid()
      modifies this`output, this`frameIndex, this`frames, this`closed
      ensures Valid() && closed && ok == !old(closed)
      ensures Payload(frames) == Payload(old(frames))
      ensures ok ==> Whole(frames)
    {
      hide Stream, Payload;
      if closed {
        return false;
      }
      PayloadMore(frames, Frame(FINAL, []));
      WriteFrame(Frame(FINAL, []));
      assert frames[..|frames| - 1] == old(frames);
      closed := true;
      return true;
    }
  }

  // ----- Reading -----

  datatype ReadResult = Read(data: Bytes) | End | Failed

  class ArchiveReader {
    const ctx: Context
    var input: Bytes
    var frameIndex: nat
    var plaintext: Bytes
    var final: bool

    /** What the reader will still deliver, and whether it then ends properly. */
    ghost function Left(): Decoded
      reads this
    {
      var next := if final then Decoded([], true) else Decode(ctx, frameIndex, input);
      Decoded(plaintext + next.data, next.complete)
    }

    constructor (ctx: Context, input: Bytes)
      ensures Left() == Decode(ctx, 0, input) && this.ctx == ctx
    {
      this.ctx, this.input, frameIndex, plaintext, final := ctx, input, 0, [], false;
      new;
      assert [] + Decode(ctx, 0, input).data == Decode(ctx, 0, input).data;
    }

    /** `readNextFrame`. */
    method ReadNextFrame() returns (ok: bool)
      requires plaintext == [] && !final
      modifies this
      ensures ok ==> Left() == old(Left()) && |input| < |old(input)|
      ensures !ok ==> old(Left()) == Decoded([], false) && input == old(input) && plaintext == [] && final == old(final) && frameIndex == old(frameIndex)
    {
      var parsed := ParseFrame(ctx, frameIndex, input);
      if parsed.Bad? {
        return false;
      }
      if parsed.frame.frameType == FINAL {
        if parsed.frame.plaintext != [] || parsed.rest != [] {
          return false;
        }
        final := true;
      } else {
        plaintext := parsed.frame.plaintext;
      }
      input := parsed.rest;
      frameIndex := frameIndex + 1;
      ok := true;
    }

    /** `Read` into a buffer of the given size: some of what is left, the end exactly when nothing is, or an error. */
    method ReadSome(size: nat) returns (r: ReadResult)
      modifies this
      ensures size == 0 ==> r == Read([]) && Left() == old(Left())
      ensures size > 0 && r.Read? ==> 0 < |r.data| <= size && r.data + Left().data == old(Left()).data && Left().complete == old(Left()).complete
      ensures size > 0 && r.End? ==> old(Left()) == Decoded([], true)
      ensures size > 0 && r.Failed? ==> old(Left()) == Decoded([], false)
    {
      hide Decode;
      if size == 0 {
        return Read([]);
      }
      while plaintext == []
        invariant Left() == old(Left())
        decreases |input|
      {
        if final {
          return End;
        }
        var ok := ReadNextFrame();
        if !ok {
          return Failed;
        }
      }
      var n := if |plaintext| < size then |plaintext| else size;
      r := Read(plaintext[..n]);
      ghost var whole := plaintext;
      plaintext := plaintext[n..];
      assert whole == whole[..n] + whole[n..];
      ghost var next := if final then Decoded([], true) else Decode(ctx, frameIndex, input);
      assert whole[..n] + (whole[n..] + next.data) == whole + next.data;
    }

    /** Reading on, with any positive buffer sizes, until the end or an error. */
    method ReadAll(sizes: nat -> nat) returns (data: Bytes, complete: bool)
      requires forall k :: sizes(k) > 0
      modifies this
      ensures Decoded(data, complete) == old(Left())
    {
      data := [];
      var k := 0;
      while true
        invariant data + Left().data == old(Left()).data && Left().complete == old(Left()).complete
        decreases |Left().data|
      {
        ghost var before := Left();
        var r := ReadSome(sizes(k));
        match r
        case Read(some) =>
          assert data + before.data == (data + some) + Left().data;
          data := data + some;
        case End => return data, true;
        case Failed => return data, false;
        k := k + 1;
      }
    }
  }

  // ----- The envelope -----

  /** The magic, the length of the header, the header. */
  function Envelope(header: Bytes): Bytes {
    MagicBytes() + Big(|header|, 4) + header
  }

  /** `readEncryptedArchiveHeader`, with the check of the decoded header as a parameter: the header and what follows. */
  function OpenEnvelope(valid: Bytes -> bool, input: Bytes): Option<(Bytes, Bytes)> {
    if |input| < 22 || input[..18] != MagicBytes() then None
    else
      var len := FromBig(input[18..22]);
      if len == 0 || len > MAX_HEADER || |input| < 22 + len || !valid(input[22..22 + len]) then None
      else Some((input[22..22 + len], input[22 + len..]))
  }

  lemma OpenWhole(valid: Bytes -> bool, header: Bytes, rest: Bytes)
    requires 0 < |header| <= MAX_HEADER && valid(header)
    ensures OpenEnvelope(valid, Envelope(header) + rest) == Some((header, rest))
  {
    hide Big, FromBig, MagicBytes;
    FourBytes();
    BigRoundTrip(|header|, 4);
    var input := Envelope(header) + rest;
    assert input[..18] == MagicBytes() && input[18..22] == Big(|header|, 4);
    assert input[22..22 + |header|] == header && input[22 + |header|..] == rest;
  }

  lemma OpenCut(valid: Bytes -> bool, header: Bytes, n: nat)
    requires 0 < |header| <= MAX_HEADER && n < |Envelope(header)|
    ensures OpenEnvelope(valid, Envelope(header)[..n]) == None
  {
    hide Big, FromBig, MagicBytes;
    FourBytes();
    BigRoundTrip(|header|, 4);
    var input := Envelope(header)[..n];
    if n >= 22 {
      assert input[18..22] == Big(|header|, 4);
    }
  }

  /** Opening an archive and reading it: the payload, or a refusal, or an incomplete read. */
  function ReadArchive(valid: Bytes -> bool, context: Bytes -> Context, input: Bytes): Decoded {
    match OpenEnvelope(valid, input)
    case None => Decoded([], false)
    case Some(parts) => Decode(context(parts.0), 0, parts.1)
  }

  /**
   * A written and closed archive reads back as exactly what was written, and no strict prefix of it reads to an end.
   */
  lemma ArchiveRoundTrip(valid: Bytes -> bool, context: Bytes -> Context, header: Bytes, frames: seq<Frame>)
    requires 0 < |header| <= MAX_HEADER && valid(header) && Correct(context(header)) && Whole(frames)
    ensures var archive := Envelope(header) + Stream(context(header), 0, frames);
            && ReadArchive(valid, context, archive) == Decoded(Payload(frames), true)
            && forall n :: 0 <= n < |archive| ==> !ReadArchive(valid, context, archive[..n]).complete
  {
    hide OpenEnvelope, Decode, Envelope, Stream, Whole, Correct, AllOpen;
    var ctx := context(header);
    var envelope, stream := Envelope(header), Stream(ctx, 0, frames);
    var archive := envelope + stream;
    OpenWhole(valid, header, stream);
    CorrectOpens(ctx, 0, frames);
    DecodeStream(ctx, 0, frames);
    forall n | 0 <= n < |archive|
      ensures !ReadArchive(valid, context, archive[..n]).complete
    {
      if n < |envelope| {
        assert archive[..n] == envelope[..n];
        OpenCut(valid, header, n);
      } else {
        assert archive[..n] == envelope + stream[..n - |envelope|];
        OpenWhole(valid, header, stream[..n - |envelope|]);
        DecodePrefix(ctx, 0, frames, n - |envelope|);
      }
    }
  }

  function Concat(parts: seq<Bytes>): Bytes {
    if parts == [] then [] else Concat(parts[..|parts| - 1]) + parts[|parts| - 1]
  }

  /** Writing any parts, closing, and reading with any buffer sizes delivers the parts and then the end. */
  method WriteThenRead(valid: Bytes -> bool, context: Bytes -> Context, header: Bytes, parts: seq<Bytes>, sizes: nat -> nat)
    returns (data: Bytes, complete: bool)
    requires 0 < |header| <= MAX_HEADER && valid(header) && Correct(context(header)) && forall k :: sizes(k) > 0
    ensures data == Concat(parts) && complete
  {
    hide Correct, AllOpen, Stream, Payload, Decode, Whole, OpenEnvelope, Envelope;
    var ctx := context(header);
    var writer := new ArchiveWriter(ctx, Envelope(header));
    NoPayload();
    for i := 0 to |parts|
      invariant fresh(writer) && writer.Valid() && !writer.closed && writer.ctx == ctx && writer.header == Envelope(header)
      invariant Payload(writer.frames) == Concat(parts[..i])
    {
      assert parts[..i + 1][..i] == parts[..i];
      var _, _ := writer.Write(parts[i]);
    }
    assert parts[..|parts|] == parts;
    var _ := writer.Close();
    OpenWhole(valid, header, Stream(ctx, 0, writer.frames));
    CorrectOpens(ctx, 0, writer.frames);
    DecodeStream(ctx, 0, writer.frames);
    var envelope := OpenEnvelope(valid, writer.output);
    var reader := new ArchiveReader(context(envelope.value.0), envelope.value.1);
    data, complete := reader.ReadAll(sizes);
  }

  lemma NoPayload()
    ensures Payload([]) == []
  {
  }
}
