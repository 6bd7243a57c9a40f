/** Little-endian integers of fixed width. */
module LittleEndian {
  import opened Common

  function Pow256(k: nat): (p: nat)
    ensures p > 0
  {
    if k == 0 then 1 else 256 * Pow256(k - 1)
  }

  /** The low `k` octets of `n`, least significant first. */
  function Pack(n: nat, k: nat): (r: seq<Byte>)
    ensures |r| == k
    decreases k
  {
    if k == 0 then [] else [n % 256] + Pack(n / 256, k - 1)
  }

  function Unpack(b: seq<Byte>): nat {
    if b == [] then 0 else b[0] + 256 * Unpack(b[1..])
  }

  lemma {:induction false} UnpackPack(n: nat, k: nat)
    requires n < Pow256(k)
    ensures Unpack(Pack(n, k)) == n
    decreases k
  {
    if k > 0 {
      UnpackPack(n / 256, k - 1);
      assert Pack(n, k)[1..] == Pack(n / 256, k - 1);
    }
  }

  lemma {:induction false} PackUnpack(b: seq<Byte>)
    ensures Pack(Unpack(b), |b|) == b && Unpack(b) < Pow256(|b|)
  {
    if b != [] {
      PackUnpack(b[1..]);
      var n := Unpack(b);
      assert n % 256 == b[0] && n / 256 == Unpack(b[1..]);
      assert b == [b[0]] + b[1..];
    }
  }

  const TWO31 := 0x8000_0000
  const TWO32 := 0x1_0000_0000

  type Int32 = x: int | -TWO31 <= x < TWO31

  /** Two's complement. */
  function FromInt32(x: Int32): nat {
    if x < 0 then x + TWO32 else x
  }

  function ToInt32(n: nat): Int32
    requires n < TWO32
  {
    if n >= TWO31 then n - TWO32 else n
  }

  lemma Pow4()
    ensures Pow256(4) == TWO32
  {
    assert Pow256(0) == 1 && Pow256(1) == 256 && Pow256(2) == 0x1_0000 && Pow256(3) == 0x100_0000;
  }

  lemma Pow8()
    ensures Pow256(8) == 0x1_0000_0000_0000_0000
  {
    Pow4();
    assert Pow256(5) == 0x100_0000_0000 && Pow256(6) == 0x1_0000_0000_0000 && Pow256(7) == 0x100_0000_0000_0000;
  }

  function PackInt(x: Int32): (r: seq<Byte>)
    ensures |r| == 4
  {
    Pack(FromInt32(x), 4)
  }

  function UnpackInt(b: seq<Byte>): Int32
    requires |b| == 4
  {
    PackUnpack(b);
    Pow4();
    ToInt32(Unpack(b))
  }

  /** 32-bit two's-complement fields: a bijection. */
  lemma IntBijection(b: seq<Byte>, x: Int32)
    requires |b| == 4
    ensures UnpackInt(b) == x <==> b == PackInt(x)
  {
    Pow4();
    PackUnpack(b);
    UnpackPack(FromInt32(x), 4);
  }

  // ------------------------------------------------------------ arrays of int32

  function PackInts(xs: seq<Int32>): (r: seq<Byte>)
    ensures |r| == 4 * |xs|
  {
    if xs == [] then [] else PackInt(xs[0]) + PackInts(xs[1..])
  }

  function UnpackInts(b: seq<Byte>): (xs: seq<Int32>)
    requires |b| % 4 == 0
    ensures |xs| == |b| / 4
  {
    if b == [] then [] else [UnpackInt(b[..4])] + UnpackInts(b[4..])
  }

  lemma {:induction false} IntsBijection(b: seq<Byte>, xs: seq<Int32>)
    requires |b| % 4 == 0
    ensures UnpackInts(b) == xs <==> b == PackInts(xs)
    decreases |b|, |xs|
  {
    if b != [] && xs != [] {
      IntBijection(b[..4], xs[0]);
      IntsBijection(b[4..], xs[1..]);
      assert b == b[..4] + b[4..] && xs == [xs[0]] + xs[1..];
      assert UnpackInts(b)[0] == UnpackInt(b[..4]) && UnpackInts(b)[1..] == UnpackInts(b[4..]);
      assert PackInts(xs)[..4] == PackInt(xs[0]) && PackInts(xs)[4..] == PackInts(xs[1..]);
    }
  }
}

/** The `.s2voice` format of app/voice_profile.py. */
module VoiceProfile {
  import opened Common
  import opened LittleEndian
  import opened Utf8

  const MAGIC: seq<Byte> := [0x53, 0x32, 0x56, 0x4F, 0x49, 0x43, 0x45, 0]
  const VERSION := 1
  const HEADER_SIZE := 44
  const MAX_TRANSCRIPT_LEN := 1024 * 1024
  const MAX_CODES_SIZE := 100 * 1024 * 1024
  const MAX_FILE_SIZE := HEADER_SIZE + MAX_TRANSCRIPT_LEN + MAX_CODES_SIZE

  datatype Profile = Profile(
    transcript: seq<Scalar>, codes: seq<Int32>,
    numCodebooks: Int32, tPrompt: Int32, sampleRate: Int32, codebookSize: Int32)

  datatype ParseError =
    | TruncatedHeader
    | BadMagic
    | BadVersion
    | NegativeCodebooks
    | NegativeRate
    | NegativeCodebookSize
    | EmptyTranscript
    | TranscriptTooLong
    | CodesTooLarge
    | FileTooLarge
    | TrailingData
    | TruncatedData
    | NotTerminated
    | BadUtf8
    | CodesMisaligned

  // ------------------------------------------------------------ the header

  datatype Header = Header(
    magic: seq<Byte>, version: nat,
    numCodebooks: Int32, tPrompt: Int32, sampleRate: Int32, codebookSize: Int32,
    transcriptLen: nat, codesSize: nat)

  /** `struct.unpack_from("<8sIiiiiQQ", data, 0)`. */
  function ReadHeader(d: seq<Byte>): Header
    requires |d| >= HEADER_SIZE
  {
    Header(d[..8], Unpack(d[8..12]), UnpackInt(d[12..16]), UnpackInt(d[16..20]), UnpackInt(d[20..24]),
           UnpackInt(d[24..28]), Unpack(d[28..36]), Unpack(d[36..44]))
  }

  function WriteHeader(h: Header): (r: seq<Byte>)
    requires |h.magic| == 8
    ensures |r| == HEADER_SIZE
  {
    h.magic + (Pack(h.version, 4) + (PackInt(h.numCodebooks) + (PackInt(h.tPrompt) + (PackInt(h.sampleRate)
      + (PackInt(h.codebookSize) + (Pack(h.transcriptLen, 8) + Pack(h.codesSize, 8)))))))
  }

  lemma Peel(d: seq<Byte>, at: nat, x: seq<Byte>, rest: seq<Byte>)
    requires at <= |d| && d[at..] == x + rest
    ensures at + |x| <= |d| && d[at..at + |x|] == x && d[at + |x|..] == rest
  {
    assert d[at..at + |x|] == d[at..][..|x|];
    assert d[at + |x|..] == d[at..][|x|..];
  }

  predicate Representable(h: Header) {
    && |h.magic| == 8 && h.version < TWO32
    && h.transcriptLen < 0x1_0000_0000_0000_0000 && h.codesSize < 0x1_0000_0000_0000_0000
  }

  lemma PushBody(f4: seq<Byte>, f5: seq<Byte>, f6: seq<Byte>, f7: seq<Byte>, body: seq<Byte>)
    ensures (f4 + (f5 + (f6 + f7))) + body == f4 + (f5 + (f6 + (f7 + body)))
  {
    AppendAssoc(f6, f7, body);
    AppendAssoc(f5, f6 + f7, body);
    AppendAssoc(f4, f5 + (f6 + f7), body);
  }

  /** Eight consecutive fields of the header's widths, wherever they come from. */
  lemma EightFields(d: seq<Byte>, f0: seq<Byte>, f1: seq<Byte>, f2: seq<Byte>, f3: seq<Byte>, f4: seq<Byte>,
                    f5: seq<Byte>, f6: seq<Byte>, f7: seq<Byte>, body: seq<Byte>)
    requires |f0| == 8 && |f1| == |f2| == |f3| == |f4| == |f5| == 4 && |f6| == |f7| == 8
    requires d == (f0 + (f1 + (f2 + (f3 + (f4 + (f5 + (f6 + f7))))))) + body
    ensures |d| >= HEADER_SIZE && d[..8] == f0 && d[8..12] == f1 && d[12..16] == f2 && d[16..20] == f3
    ensures d[20..24] == f4 && d[24..28] == f5 && d[28..36] == f6 && d[36..44] == f7 && d[44..] == body
  {
    var back := f4 + (f5 + (f6 + f7));
    PushBody(f4, f5, f6, f7, body);
    PushBody(f0, f1, f2, f3 + back, body);
    AppendAssoc(f3, back, body);
    assert d[0..] == d;
    Peel(d, 0, f0, f1 + (f2 + (f3 + (back + body))));
    Peel(d, 8, f1, f2 + (f3 + (back + body)));
    Peel(d, 12, f2, f3 + (back + body));
    Peel(d, 16, f3, back + body);
    Peel(d, 20, f4, f5 + (f6 + (f7 + body)));
    Peel(d, 24, f5, f6 + (f7 + body));
    Peel(d, 28, f6, f7 + body);
    Peel(d, 36, f7, body);
  }

  lemma ReadWritten(h: Header, body: seq<Byte>)
    requires Representable(h)
    ensures ReadHeader(WriteHeader(h) + body) == h
  {
    var d := WriteHeader(h) + body;
    EightFields(d, h.magic, Pack(h.version, 4), PackInt(h.numCodebooks), PackInt(h.tPrompt), PackInt(h.sampleRate),
                PackInt(h.codebookSize), Pack(h.transcriptLen, 8), Pack(h.codesSize, 8), body);
    Pow4();
    Pow8();
    UnpackPack(h.version, 4);
    UnpackPack(h.transcriptLen, 8);
    UnpackPack(h.codesSize, 8);
    IntBijection(PackInt(h.numCodebooks), h.numCodebooks);
    IntBijection(PackInt(h.tPrompt), h.tPrompt);
    IntBijection(PackInt(h.sampleRate), h.sampleRate);
    IntBijection(PackInt(h.codebookSize), h.codebookSize);
  }

  lemma Join(d: seq<Byte>, i: nat, j: nat)
    requires i <= j <= HEADER_SIZE <= |d|
    ensures d[i..HEADER_SIZE] == d[i..j] + d[j..HEADER_SIZE]
  {
  }

  lemma JoinFields(d: seq<Byte>)
    requires |d| >= HEADER_SIZE
    ensures d[..HEADER_SIZE] == d[..8] + (d[8..12] + (d[12..16] + (d[16..20] + (d[20..24] + (d[24..28]
      + (d[28..36] + d[36..44]))))))
  {
    Join(d, 0, 8);
    Join(d, 8, 12);
    Join(d, 12, 16);
    Join(d, 16, 20);
    Join(d, 20, 24);
    Join(d, 24, 28);
    Join(d, 28, 36);
  }

  lemma WriteRead(d: seq<Byte>)
    requires |d| >= HEADER_SIZE
    ensures Representable(ReadHeader(d)) && WriteHeader(ReadHeader(d)) == d[..HEADER_SIZE]
  {
    var h := ReadHeader(d);
    Pow4();
    Pow8();
    PackUnpack(d[8..12]);
    PackUnpack(d[28..36]);
    PackUnpack(d[36..44]);
    IntBijection(d[12..16], h.numCodebooks);
    IntBijection(d[16..20], h.tPrompt);
    IntBijection(d[20..24], h.sampleRate);
    IntBijection(d[24..28], h.codebookSize);
    JoinFields(d);
  }

  // ------------------------------------------------------------ parser and serializer

  /** The checks on the header alone, in the parser's order. */
  function HeaderError(h: Header): Option<ParseError> {
    if h.magic != MAGIC then Some(BadMagic)
    else if h.version != VERSION then Some(BadVersion)
    else if h.numCodebooks < 0 then Some(NegativeCodebooks)
    else if h.sampleRate < 0 then Some(NegativeRate)
    else if h.codebookSize < 0 then Some(NegativeCodebookSize)
    else if h.transcriptLen == 0 then Some(EmptyTranscript)
    else if h.transcriptLen > MAX_TRANSCRIPT_LEN then Some(TranscriptTooLong)
    else if h.codesSize > MAX_CODES_SIZE then Some(CodesTooLarge)
    else if HEADER_SIZE + h.transcriptLen + h.codesSize > MAX_FILE_SIZE then Some(FileTooLarge)
    else None
  }

  /** `parse_s2voice`. */
  function Parse(d: seq<Byte>): Result<Profile, ParseError> {
    if |d| < HEADER_SIZE then Err(TruncatedHeader)
    else
      var h := ReadHeader(d);
      var expected := HEADER_SIZE + h.transcriptLen + h.codesSize;
      if HeaderError(h).Some? then Err(HeaderError(h).value)
      else if |d| > expected then Err(TrailingData)
      else if |d| < expected then Err(TruncatedData)
      else ParseBody(h, d[HEADER_SIZE..HEADER_SIZE + h.transcriptLen], d[HEADER_SIZE + h.transcriptLen..])
  }

  function ParseBody(h: Header, transcriptBytes: seq<Byte>, codesBytes: seq<Byte>): Result<Profile, ParseError>
    requires transcriptBytes != []
  {
    var last := |transcriptBytes| - 1;
    if transcriptBytes[last] != 0 then Err(NotTerminated)
    else if Decode(transcriptBytes[..last]).None? then Err(BadUtf8)
    else if |codesBytes| % 4 != 0 then Err(CodesMisaligned)
    else Ok(Profile(Decode(transcriptBytes[..last]).value, UnpackInts(codesBytes),
                    h.numCodebooks, h.tPrompt, h.sampleRate, h.codebookSize))
  }

  function HeaderOf(p: Profile): Header {
    Header(MAGIC, VERSION, p.numCodebooks, p.tPrompt, p.sampleRate, p.codebookSize,
           |Encode(p.transcript)| + 1, 4 * |p.codes|)
  }

  /** The documented layout. */
  function Serialize(p: Profile): seq<Byte> {
    WriteHeader(HeaderOf(p)) + (Encode(p.transcript) + [0] + PackInts(p.codes))
  }

  /** Within the format's bounds. */
  predicate Storable(p: Profile) {
    && p.numCodebooks >= 0 && p.sampleRate >= 0 && p.codebookSize >= 0
    && |Encode(p.transcript)| < MAX_TRANSCRIPT_LEN
    && 4 * |p.codes| <= MAX_CODES_SIZE
  }

  // ------------------------------------------------------------ round trips

  lemma BodyParsed(p: Profile, h: Header)
    requires h == HeaderOf(p)
    ensures ParseBody(h, Encode(p.transcript) + [0], PackInts(p.codes)) == Ok(p)
  {
    var t := Encode(p.transcript) + [0];
    assert t[..|t| - 1] == Encode(p.transcript);
    DecodeEncode(p.transcript);
    IntsBijection(PackInts(p.codes), p.codes);
  }

  lemma BodySerialized(h: Header, t: seq<Byte>, codes: seq<Byte>)
    requires t != [] && ParseBody(h, t, codes).Ok?
    ensures var p := ParseBody(h, t, codes).value;
      && Encode(p.transcript) + [0] == t && PackInts(p.codes) == codes
      && |t| == |Encode(p.transcript)| + 1 && |codes| == 4 * |p.codes|
  {
    EncodeDecode(t[..|t| - 1]);
    assert t == t[..|t| - 1] + [0];
    IntsBijection(codes, UnpackInts(codes));
  }

  /** A file made of an acceptable header, a transcript and codes of the lengths it gives. */
  predicate Framed(d: seq<Byte>, h: Header, t: seq<Byte>, codes: seq<Byte>) {
    && Representable(h) && HeaderError(h).None?
    && |t| == h.transcriptLen && |codes| == h.codesSize
    && d == WriteHeader(h) + (t + codes)
  }

  lemma SplitThree(d: seq<Byte>, cut: nat)
    requires HEADER_SIZE <= cut <= |d|
    ensures d == d[..HEADER_SIZE] + (d[HEADER_SIZE..cut] + d[cut..])
  {
  }

  lemma FramedParses(d: seq<Byte>, h: Header, t: seq<Byte>, codes: seq<Byte>)
    requires Framed(d, h, t, codes)
    ensures Parse(d) == ParseBody(h, t, codes)
  {
    ReadWritten(h, t + codes);
    assert d[HEADER_SIZE..] == t + codes;
    Peel(d, HEADER_SIZE, t, codes);
  }

  lemma ParsedFramed(d: seq<Byte>)
    requires Parse(d).Ok?
    ensures var h := ReadHeader(d);
      var cut := HEADER_SIZE + h.transcriptLen;
      cut <= |d| && Framed(d, h, d[HEADER_SIZE..cut], d[cut..])
  {
    var h := ReadHeader(d);
    var cut := HEADER_SIZE + h.transcriptLen;
    WriteRead(d);
    SplitThree(d, cut);
  }

  lemma StorableFramed(p: Profile)
    requires Storable(p)
    ensures Framed(Serialize(p), HeaderOf(p), Encode(p.transcript) + [0], PackInts(p.codes))
  {
  }

  lemma ParseSerialized(p: Profile)
    requires Storable(p)
    ensures Parse(Serialize(p)) == Ok(p)
  {
    StorableFramed(p);
    FramedParses(Serialize(p), HeaderOf(p), Encode(p.transcript) + [0], PackInts(p.codes));
    BodyParsed(p, HeaderOf(p));
  }

  lemma SerializeParsed(d: seq<Byte>)
    requires Parse(d).Ok?
    ensures Storable(Parse(d).value) && Serialize(Parse(d).value) == d
  {
    ParsedFramed(d);
    var h := ReadHeader(d);
    var cut := HEADER_SIZE + h.transcriptLen;
    FramedParses(d, h, d[HEADER_SIZE..cut], d[cut..]);
    BodySerialized(h, d[HEADER_SIZE..cut], d[cut..]);
  }

  /**
   * The format is a bijection between the storable profiles and the accepted
   * byte strings.
   */
  lemma ProfileBijection(d: seq<Byte>, p: Profile)
    ensures Parse(d) == Ok(p) <==> Storable(p) && d == Serialize(p)
  {
    if Storable(p) {
      ParseSerialized(p);
    }
    if Parse(d) == Ok(p) {
      SerializeParsed(d);
    }
  }

  /** A profile survives storage exactly when it is within the bounds. */
  lemma SurvivesExactly(p: Profile)
    ensures Parse(Serialize(p)) == Ok(p) <==> Storable(p)
  {
    ProfileBijection(Serialize(p), p);
  }

  /** An accepted file followed by anything is refused as trailing, and cut anywhere it is refused as truncated. */
  lemma NoTrailingNoTruncated(d: seq<Byte>, more: seq<Byte>, n: nat)
    requires Parse(d).Ok? && n < |d|
    ensures more != [] ==> Parse(d + more) == Err(TrailingData)
    ensures Parse(d[..n]) == Err(if n < HEADER_SIZE then TruncatedHeader else TruncatedData)
  {
    SameHeader(d + more, d);
    if n >= HEADER_SIZE {
      SameHeader(d[..n], d);
    }
  }

  lemma SameHeader(d: seq<Byte>, d': seq<Byte>)
    requires |d| >= HEADER_SIZE && |d'| >= HEADER_SIZE
    requires forall i :: 0 <= i < HEADER_SIZE ==> d[i] == d'[i]
    ensures ReadHeader(d) == ReadHeader(d')
  {
    assert d[..8] == d'[..8] && d[8..12] == d'[8..12] && d[12..16] == d'[12..16] && d[16..20] == d'[16..20];
    assert d[20..24] == d'[20..24] && d[24..28] == d'[24..28] && d[28..36] == d'[28..36] && d[36..44] == d'[36..44];
  }

  /** The check of the total size never fires: the two bounds before it imply it. */
  lemma TotalSizeImplied(d: seq<Byte>)
    ensures Parse(d) != Err(FileTooLarge)
  {
  }
}
