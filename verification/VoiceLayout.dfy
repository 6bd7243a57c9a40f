/** The `.s2voice` layout byte by byte, and the first check that a refused file fails. */
module VoiceLayout {
  import opened Common
  import opened LittleEndian
  import opened Utf8
  import opened VoiceProfile

  /** The number in the `k` octets of `d` from `at`, least significant first. */
  function Little(d: seq<Byte>, at: nat, k: nat): nat
    requires at + k <= |d|
    decreases k
  {
    if k == 0 then 0 else d[at] + 256 * Little(d, at + 1, k - 1)
  }

  /** The 32-bit two's-complement number at `at`. */
  function Signed(d: seq<Byte>, at: nat): int
    requires at + 4 <= |d|
  {
    if d[at + 3] < 128 then Little(d, at, 4) else Little(d, at, 4) - 0x1_0000_0000
  }

  lemma {:induction false} UnpackIsLittle(d: seq<Byte>, at: nat, k: nat)
    requires at + k <= |d|
    ensures Unpack(d[at..at + k]) == Little(d, at, k)
    decreases k
  {
    if k > 0 {
      assert d[at..at + k][1..] == d[at + 1..at + 1 + (k - 1)];
      UnpackIsLittle(d, at + 1, k - 1);
    }
  }

  lemma FourOctets(d: seq<Byte>, at: nat, b0: int, b1: int, b2: int, b3: int)
    requires at + 4 <= |d| && b0 == d[at] && b1 == d[at + 1] && b2 == d[at + 2] && b3 == d[at + 3]
    ensures Little(d, at, 4) == b0 + 256 * b1 + 65536 * b2 + 16777216 * b3
  {
    assert Little(d, at + 4, 0) == 0;
    assert Little(d, at + 3, 1) == b3;
    assert Little(d, at + 2, 2) == b2 + 256 * b3;
    assert Little(d, at + 1, 3) == b1 + 256 * b2 + 65536 * b3;
  }

  lemma UnpackIsSigned(d: seq<Byte>, at: nat)
    requires at + 4 <= |d|
    ensures UnpackInt(d[at..at + 4]) == Signed(d, at)
  {
    UnpackIsLittle(d, at, 4);
    FourOctets(d, at, d[at], d[at + 1], d[at + 2], d[at + 3]);
  }

  /** Two's complement, octet by octet, of any array. */
  lemma {:induction false} UnpackedInts(d: seq<Byte>, at: nat, n: nat, i: nat)
    requires at + 4 * n <= |d| && i < n
    ensures UnpackInts(d[at..at + 4 * n])[i] == Signed(d, at + 4 * i)
    decreases n
  {
    var b := d[at..at + 4 * n];
    assert b[..4] == d[at..at + 4] && b[4..] == d[at + 4..at + 4 + 4 * (n - 1)];
    if i == 0 {
      UnpackIsSigned(d, at);
    } else {
      UnpackedInts(d, at + 4, n - 1, i - 1);
    }
  }

  lemma HeaderFields(d: seq<Byte>)
    requires |d| >= 44
    ensures var h := ReadHeader(d);
      && h.magic == d[..8] && h.version == Little(d, 8, 4)
      && h.numCodebooks == Signed(d, 12) && h.tPrompt == Signed(d, 16)
      && h.sampleRate == Signed(d, 20) && h.codebookSize == Signed(d, 24)
      && h.transcriptLen == Little(d, 28, 8) && h.codesSize == Little(d, 36, 8)
  {
    UnpackIsLittle(d, 8, 4);
    UnpackIsSigned(d, 12);
    UnpackIsSigned(d, 16);
    UnpackIsSigned(d, 20);
    UnpackIsSigned(d, 24);
    UnpackIsLittle(d, 28, 8);
    UnpackIsLittle(d, 36, 8);
  }

  /** Where the transcript's final zero octet stands, one further. */
  function TranscriptEnd(d: seq<Byte>): nat
    requires |d| >= 44
  {
    44 + Little(d, 28, 8)
  }

  function TotalSize(d: seq<Byte>): nat
    requires |d| >= 44
  {
    TranscriptEnd(d) + Little(d, 36, 8)
  }

  lemma VersionOctets(d: seq<Byte>)
    requires |d| >= 44 && Little(d, 8, 4) == 1
    ensures d[8..12] == [1, 0, 0, 0]
  {
    FourOctets(d, 8, d[8], d[9], d[10], d[11]);
  }

  /** The front of an accepted file. */
  predicate FrontOf(d: seq<Byte>, p: Profile) {
    && |d| >= 44 && d[..8] == [83, 50, 86, 79, 73, 67, 69, 0] && d[8..12] == [1, 0, 0, 0]
    && p.numCodebooks == Signed(d, 12) && p.tPrompt == Signed(d, 16)
    && p.sampleRate == Signed(d, 20) && p.codebookSize == Signed(d, 24)
  }

  /** Its transcript and codes, the transcript's zero octet before `end`. */
  predicate BackOf(d: seq<Byte>, p: Profile, end: int) {
    && 44 < end <= |d| && d[end - 1] == 0 && d[44..end - 1] == Encode(p.transcript)
    && 4 * |p.codes| == |d| - end
    && forall i :: 0 <= i < |p.codes| ==> p.codes[i] == Signed(d, end + 4 * i)
  }

  lemma FrontIs(d: seq<Byte>)
    requires Parse(d).Ok?
    ensures FrontOf(d, Parse(d).value) && |d| == TotalSize(d) && 44 < TranscriptEnd(d) <= |d|
    ensures ParseBody(ReadHeader(d), d[44..TranscriptEnd(d)], d[TranscriptEnd(d)..]) == Parse(d)
  {
    HeaderFields(d);
    VersionOctets(d);
  }

  lemma BackIs(d: seq<Byte>, end: nat, h: Header, p: Profile)
    requires 44 < end <= |d| && ParseBody(h, d[44..end], d[end..]) == Ok(p)
    ensures BackOf(d, p, end)
  {
    var t := d[44..end];
    BodySerialized(h, t, d[end..]);
    TranscriptOf(d, end);
    assert (Encode(p.transcript) + [0])[..|t| - 1] == Encode(p.transcript);
    CodesAre(d, end, p.codes);
  }

  lemma CodesAre(d: seq<Byte>, end: nat, codes: seq<Int32>)
    requires end + 4 * |codes| == |d| && UnpackInts(d[end..]) == codes
    ensures forall i :: 0 <= i < |codes| ==> codes[i] == Signed(d, end + 4 * i)
  {
    assert d[end..] == d[end..end + 4 * |codes|];
    forall i | 0 <= i < |codes|
      ensures codes[i] == Signed(d, end + 4 * i)
    {
      UnpackedInts(d, end, |codes|, i);
    }
  }

  /**
   * The layout of an accepted file: "S2VOICE" and a zero octet, version 1, the
   * four signed fields, two lengths, the transcript and a zero octet, and the
   * codes, all little-endian.
   */
  lemma LayoutExactly(d: seq<Byte>)
    requires Parse(d).Ok?
    ensures FrontOf(d, Parse(d).value) && |d| == TotalSize(d) && BackOf(d, Parse(d).value, TranscriptEnd(d))
  {
    FrontIs(d);
    BackIs(d, TranscriptEnd(d), ReadHeader(d), Parse(d).value);
  }

  /** The bounds, in numbers. */
  lemma StorableExactly(p: Profile)
    ensures Storable(p) <==>
      && p.numCodebooks >= 0 && p.sampleRate >= 0 && p.codebookSize >= 0
      && |Encode(p.transcript)| + 1 <= 1048576 && 4 * |p.codes| <= 104857600
  {
  }

  // ------------------------------------------------------------ refusals

  /** The place of a check in the parser's order. */
  function Rank(e: ParseError): nat {
    match e
    case TruncatedHeader => 0
    case BadMagic => 1
    case BadVersion => 2
    case NegativeCodebooks => 3
    case NegativeRate => 4
    case NegativeCodebookSize => 5
    case EmptyTranscript => 6
    case TranscriptTooLong => 7
    case CodesTooLarge => 8
    case FileTooLarge => 9
    case TrailingData => 10
    case TruncatedData => 11
    case NotTerminated => 12
    case BadUtf8 => 13
    case CodesMisaligned => 14
  }

  /** `b` is the UTF-8 of no text. */
  ghost predicate NoText(b: seq<Byte>) {
    forall s: seq<Scalar> :: Encode(s) != b
  }

  /** The file fails the check for `e`, as far as it can be made. */
  ghost predicate Violates(d: seq<Byte>, e: ParseError) {
    if |d| < 44 then e == TruncatedHeader
    else
      match e
      case TruncatedHeader => false
      case BadMagic => d[..8] != [83, 50, 86, 79, 73, 67, 69, 0]
      case BadVersion => Little(d, 8, 4) != 1
      case NegativeCodebooks => Signed(d, 12) < 0
      case NegativeRate => Signed(d, 20) < 0
      case NegativeCodebookSize => Signed(d, 24) < 0
      case EmptyTranscript => Little(d, 28, 8) == 0
      case TranscriptTooLong => Little(d, 28, 8) > 1048576
      case CodesTooLarge => Little(d, 36, 8) > 104857600
      case FileTooLarge => TotalSize(d) > 44 + 1048576 + 104857600
      case TrailingData => |d| > TotalSize(d)
      case TruncatedData => |d| < TotalSize(d)
      case NotTerminated => 44 < TranscriptEnd(d) <= |d| && d[TranscriptEnd(d) - 1] != 0
      case BadUtf8 => 44 < TranscriptEnd(d) <= |d| && NoText(d[44..TranscriptEnd(d) - 1])
      case CodesMisaligned => Little(d, 36, 8) % 4 != 0
  }

  lemma NoTextMeans(b: seq<Byte>)
    ensures Decode(b).None? <==> NoText(b)
  {
    if Decode(b).Some? {
      EncodeDecode(b);
    }
    forall s: seq<Scalar> | Encode(s) == b
      ensures Decode(b).Some?
    {
      DecodeEncode(s);
    }
  }

  /** No check before rank `n` fails. */
  ghost predicate PassesBefore(d: seq<Byte>, n: int) {
    forall f :: Rank(f) < n ==> !Violates(d, f)
  }

  /** The checks on the header. */
  lemma HeaderStage(d: seq<Byte>)
    requires |d| >= 44
    ensures var e := HeaderError(ReadHeader(d));
      if e.Some? then Violates(d, e.value) && PassesBefore(d, Rank(e.value)) else PassesBefore(d, 10)
  {
    HeaderFields(d);
  }

  /** The checks on transcript and codes. */
  lemma BodyErrors(h: Header, t: seq<Byte>, codes: seq<Byte>)
    requires t != []
    ensures var r := ParseBody(h, t, codes);
      if t[|t| - 1] != 0 then r == Err(NotTerminated)
      else if NoText(t[..|t| - 1]) then r == Err(BadUtf8)
      else if |codes| % 4 != 0 then r == Err(CodesMisaligned)
      else r.Ok?
  {
    NoTextMeans(t[..|t| - 1]);
  }

  lemma TranscriptOf(d: seq<Byte>, end: nat)
    requires 44 < end <= |d|
    ensures d[44..end] != [] && d[44..end][|d[44..end]| - 1] == d[end - 1]
    ensures d[44..end][..|d[44..end]| - 1] == d[44..end - 1]
  {
  }

  /** The checks on the sizes. */
  lemma SizeStage(d: seq<Byte>)
    requires |d| >= 44 && PassesBefore(d, 10) && HeaderError(ReadHeader(d)).None? && |d| != TotalSize(d)
    ensures Parse(d).Err? && Violates(d, Parse(d).error) && PassesBefore(d, Rank(Parse(d).error))
  {
    HeaderFields(d);
  }

  lemma BodyStage(d: seq<Byte>)
    requires |d| >= 44 && PassesBefore(d, 10) && HeaderError(ReadHeader(d)).None? && |d| == TotalSize(d)
    ensures match Parse(d)
      case Err(e) => Violates(d, e) && PassesBefore(d, Rank(e))
      case Ok(_) => PassesBefore(d, 15)
  {
    HeaderFields(d);
    assert !Violates(d, EmptyTranscript) && !Violates(d, TrailingData) && !Violates(d, TruncatedData);
    var end := TranscriptEnd(d);
    TranscriptOf(d, end);
    BodyErrors(ReadHeader(d), d[44..end], d[end..]);
    assert Parse(d) == ParseBody(ReadHeader(d), d[44..end], d[end..]);
    assert |d[end..]| == Little(d, 36, 8);
  }

  lemma Refusal(d: seq<Byte>)
    ensures match Parse(d)
      case Err(e) => Violates(d, e) && PassesBefore(d, Rank(e))
      case Ok(_) => PassesBefore(d, 15)
  {
    if |d| >= 44 {
      HeaderStage(d);
      if HeaderError(ReadHeader(d)).None? {
        if |d| == TotalSize(d) {
          BodyStage(d);
        } else {
          SizeStage(d);
        }
      }
    }
  }

  /** A file is refused for the first check in the parser's order that it fails, and accepted if it fails none. */
  lemma RefusedExactly(d: seq<Byte>, e: ParseError)
    ensures Parse(d) == Err(e) <==> Violates(d, e) && PassesBefore(d, Rank(e))
    ensures Parse(d).Ok? <==> forall f :: !Violates(d, f)
  {
    Refusal(d);
    if Parse(d).Err? && Parse(d) != Err(e) {
      assert Rank(e) != Rank(Parse(d).error);
    }
    assert Rank(e) < 15;
  }
}
