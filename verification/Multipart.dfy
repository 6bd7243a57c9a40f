/** Searching octet strings for a delimiter. */
module Search {
  import opened Common

  predicate StartsWith(s: seq<Byte>, p: seq<Byte>) {
    p <= s
  }

  predicate OccursAt(d: seq<Byte>, s: seq<Byte>, i: nat) {
    i + |d| <= |s| && forall k :: 0 <= k < |d| ==> s[i + k] == d[k]
  }

  ghost predicate Contains(s: seq<Byte>, d: seq<Byte>) {
    exists i: nat :: OccursAt(d, s, i)
  }

  /** Where `d` first occurs in `s`. */
  function Find(d: seq<Byte>, s: seq<Byte>): (r: Option<nat>)
    requires d != []
    ensures r.Some? ==> r.value + |d| <= |s|
  {
    if StartsWith(s, d) then Some(0)
    else if s == [] then None
    else
      var k := Find(d, s[1..]);
      if k.None? then None else Some(k.value + 1)
  }

  lemma OccursFirst(d: seq<Byte>, s: seq<Byte>)
    ensures OccursAt(d, s, 0) <==> StartsWith(s, d)
  {
    if OccursAt(d, s, 0) {
      assert s[..|d|] == d by {
        assert forall k :: 0 <= k < |d| ==> s[0 + k] == d[k];
      }
    }
  }

  lemma {:induction false} FindFirst(d: seq<Byte>, s: seq<Byte>, i: nat)
    requires d != [] && OccursAt(d, s, i)
    ensures Find(d, s).Some? && Find(d, s).value <= i
  {
    OccursFirst(d, s);
    if !StartsWith(s, d) {
      FindFirst(d, s[1..], i - 1);
    }
  }

  lemma {:induction false} FindOccurs(d: seq<Byte>, s: seq<Byte>)
    requires d != [] && Find(d, s).Some?
    ensures OccursAt(d, s, Find(d, s).value)
  {
    OccursFirst(d, s);
    if !StartsWith(s, d) {
      FindOccurs(d, s[1..]);
    }
  }

  /** A delimiter whose first octet is nowhere else in it. */
  predicate Clean(d: seq<Byte>) {
    d != [] && forall k :: 0 < k < |d| ==> d[k] != d[0]
  }

  lemma Overlap(d: seq<Byte>, s: seq<Byte>, i: nat, j: nat)
    requires d != [] && OccursAt(d, s, i) && OccursAt(d, s, j) && i < j
    ensures j < i + |d| ==> d[j - i] == d[0]
  {
    assert s[j + 0] == d[0];
    if j < i + |d| {
      assert s[i + (j - i)] == d[j - i];
    }
  }

  /** Such a delimiter cannot overlap itself. */
  lemma NoOverlap(d: seq<Byte>, s: seq<Byte>, i: nat, j: nat)
    requires Clean(d) && OccursAt(d, s, i) && OccursAt(d, s, j) && i < j
    ensures i + |d| <= j
  {
    Overlap(d, s, i, j);
  }

  lemma OccursInFront(d: seq<Byte>, p: seq<Byte>, rest: seq<Byte>, i: nat)
    requires i + |d| <= |p|
    ensures OccursAt(d, p + rest, i) <==> OccursAt(d, p, i)
  {
    assert forall k :: 0 <= k < |d| ==> ((p + rest)[i + k] == d[k] <==> p[i + k] == d[k]);
  }

  /** The first occurrence is the delimiter at the end of `p` exactly when `p` contains none. */
  lemma FoundAtEnd(d: seq<Byte>, p: seq<Byte>, rest: seq<Byte>)
    requires Clean(d)
    ensures Find(d, p + (d + rest)).Some?
    ensures !Contains(p, d) ==> Find(d, p + (d + rest)).value == |p|
    ensures Contains(p, d) ==> Find(d, p + (d + rest)).value + |d| <= |p|
  {
    var s := p + (d + rest);
    assert OccursAt(d, s, |p|) by {
      assert forall k :: 0 <= k < |d| ==> s[|p| + k] == d[k];
    }
    FindFirst(d, s, |p|);
    FindOccurs(d, s);
    var k := Find(d, s).value;
    if k < |p| {
      NoOverlap(d, s, k, |p|);
      OccursInFront(d, p, d + rest, k);
    }
    if Contains(p, d) {
      var i: nat :| OccursAt(d, p, i);
      OccursInFront(d, p, d + rest, i);
      FindFirst(d, s, i);
    }
  }

  /** A text without the delimiter's first octet cannot hide it. */
  lemma FoundAfter(d: seq<Byte>, p: seq<Byte>, rest: seq<Byte>)
    requires Clean(d) && d[0] !in p
    ensures Find(d, p + (d + rest)) == Some(|p|)
  {
    FoundAtEnd(d, p, rest);
    if Contains(p, d) {
      assert false;
    }
  }
}

/**
 * The multipart/form-data printer of app/s2_client.py, with a reader for it
 * following RFC 2046 section 5.1.1 and RFC 7578 section 4.
 */
module Multipart {
  import opened Common
  import opened Search

  function Ascii(s: string): (r: seq<Byte>)
    ensures |r| == |s|
    ensures forall i :: 0 <= i < |s| && s[i] < 128 as char ==> r[i] == s[i] as int
  {
    seq(|s|, i requires 0 <= i < |s| => if s[i] < 128 as char then s[i] as int else 0x3F)
  }

  const CR: Byte := 13
  const LF: Byte := 10
  const QUOTE: Byte := 0x22
  const BACKSLASH: Byte := 0x5C
  const CRLF: seq<Byte> := [CR, LF]
  const DASHES: seq<Byte> := [0x2D, 0x2D]
  const SEMI: seq<Byte> := [0x3B, 0x20]
  const OPEN_QUOTE: seq<Byte> := [0x3D, QUOTE]

  /** One entity of the body; a field has no filename and no type. */
  datatype Part = Part(
    name: seq<Byte>, filename: Option<seq<Byte>>, contentType: Option<seq<Byte>>, content: seq<Byte>)

  // ------------------------------------------------------------ quoting

  /** `_quote_multipart_header_value`: a backslash before every backslash and quote. */
  function Quote(v: seq<Byte>): seq<Byte> {
    if v == [] then []
    else (if v[0] == QUOTE || v[0] == BACKSLASH then [BACKSLASH, v[0]] else [v[0]]) + Quote(v[1..])
  }

  /** The quoted string at the start of `s`, its opening quote consumed, and what follows it. */
  function Unquote(s: seq<Byte>): Option<(seq<Byte>, seq<Byte>)>
    decreases |s|
  {
    if s == [] then None
    else if s[0] == QUOTE then Some(([], s[1..]))
    else if s[0] == BACKSLASH && |s| == 1 then None
    else
      var c, after := if s[0] == BACKSLASH then s[1] else s[0], if s[0] == BACKSLASH then s[2..] else s[1..];
      var more := Unquote(after);
      if more.None? then None else Some(([c] + more.value.0, more.value.1))
  }

  /** Quoting is undone for every value, whatever follows. */
  lemma {:induction false} QuoteRoundTrip(v: seq<Byte>, rest: seq<Byte>)
    ensures Unquote(Quote(v) + [QUOTE] + rest) == Some((v, rest))
  {
    var s := Quote(v) + [QUOTE] + rest;
    if v == [] {
      assert s == [QUOTE] + rest;
    } else {
      QuoteRoundTrip(v[1..], rest);
      var more := Quote(v[1..]) + [QUOTE] + rest;
      var first := if v[0] == QUOTE || v[0] == BACKSLASH then [BACKSLASH, v[0]] else [v[0]];
      assert s == first + more;
      assert s[|first|..] == more;
      assert [v[0]] + v[1..] == v;
    }
  }

  predicate OneLine(v: seq<Byte>) {
    CR !in v && LF !in v
  }

  lemma {:induction false} QuoteOneLine(v: seq<Byte>)
    requires OneLine(v)
    ensures OneLine(Quote(v))
  {
    if v != [] {
      QuoteOneLine(v[1..]);
    }
  }

  // ------------------------------------------------------------ printing

  const DISPOSITION := Ascii("Content-Disposition: form-data")
  const TYPE := Ascii("Content-Type: ")
  const NAME := Ascii("name")
  const FILENAME := Ascii("filename")

  function Param(key: seq<Byte>, value: seq<Byte>): seq<Byte> {
    SEMI + key + OPEN_QUOTE + Quote(value) + [QUOTE]
  }

  function DispositionLine(p: Part): seq<Byte> {
    DISPOSITION + (Param(NAME, p.name) + (if p.filename.Some? then Param(FILENAME, p.filename.value) else []))
  }

  function HeaderLines(p: Part): seq<seq<Byte>> {
    [DispositionLine(p)] + (if p.contentType.Some? then [TYPE + p.contentType.value] else [])
  }

  function Lines(lines: seq<seq<Byte>>): seq<Byte> {
    if lines == [] then [] else lines[0] + CRLF + Lines(lines[1..])
  }

  function Delimiter(boundary: seq<Byte>): seq<Byte> {
    CRLF + DASHES + boundary
  }

  /** Header lines, the blank line, the content. */
  function Entity(p: Part): seq<Byte> {
    Lines(HeaderLines(p)) + (CRLF + p.content)
  }

  /** What follows a delimiter: the parts still to come. */
  function AfterDelimiter(boundary: seq<Byte>, parts: seq<Part>): seq<Byte> {
    if parts == [] then DASHES + CRLF
    else CRLF + (Entity(parts[0]) + (Delimiter(boundary) + AfterDelimiter(boundary, parts[1..])))
  }

  /** The whole body: the first delimiter stands at its start, without the CRLF. */
  function Body(boundary: seq<Byte>, parts: seq<Part>): seq<Byte> {
    DASHES + boundary + AfterDelimiter(boundary, parts)
  }

  // ------------------------------------------------------------ reading

  predicate IsPadding(b: Byte) {
    b == 0x20 || b == 0x09
  }

  function SkipPadding(s: seq<Byte>): (r: seq<Byte>)
    ensures |r| <= |s|
  {
    if s != [] && IsPadding(s[0]) then SkipPadding(s[1..]) else s
  }

  /** Header lines up to the blank line, and the content, which may be absent. */
  function SplitEntity(t: seq<Byte>): (seq<seq<Byte>>, seq<Byte>)
    decreases |t|
  {
    var k := Find(CRLF, t);
    if k.None? then (if t == [] then [] else [t], [])
    else if k.value == 0 then ([], t[2..])
    else
      var (lines, content) := SplitEntity(t[k.value + 2..]);
      ([t[..k.value]] + lines, content)
  }

  /** `; key="value"` parameters. */
  function ReadParams(s: seq<Byte>): Option<seq<(seq<Byte>, seq<Byte>)>>
    decreases |s|
  {
    if s == [] then Some([])
    else if !StartsWith(s, SEMI) then None
    else
      var k := Find(OPEN_QUOTE, s[2..]);
      if k.None? then None
      else
        var value := Unquote(s[2..][k.value + 2..]);
        if value.None? || |value.value.1| >= |s| then None
        else
          var more := ReadParams(value.value.1);
          if more.None? then None else Some([(s[2..][..k.value], value.value.0)] + more.value)
  }

  function ParamValue(params: seq<(seq<Byte>, seq<Byte>)>, key: seq<Byte>): Option<seq<Byte>> {
    if params == [] then None else if params[0].0 == key then Some(params[0].1) else ParamValue(params[1..], key)
  }

  /** What follows `prefix` on the first line that begins with it. */
  function Lookup(lines: seq<seq<Byte>>, prefix: seq<Byte>): Option<seq<Byte>> {
    if lines == [] then None
    else if StartsWith(lines[0], prefix) then Some(lines[0][|prefix|..])
    else Lookup(lines[1..], prefix)
  }

  function ReadEntity(t: seq<Byte>): Option<Part> {
    var (lines, content) := SplitEntity(t);
    var disposition := Lookup(lines, DISPOSITION);
    var params := if disposition.Some? then ReadParams(disposition.value) else None;
    var name := if params.Some? then ParamValue(params.value, NAME) else None;
    if name.None? then None
    else Some(Part(name.value, ParamValue(params.value, FILENAME), Lookup(lines, TYPE), content))
  }

  function Joined(part: Option<Part>, more: Option<seq<Part>>): Option<seq<Part>> {
    if part.None? || more.None? then None else Some([part.value] + more.value)
  }

  /** An entity, the delimiter that ends it, and what follows. */
  function ReadText(boundary: seq<Byte>, text: seq<Byte>): Option<seq<Part>>
    decreases |text|
  {
    var k := Find(Delimiter(boundary), text);
    if k.None? then None
    else Joined(ReadEntity(text[..k.value]), ReadAfter(boundary, text[k.value + |Delimiter(boundary)|..]))
  }

  /** The parts after a delimiter: nothing more, or padding and a line end and an entity. */
  function ReadAfter(boundary: seq<Byte>, s: seq<Byte>): Option<seq<Part>>
    decreases |s|
  {
    if StartsWith(s, DASHES) then Some([])
    else
      var r := SkipPadding(s);
      if StartsWith(r, CRLF) then ReadText(boundary, r[2..]) else None
  }

  /** A reader of the whole body. The delimiter may stand at the very start or after a preamble. */
  function Read(boundary: seq<Byte>, body: seq<Byte>): Option<seq<Part>> {
    var k := Find(Delimiter(boundary), CRLF + body);
    if k.None? then None else ReadAfter(boundary, (CRLF + body)[k.value + |Delimiter(boundary)|..])
  }
}
