/** When the reader recovers exactly what was printed. */
module MultipartLaws {
  import opened Common
  import opened Search
  import opened Multipart

  // ------------------------------------------------------------ header lines

  predicate PlainLine(l: seq<Byte>) {
    l != [] && CR !in l && l[0] != DASHES[0]
  }

  lemma FirstLine(l: seq<Byte>, rest: seq<Byte>)
    requires PlainLine(l)
    ensures Find(CRLF, l + CRLF + rest) == Some(|l|)
    ensures (l + CRLF + rest)[..|l|] == l && (l + CRLF + rest)[|l| + 2..] == rest
  {
    FoundAfter(CRLF, l, rest);
    assert l + CRLF + rest == l + (CRLF + rest);
  }

  lemma SplitStep(l: seq<Byte>, rest: seq<Byte>)
    requires PlainLine(l)
    ensures SplitEntity(l + CRLF + rest) == ([l] + SplitEntity(rest).0, SplitEntity(rest).1)
  {
    FirstLine(l, rest);
  }

  /** The lines and the content are recovered, and an entity without a blank line has no content. */
  lemma {:induction false} SplitLines(lines: seq<seq<Byte>>, content: seq<Byte>)
    requires forall k :: 0 <= k < |lines| ==> PlainLine(lines[k])
    ensures SplitEntity(Lines(lines) + (CRLF + content)) == (lines, content)
    ensures SplitEntity(Lines(lines)) == (lines, [])
  {
    if lines == [] {
      assert Lines(lines) + (CRLF + content) == CRLF + content;
    } else {
      SplitLines(lines[1..], content);
      SplitStep(lines[0], Lines(lines[1..]));
      SplitStep(lines[0], Lines(lines[1..]) + (CRLF + content));
      AppendAssoc(lines[0] + CRLF, Lines(lines[1..]), CRLF + content);
      assert [lines[0]] + lines[1..] == lines;
    }
  }

  /** A delimiter starts in no header line: only the blank line and the content can hide one. */
  lemma {:induction false} NotInLines(d: seq<Byte>, lines: seq<seq<Byte>>, tail: seq<Byte>, i: nat)
    requires forall k :: 0 <= k < |lines| ==> PlainLine(lines[k])
    requires |d| > 2 && d[0] == CR && d[2] == DASHES[0] && (tail != [] ==> tail[0] != DASHES[0])
    requires OccursAt(d, Lines(lines) + tail, i)
    ensures i >= |Lines(lines)| && OccursAt(d, tail, i - |Lines(lines)|)
  {
    if lines == [] {
      assert Lines(lines) + tail == tail;
    } else {
      var rest := Lines(lines[1..]) + tail;
      AppendAssoc(lines[0] + CRLF, Lines(lines[1..]), tail);
      assert lines[1..] != [] ==> rest[0] == lines[1][0];
      NotInLines(d, lines[1..], tail, i - (|lines[0]| + 2));
    }
  }

  // ------------------------------------------------------------ parameters

  /** Header parameters without CR and LF, as the header syntax demands. */
  predicate Safe(p: Part) {
    && OneLine(p.name)
    && (p.filename.Some? ==> OneLine(p.filename.value))
    && (p.contentType.Some? ==> OneLine(p.contentType.value))
  }

  lemma ParamShape(key: seq<Byte>, value: seq<Byte>, rest: seq<Byte>)
    ensures var s := Param(key, value) + rest;
      StartsWith(s, SEMI) && s[2..] == key + (OPEN_QUOTE + (Quote(value) + [QUOTE] + rest))
  {
  }

  lemma ParamRead(key: seq<Byte>, value: seq<Byte>, rest: seq<Byte>)
    requires OPEN_QUOTE[0] !in key
    ensures var more := ReadParams(rest);
      ReadParams(Param(key, value) + rest) == if more.None? then None else Some([(key, value)] + more.value)
  {
    var s := Param(key, value) + rest;
    var quoted := Quote(value) + [QUOTE] + rest;
    ParamShape(key, value, rest);
    FoundAfter(OPEN_QUOTE, key, quoted);
    TextParts(key, OPEN_QUOTE, quoted);
    QuoteRoundTrip(value, rest);
  }

  lemma KeysClean()
    ensures OPEN_QUOTE[0] !in NAME && OPEN_QUOTE[0] !in FILENAME && NAME != FILENAME
  {
    assert |NAME| == 4 && |FILENAME| == 8;
  }

  lemma ParamsRead(p: Part)
    ensures var s := DispositionLine(p)[|DISPOSITION|..];
      var params := ReadParams(s);
      && params.Some?
      && ParamValue(params.value, NAME) == Some(p.name)
      && ParamValue(params.value, FILENAME) == p.filename
  {
    KeysClean();
    var last := if p.filename.Some? then Param(FILENAME, p.filename.value) else [];
    assert DispositionLine(p)[|DISPOSITION|..] == Param(NAME, p.name) + last;
    ParamRead(NAME, p.name, last);
    if p.filename.Some? {
      assert last + [] == last;
      ParamRead(FILENAME, p.filename.value, []);
      var params := [(FILENAME, p.filename.value)];
      assert params[1..] == [];
      assert ([(NAME, p.name)] + params)[1..] == params;
    } else {
      assert [(NAME, p.name)][1..] == [];
    }
  }

  lemma ParamPlain(key: seq<Byte>, value: seq<Byte>)
    requires CR !in key && OneLine(value)
    ensures CR !in Param(key, value)
  {
    QuoteOneLine(value);
  }

  lemma LinesPlain(p: Part)
    requires Safe(p)
    ensures forall k :: 0 <= k < |HeaderLines(p)| ==> PlainLine(HeaderLines(p)[k])
  {
    ParamPlain(NAME, p.name);
    if p.filename.Some? {
      ParamPlain(FILENAME, p.filename.value);
    }
  }

  lemma LookupHeaders(p: Part)
    ensures Lookup(HeaderLines(p), DISPOSITION) == Some(DispositionLine(p)[|DISPOSITION|..])
    ensures Lookup(HeaderLines(p), TYPE) == p.contentType
  {
    var lines := HeaderLines(p);
    assert lines[0][8] == DISPOSITION[8];
    assert !StartsWith(lines[0], TYPE);
    if p.contentType.Some? {
      assert lines[1..] == [lines[1]] && lines[1][|TYPE|..] == p.contentType.value;
    } else {
      assert lines[1..] == [];
    }
  }

  /** An entity is read back, and one cut off before its blank line is read without content. */
  lemma EntityRead(p: Part)
    requires Safe(p)
    ensures ReadEntity(Entity(p)) == Some(p)
    ensures ReadEntity(Lines(HeaderLines(p))) == Some(p.(content := []))
  {
    LinesPlain(p);
    SplitLines(HeaderLines(p), p.content);
    LookupHeaders(p);
    ParamsRead(p);
  }

  // ------------------------------------------------------------ delimiters and contents

  lemma DelimiterClean(boundary: seq<Byte>)
    requires CR !in boundary
    ensures Clean(Delimiter(boundary))
    ensures var d := Delimiter(boundary); |d| > 2 && d[0] == CR && d[2] == DASHES[0]
  {
  }

  /**
   * The delimiter occurs neither in the content nor across the blank line
   * before it: no CRLF--boundary inside, and no --boundary at the start.
   */
  ghost predicate Hidden(boundary: seq<Byte>, content: seq<Byte>) {
    !Contains(CRLF + content, Delimiter(boundary))
  }

  lemma OccursBehind(d: seq<Byte>, head: seq<Byte>, tail: seq<Byte>, j: nat)
    requires OccursAt(d, tail, j)
    ensures OccursAt(d, head + tail, |head| + j)
  {
    assert forall k :: 0 <= k < |d| ==> (tail[j + k] == d[k] && (head + tail)[|head| + j + k] == tail[j + k]);
  }

  lemma EntityShows(boundary: seq<Byte>, p: Part)
    requires CR !in boundary && Safe(p) && Contains(Entity(p), Delimiter(boundary))
    ensures !Hidden(boundary, p.content)
  {
    var d, lines := Delimiter(boundary), HeaderLines(p);
    var i: nat :| OccursAt(d, Entity(p), i);
    DelimiterClean(boundary);
    LinesPlain(p);
    NotInLines(d, lines, CRLF + p.content, i);
    assert OccursAt(d, CRLF + p.content, i - |Lines(lines)|);
  }

  lemma EntityHides(boundary: seq<Byte>, p: Part)
    requires CR !in boundary && Safe(p)
    ensures Contains(Entity(p), Delimiter(boundary)) <==> !Hidden(boundary, p.content)
  {
    if Contains(Entity(p), Delimiter(boundary)) {
      EntityShows(boundary, p);
    } else if !Hidden(boundary, p.content) {
      var j: nat :| OccursAt(Delimiter(boundary), CRLF + p.content, j);
      OccursBehind(Delimiter(boundary), Lines(HeaderLines(p)), CRLF + p.content, j);
    }
  }

  /** What the reader takes for an entity whose content hides a delimiter is shorter. */
  lemma CutEntity(boundary: seq<Byte>, p: Part, k: nat)
    requires CR !in boundary && Safe(p)
    requires OccursAt(Delimiter(boundary), Entity(p), k)
    ensures ReadEntity(Entity(p)[..k]) != Some(p)
  {
    var d, head, tail := Delimiter(boundary), Lines(HeaderLines(p)), CRLF + p.content;
    DelimiterClean(boundary);
    LinesPlain(p);
    NotInLines(d, HeaderLines(p), tail, k);
    var j := k - |head|;
    assert tail[j + 0] == d[0];
    if j == 0 {
      assert Entity(p)[..k] == head;
      EntityRead(p);
    } else {
      var shorter := p.(content := p.content[..j - 2]);
      assert Entity(p)[..k] == head + (CRLF + shorter.content);
      EntityRead(shorter);
    }
  }

  lemma AfterStep(boundary: seq<Byte>, text: seq<Byte>)
    ensures ReadAfter(boundary, CRLF + text) == ReadText(boundary, text)
  {
    var s := CRLF + text;
    assert s[0] == CR && SkipPadding(s) == s && s[2..] == text;
  }

  lemma TextParts(e: seq<Byte>, d: seq<Byte>, after: seq<Byte>)
    ensures (e + (d + after))[..|e|] == e && (e + (d + after))[|e| + |d|..] == after
  {
  }

  lemma ReadTextAt(boundary: seq<Byte>, text: seq<Byte>, k: nat, e: seq<Byte>, after: seq<Byte>)
    requires Find(Delimiter(boundary), text) == Some(k)
    requires text[..k] == e && text[k + |Delimiter(boundary)|..] == after
    ensures ReadText(boundary, text) == Joined(ReadEntity(e), ReadAfter(boundary, after))
  {
  }

  /** An entity without the delimiter is read up to the delimiter that ends it. */
  lemma ReadFound(boundary: seq<Byte>, e: seq<Byte>, after: seq<Byte>)
    requires Clean(Delimiter(boundary)) && !Contains(e, Delimiter(boundary))
    ensures ReadText(boundary, e + (Delimiter(boundary) + after)) == Joined(ReadEntity(e), ReadAfter(boundary, after))
  {
    var d := Delimiter(boundary);
    FoundAtEnd(d, e, after);
    TextParts(e, d, after);
    ReadTextAt(boundary, e + (d + after), |e|, e, after);
  }

  lemma ReadHidden(boundary: seq<Byte>, p: Part, after: seq<Byte>)
    requires CR !in boundary && Safe(p) && Hidden(boundary, p.content)
    ensures ReadAfter(boundary, CRLF + (Entity(p) + (Delimiter(boundary) + after)))
      == Joined(Some(p), ReadAfter(boundary, after))
  {
    var e := Entity(p);
    DelimiterClean(boundary);
    EntityHides(boundary, p);
    EntityRead(p);
    ReadFound(boundary, e, after);
    AfterStep(boundary, e + (Delimiter(boundary) + after));
  }

  /** A delimiter inside the entity is found first. */
  lemma FoundInside(d: seq<Byte>, e: seq<Byte>, after: seq<Byte>) returns (k: nat)
    requires Clean(d) && Contains(e, d)
    ensures Find(d, e + (d + after)) == Some(k) && OccursAt(d, e, k)
    ensures k + |d| <= |e| && (e + (d + after))[..k] == e[..k]
  {
    FoundAtEnd(d, e, after);
    FindOccurs(d, e + (d + after));
    k := Find(d, e + (d + after)).value;
    OccursInFront(d, e, d + after, k);
  }

  lemma ReadShown(boundary: seq<Byte>, p: Part, after: seq<Byte>)
    requires CR !in boundary && Safe(p) && !Hidden(boundary, p.content)
    ensures var r := ReadAfter(boundary, CRLF + (Entity(p) + (Delimiter(boundary) + after)));
      r.Some? ==> r.value != [] && r.value[0] != p
  {
    var d, e := Delimiter(boundary), Entity(p);
    var text := e + (d + after);
    DelimiterClean(boundary);
    EntityHides(boundary, p);
    var k := FoundInside(d, e, after);
    CutEntity(boundary, p, k);
    ReadTextAt(boundary, text, k, e[..k], text[k + |d|..]);
    AfterStep(boundary, text);
  }

  lemma {:induction false} HiddenRead(boundary: seq<Byte>, parts: seq<Part>)
    requires CR !in boundary && forall k :: 0 <= k < |parts| ==> Safe(parts[k]) && Hidden(boundary, parts[k].content)
    ensures ReadAfter(boundary, AfterDelimiter(boundary, parts)) == Some(parts)
  {
    if parts == [] {
      assert StartsWith(DASHES + CRLF, DASHES);
    } else {
      var after := AfterDelimiter(boundary, parts[1..]);
      ReadHidden(boundary, parts[0], after);
      HiddenRead(boundary, parts[1..]);
      assert [parts[0]] + parts[1..] == parts;
    }
  }

  lemma {:induction false} ShownMisread(boundary: seq<Byte>, parts: seq<Part>, i: nat)
    requires CR !in boundary && forall k :: 0 <= k < |parts| ==> Safe(parts[k])
    requires i < |parts| && !Hidden(boundary, parts[i].content)
    ensures ReadAfter(boundary, AfterDelimiter(boundary, parts)) != Some(parts)
    decreases |parts|
  {
    var after := AfterDelimiter(boundary, parts[1..]);
    if Hidden(boundary, parts[0].content) {
      ReadHidden(boundary, parts[0], after);
      ShownMisread(boundary, parts[1..], i - 1);
    } else {
      ReadShown(boundary, parts[0], after);
    }
  }

  lemma FindFront(d: seq<Byte>, after: seq<Byte>)
    requires d != []
    ensures Find(d, d + after) == Some(0) && (d + after)[|d|..] == after
  {
    assert StartsWith(d + after, d);
  }

  lemma ReadBody(boundary: seq<Byte>, parts: seq<Part>)
    ensures Read(boundary, Body(boundary, parts)) == ReadAfter(boundary, AfterDelimiter(boundary, parts))
  {
    var d, after := Delimiter(boundary), AfterDelimiter(boundary, parts);
    AppendAssoc(CRLF, DASHES, boundary);
    AppendAssoc(CRLF, DASHES + boundary, after);
    assert CRLF + Body(boundary, parts) == d + after;
    FindFront(d, after);
  }

  /** What a caller can check of a content. */
  lemma HiddenMeans(boundary: seq<Byte>, content: seq<Byte>)
    requires CR !in boundary
    ensures Hidden(boundary, content)
      <==> !Contains(content, Delimiter(boundary)) && !StartsWith(content, DASHES + boundary)
  {
    var d, t := Delimiter(boundary), CRLF + content;
    DelimiterClean(boundary);
    assert forall i: nat :: OccursAt(d, content, i) <==> OccursAt(d, t, i + 2) by {
      forall i: nat
        ensures OccursAt(d, content, i) <==> OccursAt(d, t, i + 2)
      {
        assert t[1..][1..] == content;
      }
    }
    OccursFirst(d, t);
    assert StartsWith(t, d) <==> StartsWith(content, DASHES + boundary) by {
      assert t[..2] == CRLF && t[2..] == content && d == CRLF + (DASHES + boundary);
      if StartsWith(content, DASHES + boundary) {
        assert t == d + content[|DASHES + boundary|..];
      }
    }
    if !Hidden(boundary, content) {
      var i: nat :| OccursAt(d, t, i);
      assert t[i + 0] == d[0];
      assert i >= 2 ==> OccursAt(d, content, i - 2);
    }
  }

  /**
   * Unique decodability: the reader recovers the printed parts, in order,
   * exactly when no content contains the delimiter or starts with --boundary.
   */
  lemma UniqueDecodability(boundary: seq<Byte>, parts: seq<Part>)
    requires CR !in boundary && forall k :: 0 <= k < |parts| ==> Safe(parts[k])
    ensures Read(boundary, Body(boundary, parts)) == Some(parts)
      <==> forall k :: 0 <= k < |parts| ==> Hidden(boundary, parts[k].content)
  {
    ReadBody(boundary, parts);
    if forall k :: 0 <= k < |parts| ==> Hidden(boundary, parts[k].content) {
      HiddenRead(boundary, parts);
    } else {
      var i :| 0 <= i < |parts| && !Hidden(boundary, parts[i].content);
      ShownMisread(boundary, parts, i);
    }
  }
}
