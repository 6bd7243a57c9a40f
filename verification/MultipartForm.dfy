/** `encode_multipart_form_data` (app/s2_client.py): form fields and files as text. */
module MultipartForm {
  import opened Common
  import opened Utf8
  import opened Multipart
  import opened MultipartLaws

  type Text = seq<Scalar>

  /** A field's value: a bool, or anything else by its `str`. */
  datatype Value = Flag(on: bool) | Shown(text: Text)

  datatype Field = Field(name: Text, value: Value)

  datatype File = File(name: Text, filename: Text, content: seq<Byte>, contentType: Text)

  const TRUE_TEXT: Text := [0x74, 0x72, 0x75, 0x65]
  const FALSE_TEXT: Text := [0x66, 0x61, 0x6C, 0x73, 0x65]

  /** `_stringify_multipart_value`. */
  function Stringify(v: Value): Text {
    match v
    case Flag(on) => if on then TRUE_TEXT else FALSE_TEXT
    case Shown(text) => text
  }

  // ------------------------------------------------------------ quoting text

  /** `str.replace` of one character. */
  function Replace(s: Text, c: Scalar, with: Text): Text {
    if s == [] then [] else (if s[0] == c then with else [s[0]]) + Replace(s[1..], c, with)
  }

  /** `_quote_multipart_header_value`: backslashes first, then quotes. */
  function QuoteText(s: Text): Text {
    Replace(Replace(s, BACKSLASH, [BACKSLASH, BACKSLASH]), QUOTE, [BACKSLASH, QUOTE])
  }

  lemma {:induction false} ReplaceAppend(p: Text, q: Text, c: Scalar, with: Text)
    ensures Replace(p + q, c, with) == Replace(p, c, with) + Replace(q, c, with)
  {
    if p == [] {
      assert p + q == q;
    } else {
      assert (p + q)[1..] == p[1..] + q;
      ReplaceAppend(p[1..], q, c, with);
    }
  }

  lemma QuoteCons(s: Text)
    requires s != []
    ensures QuoteText(s)
      == (if s[0] == QUOTE || s[0] == BACKSLASH then [BACKSLASH, s[0]] else [s[0]]) + QuoteText(s[1..])
  {
    var first: Text := if s[0] == BACKSLASH then [BACKSLASH, BACKSLASH] else [s[0]];
    ReplaceAppend(first, Replace(s[1..], BACKSLASH, [BACKSLASH, BACKSLASH]), QUOTE, [BACKSLASH, QUOTE]);
    assert first[1..] == (if s[0] == BACKSLASH then [BACKSLASH as Scalar] else []);
    assert first[1..] != [] ==> first[1..][1..] == [];
  }

  lemma {:induction false} EncodeAppend(p: Text, q: Text)
    ensures Encode(p + q) == Encode(p) + Encode(q)
  {
    if p == [] {
      assert p + q == q;
    } else {
      assert (p + q)[1..] == p[1..] + q;
      EncodeAppend(p[1..], q);
      AppendAssoc(EncodeOne(p[0]), Encode(p[1..]), Encode(q));
    }
  }

  lemma {:induction false} QuoteAppend(p: seq<Byte>, q: seq<Byte>)
    ensures Quote(p + q) == Quote(p) + Quote(q)
  {
    if p == [] {
      assert p + q == q;
    } else {
      assert (p + q)[1..] == p[1..] + q;
      QuoteAppend(p[1..], q);
    }
  }

  lemma {:induction false} QuoteHigh(b: seq<Byte>)
    requires forall i :: 0 <= i < |b| ==> b[i] >= 0x80
    ensures Quote(b) == b
  {
    if b != [] {
      QuoteHigh(b[1..]);
      assert [b[0]] + b[1..] == b;
    }
  }

  lemma EncodeAscii(c: Scalar)
    requires c < 0x80
    ensures EncodeOne(c) == [c] && Encode([c]) == [c] && Encode([BACKSLASH, c]) == [BACKSLASH, c]
  {
    assert [c][1..] == [] && [BACKSLASH as Scalar, c][1..] == [c];
  }

  lemma QuoteOne(c: Scalar)
    ensures Quote(EncodeOne(c)) == Encode(if c == QUOTE || c == BACKSLASH then [BACKSLASH, c] else [c])
  {
    var one: Text := [c];
    assert one[1..] == [];
    if c < 0x80 {
      EncodeAscii(c);
      assert EncodeOne(c)[1..] == [];
    } else {
      QuoteHigh(EncodeOne(c));
    }
  }

  /** Quoting the text and quoting its octets is the same: no octet of a longer character is a quote. */
  lemma {:induction false} QuoteCommutes(s: Text)
    ensures Encode(QuoteText(s)) == Quote(Encode(s))
  {
    if s != [] {
      QuoteCons(s);
      QuoteCommutes(s[1..]);
      QuoteOne(s[0]);
      var first: Text := if s[0] == QUOTE || s[0] == BACKSLASH then [BACKSLASH, s[0]] else [s[0]];
      EncodeAppend(first, QuoteText(s[1..]));
      QuoteAppend(EncodeOne(s[0]), Encode(s[1..]));
    }
  }

  // ------------------------------------------------------------ the form and its parts

  function FieldPart(f: Field): Part {
    Part(Encode(f.name), None, None, Encode(Stringify(f.value)))
  }

  function FilePart(f: File): Part {
    Part(Encode(f.name), Some(Encode(f.filename)), Some(Encode(f.contentType)), f.content)
  }

  function FieldParts(fields: seq<Field>): (r: seq<Part>)
    ensures |r| == |fields| && forall i :: 0 <= i < |r| ==> r[i] == FieldPart(fields[i])
  {
    seq(|fields|, i requires 0 <= i < |fields| => FieldPart(fields[i]))
  }

  function FileParts(files: seq<File>): (r: seq<Part>)
    ensures |r| == |files| && forall i :: 0 <= i < |r| ==> r[i] == FilePart(files[i])
  {
    seq(|files|, i requires 0 <= i < |files| => FilePart(files[i]))
  }

  function FormParts(fields: seq<Field>, files: seq<File>): (r: seq<Part>)
    ensures |r| == |fields| + |files|
  {
    FieldParts(fields) + FileParts(files)
  }

  /** One part as the loops print it: its own delimiter line, headers, content, line end. */
  function Piece(boundary: seq<Byte>, p: Part): seq<Byte> {
    DASHES + boundary + CRLF + Entity(p) + CRLF
  }

  function Pieces(boundary: seq<Byte>, parts: seq<Part>): seq<Byte> {
    if parts == [] then [] else Pieces(boundary, parts[..|parts| - 1]) + Piece(boundary, parts[|parts| - 1])
  }

  lemma Regrouped(start: seq<Byte>, entity: seq<Byte>, delimiter: seq<Byte>, after: seq<Byte>)
    requires delimiter == CRLF + start
    ensures start + (CRLF + (entity + (delimiter + after))) == (start + CRLF + entity + CRLF) + (start + after)
  {
  }

  /** The body is the pieces in order and the closing line. */
  lemma BodyCons(boundary: seq<Byte>, p: Part, rest: seq<Part>)
    ensures Body(boundary, [p] + rest) == Piece(boundary, p) + Body(boundary, rest)
  {
    assert ([p] + rest)[1..] == rest;
    assert Delimiter(boundary) == CRLF + (DASHES + boundary);
    Regrouped(DASHES + boundary, Entity(p), Delimiter(boundary), AfterDelimiter(boundary, rest));
  }

  /** A parameter as the code prints it. */
  function ParamText(key: seq<Byte>, value: Text): seq<Byte> {
    SEMI + key + OPEN_QUOTE + Encode(QuoteText(value)) + [QUOTE]
  }

  lemma ParamTextIs(key: seq<Byte>, value: Text)
    ensures ParamText(key, value) == Param(key, Encode(value))
  {
    QuoteCommutes(value);
  }

  lemma OneHeader(line: seq<Byte>, content: seq<Byte>, lines: seq<seq<Byte>>)
    requires lines == [line]
    ensures Lines(lines) + (CRLF + content) == (line + CRLF + CRLF) + content
  {
    assert Lines(lines[1..]) == [];
  }

  lemma TwoHeaders(first: seq<Byte>, second: seq<Byte>, content: seq<Byte>, lines: seq<seq<Byte>>)
    requires lines == [first, second]
    ensures Lines(lines) + (CRLF + content) == (first + CRLF + (second + CRLF + CRLF)) + content
  {
    assert lines[1..] == [second] && Lines(lines[1..][1..]) == [];
    assert Lines(lines[1..]) == second + CRLF;
  }

  lemma PieceOf(boundary: seq<Byte>, p: Part, header: seq<Byte>)
    requires Entity(p) == header + p.content
    ensures Flatten([DASHES + boundary + CRLF, header, p.content, CRLF]) == Piece(boundary, p)
  {
    FlattenFour(DASHES + boundary + CRLF, header, p.content, CRLF);
    AppendAssoc(DASHES + boundary + CRLF, header, p.content);
  }

  method PrintField(boundary: seq<Byte>, f: Field) returns (chunks: seq<seq<Byte>>)
    ensures Flatten(chunks) == Piece(boundary, FieldPart(f))
  {
    var line := DISPOSITION + ParamText(NAME, f.name);
    chunks := [DASHES + boundary + CRLF, line + CRLF + CRLF, Encode(Stringify(f.value)), CRLF];
    ParamTextIs(NAME, f.name);
    assert line == DispositionLine(FieldPart(f));
    OneHeader(line, Encode(Stringify(f.value)), HeaderLines(FieldPart(f)));
    PieceOf(boundary, FieldPart(f), line + CRLF + CRLF);
  }

  method PrintFile(boundary: seq<Byte>, f: File) returns (chunks: seq<seq<Byte>>)
    ensures Flatten(chunks) == Piece(boundary, FilePart(f))
  {
    var line := DISPOSITION + (ParamText(NAME, f.name) + ParamText(FILENAME, f.filename));
    var header := line + CRLF + (TYPE + Encode(f.contentType) + CRLF + CRLF);
    chunks := [DASHES + boundary + CRLF, header, f.content, CRLF];
    ParamTextIs(NAME, f.name);
    ParamTextIs(FILENAME, f.filename);
    TwoHeaders(line, TYPE + Encode(f.contentType), f.content, HeaderLines(FilePart(f)));
    PieceOf(boundary, FilePart(f), header);
  }

  lemma FlattenFour(a: seq<Byte>, b: seq<Byte>, c: seq<Byte>, d: seq<Byte>)
    ensures Flatten([a, b, c, d]) == a + b + c + d
  {
    assert [a, b, c, d] == [a, b] + [c, d];
    FlattenAppend([a, b], [c, d]);
    FlattenTwo(a, b);
    FlattenTwo(c, d);
    AppendAssoc(a + b, c, d);
  }

  lemma {:induction false} BodyPieces(boundary: seq<Byte>, parts: seq<Part>, rest: seq<Part>)
    ensures Body(boundary, parts + rest) == Pieces(boundary, parts) + Body(boundary, rest)
    decreases |parts|
  {
    if parts == [] {
      assert parts + rest == rest;
    } else {
      var front, last := parts[..|parts| - 1], parts[|parts| - 1];
      assert parts + rest == front + ([last] + rest);
      BodyPieces(boundary, front, [last] + rest);
      BodyCons(boundary, last, rest);
      AppendAssoc(Pieces(boundary, front), Piece(boundary, last), Body(boundary, rest));
    }
  }

  /** One more piece after those of `parts`. */
  lemma PieceAdded(boundary: seq<Byte>, parts: seq<Part>, p: Part, more: seq<Part>,
                   chunks: seq<seq<Byte>>, piece: seq<seq<Byte>>)
    requires Flatten(chunks) == Pieces(boundary, parts) && Flatten(piece) == Piece(boundary, p) && more == parts + [p]
    ensures Flatten(chunks + piece) == Pieces(boundary, more)
  {
    assert more[..|more| - 1] == parts;
    FlattenAppend(chunks, piece);
  }

  lemma FieldPartsSnoc(fields: seq<Field>, i: nat)
    requires i < |fields|
    ensures FieldParts(fields[..i + 1]) == FieldParts(fields[..i]) + [FieldPart(fields[i])]
  {
  }

  lemma FilePartsSnoc(files: seq<File>, j: nat)
    requires j < |files|
    ensures FileParts(files[..j + 1]) == FileParts(files[..j]) + [FilePart(files[j])]
  {
  }

  /** The loop over the fields. */
  method PrintFields(boundary: seq<Byte>, fields: seq<Field>) returns (chunks: seq<seq<Byte>>)
    ensures Flatten(chunks) == Pieces(boundary, FieldParts(fields))
  {
    chunks := [];
    var i := 0;
    while i < |fields|
      invariant i <= |fields| && Flatten(chunks) == Pieces(boundary, FieldParts(fields[..i]))
    {
      var piece := PrintField(boundary, fields[i]);
      FieldPartsSnoc(fields, i);
      PieceAdded(boundary, FieldParts(fields[..i]), FieldPart(fields[i]), FieldParts(fields[..i + 1]), chunks, piece);
      chunks := chunks + piece;
      i := i + 1;
    }
    assert fields[..i] == fields;
  }

  /** The loop over the files. */
  method PrintFiles(boundary: seq<Byte>, files: seq<File>) returns (chunks: seq<seq<Byte>>)
    ensures Flatten(chunks) == Pieces(boundary, FileParts(files))
  {
    chunks := [];
    var j := 0;
    while j < |files|
      invariant j <= |files| && Flatten(chunks) == Pieces(boundary, FileParts(files[..j]))
    {
      var piece := PrintFile(boundary, files[j]);
      FilePartsSnoc(files, j);
      PieceAdded(boundary, FileParts(files[..j]), FilePart(files[j]), FileParts(files[..j + 1]), chunks, piece);
      chunks := chunks + piece;
      j := j + 1;
    }
    assert files[..j] == files;
  }

  /**
   * `encode_multipart_form_data`: the content type and the body printed for a
   * form. An empty boundary is replaced by one made of the random digits `hex`.
   */
  method EncodeForm(fields: seq<Field>, files: seq<File>, boundary: seq<Byte>, hex: seq<Byte>)
    returns (contentType: seq<Byte>, body: seq<Byte>)
    ensures var active := if boundary == [] then Ascii("wyoming-s2cpp-tts-") + hex else boundary;
      && contentType == Ascii("multipart/form-data; boundary=") + active
      && body == Body(active, FormParts(fields, files))
  {
    var active := if boundary == [] then Ascii("wyoming-s2cpp-tts-") + hex else boundary;
    contentType := Ascii("multipart/form-data; boundary=") + active;
    var chunks := PrintFields(active, fields);
    var more := PrintFiles(active, files);
    FlattenAppend(chunks, more);
    chunks := chunks + more;
    var closing := DASHES + active + DASHES + CRLF;
    body := Flatten(chunks + [closing]);
    ClosingTaken(active, chunks, closing);
    BodyPieces(active, FileParts(files), []);
    AppendNone(FileParts(files));
    BodyPieces(active, FieldParts(fields), FileParts(files));
    AppendAssoc(Pieces(active, FieldParts(fields)), Pieces(active, FileParts(files)), Body(active, []));
  }

  lemma ClosingTaken(boundary: seq<Byte>, chunks: seq<seq<Byte>>, closing: seq<Byte>)
    requires closing == DASHES + boundary + DASHES + CRLF
    ensures Flatten(chunks + [closing]) == Flatten(chunks) + Body(boundary, [])
  {
    FlattenAppend(chunks, [closing]);
    FlattenOne(closing);
    AppendAssoc(DASHES + boundary, DASHES, CRLF);
  }

  // ------------------------------------------------------------ what a receiver recovers

  predicate PlainText(s: Text) {
    (CR as Scalar) !in s && (LF as Scalar) !in s
  }

  lemma {:induction false} PlainEncoded(s: Text)
    requires PlainText(s)
    ensures OneLine(Encode(s))
  {
    if s != [] {
      PlainEncoded(s[1..]);
      assert s[0] in s;
    }
  }

  predicate SafeForm(fields: seq<Field>, files: seq<File>) {
    && (forall i :: 0 <= i < |fields| ==> PlainText(fields[i].name))
    && (forall j :: 0 <= j < |files| ==>
        PlainText(files[j].name) && PlainText(files[j].filename) && PlainText(files[j].contentType))
  }

  /** No value and no file content hides the delimiter. */
  ghost predicate Undelimited(boundary: seq<Byte>, fields: seq<Field>, files: seq<File>) {
    && (forall i :: 0 <= i < |fields| ==> Hidden(boundary, Encode(Stringify(fields[i].value))))
    && (forall j :: 0 <= j < |files| ==> Hidden(boundary, files[j].content))
  }

  lemma FileSafe(f: File)
    requires PlainText(f.name) && PlainText(f.filename) && PlainText(f.contentType)
    ensures Safe(FilePart(f))
  {
    PlainEncoded(f.name);
    PlainEncoded(f.filename);
    PlainEncoded(f.contentType);
  }

  lemma FormSafe(fields: seq<Field>, files: seq<File>, k: nat)
    requires SafeForm(fields, files) && k < |fields| + |files|
    ensures Safe(FormParts(fields, files)[k])
  {
    if k < |fields| {
      PlainEncoded(fields[k].name);
    } else {
      FileSafe(files[k - |fields|]);
    }
  }

  /** The printed form is read back part by part exactly when nothing in it hides the delimiter. */
  lemma FormDecodability(boundary: seq<Byte>, fields: seq<Field>, files: seq<File>)
    requires CR !in boundary && SafeForm(fields, files)
    ensures Read(boundary, Body(boundary, FormParts(fields, files))) == Some(FormParts(fields, files))
      <==> Undelimited(boundary, fields, files)
  {
    var parts := FormParts(fields, files);
    forall k | 0 <= k < |parts|
      ensures Safe(parts[k])
    {
      FormSafe(fields, files, k);
    }
    UniqueDecodability(boundary, parts);
    HiddenParts(boundary, fields, files);
  }

  lemma HiddenParts(boundary: seq<Byte>, fields: seq<Field>, files: seq<File>)
    ensures var parts := FormParts(fields, files);
      (forall k :: 0 <= k < |parts| ==> Hidden(boundary, parts[k].content)) <==> Undelimited(boundary, fields, files)
  {
    var parts := FormParts(fields, files);
    if forall k :: 0 <= k < |parts| ==> Hidden(boundary, parts[k].content) {
      forall i | 0 <= i < |fields|
        ensures Hidden(boundary, Encode(Stringify(fields[i].value)))
      {
        assert parts[i] == FieldPart(fields[i]);
      }
      forall j | 0 <= j < |files|
        ensures Hidden(boundary, files[j].content)
      {
        assert parts[|fields| + j] == FilePart(files[j]);
      }
    }
    if Undelimited(boundary, fields, files) {
      forall k | 0 <= k < |parts|
        ensures Hidden(boundary, parts[k].content)
      {
        assert parts[k] == if k < |fields| then FieldPart(fields[k]) else FilePart(files[k - |fields|]);
      }
    }
  }

  lemma FieldsFirst(fields: seq<Field>, files: seq<File>, k: nat)
    requires k < |fields| + |files|
    ensures FormParts(fields, files)[k].filename.None? <==> k < |fields|
  {
    assert FormParts(fields, files)[k] == if k < |fields| then FieldPart(fields[k]) else FilePart(files[k - |fields|]);
  }

  lemma NoFewerFields(fields: seq<Field>, files: seq<File>, fields': seq<Field>, files': seq<File>)
    requires FormParts(fields, files) == FormParts(fields', files')
    ensures |fields'| <= |fields|
  {
    assert |fields| + |files| == |FormParts(fields', files')|;
    if |fields| < |fields'| + |files'| {
      FieldsFirst(fields, files, |fields|);
      FieldsFirst(fields', files', |fields|);
    }
  }

  lemma SameFieldCount(fields: seq<Field>, files: seq<File>, fields': seq<Field>, files': seq<File>)
    requires FormParts(fields, files) == FormParts(fields', files')
    ensures |fields| == |fields'| && |files| == |files'|
  {
    NoFewerFields(fields, files, fields', files');
    NoFewerFields(fields', files', fields, files);
    assert |fields| + |files| == |FormParts(fields', files')|;
  }

  /** The same form, but for how a value came to be shown. */
  predicate SameForm(fields: seq<Field>, files: seq<File>, fields': seq<Field>, files': seq<File>) {
    && |fields| == |fields'| && files == files'
    && forall i :: 0 <= i < |fields| ==>
        fields[i].name == fields'[i].name && Stringify(fields[i].value) == Stringify(fields'[i].value)
  }

  /** The parts determine the form. */
  lemma PartsDetermineForm(fields: seq<Field>, files: seq<File>, fields': seq<Field>, files': seq<File>)
    requires FormParts(fields, files) == FormParts(fields', files')
    ensures SameForm(fields, files, fields', files')
  {
    SameFieldCount(fields, files, fields', files');
    var parts, parts' := FormParts(fields, files), FormParts(fields', files');
    forall i | 0 <= i < |fields|
      ensures fields[i].name == fields'[i].name && Stringify(fields[i].value) == Stringify(fields'[i].value)
    {
      assert parts[i] == FieldPart(fields[i]) && parts'[i] == FieldPart(fields'[i]);
      DecodeEncode(fields[i].name);
      DecodeEncode(fields'[i].name);
      DecodeEncode(Stringify(fields[i].value));
      DecodeEncode(Stringify(fields'[i].value));
    }
    forall j | 0 <= j < |files|
      ensures files[j] == files'[j]
    {
      assert parts[|fields| + j] == FilePart(files[j]) && parts'[|fields| + j] == FilePart(files'[j]);
      DecodeEncode(files[j].name);
      DecodeEncode(files'[j].name);
      DecodeEncode(files[j].filename);
      DecodeEncode(files'[j].filename);
      DecodeEncode(files[j].contentType);
      DecodeEncode(files'[j].contentType);
    }
    assert files == files';
  }

  /** Two undelimited forms that print the same body under one boundary are the same form. */
  lemma BodyDeterminesForm(boundary: seq<Byte>, fields: seq<Field>, files: seq<File>,
                           fields': seq<Field>, files': seq<File>)
    requires CR !in boundary
    requires SafeForm(fields, files) && Undelimited(boundary, fields, files)
    requires SafeForm(fields', files') && Undelimited(boundary, fields', files')
    requires Body(boundary, FormParts(fields, files)) == Body(boundary, FormParts(fields', files'))
    ensures SameForm(fields, files, fields', files')
  {
    FormDecodability(boundary, fields, files);
    FormDecodability(boundary, fields', files');
    PartsDetermineForm(fields, files, fields', files');
  }
}
