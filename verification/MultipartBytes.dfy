/** The bytes of a printed form, literal by literal. */
module MultipartBytes {
  import opened Common
  import opened Utf8
  import opened Multipart
  import opened MultipartForm

  /** `v` with a backslash before every quote and every backslash. */
  function Escaped(v: seq<Byte>): seq<Byte> {
    Flatten(seq(|v|, i requires 0 <= i < |v| => if v[i] == 34 || v[i] == 92 then [92, v[i]] else [v[i]]))
  }

  lemma {:induction false} QuoteIsEscaped(v: seq<Byte>)
    ensures Quote(v) == Escaped(v)
  {
    if v != [] {
      QuoteIsEscaped(v[1..]);
      var pieces := seq(|v|, i requires 0 <= i < |v| => if v[i] == 34 || v[i] == 92 then [92, v[i]] else [v[i]]);
      assert pieces[1..]
        == seq(|v| - 1, i requires 0 <= i < |v| - 1 => if v[1..][i] == 34 || v[1..][i] == 92 then [92, v[1..][i]]
                                                       else [v[1..][i]]);
    }
  }

  /** What a field's value is printed as. */
  function ValueBytes(v: Value): seq<Byte> {
    match v
    case Flag(true) => Ascii("true")
    case Flag(false) => Ascii("false")
    case Shown(text) => Encode(text)
  }

  function FieldBytes(boundary: seq<Byte>, f: Field): seq<Byte> {
    Ascii("--") + boundary + Ascii("\r\n") + Ascii("Content-Disposition: form-data")
      + Ascii("; name=\"") + Escaped(Encode(f.name))
      + Ascii("\"\r\n\r\n") + ValueBytes(f.value) + Ascii("\r\n")
  }

  function FileBytes(boundary: seq<Byte>, f: File): seq<Byte> {
    Ascii("--") + boundary + Ascii("\r\n") + Ascii("Content-Disposition: form-data")
      + Ascii("; name=\"") + Escaped(Encode(f.name))
      + Ascii("\"; filename=\"") + Escaped(Encode(f.filename)) + Ascii("\"\r\nContent-Type: ")
      + Encode(f.contentType) + Ascii("\r\n\r\n") + f.content + Ascii("\r\n")
  }

  function AllFields(boundary: seq<Byte>, fields: seq<Field>): seq<Byte> {
    if fields == [] then [] else FieldBytes(boundary, fields[0]) + AllFields(boundary, fields[1..])
  }

  function AllFiles(boundary: seq<Byte>, files: seq<File>): seq<Byte> {
    if files == [] then [] else FileBytes(boundary, files[0]) + AllFiles(boundary, files[1..])
  }

  /** A string's octets are those of its parts. */
  lemma AsciiAppend(p: string, q: string)
    ensures Ascii(p + q) == Ascii(p) + Ascii(q)
  {
  }

  lemma Ends()
    ensures Ascii("--") == DASHES && Ascii("\r\n") == CRLF && Ascii("\r\n\r\n") == CRLF + CRLF
    ensures Ascii("\"\r\n\r\n") == [QUOTE] + (CRLF + CRLF)
  {
    AsciiAppend("\r\n", "\r\n");
    AsciiAppend("\"", "\r\n\r\n");
  }

  lemma NameOpens()
    ensures Ascii("; name=\"") == SEMI + (NAME + OPEN_QUOTE)
  {
    AsciiAppend("name", "=\"");
    AsciiAppend("; ", "name=\"");
  }

  lemma FilenameOpens()
    ensures Ascii("\"; filename=\"") == [QUOTE] + (SEMI + (FILENAME + OPEN_QUOTE))
  {
    AsciiAppend("filename", "=\"");
    AsciiAppend("; ", "filename=\"");
    AsciiAppend("\"", "; filename=\"");
  }

  lemma TypeOpens()
    ensures Ascii("\"\r\nContent-Type: ") == [QUOTE] + (CRLF + TYPE)
  {
    AsciiAppend("\r\n", "Content-Type: ");
    AsciiAppend("\"", "\r\nContent-Type: ");
  }

  lemma ParamSplit(semi: seq<Byte>, key: seq<Byte>, open: seq<Byte>, value: seq<Byte>, quote: seq<Byte>)
    ensures semi + key + open + value + quote == (semi + (key + open)) + (value + quote)
  {
  }

  /** A parameter, from its name to its closing quote. */
  lemma ParamBytes(key: seq<Byte>, value: seq<Byte>)
    ensures Param(key, value) == (SEMI + (key + OPEN_QUOTE)) + (Escaped(value) + [QUOTE])
  {
    QuoteIsEscaped(value);
    ParamSplit(SEMI, key, OPEN_QUOTE, Quote(value), [QUOTE]);
  }

  lemma FieldJoined(start: seq<Byte>, c: seq<Byte>, disp: seq<Byte>, name: seq<Byte>, q: seq<Byte>, quote: seq<Byte>,
                    v: seq<Byte>)
    ensures start + c + (((disp + ((name + (q + quote)) + [])) + c + c) + v) + c
      == start + c + disp + name + q + (quote + (c + c)) + v + c
  {
    assert disp + ((name + (q + quote)) + []) == disp + name + q + quote;
    var line := disp + name + q + quote;
    assert (line + c + c) + v == line + (c + c) + v;
    assert start + c + (line + (c + c) + v) == start + c + line + (c + c) + v;
    assert start + c + line == start + c + disp + name + q + quote;
    assert start + c + disp + name + q + quote + (c + c) == start + c + disp + name + q + (quote + (c + c));
  }

  lemma FieldIs(boundary: seq<Byte>, f: Field)
    ensures Piece(boundary, FieldPart(f)) == FieldBytes(boundary, f)
  {
    var p := FieldPart(f);
    Ends();
    NameOpens();
    ParamBytes(NAME, p.name);
    OneHeader(DispositionLine(p), p.content, HeaderLines(p));
    ValueIs(f.value);
    FieldJoined(DASHES + boundary, CRLF, DISPOSITION, SEMI + (NAME + OPEN_QUOTE), Escaped(p.name), [QUOTE], p.content);
  }

  lemma ValueIs(v: Value)
    ensures Encode(Stringify(v)) == ValueBytes(v)
  {
    if v.Flag? {
      SpellTrue();
      SpellFalse();
    }
  }

  lemma {:induction false} AsciiText(text: Text, s: string)
    requires |text| == |s| && forall i :: 0 <= i < |s| ==> s[i] < 128 as char && text[i] == s[i] as int
    ensures Encode(text) == Ascii(s)
  {
    if s != "" {
      AsciiText(text[1..], s[1..]);
      EncodeAscii(text[0]);
      assert [s[0]] + s[1..] == s;
      AsciiAppend([s[0]], s[1..]);
    }
  }

  lemma SpellTrue()
    ensures Encode(TRUE_TEXT) == Ascii("true")
  {
    AsciiText(TRUE_TEXT, "true");
  }

  lemma SpellFalse()
    ensures Encode(FALSE_TEXT) == Ascii("false")
  {
    AsciiText(FALSE_TEXT, "false");
  }

  lemma FileJoined(start: seq<Byte>, c: seq<Byte>, disp: seq<Byte>, name: seq<Byte>, q: seq<Byte>, quote: seq<Byte>,
                   filename: seq<Byte>, r: seq<Byte>, typed: seq<Byte>, v: seq<Byte>)
    ensures start + c
        + (((disp + ((name + (q + quote)) + (filename + (r + quote)))) + c + (typed + c + c)) + v) + c
      == start + c + disp + name + q + (quote + filename) + r + (quote + c) + typed + (c + c) + v + c
  {
    var line := disp + name + q + quote + filename + r + quote;
    assert disp + ((name + (q + quote)) + (filename + (r + quote))) == line;
    assert (line + c + (typed + c + c)) + v == line + c + typed + (c + c) + v;
    assert start + c + (line + c + typed + (c + c) + v) == start + c + line + c + typed + (c + c) + v;
    assert start + c + line == start + c + disp + name + q + (quote + filename) + r + quote;
    assert start + c + disp + name + q + (quote + filename) + r + quote + c
      == start + c + disp + name + q + (quote + filename) + r + (quote + c);
  }

  lemma TypeJoined(a: seq<Byte>, quote: seq<Byte>, c: seq<Byte>, t: seq<Byte>, ct: seq<Byte>)
    ensures a + (quote + c) + (t + ct) == a + (quote + (c + t)) + ct
  {
  }

  lemma FileIs(boundary: seq<Byte>, f: File)
    ensures Piece(boundary, FilePart(f)) == FileBytes(boundary, f)
  {
    var p := FilePart(f);
    Ends();
    NameOpens();
    FilenameOpens();
    TypeOpens();
    ParamBytes(NAME, p.name);
    ParamBytes(FILENAME, p.filename.value);
    var typed := TYPE + p.contentType.value;
    TwoHeaders(DispositionLine(p), typed, p.content, HeaderLines(p));
    var name, filename := SEMI + (NAME + OPEN_QUOTE), SEMI + (FILENAME + OPEN_QUOTE);
    var q, r := Escaped(p.name), Escaped(p.filename.value);
    FileJoined(DASHES + boundary, CRLF, DISPOSITION, name, q, [QUOTE], filename, r, typed, p.content);
    TypeJoined(DASHES + boundary + CRLF + DISPOSITION + name + q + ([QUOTE] + filename) + r,
               [QUOTE], CRLF, TYPE, p.contentType.value);
  }

  lemma {:induction false} PiecesCons(boundary: seq<Byte>, p: Part, parts: seq<Part>, all: seq<Part>)
    requires all == [p] + parts
    ensures Pieces(boundary, all) == Piece(boundary, p) + Pieces(boundary, parts)
    decreases |parts|
  {
    if parts == [] {
      assert all == [p] && all[..0] == [] && Pieces(boundary, []) == [];
    } else {
      var front, last := parts[..|parts| - 1], parts[|parts| - 1];
      assert all[..|all| - 1] == [p] + front && all[|all| - 1] == last;
      PiecesCons(boundary, p, front, [p] + front);
      AppendAssoc(Piece(boundary, p), Pieces(boundary, front), Piece(boundary, last));
    }
  }

  lemma {:induction false} FieldsAre(boundary: seq<Byte>, fields: seq<Field>)
    ensures Pieces(boundary, FieldParts(fields)) == AllFields(boundary, fields)
  {
    if fields != [] {
      FieldsAre(boundary, fields[1..]);
      FieldIs(boundary, fields[0]);
      PiecesCons(boundary, FieldPart(fields[0]), FieldParts(fields[1..]), FieldParts(fields));
    }
  }

  lemma {:induction false} FilesAre(boundary: seq<Byte>, files: seq<File>)
    ensures Pieces(boundary, FileParts(files)) == AllFiles(boundary, files)
  {
    if files != [] {
      FilesAre(boundary, files[1..]);
      FileIs(boundary, files[0]);
      PiecesCons(boundary, FilePart(files[0]), FileParts(files[1..]), FileParts(files));
    }
  }

  lemma ClosingIs(boundary: seq<Byte>)
    ensures Body(boundary, []) == Ascii("--") + boundary + Ascii("--\r\n")
  {
    Ends();
    AsciiAppend("--", "\r\n");
    AppendAssoc(DASHES + boundary, DASHES, CRLF);
  }

  /** The body of a form, in bytes: its fields, its files and the closing line. */
  lemma BodyBytes(boundary: seq<Byte>, fields: seq<Field>, files: seq<File>)
    ensures Body(boundary, FormParts(fields, files))
      == AllFields(boundary, fields) + AllFiles(boundary, files) + (Ascii("--") + boundary + Ascii("--\r\n"))
  {
    BodyPieces(boundary, FileParts(files), []);
    AppendNone(FileParts(files));
    BodyPieces(boundary, FieldParts(fields), FileParts(files));
    FieldsAre(boundary, fields);
    FilesAre(boundary, files);
    ClosingIs(boundary);
    AppendAssoc(AllFields(boundary, fields), AllFiles(boundary, files), Body(boundary, []));
  }
}
