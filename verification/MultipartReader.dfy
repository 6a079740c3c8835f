/** The other side of a multipart post: a reader of the body, as section 5.1 of RFC 2046 and RFC 7578 have it. */
module MultipartReader {
  import opened Options
  import opened Multipart

  /** What lies in front of the first occurrence of `pattern`, and what behind it. */
  function Cut(s: string, pattern: string): (r: Option<(string, string)>)
    ensures r.Some? ==> s == r.value.0 + pattern + r.value.1
  {
    if pattern <= s then Some(("", s[|pattern|..]))
    else if s == "" then None
    else
      match Cut(s[1..], pattern)
      case None => None
      case Some(c) => Some(([s[0]] + c.0, c.1))
  }

  /** In `a` with `pattern` behind it, `pattern` does not start any earlier. */
  predicate Before(a: string, pattern: string) {
    forall i :: 0 <= i < |a| ==> !(pattern <= (a + pattern)[i..])
  }

  lemma {:induction false} CutIs(a: string, pattern: string, rest: string)
    requires pattern != "" && Before(a, pattern)
    ensures Cut(a + pattern + rest, pattern) == Some((a, rest))
  {
    var s := a + pattern + rest;
    if a == "" {
      assert s[|pattern|..] == rest && pattern <= s;
    } else {
      NotYet(a, pattern, rest);
      BeforeRest(a, pattern);
      CutIs(a[1..], pattern, rest);
      assert s[1..] == a[1..] + pattern + rest && [s[0]] + a[1..] == a;
    }
  }

  lemma {:induction false} NotYet(a: string, pattern: string, rest: string)
    requires a != "" && Before(a, pattern)
    ensures !(pattern <= a + pattern + rest)
  {
    assert (a + pattern)[0..] == a + pattern;
    assert (a + pattern + rest)[..|pattern|] == (a + pattern)[..|pattern|];
  }

  lemma {:induction false} BeforeRest(a: string, pattern: string)
    requires a != "" && Before(a, pattern)
    ensures Before(a[1..], pattern)
  {
    forall i | 0 <= i < |a| - 1 ensures !(pattern <= (a[1..] + pattern)[i..]) {
      assert (a[1..] + pattern)[i..] == (a + pattern)[i + 1..];
    }
  }

  /** A pattern whose first character does not occur cannot start. */
  lemma {:induction false} NoStart(a: string, pattern: string)
    requires pattern != "" && pattern[0] !in a
    ensures Before(a, pattern)
  {
    forall i | 0 <= i < |a| ensures !(pattern <= (a + pattern)[i..]) {
      assert (a + pattern)[i..][0] == a[i] && a[i] in a;
    }
  }

  datatype Item = FieldItem(name: string, value: string)
                | FileItem(name: string, filename: string, contentType: string, data: string)

  const NameMark: string := "; name=\""
  const FileMark: string := "; filename=\""
  const Quote: string := "\""
  const Colon: string := ": "
  const BlankLine: string := "\r\n\r\n"

  /** The item a part stands for: what is quoted in its header, and its data. */
  function ReadPart(header: string, data: string): Option<Item> {
    match Cut(header, NameMark)
    case None => None
    case Some(c) =>
      match Cut(c.1, Quote)
      case None => None
      case Some(n) => if n.1 == "" then Some(FieldItem(n.0, data)) else ReadFile(n.0, n.1, data)
  }

  function ReadFile(name: string, more: string, data: string): Option<Item> {
    match Cut(more, FileMark)
    case None => None
    case Some(c) =>
      match Cut(c.1, Quote)
      case None => None
      case Some(f) =>
        match Cut(f.1, Colon)
        case None => None
        case Some(t) => Some(FileItem(name, f.0, t.1, data))
  }

  /** The line that starts a part, and what ends its data. */
  function Opening(boundary: string): string {
    "--" + boundary + "\r\n"
  }

  function Delimiter(boundary: string): string {
    "\r\n" + "--" + boundary
  }

  /** The items of a body, if it is one. */
  function ReadBody(text: string, boundary: string): Option<seq<Item>>
    decreases |text|
  {
    if text == Closing(boundary) then Some([])
    else if !(Opening(boundary) <= text) then None
    else
      match Cut(text[|Opening(boundary)|..], BlankLine)
      case None => None
      case Some(c) =>
        match Cut(c.1, Delimiter(boundary))
        case None => None
        case Some(d) => Ahead(ReadPart(c.0, d.0), ReadBody("--" + boundary + d.1, boundary))
  }

  function Ahead(first: Option<Item>, rest: Option<seq<Item>>): Option<seq<Item>> {
    if first.None? || rest.None? then None else Some([first.value] + rest.value)
  }

  // What the client sends.

  function FieldHeader(name: string): string {
    "content-disposition: form-data" + (NameMark + (name + Quote))
  }

  function FileHeader(f: File): string {
    "Content-Disposition: form-data" + (NameMark + (f.name + (Quote + (FileMark + (f.filename + (Quote +
      ("\r\nContent-Type" + (Colon + f.contentType))))))))
  }

  function Part(boundary: string, header: string, data: string): string {
    Opening(boundary) + (header + (BlankLine + (data + "\r\n")))
  }

  lemma {:induction false} FieldIsPart(boundary: string, f: Field)
    ensures FieldPart(boundary, f) == Part(boundary, FieldHeader(f.name), f.value)
  {
    assert "content-disposition: form-data; name=\"" == "content-disposition: form-data" + NameMark;
    assert "\"\r\n\r\n" == Quote + BlankLine;
  }

  lemma {:induction false} FileIsPart(boundary: string, f: File)
    ensures FileText(boundary, f) == Part(boundary, FileHeader(f), f.data)
  {
    HeaderIs(boundary, f);
    Behind(Opening(boundary), FileHeader(f), BlankLine, f.data, "\r\n");
  }

  lemma {:induction false} HeaderIs(boundary: string, f: File)
    ensures SentHeader(boundary, f) == Opening(boundary) + (FileHeader(f) + BlankLine)
  {
    Marks();
    SentIs(boundary, f);
    Grouped(Opening(boundary), "Content-Disposition: form-data", NameMark, f.name, Quote, FileMark, f.filename,
            "\r\nContent-Type", Colon, f.contentType, "\"\r\n", "Content-Type: ");
  }

  lemma {:induction false} Marks()
    ensures "Content-Disposition: form-data; name=\"" == "Content-Disposition: form-data" + NameMark
    ensures "\"; filename=\"" == Quote + FileMark
    ensures "\"\r\n" + "Content-Type: " == Quote + ("\r\nContent-Type" + Colon)
    ensures "\r\n" + "\r\n" == BlankLine
  {
    NameMarks();
    TypeMarks();
  }

  lemma {:induction false} NameMarks()
    ensures "Content-Disposition: form-data; name=\"" == "Content-Disposition: form-data" + NameMark
    ensures "\"; filename=\"" == Quote + FileMark
  {
  }

  lemma {:induction false} TypeMarks()
    ensures "\"\r\n" + "Content-Type: " == Quote + ("\r\nContent-Type" + Colon)
  {
  }

  lemma {:induction false} SentIs(boundary: string, f: File)
    ensures SentHeader(boundary, f)
            == Opening(boundary) + "Content-Disposition: form-data; name=\"" + f.name + "\"; filename=\"" + f.filename
               + "\"\r\n" + "Content-Type: " + f.contentType + "\r\n" + "\r\n"
  {
  }

  lemma {:induction false} Grouped(o: string, d: string, m: string, n: string, q: string, k: string, x: string,
                                   t: string, c: string, y: string, qe: string, tc: string)
    requires qe + tc == q + (t + c)
    ensures o + (d + m) + n + (q + k) + x + qe + tc + y + "\r\n" + "\r\n"
            == o + ((d + (m + (n + (q + (k + (x + (q + (t + (c + y))))))))) + ("\r\n" + "\r\n"))
  {
    assert qe + tc + y == q + (t + (c + y));
    var e := "\r\n" + "\r\n";
    var tail := x + (qe + tc + y);
    assert o + (d + m) + n + (q + k) + x + qe + tc + y + "\r\n" + "\r\n"
           == o + ((d + m) + n + (q + k) + tail + e);
    assert (d + m) + n + (q + k) + tail == d + (m + (n + (q + (k + tail))));
  }

  lemma {:induction false} Behind(o: string, h: string, b: string, data: string, e: string)
    ensures o + (h + b) + data + e == o + (h + (b + (data + e)))
  {
  }

  /** No character that ends a quoted name or a line. */
  predicate Plain(s: string) {
    '\"' !in s && '\r' !in s
  }

  predicate FieldOk(boundary: string, f: Field) {
    Plain(f.name) && Before(f.value, Delimiter(boundary))
  }

  predicate FileOk(boundary: string, f: File) {
    Plain(f.name) && Plain(f.filename) && '\r' !in f.contentType && Before(f.data, Delimiter(boundary))
  }

  function Items(fields: seq<Field>, files: seq<File>): seq<Item> {
    if fields != [] then [FieldItem(fields[0].name, fields[0].value)] + Items(fields[1..], files)
    else if files != [] then
      [FileItem(files[0].name, files[0].filename, files[0].contentType, files[0].data)] + Items([], files[1..])
    else []
  }

  // Headers.

  /** A field's name is read back, among names of one line, exactly if it holds no quote. */
  lemma {:induction false} NameReadExactly(name: string, data: string)
    ensures ReadPart(FieldHeader(name), data) == Some(FieldItem(name, data)) <==> '\"' !in name
  {
    var start := "content-disposition: form-data";
    NoStart(start, NameMark);
    CutIs(start, NameMark, name + Quote);
    assert FieldHeader(name) == start + NameMark + (name + Quote);
    if '\"' !in name {
      NoStart(name, Quote);
      CutIs(name, Quote, "");
      assert name + Quote + "" == name + Quote;
    } else {
      CutShort(name, Quote);
    }
  }

  lemma {:induction false} CutShort(name: string, rest: string)
    requires '\"' in name
    ensures var c := Cut(name + rest, Quote); c.Some? && |c.value.0| < |name|
  {
    if name[0] == '\"' {
      assert Quote <= name + rest;
    } else {
      assert (name + rest)[1..] == name[1..] + rest && (name + rest)[0] == name[0];
      assert '\"' in name[1..];
      CutShort(name[1..], rest);
    }
  }

  lemma {:induction false} FileRead(f: File)
    requires Plain(f.name) && Plain(f.filename)
    ensures ReadPart(FileHeader(f), f.data) == Some(FileItem(f.name, f.filename, f.contentType, f.data))
  {
    var more := FileMark + (f.filename + (Quote + ("\r\nContent-Type" + (Colon + f.contentType))));
    NameThen("Content-Disposition: form-data", f.name, more, f.data);
    MoreRead(f);
  }

  lemma {:induction false} NameThen(start: string, name: string, more: string, data: string)
    requires ';' !in start && '\"' !in name && more != ""
    ensures ReadPart(start + (NameMark + (name + (Quote + more))), data) == ReadFile(name, more, data)
  {
    var quoted := name + (Quote + more);
    NoStart(start, NameMark);
    CutIs(start, NameMark, quoted);
    assert start + (NameMark + quoted) == start + NameMark + quoted;
    NoStart(name, Quote);
    CutIs(name, Quote, more);
    assert quoted == name + Quote + more;
  }

  lemma {:induction false} MoreRead(f: File)
    requires Plain(f.filename)
    ensures ReadFile(f.name, FileMark + (f.filename + (Quote + ("\r\nContent-Type" + (Colon + f.contentType)))), f.data)
            == Some(FileItem(f.name, f.filename, f.contentType, f.data))
  {
    var tail := "\r\nContent-Type" + (Colon + f.contentType);
    var rest := f.filename + (Quote + tail);
    CutIs("", FileMark, rest);
    assert FileMark + rest == "" + FileMark + rest;
    NoStart(f.filename, Quote);
    CutIs(f.filename, Quote, tail);
    assert rest == f.filename + Quote + tail;
    NoStart("\r\nContent-Type", Colon);
    CutIs("\r\nContent-Type", Colon, f.contentType);
    assert tail == "\r\nContent-Type" + Colon + f.contentType;
  }

  /** The blank line behind a header is the first one. */
  lemma {:induction false} FieldHeaderEnds(name: string)
    requires Plain(name)
    ensures Before(FieldHeader(name), BlankLine)
  {
    var h := FieldHeader(name);
    forall i | 0 <= i < |h| ensures h[i] != '\r' {
    }
    NoStart(h, BlankLine);
  }

  lemma {:induction false} FileHeaderEnds(f: File)
    requires Plain(f.name) && Plain(f.filename) && '\r' !in f.contentType
    ensures Before(FileHeader(f), BlankLine)
  {
    var front := "Content-Disposition: form-data" + (NameMark + (f.name + (Quote + (FileMark + (f.filename + Quote)))));
    var back := "Content-Type" + (Colon + f.contentType);
    assert "\r\nContent-Type" == "\r\n" + "Content-Type";
    assert FileHeader(f) == front + "\r\n" + back;
    assert '\r' !in front && '\r' !in back && back[0] == 'C';
    TwoLines(front, back, FileHeader(f));
  }

  lemma {:induction false} TwoLines(front: string, back: string, h: string)
    requires h == front + "\r\n" + back && '\r' !in front && '\r' !in back && back != ""
    ensures Before(h, BlankLine)
  {
    forall i | 0 <= i < |h| ensures !(BlankLine <= (h + BlankLine)[i..]) {
      if i == |front| {
        assert (h + BlankLine)[i..][2] == back[0] && back[0] in back;
      } else {
        assert (h + BlankLine)[i..][0] == h[i];
        assert i < |front| ==> h[i] in front;
        assert i > |front| + 1 ==> h[i] == back[i - |front| - 2] && h[i] in back;
      }
    }
  }

  // Bodies.

  lemma {:induction false} PartRead(boundary: string, header: string, data: string, rest: string, item: Item)
    requires Before(header, BlankLine) && Before(data, Delimiter(boundary))
    requires ReadPart(header, data) == Some(item) && "--" + boundary <= rest
    ensures ReadBody(Part(boundary, header, data) + rest, boundary) == Ahead(Some(item), ReadBody(rest, boundary))
    ensures "--" + boundary <= Part(boundary, header, data) + rest
  {
    var text := Part(boundary, header, data) + rest;
    var tail := rest[|"--" + boundary|..];
    assert rest == "--" + boundary + tail;
    var behind := data + Delimiter(boundary) + tail;
    PartText(boundary, header, data, rest, tail, behind);
    CutIs(header, BlankLine, behind);
    CutIs(data, Delimiter(boundary), tail);
    OpeningIsNotClosing(boundary, header + BlankLine + behind);
  }

  lemma {:induction false} PartText(boundary: string, header: string, data: string, rest: string, tail: string,
                                    behind: string)
    requires rest == "--" + boundary + tail && behind == data + Delimiter(boundary) + tail
    ensures Part(boundary, header, data) + rest == Opening(boundary) + (header + BlankLine + behind)
    ensures (Opening(boundary) + (header + BlankLine + behind))[|Opening(boundary)|..] == header + BlankLine + behind
  {
    assert data + "\r\n" + rest == behind;
    assert header + (BlankLine + (data + "\r\n")) + rest == header + BlankLine + (data + "\r\n" + rest);
  }

  lemma {:induction false} OpeningIsNotClosing(boundary: string, more: string)
    ensures Opening(boundary) + more != Closing(boundary) && Opening(boundary) <= Opening(boundary) + more
  {
    assert (Opening(boundary) + more)[2 + |boundary|] == '\r';
    assert Closing(boundary)[2 + |boundary|] == '-';
  }

  /** The files' part of the body, from the first one on. */
  function FilesAhead(boundary: string, files: seq<File>): string {
    if files == [] then "" else FileText(boundary, files[0]) + FilesAhead(boundary, files[1..])
  }

  lemma {:induction false} FilesAheadIs(boundary: string, files: seq<File>)
    ensures FilesAhead(boundary, files) == FilesText(boundary, files)
    decreases |files|
  {
    if files != [] {
      var front, last := files[..|files| - 1], files[|files| - 1];
      FilesAheadIs(boundary, front);
      assert files == front + [last];
      FilesAheadSnoc(boundary, front, last);
    }
  }

  lemma {:induction false} FilesAheadSnoc(boundary: string, files: seq<File>, last: File)
    ensures FilesAhead(boundary, files + [last]) == FilesAhead(boundary, files) + FileText(boundary, last)
  {
    if files == [] {
      assert [] + [last] == [last] && [last][1..] == [];
    } else {
      assert (files + [last])[1..] == files[1..] + [last];
      FilesAheadSnoc(boundary, files[1..], last);
    }
  }

  lemma {:induction false} FilesRead(boundary: string, files: seq<File>)
    requires forall f <- files :: FileOk(boundary, f)
    ensures var text := FilesAhead(boundary, files) + Closing(boundary);
            "--" + boundary <= text && ReadBody(text, boundary) == Some(Items([], files))
  {
    if files != [] {
      var f, rest := files[0], FilesAhead(boundary, files[1..]) + Closing(boundary);
      assert f in files;
      FilesRead(boundary, files[1..]);
      FileIsPart(boundary, f);
      FileHeaderEnds(f);
      FileRead(f);
      PartRead(boundary, FileHeader(f), f.data, rest, FileItem(f.name, f.filename, f.contentType, f.data));
      Regroup(FileText(boundary, f), FilesAhead(boundary, files[1..]), Closing(boundary));
    }
  }

  function FieldsAhead(boundary: string, fields: seq<Field>): string {
    if fields == [] then "" else FieldPart(boundary, fields[0]) + FieldsAhead(boundary, fields[1..])
  }

  lemma {:induction false} FieldsRead(boundary: string, fields: seq<Field>, files: seq<File>)
    requires (forall f <- fields :: FieldOk(boundary, f)) && forall f <- files :: FileOk(boundary, f)
    ensures var text := FieldsAhead(boundary, fields) + (FilesAhead(boundary, files) + Closing(boundary));
            "--" + boundary <= text && ReadBody(text, boundary) == Some(Items(fields, files))
  {
    var end := FilesAhead(boundary, files) + Closing(boundary);
    if fields == [] {
      FilesRead(boundary, files);
      assert "" + end == end;
    } else {
      var f, rest := fields[0], FieldsAhead(boundary, fields[1..]) + end;
      assert f in fields;
      FieldsRead(boundary, fields[1..], files);
      FieldIsPart(boundary, f);
      FieldHeaderEnds(f.name);
      NameReadExactly(f.name, f.value);
      PartRead(boundary, FieldHeader(f.name), f.value, rest, FieldItem(f.name, f.value));
      Regroup(FieldPart(boundary, f), FieldsAhead(boundary, fields[1..]), end);
    }
  }

  /**
   The body of a post gives a reader every name, value and file back, in order, if no name holds a quote or a line
   end and no value or file holds the delimiter.
   */
  lemma {:induction false} PostRead(boundary: string, fields: seq<Field>, files: seq<File>)
    requires (forall f <- fields :: FieldOk(boundary, f)) && forall f <- files :: FileOk(boundary, f)
    ensures ReadBody(PostText(boundary, fields, files), boundary) == Some(Items(fields, files))
  {
    FieldsAheadIs(boundary, fields);
    FilesAheadIs(boundary, files);
    FieldsRead(boundary, fields, files);
    Regroup(FieldsText(boundary, fields), FilesText(boundary, files), Closing(boundary));
  }

  lemma {:induction false} Regroup(a: string, b: string, c: string)
    ensures a + b + c == a + (b + c)
  {
  }

  lemma {:induction false} FieldsAheadIs(boundary: string, fields: seq<Field>)
    ensures FieldsAhead(boundary, fields) == FieldsText(boundary, fields)
    decreases |fields|
  {
    if fields != [] {
      var front, last := fields[..|fields| - 1], fields[|fields| - 1];
      FieldsAheadIs(boundary, front);
      assert fields == front + [last];
      FieldsAheadSnoc(boundary, front, last);
    }
  }

  lemma {:induction false} FieldsAheadSnoc(boundary: string, fields: seq<Field>, last: Field)
    ensures FieldsAhead(boundary, fields + [last]) == FieldsAhead(boundary, fields) + FieldPart(boundary, last)
  {
    if fields == [] {
      assert [] + [last] == [last] && [last][1..] == [];
    } else {
      assert (fields + [last])[1..] == fields[1..] + [last];
      FieldsAheadSnoc(boundary, fields[1..], last);
    }
  }
}
