/** The multipart post of the HTTP client: the length announced and the bytes written. */
module Multipart {
  import opened Decimals

  datatype Field = Field(name: string, value: string)

  datatype File = File(name: string, filename: string, contentType: string, data: string)

  /** The value an int is left with when 32-bit arithmetic wraps around. */
  function Wrapped(x: int): int32 {
    (x + 0x8000_0000) % 0x1_0000_0000 - 0x8000_0000
  }

  lemma {:induction false} WholeTurns(x: int, q: int)
    ensures Wrapped(x - q * 0x1_0000_0000) == Wrapped(x)
  {
  }

  lemma {:induction false} WrapSum(a: int, b: int)
    ensures Wrapped(Wrapped(a) + Wrapped(b)) == Wrapped(a + b)
  {
    WrapLater(a, Wrapped(b));
    WrapLater(a, b);
  }

  lemma {:induction false} WrapLater(a: int, b: int)
    ensures Wrapped(Wrapped(a) + b) == Wrapped(a + b) && Wrapped(a + Wrapped(b)) == Wrapped(a + b)
  {
    WholeTurns(a + b, (a + 0x8000_0000) / 0x1_0000_0000);
    WholeTurns(a + b, (b + 0x8000_0000) / 0x1_0000_0000);
  }

  function FieldPart(boundary: string, f: Field): string {
    "--" + boundary + "\r\n" + "content-disposition: form-data; name=\"" + f.name + "\"\r\n\r\n" + f.value + "\r\n"
  }

  /** The file header as calcBody measures it … */
  function MeasuredHeader(boundary: string, f: File): string {
    "--" + boundary + "\r\n" + "content-disposition: form-data; name=\"" + f.name + "\"; filename=\"" + f.filename
        + "\"\r\n"
    + "content-type: " + f.contentType + "\r\n" + "\r\n"
  }

  /** … and as doMultipartPost sends it. */
  function SentHeader(boundary: string, f: File): string {
    "--" + boundary + "\r\n" + "Content-Disposition: form-data; name=\"" + f.name + "\"; filename=\"" + f.filename
        + "\"\r\n"
    + "Content-Type: " + f.contentType + "\r\n" + "\r\n"
  }

  lemma {:induction false} HeadersEquallyLong(boundary: string, f: File)
    ensures |MeasuredHeader(boundary, f)| == |SentHeader(boundary, f)|
  {
    var a, b := "content-disposition: form-data; name=\"", "Content-Disposition: form-data; name=\"";
    var c, d := "content-type: ", "Content-Type: ";
    assert |a| == |b| && |c| == |d|;
  }

  function Closing(boundary: string): string {
    "--" + boundary + "--\r\n"
  }

  function FieldsText(boundary: string, fields: seq<Field>): string {
    if fields == [] then ""
    else FieldsText(boundary, fields[..|fields| - 1]) + FieldPart(boundary, fields[|fields| - 1])
  }

  function FileText(boundary: string, f: File): string {
    SentHeader(boundary, f) + f.data + "\r\n"
  }

  function FilesText(boundary: string, files: seq<File>): string {
    if files == [] then "" else FilesText(boundary, files[..|files| - 1]) + FileText(boundary, files[|files| - 1])
  }

  /** The whole body of a multipart post. */
  function PostText(boundary: string, fields: seq<Field>, files: seq<File>): string {
    FieldsText(boundary, fields) + FilesText(boundary, files) + Closing(boundary)
  }

  // Header fields, whose names do not depend on case.

  const ContentType := "Content-Type"
  const ContentLength := "Content-Length"

  function Lower(c: char): char {
    if 'A' <= c <= 'Z' then c - 'A' + 'a' else c
  }

  predicate SameName(a: string, b: string) {
    |a| == |b| && forall i :: 0 <= i < |a| ==> Lower(a[i]) == Lower(b[i])
  }

  /** The value under `name`, if there is one. */
  function Lookup(fields: seq<Field>, name: string): seq<string> {
    if fields == [] then []
    else (if SameName(fields[0].name, name) then [fields[0].value] else []) + Lookup(fields[1..], name)
  }

  lemma {:induction false} LookupAppend(a: seq<Field>, b: seq<Field>, name: string)
    ensures Lookup(a + b, name) == Lookup(a, name) + Lookup(b, name)
  {
    if a == [] {
      assert a + b == b;
    } else {
      assert (a + b)[1..] == a[1..] + b;
      LookupAppend(a[1..], b, name);
    }
  }

  lemma {:induction false} LookupOne(f: Field, name: string)
    ensures Lookup([f], name) == if SameName(f.name, name) then [f.value] else []
  {
    assert [f][1..] == [];
  }

  lemma {:induction false} LookupNone(fields: seq<Field>, name: string)
    requires forall k :: 0 <= k < |fields| ==> !SameName(fields[k].name, name)
    ensures Lookup(fields, name) == []
  {
    if fields != [] {
      LookupNone(fields[1..], name);
    }
  }

  /** A length that an int can hold. */
  predicate IntSized(text: string) {
    |text| < 0x8000_0000
  }

  /** A socket at one moment: what has gone out, whether the coming writes all take something, how many there are. */
  datatype Snap = Snap(sent: string, willing: bool, writes: nat)

  /**
   `text` was written between the two moments, all of it if `ok`, and otherwise only a part. That takes single texts
   of int size (`fits`), and then a socket that keeps taking bytes takes them all.
   */
  ghost predicate Wrote(a: Snap, b: Snap, text: string, fits: bool, ok: bool) {
    && a.sent <= b.sent <= a.sent + text
    && (ok ==> b.sent == a.sent + text && fits)
    && (a.willing ==> b.willing && (fits && |text| <= a.writes ==> ok && b.writes >= a.writes - |text|))
  }

  lemma {:induction false} WroteBoth(a: Snap, b: Snap, c: Snap, s: string, t: string, fs: bool, ft: bool, ok: bool)
    requires Wrote(a, b, s, fs, true) && Wrote(b, c, t, ft, ok)
    ensures Wrote(a, c, s + t, fs && ft, ok)
  {
    assert a.sent + (s + t) == (a.sent + s) + t;
  }

  lemma {:induction false} WroteLess(a: Snap, b: Snap, s: string, t: string, fs: bool, ft: bool)
    requires Wrote(a, b, s, fs, false)
    ensures Wrote(a, b, s + t, fs && ft, false)
  {
    assert a.sent + (s + t) == (a.sent + s) + t;
  }

  lemma {:induction false} WroteNothing(a: Snap)
    ensures Wrote(a, a, "", true, true)
  {
    assert a.sent + "" == a.sent;
  }

  /** One write more. */
  lemma {:induction false} TakeMore(was: string, text: string, done: nat, n: nat)
    requires done + n <= |text|
    ensures (was + text[..done]) + text[done..][..n] == was + text[..done + n]
  {
    assert text[..done + n] == text[..done] + text[done..][..n];
  }

  /** Where the writing of a text stopped. */
  lemma {:induction false} Stopped(was: string, text: string, done: nat)
    requires done <= |text|
    ensures was <= was + text[..done] <= was + text
    ensures done == |text| ==> was + text[..done] == was + text
  {
    assert text == text[..done] + text[done..];
    assert done == |text| ==> text[..done] == text;
  }

  class Socket {
    /** What the coming calls of write will return, at most; nothing left means that they fail. */
    var grants: seq<int>
    var sent: string

    ghost predicate Willing()
      reads this
    {
      forall k :: 0 <= k < |grants| ==> grants[k] > 0
    }

    ghost function Snapshot(): Snap
      reads this
    {
      Snap(sent, Willing(), |grants|)
    }

    method Write(data: string, length: int) returns (ret: int)
      requires length <= |data|
      modifies this
      ensures ret <= length || ret <= 0
      ensures old(Willing()) ==>
                Willing()
                && (length > 0 && old(grants) != [] ==> ret > 0 && |grants| == |old(grants)| - 1)
      ensures sent == old(sent) + if ret > 0 then data[..ret] else ""
    {
      ret := -1;
      if length > 0 && grants != [] {
        ret := if grants[0] <= length then grants[0] else length;
        grants := grants[1..];
        if ret > 0 {
          sent := sent + data[..ret];
        }
      }
    }

    /** The whole text, or a part of it before a failure. */
    method WriteAll(text: string) returns (ok: bool)
      requires |text| < 0x1_0000_0000
      modifies this
      ensures Wrote(old(Snapshot()), Snapshot(), text, IntSized(text), ok)
    {
      ghost var was := sent;
      var unsent: int, done := Wrapped(|text|), 0;
      while unsent != 0
        invariant 0 <= done <= |text| && sent == was + text[..done]
        invariant unsent == Wrapped(|text|) - done && (unsent >= 0 ==> unsent == |text| - done)
        invariant old(Willing()) ==>
                    Willing()
                    && (IntSized(text) && |text| <= |old(grants)| ==> |grants| >= |old(grants)| - done)
        decreases |text| - done
      {
        var ret := Write(text[done..], unsent);
        if ret <= 0 {
          break;
        }
        TakeMore(was, text, done, ret);
        unsent, done := unsent - ret, done + ret;
      }
      ok := unsent == 0;
      Stopped(was, text, done);
    }

    /** HttpMemoryStream::postFile: at most 10240 bytes a call. */
    method PostFile(data: string) returns (ok: bool)
      requires |data| < 0x1_0000_0000
      modifies this
      ensures Wrote(old(Snapshot()), Snapshot(), data, IntSized(data), ok)
    {
      ghost var was := sent;
      var unsent: int, done := Wrapped(|data|), 0;
      while unsent != 0
        invariant 0 <= done <= |data| && sent == was + data[..done]
        invariant unsent == Wrapped(|data|) - done && (unsent >= 0 ==> unsent == |data| - done)
        invariant old(Willing()) ==>
                    Willing()
                    && (IntSized(data) && |data| <= |old(grants)| ==> |grants| >= |old(grants)| - done)
        decreases |data| - done
      {
        var length := if unsent >= 10240 then 10240 else unsent;
        var ret := Write(data[done..], length);
        if ret <= 0 {
          break;
        }
        TakeMore(was, data, done, ret);
        unsent, done := unsent - ret, done + ret;
      }
      ok := unsent == 0;
      Stopped(was, data, done);
    }
  }

  class HttpRequest {
    var headerFields: seq<Field>
    var bodyFields: seq<Field>
    var postFiles: seq<File>
    var boundary: string
    var body: string

    /** A field of that name gets the new value, or one more field is added. */
    method AddHeaderField(name: string, value: string)
      modifies this`headerFields
      ensures |Lookup(old(headerFields), name)| <= 1 ==> Lookup(headerFields, name) == [value]
      ensures forall other: string | !SameName(other, name) ::
                Lookup(headerFields, other) == Lookup(old(headerFields), other)
    {
      ghost var was := headerFields;
      var i := 0;
      while i < |headerFields|
        invariant 0 <= i <= |headerFields| && headerFields == was
        invariant forall k :: 0 <= k < i ==> !SameName(headerFields[k].name, name)
      {
        if SameName(headerFields[i].name, name) {
          headerFields := headerFields[i := Field(headerFields[i].name, value)];
          FieldReplaced(was, i, name, value);
          return;
        }
        i := i + 1;
      }
      headerFields := headerFields + [Field(name, value)];
      FieldAdded(was, name, value);
    }

    /** calcBody of a multipart request; the boundary is drawn by genBoundary. */
    method CalcBody(drawn: string)
      requires |Lookup(headerFields, ContentLength)| <= 1
      modifies this`headerFields, this`boundary, this`body
      ensures boundary == drawn && body == FieldsText(drawn, bodyFields)
      ensures Lookup(headerFields, ContentLength) == [DecimalInt(Wrapped(|PostText(drawn, bodyFields, postFiles)|))]
    {
      boundary := drawn;
      body := GatherFields(bodyFields, drawn);
      var length := Measure(body, postFiles, drawn);
      SetLength("multipart/form-data; boundary=" + drawn, DecimalInt(length));
    }

    method SetLength(contentType: string, length: string)
      requires |Lookup(headerFields, ContentLength)| <= 1
      modifies this`headerFields
      ensures Lookup(headerFields, ContentLength) == [length]
    {
      TypeIsNotLength();
      AddHeaderField(ContentType, contentType);
      AddHeaderField(ContentLength, length);
    }
  }

  method Measure(body: string, files: seq<File>, boundary: string) returns (length: int32)
    ensures length == Wrapped(|body + FilesText(boundary, files) + Closing(boundary)|)
  {
    length := MeasureFiles(files, boundary, Wrapped(|body|), |body|);
    Closed(|body| + |FilesText(boundary, files)|, |Closing(boundary)|);
    length := Wrapped(length as int + Wrapped(|Closing(boundary)|) as int);
  }

  lemma {:induction false} Closed(before: nat, closing: nat)
    ensures Wrapped(Wrapped(before) as int + Wrapped(closing) as int) == Wrapped(before + closing)
  {
    WrapLater(before, Wrapped(closing));
    WrapLater(before, closing);
  }

  /** calcBody's loop over the fields. */
  method GatherFields(fields: seq<Field>, boundary: string) returns (body: string)
    ensures body == FieldsText(boundary, fields)
  {
    body := "";
    var i := 0;
    while i < |fields|
      invariant 0 <= i <= |fields| && body == FieldsText(boundary, fields[..i])
    {
      body := body + FieldPart(boundary, fields[i]);
      assert fields[..i + 1][..i] == fields[..i];
      i := i + 1;
    }
    assert fields[..i] == fields;
  }

  /** calcBody's loop over the files. */
  method MeasureFiles(files: seq<File>, boundary: string, start: int32, ghost size: nat) returns (length: int32)
    requires start == Wrapped(size)
    ensures length == Wrapped(size + |FilesText(boundary, files)|)
  {
    length := start;
    var i := 0;
    ghost var sum := size;
    while i < |files|
      invariant 0 <= i <= |files| && sum == size + |FilesText(boundary, files[..i])| && length == Wrapped(sum)
    {
      OneFileLonger(boundary, files, i);
      length := MeasureFile(length, boundary, files[i], sum);
      sum := sum + |FileText(boundary, files[i])|;
      i := i + 1;
    }
    assert files[..i] == files;
  }

  method MeasureFile(before: int32, boundary: string, f: File, ghost size: nat) returns (length: int32)
    requires before == Wrapped(size)
    ensures length == Wrapped(size + |FileText(boundary, f)|)
  {
    var header, data := |MeasuredHeader(boundary, f)|, |f.data|;
    HeadersEquallyLong(boundary, f);
    Measured(size, header, data);
    length := Wrapped(before + Wrapped(header));
    length := Wrapped(length + Wrapped(data));
    length := Wrapped(length + 2);
  }

  lemma {:induction false} Measured(before: nat, header: nat, data: nat)
    ensures Wrapped(Wrapped(Wrapped(Wrapped(before) + Wrapped(header)) + Wrapped(data)) + 2)
            == Wrapped(before + header + data + 2)
  {
    WrapSum(before, header);
    WrapSum(before + header, data);
    WrapLater(before + header + data, 2);
  }

  lemma {:induction false} TypeIsNotLength()
    ensures !SameName(ContentLength, ContentType)
  {
  }

  lemma {:induction false} FieldReplaced(was: seq<Field>, i: nat, name: string, value: string)
    requires i < |was| && SameName(was[i].name, name)
    ensures var now := was[i := Field(was[i].name, value)];
            && (|Lookup(was, name)| <= 1 ==> Lookup(now, name) == [value])
            && forall other: string | !SameName(other, name) :: Lookup(now, other) == Lookup(was, other)
  {
    var now := was[i := Field(was[i].name, value)];
    var a, b := was[..i], was[i + 1..];
    assert was == a + [was[i]] + b && now == a + [now[i]] + b;
    LookupThree(a, was[i], b, name);
    LookupThree(a, now[i], b, name);
    forall other: string | !SameName(other, name) ensures Lookup(now, other) == Lookup(was, other) {
      LookupThree(a, was[i], b, other);
      LookupThree(a, now[i], b, other);
      NotSame(was[i].name, name, other);
    }
  }

  lemma {:induction false} NotSame(a: string, name: string, other: string)
    requires SameName(a, name) && !SameName(other, name)
    ensures !SameName(a, other)
  {
  }

  lemma {:induction false} LookupThree(a: seq<Field>, f: Field, b: seq<Field>, name: string)
    ensures Lookup(a + [f] + b, name) == Lookup(a, name) + (if SameName(f.name, name) then [f.value] else [])
            + Lookup(b, name)
  {
    LookupAppend(a + [f], b, name);
    LookupAppend(a, [f], name);
    LookupOne(f, name);
  }

  lemma {:induction false} FieldAdded(was: seq<Field>, name: string, value: string)
    requires forall k :: 0 <= k < |was| ==> !SameName(was[k].name, name)
    ensures var now := was + [Field(name, value)];
            && Lookup(now, name) == [value]
            && forall other: string | !SameName(other, name) :: Lookup(now, other) == Lookup(was, other)
  {
    var f := Field(name, value);
    var now := was + [f];
    LookupAppend(was, [f], name);
    LookupNone(was, name);
    LookupOne(f, name);
    forall other: string | !SameName(other, name) ensures Lookup(now, other) == Lookup(was, other) {
      LookupAppend(was, [f], other);
      LookupOne(f, other);
      assert SameName(name, name);
      NotSame(name, name, other);
    }
  }

  /** Every text handed to the socket is shorter than 2^32 bytes. */
  predicate Addressable(boundary: string, fields: seq<Field>, files: seq<File>) {
    && |FieldsText(boundary, fields)| < 0x1_0000_0000 && |Closing(boundary)| < 0x1_0000_0000
    && forall f <- files :: FileAddressable(boundary, f)
  }

  predicate FileAddressable(boundary: string, f: File) {
    |SentHeader(boundary, f)| < 0x1_0000_0000 && |f.data| < 0x1_0000_0000
  }

  /** Every single text handed to the socket is of int size. */
  predicate FileFits(boundary: string, f: File) {
    IntSized(SentHeader(boundary, f)) && IntSized(f.data)
  }

  predicate FilesFit(boundary: string, files: seq<File>) {
    files == [] || (FilesFit(boundary, files[..|files| - 1]) && FileFits(boundary, files[|files| - 1]))
  }

  predicate TextsFit(boundary: string, fields: seq<Field>, files: seq<File>) {
    IntSized(FieldsText(boundary, fields)) && FilesFit(boundary, files) && IntSized(Closing(boundary))
  }

  method SendFile(socket: Socket, boundary: string, f: File) returns (ok: bool)
    requires FileAddressable(boundary, f)
    modifies socket
    ensures Wrote(old(socket.Snapshot()), socket.Snapshot(), FileText(boundary, f), FileFits(boundary, f), ok)
  {
    ghost var a, header := socket.Snapshot(), SentHeader(boundary, f);
    ghost var fh, fd := IntSized(header), IntSized(f.data);
    ok := socket.WriteAll(SentHeader(boundary, f));
    ghost var b := socket.Snapshot();
    if !ok {
      WroteLess(a, b, header, f.data, fh, fd);
      WroteLess(a, b, header + f.data, "\r\n", fh && fd, true);
      return;
    }
    ok := socket.PostFile(f.data);
    ghost var c := socket.Snapshot();
    WroteBoth(a, b, c, header, f.data, fh, fd, ok);
    if !ok {
      WroteLess(a, c, header + f.data, "\r\n", fh && fd, true);
      return;
    }
    ok := socket.WriteAll("\r\n");
    WroteBoth(a, c, socket.Snapshot(), header + f.data, "\r\n", fh && fd, true, ok);
  }

  /** The loop over the files, the text of the first `i` of which has gone out. */
  method SendFiles(socket: Socket, boundary: string, files: seq<File>) returns (ok: bool)
    requires forall f <- files :: FileAddressable(boundary, f)
    modifies socket
    ensures Wrote(old(socket.Snapshot()), socket.Snapshot(), FilesText(boundary, files), FilesFit(boundary, files), ok)
  {
    ghost var a := socket.Snapshot();
    WroteNothing(a);
    ok := true;
    var i := 0;
    while i < |files|
      invariant 0 <= i <= |files|
      invariant Wrote(a, socket.Snapshot(), FilesText(boundary, files[..i]), FilesFit(boundary, files[..i]), true)
    {
      ghost var b := socket.Snapshot();
      ok := SendFile(socket, boundary, files[i]);
      WroteBoth(a, b, socket.Snapshot(), FilesText(boundary, files[..i]), FileText(boundary, files[i]),
                FilesFit(boundary, files[..i]), FileFits(boundary, files[i]), ok);
      OneFileMore(boundary, files, i);
      if !ok {
        RestUnwritten(a, socket.Snapshot(), boundary, files, i + 1);
        return;
      }
      i := i + 1;
    }
    assert files[..i] == files;
    ok := true;
  }

  lemma {:induction false} OneFileLonger(boundary: string, files: seq<File>, i: nat)
    requires i < |files|
    ensures |FilesText(boundary, files[..i + 1])|
            == |FilesText(boundary, files[..i])| + |FileText(boundary, files[i])|
  {
    OneFileMore(boundary, files, i);
  }

  lemma {:induction false} OneFileMore(boundary: string, files: seq<File>, i: nat)
    requires i < |files|
    ensures FilesText(boundary, files[..i + 1]) == FilesText(boundary, files[..i]) + FileText(boundary, files[i])
    ensures FilesFit(boundary, files[..i + 1]) == (FilesFit(boundary, files[..i]) && FileFits(boundary, files[i]))
  {
    assert files[..i + 1][..i] == files[..i];
  }

  /** After a failure within the first `i` files, the others are not written either. */
  lemma {:induction false} RestUnwritten(a: Snap, b: Snap, boundary: string, files: seq<File>, i: nat)
    requires i <= |files| && Wrote(a, b, FilesText(boundary, files[..i]), FilesFit(boundary, files[..i]), false)
    ensures Wrote(a, b, FilesText(boundary, files), FilesFit(boundary, files), false)
    decreases |files| - i
  {
    if i == |files| {
      assert files[..i] == files;
    } else {
      OneFileMore(boundary, files, i);
      WroteLess(a, b, FilesText(boundary, files[..i]), FileText(boundary, files[i]),
                FilesFit(boundary, files[..i]), FileFits(boundary, files[i]));
      RestUnwritten(a, b, boundary, files, i + 1);
    }
  }

  /**
   The writes of doMultipartPost: what goes out is the body, or a part of it if a write failed. The comma in the
   source's last expression makes the method return false even then.
   */
  method DoMultipartPost(request: HttpRequest, socket: Socket) returns (complete: bool, ghost delivered: bool)
    requires request.body == FieldsText(request.boundary, request.bodyFields)
    requires Addressable(request.boundary, request.bodyFields, request.postFiles)
    modifies socket
    ensures !complete
    ensures Wrote(old(socket.Snapshot()), socket.Snapshot(),
                  PostText(request.boundary, request.bodyFields, request.postFiles),
                  TextsFit(request.boundary, request.bodyFields, request.postFiles), delivered)
  {
    ghost var a, text := socket.Snapshot(), request.body + FilesText(request.boundary, request.postFiles);
    ghost var closing := Closing(request.boundary);
    ghost var ft, fc := IntSized(request.body) && FilesFit(request.boundary, request.postFiles), IntSized(closing);
    complete, delivered := false, false;
    var ok := SendParts(request, socket);
    ghost var c := socket.Snapshot();
    if !ok {
      WroteLess(a, c, text, closing, ft, fc);
      return;
    }
    ok := socket.WriteAll(Closing(request.boundary));
    delivered := ok;
    WroteBoth(a, c, socket.Snapshot(), text, closing, ft, fc, ok);
  }

  /** The fields and the files. */
  method SendParts(request: HttpRequest, socket: Socket) returns (ok: bool)
    requires request.body == FieldsText(request.boundary, request.bodyFields)
    requires Addressable(request.boundary, request.bodyFields, request.postFiles)
    modifies socket
    ensures Wrote(old(socket.Snapshot()), socket.Snapshot(),
                  request.body + FilesText(request.boundary, request.postFiles),
                  IntSized(request.body) && FilesFit(request.boundary, request.postFiles), ok)
  {
    ghost var a, files := socket.Snapshot(), FilesText(request.boundary, request.postFiles);
    ghost var fb, ff := IntSized(request.body), FilesFit(request.boundary, request.postFiles);
    ok := SendBody(socket, request.body);
    ghost var b := socket.Snapshot();
    if !ok {
      WroteLess(a, b, request.body, files, fb, ff);
      return;
    }
    ok := SendFiles(socket, request.boundary, request.postFiles);
    WroteBoth(a, b, socket.Snapshot(), request.body, files, fb, ff, ok);
  }

  method SendBody(socket: Socket, body: string) returns (ok: bool)
    requires |body| < 0x1_0000_0000
    modifies socket
    ensures Wrote(old(socket.Snapshot()), socket.Snapshot(), body, IntSized(body), ok)
  {
    if |body| == 0 {
      WroteNothing(socket.Snapshot());
      return true;
    }
    ok := socket.WriteAll(body);
  }

  /**
   calcBody and doMultipartPost together. On a socket that takes everything the body is delivered if and only if each
   single text is of int size; the announced length is right if and only if the whole body is.
   */
  method Post(request: HttpRequest, drawn: string, socket: Socket) returns (announced: string, ghost delivered: bool)
    requires |Lookup(request.headerFields, ContentLength)| <= 1
    requires Addressable(drawn, request.bodyFields, request.postFiles)
    modifies request`headerFields, request`boundary, request`body, socket
    ensures Lookup(request.headerFields, ContentLength) == [announced]
    ensures var text := PostText(drawn, request.bodyFields, request.postFiles);
            && announced == DecimalInt(Wrapped(|text|))
            && (announced == DecimalInt(|text|) <==> IntSized(text))
            && old(socket.sent) <= socket.sent <= old(socket.sent) + text
            && (delivered ==> socket.sent == old(socket.sent) + text)
            && (old(socket.Willing()) && |text| <= |old(socket.grants)| ==>
                  (delivered <==> TextsFit(drawn, request.bodyFields, request.postFiles)))
  {
    request.CalcBody(drawn);
    announced := DecimalInt(Wrapped(|PostText(drawn, request.bodyFields, request.postFiles)|));
    var complete;
    complete, delivered := DoMultipartPost(request, socket);
    Announced(|PostText(drawn, request.bodyFields, request.postFiles)|);
  }

  /** A new request posted to a socket that takes one byte at a time. */
  method PostSlowly(fields: seq<Field>, files: seq<File>, drawn: string)
    returns (request: HttpRequest, socket: Socket, announced: string)
    requires Addressable(drawn, fields, files) && TextsFit(drawn, fields, files)
    ensures fresh(request) && fresh(socket) && Lookup(request.headerFields, ContentLength) == [announced]
    ensures socket.sent == PostText(drawn, fields, files) && announced == DecimalInt(Wrapped(|socket.sent|))
  {
    request := new HttpRequest;
    request.headerFields, request.bodyFields, request.postFiles := [], fields, files;
    socket := new Socket;
    socket.sent, socket.grants := "", seq(|PostText(drawn, fields, files)|, _ => 1);
    ghost var delivered;
    announced, delivered := Post(request, drawn, socket);
    assert "" + PostText(drawn, fields, files) == PostText(drawn, fields, files);
  }

  /** Two files of 2^30 bytes each: delivered whole, and announced with a negative length. */
  method WronglyAnnounced() returns (request: HttpRequest, socket: Socket, announced: string)
    ensures fresh(request) && fresh(socket) && Lookup(request.headerFields, ContentLength) == [announced]
    ensures socket.sent == PostText("b", [], [BigFile, BigFile]) && |socket.sent| > 0x8000_0000
    ensures announced == DecimalInt(|socket.sent| - 0x1_0000_0000) && announced[0] == '-'
  {
    BigTexts();
    request, socket, announced := PostSlowly([], [BigFile, BigFile], "b");
    Negative(|socket.sent|);
  }

  lemma {:induction false} Negative(n: nat)
    requires 0x8000_0000 < n < 0x1_0000_0000
    ensures Wrapped(n) == n - 0x1_0000_0000 && DecimalInt(Wrapped(n))[0] == '-'
  {
  }

  const BigFile := File("f", "f", "t", seq(0x4000_0000, _ => 'x'))

  lemma {:induction false} BigTexts()
    ensures Addressable("b", [], [BigFile, BigFile]) && TextsFit("b", [], [BigFile, BigFile])
    ensures 0x8000_0000 < |PostText("b", [], [BigFile, BigFile])| <= 0x9000_0000
  {
    var f := BigFile;
    BigHeader(f);
    assert [f, f][..1] == [f] && [f][..0] == [];
    assert FilesText("b", [f]) == FilesText("b", []) + FileText("b", f);
    assert FilesText("b", [f, f]) == FilesText("b", [f]) + FileText("b", f);
    assert FilesFit("b", [f]) && FilesFit("b", [f, f]);
    assert |Closing("b")| == 7;
  }

  lemma {:induction false} BigHeader(f: File)
    requires f == BigFile
    ensures |SentHeader("b", f)| < 200 && |FileText("b", f)| == |SentHeader("b", f)| + 0x4000_0000 + 2
  {
    var a := "Content-Disposition: form-data; name=\"";
    assert |a| == 38;
  }

  /** The text of the wrapped length is the text of the length exactly when the length fits. */
  lemma {:induction false} Announced(n: nat)
    ensures DecimalInt(Wrapped(n)) == DecimalInt(n) <==> n < 0x8000_0000
  {
    var w := Wrapped(n);
    if w < 0 {
      assert DecimalInt(w)[0] == '-' && '0' <= DecimalInt(n)[0] by {
        assert DecimalInt(n)[0] in Decimal(n);
      }
    } else {
      ScanDecimal(w);
      ScanDecimal(n);
    }
  }
}
