/** Candidate lines of a session description: printing, splitting, parsing. */
module SdpCandidates {
  import opened Options
  import opened Decimals

  datatype HostType = Host | Srflx | Prflx | Relay

  datatype Candidate = Candidate(
    foundation: string, componentId: uint, netProtocol: string, priority: uint,
    hostAddress: string, hostPort: int32, hostType: HostType, rAddress: string, rPort: int32)

  // Splitting.

  predicate Delim(c: char) {
    c == ' ' || c == ':'
  }

  predicate Plain(s: string) {
    forall c <- s :: !Delim(c)
  }

  /** find_first_of(" :"), or -1. */
  function FindDelim(s: string): (r: int)
    ensures -1 <= r < |s|
    ensures r == -1 ==> Plain(s)
    ensures r >= 0 ==> Delim(s[r]) && Plain(s[..r])
  {
    if s == [] then -1
    else if Delim(s[0]) then 0
    else
      var r := FindDelim(s[1..]);
      assert r >= 0 ==> s[..r + 1] == [s[0]] + s[1..][..r];
      if r == -1 then -1 else r + 1
  }

  /** The pieces between the delimiters, at most `max` of them cut off if `max` is not 0; an empty rest is dropped. */
  function Split(s: string, max: nat := 0): seq<string>
    decreases |s|
  {
    var pos := FindDelim(s);
    if pos == -1 then (if s == [] then [] else [s])
    else if max == 1 then [s[..pos]] + (if s[pos + 1..] == [] then [] else [s[pos + 1..]])
    else [s[..pos]] + Split(s[pos + 1..], if max == 0 then 0 else max - 1)
  }

  method SplitOneOf(str: string, maxSplits: nat) returns (result: seq<string>)
    ensures result == Split(str, maxSplits)
  {
    var remaining := str;
    result := [];
    var splits := 0;
    while (maxSplits == 0 || splits < maxSplits) && FindDelim(remaining) != -1
      invariant maxSplits != 0 ==> splits <= maxSplits
      invariant maxSplits == 0 || splits < maxSplits ==>
        Split(str, maxSplits) == result + Split(remaining, if maxSplits == 0 then 0 else maxSplits - splits)
      invariant maxSplits != 0 && splits == maxSplits ==>
        Split(str, maxSplits) == result + if remaining == [] then [] else [remaining]
      decreases |remaining|
    {
      var pos := FindDelim(remaining);
      SplitStep(remaining, pos, result, if maxSplits == 0 then 0 else maxSplits - splits);
      result := result + [remaining[..pos]];
      remaining := remaining[pos + 1..];
      splits := splits + 1;
    }
    if |remaining| > 0 {
      result := result + [remaining];
    }
  }

  lemma {:induction false} SplitStep(s: string, pos: nat, done: seq<string>, max: nat)
    requires FindDelim(s) == pos
    ensures var rest := s[pos + 1..];
            done + Split(s, max) == (done + [s[..pos]]) + if max
                == 1 then (if rest == [] then [] else [rest]) else Split(rest, if max == 0 then 0 else max - 1)
  {
    var rest := s[pos + 1..];
    var tail := if max == 1 then (if rest == [] then [] else [rest]) else Split(rest, if max == 0 then 0 else max - 1);
    assert Split(s, max) == [s[..pos]] + tail;
    Regroup(done, s[..pos], tail);
  }

  lemma {:induction false} Regroup(done: seq<string>, piece: string, tail: seq<string>)
    ensures done + ([piece] + tail) == (done + [piece]) + tail
  {
  }

  /** Without a limit, no piece holds a delimiter. */
  lemma {:induction false} PiecesPlain(s: string)
    ensures forall p <- Split(s) :: Plain(p)
    decreases |s|
  {
    var pos := FindDelim(s);
    if pos != -1 {
      PiecesPlain(s[pos + 1..]);
    }
  }

  /** Plain fields with a space between each two. */
  function Join(fields: seq<string>): string {
    if fields == [] then "" else if |fields| == 1 then fields[0] else fields[0] + " " + Join(fields[1..])
  }

  lemma {:induction false} FirstField(s: string, field: string, delim: char, rest: string)
    requires s == field + [delim] + rest && Plain(field) && Delim(delim)
    ensures Split(s) == [field] + Split(rest)
  {
    FindIs(field, delim, rest, s);
    assert s[..|field|] == field && s[|field| + 1..] == rest;
  }

  lemma {:induction false} FindIs(field: string, delim: char, rest: string, s: string)
    requires s == field + [delim] + rest && Plain(field) && Delim(delim)
    ensures FindDelim(s) == |field|
    decreases |field|
  {
    if field != [] {
      assert s[0] == field[0] && field[0] in field;
      assert s[1..] == field[1..] + [delim] + rest;
      FindIs(field[1..], delim, rest, s[1..]);
    }
  }

  /** Splitting undoes joining. */
  lemma {:induction false} SplitJoin(fields: seq<string>)
    requires forall f <- fields :: Plain(f)
    requires fields != [] ==> fields[|fields| - 1] != []
    ensures Split(Join(fields)) == fields
  {
    if |fields| == 1 {
      PlainWhole(fields[0]);
    } else if fields != [] {
      var rest := fields[1..];
      SplitJoin(rest);
      assert Join(fields) == fields[0] + [' '] + Join(rest);
      assert fields[0] in fields;
      FirstField(Join(fields), fields[0], ' ', Join(rest));
    }
  }

  lemma {:induction false} PlainWhole(s: string)
    requires Plain(s)
    ensures FindDelim(s) == -1
  {
    if s != [] {
      assert s[0] in s && forall c <- s[1..] :: c in s;
      PlainWhole(s[1..]);
    }
  }

  lemma {:induction false} NumberPlain(n: int)
    ensures Plain(DecimalInt(n))
  {
    DecimalInts(n);
  }

  // Candidates.

  const TypeNames: seq<string> := ["host", "srflx", "prflx", "relay"]

  function TypeName(t: HostType): string {
    match t
    case Host => "host"
    case Srflx => "srflx"
    case Prflx => "prflx"
    case Relay => "relay"
  }

  predicate Reflexive(t: HostType) {
    t == Srflx || t == Relay
  }

  /** The fields behind "a=candidate:" (section 15.1 of RFC 5245), and the generation. */
  function Fields(c: Candidate): seq<string> {
    [c.foundation, DecimalInt(c.componentId), c.netProtocol, DecimalInt(c.priority), c.hostAddress,
        DecimalInt(c.hostPort)]
    + TypeFields(c)
  }

  function TypeFields(c: Candidate): seq<string> {
    ["typ", TypeName(c.hostType)]
    + (if Reflexive(c.hostType) then ["raddr", c.rAddress, "rport", DecimalInt(c.rPort)] else [])
    + ["generation", "0"]
  }

  function Text(c: Candidate): string {
    "a=candidate:" + Join(Fields(c))
  }

  /** stringifyCandidate: every field but the last is followed by a space. */
  method StringifyCandidate(c: Candidate) returns (sdp: string)
    ensures sdp == Text(c)
  {
    ghost var whole, left := Text(c), Fields(c);
    sdp := "a=candidate:";
    sdp, left := Put(sdp, c.foundation, left, whole);
    sdp, left := Put(sdp, DecimalInt(c.componentId), left, whole);
    sdp, left := Put(sdp, c.netProtocol, left, whole);
    sdp, left := Put(sdp, DecimalInt(c.priority), left, whole);
    sdp, left := Put(sdp, c.hostAddress, left, whole);
    sdp, left := Put(sdp, DecimalInt(c.hostPort), left, whole);
    assert left == TypeFields(c);
    sdp := PutType(sdp, c, whole);
  }

  method PutType(before: string, c: Candidate, ghost whole: string) returns (sdp: string)
    requires before + Join(TypeFields(c)) == whole
    ensures sdp == whole
  {
    ghost var left := TypeFields(c);
    sdp, left := Put(before, "typ", left, whole);
    sdp, left := Put(sdp, TypeName(c.hostType), left, whole);
    if c.hostType == Srflx || c.hostType == Relay {
      sdp, left := Put(sdp, "raddr", left, whole);
      sdp, left := Put(sdp, c.rAddress, left, whole);
      sdp, left := Put(sdp, "rport", left, whole);
      sdp, left := Put(sdp, DecimalInt(c.rPort), left, whole);
    }
    assert left == ["generation", "0"];
    sdp, left := Put(sdp, "generation", left, whole);
    sdp := sdp + "0";
  }

  method Put(before: string, field: string, ghost left: seq<string>, ghost whole: string)
    returns (sdp: string, ghost left': seq<string>)
    requires |left| >= 2 && left[0] == field && before + Join(left) == whole
    ensures left' == left[1..] && sdp + Join(left') == whole
  {
    sdp, left' := before + field + " ", left[1..];
    assert before + (field + " " + Join(left')) == sdp + Join(left');
  }

  /** What processCandidate takes out of the pieces; candidates over other protocols are refused. */
  function Parsed(pieces: seq<string>): Option<Candidate>
    requires Enough(pieces)
  {
    if pieces[3] != "UDP" && pieces[3] != "udp" then None
    else if pieces[7] != "typ" then None
    else
      var t := TypeOf(pieces[8]);
      var c := Candidate(pieces[1], Strtoul(pieces[2]), pieces[3], Strtoul(pieces[4]), pieces[5],
          Signed(Strtoul(pieces[6])), t, "", 0);
      Some(if Reflexive(t) then c.(rAddress := pieces[10], rPort := Signed(Strtoul(pieces[12]))) else c)
  }

  function TypeOf(name: string): HostType {
    if name == "srflx" then Srflx else if name == "prflx" then Prflx else if name == "relay" then Relay else Host
  }

  /** The pieces that are looked at are there. */
  predicate Enough(pieces: seq<string>) {
    && |pieces| > 3
    && (pieces[3] == "UDP" || pieces[3] == "udp" ==> |pieces| > 7)
    && ((pieces[3] == "UDP" || pieces[3] == "udp") && pieces[7] == "typ" ==>
        |pieces| > 8 && (Reflexive(TypeOf(pieces[8])) ==> |pieces| > 12))
  }

  class SdpInfo {
    var candidates: seq<Candidate>

    /** processCandidate */
    method ProcessCandidate(pieces: seq<string>) returns (ok: bool)
      requires Enough(pieces)
      modifies this
      ensures ok == Parsed(pieces).Some?
      ensures candidates == old(candidates) + if ok then [Parsed(pieces).value] else []
    {
      var netProtocol := pieces[3];
      if netProtocol != "UDP" && netProtocol != "udp" {
        return false;
      }
      if pieces[7] != "typ" {
        return false;
      }
      var t := FindType(pieces[8]);
      var cand := Candidate(pieces[1], Strtoul(pieces[2]), netProtocol, Strtoul(pieces[4]), pieces[5],
          Signed(Strtoul(pieces[6])), t, "", 0);
      if t == Srflx || t == Relay {
        cand := cand.(rAddress := pieces[10], rPort := Signed(Strtoul(pieces[12])));
      }
      candidates := candidates + [cand];
      ok := true;
    }

    /** The candidate branch of processSdp. */
    method ProcessLine(line: string) returns (ok: bool)
      requires Enough(Split(line))
      modifies this
      ensures ok == Parsed(Split(line)).Some?
      ensures candidates == old(candidates) + if ok then [Parsed(Split(line)).value] else []
    {
      var pieces := SplitOneOf(line, 0);
      ok := ProcessCandidate(pieces);
    }
  }

  method FindType(name: string) returns (t: HostType)
    ensures t == TypeOf(name)
  {
    var kind, p := 1111, 0;
    while p < 4
      invariant 0 <= p <= 4
      invariant kind == 1111 || (0 <= kind < p && name == TypeNames[kind])
      invariant kind == 1111 ==> forall k :: 0 <= k < p ==> name != TypeNames[k]
    {
      if name == TypeNames[p] {
        kind := p;
      }
      p := p + 1;
    }
    t := match kind case 1 => Srflx case 2 => Prflx case 3 => Relay case _ => Host;
    assert kind == 1111 ==> name != TypeNames[1] && name != TypeNames[2] && name != TypeNames[3];
  }

  /** The candidate as far as its line carries it. */
  function Carried(c: Candidate): Candidate {
    if Reflexive(c.hostType) then c else c.(rAddress := "", rPort := 0)
  }

  /** No delimiter in the text fields that are printed, and a UDP candidate. */
  predicate Printable(c: Candidate) {
    && (c.netProtocol == "UDP" || c.netProtocol == "udp")
    && Plain(c.foundation) && Plain(c.hostAddress) && (Reflexive(c.hostType) ==> Plain(c.rAddress))
  }

  lemma {:induction false} TextSplits(c: Candidate)
    requires Printable(c)
    ensures Split(Text(c)) == ["a=candidate"] + Fields(c)
  {
    FieldsPlain(c);
    assert Fields(c)[|Fields(c)| - 1] == "0";
    LineSplits("a=candidate", Fields(c));
    assert "a=candidate" + [':'] == "a=candidate:";
  }

  lemma {:induction false} LineSplits(head: string, fields: seq<string>)
    requires Plain(head) && fields != [] && fields[|fields| - 1] != [] && forall f <- fields :: Plain(f)
    ensures Split(head + [':'] + Join(fields)) == [head] + fields
  {
    SplitJoin(fields);
    FirstField(head + [':'] + Join(fields), head, ':', Join(fields));
  }

  lemma {:induction false} FieldsPlain(c: Candidate)
    requires Printable(c)
    ensures forall f <- Fields(c) :: Plain(f)
  {
    NumberPlain(c.componentId);
    NumberPlain(c.priority);
    NumberPlain(c.hostPort);
    TypeFieldsPlain(c);
  }

  lemma {:induction false} TypeFieldsPlain(c: Candidate)
    requires Printable(c)
    ensures forall f <- TypeFields(c) :: Plain(f)
  {
    NumberPlain(c.rPort);
  }

  /** A printed candidate is read back, related address and port included. */
  lemma {:induction false} RoundTrip(c: Candidate)
    requires Printable(c)
    ensures Enough(Split(Text(c))) && Parsed(Split(Text(c))) == Some(Carried(c))
  {
    TextSplits(c);
    NumbersRead(c);
    FieldsRead(c, Split(Text(c)));
  }

  lemma {:induction false} NumbersRead(c: Candidate)
    ensures Strtoul(DecimalInt(c.componentId)) == c.componentId && Strtoul(DecimalInt(c.priority)) == c.priority
    ensures Signed(Strtoul(DecimalInt(c.hostPort))) == c.hostPort && Signed(Strtoul(DecimalInt(c.rPort))) == c.rPort
  {
    NumberRead(c.componentId);
    NumberRead(c.priority);
    NumberRead(c.hostPort);
    NumberRead(c.rPort);
  }

  lemma {:induction false} FieldsRead(c: Candidate, pieces: seq<string>)
    requires (c.netProtocol == "UDP" || c.netProtocol == "udp") && pieces == ["a=candidate"] + Fields(c)
    requires Strtoul(DecimalInt(c.componentId)) == c.componentId && Strtoul(DecimalInt(c.priority)) == c.priority
    requires Signed(Strtoul(DecimalInt(c.hostPort))) == c.hostPort && Signed(Strtoul(DecimalInt(c.rPort))) == c.rPort
    ensures Enough(pieces) && Parsed(pieces) == Some(Carried(c))
  {
    assert pieces[1] == c.foundation && pieces[2] == DecimalInt(c.componentId) && pieces[3] == c.netProtocol;
    assert pieces[4] == DecimalInt(c.priority) && pieces[5] == c.hostAddress && pieces[6] == DecimalInt(c.hostPort);
    assert pieces[7] == "typ" && pieces[8] == TypeName(c.hostType) && TypeOf(pieces[8]) == c.hostType;
    assert Reflexive(c.hostType) ==> pieces[10] == c.rAddress && pieces[12] == DecimalInt(c.rPort);
  }

  /** Exactly those candidates are: no piece ever holds a delimiter. */
  lemma {:induction false} RoundTripExactly(c: Candidate)
    ensures Printable(c) <==> Enough(Split(Text(c))) && Parsed(Split(Text(c))) == Some(Carried(c))
  {
    var pieces := Split(Text(c));
    PiecesPlain(Text(c));
    if Printable(c) {
      RoundTrip(c);
    }
    if Enough(pieces) && Parsed(pieces) == Some(Carried(c)) {
      ParsedPrintable(pieces, c);
    }
  }

  lemma {:induction false} ParsedPrintable(pieces: seq<string>, c: Candidate)
    requires Enough(pieces) && Parsed(pieces) == Some(Carried(c)) && forall p <- pieces :: Plain(p)
    ensures Printable(c)
  {
    assert pieces[1] in pieces && pieces[5] in pieces;
    assert Reflexive(c.hostType) ==> pieces[10] == c.rAddress && pieces[10] in pieces;
  }

  /** An IPv6 address is cut at its first colon. */
  lemma {:induction false} Ipv6IsCut(c: Candidate)
    requires c.hostAddress == "::1"
    ensures !(Enough(Split(Text(c))) && Parsed(Split(Text(c))) == Some(Carried(c)))
  {
    assert ':' in c.hostAddress;
    RoundTripExactly(c);
  }

  /** The line as section 15.1 of RFC 5245 has it: which field stands where. */
  lemma {:induction false} LineWritten(c: Candidate)
    ensures Text(c) == "a=candidate:" +
              (c.foundation + " " + (DecimalInt(c.componentId) + " " + (c.netProtocol + " " +
                (DecimalInt(c.priority) + " " + (c.hostAddress + " " + (DecimalInt(c.hostPort) + " " + Tail(c)))))))
  {
    var front := [c.foundation, DecimalInt(c.componentId), c.netProtocol, DecimalInt(c.priority), c.hostAddress,
                  DecimalInt(c.hostPort)];
    assert Fields(c) == front + TypeFields(c);
    SixThen(c.foundation, DecimalInt(c.componentId), c.netProtocol, DecimalInt(c.priority), c.hostAddress,
            DecimalInt(c.hostPort), TypeFields(c));
    TailWritten(c);
  }

  /** What stands behind the port. */
  function Tail(c: Candidate): string {
    match c.hostType
    case Host => "typ" + " " + ("host" + " " + ("generation" + " " + "0"))
    case Prflx => "typ" + " " + ("prflx" + " " + ("generation" + " " + "0"))
    case Srflx => "typ" + " " + ("srflx" + " " + Related(c))
    case Relay => "typ" + " " + ("relay" + " " + Related(c))
  }

  function Related(c: Candidate): string {
    "raddr" + " " + (c.rAddress + " " + ("rport" + " " + (DecimalInt(c.rPort) + " " + ("generation" + " " + "0"))))
  }

  lemma {:induction false} TailWritten(c: Candidate)
    ensures Join(TypeFields(c)) == Tail(c)
  {
    var end := ["generation"] + ["0"];
    OneThen("generation", ["0"]);
    if Reflexive(c.hostType) {
      RelatedWritten(c);
      assert TypeFields(c) == ["typ"] + ([TypeName(c.hostType)] + RelatedFields(c));
      OneThen(TypeName(c.hostType), RelatedFields(c));
      OneThen("typ", [TypeName(c.hostType)] + RelatedFields(c));
    } else {
      assert TypeFields(c) == ["typ"] + ([TypeName(c.hostType)] + end);
      OneThen(TypeName(c.hostType), end);
      OneThen("typ", [TypeName(c.hostType)] + end);
    }
  }

  function RelatedFields(c: Candidate): (r: seq<string>)
    ensures r != []
  {
    ["raddr"] + ([c.rAddress] + (["rport"] + ([DecimalInt(c.rPort)] + (["generation"] + ["0"]))))
  }

  lemma {:induction false} RelatedWritten(c: Candidate)
    ensures Join(RelatedFields(c)) == Related(c)
  {
    var end := ["generation"] + ["0"];
    OneThen("generation", ["0"]);
    OneThen(DecimalInt(c.rPort), end);
    OneThen("rport", [DecimalInt(c.rPort)] + end);
    OneThen(c.rAddress, ["rport"] + ([DecimalInt(c.rPort)] + end));
    OneThen("raddr", [c.rAddress] + (["rport"] + ([DecimalInt(c.rPort)] + end)));
  }

  lemma {:induction false} OneThen(a: string, rest: seq<string>)
    requires rest != []
    ensures Join([a] + rest) == a + " " + Join(rest)
  {
    assert ([a] + rest)[1..] == rest;
  }

  lemma {:induction false} SixThen(a: string, b: string, c: string, d: string, e: string, f: string, rest: seq<string>)
    requires rest != []
    ensures Join([a, b, c, d, e, f] + rest)
            == a + " " + (b + " " + (c + " " + (d + " " + (e + " " + (f + " " + Join(rest))))))
  {
    var r5 := [f] + rest;
    var r4 := [e] + r5;
    var r3 := [d] + r4;
    var r2 := [c] + r3;
    var r1 := [b] + r2;
    Nested(a, b, c, d, e, f, rest);
    OneThen(f, rest);
    OneThen(e, r5);
    OneThen(d, r4);
    OneThen(c, r3);
    OneThen(b, r2);
    OneThen(a, r1);
  }

  lemma {:induction false} Nested(a: string, b: string, c: string, d: string, e: string, f: string, rest: seq<string>)
    ensures [a, b, c, d, e, f] + rest == [a] + ([b] + ([c] + ([d] + ([e] + ([f] + rest)))))
  {
  }
}
