/** The SIP messages of sip_call.c: the substring-search parser, the printers, and how far they
    undo each other. */
module SipText {
  import opened CText
  import opened Words

  /** The fields of a received message, as SIP_parser leaves them; a field that was found keeps
      the carriage return that ended it. */
  datatype SipMessage = SipMessage(code: int, command: string, via: string, from: string, to: string,
                                   callId: string, server: string, cseq: string, allow: string,
                                   supported: string, contact: string, auth: string, contentLength: int)

  const EMPTY_MESSAGE := SipMessage(0, "", "", "", "", "", "", "", "", "", "", "", 0)

  // ---- The parser ----

  /** What a search for a field yields: nothing, a text, or a search that runs off the message
      because the name is not followed by the characters that delimit its value. */
  datatype Scan = Missing | Found(text: string) | Unterminated {
    function Text(): string {
      if Found? then text else ""
    }
  }

  /** GetField: the text after the first colon behind the name, up to and including the next
      carriage return. */
  function Field(mess: string, name: string): Scan
    requires name != ""
  {
    var r1 := Find(mess, name);
    if r1 < 0 then Missing
    else FieldBehindName(mess[r1 + 1..])
  }

  function FieldBehindName(m1: string): Scan {
    var r2 := Find(m1, ":");
    if r2 < 0 then Unterminated
    else
      var m2 := m1[r2 + 1..];
      var r3 := Find(m2, "\r");
      if r3 < 0 then Unterminated else Found(m2[..r3 + 1])
  }

  /** GetParam: the text between the next two quotation marks behind the name. */
  function Param(mess: string, name: string): Scan
    requires name != ""
  {
    var r1 := Find(mess, name);
    if r1 < 0 then Missing
    else ParamBehindName(mess[r1 + 1..])
  }

  function ParamBehindName(m1: string): Scan {
    var r2 := Find(m1, "\"");
    if r2 < 0 then Unterminated
    else
      var m2 := m1[r2 + 1..];
      var r3 := Find(m2, "\"");
      if r3 < 0 then Unterminated else Found(m2[..r3])
  }

  const FIELD_NAMES: seq<string> := ["Via", "From", "To", "Call-ID", "Server", "CSeq", "Allow", "Supported",
                                     "Contact", "WWW-Authenticate", "Content-Lenght"]

  /** The parser stays inside the message: there is a space, and every field it finds ends. */
  predicate Parsable(mess: string) {
    Occurs(mess, "SIP") ==>
      && Occurs(mess, " ")
      && forall k :: 0 <= k < |FIELD_NAMES| ==> FIELD_NAMES[k] != "" && !Field(mess, FIELD_NAMES[k]).Unterminated?
  }

  const FIELD_SIZE := 255
  const COMMAND_SIZE := 20

  /** What the parser takes from the message fits its buffers, each with a terminating zero. */
  predicate Storable(mess: string) {
    Occurs(mess, "SIP") ==>
      && |Parse(mess).command| < COMMAND_SIZE
      && forall k :: 0 <= k < |FIELD_NAMES| ==>
           FIELD_NAMES[k] != "" && |Field(mess, FIELD_NAMES[k]).Text()| < FIELD_SIZE
  }

  /** SIP_parser. */
  function Parse(mess: string): SipMessage {
    if !Occurs(mess, "SIP") then EMPTY_MESSAGE
    else
      var n := Find(mess, " ") + 1;
      var code := Atoi(mess[n..Min(n + 3, |mess|)]);
      SipMessage(code,
                 if code == 0 && n > 0 then mess[..n - 1] else "",
                 Field(mess, "Via").Text(),
                 Field(mess, "From").Text(),
                 Field(mess, "To").Text(),
                 Field(mess, "Call-ID").Text(),
                 Field(mess, "Server").Text(),
                 Field(mess, "CSeq").Text(),
                 Field(mess, "Allow").Text(),
                 Field(mess, "Supported").Text(),
                 Field(mess, "Contact").Text(),
                 Field(mess, "WWW-Authenticate").Text(),
                 Atoi(Field(mess, "Content-Lenght").Text()))
  }

  /** In full: the command has room for 19 characters and each of the eleven fields for 254. */
  lemma StorableIs(mess: string)
    requires Occurs(mess, "SIP")
    ensures Storable(mess) <==>
            && |Parse(mess).command| <= 19
            && |Field(mess, "Via").Text()| <= 254 && |Field(mess, "From").Text()| <= 254
            && |Field(mess, "To").Text()| <= 254 && |Field(mess, "Call-ID").Text()| <= 254
            && |Field(mess, "Server").Text()| <= 254 && |Field(mess, "CSeq").Text()| <= 254
            && |Field(mess, "Allow").Text()| <= 254 && |Field(mess, "Supported").Text()| <= 254
            && |Field(mess, "Contact").Text()| <= 254 && |Field(mess, "WWW-Authenticate").Text()| <= 254
            && |Field(mess, "Content-Lenght").Text()| <= 254
  {
    hide Find, Field, Parse;
    NameList();
  }

  lemma NameList()
    ensures |FIELD_NAMES| == 11 && FIELD_NAMES[0] == "Via" && FIELD_NAMES[1] == "From" && FIELD_NAMES[2] == "To"
    ensures FIELD_NAMES[3] == "Call-ID" && FIELD_NAMES[4] == "Server" && FIELD_NAMES[5] == "CSeq"
    ensures FIELD_NAMES[6] == "Allow" && FIELD_NAMES[7] == "Supported" && FIELD_NAMES[8] == "Contact"
    ensures FIELD_NAMES[9] == "WWW-Authenticate" && FIELD_NAMES[10] == "Content-Lenght"
  {
  }

  // ---- Header lists and their text ----

  datatype Header = Header(name: string, value: string)

  /** A value without the carriage return that the parser left at its end. */
  function Body(value: string): string {
    if value != "" && value[|value| - 1] == '\r' then value[..|value| - 1] else value
  }

  /** Names have no delimiters, and values no carriage return but at the end. */
  predicate Clean(h: Header) {
    ':' !in h.name && '\r' !in h.name && '\r' !in Body(h.value)
  }

  predicate AllClean(hs: seq<Header>) {
    forall k :: 0 <= k < |hs| ==> Clean(hs[k])
  }

  predicate Plain(name: string) {
    name != "" && ':' !in name && '\r' !in name && '\n' !in name
  }

  function HeaderText(h: Header): string {
    h.name + ":" + h.value + "\r\n"
  }

  /** The headers and the empty line after them. */
  function HeadersText(hs: seq<Header>): string {
    if hs == [] then "\r\n" else HeaderText(hs[0]) + HeadersText(hs[1..])
  }

  /** What a search for `name` yields, told on the headers: the first header with the name in it,
      be it in its name or in its value, decides. A hit in a value delivers what follows the next
      colon, which may be that of the next header. */
  function Lookup(hs: seq<Header>, name: string): Scan
    requires name != ""
  {
    if hs == [] then Missing
    else
      var body := Body(hs[0].value);
      if Occurs(hs[0].name, name) then Found(body + "\r")
      else if Occurs(body, name) then
        var rest := body[Find(body, name) + 1..];
        if Occurs(rest, ":") then Found(rest[Find(rest, ":") + 1..] + "\r")
        else if |hs| > 1 then Found(Body(hs[1].value) + "\r")
        else Unterminated
      else Lookup(hs[1..], name)
  }

  // ---- The parser reads rendered headers as Lookup says ----

  /** The part of a header's text behind its body starts with a carriage return. */
  function Ending(value: string): (e: string)
    ensures e == "\r\n" || e == "\r\r\n"
    ensures value + "\r\n" == Body(value) + e
  {
    if value != "" && value[|value| - 1] == '\r' then "\r\r\n" else "\r\n"
  }

  lemma HeaderParts(h: Header, rest: string)
    ensures HeaderText(h) + rest == h.name + [':'] + (Body(h.value) + ['\r'] + (Ending(h.value)[1..] + rest))
  {
    var e := Ending(h.value);
    assert e == ['\r'] + e[1..];
    assert HeaderText(h) == h.name + [':'] + (Body(h.value) + e);
  }

  /** A search that finds nothing in front of `b` is a search in `b`. */
  lemma FieldBehind(a: string, b: string, name: string)
    requires name != ""
    requires Find(a + b, name) == if Occurs(b, name) then |a| + Find(b, name) else -1
    ensures Field(a + b, name) == Field(b, name)
  {
    hide Find, FieldBehindName, Field;
    if Occurs(b, name) {
      DropConcat(a, b, Find(b, name) + 1);
    }
    FieldIsRest(a + b, name);
    FieldIsRest(b, name);
  }

  lemma FieldIsRest(mess: string, name: string)
    requires name != ""
    ensures Field(mess, name) == if Occurs(mess, name) then FieldBehindName(mess[Find(mess, name) + 1..]) else Missing
  {
    hide Find, FieldBehindName;
  }

  lemma DropConcat(a: string, b: string, k: nat)
    requires k <= |b|
    ensures (a + b)[|a| + k..] == b[k..]
  {
  }

  lemma NothingInNothing(name: string)
    requires name != ""
    ensures !Occurs("", name)
  {
  }

  lemma SkipEnding(e: string, t: string, name: string)
    requires e == "\n" || e == "\r\n"
    requires Plain(name)
    ensures Find(e + t, name) == if Occurs(t, name) then |e| + Find(t, name) else -1
  {
    hide Find;
    NothingInNothing(name);
    FindPastSeparator("", '\n', t, name);
    assert "" + ['\n'] + t == "\n" + t;
    if e == "\r\n" {
      FindPastSeparator("", '\r', "\n" + t, name);
      assert "" + ['\r'] + ("\n" + t) == e + t;
    }
  }

  /** A header without the name does not influence the search. */
  lemma SkipHeader(h: Header, rest: string, name: string)
    requires Plain(name) && !Occurs(h.name, name) && !Occurs(Body(h.value), name)
    ensures Field(HeaderText(h) + rest, name) == Field(rest, name)
  {
    var body, e := Body(h.value), Ending(h.value);
    HeaderParts(h, rest);
    SkipEnding(e[1..], rest, name);
    FindPastSeparator(body, '\r', e[1..] + rest, name);
    FindPastSeparator(h.name, ':', body + ['\r'] + (e[1..] + rest), name);
    FieldBehind(HeaderText(h), rest, name);
  }

  /** Once the colon is known, the field runs to the next carriage return. */
  lemma FieldFrom(mess: string, name: string, before: string, body: string, t: string)
    requires Plain(name) && Occurs(mess, name)
    requires mess[Find(mess, name) + 1..] == before + [':'] + (body + ['\r'] + t)
    requires ':' !in before && '\r' !in body
    ensures Field(mess, name) == Found(body + "\r")
  {
    hide Find;
    var m1 := mess[Find(mess, name) + 1..];
    var m2 := body + ['\r'] + t;
    FindCharacter(before, ':', m2);
    assert m1[|before| + 1..] == m2;
    FindCharacter(body, '\r', t);
    assert m2[..|body| + 1] == body + "\r";
  }

  lemma HitInName(h: Header, rest: string, name: string)
    requires Plain(name) && Clean(h) && Occurs(h.name, name)
    ensures Field(HeaderText(h) + rest, name) == Found(Body(h.value) + "\r")
  {
    hide Find, Body, Ending, Field;
    var tail := Ending(h.value)[1..] + rest;
    var after := [':'] + (Body(h.value) + ['\r'] + tail);
    HeaderParts(h, rest);
    var all := HeaderText(h) + rest;
    assert all == h.name + after;
    FindInFront(h.name, after, name);
    var i := Find(h.name, name);
    assert all[i + 1..] == h.name[i + 1..] + after;
    FieldFrom(all, name, h.name[i + 1..], Body(h.value), tail);
  }

  /** Where a hit in the body is: behind the header's name and colon. */
  lemma BodyHit(h: Header, rest: string, name: string)
    requires Plain(name) && !Occurs(h.name, name) && Occurs(Body(h.value), name)
    ensures var body, i := Body(h.value), Find(Body(h.value), name);
            var all := HeaderText(h) + rest;
            && Occurs(all, name)
            && all[Find(all, name) + 1..] == body[i + 1..] + (Ending(h.value) + rest)
  {
    hide Find, Body, Ending;
    var body, after := Body(h.value), Ending(h.value) + rest;
    HeaderParts(h, rest);
    assert after == ['\r'] + (Ending(h.value)[1..] + rest);
    assert body + after == body + ['\r'] + (Ending(h.value)[1..] + rest);
    FindInFront(body, after, name);
    FindPastSeparator(h.name, ':', body + after, name);
    DropFront(h.name + [':'], body, after, Find(body, name) + 1);
    assert HeaderText(h) + rest == h.name + [':'] + (body + after);
  }

  lemma DropFront(a: string, b: string, c: string, i: nat)
    requires i <= |b|
    ensures (a + (b + c))[|a| + i..] == b[i..] + c
  {
  }

  lemma HitInBody(hs: seq<Header>, name: string)
    requires Plain(name) && AllClean(hs) && hs != []
    requires !Occurs(hs[0].name, name) && Occurs(Body(hs[0].value), name)
    ensures Field(HeadersText(hs), name) == Lookup(hs, name)
  {
    hide Find, Body, Ending, Field;
    var h, more := hs[0], HeadersText(hs[1..]);
    BodyHit(h, more, name);
    var all := HeaderText(h) + more;
    var rest := Body(h.value)[Find(Body(h.value), name) + 1..];
    if Occurs(rest, ":") {
      ColonInValue(all, name, rest, Ending(h.value), more);
    } else if |hs| > 1 {
      assert hs[1..][1..] == hs[2..];
      ColonInNextName(all, name, rest, Ending(h.value), hs[1], HeadersText(hs[2..]));
    } else {
      NoColonLeft(all, name, rest, Ending(h.value));
    }
  }

  lemma ColonInValue(all: string, name: string, rest: string, e: string, more: string)
    requires Plain(name) && Occurs(all, name) && all[Find(all, name) + 1..] == rest + (e + more)
    requires e == "\r\n" || e == "\r\r\n"
    requires Occurs(rest, ":") && '\r' !in rest
    ensures Field(all, name) == Found(rest[Find(rest, ":") + 1..] + "\r")
  {
    hide Find, Field, FieldBehindName;
    FirstCharacter(rest, ':');
    var j := Find(rest, ":");
    var body := rest[j + 1..];
    ReturnBehind(rest[..j], body, e, more);
    FieldFrom(all, name, rest[..j], body, e[1..] + more);
  }

  lemma ReturnBehind(before: string, body: string, e: string, more: string)
    requires e != "" && e[0] == '\r'
    ensures (before + [':'] + body) + (e + more) == before + [':'] + (body + ['\r'] + (e[1..] + more))
  {
    assert e == ['\r'] + e[1..];
  }

  lemma ColonInNextName(all: string, name: string, rest: string, e: string, next: Header, last: string)
    requires Plain(name) && Occurs(all, name) && Clean(next)
    requires all[Find(all, name) + 1..] == rest + (e + (HeaderText(next) + last))
    requires e == "\r\n" || e == "\r\r\n"
    requires !Occurs(rest, ":")
    ensures Field(all, name) == Found(Body(next.value) + "\r")
  {
    hide Find, Field, Body, Ending;
    NoCharacter(rest, ':');
    HeaderParts(next, last);
    var tail := Body(next.value) + ['\r'] + (Ending(next.value)[1..] + last);
    assert rest + (e + (next.name + [':'] + tail)) == rest + e + next.name + [':'] + tail;
    FieldFrom(all, name, rest + e + next.name, Body(next.value), Ending(next.value)[1..] + last);
  }

  lemma NoColonLeft(all: string, name: string, rest: string, e: string)
    requires Plain(name) && Occurs(all, name) && all[Find(all, name) + 1..] == rest + (e + "\r\n")
    requires e == "\r\n" || e == "\r\r\n"
    requires !Occurs(rest, ":")
    ensures Field(all, name) == Unterminated
  {
    hide Find;
    NoCharacter(rest, ':');
    MissingCharacter(rest + (e + "\r\n"), ":", ':');
  }

  /** For any headers and any plain name, the substring search finds exactly what Lookup says. */
  lemma {:induction false} FieldIsLookup(hs: seq<Header>, name: string)
    requires Plain(name) && AllClean(hs)
    ensures Field(HeadersText(hs), name) == Lookup(hs, name)
    decreases |hs|
  {
    if hs == [] {
      SkipEnding("\r\n", "", name);
      assert "\r\n" + "" == "\r\n";
    } else if Occurs(hs[0].name, name) {
      HitInName(hs[0], HeadersText(hs[1..]), name);
    } else if Occurs(Body(hs[0].value), name) {
      HitInBody(hs, name);
    } else {
      SkipHeader(hs[0], HeadersText(hs[1..]), name);
      FieldIsLookup(hs[1..], name);
    }
  }

  // ---- When a search finds the value it is meant to find ----

  /** What a hit in a value yields: the text behind the next colon, be it in the value or behind
      the name of the next header, whose value starts with `next`. */
  function Behind(body: string, name: string, next: string): string
    requires Occurs(body, name) && name != ""
  {
    var rest := body[Find(body, name) + 1..];
    if Occurs(rest, ":") then rest[Find(rest, ":") + 1..] else next
  }

  predicate FirstHolder(hs: seq<Header>, j: nat, name: string)
    requires j < |hs|
  {
    Occurs(Body(hs[j].value), name) && forall k :: 0 <= k < j ==> !Occurs(Body(hs[k].value), name)
  }

  /** No value in front of header `n` holds the name; or the first one that does happens to have
      the value of that header behind the next colon. */
  predicate Harmless(hs: seq<Header>, n: nat, name: string)
    requires n < |hs| && name != ""
  {
    forall j :: 0 <= j < n && FirstHolder(hs, j, name) ==>
      Behind(Body(hs[j].value), name, Body(hs[j + 1].value)) == Body(hs[n].value)
  }

  /** The first of the values in front of header `n` that holds the name, or `n`. */
  lemma HolderBefore(hs: seq<Header>, n: nat, name: string) returns (j: nat)
    requires n < |hs|
    ensures j <= n && forall k :: 0 <= k < j ==> !Occurs(Body(hs[k].value), name)
    ensures j < n ==> FirstHolder(hs, j, name)
  {
    hide Find, Body;
    j := 0;
    while j < n && !Occurs(Body(hs[j].value), name)
      invariant j <= n && forall k :: 0 <= k < j ==> !Occurs(Body(hs[k].value), name)
    {
      j := j + 1;
    }
  }

  /** With the name in the name of header `n` and in no name before it, the search yields a value,
      and it is that of header `n` exactly when nothing harmful is in front of it. */
  lemma LookupExactly(hs: seq<Header>, n: nat, name: string)
    requires n < |hs| && name != "" && Occurs(hs[n].name, name)
    requires forall k :: 0 <= k < n ==> !Occurs(hs[k].name, name)
    ensures Lookup(hs, name).Found? && EndsInReturn(Lookup(hs, name).text)
    ensures Lookup(hs, name) == Found(Body(hs[n].value) + "\r") <==> Harmless(hs, n, name)
  {
    hide Find, Body, Behind;
    var j := HolderBefore(hs, n, name);
    LookupSkips(hs, j, name);
    assert hs[j..][0] == hs[j];
    if j < n {
      assert hs[j..][1] == hs[j + 1];
      var text := Behind(Body(hs[j].value), name, Body(hs[j + 1].value));
      LookupInBody(hs[j..], name);
      SameBeforeReturn(text, Body(hs[n].value));
      assert Harmless(hs, n, name) <==> text == Body(hs[n].value);
    }
  }

  lemma LookupInBody(hs: seq<Header>, name: string)
    requires |hs| > 1 && name != "" && !Occurs(hs[0].name, name) && Occurs(Body(hs[0].value), name)
    ensures Lookup(hs, name) == Found(Behind(Body(hs[0].value), name, Body(hs[1].value)) + "\r")
  {
    hide Find, Body;
  }

  predicate EndsInReturn(text: string) {
    text != "" && text[|text| - 1] == '\r'
  }

  lemma SameBeforeReturn(x: string, y: string)
    ensures x + "\r" == y + "\r" <==> x == y
  {
    assert (x + "\r")[..|x|] == x && (y + "\r")[..|y|] == y;
  }

  /** The same for a field that must have been present to be found again. */
  lemma ValueExactly(hs: seq<Header>, n: nat, name: string)
    requires n < |hs| && name != "" && Occurs(hs[n].name, name)
    requires forall k :: 0 <= k < n ==> !Occurs(hs[k].name, name)
    ensures Lookup(hs, name).Found? && EndsInReturn(Lookup(hs, name).text)
    ensures Lookup(hs, name) == Found(hs[n].value) <==> Present(hs[n].value) && Harmless(hs, n, name)
  {
    hide Find, Lookup, Harmless;
    LookupExactly(hs, n, name);
  }

  // ---- What the parser leaves in a field ----

  /** A field that was found is its body and the carriage return behind it, the only one in it. */
  lemma FieldEndsInReturn(mess: string, name: string)
    requires name != ""
    ensures var x := Field(mess, name).Text();
            '\r' !in Body(x) && (if Field(mess, name).Found? then Present(x) else x == "")
  {
    hide Find, FieldBehindName;
    if Field(mess, name).Found? {
      BehindNameEndsInReturn(mess[Find(mess, name) + 1..]);
    }
  }

  lemma BehindNameEndsInReturn(m1: string)
    requires FieldBehindName(m1).Found?
    ensures var x := FieldBehindName(m1).text;
            '\r' !in Body(x) && Present(x)
  {
    hide Find;
    var m2 := m1[Find(m1, ":") + 1..];
    FirstCharacter(m2, '\r');
    var j := Find(m2, "\r");
    assert m2[..j + 1] == m2[..j] + "\r";
  }

  // ---- Create200 and what the parser makes of it ----

  const OK_LINE := "SIP/2.0 200 OK"
  const ANSWER_NAMES: seq<string> := ["Via", "From", "To", "Contact", "Call-ID", "CSeq"]

  function AnswerValues(m: SipMessage): (values: seq<string>)
    ensures |values| == 6
  {
    [m.via, m.from, m.to, m.contact, m.callId, m.cseq]
  }

  function AnswerHeaders(m: SipMessage): (hs: seq<Header>)
    ensures |hs| == 7
    ensures forall k :: 0 <= k < 6 ==> hs[k] == Header(ANSWER_NAMES[k], AnswerValues(m)[k])
    ensures hs[6] == Header("Content-Length", "   " + Dec(m.contentLength))
  {
    [Header("Via", m.via), Header("From", m.from), Header("To", m.to), Header("Contact", m.contact),
     Header("Call-ID", m.callId), Header("CSeq", m.cseq),
     Header("Content-Length", "   " + Dec(m.contentLength))]
  }

  /** The text of Create200. */
  function Ok200(m: SipMessage): string {
    OK_LINE + "\r\n" + HeadersText(AnswerHeaders(m))
  }

  /** The fields to be repeated have no carriage return but at the end. */
  predicate CleanAnswer(m: SipMessage) {
    forall k :: 0 <= k < 6 ==> '\r' !in Body(AnswerValues(m)[k])
  }

  /** A field that was found in a message is its body and the carriage return. */
  predicate Present(value: string) {
    value == Body(value) + "\r"
  }

  /** The six fields were present, and no value misleads the search for a later one. */
  predicate Recoverable(m: SipMessage) {
    forall i :: 0 <= i < 6 ==>
      ANSWER_NAMES[i] != "" && Present(AnswerValues(m)[i]) && Harmless(AnswerHeaders(m), i, ANSWER_NAMES[i])
  }

  /** Every message that was parsed is clean, and its fields were present or are empty. */
  lemma ParsedIsClean(mess: string)
    ensures var m := Parse(mess);
            CleanAnswer(m) && forall i :: 0 <= i < 6 ==> Present(AnswerValues(m)[i]) || AnswerValues(m)[i] == ""
  {
    hide Find, Field, Atoi, Body, Parse;
    if Occurs(mess, "SIP") {
      ParsedFields(mess);
      FieldEndsInReturn(mess, "Via");
      FieldEndsInReturn(mess, "From");
      FieldEndsInReturn(mess, "To");
      FieldEndsInReturn(mess, "Contact");
      FieldEndsInReturn(mess, "Call-ID");
      FieldEndsInReturn(mess, "CSeq");
    } else {
      NothingParsed(mess);
      EmptyBody();
    }
  }

  /** A text that does not hold SIP leaves every field empty, and the code 0. */
  lemma NothingParsed(mess: string)
    requires !Occurs(mess, "SIP")
    ensures Parse(mess) == SipMessage(0, "", "", "", "", "", "", "", "", "", "", "", 0)
  {
    hide Find;
  }

  lemma EmptyBody()
    ensures Body("") == ""
  {
  }

  /** The fields that an answer repeats. */
  predicate SameFields(p: SipMessage, m: SipMessage) {
    && p.via == m.via && p.from == m.from && p.to == m.to
    && p.contact == m.contact && p.callId == m.callId && p.cseq == m.cseq
  }

  lemma DecCharacters(n: int)
    ensures forall c :: c in Dec(n) ==> c == '-' || IsDigit(c)
  {
    DecNatDigits(if n < 0 then -n else n);
  }

  lemma BodyWithoutReturn(value: string)
    requires '\r' !in value
    ensures Body(value) == value
  {
  }

  lemma LengthIsClean(n: int)
    ensures Body("   " + Dec(n)) == "   " + Dec(n) && Clean(Header("Content-Length", "   " + Dec(n)))
  {
    hide DecNat;
    DecCharacters(n);
    var digits := Dec(n);
    hide Dec;
    forall c | c in "   " + digits ensures c != '\r' {
      assert c == ' ' || c in digits;
    }
    BodyWithoutReturn("   " + digits);
  }

  lemma AnswerIsClean(m: SipMessage)
    requires CleanAnswer(m)
    ensures AllClean(AnswerHeaders(m))
  {
    hide Body, Dec;
    var hs := AnswerHeaders(m);
    LengthIsClean(m.contentLength);
    forall k | 0 <= k < |hs|
      ensures Clean(hs[k])
    {
      if k < 6 {
        NameMarks(k);
      }
    }
  }

  /** A search in the answer is a search in its headers, as the status line holds no name. */
  lemma AnswerField(m: SipMessage, name: string, c: char)
    requires CleanAnswer(m) && Plain(name) && c in name && c !in OK_LINE
    ensures Field(Ok200(m), name) == Lookup(AnswerHeaders(m), name)
  {
    hide Find, Field, AnswerHeaders;
    var hs := AnswerHeaders(m);
    var t := HeadersText(hs);
    MissingCharacter(OK_LINE, name, c);
    SkipEnding("\n", t, name);
    FindPastSeparator(OK_LINE, '\r', "\n" + t, name);
    assert OK_LINE + ['\r'] + ("\n" + t) == Ok200(m) == OK_LINE + "\r\n" + t;
    FieldBehind(OK_LINE + "\r\n", t, name);
    AnswerIsClean(m);
    FieldIsLookup(hs, name);
  }

  /** Headers without the name are passed over. */
  lemma {:induction false} LookupSkips(hs: seq<Header>, k: nat, name: string)
    requires k <= |hs| && name != ""
    requires forall j :: 0 <= j < k ==> !Occurs(hs[j].name, name) && !Occurs(Body(hs[j].value), name)
    ensures Lookup(hs, name) == Lookup(hs[k..], name)
    decreases k
  {
    hide Find, Body;
    if k == 0 {
      assert hs[0..] == hs;
    } else {
      assert hs[1..][k - 1..] == hs[k..];
      LookupSkips(hs[1..], k - 1, name);
    }
  }

  /** A search ends unless it hits the body of the last header. */
  lemma {:induction false} LookupEnds(hs: seq<Header>, name: string)
    requires name != "" && (hs != [] ==> !Occurs(Body(hs[|hs| - 1].value), name))
    ensures !Lookup(hs, name).Unterminated?
    decreases |hs|
  {
    hide Find, Body;
    if |hs| > 1 {
      LookupEnds(hs[1..], name);
    }
  }

  /** A character of each name that no earlier name and not the status line has. */
  const MARKS := "VFTCDq"

  lemma NameMarks(i: nat)
    requires i < 6
    ensures MARKS[i] in ANSWER_NAMES[i] && MARKS[i] !in OK_LINE && Plain(ANSWER_NAMES[i])
    ensures forall j :: 0 <= j < i ==> MARKS[i] !in ANSWER_NAMES[j]
  {
    ShortMarks();
    MiddleMarks();
    LongMarks();
    assert ANSWER_NAMES[0] == "Via" && ANSWER_NAMES[1] == "From" && ANSWER_NAMES[2] == "To";
    assert ANSWER_NAMES[3] == "Contact" && ANSWER_NAMES[4] == "Call-ID" && ANSWER_NAMES[5] == "CSeq";
  }

  lemma HeadersHold(m: SipMessage, i: nat)
    requires i < 6
    ensures Occurs(AnswerHeaders(m)[i].name, ANSWER_NAMES[i])
    ensures forall k :: 0 <= k < i ==> !Occurs(AnswerHeaders(m)[k].name, ANSWER_NAMES[i])
  {
    hide Find;
    NameMarks(i);
    FindPrefix(ANSWER_NAMES[i], ANSWER_NAMES[i]);
    forall k | 0 <= k < i
      ensures !Occurs(ANSWER_NAMES[k], ANSWER_NAMES[i])
    {
      MissingCharacter(ANSWER_NAMES[k], ANSWER_NAMES[i], MARKS[i]);
    }
  }

  /** The parser recovers field `i` of the answer exactly when the field was present and no value in
      front of it misleads the search. */
  lemma AnswerFieldRecovered(m: SipMessage, i: nat)
    requires i < 6 && CleanAnswer(m)
    ensures Plain(ANSWER_NAMES[i]) && Field(Ok200(m), ANSWER_NAMES[i]).Found?
    ensures Field(Ok200(m), ANSWER_NAMES[i]) == Found(AnswerValues(m)[i])
       <==> Present(AnswerValues(m)[i]) && Harmless(AnswerHeaders(m), i, ANSWER_NAMES[i])
  {
    hide Find, Body, Field, Lookup, Harmless, Ok200;
    NameMarks(i);
    AnswerField(m, ANSWER_NAMES[i], MARKS[i]);
    HeadersHold(m, i);
    ValueExactly(AnswerHeaders(m), i, ANSWER_NAMES[i]);
  }

  /** The whole answer round trip: parsing the answer to a message always gives code 200, and it
      gives the fields of the message exactly when all of them are recoverable. */
  lemma AnswerRoundTrip(m: SipMessage)
    requires CleanAnswer(m)
    ensures Parsable(Ok200(m))
    ensures var p := Parse(Ok200(m));
            p.code == 200 && p.command == "" && (SameFields(p, m) <==> Recoverable(m))
  {
    hide Find, Body, Field, Ok200, Dec, Parse, Harmless;
    AnswerParsable(m);
    AnswerCode(m);
    AnswerStatus(m);
    ParsedFields(Ok200(m));
    AnswerFieldRecovered(m, 0);
    AnswerFieldRecovered(m, 1);
    AnswerFieldRecovered(m, 2);
    AnswerFieldRecovered(m, 3);
    AnswerFieldRecovered(m, 4);
    AnswerFieldRecovered(m, 5);
  }

  lemma AnswerStatus(m: SipMessage)
    ensures Parse(Ok200(m)).code == 200 && Parse(Ok200(m)).command == ""
  {
    hide Find, Ok200, Parse, Atoi;
    AnswerCode(m);
    ParsedStatus(Ok200(m));
  }

  /** The status line: the parser finds "SIP", the first space and the code behind it. */
  lemma AnswerCode(m: SipMessage)
    ensures var text := Ok200(m);
            && Find(text, "SIP") == 0 && Find(text, " ") == 7 && |text| >= 11
            && Atoi(text[8..11]) == 200
  {
    var text, tail := Ok200(m), "200 OK\r\n" + HeadersText(AnswerHeaders(m));
    hide HeadersText, AnswerHeaders;
    assert text == "SIP/2.0" + [' '] + tail;
    assert "SIP" <= text;
    FindCharacter("SIP/2.0", ' ', tail);
    assert text[8..11] == "200";
    AtoiOf200();
  }

  lemma AtoiOf200()
    ensures Atoi("200") == 200
  {
    assert DigitsValue("200", 0) == DigitsValue("00", 2) == DigitsValue("0", 20) == DigitsValue("", 200);
  }

  /** Every field search in an answer ends. */
  lemma AnswerParsable(m: SipMessage)
    requires CleanAnswer(m)
    ensures Parsable(Ok200(m))
  {
    hide Find, Field, Ok200, Lookup, Dec, AnswerHeaders;
    AnswerCode(m);
    var hs := AnswerHeaders(m);
    LengthIsClean(m.contentLength);
    forall k | 0 <= k < |FIELD_NAMES|
      ensures FIELD_NAMES[k] != "" && !Field(Ok200(m), FIELD_NAMES[k]).Unterminated?
    {
      FieldMarks(k);
      var name := FIELD_NAMES[k];
      AnswerField(m, name, FIELD_MARKS[k]);
      NotInNumber(m.contentLength, name, FIELD_MARKS[k]);
      LookupEnds(hs, name);
    }
  }

  /** A letter of each name that the parser searches for; none is in the status line. */
  const FIELD_MARKS := "VFTDrqlpCWC"

  predicate Marked(name: string, c: char) {
    c in name && c !in OK_LINE && 'A' <= c && Plain(name)
  }

  lemma FieldMarks(k: nat)
    requires k < 11
    ensures |FIELD_NAMES| == 11 && Marked(FIELD_NAMES[k], FIELD_MARKS[k])
  {
    hide Marked;
    ShortMarks();
    MiddleMarks();
    LongMarks();
  }

  lemma ShortMarks()
    ensures Marked("Via", 'V') && Marked("From", 'F') && Marked("To", 'T') && Marked("Call-ID", 'D')
  {
    assert "Via"[0] == 'V' && "From"[0] == 'F' && "To"[0] == 'T' && "Call-ID"[6] == 'D';
  }

  lemma MiddleMarks()
    ensures Marked("Server", 'r') && Marked("CSeq", 'q') && Marked("Allow", 'l') && Marked("Supported", 'p')
  {
    assert "Server"[2] == 'r' && "CSeq"[3] == 'q' && "Allow"[1] == 'l' && "Supported"[2] == 'p';
  }

  lemma LongMarks()
    ensures Marked("Contact", 'C') && Marked("WWW-Authenticate", 'W') && Marked("Content-Lenght", 'C')
  {
    MarkAt("Contact", 0);
    MarkAt("WWW-Authenticate", 0);
    MarkAt("Content-Lenght", 0);
  }

  lemma MarkAt(name: string, k: nat)
    requires k < |name| && name[k] in "CW"
    requires forall i :: 0 <= i < |name| ==> name[i] == '-' || 'A' <= name[i]
    ensures Marked(name, name[k])
  {
  }

  lemma NotInNumber(n: int, name: string, c: char)
    requires c in name && 'A' <= c
    ensures !Occurs("   " + Dec(n), name)
  {
    DecCharacters(n);
    MissingCharacter("   " + Dec(n), name, c);
  }

  // ---- Text behind a message ----

  /** A field that is found in a message is found as well when more text follows the message. */
  lemma FoundStays(mess: string, tail: string, name: string)
    requires name != "" && Field(mess, name).Found?
    ensures Field(mess + tail, name) == Field(mess, name)
  {
    hide Find, FieldBehindName;
    var i := Find(mess, name);
    FindInFront(mess, tail, name);
    DropEnd(mess, tail, i + 1);
    FoundBehindStays(mess[i + 1..], tail);
  }

  lemma FoundBehindStays(m1: string, tail: string)
    requires FieldBehindName(m1).Found?
    ensures FieldBehindName(m1 + tail) == FieldBehindName(m1)
  {
    hide Find;
    var i := Find(m1, ":");
    var m2 := m1[i + 1..];
    FindInFront(m1, tail, ":");
    DropEnd(m1, tail, i + 1);
    FindInFront(m2, tail, "\r");
    TakeFront(m2, tail, Find(m2, "\r") + 1);
  }

  lemma DropEnd(a: string, b: string, k: nat)
    requires k <= |a|
    ensures (a + b)[k..] == a[k..] + b
  {
  }

  lemma TakeFront(a: string, b: string, k: nat)
    requires k <= |a|
    ensures (a + b)[..k] == a[..k]
  {
  }

  /** Text behind a message changes neither its code nor its command nor any field that is found
      in the message. */
  lemma ParseStays(mess: string, tail: string)
    requires Occurs(mess, "SIP") && Occurs(mess, " ") && Find(mess, " ") + 4 <= |mess|
    ensures var p, q := Parse(mess), Parse(mess + tail);
            && q.code == p.code && q.command == p.command
            && (Field(mess, "Via").Found? ==> q.via == p.via)
            && (Field(mess, "From").Found? ==> q.from == p.from)
            && (Field(mess, "To").Found? ==> q.to == p.to)
            && (Field(mess, "Contact").Found? ==> q.contact == p.contact)
            && (Field(mess, "Call-ID").Found? ==> q.callId == p.callId)
            && (Field(mess, "CSeq").Found? ==> q.cseq == p.cseq)
  {
    hide Find, Field, Atoi, Parse;
    FindInFront(mess, tail, "SIP");
    ParsedFields(mess);
    ParsedFields(mess + tail);
    StatusStays(mess, tail);
    FieldStays(mess, tail, "Via");
    FieldStays(mess, tail, "From");
    FieldStays(mess, tail, "To");
    FieldStays(mess, tail, "Contact");
    FieldStays(mess, tail, "Call-ID");
    FieldStays(mess, tail, "CSeq");
  }

  lemma ParsedFields(mess: string)
    requires Occurs(mess, "SIP")
    ensures Parse(mess).via == Field(mess, "Via").Text() && Parse(mess).from == Field(mess, "From").Text()
    ensures Parse(mess).to == Field(mess, "To").Text() && Parse(mess).contact == Field(mess, "Contact").Text()
    ensures Parse(mess).callId == Field(mess, "Call-ID").Text() && Parse(mess).cseq == Field(mess, "CSeq").Text()
  {
    hide Find, Field, Atoi;
  }

  lemma ParsedStatus(mess: string)
    requires Occurs(mess, "SIP") && Occurs(mess, " ") && Find(mess, " ") + 4 <= |mess|
    ensures var i := Find(mess, " ");
            && Parse(mess).code == Atoi(mess[i + 1..i + 4])
            && Parse(mess).command == if Parse(mess).code == 0 then mess[..i] else ""
  {
    hide Find, Field, Atoi;
  }

  lemma StatusStays(mess: string, tail: string)
    requires Occurs(mess, "SIP") && Occurs(mess, " ") && Find(mess, " ") + 4 <= |mess|
    ensures Parse(mess + tail).code == Parse(mess).code && Parse(mess + tail).command == Parse(mess).command
  {
    hide Find, Field, Atoi, Parse;
    var i := Find(mess, " ");
    FindInFront(mess, tail, "SIP");
    FindInFront(mess, tail, " ");
    ParsedStatus(mess);
    ParsedStatus(mess + tail);
    TakeFront(mess, tail, i);
    SliceInFront(mess, tail, i + 1, i + 4);
  }

  lemma SliceInFront(a: string, b: string, i: nat, j: nat)
    requires i <= j <= |a|
    ensures (a + b)[i..j] == a[i..j]
  {
  }

  lemma FieldStays(mess: string, tail: string, name: string)
    requires name != ""
    ensures Field(mess, name).Found? ==> Field(mess + tail, name) == Field(mess, name)
  {
    hide Field;
    if Field(mess, name).Found? {
      FoundStays(mess, tail, name);
    }
  }

  /** A field that a text ending in a line feed lacks is taken from the text behind it. */
  lemma LackingField(front: string, tail: string, name: string)
    requires Plain(name) && !Occurs(front + "\n", name)
    ensures Field(front + "\n" + tail, name) == Field(tail, name)
  {
    hide Find;
    if Occurs(front, name) {
      FindInFront(front, "\n", name);
    }
    FindPastSeparator(front, '\n', tail, name);
    FieldBehind(front + "\n", tail, name);
  }

  /** Hence every field of a parsable message that ends in a line feed, with more text behind it, is
      the message's own if it has one, and else that of the text behind it. */
  lemma LeftoverFields(front: string, tail: string, k: nat)
    requires Occurs(front + "\n", "SIP") && Parsable(front + "\n") && k < |FIELD_NAMES|
    ensures var mess := front + "\n";
            && FIELD_NAMES[k] != ""
            && Field(mess + tail, FIELD_NAMES[k]) ==
               if Field(mess, FIELD_NAMES[k]).Found? then Field(mess, FIELD_NAMES[k]) else Field(tail, FIELD_NAMES[k])
  {
    hide Find, Field;
    FieldMarks(k);
    var mess, name := front + "\n", FIELD_NAMES[k];
    if Field(mess, name).Found? {
      FoundStays(mess, tail, name);
    } else {
      FieldIsRest(mess, name);
      LackingField(front, tail, name);
    }
  }

  lemma FirstHeader(hs: seq<Header>)
    requires hs != []
    ensures HeadersText(hs) == HeaderText(hs[0]) + HeadersText(hs[1..])
  {
  }

  lemma OccursBetween(front: string, p: string, back: string)
    ensures Occurs(front + p + back, p)
  {
    var text, n := front + p + back, |front|;
    assert text[n..n + |p|] == p;
    FindIsFirst(text, p, n);
  }

  lemma AtoiOfSip()
    ensures Atoi("sip") == 0
  {
  }

  lemma FindPrefix(s: string, p: string)
    requires p <= s
    ensures Find(s, p) == 0
  {
  }
}
