/** What the parser makes of a message: a first line, headers, and whatever follows them. */
module SipHeaders {
  import opened CText
  import opened SipText

  /** The header texts, one after the other. */
  function HeaderPieces(hs: seq<Header>): string {
    if hs == [] then "" else HeaderPieces(hs[..|hs| - 1]) + HeaderText(hs[|hs| - 1])
  }

  lemma {:induction false} PiecesJoin(h: Header, hs: seq<Header>)
    ensures HeaderPieces([h] + hs) == HeaderText(h) + HeaderPieces(hs)
    decreases |hs|
  {
    hide HeaderText, HeaderPieces;
    if hs == [] {
      NoPieces();
      OnePieceMore([], h);
      assert [h] + hs == [] + [h];
    } else {
      var front, last := hs[..|hs| - 1], hs[|hs| - 1];
      PiecesJoin(h, front);
      OnePieceMore(front, last);
      OnePieceMore([h] + front, last);
      assert hs == front + [last] && [h] + hs == [h] + front + [last];
    }
  }

  lemma NoPieces()
    ensures HeaderPieces([]) == ""
  {
  }

  lemma {:induction false} HeadersArePieces(hs: seq<Header>)
    ensures HeadersText(hs) == HeaderPieces(hs) + "\r\n"
    decreases |hs|
  {
    hide HeaderText;
    if hs != [] {
      HeadersArePieces(hs[1..]);
      PiecesJoin(hs[0], hs[1..]);
      assert hs == [hs[0]] + hs[1..];
    }
  }

  lemma OnePieceMore(hs: seq<Header>, h: Header)
    ensures HeaderPieces(hs + [h]) == HeaderPieces(hs) + HeaderText(h)
  {
    assert (hs + [h])[..|hs|] == hs;
  }

  // ---- Fields of a message ----

  /** A search that ends within text that closes with a line break needs nothing behind it. */
  lemma FieldWithin(front: string, name: string)
    requires Plain(name) && Field(front + "\r\n" + "\r\n", name).Found?
    ensures Field(front + "\r\n", name) == Field(front + "\r\n" + "\r\n", name)
  {
    hide Find, FieldBehindName, Field;
    var m := front + "\r\n";
    FieldIsRest(m, name);
    FieldIsRest(m + "\r\n", name);
    if Occurs(m, name) {
      var i := Find(m, name);
      FindInFront(m, "\r\n", name);
      DropEnd(m, "\r\n", i + 1);
      BehindWithin(m[i + 1..]);
      if FieldBehindName(m[i + 1..]).Found? {
        FoundStays(m, "\r\n", name);
      }
    } else {
      LacksInBreak(m, name);
    }
  }

  lemma LacksInBreak(m: string, name: string)
    requires Plain(name) && !Occurs(m, name)
    ensures !Occurs(m + "\r\n", name)
  {
    hide Find;
    FindPastSeparator(m, '\r', "\n", name);
    MissingCharacter("\n", name, name[0]);
    assert m + ['\r'] + "\n" == m + "\r\n";
  }

  lemma BehindWithin(m1: string)
    requires FieldBehindName(m1 + "\r\n").Found?
    requires m1 == "" || m1 == "\n" || (|m1| >= 2 && m1[|m1| - 2] == '\r' && m1[|m1| - 1] == '\n')
    ensures FieldBehindName(m1).Found?
  {
    hide Find;
    if Occurs(m1, ":") {
      var j := Find(m1, ":");
      var m2 := m1[j + 1..];
      assert m1[j..j + 1] == ":" && m1[j] == ':';
      assert m2[|m2| - 2] == '\r';
      CharacterOccurs(m2, '\r');
    } else {
      NoCharacter(m1, ':');
      MissingCharacter(m1 + "\r\n", ":", ':');
    }
  }

  /** A value found among headers is found whatever follows the headers. */
  lemma FieldOfPieces(hs: seq<Header>, rest: string, name: string)
    requires Plain(name) && AllClean(hs) && Lookup(hs, name).Found?
    ensures Field(HeaderPieces(hs) + rest, name) == Lookup(hs, name)
  {
    hide Find, Field, Lookup, HeaderPieces, HeadersText, Clean;
    HeadersArePieces(hs);
    FieldIsLookup(hs, name);
    var front := PiecesEnd(hs, name);
    FieldWithin(front, name);
    FoundStays(HeaderPieces(hs), rest, name);
  }

  lemma PiecesEnd(hs: seq<Header>, name: string) returns (front: string)
    requires name != "" && Lookup(hs, name).Found?
    ensures HeaderPieces(hs) == front + "\r\n"
  {
    var last := hs[|hs| - 1];
    front := HeaderPieces(hs[..|hs| - 1]) + (last.name + ":" + last.value);
  }

  /** A first line without the name is passed over. */
  lemma FieldBehindLine(line: string, t: string, name: string)
    requires Plain(name) && !Occurs(line, name)
    ensures Field(line + "\r\n" + t, name) == Field(t, name)
  {
    hide Find, Field;
    SkipEnding("\n", t, name);
    FindPastSeparator(line, '\r', "\n" + t, name);
    assert line + ['\r'] + ("\n" + t) == line + "\r\n" + t;
    FieldBehind(line + "\r\n", t, name);
  }

  lemma FieldOfMessage(line: string, hs: seq<Header>, name: string)
    requires AllClean(hs) && Plain(name)
    ensures !Occurs(line, name) ==> Field(line + "\r\n" + HeadersText(hs), name) == Lookup(hs, name)
  {
    hide Find, Field, HeadersText, Lookup, Clean;
    if !Occurs(line, name) {
      FieldBehindLine(line, HeadersText(hs), name);
      FieldIsLookup(hs, name);
    }
  }

  lemma ParsedText(mess: string)
    requires Occurs(mess, "SIP")
    ensures var p := Parse(mess);
            && p.via == Field(mess, "Via").Text() && p.from == Field(mess, "From").Text()
            && p.to == Field(mess, "To").Text() && p.callId == Field(mess, "Call-ID").Text()
            && p.server == Field(mess, "Server").Text() && p.cseq == Field(mess, "CSeq").Text()
            && p.allow == Field(mess, "Allow").Text() && p.supported == Field(mess, "Supported").Text()
            && p.contact == Field(mess, "Contact").Text() && p.auth == Field(mess, "WWW-Authenticate").Text()
            && p.contentLength == Atoi(Field(mess, "Content-Lenght").Text())
  {
    hide Find, Field, Atoi;
  }

  /** Every field of a text of clean headers is what the search for its own name yields on them. */
  lemma ParsedHeaders(hs: seq<Header>)
    requires AllClean(hs) && Occurs(HeadersText(hs), "SIP")
    ensures var p := Parse(HeadersText(hs));
            && p.via == Lookup(hs, "Via").Text() && p.from == Lookup(hs, "From").Text()
            && p.to == Lookup(hs, "To").Text() && p.callId == Lookup(hs, "Call-ID").Text()
            && p.server == Lookup(hs, "Server").Text() && p.cseq == Lookup(hs, "CSeq").Text()
            && p.allow == Lookup(hs, "Allow").Text() && p.supported == Lookup(hs, "Supported").Text()
            && p.contact == Lookup(hs, "Contact").Text() && p.auth == Lookup(hs, "WWW-Authenticate").Text()
            && p.contentLength == Atoi(Lookup(hs, "Content-Lenght").Text())
  {
    hide Find, Field, HeadersText, Lookup, Clean, Parse, Atoi;
    ParsedText(HeadersText(hs));
    NamesArePlain();
    FieldIsLookup(hs, "Via");
    FieldIsLookup(hs, "From");
    FieldIsLookup(hs, "To");
    FieldIsLookup(hs, "Call-ID");
    FieldIsLookup(hs, "Server");
    FieldIsLookup(hs, "CSeq");
    FieldIsLookup(hs, "Allow");
    FieldIsLookup(hs, "Supported");
    FieldIsLookup(hs, "Contact");
    FieldIsLookup(hs, "WWW-Authenticate");
    FieldIsLookup(hs, "Content-Lenght");
  }

  /** With a first line that is no header, as answers have one, every field is what the search for its
      own name yields on the headers, unless the first line holds that name. */
  lemma ParsedMessage(line: string, hs: seq<Header>)
    requires AllClean(hs) && Occurs(line + "\r\n" + HeadersText(hs), "SIP")
    ensures var p := Parse(line + "\r\n" + HeadersText(hs));
            && (!Occurs(line, "Via") ==> p.via == Lookup(hs, "Via").Text())
            && (!Occurs(line, "From") ==> p.from == Lookup(hs, "From").Text())
            && (!Occurs(line, "To") ==> p.to == Lookup(hs, "To").Text())
            && (!Occurs(line, "Call-ID") ==> p.callId == Lookup(hs, "Call-ID").Text())
            && (!Occurs(line, "Server") ==> p.server == Lookup(hs, "Server").Text())
            && (!Occurs(line, "CSeq") ==> p.cseq == Lookup(hs, "CSeq").Text())
            && (!Occurs(line, "Allow") ==> p.allow == Lookup(hs, "Allow").Text())
            && (!Occurs(line, "Supported") ==> p.supported == Lookup(hs, "Supported").Text())
            && (!Occurs(line, "Contact") ==> p.contact == Lookup(hs, "Contact").Text())
            && (!Occurs(line, "WWW-Authenticate") ==> p.auth == Lookup(hs, "WWW-Authenticate").Text())
            && (!Occurs(line, "Content-Lenght") ==> p.contentLength == Atoi(Lookup(hs, "Content-Lenght").Text()))
  {
    hide Find, Field, HeadersText, Lookup, Clean, Parse, Atoi;
    ParsedText(line + "\r\n" + HeadersText(hs));
    NamesArePlain();
    FieldOfMessage(line, hs, "Via");
    FieldOfMessage(line, hs, "From");
    FieldOfMessage(line, hs, "To");
    FieldOfMessage(line, hs, "Call-ID");
    FieldOfMessage(line, hs, "Server");
    FieldOfMessage(line, hs, "CSeq");
    FieldOfMessage(line, hs, "Allow");
    FieldOfMessage(line, hs, "Supported");
    FieldOfMessage(line, hs, "Contact");
    FieldOfMessage(line, hs, "WWW-Authenticate");
    FieldOfMessage(line, hs, "Content-Lenght");
  }

  lemma NamesArePlain()
    ensures Plain("Via") && Plain("From") && Plain("To") && Plain("Call-ID") && Plain("Server") && Plain("CSeq")
    ensures Plain("Allow") && Plain("Supported") && Plain("Contact") && Plain("WWW-Authenticate")
    ensures Plain("Content-Lenght")
  {
    ShortMarks();
    MiddleMarks();
    LongMarks();
  }

  // ---- The first line ----

  /** A status line with a number of three digits gives that number as the code, and no command,
      whatever follows. */
  lemma StatusIsRead(n: int, rest: string)
    requires 100 <= n <= 999
    ensures var p := Parse("SIP/2.0 " + Dec(n) + rest); p.code == n && p.command == ""
  {
    hide Find, Atoi, Parse, Dec;
    StatusDigits(n);
    var text := "SIP/2.0 " + Dec(n) + rest;
    assert text == "SIP/2.0" + [' '] + (Dec(n) + rest);
    FindCharacter("SIP/2.0", ' ', Dec(n) + rest);
    assert "SIP" <= text;
    FindPrefix(text, "SIP");
    ParsedStatus(text);
    assert text[8..11] == Dec(n);
    AtoiOfDec(n, "");
    assert Dec(n) + "" == Dec(n);
  }

  lemma StatusDigits(n: int)
    requires 100 <= n <= 999
    ensures |Dec(n)| == 3
  {
    assert DecNat(n) == DecNat(n / 10) + [Digit(n % 10)];
    assert DecNat(n / 10) == DecNat(n / 100) + [Digit(n / 10 % 10)];
  }

  /** A request has no code, and its command is the first word. */
  lemma CommandIsRead(word: string, rest: string)
    requires ' ' !in word && |rest| >= 3 && Atoi(rest[..3]) == 0
    requires Occurs(word + " " + rest, "SIP")
    ensures var p := Parse(word + " " + rest); p.code == 0 && p.command == word
  {
    hide Find, Atoi, Parse;
    var text := word + " " + rest;
    assert text == word + [' '] + rest;
    FindCharacter(word, ' ', rest);
    ParsedStatus(text);
    assert text[|word| + 1..|word| + 4] == rest[..3];
    assert text[..|word|] == word;
  }
}
