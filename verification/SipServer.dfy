/** What a server that parses as sip_call.c does reads in the requests of the program. */
module SipServer {
  import opened CText
  import opened SipText
  import opened SipHeaders
  import opened SipRequests
  import opened SipCall
  import HttpDigest

  // ---- The INVITE ----

  /** An INVITE up to its last numbered header, as the parser sees it: the request line has a colon
      too, and is like a header. */
  function InviteHeaders(a: Account, cseq: int, branch: int): (hs: seq<Header>)
    ensures |hs| == 12
  {
    [Header("INVITE sip", a.phoneNumber + "@" + a.serverIp + " SIP/2.0"),
     Header("Via", " SIP/2.0/UDP " + a.ownIp + ":" + a.ownSipPort + ";branch=z9hG4bK" + a.callId + Dec(branch)
                   + ";rport"),
     Header("From", " \"" + a.ownNumber + "\" <sip:" + a.ownNumber + "@" + a.serverIp + ">;tag=123456789123456789"),
     Header("Max-Forwards", " 70"),
     Header("To", " sip:" + a.phoneNumber + "@" + a.serverIp),
     Header("Contact", " <sip:" + a.ownNumber + "@" + a.ownIp + ">"),
     Header("Call-ID", " " + a.callId),
     Header("CSeq", " " + Dec(cseq) + " INVITE"),
     Header("Allow", " PRACK, INVITE, ACK" + ", BYE, CANCEL, UPDATE"),
     Header("Supported", " 100rel"),
     Header("Content-Type", " application/sdp"),
     Header("Content-Length", " " + Dec(|Sdp(a)|))]
  }

  lemma {:induction false} LinesArePieces(lines: seq<string>, hs: seq<Header>)
    requires |lines| == |hs| && forall k :: 0 <= k < |hs| ==> lines[k] == hs[k].name + ":" + hs[k].value
    ensures LinesText(lines) == HeaderPieces(hs)
  {
    if hs != [] {
      LinesArePieces(lines[..|lines| - 1], hs[..|hs| - 1]);
    }
  }

  lemma InviteIsPieces(a: Account, cseq: int, branch: int, auth: string)
    ensures Invite(a, cseq, branch, auth) == HeaderPieces(InviteHeaders(a, cseq, branch)) + (auth + "\r\n\r\n" + Sdp(a))
  {
    hide LinesText, HeaderPieces, Sdp, Dec;
    FirstLines(a.phoneNumber, a.serverIp, a.ownIp, a.ownSipPort, a.callId, Dec(branch));
    WhoCalls(a.ownNumber, a.phoneNumber, a.serverIp, a.ownIp);
    WhichCall(a.callId, Dec(cseq));
    WhatIsCarried(Dec(|Sdp(a)|));
    LinesArePieces(InviteLines(a, cseq, branch), InviteHeaders(a, cseq, branch));
  }

  lemma FirstLines(phone: string, server: string, ip: string, port: string, id: string, branch: string)
    ensures "INVITE sip:" + phone + "@" + server + " SIP/2.0"
         == "INVITE sip" + ":" + (phone + "@" + server + " SIP/2.0")
    ensures "Via: SIP/2.0/UDP " + ip + ":" + port + ";branch=z9hG4bK" + id + branch + ";rport"
         == "Via" + ":" + (" SIP/2.0/UDP " + ip + ":" + port + ";branch=z9hG4bK" + id + branch + ";rport")
  {
  }

  lemma WhoCalls(own: string, phone: string, server: string, ip: string)
    ensures "From: \"" + own + "\" <sip:" + own + "@" + server + ">;tag=123456789123456789"
         == "From" + ":" + (" \"" + own + "\" <sip:" + own + "@" + server + ">;tag=123456789123456789")
    ensures "Max-Forwards: 70" == "Max-Forwards" + ":" + " 70"
    ensures "To: sip:" + phone + "@" + server == "To" + ":" + (" sip:" + phone + "@" + server)
    ensures "Contact: <sip:" + own + "@" + ip + ">" == "Contact" + ":" + (" <sip:" + own + "@" + ip + ">")
  {
  }

  lemma WhichCall(id: string, cseq: string)
    ensures "Call-ID: " + id == "Call-ID" + ":" + (" " + id)
    ensures "CSeq: " + cseq + " INVITE" == "CSeq" + ":" + (" " + cseq + " INVITE")
    ensures "Allow: PRACK, INVITE, ACK" + ", BYE, CANCEL, UPDATE"
         == "Allow" + ":" + (" PRACK, INVITE, ACK" + ", BYE, CANCEL, UPDATE")
  {
  }

  lemma WhatIsCarried(length: string)
    ensures "Supported: 100rel" == "Supported" + ":" + " 100rel"
    ensures "Content-Type: application/sdp" == "Content-Type" + ":" + " application/sdp"
    ensures "Content-Length: " + length == "Content-Length" + ":" + (" " + length)
  {
  }

  // ---- How the parser reads it ----

  lemma HeaderIsClean(h: Header, line: string)
    requires line == h.name + ":" + h.value && '\r' !in line && ':' !in h.name
    ensures Clean(h) && Body(h.value) == h.value
  {
    forall c | c in h.name || c in h.value
      ensures c in line
    {
    }
    BodyWithoutReturn(h.value);
  }

  lemma InviteIsClean(a: Account, cseq: int, branch: int)
    requires CleanAccount(a)
    ensures var hs := InviteHeaders(a, cseq, branch);
            AllClean(hs) && forall k :: 0 <= k < 12 ==> Body(hs[k].value) == hs[k].value
  {
    hide Sdp, Dec, Clean, Body;
    var hs, lines := InviteHeaders(a, cseq, branch), InviteLines(a, cseq, branch);
    InviteLinesAreLines(a, cseq, branch);
    FirstLines(a.phoneNumber, a.serverIp, a.ownIp, a.ownSipPort, a.callId, Dec(branch));
    WhoCalls(a.ownNumber, a.phoneNumber, a.serverIp, a.ownIp);
    WhichCall(a.callId, Dec(cseq));
    WhatIsCarried(Dec(|Sdp(a)|));
    InviteNamesAre(a, cseq, branch);
    forall k | 0 <= k < 12
      ensures Clean(hs[k]) && Body(hs[k].value) == hs[k].value
    {
      NamesLackColon(k);
      assert IsLine(lines[k]);
      HeaderIsClean(hs[k], lines[k]);
    }
  }

  const INVITE_NAMES: seq<string> :=
    ["INVITE sip", "Via", "From", "Max-Forwards", "To", "Contact", "Call-ID", "CSeq", "Allow", "Supported",
     "Content-Type", "Content-Length"]

  lemma InviteNamesAre(a: Account, cseq: int, branch: int)
    ensures |INVITE_NAMES| == 12
    ensures forall k :: 0 <= k < 12 ==> InviteHeaders(a, cseq, branch)[k].name == INVITE_NAMES[k]
  {
    hide Sdp, Dec;
  }

  lemma NamesLackColon(k: nat)
    requires k < 12
    ensures ':' !in INVITE_NAMES[k]
  {
    if k < 6 {
      assert ':' !in "INVITE sip" && ':' !in "Via" && ':' !in "From" && ':' !in "Max-Forwards";
      assert ':' !in "To" && ':' !in "Contact";
    } else {
      assert ':' !in "Call-ID" && ':' !in "CSeq" && ':' !in "Allow" && ':' !in "Supported";
      assert ':' !in "Content-Type" && ':' !in "Content-Length";
    }
  }

  /** A letter of each name that no name before it has, the request line aside. */
  const INVITE_MARKS := "-VFxTCDqAuyg"

  lemma MarkIsThere(n: nat)
    requires 0 < n < 12
    ensures |INVITE_MARKS| == 12 && INVITE_MARKS[n] in INVITE_NAMES[n]
  {
    assert INVITE_NAMES[1][0] == 'V' && INVITE_NAMES[2][0] == 'F' && INVITE_NAMES[3][2] == 'x';
    assert INVITE_NAMES[4][0] == 'T' && INVITE_NAMES[5][0] == 'C' && INVITE_NAMES[6][6] == 'D';
    assert INVITE_NAMES[7][3] == 'q' && INVITE_NAMES[8][0] == 'A' && INVITE_NAMES[9][1] == 'u';
    assert INVITE_NAMES[10][9] == 'y' && INVITE_NAMES[11][11] == 'g';
  }

  lemma MarkIsNew(n: nat, k: nat)
    requires 0 < k < n < 12
    ensures |INVITE_MARKS| == 12 && INVITE_MARKS[n] !in INVITE_NAMES[k]
  {
  }

  lemma NamesAreSearchable(n: nat)
    requires 0 < n < 12
    ensures Plain(INVITE_NAMES[n])
  {
    NamesArePlain();
    assert Plain("Max-Forwards") && Plain("Content-Type") && Plain("Content-Length");
    hide Plain;
  }

  lemma NotInInvite(n: nat)
    requires 0 < n < 12
    ensures !Occurs("INVITE sip", INVITE_NAMES[n])
  {
    hide Find;
    MarkIsThere(n);
    if n == 1 || n == 4 {
      assert INVITE_NAMES[1][2] == 'a' && INVITE_NAMES[4][1] == 'o';
      MissingCharacter("INVITE sip", INVITE_NAMES[n], if n == 1 then 'a' else 'o');
    } else {
      MissingCharacter("INVITE sip", INVITE_NAMES[n], INVITE_MARKS[n]);
    }
  }

  /** Header n is the first one with its name in its name. */
  lemma InviteHeadersHold(a: Account, cseq: int, branch: int, n: nat)
    requires 0 < n < 12
    ensures var hs := InviteHeaders(a, cseq, branch);
            Occurs(hs[n].name, INVITE_NAMES[n]) && forall k :: 0 <= k < n ==> !Occurs(hs[k].name, INVITE_NAMES[n])
  {
    hide Find, InviteHeaders, Plain;
    var name := INVITE_NAMES[n];
    InviteNamesAre(a, cseq, branch);
    MarkIsThere(n);
    FindPrefix(name, name);
    forall k | 0 <= k < n
      ensures !Occurs(INVITE_NAMES[k], name)
    {
      if k == 0 {
        NotInInvite(n);
      } else {
        MarkIsNew(n, k);
        MissingCharacter(INVITE_NAMES[k], name, INVITE_MARKS[n]);
      }
    }
  }

  /** The parser reads header n of an INVITE as it was printed exactly when no value in front of it
      misleads the search, be it in the request line; credentials and body do not matter. */
  lemma InviteFieldRead(a: Account, cseq: int, branch: int, auth: string, n: nat)
    requires CleanAccount(a) && 0 < n < 12
    ensures INVITE_NAMES[n] != ""
    ensures var hs, scan := InviteHeaders(a, cseq, branch), Field(Invite(a, cseq, branch, auth), INVITE_NAMES[n]);
            scan.Found? && (scan.text == hs[n].value + "\r" <==> Harmless(hs, n, INVITE_NAMES[n]))
  {
    hide Find, Field, Lookup, Harmless, Clean, Body, InviteHeaders, Invite, HeaderPieces;
    var hs, name := InviteHeaders(a, cseq, branch), INVITE_NAMES[n];
    NamesAreSearchable(n);
    InviteIsClean(a, cseq, branch);
    InviteHeadersHold(a, cseq, branch, n);
    LookupExactly(hs, n, name);
    InviteIsPieces(a, cseq, branch, auth);
    FieldOfPieces(hs, auth + "\r\n\r\n" + Sdp(a), name);
  }

  /** Read back, an INVITE says who calls whom: the six fields are those of the account and of the
      call, each exactly when nothing in front of it misleads the search for it, and the request line
      asks for the address that To gives. */
  lemma InviteRoundTrip(a: Account, cseq: int, branch: int, auth: string)
    requires CleanAccount(a)
    ensures "INVITE sip:" + a.phoneNumber + "@" + a.serverIp + " SIP/2.0\r\n" <= Invite(a, cseq, branch, auth)
    ensures var p, hs := Parse(Invite(a, cseq, branch, auth)), InviteHeaders(a, cseq, branch);
            && p.code == 0 && p.command == "INVITE"
            && (Harmless(hs, 1, "Via") <==>
                p.via == " SIP/2.0/UDP " + a.ownIp + ":" + a.ownSipPort + ";branch=z9hG4bK" + a.callId + Dec(branch)
                         + ";rport\r")
            && (Harmless(hs, 2, "From") <==>
                p.from == " \"" + a.ownNumber + "\" <sip:" + a.ownNumber + "@" + a.serverIp
                          + ">;tag=123456789123456789\r")
            && (p.to == " sip:" + a.phoneNumber + "@" + a.serverIp + "\r" <==> Harmless(hs, 4, "To"))
            && (p.contact == " <sip:" + a.ownNumber + "@" + a.ownIp + ">\r" <==> Harmless(hs, 5, "Contact"))
            && (p.callId == " " + a.callId + "\r" <==> Harmless(hs, 6, "Call-ID"))
            && (p.cseq == " " + Dec(cseq) + " INVITE\r" <==> Harmless(hs, 7, "CSeq"))
  {
    InviteValues(a, cseq, branch);
    hide Find, Field, Harmless, Invite, InviteHeaders, Dec, Sdp, Parse, Atoi;
    InviteStatus(a, cseq, branch, auth);
    ParsedFields(Invite(a, cseq, branch, auth));
    InviteFieldRead(a, cseq, branch, auth, 1);
    InviteFieldRead(a, cseq, branch, auth, 2);
    InviteFieldRead(a, cseq, branch, auth, 4);
    InviteFieldRead(a, cseq, branch, auth, 5);
    InviteFieldRead(a, cseq, branch, auth, 6);
    InviteFieldRead(a, cseq, branch, auth, 7);
  }

  lemma InviteValues(a: Account, cseq: int, branch: int)
    ensures var hs := InviteHeaders(a, cseq, branch);
            && hs[1].value == " SIP/2.0/UDP " + a.ownIp + ":" + a.ownSipPort + ";branch=z9hG4bK" + a.callId
                              + Dec(branch) + ";rport"
            && hs[2].value == " \"" + a.ownNumber + "\" <sip:" + a.ownNumber + "@" + a.serverIp
                              + ">;tag=123456789123456789"
            && hs[4].value == " sip:" + a.phoneNumber + "@" + a.serverIp
            && hs[5].value == " <sip:" + a.ownNumber + "@" + a.ownIp + ">"
            && hs[6].value == " " + a.callId && hs[7].value == " " + Dec(cseq) + " INVITE"
  {
    hide Dec, Sdp;
  }

  /** The headers that say what the INVITE offers and how long its body is. */
  lemma InviteOffer(a: Account, cseq: int, branch: int, auth: string)
    requires CleanAccount(a)
    ensures var text, hs := Invite(a, cseq, branch, auth), InviteHeaders(a, cseq, branch);
            && (Field(text, "Max-Forwards") == Found(" 70\r") <==> Harmless(hs, 3, "Max-Forwards"))
            && (Parse(text).allow == " PRACK, INVITE, ACK, BYE, CANCEL, UPDATE\r" <==> Harmless(hs, 8, "Allow"))
            && (Parse(text).supported == " 100rel\r" <==> Harmless(hs, 9, "Supported"))
            && (Field(text, "Content-Type") == Found(" application/sdp\r") <==> Harmless(hs, 10, "Content-Type"))
            && (Field(text, "Content-Length") == Found(" " + Dec(|Sdp(a)|) + "\r")
                <==> Harmless(hs, 11, "Content-Length"))
  {
    hide Find, Field, Harmless, Invite, Dec, Sdp, Parse, Atoi;
    InviteStatus(a, cseq, branch, auth);
    ParsedText(Invite(a, cseq, branch, auth));
    InviteFieldRead(a, cseq, branch, auth, 3);
    InviteFieldRead(a, cseq, branch, auth, 8);
    InviteFieldRead(a, cseq, branch, auth, 9);
    InviteFieldRead(a, cseq, branch, auth, 10);
    InviteFieldRead(a, cseq, branch, auth, 11);
    AllowedMethods();
  }

  lemma AllowedMethods()
    ensures " PRACK, INVITE, ACK, BYE, CANCEL, UPDATE" == " PRACK, INVITE, ACK" + ", BYE, CANCEL, UPDATE"
  {
    assert forall k :: 0 <= k < 19 ==>
        " PRACK, INVITE, ACK, BYE, CANCEL, UPDATE"[k] == (" PRACK, INVITE, ACK" + ", BYE, CANCEL, UPDATE")[k];
  }

  lemma InviteStatus(a: Account, cseq: int, branch: int, auth: string)
    ensures var text := Invite(a, cseq, branch, auth);
            && "INVITE sip:" + a.phoneNumber + "@" + a.serverIp + " SIP/2.0\r\n" <= text
            && Occurs(text, "SIP") && Parse(text).code == 0 && Parse(text).command == "INVITE"
  {
    hide Find, Parse, Atoi, Invite;
    var rest := InviteFront(a, cseq, branch, auth);
    var more := RequestParts(a.phoneNumber + "@" + a.serverIp, rest);
    AtoiOfSip();
    CommandIsRead("INVITE", more);
    assert "INVITE sip:" + a.phoneNumber + "@" + a.serverIp == "INVITE sip:" + (a.phoneNumber + "@" + a.serverIp);
  }

  lemma RequestParts(uri: string, rest: string) returns (more: string)
    ensures var text := "INVITE sip:" + uri + " SIP/2.0\r\n" + rest;
            Occurs(text, "SIP") && text == "INVITE" + " " + more && |more| >= 3 && more[..3] == "sip"
  {
    hide Find;
    more := "sip:" + uri + " SIP/2.0\r\n" + rest;
    assert "INVITE sip:" == "INVITE" + " " + "sip:";
    VersionOccurs("INVITE sip:" + uri, rest);
  }

  lemma VersionOccurs(front: string, rest: string)
    ensures Occurs(front + " SIP/2.0\r\n" + rest, "SIP")
  {
    hide Find;
    OccursBetween(front + " ", "SIP", "/2.0\r\n" + rest);
    assert front + " SIP/2.0\r\n" + rest == front + " " + "SIP" + ("/2.0\r\n" + rest);
  }

  lemma InviteFront(a: Account, cseq: int, branch: int, auth: string) returns (rest: string)
    ensures Invite(a, cseq, branch, auth) == "INVITE sip:" + a.phoneNumber + "@" + a.serverIp + " SIP/2.0\r\n" + rest
  {
    hide HeaderPieces, Sdp, Dec, Invite;
    var hs := InviteHeaders(a, cseq, branch);
    InviteIsPieces(a, cseq, branch, auth);
    PiecesJoin(hs[0], hs[1..]);
    assert hs == [hs[0]] + hs[1..];
    rest := HeaderPieces(hs[1..]) + (auth + "\r\n\r\n" + Sdp(a));
    assert HeaderText(hs[0]) == "INVITE sip:" + a.phoneNumber + "@" + a.serverIp + " SIP/2.0\r\n";
  }

  /** None of the capital letters that begin the six names. */
  predicate Unmistakable(text: string) {
    'V' !in text && 'F' !in text && 'T' !in text && 'C' !in text
  }

  predicate UnmistakableAccount(a: Account) {
    && Unmistakable(a.ownNumber) && Unmistakable(a.ownIp) && Unmistakable(a.ownSipPort)
    && Unmistakable(a.serverIp) && Unmistakable(a.phoneNumber) && Unmistakable(a.callId)
  }

  lemma RequestLacks(phone: string, server: string, c: char)
    requires c in "VFTC" && c !in phone && c !in server
    ensures c !in phone + "@" + server + " SIP/2.0" && c !in " sip:" + phone + "@" + server
  {
  }

  lemma ViaLacks(ip: string, port: string, id: string, branch: string, c: char)
    requires c in "VFTC" && c !in ip && c !in port && c !in id && c !in branch
    ensures c !in " SIP/2.0/UDP " + ip + ":" + port + ";branch=z9hG4bK" + id + branch + ";rport"
  {
  }

  lemma FromLacks(own: string, server: string, c: char)
    requires c in "VFTC" && c !in own && c !in server
    ensures c !in " \"" + own + "\" <sip:" + own + "@" + server + ">;tag=123456789123456789"
  {
  }

  lemma ContactLacks(own: string, ip: string, id: string, c: char)
    requires c in "VFTC" && c !in own && c !in ip && c !in id
    ensures c !in " <sip:" + own + "@" + ip + ">" && c !in " " + id && c !in " 70"
  {
  }

  lemma ValueLacks(a: Account, cseq: int, branch: int, k: nat, c: char)
    requires UnmistakableAccount(a) && k < 7 && c in "VFTC"
    ensures c !in InviteHeaders(a, cseq, branch)[k].value
  {
    hide Dec, Sdp;
    DecCharacters(branch);
    RequestLacks(a.phoneNumber, a.serverIp, c);
    ViaLacks(a.ownIp, a.ownSipPort, a.callId, Dec(branch), c);
    FromLacks(a.ownNumber, a.serverIp, c);
    ContactLacks(a.ownNumber, a.ownIp, a.callId, c);
  }

  lemma NothingMisleads(a: Account, cseq: int, branch: int, i: nat)
    requires UnmistakableAccount(a) && CleanAccount(a) && i < 6
    ensures ANSWER_NAMES[i] != "" && Harmless(InviteHeaders(a, cseq, branch), AckIndex(i), ANSWER_NAMES[i])
  {
    hide Find, Body, InviteHeaders, UnmistakableAccount;
    var hs, name := InviteHeaders(a, cseq, branch), ANSWER_NAMES[i];
    InviteIsClean(a, cseq, branch);
    FirstLetter(i);
    forall k | 0 <= k < AckIndex(i)
      ensures !Occurs(Body(hs[k].value), name)
    {
      ValueLacks(a, cseq, branch, k, name[0]);
      MissingCharacter(hs[k].value, name, name[0]);
    }
  }

  lemma FirstLetter(i: nat)
    requires i < 6
    ensures ANSWER_NAMES[i] != "" && ANSWER_NAMES[i][0] in "VFTC"
  {
    assert ANSWER_NAMES[0][0] == 'V' && ANSWER_NAMES[1][0] == 'F' && ANSWER_NAMES[2][0] == 'T';
    assert ANSWER_NAMES[3][0] == 'C' && ANSWER_NAMES[4][0] == 'C' && ANSWER_NAMES[5][0] == 'C';
  }

  /** So, with numbers and addresses as they are in practice, the server reads all of it. */
  lemma InviteIsUnderstood(a: Account, cseq: int, branch: int, auth: string)
    requires UnmistakableAccount(a) && CleanAccount(a)
    ensures var p := Parse(Invite(a, cseq, branch, auth));
            && p.code == 0 && p.command == "INVITE"
            && p.via == " SIP/2.0/UDP " + a.ownIp + ":" + a.ownSipPort + ";branch=z9hG4bK" + a.callId + Dec(branch)
                        + ";rport\r"
            && p.from == " \"" + a.ownNumber + "\" <sip:" + a.ownNumber + "@" + a.serverIp
                         + ">;tag=123456789123456789\r"
            && p.to == " sip:" + a.phoneNumber + "@" + a.serverIp + "\r"
            && p.contact == " <sip:" + a.ownNumber + "@" + a.ownIp + ">\r"
            && p.callId == " " + a.callId + "\r" && p.cseq == " " + Dec(cseq) + " INVITE\r"
  {
    hide Harmless, Invite, InviteHeaders, Dec, Parse, UnmistakableAccount;
    InviteRoundTrip(a, cseq, branch, auth);
    NothingMisleads(a, cseq, branch, 0);
    NothingMisleads(a, cseq, branch, 1);
    NothingMisleads(a, cseq, branch, 2);
    NothingMisleads(a, cseq, branch, 3);
    NothingMisleads(a, cseq, branch, 4);
    NothingMisleads(a, cseq, branch, 5);
  }

  // ---- The session description ----

  lemma {:induction false} FirstLine(line: string, lines: seq<string>)
    ensures LinesText([line] + lines) == line + "\r\n" + LinesText(lines)
    decreases |lines|
  {
    if lines == [] {
      assert [line] + lines == [line] && [line][..0] == [];
    } else {
      FirstLine(line, lines[..|lines| - 1]);
      assert ([line] + lines)[..|lines|] == [line] + lines[..|lines| - 1];
    }
  }

  /** A text of lines is split into them, and what is behind the last line break is empty. */
  lemma {:induction false} SplitText(lines: seq<string>)
    requires forall k :: 0 <= k < |lines| ==> '\r' !in lines[k]
    ensures SplitLines(LinesText(lines)) == lines + [""]
    decreases |lines|
  {
    hide Find;
    if lines == [] {
      MissingCharacter("", "\r\n", '\r');
    } else {
      var text, rest := LinesText(lines), LinesText(lines[1..]);
      FirstLine(lines[0], lines[1..]);
      assert lines == [lines[0]] + lines[1..];
      FindLineEnd(lines[0], rest);
      assert text[..|lines[0]|] == lines[0] && text[|lines[0]| + 2..] == rest;
      SplitText(lines[1..]);
    }
  }

  /** The body of an INVITE, line by line: voice is to be sent to the address and the RTP port of the
      account, as PCMU with payload type 0. */
  lemma SdpIsRead(a: Account)
    requires CleanAccount(a) && '\r' !in a.ownRtpPort
    ensures SplitLines(Sdp(a)) ==
            ["v=0", "o=LONIIS_test 1234567890 1234567890 IN IP4 " + a.ownIp, "s=LONIIS", "c=IN IP4 " + a.ownIp, "t=0 0",
             "m=audio " + a.ownRtpPort + " RTP/AVP 0 101", "a=rtpmap:0 PCMU/8000", "a=sendrecv",
             "a=rtpmap:101 telephone-event/8000", "a=fmtp:101 0-15", "", ""]
  {
    hide SplitLines, LinesText;
    SdpLacksReturn(a);
    SplitText(SdpLines(a));
  }

  lemma SdpLacksReturn(a: Account)
    requires '\r' !in a.ownIp && '\r' !in a.ownRtpPort
    ensures forall k :: 0 <= k < |SdpLines(a)| ==> '\r' !in SdpLines(a)[k]
  {
    WhereLacksReturn(a.ownIp, a.ownRtpPort);
    WhatLacksReturn();
  }

  lemma WhereLacksReturn(ip: string, port: string)
    requires '\r' !in ip && '\r' !in port
    ensures '\r' !in "o=LONIIS_test 1234567890 1234567890 IN IP4 " + ip && '\r' !in "c=IN IP4 " + ip
    ensures '\r' !in "m=audio " + port + " RTP/AVP 0 101"
  {
    assert '\r' !in "o=LONIIS_test 1234567890 1234567890 IN IP4 ";
  }

  lemma WhatLacksReturn()
    ensures '\r' !in "v=0" && '\r' !in "s=LONIIS" && '\r' !in "t=0 0" && '\r' !in "a=rtpmap:0 PCMU/8000"
    ensures '\r' !in "a=sendrecv" && '\r' !in "a=rtpmap:101 telephone-event/8000" && '\r' !in "a=fmtp:101 0-15"
  {
  }

  // ---- The credentials ----

  /** A value, and the separator between the quotation marks behind it and in front of the next. */
  lemma QuotedPair(value: string, separator: string, marked: string, rest: seq<string>)
    requires rest != [] && marked == "\"" + separator + "\""
    ensures QuoteJoin([value, separator] + rest) == value + marked + QuoteJoin(rest)
  {
    var more := [separator] + rest;
    assert ([value, separator] + rest)[1..] == more && more[1..] == rest;
    assert QuoteJoin(more) == separator + ['"'] + QuoteJoin(rest);
    assert value + ['"'] + (separator + ['"'] + QuoteJoin(rest)) == value + ("\"" + separator + "\"") + QuoteJoin(rest);
  }

  lemma LastPair(value: string)
    ensures QuoteJoin([value, ",algorithm=MD5"]) == value + "\",algorithm=MD5"
  {
    assert [value, ",algorithm=MD5"][1..] == [",algorithm=MD5"];
    assert "\",algorithm=MD5" == ['"'] + ",algorithm=MD5";
  }

  lemma Separators()
    ensures "\",realm=\"" == "\"" + ",realm=" + "\"" && "\",nonce=\"" == "\"" + ",nonce=" + "\""
    ensures "\",uri=\"" == "\"" + ",uri=" + "\"" && "\",response=\"" == "\"" + ",response=" + "\""
  {
  }

  lemma AuthIsPrinted(user: string, realm: string, nonce: string, uri: string, response: string)
    ensures AuthText(user, realm, nonce, uri, response)
         == "Authorization: Digest username=\"" + (user + "\",realm=\"" + (realm + "\",nonce=\"" + (nonce + "\",uri=\""
            + (uri + "\",response=\"" + (response + "\",algorithm=MD5")))))
  {
    hide QuoteJoin;
    Separators();
    var r4, r3 := [response, ",algorithm=MD5"], [uri, ",response=", response, ",algorithm=MD5"];
    var r2 := [nonce, ",uri="] + r3;
    var r1 := [realm, ",nonce="] + r2;
    LastPair(response);
    QuotedPair(uri, ",response=", "\",response=\"", r4);
    assert r3 == [uri, ",response="] + r4;
    QuotedPair(nonce, ",uri=", "\",uri=\"", r3);
    QuotedPair(realm, ",nonce=", "\",nonce=\"", r2);
    QuotedPair(user, ",realm=", "\",realm=\"", r1);
    FirstQuote([user, ",realm="] + r1);
    assert AuthPieces(user, realm, nonce, uri, response)
        == ["Authorization: Digest username="] + ([user, ",realm="] + r1);
  }

  lemma FirstQuote(rest: seq<string>)
    requires rest != []
    ensures QuoteJoin(["Authorization: Digest username="] + rest)
         == "Authorization: Digest username=\"" + QuoteJoin(rest)
  {
    assert (["Authorization: Digest username="] + rest)[1..] == rest;
    assert "Authorization: Digest username=\"" == "Authorization: Digest username=" + ['"'];
  }

  /** The credentials in full: the response is the hash of the three colon-joined parts of RFC 2617, over
      the user name, the realm and the password, and over the method and the address called. */
  lemma CredentialsAre(a: Account, realm: string, nonce: string)
    ensures Credentials(a, realm, nonce)
         == "Authorization: Digest username=\"" + (a.ownNumber + "\",realm=\"" + (realm + "\",nonce=\"" + (nonce
            + "\",uri=\"" + ("sip:" + a.phoneNumber + "@" + a.serverIp + "\",response=\""
            + (Chars(HttpDigest.H(HttpDigest.H(Bytes(a.ownNumber + ":" + realm + ":" + a.ownPass))
                                  + Bytes(":" + nonce + ":")
                                  + HttpDigest.H(Bytes("INVITE:sip:" + a.phoneNumber + "@" + a.serverIp))))
            + "\",algorithm=MD5")))))
  {
    hide HttpDigest.H, AuthText, DigestedText;
    DigestedTextIs(a, realm, nonce);
    AuthIsPrinted(a.ownNumber, realm, nonce, Uri(a), Chars(Response(a, realm, nonce)));
  }

  // ---- The ACK and the answer to BYE ----

  lemma AtoiOfSpaced(n: int)
    ensures Atoi("   " + Dec(n) + "\r") == n
  {
    hide Dec;
    AtoiOfDec(n, "\r");
    var s := Dec(n) + "\r";
    assert "   " + Dec(n) + "\r" == " " + (" " + (" " + s));
    AtoiSkipsSpace(s);
    AtoiSkipsSpace(" " + s);
    AtoiSkipsSpace(" " + (" " + s));
  }

  lemma AtoiSkipsSpace(s: string)
    ensures Atoi(" " + s) == Atoi(s)
  {
    assert (" " + s)[1..] == s;
  }

  lemma AckStarts(a: Account, m: SipMessage)
    ensures "ACK sip:" + a.phoneNumber + "@" + a.serverIp + " SIP/2.0\r\n" <= Ack(a, m)
  {
    hide HeadersText;
  }

  /** A header that is the first one with its name in its name is read exactly when nothing misleads
      the search. */
  lemma AckHeaderRead(a: Account, m: SipMessage, n: nat, name: string)
    requires CleanAnswer(m) && '\r' !in AckLine(a) && n < |AckLines(a, m)| && Plain(name)
    requires Occurs(AckLines(a, m)[n].name, name)
    requires forall k :: 0 <= k < n ==> !Occurs(AckLines(a, m)[k].name, name)
    ensures var hs := AckLines(a, m);
            Field(Ack(a, m), name) == Found(Body(hs[n].value) + "\r") <==> Harmless(hs, n, name)
  {
    hide Find, Body, Field, Lookup, Harmless, HeadersText, AckLines, Clean, Ack;
    AckIsHeaders(a, m);
    AckIsClean(a, m);
    FieldIsLookup(AckLines(a, m), name);
    LookupExactly(AckLines(a, m), n, name);
  }

  /** Besides the six fields, an ACK is addressed to the callee, as the INVITE is, and carries a hop
      limit and the length. */
  lemma AckIsAddressed(a: Account, m: SipMessage)
    requires CleanAnswer(m) && '\r' !in AckLine(a)
    ensures "ACK sip:" + a.phoneNumber + "@" + a.serverIp + " SIP/2.0\r\n" <= Ack(a, m)
    ensures var hs, length := AckLines(a, m), Field(Ack(a, m), "Content-Length");
            && |hs| == 9
            && (Field(Ack(a, m), "Max-Forwards") == Found(" 70\r") <==> Harmless(hs, 3, "Max-Forwards"))
            && (length == Found("   " + Dec(m.contentLength) + "\r") <==> Harmless(hs, 8, "Content-Length"))
            && (Harmless(hs, 8, "Content-Length") ==> Atoi(length.Text()) == m.contentLength)
  {
    hide Find, Body, Field, Harmless, AckLines, AckLine, Dec, Atoi, Clean, Ack, CleanAnswer, Plain;
    AckStarts(a, m);
    AckLinesAre(a, m);
    AckNames(a, m);
    NamesAreSearchable(3);
    NamesAreSearchable(11);
    AckHeaderRead(a, m, 3, "Max-Forwards");
    AckHeaderRead(a, m, 8, "Content-Length");
    MaxForwards();
    LengthIsClean(m.contentLength);
    AtoiOfSpaced(m.contentLength);
  }

  const ACK_NAMES: seq<string> :=
    ["ACK sip", "Via", "From", "Max-Forwards", "To", "Contact", "Call-ID", "CSeq", "Content-Length"]

  lemma AckNamesAre(a: Account, m: SipMessage)
    ensures |ACK_NAMES| == |AckLines(a, m)| == 9
    ensures forall k :: 0 <= k < 9 ==> AckLines(a, m)[k].name == ACK_NAMES[k]
  {
    hide Dec;
  }

  lemma LaterNames(k: nat)
    requires k < 8
    ensures 'g' !in ACK_NAMES[k] && (k < 3 ==> 'x' !in ACK_NAMES[k])
    ensures ACK_NAMES[3] == "Max-Forwards" && ACK_NAMES[8] == "Content-Length"
    ensures "Max-Forwards"[2] == 'x' && "Content-Length"[11] == 'g'
  {
  }

  lemma AckNames(a: Account, m: SipMessage)
    ensures var hs := AckLines(a, m);
            && |hs| == 9 && Occurs(hs[3].name, "Max-Forwards") && Occurs(hs[8].name, "Content-Length")
            && (forall k :: 0 <= k < 3 ==> !Occurs(hs[k].name, "Max-Forwards"))
            && forall k :: 0 <= k < 8 ==> !Occurs(hs[k].name, "Content-Length")
  {
    hide Find, AckLines;
    AckNamesAre(a, m);
    FindPrefix("Max-Forwards", "Max-Forwards");
    FindPrefix("Content-Length", "Content-Length");
    forall k | 0 <= k < 8
      ensures !Occurs(ACK_NAMES[k], "Content-Length") && (k < 3 ==> !Occurs(ACK_NAMES[k], "Max-Forwards"))
    {
      LaterNames(k);
      MissingCharacter(ACK_NAMES[k], "Content-Length", 'g');
      if k < 3 {
        MissingCharacter(ACK_NAMES[k], "Max-Forwards", 'x');
      }
    }
    LaterNames(0);
  }

  /** The answer to BYE carries the length as well. */
  lemma AnswerLength(m: SipMessage)
    requires CleanAnswer(m)
    ensures "SIP/2.0 200 OK\r\n" <= Ok200(m)
    ensures var hs, length := AnswerHeaders(m), Field(Ok200(m), "Content-Length");
            && (length == Found("   " + Dec(m.contentLength) + "\r") <==> Harmless(hs, 6, "Content-Length"))
            && (Harmless(hs, 6, "Content-Length") ==> Atoi(length.Text()) == m.contentLength)
  {
    hide Find, Body, Field, Lookup, Harmless, HeadersText, Dec, Atoi, Clean, CleanAnswer;
    var hs := AnswerHeaders(m);
    NamesAreSearchable(11);
    AnswerNames();
    AnswerField(m, "Content-Length", 'g');
    hide AnswerHeaders, Ok200;
    LookupExactly(hs, 6, "Content-Length");
    LengthIsClean(m.contentLength);
    AtoiOfSpaced(m.contentLength);
  }

  lemma AnswerNames()
    ensures |ANSWER_NAMES| == 6 && forall k :: 0 <= k < 6 ==> !Occurs(ANSWER_NAMES[k], "Content-Length")
    ensures Occurs("Content-Length", "Content-Length")
    ensures 'g' in "Content-Length" && 'g' !in OK_LINE
  {
    hide Find;
    FindPrefix("Content-Length", "Content-Length");
    assert "Content-Length"[11] == 'g';
    forall k | 0 <= k < 6
      ensures !Occurs(ANSWER_NAMES[k], "Content-Length")
    {
      assert 'g' !in ANSWER_NAMES[k];
      MissingCharacter(ANSWER_NAMES[k], "Content-Length", 'g');
    }
  }
}
