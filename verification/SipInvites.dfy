/** What the INVITEs of a run say to the server that reads them. */
module SipInvites {
  import opened CText
  import opened SipText
  import opened SipRequests
  import opened SipCall
  import opened SipRuns

  /** The text is an INVITE with the number `cseq` and the credentials `auth`. */
  ghost predicate IsInvite(a: Account, cseq: int, auth: string, text: string) {
    exists branch: int :: text == Invite(a, cseq, branch, auth)
  }

  /** The credentials for the realm and the nonce of a challenge. */
  function CredentialsFor(a: Account, challenge: string): string {
    Credentials(a, Param(challenge, "realm").Text(), Param(challenge, "nonce").Text())
  }

  predicate NoAnswerYet(log: seq<Action>, k: nat)
    requires k <= |log|
  {
    forall j :: 0 <= j < k ==> !log[j].Answered?
  }

  /** The credentials that the INVITE at `k` has to carry: those for the challenge that it directly
      follows, and before any answer those the call started with. */
  function Due(a: Account, log: seq<Action>, k: nat, first: string): string
    requires k < |log|
  {
    if k > 0 && log[k - 1].Answered? then CredentialsFor(a, log[k - 1].auth) else first
  }

  ghost predicate InviteAt(a: Account, log: seq<Action>, k: nat, first: string)
    requires k < |log| && log[k].Invited?
  {
    && IsInvite(a, log[k].cseq, Due(a, log, k, first), log[k].text)
    && if k > 0 && log[k - 1].Answered? then log[k - 1].code == 401 && '\r' !in Body(log[k - 1].auth)
       else NoAnswerYet(log, k)
  }

  ghost predicate SendsInvites(a: Account, log: seq<Action>, first: string) {
    forall k :: 0 <= k < |log| && log[k].Invited? ==> InviteAt(a, log, k, first)
  }

  ghost predicate Speaks(a: Account, s: Call, first: string) {
    && '\r' !in s.authString && SendsInvites(a, s.log, first)
    && (s.sip == Start ==> s.authString == first && NoAnswerYet(s.log, |s.log|))
  }

  // ---- Credentials have no line break ----

  lemma ChallengeHasNoReturn(mess: string)
    ensures '\r' !in Body(Parse(mess).auth)
  {
    hide Find, Field, Atoi, Body;
    if Occurs(mess, "SIP") {
      FieldEndsInReturn(mess, "WWW-Authenticate");
    } else {
      EmptyBody();
    }
  }

  lemma CredentialsHaveNoReturn(a: Account, challenge: string)
    requires CleanAccount(a) && '\r' !in Body(challenge)
    ensures '\r' !in CredentialsFor(a, challenge)
  {
    hide Body, Param, AuthText, Response;
    var realm, nonce := Param(challenge, "realm").Text(), Param(challenge, "nonce").Text();
    ParamHasNoReturn(challenge, "realm");
    ParamHasNoReturn(challenge, "nonce");
    ResponseIsHex(a, realm, nonce);
    AuthHasNoReturn(a.ownNumber, realm, nonce, Uri(a), Chars(Response(a, realm, nonce)));
  }

  // ---- Every INVITE of a run is one ----

  lemma OneMore(a: Account, log: seq<Action>, x: Action, first: string)
    requires SendsInvites(a, log, first)
    requires x.Invited? ==> InviteAt(a, log + [x], |log|, first)
    ensures SendsInvites(a, log + [x], first)
  {
    hide IsInvite, CredentialsFor, Body;
    var more := log + [x];
    forall k | 0 <= k < |more| && more[k].Invited?
      ensures InviteAt(a, more, k, first)
    {
      if k < |log| {
        assert more[k] == log[k] && (k > 0 ==> more[k - 1] == log[k - 1]);
        assert InviteAt(a, log, k, first);
      }
    }
  }

  lemma {:induction false} OthersMore(a: Account, log: seq<Action>, added: seq<Action>, first: string)
    requires SendsInvites(a, log, first) && forall k :: 0 <= k < |added| ==> !added[k].Invited?
    ensures SendsInvites(a, log + added, first)
    decreases |added|
  {
    hide SendsInvites, InviteAt;
    if added == [] {
      assert log + added == log;
    } else {
      var front, last := added[..|added| - 1], added[|added| - 1];
      OthersMore(a, log, front, first);
      OneMore(a, log + front, last, first);
      assert log + added == log + front + [last];
    }
  }

  lemma BeginSpeaks(a: Account, s: Call, i: Input, first: string)
    requires WellFormed(s) && |Invite(a, s.cseq, i.branch, s.authString)| < BUFSIZE
    requires Speaks(a, s, first) && s.sip == Start
    ensures Speaks(a, Begin(a, s, i), first)
  {
    hide Invite, StrCpy, CredentialsFor;
    var text := Invite(a, s.cseq, i.branch, s.authString);
    var x := Invited(s.cseq, text, i.sendOk);
    assert IsInvite(a, s.cseq, first, text);
    var more := s.log + [x];
    assert forall k :: 0 <= k < |s.log| ==> more[k] == s.log[k];
    OneMore(a, s.log, x, first);
  }

  lemma TakeUpSpeaks(a: Account, s: Call, i: Input, first: string)
    requires WellFormed(s) && ChallengeDefined(a, s.ans, s.cseq, i.branch) && SendsInvites(a, s.log, first)
    requires s.log != [] && s.log[|s.log| - 1] == Answered(401, s.ans.auth) && s.sip != Start
    requires CleanAccount(a) && '\r' !in Body(s.ans.auth)
    ensures Speaks(a, TakeUp(a, s, i), first)
  {
    hide Invite, StrCpy, Credentials, Param, Body;
    CredentialsHaveNoReturn(a, s.ans.auth);
    var auth := CredentialsFor(a, s.ans.auth);
    var text := Invite(a, s.cseq + 1, i.branch, auth);
    var x := Invited(s.cseq + 1, text, i.sendOk);
    assert IsInvite(a, s.cseq + 1, auth, text);
    var more := s.log + [x];
    assert more[|s.log| - 1] == s.log[|s.log| - 1];
    OneMore(a, s.log, x, first);
  }

  lemma AnswerSpeaks(a: Account, s: Call, i: Input, first: string)
    requires WellFormed(s) && AnswerDefined(a, s.ans, s.cseq, i.branch) && Speaks(a, s, first)
    requires s.log != [] && s.log[|s.log| - 1] == Answered(s.ans.code, s.ans.auth) && s.sip == InviteSent
    requires CleanAccount(a) && '\r' !in Body(s.ans.auth)
    ensures Speaks(a, Answer(a, s, i), first)
  {
    hide Ack, StrCpy, Body, SendsInvites, TakeUp, ChallengeDefined;
    var ack := [Acked(Ack(a, s.ans))];
    if Provisional(s.ans.code) {
    } else if s.ans.code == 401 {
      TakeUpSpeaks(a, s, i, first);
    } else if s.ans.code == 200 {
      OthersMore(a, s.log, [Opened(i.openOk)], first);
      OthersMore(a, s.log + [Opened(i.openOk)], ack, first);
    } else {
      OthersMore(a, s.log, ack, first);
    }
  }

  lemma ReceivedChallenge(s: Call, data: string)
    requires WellFormed(s) && Readable(s, data)
    ensures '\r' !in Body(Received(s, data).ans.auth)
  {
    hide Parse, Body;
    ChallengeHasNoReturn(CString(Overlay(s.buf, data)));
  }

  lemma AwaitSpeaks(a: Account, s: Call, i: Input, first: string)
    requires WellFormed(s) && Speaks(a, s, first) && CleanAccount(a) && s.sip == InviteSent
    requires i.sip.Some? ==>
               Readable(s, i.sip.value) && AnswerDefined(a, Received(s, i.sip.value).ans, s.cseq, i.branch)
    ensures Speaks(a, Await(a, s, i), first)
  {
    hide Parse, CString, AnswerDefined, Answer, SendsInvites, Readable, Body;
    if i.sip.None? {
      OthersMore(a, s.log, [PolledSip], first);
    } else {
      var r := Received(s, i.sip.value);
      ReceivedChallenge(s, i.sip.value);
      var added := [PolledSip, Answered(r.ans.code, r.ans.auth)];
      OthersMore(a, s.log, added, first);
      AnswerSpeaks(a, Logged(r, added), i, first);
    }
  }

  lemma StepSpeaks(a: Account, s: Call, i: Input, first: string)
    requires WellFormed(s) && Defined(a, s, i) && Speaks(a, s, first) && CleanAccount(a)
    ensures Speaks(a, Step(a, s, i), first)
  {
    hide Invite, Ok200, Await, Begin, Converse, AnswerDefined, SendsInvites, StrCpy, Readable, Received;
    if s.v == VStart && !s.callEnd {
      match s.sip
      case Start =>
        BeginSpeaks(a, s, i, first);
      case InviteSent =>
        AwaitStays(a, s, i);
        AwaitSpeaks(a, s, i, first);
      case InviteCompleted =>
        ConverseSpeaks(a, s, i, first);
      case ByeSent =>
        OthersMore(a, s.log, [Closed, SentOk(Ok200(s.ans), i.sendOk)], first);
      case ByeCompleted =>
        OthersMore(a, s.log, [ClosedSip, ClosedRtp], first);
    }
  }

  lemma AwaitStays(a: Account, s: Call, i: Input)
    requires WellFormed(s) && s.sip == InviteSent
    requires i.sip.Some? ==>
               Readable(s, i.sip.value) && AnswerDefined(a, Received(s, i.sip.value).ans, s.cseq, i.branch)
    ensures Await(a, s, i).sip != Start
  {
    hide Parse, CString, AnswerDefined, Readable, Invite, Ack, StrCpy, Credentials, Param;
  }

  lemma ConverseSpeaks(a: Account, s: Call, i: Input, first: string)
    requires WellFormed(s) && (i.rtp.Some? ==> |i.rtp.value| <= BUFSIZE) && Speaks(a, s, first)
    requires s.sip == InviteCompleted && (i.sip.Some? ==> Readable(Talk(s, i), i.sip.value))
    ensures Speaks(a, Converse(s, i), first)
  {
    hide SendsInvites, Talk, Readable, Parse, CString;
    TalkSpeaks(a, s, i, first);
    OthersMore(a, Talk(s, i).log, [PolledSip], first);
  }

  lemma TalkSpeaks(a: Account, s: Call, i: Input, first: string)
    requires WellFormed(s) && (i.rtp.Some? ==> |i.rtp.value| <= BUFSIZE) && Speaks(a, s, first)
    requires s.sip == InviteCompleted
    ensures Speaks(a, Talk(s, i), first) && Talk(s, i).sip == InviteCompleted
  {
    hide SendsInvites, Voice;
    var p := Logged(s, [PolledRtp]);
    OthersMore(a, s.log, [PolledRtp], first);
    if i.rtp.Some? {
      var voice := VoiceOutline(p, i.rtp.value);
      VoiceInvitesNone(p, Voice(p, i.rtp.value), voice);
      OthersMore(a, p.log, voice, first);
    }
  }

  lemma VoiceInvitesNone(s: Call, t: Call, voice: seq<Action>)
    requires WellFormed(s) && VoiceFollows(s, t, voice)
    ensures forall k :: 0 <= k < |voice| ==> !voice[k].Invited?
  {
    hide ChunkSize;
  }

  /** Over every run, every INVITE is one with the number it is sent under: at first with the
      credentials the call started with, and after that each directly behind a challenge and with
      the credentials for its realm and nonce. */
  lemma {:induction false} RunSpeaks(a: Account, s: Call, inputs: seq<Input>)
    requires Initial(s) && Legal(a, s, inputs) && CleanAccount(a) && '\r' !in s.authString
    ensures Speaks(a, Run(a, s, inputs), s.authString)
    decreases |inputs|
  {
    hide Step, Defined, InviteAt;
    if inputs != [] {
      var front, last := inputs[..|inputs| - 1], inputs[|inputs| - 1];
      RunSpeaks(a, s, front);
      StepSpeaks(a, Run(a, s, front), last, s.authString);
    }
  }

  // ---- What a server reads ----

  /** The text read at its first blank line: the CSeq line has the number, the credentials are the
      thirteenth line if there are any, and the Content-Length line has the length of what follows
      exactly when there are. */
  predicate ReadsAsInvite(text: string, cseq: int, auth: string) {
    var i := Find(text, BLANK_LINE);
    && i >= 0 && CSeqOf(text) == cseq
    && var lines := SplitLines(text[..i]);
       && |lines| == (if auth == "" then 12 else 13) && (auth != "" ==> lines[12] == auth)
       && CONTENT_LENGTH <= lines[11]
       && (Atoi(lines[11][16..]) == |text[i + 4..]| <==> auth != "")
  }

  lemma InviteReads(a: Account, cseq: int, branch: int, auth: string)
    requires CleanAccount(a) && '\r' !in auth
    ensures ReadsAsInvite(Invite(a, cseq, branch, auth), cseq, auth)
  {
    hide Find, SplitLines, Atoi, Invite, CSeqOf, Sdp;
    InviteIsRead(a, cseq, branch, auth);
    ContentLengthIsRight(a, cseq, branch, auth);
    CSeqIsRead(a, cseq, branch, auth);
  }

  lemma NumberIsRead(text: string, cseq: int, auth: string)
    requires ReadsAsInvite(text, cseq, auth)
    ensures CSeqOf(text) == cseq
  {
    hide Find, SplitLines, Atoi, CSeqOf;
  }

  lemma DueIsRead(a: Account, log: seq<Action>, k: nat, first: string)
    requires k < |log| && log[k].Invited? && InviteAt(a, log, k, first)
    requires CleanAccount(a) && '\r' !in first
    ensures ReadsAsInvite(log[k].text, log[k].cseq, Due(a, log, k, first))
  {
    hide Invite, ReadsAsInvite, CredentialsFor, Body;
    var auth := Due(a, log, k, first);
    if k > 0 && log[k - 1].Answered? {
      CredentialsHaveNoReturn(a, log[k - 1].auth);
    }
    var branch: int :| log[k].text == Invite(a, log[k].cseq, branch, auth);
    InviteReads(a, log[k].cseq, branch, auth);
  }

  /** Over every run, the server reads every INVITE with the number it was sent under and with the
      credentials that were due: those for the realm and the nonce of the challenge it follows, or
      before any answer those the call started with. Its length is announced rightly exactly when it
      has credentials, and the numbers that are read in the INVITEs whose sending succeeded strictly
      increase. The credentials left for the next call are one line again. */
  lemma SentInvites(a: Account, s: Call, inputs: seq<Input>)
    requires Initial(s) && Legal(a, s, inputs) && CleanAccount(a) && '\r' !in s.authString
    ensures var log := Run(a, s, inputs).log;
            && (forall k :: 0 <= k < |log| && log[k].Invited? ==>
                  && ReadsAsInvite(log[k].text, log[k].cseq, Due(a, log, k, s.authString))
                  && if k > 0 && log[k - 1].Answered? then log[k - 1].code == 401 else NoAnswerYet(log, k))
            && (forall j, k :: 0 <= j < k < |log| && OkInvite(log[j]) && OkInvite(log[k]) ==>
                  CSeqOf(log[j].text) < CSeqOf(log[k].text))
    ensures '\r' !in Run(a, s, inputs).authString
  {
    hide Run, Legal, CSeqOf, ReadsAsInvite, Count, IsInvite, Due;
    RunSpeaks(a, s, inputs);
    SequenceNumbers(a, s, inputs);
    var log := Run(a, s, inputs).log;
    forall k | 0 <= k < |log| && log[k].Invited?
      ensures ReadsAsInvite(log[k].text, log[k].cseq, Due(a, log, k, s.authString))
      ensures CSeqOf(log[k].text) == log[k].cseq
      ensures if k > 0 && log[k - 1].Answered? then log[k - 1].code == 401 else NoAnswerYet(log, k)
    {
      assert InviteAt(a, log, k, s.authString);
      DueIsRead(a, log, k, s.authString);
      NumberIsRead(log[k].text, log[k].cseq, Due(a, log, k, s.authString));
    }
  }
}
