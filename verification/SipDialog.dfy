/** What the program and its server read of each other in the middle of a call. The program itself
    prints an answer for BYE alone; where an INVITE is answered here, the server's answer is taken
    in the form that Create200 gives one. */
module SipDialog {
  import opened CText
  import opened SipText
  import opened SipRequests
  import opened SipCall
  import opened SipRuns

  /** For every text that can be received, the answer to it is read with code 200, and with the
      fields that were received exactly when they are recoverable. */
  lemma ReceivedIsAnswered(text: string)
    ensures var m := Parse(text);
            var p := Parse(Ok200(m));
            p.code == 200 && p.command == "" && (SameFields(p, m) <==> Recoverable(m))
  {
    hide Parse, Ok200, Recoverable;
    ParsedIsClean(text);
    AnswerRoundTrip(Parse(text));
  }

  /** Text that an earlier receive left behind the answer does not disturb the reading of it. */
  lemma AnswerIsSeen(m: SipMessage, tail: string)
    requires CleanAnswer(m)
    ensures var p := Parse(Ok200(m) + tail);
            && p.code == 200 && p.command == ""
            && SameFields(p, Parse(Ok200(m))) && (SameFields(p, m) <==> Recoverable(m))
  {
    hide Find, Field, Ok200, Parse, Body, Harmless, Recoverable;
    AnswerCode(m);
    AnswerRoundTrip(m);
    AnswerFieldRecovered(m, 0);
    AnswerFieldRecovered(m, 1);
    AnswerFieldRecovered(m, 2);
    AnswerFieldRecovered(m, 3);
    AnswerFieldRecovered(m, 4);
    AnswerFieldRecovered(m, 5);
    ParseStays(Ok200(m), tail);
  }

  /** What is received is parsed with a tail of the old buffer behind it. */
  lemma ReceivedIsParsed(s: Call, data: string) returns (tail: string)
    requires WellFormed(s) && Readable(s, data) && '\0' !in data
    ensures Received(s, data).ans == Parse(data + tail)
  {
    hide Find, Parse, Parsable, Storable;
    ReceivedText(s.buf, data);
    tail := CString(s.buf[|data|..]);
  }

  /** A caller whose INVITE is answered in the form of Create200 is connected in that step, whatever
      its buffer held before. It then holds the fields of the answer exactly when they are
      recoverable, and the server reads its ACK as one with the fields it holds exactly when those
      are recoverable from an ACK. */
  lemma AnswerConnects(a: Account, s: Call, i: Input, m: SipMessage)
    requires WellFormed(s) && s.sip == InviteSent && SessionDefined(a, s, i)
    requires i.sip == Some(Ok200(m)) && CleanAnswer(m) && '\0' !in Ok200(m)
    ensures var t := Session(a, s, i);
            && t.sip == InviteCompleted && CleanAnswer(t.ans) && (SameFields(t.ans, m) <==> Recoverable(m))
            && t.log == s.log + [PolledSip, Answered(200, t.ans.auth), Opened(i.openOk), Acked(Ack(a, t.ans))]
            && ('\r' !in AckLine(a) ==>
                  var p := Parse(Ack(a, t.ans));
                  p.code == 0 && p.command == "ACK" && (SameFields(p, t.ans) <==> AckRecoverable(a, t.ans)))
  {
    hide Parse, Ok200, Ack, Readable, CString, StrCpy, Recoverable, AckRecoverable, CleanAnswer, AckLine;
    var r := Received(s, i.sip.value);
    assert r.ans.code == 200 && CleanAnswer(r.ans) && (SameFields(r.ans, m) <==> Recoverable(m)) by {
      hide Received;
      ConnectingAnswer(s, m);
    }
    if '\r' !in AckLine(a) {
      AckRoundTrip(a, r.ans);
    }
  }

  lemma ConnectingAnswer(s: Call, m: SipMessage)
    requires WellFormed(s) && Readable(s, Ok200(m)) && CleanAnswer(m) && '\0' !in Ok200(m)
    ensures var ans := Received(s, Ok200(m)).ans;
            ans.code == 200 && CleanAnswer(ans) && (SameFields(ans, m) <==> Recoverable(m))
  {
    hide Parse, Ok200, Recoverable, Received, Readable, CleanAnswer;
    var tail := ReceivedIsParsed(s, Ok200(m));
    AnswerIsSeen(m, tail);
    ParsedIsClean(Ok200(m) + tail);
  }

  // ---- The message that is answered in a run ----

  /** Once an answer to the INVITE was acted on, the message the program holds is one it parsed. */
  predicate HoldsParsed(s: Call) {
    s.sip != Start && s.sip != InviteSent ==> CleanAnswer(s.ans)
  }

  lemma ReceivedIsClean(s: Call, data: string)
    requires WellFormed(s) && Readable(s, data)
    ensures CleanAnswer(Received(s, data).ans)
  {
    hide Parse, CleanAnswer;
    ParsedIsClean(CString(Overlay(s.buf, data)));
  }

  lemma StepHoldsParsed(a: Account, s: Call, i: Input)
    requires WellFormed(s) && Defined(a, s, i) && HoldsParsed(s) && (s.v == VInit ==> s.sip == Start)
    ensures HoldsParsed(Step(a, s, i))
  {
    hide Parse, CleanAnswer, Invite, Ack, Ok200, Credentials, Param, StrCpy, Readable, AnswerDefined, Received;
    if s.v == VStart && !s.callEnd {
      if s.sip == InviteSent && i.sip.Some? {
        ReceivedIsClean(s, i.sip.value);
      } else if s.sip == InviteCompleted && i.sip.Some? {
        ReceivedIsClean(Talk(s, i), i.sip.value);
      }
    }
  }

  lemma {:induction false} RunHoldsParsed(a: Account, s: Call, inputs: seq<Input>)
    requires Initial(s) && Legal(a, s, inputs)
    ensures HoldsParsed(Run(a, s, inputs))
    decreases |inputs|
  {
    hide Step, Defined, Invariant, HoldsParsed;
    if inputs == [] {
      StartHoldsParsed(s);
    } else {
      var front, last := inputs[..|inputs| - 1], inputs[|inputs| - 1];
      RunHoldsParsed(a, s, front);
      RunInvariant(a, s, front);
      StartsWithStart(Run(a, s, front), s.cseq);
      StepHoldsParsed(a, Run(a, s, front), last);
    }
  }

  lemma StartHoldsParsed(s: Call)
    requires Initial(s)
    ensures HoldsParsed(s)
  {
  }

  lemma StartsWithStart(s: Call, first: int)
    requires WellFormed(s) && Invariant(s, first)
    ensures s.v == VInit ==> s.sip == Start
  {
  }

  /** In every run, an attempt to answer BYE closes the file and sends a text that is read with code
      200 and, exactly when they are recoverable, with the fields of the BYE; the call completes
      when the send succeeds. */
  lemma ByeIsAnswered(a: Account, s: Call, inputs: seq<Input>, i: Input)
    requires Initial(s) && Legal(a, s, inputs)
    requires var u := Run(a, s, inputs); u.sip == ByeSent && SessionDefined(a, u, i)
    ensures var u := Run(a, s, inputs);
            var t, text := Session(a, u, i), Ok200(u.ans);
            && t.log == u.log + [Closed, SentOk(text, i.sendOk)]
            && t.sip == (if i.sendOk then ByeCompleted else ByeSent)
            && Parsable(text) && Parse(text).code == 200
            && (SameFields(Parse(text), u.ans) <==> Recoverable(u.ans))
  {
    hide Parse, Ok200, Recoverable, StrCpy, Parsable, Run, Legal, CleanAnswer;
    RunHoldsParsed(a, s, inputs);
    AnswerRoundTrip(Run(a, s, inputs).ans);
  }
}
