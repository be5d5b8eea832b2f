/** What holds over every run of a call, whatever the network and the file system do. */
module SipRuns {
  import opened Buffers
  import opened Words
  import opened SipText
  import opened SipRequests
  import opened SipCall

  /** A run is legal when the program's steps are defined in it. */
  predicate Legal(a: Account, s: Call, inputs: seq<Input>)
    requires WellFormed(s)
    decreases |inputs|, 0
  {
    inputs != [] ==>
      && Legal(a, s, inputs[..|inputs| - 1])
      && Defined(a, Run(a, s, inputs[..|inputs| - 1]), inputs[|inputs| - 1])
  }

  function Run(a: Account, s: Call, inputs: seq<Input>): (t: Call)
    requires WellFormed(s) && Legal(a, s, inputs)
    ensures WellFormed(t)
    decreases |inputs|, 1
  {
    if inputs == [] then s
    else Step(a, Run(a, s, inputs[..|inputs| - 1]), inputs[|inputs| - 1])
  }

  /** How main_sip_call_Helen starts a call. */
  predicate Initial(s: Call) {
    && WellFormed(s) && s.v == VInit && s.sip == Start && !s.callEnd && s.bufPoint == 0 && s.log == []
  }

  // ---- The outline of a step: what it changes and what it does to the outside ----

  datatype Outline =
    | Loaded
    | Begun(text: string, ok: bool)
    | Silent
    | Waits(code: int, auth: string)
    | Challenge(auth: string, text: string, ok: bool)
    | Accepted(auth: string, fileOk: bool, text: string)
    | Refused(code: int, auth: string, text: string)
    | Talked(voice: seq<Action>, bye: bool)
    | Parted(text: string, ok: bool)
    | Hung
    | ToClose
    | ToEnd
    | Idle

  predicate Refusal(code: int) {
    !Provisional(code) && code != 401 && code != 200
  }

  /** The RTP half of a step in an established call. */
  predicate VoiceFollows(s: Call, t: Call, voice: seq<Action>)
    requires WellFormed(s)
  {
    || (voice == [] && t.bufPoint == s.bufPoint && t.messTrans == s.messTrans)
    || (!s.messTrans && |voice| == 1 && voice[0].SentRtp? && |voice[0].packet| == 172
        && var n := ChunkSize(s.bufPoint, s.fsize);
           && t.bufPoint == s.bufPoint + n && t.messTrans == (s.bufPoint + n == s.fsize)
           && voice[0].packet[12..] ==
              (if n == 0 then [] else s.filebuf[s.bufPoint + 1..s.bufPoint + 1 + n]) + Zeros(160 - n))
    || (s.messTrans && t.messTrans && |voice| == 1 && voice[0].Recorded? && |voice[0].window| == 160)
  }

  /** What a step of the given outline adds to the log. */
  function Added(cseq: int, o: Outline): seq<Action> {
    match o
    case Begun(text, ok) => [Invited(cseq, text, ok)]
    case Silent => [PolledSip]
    case Waits(code, auth) => [PolledSip, Answered(code, auth)]
    case Challenge(auth, text, ok) => [PolledSip, Answered(401, auth), Invited(cseq + 1, text, ok)]
    case Accepted(auth, fileOk, text) => [PolledSip, Answered(200, auth), Opened(fileOk), Acked(text)]
    case Refused(code, auth, text) => [PolledSip, Answered(code, auth), Acked(text)]
    case Talked(voice, _) => [PolledRtp] + voice + [PolledSip]
    case Parted(text, ok) => [Closed, SentOk(text, ok)]
    case Hung => [ClosedSip, ClosedRtp]
    case _ => []
  }

  predicate Follows(s: Call, t: Call, o: Outline)
    requires WellFormed(s)
  {
    && t.log == s.log + Added(s.cseq, o)
    && Transition(s, t, o)
  }

  /** What a step of the given outline changes besides the log. */
  predicate Transition(s: Call, t: Call, o: Outline)
    requires WellFormed(s)
  {
    var inSession := s.v == VStart && !s.callEnd;
    match o
    case Loaded =>
      && s.v == VInit
      && t == s.(v := VStart, callEnd := false, messTrans := false, fsize := t.fsize, filebuf := t.filebuf,
                 returnCode := if t.fsize > WAV_HEADER then 0 else 1, log := t.log)
    case Begun(text, ok) =>
      && inSession && s.sip == Start
      && t == s.(buf := t.buf, sip := if ok then InviteSent else Start, log := t.log)
    case Silent => inSession && s.sip == InviteSent && t == s.(log := t.log)
    case Waits(code, _) =>
      inSession && s.sip == InviteSent && Provisional(code) && t == s.(buf := t.buf, ans := t.ans, log := t.log)
    case Challenge(_, text, ok) =>
      && inSession && s.sip == InviteSent
      && t == s.(buf := t.buf, ans := t.ans, cseq := s.cseq + 1, realm := t.realm, nonce := t.nonce,
                 authString := t.authString, log := t.log)
    case Accepted(_, _, text) =>
      inSession && s.sip == InviteSent && t == s.(buf := t.buf, ans := t.ans, sip := InviteCompleted, log := t.log)
    case Refused(code, _, text) =>
      && inSession && s.sip == InviteSent && Refusal(code)
      && t == s.(buf := t.buf, ans := t.ans, sip := ByeCompleted, returnCode := 2, log := t.log)
    case Talked(voice, bye) =>
      && inSession && s.sip == InviteCompleted && VoiceFollows(s, t, voice)
      && t == s.(buf := t.buf, rtp := t.rtp, ans := t.ans, bufPoint := t.bufPoint, messTrans := t.messTrans,
                 sip := if bye then ByeSent else InviteCompleted, log := t.log)
    case Parted(text, ok) =>
      inSession && s.sip == ByeSent && t == s.(buf := t.buf, sip := if ok then ByeCompleted else ByeSent, log := t.log)
    case Hung => inSession && s.sip == ByeCompleted && t == s.(callEnd := true, log := t.log)
    case ToClose => s.v == VStart && s.callEnd && t == s.(v := VClose, log := t.log)
    case ToEnd => s.v == VClose && t == s.(v := VEnd, log := t.log)
    case Idle => s.v == VEnd && t == s.(log := t.log)
  }

  lemma AwaitOutline(a: Account, s: Call, i: Input) returns (o: Outline)
    requires WellFormed(s) && s.v == VStart && !s.callEnd && s.sip == InviteSent
    requires i.sip.Some? ==>
               Readable(s, i.sip.value) && AnswerDefined(a, Received(s, i.sip.value).ans, s.cseq, i.branch)
    ensures Follows(s, Await(a, s, i), o)
  {
    hide Invite, Ack, Parse, CString, Credentials, RealmOf, NonceOf, StrCpy, Readable, AnswerDefined;
    if i.sip.None? {
      return Silent;
    }
    var r := Received(s, i.sip.value);
    var auth := r.ans.auth;
    var q := Logged(r, [PolledSip, Answered(r.ans.code, auth)]);
    var code, t := r.ans.code, Answer(a, q, i);
    if Provisional(code) {
      o := Waits(code, auth);
    } else if code == 401 {
      var last := t.log[|t.log| - 1];
      o := Challenge(auth, last.text, last.ok);
      assert t.log == s.log + [PolledSip, Answered(401, auth), Invited(s.cseq + 1, last.text, last.ok)];
    } else if code == 200 {
      o := Accepted(auth, i.openOk, t.log[|t.log| - 1].text);
      assert t.log == s.log + [PolledSip, Answered(200, auth), Opened(i.openOk), Acked(o.text)];
    } else {
      o := Refused(code, auth, t.log[|t.log| - 1].text);
      assert t.log == s.log + [PolledSip, Answered(code, auth), Acked(o.text)];
    }
  }

  lemma VoiceOutline(s: Call, data: seq<Byte>) returns (voice: seq<Action>)
    requires WellFormed(s) && |data| <= BUFSIZE
    ensures var t := Voice(s, data);
            && VoiceFollows(s, t, voice)
            && t == s.(rtp := t.rtp, bufPoint := t.bufPoint, messTrans := t.messTrans, log := s.log + voice)
    ensures |voice| <= 1 && (voice != [] && voice[0].Recorded? <==> s.messTrans && data != [])
    ensures s.messTrans && data != [] ==> voice == [Recorded(Overlay(s.rtp, data)[12..172])]
  {
    var t := Voice(s, data);
    if data == [] {
      voice := [];
      assert t.log == s.log + [];
    } else {
      voice := [t.log[|t.log| - 1]];
    }
  }

  lemma ConverseOutline(s: Call, i: Input) returns (o: Outline)
    requires WellFormed(s) && s.v == VStart && !s.callEnd && s.sip == InviteCompleted
    requires i.rtp.Some? ==> |i.rtp.value| <= BUFSIZE
    requires i.sip.Some? ==> Readable(Talk(s, i), i.sip.value)
    ensures Follows(s, Converse(s, i), o)
  {
    hide Parse, CString, Readable, Voice, VoiceFollows;
    var voice: seq<Action> := [];
    var p := Logged(s, [PolledRtp]);
    if i.rtp.Some? {
      voice := VoiceOutline(p, i.rtp.value);
    }
    var t := Converse(s, i);
    assert t.log == s.log + ([PolledRtp] + voice + [PolledSip]);
    o := Talked(voice, t.sip == ByeSent);
    assert VoiceFollows(s, t, voice) by { VoiceFrame(s, p, Talk(s, i), t, voice); }
  }

  lemma VoiceFrame(s: Call, p: Call, q: Call, t: Call, voice: seq<Action>)
    requires WellFormed(s) && WellFormed(p)
    requires p.bufPoint == s.bufPoint && p.fsize == s.fsize && p.filebuf == s.filebuf && p.messTrans == s.messTrans
    requires t.bufPoint == q.bufPoint && t.messTrans == q.messTrans
    requires VoiceFollows(p, q, voice) || (voice == [] && q == p)
    ensures VoiceFollows(s, t, voice)
  {
  }

  /** Every step follows one of the outlines. */
  lemma StepOutline(a: Account, s: Call, i: Input) returns (o: Outline)
    requires WellFormed(s) && Defined(a, s, i)
    ensures Follows(s, Step(a, s, i), o)
  {
    hide Invite, Ok200, Await, Converse, StrCpy, Readable, AnswerDefined, VoiceFollows;
    if s.v == VInit {
      o := Loaded;
    } else if s.v != VStart {
      o := if s.v == VClose then ToEnd else Idle;
    } else if s.callEnd {
      o := ToClose;
    } else if s.sip == Start {
      o := Begun(Invite(a, s.cseq, i.branch, s.authString), i.sendOk);
    } else if s.sip == InviteSent {
      o := AwaitOutline(a, s, i);
    } else if s.sip == InviteCompleted {
      o := ConverseOutline(s, i);
    } else if s.sip == ByeSent {
      o := Parted(Ok200(s.ans), i.sendOk);
    } else {
      o := Hung;
    }
  }

  // ---- Control never moves backwards ----

  predicate Control(s: Call) {
    && (s.v == VInit ==> s.sip == Start && !s.callEnd && s.bufPoint == 0 && s.log == [])
    && (s.callEnd ==> s.sip == ByeCompleted)
    && (s.v == VClose || s.v == VEnd ==> s.callEnd)
  }

  function Phase(s: Call): (p: nat)
    ensures p <= 8
  {
    match s.v
    case VInit => 0
    case VStart =>
      (match s.sip
       case Start => 1
       case InviteSent => 2
       case InviteCompleted => 3
       case ByeSent => 4
       case ByeCompleted => if s.callEnd then 6 else 5)
    case VClose => 7
    case VEnd => 8
  }

  lemma OutlineMovesForward(s: Call, t: Call, o: Outline)
    requires WellFormed(s) && Follows(s, t, o) && Control(s)
    ensures Control(t) && Phase(s) <= Phase(t)
    ensures Phase(s) == Phase(t) <==> s.v == t.v && s.sip == t.sip && s.callEnd == t.callEnd
  {
    hide VoiceFollows;
  }

  /** One step keeps the control invariant and moves the phase forward exactly when it changes the
      control state. */
  lemma StepMovesForward(a: Account, s: Call, i: Input)
    requires WellFormed(s) && Defined(a, s, i) && Control(s)
    ensures var t := Step(a, s, i);
            && Control(t)
            && Phase(s) <= Phase(t)
            && (Phase(s) == Phase(t) <==> s.v == t.v && s.sip == t.sip && s.callEnd == t.callEnd)
  {
    var o := StepOutline(a, s, i);
    OutlineMovesForward(s, Step(a, s, i), o);
    hide Step, Follows, Control, Phase;
  }

  // ---- The log ----

  predicate ClosesSocket(x: Action) {
    x.ClosedSip? || x.ClosedRtp?
  }

  predicate NoSocketClosed(log: seq<Action>) {
    forall k :: 0 <= k < |log| ==> !ClosesSocket(log[k])
  }

  /** The sockets are closed by the last two actions of the log, or not yet. */
  predicate SocketsInOrder(s: Call) {
    if s.callEnd then
      && |s.log| >= 2 && s.log[|s.log| - 2..] == [ClosedSip, ClosedRtp]
      && NoSocketClosed(s.log[..|s.log| - 2])
    else NoSocketClosed(s.log)
  }

  lemma OutlineSockets(s: Call, t: Call, o: Outline)
    requires WellFormed(s) && Follows(s, t, o) && Control(s) && SocketsInOrder(s)
    ensures SocketsInOrder(t)
  {
    var added := Added(s.cseq, o);
    SocketsInStep(s, t, o);
    hide Added, Follows, Control;
    if o.Hung? {
      assert t.log[..|t.log| - 2] == s.log && t.log[|t.log| - 2..] == added;
    } else {
      assert s.log + added == t.log && s.log + [] == s.log;
    }
  }

  lemma SocketsInStep(s: Call, t: Call, o: Outline)
    requires WellFormed(s) && Follows(s, t, o) && Control(s)
    ensures t.log == s.log + Added(s.cseq, o)
    ensures o.Hung? ==> !s.callEnd && t.callEnd && Added(s.cseq, o) == [ClosedSip, ClosedRtp]
    ensures !o.Hung? ==> NoSocketClosed(Added(s.cseq, o)) && t.callEnd == s.callEnd
    ensures s.callEnd ==> Added(s.cseq, o) == []
  {
  }

  function Count(log: seq<Action>, p: Action -> bool): nat {
    if log == [] then 0 else Count(log[..|log| - 1], p) + if p(log[|log| - 1]) then 1 else 0
  }

  lemma {:induction false} CountConcat(x: seq<Action>, y: seq<Action>, p: Action -> bool)
    ensures Count(x + y, p) == Count(x, p) + Count(y, p)
    decreases |y|
  {
    if y == [] {
      assert x + y == x;
    } else {
      CountConcat(x, y[..|y| - 1], p);
      assert (x + y)[..|x + y| - 1] == x + y[..|y| - 1];
    }
  }

  // ---- The output file ----

  /** Whether the output file is open after the actions: fopen succeeded, and no fclose came since. */
  predicate FileOpen(log: seq<Action>) {
    && log != []
    && var x := log[|log| - 1];
       if x.Opened? then x.ok else !x.Closed? && FileOpen(log[..|log| - 1])
  }

  /** What became of the output file: fopen was not called yet; it was, and fclose was not; both
      were. */
  datatype Output = Untouched | InUse(ok: bool) | Shut(ok: bool)

  function OutputOf(log: seq<Action>): Output {
    if log == [] then Untouched
    else
      var before, x := OutputOf(log[..|log| - 1]), log[|log| - 1];
      if x.Opened? then InUse(x.ok)
      else if x.Closed? && !before.Untouched? then Shut(before.ok)
      else before
  }

  /** fopen is called once, before every fputc and fclose, and every fputc before every fclose. */
  predicate OneFile(log: seq<Action>) {
    log != [] ==>
      && OneFile(log[..|log| - 1])
      && (log[|log| - 1].Opened? ==> OutputOf(log[..|log| - 1]).Untouched?)
      && (log[|log| - 1].Recorded? ==> OutputOf(log[..|log| - 1]).InUse?)
      && (log[|log| - 1].Closed? ==> !OutputOf(log[..|log| - 1]).Untouched?)
  }

  predicate OutputInOrder(s: Call) {
    && OneFile(s.log)
    && match s.sip
       case Start => OutputOf(s.log).Untouched?
       case InviteSent => OutputOf(s.log).Untouched?
       case InviteCompleted => OutputOf(s.log).InUse?
       case ByeSent => !OutputOf(s.log).Untouched?
       case ByeCompleted => true
  }

  lemma OutputOneMore(log: seq<Action>, x: Action)
    requires OneFile(log)
    requires x.Opened? ==> OutputOf(log).Untouched?
    requires x.Recorded? ==> OutputOf(log).InUse?
    requires x.Closed? ==> !OutputOf(log).Untouched?
    ensures OneFile(log + [x])
    ensures OutputOf(log + [x]) ==
            if x.Opened? then InUse(x.ok) else if x.Closed? then Shut(OutputOf(log).ok) else OutputOf(log)
  {
    assert (log + [x])[..|log + [x]| - 1] == log;
  }

  predicate Quiet(x: Action) {
    !x.Recorded? && !x.Opened? && !x.Closed?
  }

  lemma {:induction false} QuietAdded(log: seq<Action>, added: seq<Action>)
    requires OneFile(log) && forall k :: 0 <= k < |added| ==> Quiet(added[k])
    ensures OneFile(log + added) && OutputOf(log + added) == OutputOf(log)
    decreases |added|
  {
    hide OneFile, OutputOf;
    if added == [] {
      assert log + added == log;
    } else {
      var front, last := added[..|added| - 1], added[|added| - 1];
      QuietAdded(log, front);
      OutputOneMore(log + front, last);
      assert log + added == log + front + [last];
    }
  }

  lemma OneAdded(log: seq<Action>, before: seq<Action>, x: Action, after: seq<Action>)
    requires OneFile(log)
    requires x.Opened? ==> OutputOf(log).Untouched?
    requires x.Recorded? ==> OutputOf(log).InUse?
    requires x.Closed? ==> !OutputOf(log).Untouched?
    requires forall k :: 0 <= k < |before| ==> Quiet(before[k])
    requires forall k :: 0 <= k < |after| ==> Quiet(after[k])
    ensures var all := log + (before + [x] + after);
            && OneFile(all)
            && OutputOf(all) ==
               if x.Opened? then InUse(x.ok) else if x.Closed? then Shut(OutputOf(log).ok) else OutputOf(log)
  {
    hide OneFile, OutputOf;
    QuietAdded(log, before);
    OutputOneMore(log + before, x);
    QuietAdded(log + before + [x], after);
    assert log + (before + [x] + after) == log + before + [x] + after;
  }

  lemma OutlineOutput(s: Call, t: Call, o: Outline)
    requires WellFormed(s) && Follows(s, t, o) && Control(s) && OutputInOrder(s)
    ensures OutputInOrder(t)
  {
    hide OneFile, OutputOf;
    var added := Added(s.cseq, o);
    if o.Accepted? {
      OneAdded(s.log, [PolledSip, Answered(200, o.auth)], Opened(o.fileOk), [Acked(o.text)]);
      assert added == [PolledSip, Answered(200, o.auth)] + [Opened(o.fileOk)] + [Acked(o.text)];
    } else if o.Parted? {
      OneAdded(s.log, [], Closed, [SentOk(o.text, o.ok)]);
      assert added == [] + [Closed] + [SentOk(o.text, o.ok)];
    } else if o.Talked? && |o.voice| == 1 {
      OneAdded(s.log, [PolledRtp], o.voice[0], [PolledSip]);
      assert o.voice == [o.voice[0]];
    } else {
      QuietAdded(s.log, added);
    }
  }

  lemma {:induction false} OpenIsInUse(log: seq<Action>)
    requires OneFile(log)
    ensures FileOpen(log) <==> OutputOf(log) == InUse(true)
    decreases |log|
  {
    if log != [] {
      OpenIsInUse(log[..|log| - 1]);
    }
  }

  /** What the log says of the file as a whole. */
  lemma {:induction false} OutputIs(log: seq<Action>)
    requires OneFile(log)
    ensures Opened(true) in log <==> !OutputOf(log).Untouched? && OutputOf(log).ok
    ensures OutputOf(log).Shut? <==> exists k :: 0 <= k < |log| && log[k].Closed?
    decreases |log|
  {
    if log != [] {
      var front, x := log[..|log| - 1], log[|log| - 1];
      OutputIs(front);
      assert log == front + [x];
      assert x.Closed? ==> log[|log| - 1].Closed?;
      assert forall k :: 0 <= k < |front| ==> log[k] == front[k];
    }
  }

  lemma {:induction false} OneFileBefore(log: seq<Action>, k: nat)
    requires OneFile(log) && k <= |log|
    ensures OneFile(log[..k])
    ensures !OutputOf(log[..k]).Untouched? ==> !OutputOf(log).Untouched? && OutputOf(log).ok == OutputOf(log[..k]).ok
    decreases |log|
  {
    hide OutputOf;
    if k == |log| {
      assert log[..k] == log;
    } else {
      var front, x := log[..|log| - 1], log[|log| - 1];
      OneFileBefore(front, k);
      assert front[..k] == log[..k];
      OutputOneMore(front, x);
      assert front + [x] == log;
    }
  }

  lemma UseBefore(log: seq<Action>, k: nat)
    requires OneFile(log) && k < |log|
    ensures log[k].Recorded? ==> OutputOf(log[..k]).InUse?
    ensures log[k].Closed? ==> !OutputOf(log[..k]).Untouched?
  {
    hide OutputOf;
    OneFileBefore(log, k + 1);
    assert log[..k + 1][..k] == log[..k];
  }

  /** A call of fputc finds the file open exactly when fopen succeeded, and a call of fclose exactly
      when, besides, it is the first one. */
  lemma FileIsFound(log: seq<Action>, k: nat)
    requires OneFile(log) && k < |log|
    ensures log[k].Recorded? ==> (FileOpen(log[..k]) <==> Opened(true) in log)
    ensures log[k].Closed? ==>
              (FileOpen(log[..k]) <==> Opened(true) in log && forall j :: 0 <= j < k ==> !log[j].Closed?)
  {
    hide OutputOf, FileOpen, OneFile;
    UseBefore(log, k);
    OneFileBefore(log, k);
    OpenIsInUse(log[..k]);
    OutputIs(log);
    OutputIs(log[..k]);
    assert forall j :: 0 <= j < k ==> log[..k][j] == log[j];
  }

  // ---- Counting actions: answers, challenges, and the output file ----

  predicate IsChallenge(x: Action) { x.Answered? && x.code == 401 }

  predicate IsAcceptance(x: Action) { x.Answered? && x.code == 200 }

  predicate IsRefusal(x: Action) { x.Answered? && Refusal(x.code) }

  predicate IsClosed(x: Action) { x.Closed? }

  predicate IsRecorded(x: Action) { x.Recorded? }

  predicate IsFailedOk(x: Action) { x.SentOk? && !x.ok }

  function Hit(l: seq<Action>, k: nat, p: Action -> bool): nat {
    if k < |l| && p(l[k]) then 1 else 0
  }

  lemma {:induction false} CountSmall(l: seq<Action>, p: Action -> bool)
    requires |l| <= 4
    ensures Count(l, p) == Hit(l, 0, p) + Hit(l, 1, p) + Hit(l, 2, p) + Hit(l, 3, p)
  {
    if l != [] {
      CountSmall(l[..|l| - 1], p);
    }
  }

  /** How often an action that belongs to the signalling occurs in a step. */
  function Hits(cseq: int, o: Outline, p: Action -> bool): nat {
    if o.Talked? then 0
    else
      var l := Added(cseq, o);
      Hit(l, 0, p) + Hit(l, 1, p) + Hit(l, 2, p) + Hit(l, 3, p)
  }

  lemma CountAdded(s: Call, t: Call, o: Outline, p: Action -> bool)
    requires WellFormed(s) && Follows(s, t, o)
    requires forall x: Action :: OfTalk(x) ==> !p(x)
    ensures Count(t.log, p) == Count(s.log, p) + Hits(s.cseq, o, p)
  {
    AddedInStep(s, t, o);
    hide Follows, Added, Count;
    CountConcat(s.log, Added(s.cseq, o), p);
    CountSmall(Added(s.cseq, o), p);
  }

  /** The actions of an established call. */
  predicate OfTalk(x: Action) {
    x.PolledRtp? || x.PolledSip? || x.SentRtp? || x.Recorded?
  }

  lemma AddedInStep(s: Call, t: Call, o: Outline)
    requires WellFormed(s) && Follows(s, t, o)
    ensures var added := Added(s.cseq, o);
            && t.log == s.log + added && |added| <= 4
            && (o.Talked? ==> forall k :: 0 <= k < |added| ==> OfTalk(added[k]))
  {
    if o.Talked? {
      assert |o.voice| <= 1 && forall k :: 0 <= k < |o.voice| ==> OfTalk(o.voice[k]);
    }
  }

  /** The sequence number has gone up once for every challenge. */
  predicate CseqCounts(s: Call, first: int) {
    s.cseq == first + Count(s.log, IsChallenge)
  }

  lemma OutlineCseq(s: Call, t: Call, o: Outline, first: int)
    requires WellFormed(s) && Follows(s, t, o) && CseqCounts(s, first)
    ensures CseqCounts(t, first)
  {
    CountAdded(s, t, o, IsChallenge);
    ChallengeHits(s, t, o);
    hide Follows, Count, Hits;
  }

  lemma ChallengeHits(s: Call, t: Call, o: Outline)
    requires WellFormed(s) && Follows(s, t, o)
    ensures Hits(s.cseq, o, IsChallenge) == if o.Challenge? then 1 else 0
    ensures t.cseq == s.cseq + if o.Challenge? then 1 else 0
  {
    hide VoiceFollows;
  }

  /** Who was accepted, who was refused, and the return code. */
  predicate AnswersCount(s: Call) {
    var accepted, refused := Count(s.log, IsAcceptance), Count(s.log, IsRefusal);
    && accepted + refused == (if s.sip == Start || s.sip == InviteSent then 0 else 1)
    && (s.sip != ByeCompleted ==> refused == 0)
    && (s.v != VInit ==> s.returnCode == if refused > 0 then 2 else if s.fsize > WAV_HEADER then 0 else 1)
  }

  lemma OutlineAnswers(s: Call, t: Call, o: Outline)
    requires WellFormed(s) && Follows(s, t, o) && Control(s) && AnswersCount(s)
    ensures AnswersCount(t)
  {
    hide Follows, Count, Control;
    AnswersAdded(s, t, o);
    AnswerFields(s, t, o);
  }

  lemma AnswersAdded(s: Call, t: Call, o: Outline)
    requires WellFormed(s) && Follows(s, t, o) && Control(s)
    ensures Count(t.log, IsAcceptance) == Count(s.log, IsAcceptance) + if o.Accepted? then 1 else 0
    ensures Count(t.log, IsRefusal) == Count(s.log, IsRefusal) + if o.Refused? then 1 else 0
  {
    hide Count, Hits;
    CountAdded(s, t, o, IsAcceptance);
    CountAdded(s, t, o, IsRefusal);
    AnswerFields(s, t, o);
    AnswerHits(s.cseq, o);
  }

  /** What a step does to the fields that the answers are counted against. */
  lemma AnswerFields(s: Call, t: Call, o: Outline)
    requires WellFormed(s) && Follows(s, t, o) && Control(s)
    ensures o.Loaded? ==>
              && s.sip == t.sip == Start && s.v == VInit && t.v == VStart
              && t.returnCode == if t.fsize > WAV_HEADER then 0 else 1
    ensures o.Accepted? ==> s.v == t.v == VStart && s.sip == InviteSent && t.sip == InviteCompleted
    ensures o.Refused? ==> s.v == t.v == VStart && s.sip == InviteSent && t.sip == ByeCompleted && t.returnCode == 2
    ensures !o.Loaded? ==> t.fsize == s.fsize && s.v != VInit && t.v != VInit
    ensures !o.Loaded? && !o.Refused? ==> t.returnCode == s.returnCode
    ensures !o.Accepted? && !o.Refused? ==>
              (t.sip == Start || t.sip == InviteSent <==> s.sip == Start || s.sip == InviteSent)
    ensures t.sip == ByeCompleted ==> o.Refused? || s.sip == ByeSent || s.sip == ByeCompleted
    ensures s.sip == ByeCompleted ==> t.sip == ByeCompleted
    ensures o.Waits? ==> Provisional(o.code)
    ensures o.Refused? ==> Refusal(o.code)
  {
    hide VoiceFollows;
  }

  /** An accepting or a refusing answer is in the step that acts on it. */
  lemma AnswerHits(cseq: int, o: Outline)
    requires o.Waits? ==> Provisional(o.code)
    requires o.Refused? ==> Refusal(o.code)
    ensures Hits(cseq, o, IsAcceptance) == if o.Accepted? then 1 else 0
    ensures Hits(cseq, o, IsRefusal) == if o.Refused? then 1 else 0
  {
  }

  /** The output file is closed once for every attempt to answer the BYE. */
  predicate ClosesCount(s: Call) {
    var closed, failed := Count(s.log, IsClosed), Count(s.log, IsFailedOk);
    match s.sip
    case ByeSent => closed == failed
    case ByeCompleted => closed == if Count(s.log, IsAcceptance) > 0 then failed + 1 else 0
    case _ => closed == 0 && failed == 0
  }

  lemma OutlineCloses(s: Call, t: Call, o: Outline)
    requires WellFormed(s) && Follows(s, t, o) && Control(s) && AnswersCount(s) && ClosesCount(s)
    ensures ClosesCount(t)
  {
    hide Follows, Count, Control;
    ClosesAdded(s, t, o);
    CloseFields(s, t, o);
  }

  lemma ClosesAdded(s: Call, t: Call, o: Outline)
    requires WellFormed(s) && Follows(s, t, o) && Control(s)
    ensures Count(t.log, IsAcceptance) == Count(s.log, IsAcceptance) + if o.Accepted? then 1 else 0
    ensures Count(t.log, IsClosed) == Count(s.log, IsClosed) + if o.Parted? then 1 else 0
    ensures Count(t.log, IsFailedOk) == Count(s.log, IsFailedOk) + if o.Parted? && !o.ok then 1 else 0
  {
    hide Count, Hits;
    AnswersAdded(s, t, o);
    CountAdded(s, t, o, IsClosed);
    CountAdded(s, t, o, IsFailedOk);
    AnswerFields(s, t, o);
    CloseHits(s.cseq, o);
  }

  /** What a step does to the state that the closes are counted against. */
  lemma CloseFields(s: Call, t: Call, o: Outline)
    requires WellFormed(s) && Follows(s, t, o) && Control(s)
    ensures o.Parted? ==> s.sip == ByeSent && t.sip == if o.ok then ByeCompleted else ByeSent
    ensures o.Accepted? ==> s.sip == InviteSent && t.sip == InviteCompleted
    ensures o.Refused? ==> s.sip == InviteSent && t.sip == ByeCompleted
    ensures !o.Parted? && !o.Accepted? && !o.Refused? ==>
              || t.sip == s.sip || (s.sip == Start && t.sip == InviteSent)
              || (s.sip == InviteCompleted && t.sip == ByeSent)
  {
    hide VoiceFollows;
  }

  lemma CloseHits(cseq: int, o: Outline)
    requires o.Waits? ==> Provisional(o.code)
    requires o.Refused? ==> Refusal(o.code)
    ensures Hits(cseq, o, IsClosed) == if o.Parted? then 1 else 0
    ensures Hits(cseq, o, IsFailedOk) == if o.Parted? && !o.ok then 1 else 0
  {
  }

  // ---- The sequence numbers of the INVITEs ----

  predicate OkInvite(x: Action) {
    x.Invited? && x.ok
  }

  predicate Ascending(log: seq<Action>) {
    forall j, k :: 0 <= j < k < |log| && OkInvite(log[j]) && OkInvite(log[k]) ==> log[j].cseq < log[k].cseq
  }

  predicate InvitesUpTo(log: seq<Action>, n: int) {
    forall k :: 0 <= k < |log| && OkInvite(log[k]) ==> log[k].cseq <= n
  }

  predicate InvitesInOrder(s: Call) {
    && Ascending(s.log) && InvitesUpTo(s.log, s.cseq)
    && (s.sip == Start ==> forall k :: 0 <= k < |s.log| ==> !OkInvite(s.log[k]))
  }

  lemma OutlineInvites(s: Call, t: Call, o: Outline)
    requires WellFormed(s) && Follows(s, t, o) && Control(s) && InvitesInOrder(s)
    ensures InvitesInOrder(t)
  {
    var added := Added(s.cseq, o);
    InvitesInStep(s, t, o);
    hide Follows, Added;
    if added != [] && OkInvite(added[|added| - 1]) {
      assert t.log[|t.log| - 1] == added[|added| - 1];
    }
  }

  /** A step sends at most one INVITE, as its last action and with the number it leaves. */
  lemma InvitesInStep(s: Call, t: Call, o: Outline)
    requires WellFormed(s) && Follows(s, t, o) && Control(s)
    ensures var added := Added(s.cseq, o);
            && t.log == s.log + added
            && (forall k :: 0 <= k < |added| && OkInvite(added[k]) ==>
                  k == |added| - 1 && added[k].cseq == t.cseq && t.sip != Start && (s.sip == Start || t.cseq > s.cseq))
    ensures s.cseq <= t.cseq && (t.sip == Start ==> s.sip == Start)
  {
    hide VoiceFollows;
    var added := Added(s.cseq, o);
    if o.Talked? {
      AddedInStep(s, t, o);
      assert forall k :: 0 <= k < |added| ==> OfTalk(added[k]);
    }
  }

  // ---- The voice: what is sent and what is recorded ----

  predicate IsPacket(x: Action) { x.SentRtp? }

  function Payload(x: Action): seq<Byte> {
    if x.SentRtp? && |x.packet| >= 12 then x.packet[12..] else []
  }

  /** The payloads of the packets sent, in order. */
  function Payloads(log: seq<Action>): seq<Byte> {
    if log == [] then [] else Payloads(log[..|log| - 1]) + Payload(log[|log| - 1])
  }

  function Window(x: Action): seq<Byte> {
    if x.Recorded? then x.window else []
  }

  /** The bytes written to the output file. */
  function Windows(log: seq<Action>): seq<Byte> {
    if log == [] then [] else Windows(log[..|log| - 1]) + Window(log[|log| - 1])
  }

  lemma {:induction false} PayloadsConcat(x: seq<Action>, y: seq<Action>)
    ensures Payloads(x + y) == Payloads(x) + Payloads(y)
    decreases |y|
  {
    hide Payload;
    if y == [] {
      assert x + y == x;
    } else {
      PayloadsConcat(x, y[..|y| - 1]);
      assert (x + y)[..|x + y| - 1] == x + y[..|y| - 1];
    }
  }

  lemma {:induction false} WindowsConcat(x: seq<Action>, y: seq<Action>)
    ensures Windows(x + y) == Windows(x) + Windows(y)
    decreases |y|
  {
    hide Window;
    if y == [] {
      assert x + y == x;
    } else {
      WindowsConcat(x, y[..|y| - 1]);
      assert (x + y)[..|x + y| - 1] == x + y[..|y| - 1];
    }
  }

  lemma VoiceConcat(x: seq<Action>, y: seq<Action>)
    ensures Payloads(x + y) == Payloads(x) + Payloads(y) && Windows(x + y) == Windows(x) + Windows(y)
    ensures Count(x + y, IsPacket) == Count(x, IsPacket) + Count(y, IsPacket)
  {
    PayloadsConcat(x, y);
    WindowsConcat(x, y);
    CountConcat(x, y, IsPacket);
  }

  lemma {:induction false} NoVoice(l: seq<Action>)
    requires forall k :: 0 <= k < |l| ==> !l[k].SentRtp? && !l[k].Recorded?
    ensures Payloads(l) == [] && Windows(l) == [] && Count(l, IsPacket) == 0
  {
    if l != [] {
      NoVoice(l[..|l| - 1]);
    }
  }

  lemma OneVoice(x: Action)
    ensures var l := [PolledRtp] + [x] + [PolledSip];
            && Payloads(l) == Payload(x) && Windows(l) == Window(x)
            && Count(l, IsPacket) == if x.SentRtp? then 1 else 0
  {
    VoiceConcat([PolledRtp] + [x], [PolledSip]);
    VoiceConcat([PolledRtp], [x]);
    NoVoice([PolledRtp]);
    NoVoice([PolledSip]);
    assert [x][..0] == [];
    assert Payloads([x]) == Payloads([]) + Payload(x) && Windows([x]) == Windows([]) + Window(x);
    hide Payload, Window;
  }

  /** What a step adds to the voice. */
  lemma VoiceAdded(s: Call, t: Call, o: Outline)
    requires WellFormed(s) && Follows(s, t, o)
    ensures var x := if o.Talked? && |o.voice| == 1 then Some(o.voice[0]) else None;
            && Payloads(t.log) == Payloads(s.log) + (if x.Some? then Payload(x.value) else [])
            && Windows(t.log) == Windows(s.log) + (if x.Some? then Window(x.value) else [])
            && Count(t.log, IsPacket) == Count(s.log, IsPacket) + if x.Some? && x.value.SentRtp? then 1 else 0
  {
    hide Payloads, Windows, Count;
    var added := Added(s.cseq, o);
    VoiceConcat(s.log, added);
    if o.Talked? && |o.voice| == 1 {
      OneVoice(o.voice[0]);
      assert o.voice == [o.voice[0]];
    } else {
      NoVoice(added);
    }
  }

  /** While the file is being sent, whole payloads of it have gone out; afterwards all of it, with
      zeros at the end of the last packet. */
  predicate Chunks(fsize: nat, filebuf: seq<Byte>, sent: bool, bufPoint: nat, packets: nat,
                   payloads: seq<Byte>, windows: seq<Byte>)
    requires fsize < |filebuf|
  {
    if !sent then
      bufPoint == 160 * packets < fsize && payloads == filebuf[1..bufPoint + 1] && windows == []
    else
      && 160 * (packets - 1) < fsize <= 160 * packets
      && payloads == filebuf[1..fsize + 1] + Zeros(160 * packets - fsize)
  }

  predicate ChunksInOrder(s: Call)
    requires WellFormed(s)
  {
    if s.v == VInit then s.log == [] && s.bufPoint == 0
    else s.fsize > 0 ==>
      Chunks(s.fsize, s.filebuf, s.messTrans, s.bufPoint, Count(s.log, IsPacket), Payloads(s.log), Windows(s.log))
  }

  lemma NextChunk(fsize: nat, filebuf: seq<Byte>, bufPoint: nat, packets: nat, payloads: seq<Byte>, payload: seq<Byte>)
    requires fsize < |filebuf| && Chunks(fsize, filebuf, false, bufPoint, packets, payloads, [])
    requires var n := ChunkSize(bufPoint, fsize);
             payload == (if n == 0 then [] else filebuf[bufPoint + 1..bufPoint + 1 + n]) + Zeros(160 - n)
    ensures var n := ChunkSize(bufPoint, fsize);
            Chunks(fsize, filebuf, bufPoint + n == fsize, bufPoint + n, packets + 1, payloads + payload, [])
  {
    var n := ChunkSize(bufPoint, fsize);
    assert filebuf[1..bufPoint + 1] + filebuf[bufPoint + 1..bufPoint + 1 + n] == filebuf[1..bufPoint + 1 + n];
    assert Zeros(0) == [];
  }

  lemma OutlineChunks(s: Call, t: Call, o: Outline)
    requires WellFormed(s) && WellFormed(t) && Follows(s, t, o) && Control(s) && ChunksInOrder(s)
    ensures ChunksInOrder(t)
  {
    hide ChunksInOrder, VoiceFollows, Count, Payloads, Windows;
    if o.Loaded? {
      assert t.log == [] && t.bufPoint == 0 by { ChunksAtStart(s); }
      NothingSent(t);
    } else if o.Talked? && |o.voice| == 1 {
      VoiceChunks(s, t, o);
    } else {
      VoiceAdded(s, t, o);
      assert t.messTrans == s.messTrans && t.bufPoint == s.bufPoint by { QuietVoice(s, t, o); }
      ChunksStay(s, t);
    }
  }

  lemma QuietVoice(s: Call, t: Call, o: Outline)
    requires WellFormed(s) && Follows(s, t, o) && !o.Loaded? && !(o.Talked? && |o.voice| == 1)
    ensures t.messTrans == s.messTrans && t.bufPoint == s.bufPoint
  {
  }

  lemma ChunksAtStart(s: Call)
    requires WellFormed(s) && s.v == VInit && ChunksInOrder(s)
    ensures s.log == [] && s.bufPoint == 0
  {
  }

  lemma VoiceChunks(s: Call, t: Call, o: Outline)
    requires WellFormed(s) && WellFormed(t) && Follows(s, t, o) && ChunksInOrder(s) && o.Talked? && |o.voice| == 1
    ensures ChunksInOrder(t)
  {
    hide Follows, Payloads, Windows, Count, Chunks, VoiceFollows;
    var x := o.voice[0];
    VoiceAdded(s, t, o);
    TalkedFacts(s, t, o);
    if s.fsize > 0 {
      WindowsEmpty(s);
      assert o.voice == [x];
      ChunksAfter(s, t, x);
    }
  }

  lemma TalkedFacts(s: Call, t: Call, o: Outline)
    requires WellFormed(s) && Follows(s, t, o) && o.Talked?
    ensures VoiceFollows(s, t, o.voice) && s.v == t.v == VStart && t.fsize == s.fsize && t.filebuf == s.filebuf
  {
    hide VoiceFollows;
  }

  lemma ChunksAfter(s: Call, t: Call, x: Action)
    requires WellFormed(s) && WellFormed(t) && VoiceFollows(s, t, [x]) && s.v == t.v == VStart
    requires t.fsize == s.fsize > 0 && t.filebuf == s.filebuf
    requires Payloads(t.log) == Payloads(s.log) + Payload(x) && Windows(t.log) == Windows(s.log) + Window(x)
    requires Count(t.log, IsPacket) == Count(s.log, IsPacket) + if x.SentRtp? then 1 else 0
    requires ChunksInOrder(s) && (!s.messTrans ==> Windows(s.log) == [])
    ensures ChunksInOrder(t)
  {
    hide Payloads, Windows, Count, ChunkSize, Chunks, VoiceFollows, Payload;
    VoiceActionFacts(s, t, x);
    if x.SentRtp? {
      NextChunk(s.fsize, s.filebuf, s.bufPoint, Count(s.log, IsPacket), Payloads(s.log), Payload(x));
    } else {
      SentStays(s, t);
    }
  }

  lemma VoiceActionFacts(s: Call, t: Call, x: Action)
    requires WellFormed(s) && VoiceFollows(s, t, [x])
    ensures x.SentRtp? <==> !s.messTrans
    ensures !s.messTrans ==>
              var n := ChunkSize(s.bufPoint, s.fsize);
              && t.bufPoint == s.bufPoint + n && t.messTrans == (s.bufPoint + n == s.fsize)
              && Payload(x) == (if n == 0 then [] else s.filebuf[s.bufPoint + 1..s.bufPoint + 1 + n]) + Zeros(160 - n)
              && Window(x) == []
    ensures s.messTrans ==> t.messTrans && Payload(x) == []
  {
    hide ChunkSize;
  }

  lemma ChunksStay(s: Call, t: Call)
    requires WellFormed(s) && WellFormed(t) && ChunksInOrder(s)
    requires s.v == VInit <==> t.v == VInit
    requires t.fsize == s.fsize && t.filebuf == s.filebuf && t.messTrans == s.messTrans && t.bufPoint == s.bufPoint
    requires t.v == VInit ==> t.log == s.log
    requires Payloads(t.log) == Payloads(s.log) && Windows(t.log) == Windows(s.log)
    requires Count(t.log, IsPacket) == Count(s.log, IsPacket)
    ensures ChunksInOrder(t)
  {
    hide Payloads, Windows, Count, Chunks;
  }

  lemma NothingSent(t: Call)
    requires WellFormed(t) && t.log == [] && t.bufPoint == 0 && !t.messTrans
    ensures ChunksInOrder(t)
  {
  }

  lemma WindowsEmpty(s: Call)
    requires WellFormed(s) && s.v != VInit && s.fsize > 0 && ChunksInOrder(s)
    ensures !s.messTrans ==> Windows(s.log) == []
  {
  }

  /** Recording changes nothing in what was sent. */
  lemma SentStays(s: Call, t: Call)
    requires WellFormed(s) && WellFormed(t) && s.v != VInit && t.v != VInit && s.fsize > 0 && ChunksInOrder(s)
    requires s.messTrans && t.messTrans && t.fsize == s.fsize && t.filebuf == s.filebuf
    requires Payloads(t.log) == Payloads(s.log) && Count(t.log, IsPacket) == Count(s.log, IsPacket)
    ensures ChunksInOrder(t)
  {
    hide Payloads, Windows, Count;
  }

  // ---- Whole runs ----

  /** Everything that every step keeps; `first` is the sequence number the call started with. */
  predicate Invariant(s: Call, first: int)
    requires WellFormed(s)
  {
    && Control(s) && SocketsInOrder(s) && OutputInOrder(s) && CseqCounts(s, first)
    && AnswersCount(s) && ClosesCount(s) && InvitesInOrder(s) && ChunksInOrder(s)
  }

  lemma InitialInvariant(s: Call)
    requires Initial(s)
    ensures Invariant(s, s.cseq)
  {
  }

  lemma OutlineInvariant(s: Call, t: Call, o: Outline, first: int)
    requires WellFormed(s) && WellFormed(t) && Follows(s, t, o) && Invariant(s, first)
    ensures Invariant(t, first)
  {
    OutlineMovesForward(s, t, o);
    OutlineSockets(s, t, o);
    OutlineOutput(s, t, o);
    OutlineCseq(s, t, o, first);
    OutlineAnswers(s, t, o);
    OutlineCloses(s, t, o);
    OutlineInvites(s, t, o);
    OutlineChunks(s, t, o);
    hide Follows, Control, SocketsInOrder, OutputInOrder, CseqCounts, AnswersCount, ClosesCount;
    hide InvitesInOrder, ChunksInOrder;
  }

  lemma {:induction false} RunInvariant(a: Account, s: Call, inputs: seq<Input>)
    requires Initial(s) && Legal(a, s, inputs)
    ensures Invariant(Run(a, s, inputs), s.cseq)
    decreases |inputs|
  {
    hide Step, Invariant, Follows, Defined;
    if inputs == [] {
      InitialInvariant(s);
    } else {
      var front, last := inputs[..|inputs| - 1], inputs[|inputs| - 1];
      RunInvariant(a, s, front);
      var o := StepOutline(a, Run(a, s, front), last);
      OutlineInvariant(Run(a, s, front), Run(a, s, inputs), o, s.cseq);
    }
  }

  /** Control never moves backwards: later in a run the phase is at least as far, and it is the same
      only if the control state is. */
  lemma {:induction false} RunMovesForward(a: Account, s: Call, inputs: seq<Input>, m: nat)
    requires Initial(s) && Legal(a, s, inputs) && m <= |inputs|
    ensures Legal(a, s, inputs[..m])
    ensures var u, t := Run(a, s, inputs[..m]), Run(a, s, inputs);
            && Phase(u) <= Phase(t) <= 8
            && (Phase(u) == Phase(t) <==> u.v == t.v && u.sip == t.sip && u.callEnd == t.callEnd)
    decreases |inputs|
  {
    hide Step, Phase, Control, Defined;
    if m == |inputs| {
      assert inputs[..m] == inputs;
    } else {
      var front := inputs[..|inputs| - 1];
      RunMovesForward(a, s, front, m);
      assert front[..m] == inputs[..m];
      RunInvariant(a, s, front);
      StepMovesForward(a, Run(a, s, front), inputs[|inputs| - 1]);
      PhaseOfControl(Run(a, s, inputs[..m]), Run(a, s, inputs));
    }
  }

  lemma PhaseOfControl(u: Call, t: Call)
    ensures u.v == t.v && u.sip == t.sip && u.callEnd == t.callEnd ==> Phase(u) == Phase(t)
  {
  }

  predicate UsesSocket(x: Action) {
    x.Invited? || x.Acked? || x.SentOk? || x.PolledSip? || x.PolledRtp? || x.SentRtp?
  }

  /** The main program leaves its session only after the session has ended, which closes both
      sockets once; nothing is sent or received on them afterwards. */
  lemma SocketsClosedOnce(a: Account, s: Call, inputs: seq<Input>)
    requires Initial(s) && Legal(a, s, inputs)
    ensures var t := Run(a, s, inputs);
            && (t.v == VClose || t.v == VEnd ==> t.callEnd)
            && (!t.callEnd ==> NoSocketClosed(t.log))
            && (t.callEnd ==>
                  && |t.log| >= 2 && t.log[|t.log| - 2..] == [ClosedSip, ClosedRtp]
                  && NoSocketClosed(t.log[..|t.log| - 2]))
    ensures var log := Run(a, s, inputs).log;
            forall j, k :: 0 <= j < |log| && 0 <= k < |log| && ClosesSocket(log[j]) && UsesSocket(log[k]) ==> k < j
  {
    hide Run, Legal, NoSocketClosed;
    RunInvariant(a, s, inputs);
    SocketsUsedBefore(Run(a, s, inputs));
  }

  lemma SocketsUsedBefore(t: Call)
    requires SocketsInOrder(t)
    ensures var log := t.log;
            forall j, k :: 0 <= j < |log| && 0 <= k < |log| && ClosesSocket(log[j]) && UsesSocket(log[k]) ==> k < j
  {
    if t.callEnd {
      var n := |t.log| - 2;
      assert t.log[n..][0] == t.log[n] && t.log[n..][1] == t.log[n + 1];
      assert forall j :: 0 <= j < n ==> t.log[j] == t.log[..n][j];
    }
  }

  predicate FoundOpen(log: seq<Action>, k: nat)
    requires k < |log|
  {
    FileOpen(log[..k])
  }

  /** Every call of fputc in a run finds the output file open if and only if fopen succeeded or
      nothing is written; every call of fclose does if and only if fopen succeeded and it is called
      once, or it is not called. It is called once for every attempt to answer the BYE, so once just
      when none of those sends fails. */
  lemma OutputFile(a: Account, s: Call, inputs: seq<Input>)
    requires Initial(s) && Legal(a, s, inputs)
    ensures var t := Run(a, s, inputs);
            && (t.v == VEnd && Count(t.log, IsAcceptance) > 0 ==>
                  && Count(t.log, IsClosed) == 1 + Count(t.log, IsFailedOk)
                  && (Count(t.log, IsClosed) == 1 <==> Count(t.log, IsFailedOk) == 0))
            && (t.v == VEnd && Count(t.log, IsAcceptance) == 0 ==> Count(t.log, IsClosed) == 0)
    ensures var log := Run(a, s, inputs).log;
            && ((forall k :: 0 <= k < |log| && log[k].Recorded? ==> FoundOpen(log, k))
                <==> Opened(true) in log || Count(log, IsRecorded) == 0)
            && ((forall k :: 0 <= k < |log| && log[k].Closed? ==> FoundOpen(log, k))
                <==> (Opened(true) in log && Count(log, IsClosed) == 1) || Count(log, IsClosed) == 0)
  {
    hide Run, Legal, Count, OneFile, FoundOpen;
    RunInvariant(a, s, inputs);
    WritesFind(Run(a, s, inputs).log);
    ClosesFind(Run(a, s, inputs).log);
  }

  lemma WritesFind(log: seq<Action>)
    requires OneFile(log)
    ensures (forall k :: 0 <= k < |log| && log[k].Recorded? ==> FoundOpen(log, k))
       <==> Opened(true) in log || Count(log, IsRecorded) == 0
  {
    hide OneFile, FileOpen, Count;
    forall k | 0 <= k < |log| && log[k].Recorded?
      ensures FoundOpen(log, k) <==> Opened(true) in log
    {
      FileIsFound(log, k);
    }
    CountsNone(log, IsRecorded);
  }

  lemma ClosesFind(log: seq<Action>)
    requires OneFile(log)
    ensures (forall k :: 0 <= k < |log| && log[k].Closed? ==> FoundOpen(log, k))
       <==> (Opened(true) in log && Count(log, IsClosed) == 1) || Count(log, IsClosed) == 0
  {
    hide OneFile, FileOpen, Count;
    forall k | 0 <= k < |log| && log[k].Closed?
      ensures FoundOpen(log, k) <==> Opened(true) in log && forall j :: 0 <= j < k ==> !log[j].Closed?
    {
      FileIsFound(log, k);
    }
    CountsNone(log, IsClosed);
    CountsOne(log, IsClosed);
  }

  lemma {:induction false} CountsNone(log: seq<Action>, p: Action -> bool)
    ensures Count(log, p) == 0 <==> forall k :: 0 <= k < |log| ==> !p(log[k])
    decreases |log|
  {
    if log != [] {
      CountsNone(log[..|log| - 1], p);
    }
  }

  lemma {:induction false} CountsOne(log: seq<Action>, p: Action -> bool)
    ensures Count(log, p) <= 1 <==> forall j, k :: 0 <= j < k < |log| && p(log[k]) ==> !p(log[j])
    decreases |log|
  {
    if log != [] {
      CountsOne(log[..|log| - 1], p);
      CountsNone(log[..|log| - 1], p);
    }
  }

  /** When the call is over it was either accepted or refused, once; the return code is 2 exactly
      when it was refused, 0 exactly when it was accepted with a file longer than a WAV header of 54
      bytes, and 1 exactly when it was accepted with a shorter one. Refused means answered with another
      code than 100, 180, 200 and 401. */
  lemma ReturnCode(a: Account, s: Call, inputs: seq<Input>)
    requires Initial(s) && Legal(a, s, inputs) && Run(a, s, inputs).v == VEnd
    ensures var t := Run(a, s, inputs);
            var accepted, refused := Count(t.log, IsAcceptance), Count(t.log, IsRefusal);
            && accepted + refused == 1
            && (t.returnCode == 2 <==> refused == 1)
            && (t.returnCode == 0 <==> accepted == 1 && t.fsize > 54)
            && (t.returnCode == 1 <==> accepted == 1 && t.fsize <= 54)
    ensures var t := Run(a, s, inputs);
            && (t.returnCode == 2 <==>
                exists k :: 0 <= k < |t.log| && t.log[k].Answered? && t.log[k].code !in {100, 180, 200, 401})
            && (t.returnCode == 0 <==>
                (exists k :: 0 <= k < |t.log| && t.log[k].Answered? && t.log[k].code == 200) && t.fsize > 54)
  {
    RunInvariant(a, s, inputs);
    hide Run, Legal, Count, Initial, Refusal;
    var log := Run(a, s, inputs).log;
    CountsNone(log, IsRefusal);
    CountsNone(log, IsAcceptance);
    forall k | 0 <= k < |log|
      ensures IsRefusal(log[k]) <==> log[k].Answered? && log[k].code !in {100, 180, 200, 401}
    {
      RefusalIs(log[k]);
    }
  }

  lemma RefusalIs(x: Action)
    ensures IsRefusal(x) <==> x.Answered? && x.code !in {100, 180, 200, 401}
  {
  }

  /** The sequence number counts the challenges, so the INVITEs that were sent carry strictly
      increasing numbers, none above the present one. */
  lemma SequenceNumbers(a: Account, s: Call, inputs: seq<Input>)
    requires Initial(s) && Legal(a, s, inputs)
    ensures var t := Run(a, s, inputs);
            && t.cseq == s.cseq + Count(t.log, IsChallenge)
            && Ascending(t.log) && InvitesUpTo(t.log, t.cseq)
  {
    RunInvariant(a, s, inputs);
    hide Run, Count, Ascending, InvitesUpTo;
  }

  /** The file that a run plays is the one it was given at its first step. */
  lemma {:induction false} FileIsKept(a: Account, s: Call, inputs: seq<Input>)
    requires Initial(s) && Legal(a, s, inputs) && inputs != []
    ensures var t, content := Run(a, s, inputs), inputs[0].content;
            && t.v != VInit && t.fsize == |content| < FILEBUFSIZE
            && (|content| > 54 ==> t.filebuf[..|content| + 1] == content + [0xFF])
    decreases |inputs|
  {
    hide Step, Defined;
    var front, last := inputs[..|inputs| - 1], inputs[|inputs| - 1];
    if front == [] {
      FirstStep(a, s, last);
    } else {
      FileIsKept(a, s, front);
      var o := StepOutline(a, Run(a, s, front), last);
      OutlineKeepsFile(Run(a, s, front), Run(a, s, inputs), o);
    }
  }

  lemma FirstStep(a: Account, s: Call, i: Input)
    requires Initial(s) && Defined(a, s, i)
    ensures var t := Step(a, s, i);
            && t.v != VInit && t.fsize == |i.content| < FILEBUFSIZE
            && (|i.content| > WAV_HEADER ==> t.filebuf[..|i.content| + 1] == i.content + [0xFF])
  {
    hide Session;
  }

  lemma OutlineKeepsFile(s: Call, t: Call, o: Outline)
    requires WellFormed(s) && Follows(s, t, o) && s.v != VInit
    ensures t.v != VInit && t.fsize == s.fsize && t.filebuf == s.filebuf
  {
    hide VoiceFollows;
  }

  /** What is heard of a file longer than a WAV header: the file from its second byte on, the
      end-of-file mark, and zeros up to a whole packet. While it is being sent, whole packets of
      160 bytes have gone out and nothing was recorded; the sending ends with packet number
      ceil(|file| / 160). */
  lemma FileIsPlayed(a: Account, s: Call, inputs: seq<Input>)
    requires Initial(s) && Legal(a, s, inputs) && inputs != [] && |inputs[0].content| > 54
    ensures var t, content := Run(a, s, inputs), inputs[0].content;
            var packets := Count(t.log, IsPacket);
            && (!t.messTrans ==>
                  && 160 * packets < |content| && Windows(t.log) == []
                  && Payloads(t.log) == content[1..][..160 * packets])
            && (t.messTrans ==>
                  && 160 * (packets - 1) < |content| <= 160 * packets
                  && Payloads(t.log) == content[1..] + [0xFF] + Zeros(160 * packets - |content|))
  {
    hide Run, Payloads, Windows, Count, Legal;
    ChunksKept(a, s, inputs);
    FileIsKept(a, s, inputs);
    PlayedFile(Run(a, s, inputs), inputs[0].content);
  }

  lemma ChunksKept(a: Account, s: Call, inputs: seq<Input>)
    requires Initial(s) && Legal(a, s, inputs)
    ensures ChunksInOrder(Run(a, s, inputs))
  {
    hide Run, Legal, ChunksInOrder;
    RunInvariant(a, s, inputs);
  }

  lemma PlayedFile(t: Call, content: seq<Byte>)
    requires WellFormed(t) && ChunksInOrder(t) && t.v != VInit && t.fsize == |content| > WAV_HEADER
    requires t.filebuf[..|content| + 1] == content + [0xFF]
    ensures var packets := Count(t.log, IsPacket);
            && (!t.messTrans ==>
                  && 160 * packets < |content| && Windows(t.log) == []
                  && Payloads(t.log) == content[1..][..160 * packets])
            && (t.messTrans ==>
                  && 160 * (packets - 1) < |content| <= 160 * packets
                  && Payloads(t.log) == content[1..] + [0xFF] + Zeros(160 * packets - |content|))
  {
    hide Payloads, Windows, Count;
    var n := |content|;
    BehindFirst(t.filebuf, content, n);
    if !t.messTrans {
      BehindFirst(t.filebuf, content, t.bufPoint);
    }
  }

  lemma BehindFirst(buffer: seq<Byte>, content: seq<Byte>, n: nat)
    requires |content| < |buffer| && buffer[..|content| + 1] == content + [0xFF] && 0 < |content|
    ensures n < |content| ==> buffer[1..n + 1] == content[1..][..n]
    ensures n == |content| ==> buffer[1..n + 1] == content[1..] + [0xFF]
  {
    if n <= |content| {
      assert buffer[1..n + 1] == buffer[..|content| + 1][1..n + 1];
    }
  }

  // ---- The recording ----

  /** The 160 payload bytes in the RTP buffer when a packet arrives that is to be recorded. */
  function HeardNow(u: Call, i: Input): seq<Byte>
    requires WellFormed(u)
  {
    if u.v == VStart && !u.callEnd && u.sip == InviteCompleted && u.messTrans
       && i.rtp.Some? && 0 < |i.rtp.value| <= BUFSIZE
    then Overlay(u.rtp, i.rtp.value)[12..172] else []
  }

  function Heard(a: Account, s: Call, inputs: seq<Input>): seq<Byte>
    requires WellFormed(s) && Legal(a, s, inputs)
    decreases |inputs|
  {
    if inputs == [] then []
    else
      var front := inputs[..|inputs| - 1];
      Heard(a, s, front) + HeardNow(Run(a, s, front), inputs[|inputs| - 1])
  }

  /** A packet of at least 172 bytes delivers its own payload, whatever was in the buffer. */
  lemma FullPacketIsHeard(u: Call, i: Input)
    requires WellFormed(u) && u.v == VStart && !u.callEnd && u.sip == InviteCompleted && u.messTrans
    requires i.rtp.Some? && 172 <= |i.rtp.value| <= BUFSIZE
    ensures HeardNow(u, i) == i.rtp.value[12..172]
  {
  }

  lemma ConverseWindows(s: Call, i: Input)
    requires WellFormed(s) && s.v == VStart && !s.callEnd && s.sip == InviteCompleted
    requires i.rtp.Some? ==> |i.rtp.value| <= BUFSIZE
    requires i.sip.Some? ==> Readable(Talk(s, i), i.sip.value)
    ensures Windows(Converse(s, i).log) == Windows(s.log) + HeardNow(s, i)
  {
    hide Parse, CString, Readable, Voice, Windows, VoiceFollows;
    var voice: seq<Action> := [];
    var p := Logged(s, [PolledRtp]);
    if i.rtp.Some? {
      voice := VoiceOutline(p, i.rtp.value);
    }
    var added := [PolledRtp] + voice + [PolledSip];
    assert Converse(s, i).log == s.log + added;
    WindowsConcat(s.log, added);
    AddedWindows(voice);
  }

  lemma AddedWindows(voice: seq<Action>)
    requires |voice| <= 1
    ensures var l := [PolledRtp] + voice + [PolledSip];
            Windows(l) == if voice != [] && voice[0].Recorded? then voice[0].window else []
  {
    hide Windows, Payloads, Count;
    if voice == [] {
      NoVoice([PolledRtp] + voice + [PolledSip]);
    } else {
      OneVoice(voice[0]);
      assert voice == [voice[0]];
    }
  }

  lemma StepWindows(a: Account, u: Call, i: Input)
    requires WellFormed(u) && Defined(a, u, i)
    ensures Windows(Step(a, u, i).log) == Windows(u.log) + HeardNow(u, i)
  {
    if u.v == VStart && !u.callEnd && u.sip == InviteCompleted {
      ConverseWindows(u, i);
      hide Converse, Windows;
    } else {
      var o := StepOutline(a, u, i);
      VoiceAdded(u, Step(a, u, i), o);
      NotTalking(u, Step(a, u, i), o);
      hide Step, Windows, Payloads, Count;
    }
  }

  lemma NotTalking(s: Call, t: Call, o: Outline)
    requires WellFormed(s) && Follows(s, t, o) && !(s.v == VStart && !s.callEnd && s.sip == InviteCompleted)
    ensures !o.Talked?
  {
    hide VoiceFollows;
  }

  /** The output file holds exactly the payload windows that arrived while the call was
      established and after the whole file had been sent, in their order. */
  lemma {:induction false} RecordingIsHeard(a: Account, s: Call, inputs: seq<Input>)
    requires Initial(s) && Legal(a, s, inputs)
    ensures Windows(Run(a, s, inputs).log) == Heard(a, s, inputs)
    decreases |inputs|
  {
    hide Step, Defined, HeardNow;
    if inputs != [] {
      var front := inputs[..|inputs| - 1];
      RecordingIsHeard(a, s, front);
      StepWindows(a, Run(a, s, front), inputs[|inputs| - 1]);
    }
  }
}
