/** What holds over every run of the voice path, whatever the order of packets, timer ticks
    and DMA completions. */
module VoiceRuns {
  import opened Buffers
  import opened Words
  import opened G711
  import opened VoicePath

  predicate AllPossible(events: seq<Event>) {
    forall i :: 0 <= i < |events| ==> Possible(events[i])
  }

  predicate AllPcmu(events: seq<Event>) {
    forall i :: 0 <= i < |events| ==> Pcmu(events[i])
  }

  /** The state after a run, and what the run added to the queue. */
  function Run(s: Path, events: seq<Event>): (t: Path)
    requires AllPossible(events) && Free(s.queue) >= 0
    ensures Free(t.queue) >= 0
  {
    if events == [] then s else Step(Run(s, events[..|events| - 1]), events[|events| - 1])
  }

  function AcceptedOver(s: Path, events: seq<Event>): seq<Byte>
    requires AllPossible(events) && Free(s.queue) >= 0
  {
    if events == [] then []
    else
      var front, last := events[..|events| - 1], events[|events| - 1];
      AcceptedOver(s, front) + Accepted(Run(s, front), last)
  }

  lemma StepConserves(s: Path, e: Event)
    requires Possible(e) && Free(s.queue) >= 0
    ensures Step(s, e).taken + Step(s, e).queue == s.taken + s.queue + Accepted(s, e)
  {
    hide Offered;
    assert e.Tick? ==> s.queue == s.queue[..Min(CHUNK, |s.queue|)] + s.queue[Min(CHUNK, |s.queue|)..];
  }

  /** Bytes taken, followed by bytes still queued, are the accepted parts of the packets in their
      order of arrival; the queue never outgrows its capacity. */
  lemma {:induction false} RunConserves(s: Path, events: seq<Event>)
    requires AllPossible(events) && Free(s.queue) >= 0
    ensures var t := Run(s, events);
            && t.taken + t.queue == s.taken + s.queue + AcceptedOver(s, events)
            && |t.queue| <= 8192
  {
    if events != [] {
      hide Step, Accepted;
      var front, last := events[..|events| - 1], events[|events| - 1];
      RunConserves(s, front);
      StepConserves(Run(s, front), last);
      Regrouped(s.taken + s.queue, AcceptedOver(s, front), Accepted(Run(s, front), last));
    }
  }

  lemma Regrouped(x: seq<Byte>, y: seq<Byte>, z: seq<Byte>)
    ensures (x + y) + z == x + (y + z)
  {
  }

  // ---- Whole samples ----

  predicate Pcmu(e: Event) {
    e.Packet? ==> |e.bytes| > 43 && e.bytes[43] == PAYLOAD_TYPE_PCMU
  }

  /** The payload bytes behind what a PCMU packet adds to the queue. */
  function AcceptedPayload(s: Path, e: Event): seq<Byte>
    requires Possible(e) && Pcmu(e) && Free(s.queue) >= 0
  {
    if e.Packet? then e.bytes[HEADERS..][..Min(|e.bytes| - HEADERS, Free(s.queue) / 2)] else []
  }

  function PayloadOver(s: Path, events: seq<Event>): seq<Byte>
    requires AllPossible(events) && AllPcmu(events) && Free(s.queue) >= 0
  {
    if events == [] then []
    else
      var front, last := events[..|events| - 1], events[|events| - 1];
      PayloadOver(s, front) + AcceptedPayload(Run(s, front), last)
  }

  lemma DecodedConcat(a: seq<Byte>, b: seq<Byte>)
    ensures Decoded(a + b) == Decoded(a) + Decoded(b)
    ensures ByteView(Decoded(a + b)) == ByteView(Decoded(a)) + ByteView(Decoded(b))
  {
    hide Decoded, ByteView, Ulaw2Linear;
    var all := Decoded(a + b);
    assert all[..|a|] == Decoded(a);
    assert all[|a|..] == Decoded(b);
    assert all == all[..|a|] + all[|a|..];
    ByteViewPrefix(all, |a|);
    var v := ByteView(all);
    assert v == v[..2 * |a|] + v[2 * |a|..];
  }

  lemma DecodedPart(payload: seq<Byte>, n: nat)
    requires n <= |payload|
    ensures Decoded(payload)[..n] == Decoded(payload[..n]) && Decoded(payload)[n..] == Decoded(payload[n..])
  {
    hide Decoded, Ulaw2Linear;
  }

  /** A PCMU packet is accepted in whole samples when the queue holds whole samples. */
  lemma AcceptedSamples(s: Path, e: Event)
    requires Possible(e) && Pcmu(e) && Free(s.queue) >= 0 && |s.queue| % 2 == 0
    ensures Accepted(s, e) == ByteView(Decoded(AcceptedPayload(s, e)))
  {
    hide Ulaw2Linear, ByteView;
    if e.Packet? {
      var payload := e.bytes[HEADERS..];
      var n := Min(|payload|, Free(s.queue) / 2);
      assert 2 * n == Min(2 * |payload|, Free(s.queue));
      ByteViewPrefix(Decoded(payload), n);
      DecodedPart(payload, n);
    }
  }

  /** In a run that carries only PCMU packets the queue always holds whole samples, and the bytes
      taken out, read as 16-bit samples, are the u-law decoding of the payload accepted so far,
      up to what is still queued. */
  lemma {:induction false} PcmuRun(events: seq<Event>)
    requires AllPossible(events) && AllPcmu(events)
    ensures var t, payload := Run(INITIAL, events), PayloadOver(INITIAL, events);
            && |t.queue| % 2 == 0 && |t.taken| % 2 == 0
            && t.taken + t.queue == ByteView(Decoded(payload))
            && |t.taken| / 2 <= |payload|
            && ReadSamples(t.taken) == Decoded(payload[..|t.taken| / 2])
            && ReadSamples(t.queue) == Decoded(payload[|t.taken| / 2..])
  {
    hide Run, PayloadOver, Decoded, ByteView, ReadSamples;
    PcmuBytes(events);
    var t, payload := Run(INITIAL, events), PayloadOver(INITIAL, events);
    SplitSamples(payload, t.taken, t.queue);
  }

  lemma SplitSamples(payload: seq<Byte>, taken: seq<Byte>, queue: seq<Byte>)
    requires taken + queue == ByteView(Decoded(payload)) && |taken| % 2 == 0 && |queue| % 2 == 0
    ensures |taken| / 2 <= |payload|
    ensures ReadSamples(taken) == Decoded(payload[..|taken| / 2])
    ensures ReadSamples(queue) == Decoded(payload[|taken| / 2..])
  {
    hide Decoded, ByteView, ReadSamples;
    var samples, n := Decoded(payload), |taken| / 2;
    assert |taken + queue| == 2 * |samples|;
    ByteViewPrefix(samples, n);
    assert (taken + queue)[..2 * n] == taken && (taken + queue)[2 * n..] == queue;
    ReadByteView(samples[..n]);
    ReadByteView(samples[n..]);
    DecodedPart(payload, n);
  }

  lemma StepKeepsPairs(s: Path, e: Event)
    requires Possible(e) && Pcmu(e) && Free(s.queue) >= 0 && |s.queue| % 2 == 0 && |s.taken| % 2 == 0
    ensures |Step(s, e).queue| % 2 == 0 && |Step(s, e).taken| % 2 == 0
  {
    hide Decoded, ByteView;
  }

  lemma {:induction false} PcmuBytes(events: seq<Event>)
    requires AllPossible(events) && AllPcmu(events)
    ensures var t := Run(INITIAL, events);
            && |t.queue| % 2 == 0 && |t.taken| % 2 == 0
            && t.taken + t.queue == ByteView(Decoded(PayloadOver(INITIAL, events)))
  {
    if events != [] {
      hide Step, Accepted, AcceptedPayload, Decoded, ByteView;
      var front, last := events[..|events| - 1], events[|events| - 1];
      PcmuBytes(front);
      var u := Run(INITIAL, front);
      AcceptedSamples(u, last);
      DecodedConcat(PayloadOver(INITIAL, front), AcceptedPayload(u, last));
      StepConserves(u, last);
      StepKeepsPairs(u, last);
    }
  }

  /** A raw packet leaves half a sample behind when its odd payload fits. */
  predicate SplitsSample(s: Path, e: Event)
    requires Free(s.queue) >= 0
  {
    && e.Packet? && |e.bytes| >= HEADERS && e.bytes[43] == PAYLOAD_TYPE_96
    && |e.bytes| % 2 == 1 && |e.bytes| - HEADERS <= Free(s.queue)
  }

  /** The queue holds whole samples now and held them after every earlier event. */
  predicate WholeSamples(s: Path, events: seq<Event>)
    requires AllPossible(events) && Free(s.queue) >= 0
  {
    && |Run(s, events).queue| % 2 == 0
    && (events != [] ==> WholeSamples(s, events[..|events| - 1]))
  }

  predicate NothingSplits(s: Path, events: seq<Event>)
    requires AllPossible(events) && Free(s.queue) >= 0
  {
    events != [] ==>
      && !SplitsSample(Run(s, events[..|events| - 1]), events[|events| - 1])
      && NothingSplits(s, events[..|events| - 1])
  }

  /** With raw packets in the run, the queue holds whole samples throughout exactly when no packet
      of odd size fits into it. */
  lemma {:induction false} WholeSamplesExactly(s: Path, events: seq<Event>)
    requires AllPossible(events) && Free(s.queue) >= 0 && |s.queue| % 2 == 0
    ensures WholeSamples(s, events) <==> NothingSplits(s, events)
  {
    hide Step, SplitsSample;
    if events != [] {
      var front, last := events[..|events| - 1], events[|events| - 1];
      WholeSamplesExactly(s, front);
      if |Run(s, front).queue| % 2 == 0 {
        StepParity(Run(s, front), last);
      }
    }
  }

  /** There are such packets: one byte of raw payload splits a sample on the empty queue. */
  lemma OddPacketSplits()
    ensures var e := Packet(Zeros(43) + [PAYLOAD_TYPE_96] + Zeros(11));
            && Possible(e) && SplitsSample(INITIAL, e) && AllPossible([e]) && !WholeSamples(INITIAL, [e])
  {
    var e := Packet(Zeros(43) + [PAYLOAD_TYPE_96] + Zeros(11));
    assert e.bytes[43] == PAYLOAD_TYPE_96;
    assert [e][..0] == [];
    WholeSamplesExactly(INITIAL, [e]);
  }

  lemma StepParity(s: Path, e: Event)
    requires Possible(e) && Free(s.queue) >= 0 && |s.queue| % 2 == 0
    ensures |Step(s, e).queue| % 2 == 0 <==> !SplitsSample(s, e)
  {
    hide Decoded, ByteView;
  }

  // ---- The timer's counters and the DMA transfers ----

  function Ticks(events: seq<Event>): nat {
    if events == [] then 0 else Ticks(events[..|events| - 1]) + if events[|events| - 1].Tick? then 1 else 0
  }

  /** The counters after n ticks. */
  predicate Counted(t: Path, n: nat) {
    && (t.started <==> n > 0)
    && (n == 0 ==> t.dmaOffset == 0)
    && (n > 0 ==>
          && t.dmaCount == (n - 1) % 16 && t.dmaOffset == 4000 * t.dmaCount
          && t.cpuCount == (n - 1) % 4 && t.cpuOffset == 4000 * t.cpuCount
          && t.periodCount == 64000 * ((n - 1) / 16) % 0x1_0000_0000)
  }

  lemma {:induction false} RunCounts(events: seq<Event>)
    requires AllPossible(events)
    ensures Counted(Run(INITIAL, events), Ticks(events))
  {
    hide Step, Counted;
    if events == [] {
      assert Counted(INITIAL, 0) by { NoTicks(); }
    } else {
      var front, last := events[..|events| - 1], events[|events| - 1];
      RunCounts(front);
      StepCounts(Run(INITIAL, front), Ticks(front), last);
    }
  }

  lemma NoTicks()
    ensures Counted(INITIAL, 0)
  {
  }

  lemma StepCounts(s: Path, n: nat, e: Event)
    requires Possible(e) && Free(s.queue) >= 0 && Counted(s, n)
    ensures Counted(Step(s, e), if e.Tick? then n + 1 else n)
  {
    hide Accepted;
    if e.Tick? && n > 0 {
      var m := n - 1;
      WrapTerm(64000, 64000 * (m / 16));
      NextModulo(m, 16);
      NextModulo(m, 4);
    }
  }

  lemma NextModulo(m: nat, k: nat)
    requires k > 0
    ensures (m + 1) % k == if m % k + 1 == k then 0 else m % k + 1
    ensures (m + 1) / k == if m % k + 1 == k then m / k + 1 else m / k
  {
    assert m == k * (m / k) + m % k;
    if m % k + 1 == k {
      DivModUnique(m + 1, k, m / k + 1, 0);
    } else {
      DivModUnique(m + 1, k, m / k, m % k + 1);
    }
  }

  /** After n ticks the DMA offset has gone round the sixteen periods of the buffer, the CPU
      offset is the DMA offset within four periods, and the period count carries the rest of
      the distance, modulo 2^32. */
  lemma Counters(events: seq<Event>)
    requires AllPossible(events) && Ticks(events) > 0
    ensures var t, n := Run(INITIAL, events), Ticks(events);
            && t.dmaOffset == 4000 * ((n - 1) % 16)
            && t.cpuOffset == t.dmaOffset % 16000
            && (t.periodCount + t.dmaOffset) % 0x1_0000_0000 == 4000 * (n - 1) % 0x1_0000_0000
  {
    hide Run, Ticks;
    RunCounts(events);
    var t, m := Run(INITIAL, events), Ticks(events) - 1;
    WrapTerm(t.dmaOffset, 64000 * (m / 16));
    var k := m % 16;
    DivModUnique(m, 4, 4 * (m / 16) + k / 4, k % 4);
    DivModUnique(4000 * k, 16000, k / 4, 4000 * (k % 4));
  }

  // ---- How much the timer takes ----

  /** A tick takes 4000 bytes or what there is. */
  lemma TickTakes(s: Path)
    requires Free(s.queue) >= 0
    ensures var t, n := Step(s, Tick), Min(4000, |s.queue|);
            t.queue == s.queue[n..] && t.taken == s.taken + s.queue[..n]
  {
  }

  /** Once the timer has started, that is the distance by which the tick moves the DMA offset round its
      64000 bytes if and only if there are 4000 bytes to take. */
  lemma TickMovesOffset(events: seq<Event>)
    requires AllPossible(events) && Ticks(events) > 0
    ensures var u := Run(INITIAL, events);
            var t := Step(u, Tick);
            && (t.dmaOffset - u.dmaOffset) % 64000 == 4000
            && (|t.taken| - |u.taken| == (t.dmaOffset - u.dmaOffset) % 64000 <==> |u.queue| >= 4000)
  {
    hide Step, Run, Ticks, Counted;
    var u, n := Run(INITIAL, events), Ticks(events);
    RunCounts(events);
    StepCounts(u, n, Tick);
    OffsetsMove(u, Step(u, Tick), n);
    TickTakes(u);
  }

  lemma OffsetsMove(u: Path, t: Path, n: nat)
    requires n > 0 && Counted(u, n) && Counted(t, n + 1)
    ensures (t.dmaOffset - u.dmaOffset) % 64000 == 4000
  {
    NextModulo(n - 1, 16);
    if (n - 1) % 16 + 1 == 16 {
      assert t.dmaOffset - u.dmaOffset == -60000;
    }
  }

  predicate NoPackets(events: seq<Event>) {
    forall i :: 0 <= i < |events| ==> !events[i].Packet?
  }

  lemma NextChunk(q: seq<Byte>, n: nat, rest: seq<Byte>, m: nat)
    requires rest == q[Min(4000 * n, |q|)..] && m == Min(4000, |rest|)
    ensures Min(4000 * n, |q|) + m == Min(4000 * (n + 1), |q|)
    ensures rest[m..] == q[Min(4000 * (n + 1), |q|)..]
    ensures q[..Min(4000 * n, |q|)] + rest[..m] == q[..Min(4000 * (n + 1), |q|)]
  {
  }

  /** Without packets, n ticks take the first 4000 * n bytes, or all; the queue is empty if and only if
      it held no more than those. */
  lemma {:induction false} QueueDrains(s: Path, events: seq<Event>)
    requires AllPossible(events) && NoPackets(events) && Free(s.queue) >= 0
    ensures var t, n := Run(s, events), Ticks(events);
            && t.queue == s.queue[Min(4000 * n, |s.queue|)..]
            && t.taken == s.taken + s.queue[..Min(4000 * n, |s.queue|)]
            && (t.queue == [] <==> 4000 * n >= |s.queue|)
  {
    hide Step;
    if events == [] {
      NothingTaken(s);
    } else {
      var front, last := events[..|events| - 1], events[|events| - 1];
      var u := Run(s, front);
      QueueDrains(s, front);
      if last.Tick? {
        TickTakes(u);
        NextChunk(s.queue, Ticks(front), u.queue, Min(4000, |u.queue|));
        Regrouped(s.taken, s.queue[..Min(4000 * Ticks(front), |s.queue|)], u.queue[..Min(4000, |u.queue|)]);
      } else {
        CompletionTakesNothing(u, last);
      }
      EmptyBehind(s.queue, 4000 * Ticks(events));
    }
  }

  lemma NothingTaken(s: Path)
    ensures s.queue == s.queue[Min(4000 * 0, |s.queue|)..] && s.taken == s.taken + s.queue[..Min(4000 * 0, |s.queue|)]
    ensures s.queue == [] <==> |s.queue| <= 0
  {
  }

  lemma EmptyBehind(q: seq<Byte>, n: nat)
    ensures 0 <= Min(n, |q|) <= |q| && (q[Min(n, |q|)..] == [] <==> n >= |q|)
  {
  }

  lemma CompletionTakesNothing(s: Path, e: Event)
    requires Possible(e) && Free(s.queue) >= 0 && e.DmaComplete?
    ensures Step(s, e).queue == s.queue && Step(s, e).taken == s.taken
  {
  }

  /** Over every run, with packets at any time, n ticks take at most 4000 * n bytes. */
  lemma {:induction false} TakenIsBounded(events: seq<Event>)
    requires AllPossible(events)
    ensures |Run(INITIAL, events).taken| <= 4000 * Ticks(events)
  {
    hide Step;
    if events != [] {
      var front, last := events[..|events| - 1], events[|events| - 1];
      TakenIsBounded(front);
      OnlyTicksTake(Run(INITIAL, front), last);
    }
  }

  lemma OnlyTicksTake(s: Path, e: Event)
    requires Possible(e) && Free(s.queue) >= 0
    ensures |Step(s, e).taken| <= |s.taken| + if e.Tick? then 4000 else 0
  {
    hide Accepted;
  }

  /** The addresses one side of a transfer visits: every byte of every element of every frame,
      elements being `bidx` apart and frames `cidx`. */
  function Element(address: int, acnt: nat): seq<int>
    decreases acnt
  {
    if acnt == 0 then [] else Element(address, acnt - 1) + [address + acnt - 1]
  }

  function Frame(address: int, acnt: nat, bcnt: nat, bidx: nat): seq<int>
    decreases bcnt
  {
    if bcnt == 0 then [] else Frame(address, acnt, bcnt - 1, bidx) + Element(address + (bcnt - 1) * bidx, acnt)
  }

  function Walk(address: int, acnt: nat, bcnt: nat, ccnt: nat, bidx: nat, cidx: nat): seq<int>
    decreases ccnt
  {
    if ccnt == 0 then []
    else Walk(address, acnt, bcnt, ccnt - 1, bidx, cidx) + Frame(address + (ccnt - 1) * cidx, acnt, bcnt, bidx)
  }

  function Source(e: Edma): seq<int> {
    Walk(e.src, e.acnt, e.bcnt, e.ccnt, e.srcBidx, e.srcCidx)
  }

  function Destination(e: Edma): seq<int> {
    Walk(e.dst, e.acnt, e.bcnt, e.ccnt, e.dstBidx, e.dstCidx)
  }

  function Consecutive(first: int, n: nat): seq<int> {
    seq(n, i => first + i)
  }

  /** The two bytes of one register, over and over. */
  function Register(address: int, n: nat): seq<int> {
    seq(n, i => address + i % 2)
  }

  lemma ConsecutiveParts(first: int, m: nat, n: nat)
    ensures Consecutive(first, m + n) == Consecutive(first, m) + Consecutive(first + m, n)
  {
  }

  lemma RegisterParts(address: int, m: nat, n: nat)
    ensures Register(address, 2 * m + n) == Register(address, 2 * m) + Register(address, n)
  {
    forall i | 0 <= i < n
      ensures (2 * m + i) % 2 == i % 2
    {
    }
  }

  lemma TwoBytes(a: int)
    ensures Element(a, 2) == [a, a + 1]
  {
    assert Element(a, 1) == Element(a, 0) + [a] && Element(a, 2) == Element(a, 1) + [a + 1];
  }

  lemma {:induction false} FrameIsConsecutive(address: int, bcnt: nat)
    ensures Frame(address, 2, bcnt, 2) == Consecutive(address, 2 * bcnt)
    decreases bcnt
  {
    if bcnt > 0 {
      FrameIsConsecutive(address, bcnt - 1);
      TwoBytes(address + 2 * (bcnt - 1));
    }
  }

  lemma NoFrame(address: int, bidx: nat, cidx: nat)
    ensures Walk(address, 2, 32, 0, bidx, cidx) == []
  {
  }

  lemma LastFrame(address: int, ccnt: nat, bidx: nat, cidx: nat)
    requires ccnt > 0
    ensures Walk(address, 2, 32, ccnt, bidx, cidx)
         == Walk(address, 2, 32, ccnt - 1, bidx, cidx) + Frame(address + (ccnt - 1) * cidx, 2, 32, bidx)
  {
    hide Frame;
  }

  lemma {:induction false} WalkIsConsecutive(address: int, ccnt: nat)
    ensures Walk(address, 2, 32, ccnt, 2, 64) == Consecutive(address, 64 * ccnt)
    decreases ccnt
  {
    hide Frame, Walk;
    if ccnt == 0 {
      NoFrame(address, 2, 64);
    } else {
      hide Consecutive;
      WalkIsConsecutive(address, ccnt - 1);
      LastFrame(address, ccnt, 2, 64);
      FrameIsConsecutive(address + 64 * (ccnt - 1), 32);
      ConsecutiveParts(address, 64 * (ccnt - 1), 64);
    }
  }

  lemma {:induction false} FrameIsRegister(address: int, bcnt: nat)
    ensures Frame(address, 2, bcnt, 0) == Register(address, 2 * bcnt)
    decreases bcnt
  {
    if bcnt > 0 {
      FrameIsRegister(address, bcnt - 1);
      TwoBytes(address);
    }
  }

  lemma {:induction false} WalkIsRegister(address: int, ccnt: nat)
    ensures Walk(address, 2, 32, ccnt, 0, 0) == Register(address, 64 * ccnt)
    decreases ccnt
  {
    hide Frame, Walk;
    if ccnt == 0 {
      NoFrame(address, 0, 0);
    } else {
      hide Register;
      WalkIsRegister(address, ccnt - 1);
      LastFrame(address, ccnt, 0, 0);
      FrameIsRegister(address, 32);
      RegisterParts(address, 32 * (ccnt - 1), 64);
    }
  }

  /** Whenever a completion happens, the transfer it programs moves 3968 consecutive bytes, each
      once, from the start of the period the timer last chose to the transmit register; they lie
      in that period's 4000 bytes and in the buffer's 64000. */
  lemma TransferGeometry(events: seq<Event>, area: nat)
    requires AllPossible(events) && Possible(DmaComplete(area))
    ensures var t := Run(INITIAL, events);
            var e := Transfer(area, t.dmaOffset);
            && Step(t, DmaComplete(area)).transfers == t.transfers + [e]
            && 0 <= t.dmaOffset && t.dmaOffset % 4000 == 0 && t.dmaOffset + 4000 <= 64000
            && Source(e) == Consecutive(area + t.dmaOffset, 3968)
            && Destination(e) == Register(0x46400000, 3968)
  {
    hide Step, Counted, Walk;
    var t := Run(INITIAL, events);
    CompletionAdds(t, area);
    RunCounts(events);
    OffsetInBuffer(t, Ticks(events));
    WalkIsConsecutive(area + t.dmaOffset, 62);
    WalkIsRegister(0x46400000, 62);
  }

  lemma CompletionAdds(t: Path, area: nat)
    requires Free(t.queue) >= 0 && Possible(DmaComplete(area))
    ensures Step(t, DmaComplete(area)).transfers == t.transfers + [Transfer(area, t.dmaOffset)]
  {
  }

  lemma OffsetInBuffer(t: Path, n: nat)
    requires Counted(t, n)
    ensures 0 <= t.dmaOffset && t.dmaOffset % 4000 == 0 && t.dmaOffset + 4000 <= 64000
  {
  }
}
