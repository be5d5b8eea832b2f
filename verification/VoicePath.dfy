/** The voice path of the driver: RTP packets are decoded into a byte queue, a timer takes
    bytes out of it and moves the DMA offset, and DMA completions program the next transfer.

    The kernel's kfifo is modelled by a sequence of at most 8192 bytes. */
module VoicePath {
  import opened Words
  import opened G711

  const FIFO_SIZE := 8192
  const CHUNK := 4000
  const HEADERS := 54
  const PAYLOAD_TYPE_PCMU := 0
  const PAYLOAD_TYPE_96 := 96

  // ---- Samples and their bytes ----

  type Short = s: int | -0x8000 <= s < 0x8000

  function SampleBytes(s: Short): (b: seq<Byte>)
    ensures |b| == 2
  {
    var u := s % 0x1_0000;
    [u % 0x100, u / 0x100]
  }

  /** Two bytes read as a signed little-endian number. */
  function SampleOf(low: Byte, high: Byte): Short {
    var u := low as int + 0x100 * (high as int);
    if u < 0x8000 then u else u - 0x1_0000
  }

  function ByteView(samples: seq<Short>): (b: seq<Byte>)
    ensures |b| == 2 * |samples|
  {
    if samples == [] then [] else ByteView(samples[..|samples| - 1]) + SampleBytes(samples[|samples| - 1])
  }

  function ReadSamples(b: seq<Byte>): (samples: seq<Short>)
    requires |b| % 2 == 0
    ensures |samples| == |b| / 2
  {
    if b == [] then [] else ReadSamples(b[..|b| - 2]) + [SampleOf(b[|b| - 2], b[|b| - 1])]
  }

  lemma SampleRoundTrip(s: Short)
    ensures SampleOf(SampleBytes(s)[0], SampleBytes(s)[1]) == s
  {
  }

  lemma {:induction false} ReadByteView(samples: seq<Short>)
    ensures ReadSamples(ByteView(samples)) == samples
  {
    if samples != [] {
      hide SampleBytes, SampleOf;
      var front, last := samples[..|samples| - 1], samples[|samples| - 1];
      var b := ByteView(samples);
      assert b == ByteView(front) + SampleBytes(last);
      SampleRoundTrip(last);
      ReadByteView(front);
      assert b[..|b| - 2] == ByteView(front);
      assert samples == front + [last];
    }
  }

  /** A sample takes two bytes, the low-order one first. */
  lemma {:induction false} ByteViewIs(samples: seq<Short>, k: nat)
    requires k < |samples|
    ensures ByteView(samples)[2 * k] == (samples[k] as int) % 256
    ensures ByteView(samples)[2 * k + 1] == (samples[k] as int) % 65536 / 256
    decreases |samples|
  {
    if k < |samples| - 1 {
      ByteViewIs(samples[..|samples| - 1], k);
    }
  }

  lemma {:induction false} ByteViewPrefix(samples: seq<Short>, n: nat)
    requires n <= |samples|
    ensures ByteView(samples)[..2 * n] == ByteView(samples[..n])
    ensures ByteView(samples)[2 * n..] == ByteView(samples[n..])
    decreases |samples|
  {
    if n == |samples| {
      assert samples[..n] == samples && samples[n..] == [];
    } else {
      var front, last := samples[..|samples| - 1], samples[|samples| - 1];
      ByteViewPrefix(front, n);
      assert front[..n] == samples[..n];
      assert samples[n..][..|samples| - n - 1] == front[n..];
    }
  }

  /** Every u-law byte decodes into the 16-bit range. */
  lemma UlawFitsShort(code: Byte)
    ensures -32124 <= Ulaw2Linear(code) <= 32124
  {
    hide Ulaw2Linear;
    var negative, seg, q := FieldsOfByte(code);
    UlawLevel(negative, seg, q);
  }

  function Decoded(payload: seq<Byte>): (samples: seq<Short>)
    ensures |samples| == |payload|
    ensures forall k :: 0 <= k < |payload| ==> samples[k] == Ulaw2Linear(payload[k])
  {
    if payload == [] then []
    else
      UlawFitsShort(payload[|payload| - 1]);
      Decoded(payload[..|payload| - 1]) + [Ulaw2Linear(payload[|payload| - 1])]
  }

  /** g711_ulaw_decoder: the samples of the payload, in the caller's buffer. */
  method UlawDecoder(size: nat, input: seq<Byte>, output: array<Short>) returns (ok: bool)
    requires size <= |input| && size <= output.Length
    modifies output
    ensures ok == (size != 0)
    ensures output[..size] == Decoded(input[..size]) && output[size..] == old(output[size..])
  {
    if size == 0 {
      return false;
    }
    for i := 0 to size
      invariant forall k :: 0 <= k < i ==> output[k] == Ulaw2Linear(input[k])
      invariant output[size..] == old(output[size..])
    {
      UlawFitsShort(input[i]);
      output[i] := Ulaw2Linear(input[i]);
    }
    return true;
  }

  /** Encoding every decoded sample gives the payload back with negative zeros made positive. */
  lemma ReencodedPayload(payload: seq<Byte>, k: nat)
    requires k < |payload|
    ensures Linear2Ulaw(Decoded(payload)[k]) == if payload[k] == 0x7F then 0xFF else payload[k]
  {
    UlawByteRoundTrip(payload[k]);
  }

  // ---- One step of the path ----

  /** The parameters of a transfer: where it starts and ends, the bytes of an element, the elements
      of a frame, the frames, and how far apart elements and frames are on either side. */
  datatype Edma = Edma(src: int, dst: int, acnt: nat, bcnt: nat, ccnt: nat, srcBidx: nat, dstBidx: nat,
                       srcCidx: nat, dstCidx: nat)

  /** The queue, the timer's counters and the DMA offset, with what the path has done so far:
      the bytes taken out of the queue and the transfers programmed. */
  datatype Path = Path(queue: seq<Byte>, started: bool, dmaCount: nat, cpuCount: nat, periodCount: nat,
                       dmaOffset: int, cpuOffset: int, taken: seq<Byte>, transfers: seq<Edma>)

  const INITIAL := Path([], false, 0, 0, 0, 0, 0, [], [])

  /** A completion finds the DMA buffer at the bus address `area`. */
  datatype Event = Packet(bytes: seq<Byte>) | Tick | DmaComplete(area: nat)

  predicate Possible(e: Event) {
    && (e.Packet? ==> HEADERS <= |e.bytes| <= 1514)
    && (e.DmaComplete? ==> e.area + 64000 <= 0x1_0000_0000)
  }

  /** The bytes a packet offers to the queue. The type is a whole byte of the header. */
  function Offered(packet: seq<Byte>): seq<Byte>
    requires HEADERS <= |packet|
  {
    if packet[43] == PAYLOAD_TYPE_PCMU then ByteView(Decoded(packet[HEADERS..]))
    else if packet[43] == PAYLOAD_TYPE_96 then packet[HEADERS..]
    else []
  }

  function Free(queue: seq<Byte>): int {
    FIFO_SIZE - |queue|
  }

  /** What an event adds to the queue: as much of a packet as there is room for. */
  function Accepted(s: Path, e: Event): seq<Byte>
    requires Possible(e) && Free(s.queue) >= 0
  {
    if e.Packet? then Offered(e.bytes)[..Min(|Offered(e.bytes)|, Free(s.queue))] else []
  }

  /** The transfer that one completion programs: 62 frames of 32 two-byte samples, all of them to
      the transmit register of the McASP. */
  function Transfer(area: nat, dmaOffset: int): Edma {
    Edma((area + dmaOffset) % 0x1_0000_0000, 0x46400000, 2, 32, 62, 2, 0, 64, 0)
  }

  function Step(s: Path, e: Event): (t: Path)
    requires Possible(e) && Free(s.queue) >= 0
    ensures Free(t.queue) >= 0
  {
    match e
    case Packet(_) => s.(queue := s.queue + Accepted(s, e))
    case Tick =>
      var wraps := s.started && s.dmaCount + 1 == 16;
      var dma := if !s.started || wraps then 0 else s.dmaCount + 1;
      var cpu := if !s.started || s.cpuCount + 1 == 4 then 0 else s.cpuCount + 1;
      var period := if !s.started then 0
                    else if wraps then (64000 + s.periodCount) % 0x1_0000_0000 else s.periodCount;
      var n := Min(CHUNK, |s.queue|);
      Path(s.queue[n..], true, dma, cpu, period, dma * 4000, cpu * 4000, s.taken + s.queue[..n], s.transfers)
    case DmaComplete(area) => s.(transfers := s.transfers + [Transfer(area, s.dmaOffset)])
  }

  // ---- The driver ----

  class Driver {
    var fifo: seq<Byte>
    const outputPcmBuf: array<Short>
    var start: bool
    var dmaCount: nat
    var cpuCount: nat
    var periodCount: nat
    var dmaOffset: int
    var cpuOffset: int
    ghost var taken: seq<Byte>
    ghost var transfers: seq<Edma>

    ghost predicate Valid()
      reads this
    {
      |fifo| <= FIFO_SIZE && outputPcmBuf.Length == 2190
    }

    ghost function State(): Path
      reads this
    {
      Path(fifo, start, dmaCount, cpuCount, periodCount, dmaOffset, cpuOffset, taken, transfers)
    }

    constructor ()
      ensures Valid() && State() == INITIAL && fresh(outputPcmBuf)
    {
      fifo, start, dmaCount, cpuCount, periodCount := [], false, 0, 0, 0;
      dmaOffset, cpuOffset := 0, 0;
      outputPcmBuf := new Short[2190](_ => 0);
      taken, transfers := [], [];
    }

    /** kfifo_put: nothing happens when the queue is full. */
    method KfifoPut(b: Byte)
      modifies `fifo
      ensures fifo == if |old(fifo)| < FIFO_SIZE then old(fifo) + [b] else old(fifo)
    {
      if |fifo| < FIFO_SIZE {
        fifo := fifo + [b];
      }
    }

    method KfifoGet() returns (got: bool, b: Byte)
      modifies `fifo
      ensures got == (old(fifo) != [])
      ensures if got then old(fifo) == [b] + fifo else fifo == old(fifo)
    {
      got, b := fifo != [], 0;
      if got {
        b, fifo := fifo[0], fifo[1..];
      }
    }

    /** voice_buf_set_data_in_rtp_stream1. The result counts the bytes offered; it is the number of
        those kept exactly when all of them fit or the queue was full already. */
    method SetData(inBuf: seq<Byte>, inSize: nat) returns (count: nat)
      requires Valid() && inSize <= |inBuf| && inSize < 0x1_0000
      modifies `fifo
      ensures Valid()
      ensures fifo == old(fifo) + inBuf[..Min(inSize, Free(old(fifo)))]
      ensures count == if Free(old(fifo)) == 0 then 0 else inSize
      ensures count == |fifo| - |old(fifo)| <==> inSize <= Free(old(fifo)) || Free(old(fifo)) == 0
    {
      if |fifo| == FIFO_SIZE {
        return 0;
      }
      var i := 0;
      while i != inSize
        invariant 0 <= i <= inSize && Valid()
        invariant fifo == old(fifo) + inBuf[..Min(i, Free(old(fifo)))]
      {
        KfifoPut(inBuf[i]);
        i := i + 1;
      }
      return i;
    }

    /** voice_buf_get_data_in_rtp_stream1. */
    method GetData(inBuf: array<Byte>, inSize: nat) returns (count: nat)
      requires inSize <= inBuf.Length
      modifies `fifo, inBuf
      ensures count == Min(inSize, |old(fifo)|)
      ensures fifo == old(fifo)[count..] && inBuf[..count] == old(fifo)[..count]
    {
      if fifo == [] {
        return 0;
      }
      count := 0;
      while count != inSize
        invariant 0 <= count <= inSize && count <= |old(fifo)|
        invariant fifo == old(fifo)[count..]
        invariant forall k :: 0 <= k < count ==> inBuf[k] == old(fifo)[k]
        decreases inSize - count
      {
        var got, b := KfifoGet();
        if !got {
          return;
        }
        inBuf[count] := b;
        count := count + 1;
      }
    }

    /** get_rtp_prepare_packet_handler. */
    method HandlePacket(packet: seq<Byte>, packetLen: nat)
      requires Valid() && packetLen == |packet| && HEADERS <= packetLen <= 1514
      modifies `fifo, outputPcmBuf
      ensures Valid() && State() == Step(old(State()), Packet(packet))
      ensures var free := 8192 - |old(fifo)|;
              fifo == old(fifo)
                      + if packet[43] == 0 then ByteView(Decoded(packet[54..]))[..Min(2 * (|packet| - 54), free)]
                        else if packet[43] == 96 then packet[54..][..Min(|packet| - 54, free)] else []
    {
      hide ByteView, Decoded;
      var payloadSize := packetLen - 14 - 20 - 8 - 12;
      var payloadType := packet[43];
      if payloadType == PAYLOAD_TYPE_PCMU {
        var decodedSize := payloadSize * 2;
        var data := packet[14 + 20 + 8 + 12..];
        var out := UlawDecoder(payloadSize, data, outputPcmBuf);
        assert data[..payloadSize] == data;
        var pcm := ByteView(outputPcmBuf[..payloadSize]);
        var _ := SetData(pcm, decodedSize);
      } else if payloadType == PAYLOAD_TYPE_96 {
        var _ := SetData(packet[14 + 20 + 8 + 12..], payloadSize);
      }
    }

    /** The counters' part of get_data_array. */
    method CountTick()
      modifies `start, `dmaCount, `cpuCount, `periodCount, `dmaOffset, `cpuOffset
      ensures start
      ensures dmaCount == if !old(start) || old(dmaCount) + 1 == 16 then 0 else old(dmaCount) + 1
      ensures cpuCount == if !old(start) || old(cpuCount) + 1 == 4 then 0 else old(cpuCount) + 1
      ensures periodCount == if !old(start) then 0
                             else if old(dmaCount) + 1 == 16 then (64000 + old(periodCount)) % 0x1_0000_0000
                             else old(periodCount)
      ensures dmaOffset == 4000 * dmaCount && cpuOffset == 4000 * cpuCount
    {
      dmaCount := dmaCount + 1;
      cpuCount := cpuCount + 1;
      if !start {
        dmaCount, cpuCount, periodCount := 0, 0, 0;
        start := true;
      }
      if dmaCount == 16 {
        dmaCount := 0;
        periodCount := (64000 + periodCount) % 0x1_0000_0000;
      }
      if cpuCount == 4 {
        cpuCount := 0;
      }
      dmaOffset := dmaCount * 4000;
      cpuOffset := cpuCount * 4000;
    }

    /** get_data_array, called by the timer. */
    method TimerTick()
      requires Valid()
      modifies this
      ensures Valid() && State() == Step(old(State()), Tick)
      ensures var n := Min(4000, |old(fifo)|); fifo == old(fifo)[n..] && taken == old(taken) + old(fifo)[..n]
    {
      var inBuf := new Byte[CHUNK];
      CountTick();
      var count := GetData(inBuf, CHUNK);
      taken := taken + inBuf[..count];
      assert taken == old(taken) + old(fifo)[..count] && fifo == old(fifo)[count..];
    }

    /** enqueue_dma: program the next transfer at the current offset. */
    method EnqueueDma(dmaSrc: nat) returns (transfer: Edma)
      requires Valid() && Possible(DmaComplete(dmaSrc))
      modifies `transfers
      ensures Valid() && State() == Step(old(State()), DmaComplete(dmaSrc))
      ensures transfer == Transfer(dmaSrc, dmaOffset)
    {
      var fifoLevel, dataType := 0x20, 0x2;
      var count := 4000 / dataType;
      count := count / fifoLevel;
      var src, dst := (dmaSrc + dmaOffset) % 0x1_0000_0000, 0x46400000;
      var srcBidx, dstBidx := dataType, 0;
      var srcCidx, dstCidx := dataType * fifoLevel, 0;
      var acnt := 0x2;
      transfer := Edma(src, dst, acnt, fifoLevel, count, srcBidx, dstBidx, srcCidx, dstCidx);
      transfers := transfers + [transfer];
    }
  }
}
