/** The sending half of a TCP endpoint: segmentation, retransmission (section 5 of
    RFC 6298) and Reno congestion control (RFC 5681), as functions on its state. */
module SenderModel {
  import opened FixedWidth
  import opened WrappingIntegers
  import opened ByteStreams
  import opened TcpSegments

  // ---------- Retransmission timer ----------

  /** Both counters are 32 bits wide and wrap around. */
  datatype Timer = Timer(count: u32, timeout: u32, running: bool) {
    function Restart(): Timer { this.(running := true, count := 0) }
    function Stop(): Timer { this.(running := false) }
    function SetTimeout(timeout: u32): Timer { this.(timeout := timeout) }
    function Double(): Timer { this.(timeout := timeout * 2 % TWO_32) }
    function Tick(ms: nat): Timer { if running then this.(count := (count + ms) % TWO_32) else this }
    predicate Expired() { running && count >= timeout }
  }

  // ---------- Reno ----------

  /** Sizes are in bytes. `dupAcks` is 32 bits wide and wraps around. */
  datatype Reno = Reno(enabled: bool, cwnd: nat, ssthresh: nat, dupAcks: u32, lastAck: nat, inRecovery: bool)

  function NewReno(enabled: bool): Reno {
    Reno(enabled, MAX_PAYLOAD_SIZE, TWO_64 - 1, 0, 0, false)
  }

  /** The congestion-avoidance increment, truncated to whole bytes. */
  function Increment(acked: nat, cwnd: nat): nat
    requires cwnd > 0
  {
    Div(MAX_PAYLOAD_SIZE * acked, cwnd)
  }

  /** Growth on an acknowledgment of `acked` new bytes: slow start below the threshold,
      congestion avoidance from it on. */
  function Grow(r: Reno, acked: nat): Reno
    requires r.cwnd > 0
  {
    if r.cwnd < r.ssthresh then r.(cwnd := r.cwnd + acked)
    else r.(cwnd := r.cwnd + Increment(acked, r.cwnd))
  }

  function OnNewAck(r: Reno, acked: nat): Reno
    requires r.cwnd > 0 && r.ssthresh > 0
  {
    var r' := if r.inRecovery then r.(cwnd := r.ssthresh, inRecovery := false) else r;
    Grow(r', acked).(dupAcks := 0)
  }

  function HalvedThreshold(r: Reno): nat { Max(r.cwnd / 2, 2 * MAX_PAYLOAD_SIZE) }

  /** The third duplicate in a row starts fast recovery; later ones inflate the window. */
  function OnDupAck(r: Reno): Reno {
    var r' := r.(dupAcks := (r.dupAcks + 1) % TWO_32);
    if r'.dupAcks == 3 && !r'.inRecovery then
      r'.(ssthresh := HalvedThreshold(r'), cwnd := HalvedThreshold(r') + 3 * MAX_PAYLOAD_SIZE, inRecovery := true)
    else if r'.inRecovery && r'.dupAcks > 3 then r'.(cwnd := r'.cwnd + MAX_PAYLOAD_SIZE)
    else r'
  }

  function OnTimeout(r: Reno): Reno {
    r.(ssthresh := HalvedThreshold(r), cwnd := MAX_PAYLOAD_SIZE, dupAcks := 0, inRecovery := false)
  }

  // ---------- Sender ----------

  /** A segment with the absolute sequence number it was made for. */
  datatype Tagged = Tagged(abs: nat, seg: Segment) {
    function End(): nat { abs + Length(seg) }
  }

  /** `out` is the queue of segments handed to the connection. */
  datatype Sender = Sender(
    isn: u32, initialRto: u16, stream: Stream, next: nat, timer: Timer,
    outstanding: seq<Tagged>, retx: nat, inFlight: int, window: u16,
    synSent: bool, finSent: bool, reno: Reno, out: seq<Tagged>)

  function NewSender(capacity: nat, rto: u16, isn: u32, congestionControl: bool): Sender {
    Sender(isn, rto, EmptyStream(capacity), 0, Timer(0, rto, false),
           [], 0, 0, 1, false, false, NewReno(congestionControl), [])
  }

  function EffectiveWindow(s: Sender): nat {
    var advertised := Max(s.window, 1);
    if s.reno.enabled then Min(advertised, s.reno.cwnd) else advertised
  }

  /** The segment that the next round of filling would send; empty when there is nothing to send. */
  function NextSegment(s: Sender, window: nat): Tagged
    requires s.inFlight < window
  {
    var syn := !s.synSent;
    var size := Min(MAX_PAYLOAD_SIZE, Min(window - s.inFlight - (if syn then 1 else 0), Buffered(s.stream)));
    var seg := Segment(DEFAULT_HEADER.(syn := syn, seqno := Wrap(s.next, s.isn)), Peek(s.stream, size));
    var fin := !s.finSent && Eof(Pop(s.stream, size)) && s.inFlight + Length(seg) < window;
    Tagged(s.next, seg.(header := seg.header.(fin := fin)))
  }

  /** Sends `t` for the first time. */
  function Emit(s: Sender, t: Tagged): Sender {
    s.(stream := Pop(s.stream, |t.seg.payload|),
       synSent := s.synSent || t.seg.header.syn,
       finSent := s.finSent || t.seg.header.fin,
       timer := if s.timer.running then s.timer else s.timer.Restart(),
       out := s.out + [t],
       outstanding := s.outstanding + [t],
       next := s.next + Length(t.seg),
       inFlight := s.inFlight + Length(t.seg))
  }

  function FillFrom(s: Sender, window: nat): Sender
    decreases window - s.inFlight
  {
    if s.inFlight >= window then s
    else
      var t := NextSegment(s, window);
      if Length(t.seg) == 0 then s else FillFrom(Emit(s, t), window)
  }

  function Fill(s: Sender): Sender { FillFrom(s, EffectiveWindow(s)) }

  /** Drops the fully acknowledged segments from the front of the queue. */
  function PopAcked(s: Sender, ack: nat): Sender
    decreases |s.outstanding|
  {
    if s.outstanding != [] && s.outstanding[0].End() - 1 < ack then
      PopAcked(s.(outstanding := s.outstanding[1..],
                  inFlight := s.inFlight - Length(s.outstanding[0].seg)), ack)
    else s
  }

  /** Congestion control's reaction to an acknowledgment that released `acked` bytes. */
  function AckReno(s: Sender, ack: nat, acked: int): Sender
    requires s.reno.cwnd > 0 && s.reno.ssthresh > 0
  {
    if !s.reno.enabled then s
    else if acked > 0 then s.(reno := OnNewAck(s.reno, acked).(lastAck := ack))
    else if ack == s.reno.lastAck && s.outstanding != [] then
      var reno := OnDupAck(s.reno);
      s.(reno := reno,
         out := if reno.inRecovery && !s.reno.inRecovery then s.out + [s.outstanding[0]] else s.out)
    else s.(reno := s.reno.(lastAck := ack))
  }

  /** The retransmission timer's reaction. */
  function AckTimer(s: Sender, acked: int): Sender {
    var s' := if acked > 0
              then s.(retx := 0, timer := s.timer.SetTimeout(s.initialRto).Restart())
              else s;
    if s'.inFlight == 0 then s'.(timer := s'.timer.Stop()) else s'
  }

  /** Everything an acceptable acknowledgment does before the window is filled again. */
  function Acknowledge(s: Sender, ack: nat, window: u16): Sender
    requires s.reno.cwnd > 0 && s.reno.ssthresh > 0
  {
    var popped := PopAcked(s, ack);
    var acked := s.inFlight - popped.inFlight;
    PopKeepsReno(s, ack);
    AckTimer(AckReno(popped, ack, acked), acked).(window := window)
  }

  /** An acknowledgment of something not yet sent is ignored. */
  function ReceiveAck(s: Sender, ackno: u32, window: u16): Sender
    requires s.reno.cwnd > 0 && s.reno.ssthresh > 0
  {
    var ack := Unwrap(ackno, s.isn, s.next);
    if ack > s.next then s else Fill(Acknowledge(s, ack, window))
  }

  lemma {:induction false} PopKeepsReno(s: Sender, ack: nat)
    ensures PopAcked(s, ack).reno == s.reno
    decreases |s.outstanding|
  {
    if s.outstanding != [] && s.outstanding[0].End() - 1 < ack {
      PopKeepsReno(s.(outstanding := s.outstanding[1..],
                      inFlight := s.inFlight - Length(s.outstanding[0].seg)), ack);
    }
  }

  /** Sends the oldest outstanding segment again; the timeout doubles unless the peer's
      window is zero. */
  function Retransmit(s: Sender): Sender
    requires s.outstanding != []
  {
    var s1 := s.(reno := if s.reno.enabled then OnTimeout(s.reno) else s.reno,
                 out := s.out + [s.outstanding[0]]);
    var s2 := if s1.window > 0 then s1.(retx := s1.retx + 1, timer := s1.timer.Double()) else s1;
    s2.(timer := s2.timer.Restart())
  }

  function Tick(s: Sender, ms: nat): Sender {
    var s' := s.(timer := s.timer.Tick(ms));
    if s'.timer.Expired() && s'.outstanding != [] then Retransmit(s') else s'
  }

  function SendEmpty(s: Sender): Sender {
    s.(out := s.out + [Tagged(s.next, EmptySegment(Wrap(s.next, s.isn)))])
  }

  function WriteStream(s: Sender, data: seq<byte>): Sender { s.(stream := Write(s.stream, data)) }

  /** The stream would take bytes after the segment with its FIN has gone out. */
  predicate TooLate(s: Sender, data: seq<byte>) { s.finSent && data != [] && Room(s.stream) > 0 }

  function FailStream(s: Sender): Sender { s.(stream := SetError(s.stream)) }

  function EndStream(s: Sender): Sender { s.(stream := EndInput(s.stream)) }
}
