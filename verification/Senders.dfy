/** The sender's program: it keeps its state in fields and updates them in place. */
module Senders {
  import opened FixedWidth
  import opened WrappingIntegers
  import opened ByteStreams
  import opened TcpSegments
  import opened SenderModel
  import opened SenderInvariants
  import opened SenderRuns

  class RetransmissionTimer {
    var timeCount: u32
    var timeOut: u32
    var isRunning: bool

    ghost function View(): Timer
      reads this
    {
      Timer(timeCount, timeOut, isRunning)
    }

    constructor (timeOut: u32)
      ensures View() == Timer(0, timeOut, false)
    {
      timeCount, this.timeOut, isRunning := 0, timeOut, false;
    }

    method Stop()
      modifies this
      ensures View() == old(View()).Stop()
    {
      isRunning := false;
    }

    method SetTimeOut(timeOut: u32)
      modifies this
      ensures View() == old(View()).SetTimeout(timeOut)
    {
      this.timeOut := timeOut;
    }

    method Restart()
      modifies this
      ensures View() == old(View()).Restart()
    {
      isRunning, timeCount := true, 0;
    }

    method Tick(ms: nat)
      modifies this
      ensures View() == old(View()).Tick(ms)
    {
      if isRunning {
        timeCount := (timeCount + ms) % TWO_32;
      }
    }
  }

  class TCPSender {
    const isn: u32
    const initialRto: u16
    const stream: ByteStream
    const timer: RetransmissionTimer
    const congestionControl: bool
    var segmentsOut: seq<Tagged>  // each with the absolute number it was made for
    var nextSeqno: nat
    var outstanding: seq<Tagged>
    var retransmissions: nat
    var bytesInFlight: int
    var windowSize: u16
    var synFlag: bool
    var finFlag: bool
    var cwnd: nat
    var ssthresh: nat
    var dupAckCount: u32
    var lastAckno: nat
    var inFastRecovery: bool

    ghost predicate Shape()
      reads this, stream
    {
      stream.Valid()
    }

    ghost function Congestion(): Reno
      reads this
    {
      Reno(congestionControl, cwnd, ssthresh, dupAckCount, lastAckno, inFastRecovery)
    }

    ghost function View(): Sender
      reads this, stream, timer
      requires Shape()
    {
      Sender(isn, initialRto, stream.View(), nextSeqno, timer.View(), outstanding, retransmissions,
             bytesInFlight, windowSize, synFlag, finFlag, Congestion(), segmentsOut)
    }

    ghost predicate Valid()
      reads this, stream, timer
    {
      Shape() && SenderInv(View())
    }

    constructor (capacity: nat, rto: u16, isn: u32, congestionControl: bool)
      ensures Valid() && View() == NewSender(capacity, rto, isn, congestionControl)
      ensures fresh(stream) && fresh(timer)
    {
      this.isn, initialRto, this.congestionControl := isn, rto, congestionControl;
      stream := new ByteStream(capacity);
      timer := new RetransmissionTimer(rto);
      segmentsOut, nextSeqno, outstanding, retransmissions := [], 0, [], 0;
      bytesInFlight, windowSize, synFlag, finFlag := 0, 1, false, false;
      cwnd, ssthresh, dupAckCount, lastAckno, inFastRecovery := MAX_PAYLOAD_SIZE, TWO_64 - 1, 0, 0, false;
      new;
      assert Pow2(0) == 1;
    }

    method EffectiveWindowSize() returns (window: nat)
      requires Shape()
      ensures window == EffectiveWindow(View())
    {
      var advertised := Max(windowSize, 1);
      if !congestionControl {
        return advertised;
      }
      return Min(advertised, cwnd);
    }

    method FillWindow()
      requires Shape()
      modifies this, stream, timer
      ensures Shape() && View() == Fill(old(View()))
    {
      var window := EffectiveWindowSize();
      var more := true;
      while more && bytesInFlight < window
        invariant Shape()
        invariant FillFrom(View(), window) == FillFrom(old(View()), window)
        invariant !more ==> View() == FillFrom(View(), window)
        decreases more, window - bytesInFlight
      {
        more := SendNext(window);
      }
    }

    /** One round of the filling loop; `more` is false when there was nothing to send. */
    method SendNext(window: nat) returns (more: bool)
      requires Shape() && bytesInFlight < window
      modifies this, stream, timer
      ensures Shape()
      ensures var t := NextSegment(old(View()), window);
              && more == (Length(t.seg) > 0)
              && View() == if more then Emit(old(View()), t) else old(View())
    {
      hide NextSegment, Wrap, Flatten;
      var seg := BuildNext(window);
      more := Length(seg) > 0;
      if more {
        Enqueue(seg.(header := seg.header.(seqno := Wrap(nextSeqno, isn))));
      }
    }

    /** Takes the next payload from the stream; the sequence number is still missing. */
    method BuildNext(window: nat) returns (seg: Segment)
      requires Shape() && bytesInFlight < window
      modifies this`synFlag, this`finFlag, stream
      ensures Shape()
      ensures Tagged(nextSeqno, seg.(header := seg.header.(seqno := Wrap(nextSeqno, isn))))
              == NextSegment(old(View()), window)
      ensures stream.View() == Pop(old(stream.View()), |seg.payload|)
      ensures synFlag == (old(synFlag) || seg.header.syn) && finFlag == (old(finFlag) || seg.header.fin)
    {
      hide Wrap, Flatten;
      seg := Segment(DEFAULT_HEADER, []);
      if !synFlag {
        seg := seg.(header := seg.header.(syn := true));
        synFlag := true;
      }
      var size := Min(MAX_PAYLOAD_SIZE,
                      Min(window - bytesInFlight - (if seg.header.syn then 1 else 0), stream.BufferSize()));
      var payload := stream.ReadBytes(size);
      seg := seg.(payload := payload);
      if !finFlag && stream.inputEnded && stream.BufferSize() == 0 && bytesInFlight + Length(seg) < window {
        seg := seg.(header := seg.header.(fin := true));
        finFlag := true;
      }
    }

    /** Sends a segment for the first time and keeps a copy. */
    method Enqueue(seg: Segment)
      requires Shape()
      modifies this`segmentsOut, this`outstanding, this`nextSeqno, this`bytesInFlight, timer
      ensures Shape()
      ensures segmentsOut == old(segmentsOut) + [Tagged(old(nextSeqno), seg)]
      ensures outstanding == old(outstanding) + [Tagged(old(nextSeqno), seg)]
      ensures nextSeqno == old(nextSeqno) + Length(seg) && bytesInFlight == old(bytesInFlight) + Length(seg)
      ensures timer.View() == if old(timer.isRunning) then old(timer.View()) else old(timer.View()).Restart()
    {
      segmentsOut := segmentsOut + [Tagged(nextSeqno, seg)];
      if !timer.isRunning {
        timer.Restart();
      }
      outstanding := outstanding + [Tagged(nextSeqno, seg)];
      nextSeqno := nextSeqno + Length(seg);
      bytesInFlight := bytesInFlight + Length(seg);
    }

    method AckReceived(ackno: u32, window: u16)
      requires Valid()
      modifies this, stream, timer
      ensures Valid() && View() == ReceiveAck(old(View()), ackno, window)
    {
      AckKeeps(View(), ackno, window);
      var ack := Unwrap(ackno, isn, nextSeqno);
      if ack > nextSeqno {
        return;
      }
      AcknowledgeKeeps(View(), ack, window);
      HandleAck(ack, window);
      FillWindow();
    }

    /** Everything before the window is filled again. */
    method HandleAck(ack: nat, window: u16)
      requires Valid()
      modifies this, timer
      ensures Shape() && View() == Acknowledge(old(View()), ack, window)
    {
      hide SeqInv, TimerInv, PopAcked, AckReno, AckTimer;
      PopKeepsReno(View(), ack);
      PopKeeps(View(), ack);
      var newlyAcked := PopOutstanding(ack);
      UpdateCongestion(ack, newlyAcked);
      UpdateTimer(newlyAcked);
      windowSize := window;
    }

    method UpdateCongestion(ack: nat, newlyAcked: nat)
      requires Shape() && cwnd > 0 && ssthresh > 0
      modifies this`cwnd, this`ssthresh, this`inFastRecovery, this`dupAckCount, this`segmentsOut, this`lastAckno
      ensures Shape() && View() == AckReno(old(View()), ack, newlyAcked)
    {
      if congestionControl {
        if newlyAcked > 0 {
          OnNewAck(newlyAcked);
        } else if ack == lastAckno {
          OnDupAck();
        }
        lastAckno := ack;
      }
    }

    method UpdateTimer(newlyAcked: nat)
      requires Shape()
      modifies this`retransmissions, timer
      ensures Shape() && View() == AckTimer(old(View()), newlyAcked)
    {
      if newlyAcked > 0 {
        retransmissions := 0;
        timer.SetTimeOut(initialRto);
        timer.Restart();
      }
      if bytesInFlight == 0 {
        timer.Stop();
      }
    }

    method PopOutstanding(ack: nat) returns (newlyAcked: nat)
      requires Shape()
      modifies this`outstanding, this`bytesInFlight
      ensures Shape() && View() == PopAcked(old(View()), ack)
      ensures newlyAcked == old(bytesInFlight) - bytesInFlight
    {
      newlyAcked := 0;
      while outstanding != []
        invariant PopAcked(View(), ack) == PopAcked(old(View()), ack)
        invariant newlyAcked == old(bytesInFlight) - bytesInFlight
        decreases |outstanding|
      {
        var t := outstanding[0];
        if t.abs + Length(t.seg) - 1 < ack {
          newlyAcked := newlyAcked + Length(t.seg);
          bytesInFlight := bytesInFlight - Length(t.seg);
          outstanding := outstanding[1..];
        } else {
          break;
        }
      }
    }

    method OnNewAck(newlyAcked: nat)
      requires cwnd > 0 && ssthresh > 0
      modifies this`cwnd, this`inFastRecovery, this`dupAckCount
      ensures Congestion() == SenderModel.OnNewAck(old(Congestion()), newlyAcked)
    {
      if inFastRecovery {
        cwnd := ssthresh;
        inFastRecovery := false;
      }
      if cwnd < ssthresh {
        cwnd := cwnd + newlyAcked;
      } else {
        cwnd := cwnd + Increment(newlyAcked, cwnd);
      }
      dupAckCount := 0;
    }

    method OnDupAck()
      modifies this`cwnd, this`ssthresh, this`inFastRecovery, this`dupAckCount, this`segmentsOut
      ensures if old(outstanding) == [] then Congestion() == old(Congestion())
              else Congestion() == SenderModel.OnDupAck(old(Congestion()))
      ensures segmentsOut == if inFastRecovery && !old(inFastRecovery) && outstanding != []
                             then old(segmentsOut) + [outstanding[0]] else old(segmentsOut)
    {
      if outstanding == [] {
        return;
      }
      dupAckCount := (dupAckCount + 1) % TWO_32;
      if dupAckCount == 3 && !inFastRecovery {
        ssthresh := Max(cwnd / 2, 2 * MAX_PAYLOAD_SIZE);
        cwnd := ssthresh + 3 * MAX_PAYLOAD_SIZE;
        inFastRecovery := true;
        segmentsOut := segmentsOut + [outstanding[0]];
      } else if inFastRecovery && dupAckCount > 3 {
        cwnd := cwnd + MAX_PAYLOAD_SIZE;
      }
    }

    method OnCongestionTimeout()
      modifies this`cwnd, this`ssthresh, this`inFastRecovery, this`dupAckCount
      ensures Congestion() == OnTimeout(old(Congestion()))
    {
      ssthresh := Max(cwnd / 2, 2 * MAX_PAYLOAD_SIZE);
      cwnd := MAX_PAYLOAD_SIZE;
      dupAckCount := 0;
      inFastRecovery := false;
    }

    method TickClock(ms: nat)
      requires Valid()
      modifies this, timer
      ensures Valid() && View() == Tick(old(View()), ms)
    {
      hide SeqInv, TimerInv, RenoInv;
      TickKeeps(View(), ms);
      timer.Tick(ms);
      if timer.isRunning && timer.timeCount >= timer.timeOut && outstanding != [] {
        Retransmit();
      }
    }

    /** The reaction to an expired timer. */
    method Retransmit()
      requires Shape() && outstanding != [] && timer.View().Expired()
      modifies this, timer
      ensures Shape() && View() == SenderModel.Retransmit(old(View()))
      ensures windowSize == 0 ==> retransmissions == old(retransmissions) && timer.timeOut == old(timer.timeOut)
      ensures congestionControl ==> cwnd == 1000
    {
      if congestionControl {
        OnCongestionTimeout();
      }
      segmentsOut := segmentsOut + [outstanding[0]];
      if windowSize > 0 {
        retransmissions := retransmissions + 1;
        timer.SetTimeOut(timer.timeOut * 2 % TWO_32);
      }
      timer.Restart();
    }

    method SendEmptySegment()
      requires Valid()
      modifies this`segmentsOut
      ensures Valid() && View() == SendEmpty(old(View()))
    {
      SendEmptyKeeps(View());
      segmentsOut := segmentsOut + [Tagged(nextSeqno, EmptySegment(Wrap(nextSeqno, isn)))];
    }
  }
}
