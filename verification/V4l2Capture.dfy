/** The capture loop of the histogram device: who owns which buffer, and which frames are decoded. */
module V4l2Capture {
  import opened Words
  import opened Modes
  import opened HistDecoder

  /** What one turn of the capture loop meets. A captured buffer comes with the contents of all buffers at that moment,
      the answers to QBUF, and the values of the shared variables that the decoder loads. */
  datatype Event =
    | SelectFailed | SelectTimeout | Again | DequeueFailed
    | Captured(index: nat, error: bool, used: nat, memory: seq<seq<byte>>, requeued: bool,
               running: bool, offset: nat, offsetUsed: nat)

  /** The loop ends on this event. An error buffer that could not be queued again is lost, but the loop goes on. */
  predicate Breaks(e: Event) {
    e.SelectFailed? || e.SelectTimeout? || e.DequeueFailed? || (e.Captured? && !e.error && !e.requeued)
  }

  /** The event brings a frame that is decoded. */
  predicate Decodes(mode: Mode, e: Event) { e.Captured? && !e.error && e.used == FrameBytes(mode) }

  /** The kernel's side of the contract: it hands out a buffer that is queued, no fuller than it is long. */
  predicate Honest(e: Event, queued: set<nat>) {
    e.Captured? ==> e.index in queued && e.index < |e.memory| && e.used <= |e.memory[e.index]|
  }

  /** The buffers that are queued after an event. */
  function QueuedAfter(queued: set<nat>, e: Event): set<nat> {
    if e.Captured? && !e.requeued then queued - {e.index} else queued
  }

  /** The events that the loop gets to see: up to the first that breaks it. */
  function Seen(events: seq<Event>): (r: seq<Event>)
    ensures r <= events
  {
    if events == [] then []
    else if Breaks(events[0]) then [events[0]]
    else [events[0]] + Seen(events[1..])
  }

  ghost predicate AllHonest(events: seq<Event>, queued: set<nat>)
    decreases |events|
  {
    events != [] ==> Honest(events[0], queued) && AllHonest(events[1..], QueuedAfter(queued, events[0]))
  }

  function QueuedAtEnd(events: seq<Event>, queued: set<nat>): set<nat>
    decreases |events|
  {
    if events == [] then queued else QueuedAtEnd(events[1..], QueuedAfter(queued, events[0]))
  }

  /** What one event makes the device deliver. */
  ghost function DeliveriesOf(mode: Mode, e: Event): seq<HistDelivery> {
    if Decodes(mode, e) && e.index < |e.memory| && e.used <= |e.memory[e.index]| then
      HistDeliveries(mode, e.memory[e.index][..e.used], e.running, e.offset, e.offsetUsed)
    else []
  }

  ghost function AllDeliveries(mode: Mode, events: seq<Event>): seq<HistDelivery> {
    if events == [] then [] else DeliveriesOf(mode, events[0]) + AllDeliveries(mode, events[1..])
  }

  /** The mapped buffers, shared with the kernel: only a buffer that is not queued may be read. */
  class VideoQueue {
    const count: nat
    var queued: set<nat>
    var memory: seq<seq<byte>>

    constructor (count: nat)
      ensures this.count == count && queued == {} && |memory| == count
    {
      this.count, queued, memory := count, {}, seq(count, _ => []);
    }

    /** VIDIOC_DQBUF: the kernel may have written to every buffer that was queued. */
    method Dequeue(e: Event)
      requires e.Captured? && Honest(e, queued)
      modifies this
      ensures queued == old(queued) - {e.index} && memory == e.memory
    {
      queued, memory := queued - {e.index}, e.memory;
    }

    /** VIDIOC_QBUF. */
    method Enqueue(index: nat, ok: bool)
      requires index !in queued
      modifies this`queued
      ensures queued == if ok then old(queued) + {index} else old(queued)
    {
      if ok { queued := queued + {index}; }
    }

    method Read(index: nat, used: nat) returns (s: seq<byte>)
      requires index !in queued && index < |memory| && used <= |memory[index]|
      ensures s == memory[index][..used]
    {
      s := memory[index][..used];
    }

    /** The end of v4l2_stream_on: all buffers are queued before streaming starts. */
    method QueueAll(answers: nat -> bool) returns (ok: bool)
      requires queued == {}
      modifies this`queued
      ensures ok <==> forall i :: 0 <= i < count ==> answers(i)
      ensures ok ==> forall i: nat :: i in queued <==> i < count
    {
      for i := 0 to count
        invariant forall j: nat :: j in queued <==> j < i
        invariant forall j :: 0 <= j < i ==> answers(j)
      {
        Enqueue(i, answers(i));
        if !answers(i) { return false; }
      }
      ok := true;
    }
  }

  /** run_v4l2 from the start of streaming until the device is stopped (the end of `events`) or an event breaks the
      loop. Only the buffer that was just dequeued is read, only in full frames, and every frame is delivered once, in
      order. */
  method RunV4l2(device: DeviceHist, queue: VideoQueue, events: seq<Event>) returns (running: bool)
    requires AllHonest(Seen(events), queue.queued)
    modifies device`points, device`delivered, queue
    ensures device.delivered == old(device.delivered) + AllDeliveries(device.mode, Seen(events))
    ensures queue.queued == QueuedAtEnd(Seen(events), old(queue.queued))
    ensures !running
  {
    hide FrameBytes, Breaks, Seen, AllHonest, QueuedAtEnd, AllDeliveries, HistDeliveries;
    ghost var total := device.delivered + AllDeliveries(device.mode, Seen(events));
    ghost var finally := QueuedAtEnd(Seen(events), queue.queued);
    var i := 0;
    assert events[0..] == events;
    while i < |events|
      invariant i <= |events| && AllHonest(Seen(events[i..]), queue.queued)
      invariant device.delivered + AllDeliveries(device.mode, Seen(events[i..])) == total
      invariant QueuedAtEnd(Seen(events[i..]), queue.queued) == finally
    {
      var e := events[i];
      NextEvent(device.mode, events, i, queue.queued);
      ghost var before, held := device.delivered, queue.queued;
      var goOn := Turn(device, queue, e);
      OneMore(before, DeliveriesOf(device.mode, e), AllDeliveries(device.mode, Seen(events[i + 1..])));
      if !goOn {
        return false;
      }
      i := i + 1;
    }
    assert events[i..] == [];
    NothingMore(device.mode, device.delivered, queue.queued);
    running := false;
  }

  /** The body of the capture loop. */
  method Turn(device: DeviceHist, queue: VideoQueue, e: Event) returns (goOn: bool)
    requires Honest(e, queue.queued)
    modifies device`points, device`delivered, queue
    ensures goOn <==> !Breaks(e)
    ensures device.delivered == old(device.delivered) + DeliveriesOf(device.mode, e)
    ensures queue.queued == QueuedAfter(old(queue.queued), e)
  {
    hide HistDeliveries;
    if e.SelectFailed? || e.SelectTimeout? || e.DequeueFailed? { return false; }
    if e.Again? { return true; }
    queue.Dequeue(e);
    if e.error {
      queue.Enqueue(e.index, e.requeued);
      return true;
    }
    if e.used == MODES[device.mode].frameWidth * MODES[device.mode].frameHeight * 2 {
      var frame := queue.Read(e.index, e.used);
      device.UnpackHistFrame(frame, e.running, e.offset, e.offsetUsed);
    }
    queue.Enqueue(e.index, e.requeued);
    goOn := e.requeued;
  }

  lemma NextEvent(mode: Mode, events: seq<Event>, i: nat, queued: set<nat>)
    requires i < |events| && AllHonest(Seen(events[i..]), queued)
    ensures Honest(events[i], queued)
    ensures !Breaks(events[i]) ==> AllHonest(Seen(events[i + 1..]), QueuedAfter(queued, events[i]))
    ensures AllDeliveries(mode, Seen(events[i..])) == DeliveriesOf(mode, events[i])
      + if Breaks(events[i]) then [] else AllDeliveries(mode, Seen(events[i + 1..]))
    ensures QueuedAtEnd(Seen(events[i..]), queued) ==
      if Breaks(events[i]) then QueuedAfter(queued, events[i])
      else QueuedAtEnd(Seen(events[i + 1..]), QueuedAfter(queued, events[i]))
  {
  }

  lemma OneMore(before: seq<HistDelivery>, now: seq<HistDelivery>, later: seq<HistDelivery>)
    ensures before + (now + later) == (before + now) + later
    ensures before + (now + []) == before + now
  {
  }

  lemma NothingMore(mode: Mode, before: seq<HistDelivery>, queued: set<nat>)
    ensures before + AllDeliveries(mode, Seen([])) == before && QueuedAtEnd(Seen([]), queued) == queued
  {
  }

  /** All buffers are back in the queue exactly when every one that was handed out was queued again; the answer for an
      error buffer, which the code does not look at, counts as well. */
  lemma {:induction false} AllBuffersBack(events: seq<Event>, queued: set<nat>)
    requires AllHonest(events, queued)
    ensures QueuedAtEnd(events, queued) <= queued
    ensures QueuedAtEnd(events, queued) == queued
      <==> forall k :: 0 <= k < |events| && events[k].Captured? ==> events[k].requeued
    decreases |events|
  {
    if events != [] {
      var rest, left := events[1..], QueuedAfter(queued, events[0]);
      AllBuffersBack(rest, left);
      assert forall k :: 0 < k < |events| ==> events[k] == rest[k - 1];
      if events[0].Captured? && !events[0].requeued {
        assert events[0].index in queued && events[0].index !in QueuedAtEnd(events, queued);
      } else if !(forall k :: 0 <= k < |events| && events[k].Captured? ==> events[k].requeued) {
        var k :| 0 <= k < |events| && events[k].Captured? && !events[k].requeued;
        assert rest[k - 1].Captured? && !rest[k - 1].requeued;
      } else {
        forall k | 0 <= k < |rest| && rest[k].Captured? ensures rest[k].requeued { assert rest[k] == events[k + 1]; }
      }
    }
  }

  /** Frames are neither reordered nor merged: what a run delivers is what its first part delivers, then the rest. */
  lemma {:induction false} DeliveriesInOrder(mode: Mode, a: seq<Event>, b: seq<Event>)
    ensures AllDeliveries(mode, a + b) == AllDeliveries(mode, a) + AllDeliveries(mode, b)
  {
    hide DeliveriesOf;
    if a == [] {
      assert a + b == b;
    } else {
      assert (a + b)[1..] == a[1..] + b;
      DeliveriesInOrder(mode, a[1..], b);
    }
  }

  /** A captured buffer is decoded exactly when it carries no error and is as long as a frame. */
  lemma WhatIsDecoded(mode: Mode, index: nat, error: bool, used: nat, memory: seq<seq<byte>>, requeued: bool,
                      running: bool, offset: nat, offsetUsed: nat, ds: seq<HistDelivery>)
    requires index < |memory| && used <= |memory[index]|
    requires ds == DeliveriesOf(mode, Captured(index, error, used, memory, requeued, running, offset, offsetUsed))
    ensures error || used != MODES[mode].banks * 33_600 ==> ds == []
    ensures !error && used == MODES[mode].banks * 33_600 ==>
      used == FrameBytes(mode) && ds == HistDeliveries(mode, memory[index][..used], running, offset, offsetUsed)
  {
    TableIsConsistent(mode);
  }

  /** Nothing else that the loop meets delivers anything. */
  lemma OthersDeliverNothing(mode: Mode)
    ensures DeliveriesOf(mode, SelectFailed) == [] && DeliveriesOf(mode, SelectTimeout) == []
    ensures DeliveriesOf(mode, Again) == [] && DeliveriesOf(mode, DequeueFailed) == []
  {
  }

  /** The events that end the loop, and those that do not. */
  lemma WhatBreaks(index: nat, error: bool, used: nat, memory: seq<seq<byte>>, requeued: bool, running: bool,
                   offset: nat, offsetUsed: nat)
    ensures Breaks(SelectFailed) && Breaks(SelectTimeout) && Breaks(DequeueFailed) && !Breaks(Again)
    ensures Breaks(Captured(index, error, used, memory, requeued, running, offset, offsetUsed)) <==> !error && !requeued
  {
  }

  /** The loop sees all events up to and including the first that ends it. */
  lemma {:induction false} SeenUpToBreak(events: seq<Event>, n: nat)
    requires n <= |events| && forall k :: 0 <= k < n ==> !Breaks(events[k])
    ensures n == |events| ==> Seen(events) == events
    ensures n < |events| && Breaks(events[n]) ==> Seen(events) == events[..n + 1]
    decreases n
  {
    if n > 0 {
      SeenUpToBreak(events[1..], n - 1);
      assert events == [events[0]] + events[1..];
    }
  }
}
