/**
 * The elos log transmitter: writers enqueue events and then count and signal under a lock; the
 * transmitter drains the buffer and sleeps on the condition variable only if the count is zero.
 */
module ElosLog {

  datatype Event = Event(writer: nat, id: nat)

  /** A writer between enqueueing its event and signalling it is pending. */
  datatype Writer = Ready | Pending(event: Event)

  /** The transmitter: about to drain, publishing a batch, about to look at the counter, or asleep. */
  datatype Transmitter = Reading | Publishing(batch: seq<Event>) | Checking | Asleep(signalled: bool)

  /** `written` and `published` record, in order, what went into and came out of the log. */
  datatype Log = Log(
    buffer: seq<Event>,
    counter: int,
    writers: seq<Writer>,
    transmitter: Transmitter,
    written: seq<Event>,
    published: seq<Event>)

  datatype Label =
    | Write(w: nat, id: nat)
    | Signal(w: nat)
    | Transmit
    | Spurious

  predicate Enabled(s: Log, l: Label) {
    match l
    case Write(w, _) => w < |s.writers| && s.writers[w] == Ready
    case Signal(w) => w < |s.writers| && s.writers[w].Pending?
    case Transmit => s.transmitter != Asleep(false)
    case Spurious => s.transmitter == Asleep(false)
  }

  /** The transmitter's next step: drain, publish, test the counter, wake up. */
  function TransmitterStep(s: Log): Log {
    match s.transmitter
    case Reading => s.(buffer := [], transmitter := Publishing(s.buffer))
    case Publishing(batch) => s.(published := s.published + batch, transmitter := Checking)
    case Checking =>
      if s.counter > 0 then s.(counter := 0, transmitter := Reading) else s.(transmitter := Asleep(false))
    case Asleep(signalled) => if signalled then s.(transmitter := Reading) else s
  }

  function Next(s: Log, l: Label): Log
    requires Enabled(s, l)
  {
    match l
    case Write(w, id) =>
      var e := Event(w, id);
      s.(buffer := s.buffer + [e], writers := s.writers[w := Pending(e)], written := s.written + [e])
    case Signal(w) =>
      s.(counter := s.counter + 1,
         writers := s.writers[w := Ready],
         transmitter := if s.transmitter == Asleep(false) then Asleep(true) else s.transmitter)
    case Transmit => TransmitterStep(s)
    case Spurious => s.(transmitter := Reading)
  }

  ghost predicate Initial(s: Log) {
    s.buffer == [] && s.counter == 0 && s.transmitter == Reading && s.written == [] && s.published == []
    && forall w :: 0 <= w < |s.writers| ==> s.writers[w] == Ready
  }

  ghost predicate IsRun(ss: seq<Log>, ls: seq<Label>) {
    && |ss| == |ls| + 1
    && forall i :: 0 <= i < |ls| ==> Enabled(ss[i], ls[i]) && ss[i + 1] == Next(ss[i], ls[i])
  }

  /** The event's writer has not signalled it yet. */
  predicate IsPending(s: Log, e: Event) {
    e.writer < |s.writers| && s.writers[e.writer] == Pending(e)
  }

  function InFlight(s: Log): seq<Event> {
    if s.transmitter.Publishing? then s.transmitter.batch else []
  }

  ghost predicate Inv(s: Log) {
    && s.counter >= 0
    && s.written == s.published + InFlight(s) + s.buffer
    && (s.transmitter == Asleep(false) ==> s.counter == 0)
    && (s.counter == 0 && s.transmitter != Reading && s.transmitter != Asleep(true) ==>
          forall e :: e in s.buffer ==> IsPending(s, e))
  }

  lemma StepKeeps(s: Log, l: Label)
    requires Inv(s) && Enabled(s, l)
    ensures Inv(Next(s, l))
  {
    var s' := Next(s, l);
    match l
    case Write(w, id) =>
      assert s'.written == s'.published + InFlight(s') + s'.buffer;
    case Signal(w) =>
    case Transmit =>
      if s.transmitter.Publishing? {
        assert s'.published + [] + s'.buffer == s.published + s.transmitter.batch + s.buffer;
      } else if s.transmitter.Reading? {
        assert s.published + [] + s.buffer == s.published + s.buffer + [];
      }
    case Spurious =>
  }

  lemma {:induction false} RunKeeps(ss: seq<Log>, ls: seq<Label>, k: nat)
    requires IsRun(ss, ls) && Initial(ss[0]) && k <= |ls|
    ensures Inv(ss[k])
  {
    if k > 0 {
      RunKeeps(ss, ls, k - 1);
      StepKeeps(ss[k - 1], ls[k - 1]);
    }
  }

  /**
   * No missed event: whenever the transmitter is asleep and unsignalled, every event still in the
   * buffer belongs to a writer that has not yet counted and signalled it.
   */
  lemma NoMissedEvent(ss: seq<Log>, ls: seq<Label>, k: nat, e: Event)
    requires IsRun(ss, ls) && Initial(ss[0]) && k <= |ls|
    requires ss[k].transmitter == Asleep(false) && e in ss[k].buffer
    ensures IsPending(ss[k], e)
  {
    RunKeeps(ss, ls, k);
  }

  /** The events of the first k steps, in the order of their writing. */
  function Writes(ls: seq<Label>, k: nat): seq<Event>
    requires k <= |ls|
  {
    if k == 0 then []
    else Writes(ls, k - 1) + (if ls[k - 1].Write? then [Event(ls[k - 1].w, ls[k - 1].id)] else [])
  }

  lemma {:induction false} WrittenIsLabels(ss: seq<Log>, ls: seq<Label>, k: nat)
    requires IsRun(ss, ls) && Initial(ss[0]) && k <= |ls|
    ensures ss[k].written == Writes(ls, k)
  {
    if k > 0 {
      WrittenIsLabels(ss, ls, k - 1);
      assert ss[k] == Next(ss[k - 1], ls[k - 1]);
    }
  }

  /** Nothing is lost, duplicated or reordered on the way. */
  lemma InOrder(ss: seq<Log>, ls: seq<Label>, k: nat)
    requires IsRun(ss, ls) && Initial(ss[0]) && k <= |ls|
    ensures ss[k].published + InFlight(ss[k]) + ss[k].buffer == Writes(ls, k)
  {
    RunKeeps(ss, ls, k);
    WrittenIsLabels(ss, ls, k);
  }

  // ---- how soon an event is published ----

  ghost predicate NoWriterPending(s: Log) {
    forall w :: 0 <= w < |s.writers| ==> s.writers[w] == Ready
  }

  /** n steps of the transmitter alone. */
  function TransmitterRun(s: Log, n: nat): Log
    decreases n
  {
    if n == 0 then s else TransmitterRun(TransmitterStep(s), n - 1)
  }

  /** Once the log is completely published the transmitter alone keeps it so. */
  lemma {:induction false} DrainedStays(s: Log, n: nat)
    requires Inv(s) && NoWriterPending(s) && s.published == s.written
    ensures TransmitterRun(s, n).published == s.written
    decreases n
  {
    assert s.published + (InFlight(s) + s.buffer) == s.published + InFlight(s) + s.buffer;
    assert |s.published + (InFlight(s) + s.buffer)| == |s.published| + |InFlight(s)| + |s.buffer|;
    if n > 0 {
      var s' := TransmitterStep(s);
      if s.transmitter != Asleep(false) {
        StepKeeps(s, Transmit);
      }
      assert s'.published == s.written;
      DrainedStays(s', n - 1);
    }
  }

  /** The step brings a log without pending writers closer to being published. */
  function Distance(s: Log): nat {
    match s.transmitter
    case Reading => 2
    case Publishing(_) => if s.buffer == [] then 1 else 4
    case Checking => if s.counter > 0 then 3 else 0
    case Asleep(signalled) => if signalled then 3 else 0
  }

  lemma {:induction false} DrainsWithin(s: Log, n: nat)
    requires Inv(s) && NoWriterPending(s) && n >= Distance(s)
    ensures TransmitterRun(s, n).published == s.written
    decreases n
  {
    if Distance(s) == 0 {
      NoneHeld(s);
      assert s.published + [] + [] == s.published;
      DrainedStays(s, n);
    } else {
      var s' := TransmitterStep(s);
      StepKeeps(s, Transmit);
      if s.transmitter.Publishing? && s.buffer == [] {
        assert s'.published == s.published + InFlight(s) + s.buffer;
        DrainedStays(s', n - 1);
      } else {
        PublishingLate(s);
        DrainsWithin(s', n - 1);
      }
    }
  }

  /** Something that arrived during publishing has been counted already. */
  lemma PublishingLate(s: Log)
    requires Inv(s) && NoWriterPending(s) && Distance(s) > 0 && !(s.transmitter.Publishing? && s.buffer == [])
    ensures Distance(TransmitterStep(s)) < Distance(s)
  {
    if s.transmitter.Publishing? && s.counter == 0 {
      NoneHeld(s);
    }
  }

  lemma FirstIsIn(events: seq<Event>)
    requires |events| > 0
    ensures events[0] in events
  {
  }

  /** Without pending writers and without a count, the buffer is empty. */
  lemma NoneHeld(s: Log)
    requires Inv(s) && NoWriterPending(s) && s.counter == 0 && s.transmitter != Reading && s.transmitter != Asleep(true)
    ensures s.buffer == []
  {
    if |s.buffer| > 0 {
      FirstIsIn(s.buffer);
      assert false;
    }
  }

  /**
   * Prompt transmission: at any point of a run where no writer is pending, the transmitter has
   * published everything ever written after at most four of its own steps.
   */
  lemma PublishedSoon(ss: seq<Log>, ls: seq<Label>, k: nat, n: nat)
    requires IsRun(ss, ls) && Initial(ss[0]) && k <= |ls| && NoWriterPending(ss[k]) && n >= 4
    ensures TransmitterRun(ss[k], n).published == Writes(ls, k)
  {
    RunKeeps(ss, ls, k);
    WrittenIsLabels(ss, ls, k);
    DrainsWithin(ss[k], n);
  }
}
