/** The timer and the window of a sender, said by the calls alone. */
module SenderWatch {
  import opened Words
  import opened TCPSegments
  import opened SenderModel
  import opened SenderAccounting
  import opened SenderRuns
  import opened SenderTimer

  /** The milliseconds ticked since the timer last started, the retransmissions counted since a
      segment was last newly acknowledged, the window last advertised, at least 1, and whether an
      empty one ever was. */
  datatype Watch = Watch(since: nat, count: nat, window: nat, zero: bool)

  /** The time since the start reaches the timeout, doubled per counted retransmission, both as
      32-bit words. */
  predicate Due(timeout: u16, w: Watch, ms: nat) {
    (w.since + ms) % 0x1_0000_0000 >= (timeout * Pow2(w.count)) % 0x1_0000_0000
  }

  /** The timer starts with the first segment sent into an empty queue, a segment newly
      acknowledged, and a retransmission. */
  function Next(timeout: u16, w: Watch, e: Event, s: Sender, s': Sender): Watch {
    match e
    case Fill => if s.outstanding == [] then w.(since := 0) else w
    case Ack(_, win) =>
      var newly := |s'.outstanding| < |s.outstanding|;
      Watch(if newly then 0 else w.since, if newly then 0 else w.count,
            if win == 0 then 1 else win, w.zero || win == 0)
    case Tick(ms) =>
      if s.outstanding == [] then w
      else if Due(timeout, w, ms) then w.(since := 0, count := if w.zero then w.count else w.count + 1)
      else w.(since := w.since + ms)
    case _ => w
  }

  function Observe(capacity: nat, timeout: u16, isn: u32, es: seq<Event>): Watch {
    if es == [] then Watch(0, 0, 1, false)
    else
      var before := es[..|es| - 1];
      Next(timeout, Observe(capacity, timeout, isn, before), es[|es| - 1],
           Run(capacity, timeout, isn, before).s, Run(capacity, timeout, isn, es).s)
  }

  /** The sender's fields are what the observer says. */
  predicate Watched(timeout: u16, w: Watch, s: Sender) {
    && s.initialRto == timeout && s.window == w.window && s.zeroWindow == w.zero
    && s.rto == Backoff(timeout, w.count) % 0x1_0000_0000 && s.retransmissions == w.count % 0x1_0000_0000
    && (s.outstanding != [] ==> s.timer.elapsed == w.since % 0x1_0000_0000)
  }

  lemma DueIs(timeout: u16, w: Watch, s: Sender, ms: nat)
    requires Watched(timeout, w, s) && s.outstanding != []
    ensures Due(timeout, w, ms) <==> s.Elapse(ms) >= s.rto
    ensures s.Elapse(ms) == (w.since + ms) % 0x1_0000_0000
  {
    BackoffIs(timeout, w.count);
    var q := w.since / 0x1_0000_0000;
    assert w.since + ms == (w.since % 0x1_0000_0000 + ms) + 0x1_0000_0000 * q;
    ModShift(w.since % 0x1_0000_0000 + ms, q);
  }

  lemma RetransmitIs(timeout: u16, w: Watch, s: Sender)
    requires Watched(timeout, w, s) && s.outstanding != []
    ensures Watched(timeout, w.(since := 0, count := if w.zero then w.count else w.count + 1), s.Retransmit())
  {
    DoubleMod(Backoff(timeout, w.count));
    DoubleMod(w.count);
    assert Backoff(timeout, w.count + 1) == 2 * Backoff(timeout, w.count);
  }

  /** A tick retransmits exactly when it is due. */
  lemma TickIs(timeout: u16, w: Watch, s: Sender, ms: nat)
    requires Accounted(s) && Watched(timeout, w, s)
    ensures s.Tick(ms).out == s.out + (if s.outstanding != [] && Due(timeout, w, ms) then [s.outstanding[0]] else [])
    ensures Watched(timeout, Next(timeout, w, Tick(ms), s, s.Tick(ms)), s.Tick(ms))
  {
    assert s.out + [] == s.out;
    if s.outstanding != [] {
      DueIs(timeout, w, s, ms);
      RetransmitIs(timeout, w, s);
      if Due(timeout, w, ms) {
        assert s.Tick(ms) == s.Retransmit();
      } else {
        assert s.Tick(ms) == s.(timer := TimerState(s.Elapse(ms), true));
      }
    }
  }

  lemma AckIs(timeout: u16, w: Watch, s: Sender, ackno: u32, win: u16)
    requires Accounted(s) && Watched(timeout, w, s)
    ensures var s' := s.AckReceived(ackno, win);
            Watched(timeout, Next(timeout, w, Ack(ackno, win), s, s'), s')
  {
    AckTimes(s, ackno, win);
    AckWindow(s, ackno, win);
    AckNext(timeout, w, s, ackno, win, s.AckReceived(ackno, win));
  }

  /** A segment newly acknowledged restarts timer, timeout and count; otherwise they stay. */
  predicate Restarts(s: Sender, s': Sender) {
    && s'.initialRto == s.initialRto
    && if |s'.outstanding| < |s.outstanding|
       then && s'.rto == s.initialRto && s'.retransmissions == 0
            && (s'.outstanding != [] ==> s'.timer == STARTED)
       else && s'.rto == s.rto && s'.retransmissions == s.retransmissions && s'.outstanding == s.outstanding
            && (s'.outstanding != [] ==> s'.timer == s.timer)
  }

  predicate Advertised(s: Sender, win: u16, s': Sender) {
    s'.window == (if win == 0 then 1 else win) && s'.zeroWindow == (s.zeroWindow || win == 0)
  }

  lemma AckNext(timeout: u16, w: Watch, s: Sender, ackno: u32, win: u16, s': Sender)
    requires Watched(timeout, w, s) && Restarts(s, s') && Advertised(s, win, s')
    ensures Watched(timeout, Next(timeout, w, Ack(ackno, win), s, s'), s')
  {
    assert Backoff(timeout, 0) == timeout;
  }

  lemma AckTimes(s: Sender, ackno: u32, win: u16)
    ensures Restarts(s, s.AckReceived(ackno, win))
  {
    PopAckedTimer(s.SetWindow(win), WrappingIntegers.Unwrap(ackno, s.isn, s.recent));
  }

  lemma AckWindow(s: Sender, ackno: u32, win: u16)
    requires Accounted(s)
    ensures Advertised(s, win, s.AckReceived(ackno, win))
  {
    var abs := WrappingIntegers.Unwrap(ackno, s.isn, s.recent);
    SetWindowKeeps(s, win);
    PopAckedKeeps(s.SetWindow(win), abs);
  }

  lemma {:induction false} FillIs(timeout: u16, w: Watch, s: Sender)
    requires Accounted(s) && Watched(timeout, w, s)
    ensures Watched(timeout, Next(timeout, w, Fill, s, s.FillWindow()), s.FillWindow())
    decreases if s.next == 0 then 1 else 0, s.Room()
  {
    if !s.Filled() {
      SendKeeps(s);
      var w' := if s.outstanding == [] then w.(since := 0) else w;
      assert Watched(timeout, w', s.Send());
      FillIs(timeout, w', s.Send());
    }
  }

  lemma StepIs(timeout: u16, w: Watch, t: Track, e: Event)
    requires Accounted(t.s) && Watched(timeout, w, t.s)
    ensures Watched(timeout, Next(timeout, w, e, t.s, Step(t, e).s), Step(t, e).s)
  {
    match e
    case Fill => FillTrackIs(t); FillIs(timeout, w, t.s);
    case Ack(ackno, win) => AckIs(timeout, w, t.s, ackno, win);
    case Tick(ms) => TickIs(timeout, w, t.s, ms);
    case _ =>
  }

  lemma {:induction false} RunWatched(capacity: nat, timeout: u16, isn: u32, es: seq<Event>)
    ensures Watched(timeout, Observe(capacity, timeout, isn, es), Run(capacity, timeout, isn, es).s)
  {
    if es != [] {
      var before := es[..|es| - 1];
      RunWatched(capacity, timeout, isn, before);
      StepIs(timeout, Observe(capacity, timeout, isn, before), Run(capacity, timeout, isn, before), es[|es| - 1]);
    }
  }

  /** Over every run: a tick sends the oldest outstanding segment again, and nothing else, if and
      only if something is outstanding and the time ticked since the timer last started reaches
      the timeout times 2^k after k counted retransmissions. */
  lemma TickExactly(capacity: nat, timeout: u16, isn: u32, es: seq<Event>, ms: nat)
    ensures var s, w := Run(capacity, timeout, isn, es).s, Observe(capacity, timeout, isn, es);
            s.Tick(ms).out == s.out + (if s.outstanding != [] && Due(timeout, w, ms) then [s.outstanding[0]] else [])
  {
    RunWatched(capacity, timeout, isn, es);
    TickIs(timeout, Observe(capacity, timeout, isn, es), Run(capacity, timeout, isn, es).s, ms);
  }

  /** Over every run: the window in force is the one advertised last, at least 1, and the flag
      that stops the counting of retransmissions says that an empty one ever was. */
  lemma WindowIsLast(capacity: nat, timeout: u16, isn: u32, es: seq<Event>)
    ensures var s := Run(capacity, timeout, isn, es).s;
            s.window == LastWindow(es) && (s.zeroWindow <==> EverZero(es))
  {
    RunWatched(capacity, timeout, isn, es);
    ObservedWindow(capacity, timeout, isn, es);
  }

  function LastWindow(es: seq<Event>): nat {
    if es == [] then 1
    else
      match es[|es| - 1]
      case Ack(_, win) => if win == 0 then 1 else win
      case _ => LastWindow(es[..|es| - 1])
  }

  predicate EverZero(es: seq<Event>) {
    es != [] && ((es[|es| - 1].Ack? && es[|es| - 1].win == 0) || EverZero(es[..|es| - 1]))
  }

  lemma NextWindow(timeout: u16, w: Watch, e: Event, s: Sender, s': Sender)
    ensures var w' := Next(timeout, w, e, s, s');
            if e.Ack? then w'.window == (if e.win == 0 then 1 else e.win) && w'.zero == (w.zero || e.win == 0)
            else w'.window == w.window && w'.zero == w.zero
  {
  }

  lemma {:induction false} ObservedWindow(capacity: nat, timeout: u16, isn: u32, es: seq<Event>)
    ensures var w := Observe(capacity, timeout, isn, es); w.window == LastWindow(es) && (w.zero <==> EverZero(es))
  {
    if es != [] {
      var before := es[..|es| - 1];
      ObservedWindow(capacity, timeout, isn, before);
      NextWindow(timeout, Observe(capacity, timeout, isn, before), es[|es| - 1],
                 Run(capacity, timeout, isn, before).s, Run(capacity, timeout, isn, es).s);
    }
  }
}
