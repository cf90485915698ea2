/** The retransmission timer over every run (section 5 of RFC 6298). */
module SenderTimer {
  import opened Words
  import WrappingIntegers
  import opened TCPSegments
  import opened SenderModel
  import opened SenderAccounting
  import opened SenderRuns

  /** The timeout after `k` doublings. */
  function Backoff(initial: nat, k: nat): nat {
    if k == 0 then initial else 2 * Backoff(initial, k - 1)
  }

  lemma {:induction false} BackoffIs(initial: nat, k: nat)
    ensures Backoff(initial, k) == initial * Pow2(k)
  {
    if k > 0 {
      BackoffIs(initial, k - 1);
    }
  }

  lemma SixteenDoublings()
    ensures Pow2(16) == 0x1_0000
  {
    assert Pow2(2) == 4 && Pow2(4) == 0x10 && Pow2(6) == 0x40 && Pow2(8) == 0x100;
    assert Pow2(10) == 0x400 && Pow2(12) == 0x1000 && Pow2(14) == 0x4000;
  }

  lemma BackoffFits(initial: u16, k: nat)
    requires k <= 16
    ensures Backoff(initial, k) < 0x1_0000_0000
  {
    BackoffIs(initial, k);
    SixteenDoublings();
    PowGrows(k, 16);
    Times(initial, Pow2(k), 0xFFFF, 0x1_0000);
  }

  lemma {:induction false} PowGrows(k: nat, n: nat)
    requires k <= n
    ensures Pow2(k) <= Pow2(n)
    decreases n - k
  {
    if k < n {
      PowGrows(k + 1, n);
    }
  }

  lemma Times(a: nat, b: nat, c: nat, d: nat)
    requires a <= c && b <= d
    ensures a * b <= c * d
  {
    assert a * b <= c * b;
    assert c * b <= c * d;
  }

  lemma TimesLessOne(a: nat, b: nat)
    ensures a * (b - 1) == a * b - a
  {
  }

  /** The timeout is the initial one doubled per counted retransmission, as a 32-bit word;
      and while it has not overflowed, the doublings took the time they should. */
  predicate TimedFor(s: Sender, quiet: nat, backoffs: nat) {
    && s.rto == Backoff(s.initialRto, backoffs) % 0x1_0000_0000
    && s.retransmissions == backoffs % 0x1_0000_0000
    && (backoffs <= 17 ==> quiet + s.initialRto >= Backoff(s.initialRto, backoffs) + s.timer.elapsed)
    && (backoffs >= 9 ==> quiet + s.initialRto >= Backoff(s.initialRto, 9))
    && (!s.timer.running ==> s.timer.elapsed == 0)
  }

  predicate Timed(t: Track) {
    TimedFor(t.s, t.quiet, t.backoffs)
  }

  /** Nothing but the timer, the timeout and the count matters. */
  lemma SameTimed(s: Sender, s': Sender, quiet: nat, backoffs: nat)
    requires TimedFor(s, quiet, backoffs)
    requires s'.initialRto == s.initialRto && s'.rto == s.rto && s'.retransmissions == s.retransmissions
    requires s'.timer == s.timer
    ensures TimedFor(s', quiet, backoffs)
  {
  }

  lemma {:induction false} FillWindowTimed(s: Sender, quiet: nat, backoffs: nat)
    requires TimedFor(s, quiet, backoffs)
    ensures TimedFor(s.FillWindow(), quiet, backoffs) && s.FillWindow().initialRto == s.initialRto
    decreases if s.next == 0 then 1 else 0, s.Room()
  {
    if !s.Filled() {
      FillWindowTimed(s.Send(), quiet, backoffs);
    }
  }

  /** A pop restarts the back-off; no pop leaves it. */
  lemma {:induction false} PopAckedTimer(s: Sender, abs: u64)
    ensures var s' := s.PopAcked(abs);
            if |s'.outstanding| == |s.outstanding| then s' == s
            else |s'.outstanding| < |s.outstanding| && s'.initialRto == s.initialRto && s'.rto == s.initialRto
                 && s'.retransmissions == 0 && s'.timer == STARTED
    decreases |s.outstanding|
  {
    if s.FrontAcked(abs) {
      PopAckedTimer(s.PopFront(), abs);
    }
  }

  lemma AckTimer(s: Sender, ackno: u32, win: u16)
    ensures var s' := s.AckReceived(ackno, win);
            && s'.initialRto == s.initialRto && |s'.outstanding| <= |s.outstanding|
            && (|s'.outstanding| < |s.outstanding| ==> s'.rto == s.initialRto && s'.retransmissions == 0)
            && (|s'.outstanding| == |s.outstanding| ==> s'.rto == s.rto && s'.retransmissions == s.retransmissions)
            && (s'.timer == STOPPED || s'.timer == STARTED
                || (s'.timer == s.timer && |s'.outstanding| == |s.outstanding|))
  {
    PopAckedTimer(s.SetWindow(win), WrappingIntegers.Unwrap(ackno, s.isn, s.recent));
  }

  lemma AckTimed(s: Sender, quiet: nat, backoffs: nat, ackno: u32, win: u16)
    requires TimedFor(s, quiet, backoffs)
    ensures var s' := s.AckReceived(ackno, win);
            if |s'.outstanding| < |s.outstanding| then TimedFor(s', 0, 0) else TimedFor(s', quiet, backoffs)
  {
    AckTimer(s, ackno, win);
    var s' := s.AckReceived(ackno, win);
    if |s'.outstanding| < |s.outstanding| {
      FreshTimed(s');
    }
  }

  lemma FreshTimed(s: Sender)
    requires s.rto == s.initialRto && s.retransmissions == 0 && s.timer.elapsed == 0
    ensures TimedFor(s, 0, 0)
  {
  }

  /** Doubling a word and reducing is doubling the number and reducing. */
  lemma DoubleMod(x: nat)
    ensures (x % 0x1_0000_0000 * 2) % 0x1_0000_0000 == (2 * x) % 0x1_0000_0000
    ensures (x % 0x1_0000_0000 + 1) % 0x1_0000_0000 == (x + 1) % 0x1_0000_0000
  {
    var q, r := x / 0x1_0000_0000, x % 0x1_0000_0000;
    ModShift(2 * r, 2 * q);
    ModShift(r + 1, q);
  }

  /** The numbers of one doubling. */
  lemma Doubled(initial: u16, rto: u32, count: u32, elapsed: u32, quiet: nat, k: nat)
    requires rto == Backoff(initial, k) % 0x1_0000_0000 && count == k % 0x1_0000_0000 && elapsed >= rto
    requires k <= 17 ==> quiet + initial >= Backoff(initial, k) + elapsed
    requires k >= 9 ==> quiet + initial >= Backoff(initial, 9)
    ensures (rto * 2) % 0x1_0000_0000 == Backoff(initial, k + 1) % 0x1_0000_0000
    ensures (count + 1) % 0x1_0000_0000 == (k + 1) % 0x1_0000_0000
    ensures k + 1 <= 17 ==> quiet + initial >= Backoff(initial, k + 1)
    ensures k + 1 >= 9 ==> quiet + initial >= Backoff(initial, 9)
  {
    var b := Backoff(initial, k);
    assert Backoff(initial, k + 1) == 2 * b;
    DoubleMod(b);
    DoubleMod(k);
    if k <= 16 {
      BackoffFits(initial, k);
      assert quiet + initial >= 2 * b;
    }
  }

  lemma RetransmitTimed(s: Sender, quiet: nat, backoffs: nat)
    requires TimedFor(s, quiet, backoffs) && s.outstanding != [] && s.timer.elapsed >= s.rto
    ensures TimedFor(s.Retransmit(), quiet, if s.zeroWindow then backoffs else backoffs + 1)
  {
    Doubled(s.initialRto, s.rto, s.retransmissions, s.timer.elapsed, quiet, backoffs);
  }

  predicate Expires(s: Sender, ms: nat) {
    s.timer.running && s.Elapse(ms) >= s.rto
  }

  lemma TickTimed(s: Sender, quiet: nat, backoffs: nat, ms: nat)
    requires Accounted(s) && TimedFor(s, quiet, backoffs)
    ensures TimedFor(s.Tick(ms), quiet + ms, if Expires(s, ms) && !s.zeroWindow then backoffs + 1 else backoffs)
  {
    Elapsed(s.timer.elapsed, ms);
    if s.timer.running {
      var later := s.(timer := TimerState(s.Elapse(ms), true));
      assert TimedFor(later, quiet + ms, backoffs);
      if Expires(s, ms) {
        RetransmitTimed(later, quiet + ms, backoffs);
        assert s.Tick(ms) == later.Retransmit();
      }
    }
  }

  lemma Elapsed(elapsed: u32, ms: nat)
    ensures (elapsed + ms) % 0x1_0000_0000 <= elapsed + ms
  {
  }

  lemma StepTimed(t: Track, e: Event)
    requires Accounted(t.s) && Timed(t)
    ensures Timed(Step(t, e))
  {
    match e
    case Fill => FillTrackIs(t); FillWindowTimed(t.s, t.quiet, t.backoffs);
    case Ack(ackno, win) => AckTimed(t.s, t.quiet, t.backoffs, ackno, win);
    case Tick(ms) => TickTimed(t.s, t.quiet, t.backoffs, ms);
    case _ =>
  }

  lemma {:induction false} RunTimed(capacity: nat, timeout: u16, isn: u32, es: seq<Event>)
    ensures Timed(Run(capacity, timeout, isn, es))
    ensures Run(capacity, timeout, isn, es).s.initialRto == timeout
  {
    if es != [] {
      var t := Run(capacity, timeout, isn, es[..|es| - 1]);
      RunTimed(capacity, timeout, isn, es[..|es| - 1]);
      StepTimed(t, es[|es| - 1]);
      SameTimeout(t, es[|es| - 1]);
    }
  }

  lemma {:induction false} FillSameTimeout(s: Sender)
    ensures s.FillWindow().initialRto == s.initialRto
    decreases if s.next == 0 then 1 else 0, s.Room()
  {
    if !s.Filled() {
      FillSameTimeout(s.Send());
    }
  }

  lemma SameTimeout(t: Track, e: Event)
    requires Accounted(t.s)
    ensures Step(t, e).s.initialRto == t.s.initialRto
  {
    match e
    case Fill => FillTrackIs(t); FillSameTimeout(t.s);
    case Ack(ackno, win) => AckTimer(t.s, ackno, win);
    case _ =>
  }

  lemma TimedExactly(s: Sender, quiet: nat, backoffs: nat)
    requires TimedFor(s, quiet, backoffs) && backoffs <= 16
    ensures s.retransmissions == backoffs && s.rto == Backoff(s.initialRto, backoffs)
  {
    BackoffFits(s.initialRto, backoffs);
  }

  lemma TimedMeans(s: Sender, quiet: nat, backoffs: nat)
    requires TimedFor(s, quiet, backoffs)
    ensures backoffs <= 16 ==> s.retransmissions == backoffs && s.rto == s.initialRto * Pow2(backoffs)
    ensures backoffs <= 17 ==> quiet >= s.initialRto * (Pow2(backoffs) - 1)
  {
    if backoffs <= 16 {
      TimedExactly(s, quiet, backoffs);
    }
    assert backoffs <= 17 ==> quiet + s.initialRto >= Backoff(s.initialRto, backoffs);
    BackoffIs(s.initialRto, backoffs);
    TimesLessOne(s.initialRto, Pow2(backoffs));
  }

  /** Over every run: up to 16 counted retransmissions the timeout is exactly the initial
      one times 2^k, and k of them (up to 17) take at least initial * (2^k - 1) ms from
      the last newly acknowledged segment. */
  lemma BackoffTakesTime(capacity: nat, timeout: u16, isn: u32, es: seq<Event>)
    ensures var t := Run(capacity, timeout, isn, es);
            && (t.backoffs <= 16 ==> t.s.retransmissions == t.backoffs && t.s.rto == timeout * Pow2(t.backoffs))
            && (t.backoffs <= 17 ==> t.quiet >= timeout * (Pow2(t.backoffs) - 1))
            && (t.s.timer.running <==> t.s.outstanding != [])
  {
    var t := Run(capacity, timeout, isn, es);
    RunTimed(capacity, timeout, isn, es);
    TimedMeans(t.s, t.quiet, t.backoffs);
  }

  lemma NineDoublings(initial: nat)
    ensures Backoff(initial, 9) == 512 * initial
  {
    BackoffIs(initial, 9);
    assert Pow2(2) == 4 && Pow2(4) == 16 && Pow2(6) == 64 && Pow2(8) == 256;
  }

  lemma ManyRetransmissions(s: Sender, quiet: nat, backoffs: nat)
    requires TimedFor(s, quiet, backoffs) && s.retransmissions > 8
    ensures quiet >= 511 * s.initialRto
  {
    NineDoublings(s.initialRto);
  }

  /** So more than eight in a row, whatever came in between, come no sooner than 511
      timeouts after the last newly acknowledged segment. */
  lemma NinthRetransmission(capacity: nat, timeout: u16, isn: u32, es: seq<Event>)
    ensures var t := Run(capacity, timeout, isn, es);
            t.s.retransmissions > 8 ==> t.quiet >= 511 * timeout
  {
    var t := Run(capacity, timeout, isn, es);
    RunTimed(capacity, timeout, isn, es);
    if t.s.retransmissions > 8 {
      ManyRetransmissions(t.s, t.quiet, t.backoffs);
    }
  }
}
