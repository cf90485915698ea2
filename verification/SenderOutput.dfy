/** What a sender hands to the wire: the new segments all go out, once and in order, between
    retransmissions and empty segments. */
module SenderOutput {
  import opened Words
  import opened ByteStreams
  import opened TCPSegments
  import opened SenderModel
  import opened SenderAccounting
  import opened SenderRuns

  /** What filling the window adds to the outstanding segments it adds to the outbound queue. */
  lemma {:induction false} FillOut(s: Sender)
    ensures s.outstanding <= s.FillWindow().outstanding
    ensures s.FillWindow().out == s.out + s.FillWindow().outstanding[|s.outstanding|..]
    decreases if s.next == 0 then 1 else 0, s.Room()
  {
    if !s.Filled() {
      FillOut(s.Send());
      var all, n := s.FillWindow().outstanding, |s.outstanding|;
      assert all[n] == s.Segment();
      assert all[n..] == [s.Segment()] + all[n + 1..];
      Regroup(s.out, [s.Segment()], all[n + 1..]);
    }
  }

  lemma {:induction false} FillLog(t: Track)
    ensures t.s.outstanding <= FillTrack(t).s.outstanding
    ensures FillTrack(t).log == t.log + FillTrack(t).s.outstanding[|t.s.outstanding|..]
    decreases if t.s.next == 0 then 1 else 0, t.s.Room()
  {
    if !t.s.Filled() {
      FillLog(t.(s := t.s.Send(), log := t.log + [t.s.Segment()]));
      var all, n := FillTrack(t).s.outstanding, |t.s.outstanding|;
      assert all[n] == t.s.Segment();
      assert all[n..] == [t.s.Segment()] + all[n + 1..];
      Regroup(t.log, [t.s.Segment()], all[n + 1..]);
    }
  }

  /** The call that queued a segment: filling the window, a tick, or a request for an empty one. */
  datatype Kind = Fresh | Again | Bare

  /** What the owner took from the outbound queue, and the kinds of all that was ever queued. */
  datatype Wire = Wire(drained: seq<TCPSegment>, kinds: seq<Kind>)

  function Times(k: Kind, n: nat): seq<Kind> {
    if n == 0 then [] else Times(k, n - 1) + [k]
  }

  /** How much longer the outbound queue is. */
  function Grown(s: Sender, s': Sender): nat {
    if |s.out| <= |s'.out| then |s'.out| - |s.out| else 0
  }

  /** The observer after one call. */
  function After(w: Wire, e: Event, s: Sender, s': Sender): Wire {
    match e
    case Drain(n) => w.(drained := w.drained + s.out[..Min(n, |s.out|)])
    case Fill => w.(kinds := w.kinds + Times(Fresh, Grown(s, s')))
    case Tick(_) => w.(kinds := w.kinds + Times(Again, Grown(s, s')))
    case Empty => w.(kinds := w.kinds + Times(Bare, Grown(s, s')))
    case _ => w
  }

  /** An observer that sees only the calls and the outbound queue. */
  function Observe(capacity: nat, timeout: u16, isn: u32, es: seq<Event>): Wire {
    if es == [] then Wire([], [])
    else
      var before := es[..|es| - 1];
      var w := Observe(capacity, timeout, isn, before);
      var s, s' := Run(capacity, timeout, isn, before).s, Run(capacity, timeout, isn, es).s;
      After(w, es[|es| - 1], s, s')
  }

  /** The segments of one kind. */
  function Only(q: seq<TCPSegment>, kinds: seq<Kind>, k: Kind): seq<TCPSegment>
    requires |q| == |kinds|
  {
    if q == [] then []
    else Only(q[..|q| - 1], kinds[..|q| - 1], k) + (if kinds[|q| - 1] == k then [q[|q| - 1]] else [])
  }

  lemma OnlyAppend(p: seq<TCPSegment>, ks: seq<Kind>, x: TCPSegment, j: Kind, k: Kind)
    requires |p| == |ks|
    ensures Only(p + [x], ks + [j], k) == Only(p, ks, k) + (if j == k then [x] else [])
  {
    assert (p + [x])[..|p|] == p && (ks + [j])[..|p|] == ks;
  }

  lemma {:induction false} TimesLength(k: Kind, n: nat)
    ensures |Times(k, n)| == n
  {
    if n > 0 {
      TimesLength(k, n - 1);
    }
  }

  lemma {:induction false} OnlyConcat(p: seq<TCPSegment>, ks: seq<Kind>, q: seq<TCPSegment>, j: Kind, k: Kind)
    requires |p| == |ks|
    ensures |Times(j, |q|)| == |q|
    ensures Only(p + q, ks + Times(j, |q|), k) == Only(p, ks, k) + (if j == k then q else [])
  {
    TimesLength(j, |q|);
    if q == [] {
      assert p + q == p && ks + [] == ks && Only(p, ks, k) + [] == Only(p, ks, k);
    } else {
      var q', x := q[..|q| - 1], q[|q| - 1];
      TimesLength(j, |q'|);
      OnlyConcat(p, ks, q', j, k);
      OnlyAppend(p + q', ks + Times(j, |q'|), x, j, k);
      assert q == q' + [x];
      Regroup(p, q', [x]);
      Regroup(ks, Times(j, |q'|), [j]);
      if j == k {
        Regroup(Only(p, ks, k), q', [x]);
      } else {
        assert Only(p, ks, k) + [] == Only(p, ks, k);
      }
    }
  }

  lemma Regroup<T>(a: seq<T>, b: seq<T>, c: seq<T>)
    ensures a + (b + c) == (a + b) + c
  {
  }

  /** Of everything queued so far, the fresh segments are the log, each once and in order; what
      was sent again was sent before; and the bare ones are empty. */
  ghost predicate Emitted(all: seq<TCPSegment>, kinds: seq<Kind>, log: seq<TCPSegment>) {
    && |all| == |kinds| && Only(all, kinds, Fresh) == log
    && (forall seg :: seg in Only(all, kinds, Again) ==> seg in log)
    && (forall seg :: seg in Only(all, kinds, Bare) ==> seg.Length() == 0)
  }

  lemma FreshEmitted(all: seq<TCPSegment>, kinds: seq<Kind>, log: seq<TCPSegment>, q: seq<TCPSegment>)
    requires Emitted(all, kinds, log)
    ensures Emitted(all + q, kinds + Times(Fresh, |q|), log + q)
  {
    OnlyConcat(all, kinds, q, Fresh, Fresh);
    OnlyConcat(all, kinds, q, Fresh, Again);
    OnlyConcat(all, kinds, q, Fresh, Bare);
  }

  lemma AgainEmitted(all: seq<TCPSegment>, kinds: seq<Kind>, log: seq<TCPSegment>, q: seq<TCPSegment>)
    requires Emitted(all, kinds, log) && forall seg :: seg in q ==> seg in log
    ensures Emitted(all + q, kinds + Times(Again, |q|), log)
  {
    OnlyConcat(all, kinds, q, Again, Fresh);
    OnlyConcat(all, kinds, q, Again, Again);
    OnlyConcat(all, kinds, q, Again, Bare);
  }

  lemma BareEmitted(all: seq<TCPSegment>, kinds: seq<Kind>, log: seq<TCPSegment>, q: seq<TCPSegment>)
    requires Emitted(all, kinds, log) && forall seg :: seg in q ==> seg.Length() == 0
    ensures Emitted(all + q, kinds + Times(Bare, |q|), log)
  {
    OnlyConcat(all, kinds, q, Bare, Fresh);
    OnlyConcat(all, kinds, q, Bare, Again);
    OnlyConcat(all, kinds, q, Bare, Bare);
  }

  ghost predicate Told(w: Wire, t: Track) {
    Emitted(w.drained + t.s.out, w.kinds, t.log)
  }

  lemma Longer(w: Wire, s: Sender, s': Sender, q: seq<TCPSegment>)
    requires s'.out == s.out + q
    ensures Grown(s, s') == |q| && w.drained + s'.out == (w.drained + s.out) + q
  {
  }

  lemma FillTold(w: Wire, t: Track)
    requires Told(w, t)
    ensures Told(After(w, Fill, t.s, FillTrack(t).s), FillTrack(t))
  {
    FillTrackIs(t);
    FillOut(t.s);
    FillLog(t);
    var q := t.s.FillWindow().outstanding[|t.s.outstanding|..];
    Longer(w, t.s, FillTrack(t).s, q);
    FreshEmitted(w.drained + t.s.out, w.kinds, t.log, q);
  }

  lemma TickTold(w: Wire, t: Track, ms: nat)
    requires Logged(t) && Told(w, t)
    ensures Told(After(w, Tick(ms), t.s, TickTrack(t, ms).s), TickTrack(t, ms))
  {
    var q := if |t.s.Tick(ms).out| == |t.s.out| then [] else [t.s.outstanding[0]];
    assert t.s.Tick(ms).out == t.s.out + q;
    Longer(w, t.s, t.s.Tick(ms), q);
    AgainEmitted(w.drained + t.s.out, w.kinds, t.log, q);
  }

  lemma EmptyTold(w: Wire, t: Track)
    requires Told(w, t)
    ensures Told(After(w, Empty, t.s, t.s.SendEmpty()), t.(s := t.s.SendEmpty()))
  {
    var q := t.s.SendEmpty().out[|t.s.out|..];
    Longer(w, t.s, t.s.SendEmpty(), q);
    BareEmitted(w.drained + t.s.out, w.kinds, t.log, q);
  }

  lemma DrainTold(w: Wire, t: Track, n: nat)
    requires Told(w, t)
    ensures var s' := t.s.(out := Rest(t.s.out, n)); Told(After(w, Drain(n), t.s, s'), t.(s := s'))
  {
    assert w.drained + t.s.out[..Min(n, |t.s.out|)] + Rest(t.s.out, n) == w.drained + t.s.out;
  }

  lemma StepTold(w: Wire, t: Track, e: Event)
    requires Logged(t) && Told(w, t)
    ensures Told(After(w, e, t.s, Step(t, e).s), Step(t, e))
  {
    match e
    case Fill => FillTold(w, t);
    case Tick(ms) => TickTold(w, t, ms);
    case Empty => EmptyTold(w, t);
    case Drain(n) => DrainTold(w, t, n);
    case Ack(ackno, win) => AckReceivedKeeps(t.s, ackno, win);
    case _ =>
  }

  /** Over every run: of what the owner took and what is still queued, the segments that filling
      the window made are exactly those of the log, each once and in order; the others are
      segments sent again and empty ones. */
  lemma {:induction false} RunEmits(capacity: nat, timeout: u16, isn: u32, es: seq<Event>)
    ensures var t, w := Run(capacity, timeout, isn, es), Observe(capacity, timeout, isn, es);
            Emitted(w.drained + t.s.out, w.kinds, t.log)
  {
    if es != [] {
      var before := es[..|es| - 1];
      RunEmits(capacity, timeout, isn, before);
      RunLogged(capacity, timeout, isn, before);
      StepTold(Observe(capacity, timeout, isn, before), Run(capacity, timeout, isn, before), es[|es| - 1]);
    }
  }
}
