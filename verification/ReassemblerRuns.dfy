/** What a reassembler does over whole runs of arriving pieces and reads: it refines a
    set of received stream indices, and its end-of-stream signal is exact precisely
    when no early end announcement meets an empty store. */
module ReassemblerRuns {
  import opened Words
  import opened ByteStreams
  import opened StreamReassemblers

  datatype Event =
    | Arrive(data: seq<byte>, index: nat, eof: bool)
    | Take(n: nat)

  function Step(r: Reassembler, e: Event): Reassembler {
    match e
    case Arrive(data, index, eof) => r.Push(data, index, eof)
    case Take(n) => r.Read(n)
  }

  function Run(capacity: nat, es: seq<Event>): Reassembler {
    if es == [] then NewReassembler(capacity) else Step(Run(capacity, es[..|es| - 1]), es[|es| - 1])
  }

  /** The stream indices `i` to `i + n - 1`. */
  function Span(i: nat, n: nat): set<nat> {
    if n == 0 then {} else Span(i, n - 1) + {i + n - 1}
  }

  lemma {:induction false} SpanIs(i: nat, n: nat)
    ensures forall k: nat :: k in Span(i, n) <==> i <= k < i + n
  {
    if n > 0 {
      SpanIs(i, n - 1);
    }
  }

  /** The stream's bytes at the given indices. */
  function Pick(stream: seq<byte>, keys: set<nat>): map<nat, byte> {
    map k | k in keys && k < |stream| :: stream[k]
  }

  /** The stream indices a piece carries. */
  function Carried(e: Event): set<nat> {
    if e.Arrive? then Span(e.index, |e.data|) else {}
  }

  /** The stream indices that the pieces of a run carried. */
  function Received(es: seq<Event>): set<nat> {
    if es == [] then {} else Received(es[..|es| - 1]) + Carried(es[|es| - 1])
  }

  predicate EofAnnounced(es: seq<Event>) {
    es != [] && ((es[|es| - 1].Arrive? && es[|es| - 1].eof) || EofAnnounced(es[..|es| - 1]))
  }

  /** The piece is a slice of the stream `stream`, and only its tail announces the end. */
  predicate SliceOf(stream: seq<byte>, e: Event) {
    e.Arrive? ==>
      && e.index + |e.data| <= |stream|
      && e.data == stream[e.index..e.index + |e.data|]
      && (e.eof ==> e.index + |e.data| == |stream|)
  }

  predicate InWindow(r: Reassembler, e: Event) {
    e.Arrive? && e.data != [] ==> e.index + |e.data| <= r.Edge()
  }

  /** Every piece is a slice of one stream and fits the window when it arrives. */
  predicate Behaved(stream: seq<byte>, capacity: nat, es: seq<Event>) {
    es == [] ||
    var before := es[..|es| - 1];
    && Behaved(stream, capacity, before)
    && SliceOf(stream, es[|es| - 1])
    && InWindow(Run(capacity, before), es[|es| - 1])
  }

  predicate Complete(stream: seq<byte>, got: set<nat>) {
    forall k :: 0 <= k < |stream| ==> k in got
  }

  /** Nothing received is waiting for an index before it. */
  predicate GapFree(got: set<nat>) {
    forall k :: k in got ==> forall j :: 0 <= j < k ==> j in got
  }

  /** The end is announced, nothing waits, and part of the stream is missing. */
  predicate Premature(stream: seq<byte>, es: seq<Event>) {
    EofAnnounced(es) && GapFree(Received(es)) && !Complete(stream, Received(es))
  }

  predicate NeverPremature(stream: seq<byte>, es: seq<Event>) {
    forall n :: 0 <= n <= |es| ==> !Premature(stream, es[..n])
  }

  /** Everything before `next` is received, and nothing past the stream or the window. */
  predicate Within(stream: seq<byte>, got: set<nat>, next: nat, edge: nat) {
    Span(0, next) <= got <= Span(0, |stream|) && got <= Span(0, edge)
  }

  /** The received bytes that `next` has not reached. */
  function Later(stream: seq<byte>, got: set<nat>, next: nat): map<nat, byte> {
    Pick(stream, got - Span(0, next))
  }

  /** The next index is the least one never received, the map holds exactly the later
      ones that were, with the stream's bytes; nothing lies past the window; and the
      output holds the stream up to the next index. */
  predicate Tracks(r: Reassembler, stream: seq<byte>, got: set<nat>) {
    && r.Valid()
    && r.next <= |stream|
    && Within(stream, got, r.next, r.output.taken + r.capacity) && r.next !in got
    && r.unassembled == Later(stream, got, r.next)
    && r.output.history == stream[..r.next]
  }

  /** Moreover the output has ended exactly when all of the stream and its end are known. */
  predicate Refines(r: Reassembler, stream: seq<byte>, got: set<nat>, eof: bool) {
    && Tracks(r, stream, got)
    && r.eofSeen == eof
    && (r.output.ended <==> eof && Complete(stream, got))
  }

  // Sets of indices in a window

  lemma {:induction false} WindowBound(s: set<nat>, lo: nat, n: nat)
    requires forall k :: k in s ==> lo <= k < lo + n
    ensures |s| <= n
  {
    if n == 0 {
      if k :| k in s { assert false; }
      assert s == {};
    } else {
      var t := s - {lo + n - 1};
      WindowBound(t, lo, n - 1);
      assert s <= t + {lo + n - 1};
      SetSize(s, t + {lo + n - 1});
    }
  }

  lemma {:induction false} SetSize<T>(a: set<T>, b: set<T>)
    requires a <= b
    ensures |a| <= |b|
  {
    if a != {} {
      var x :| x in a;
      SetSize(a - {x}, b - {x});
    }
  }

  /** Inside a window no larger than the capacity the size guard never stops an insertion. */
  lemma {:induction false} InsertFits(
    m: map<nat, byte>, capacity: nat, start: nat, data: seq<byte>, lo: nat, n: nat, k: nat)
    requires n <= capacity && lo <= start && start + |data| <= lo + n
    requires forall j :: j in m ==> lo <= j < lo + n
    ensures var r := Insert(m, capacity, start, data);
            && (k in r <==> k in m || start <= k < start + |data|)
            && (k in r ==> r[k] == if start <= k < start + |data| then data[k - start] else m[k])
  {
    if data != [] {
      var last := |data| - 1;
      InsertFits(m, capacity, start, data[..last], lo, n, k);
      InsertKeys(m, capacity, start, data[..last]);
      WindowBound(Insert(m, capacity, start, data[..last]).Keys, lo, n);
    }
  }

  // One arriving piece

  /** In the window nothing but bytes assembled before is cut off. */
  lemma UsefulPart(r: Reassembler, stream: seq<byte>, e: Event)
    requires r.Valid() && e.Arrive? && SliceOf(stream, e) && InWindow(r, e)
    ensures var start, useful := r.Start(e.index), r.Useful(e.data, e.index);
            if useful == [] then e.index + |e.data| <= r.next || e.data == []
            else start + |useful| == e.index + |e.data| <= r.Edge() && useful == stream[start..start + |useful|]
  {
  }

  /** An entry of the map once the piece is stored. */
  lemma StoredAt(r: Reassembler, stream: seq<byte>, e: Event, k: nat)
    requires r.Valid() && e.Arrive? && SliceOf(stream, e) && InWindow(r, e)
    requires forall j :: j in r.unassembled ==> j < r.Edge()
    ensures var stored := r.Stored(e.data, e.index);
            && (k in stored <==> k in r.unassembled || (r.next <= k && e.index <= k < e.index + |e.data|))
            && (k in stored ==> stored[k] == if e.index <= k < e.index + |e.data| then stream[k] else r.unassembled[k])
  {
    var start, useful := r.Start(e.index), r.Useful(e.data, e.index);
    UsefulPart(r, stream, e);
    if useful != [] {
      InsertFits(r.unassembled, r.capacity, start, useful, r.next, r.output.Room(), k);
    }
  }

  lemma StoredIsPicked(r: Reassembler, stream: seq<byte>, got: set<nat>, e: Event, k: nat)
    requires Tracks(r, stream, got)
    requires e.Arrive? && SliceOf(stream, e) && InWindow(r, e)
    ensures var stored, picked := r.Stored(e.data, e.index), Later(stream, got + Carried(e), r.next);
            (k in stored <==> k in picked) && (k in stored ==> stored[k] == picked[k])
  {
    SpanIs(e.index, |e.data|);
    SpanIs(0, r.next);
    SpanIs(0, r.output.taken + r.capacity);
    assert r.Edge() == r.output.taken + r.capacity;
    StoredAt(r, stream, e, k);
  }

  /** Storing the piece adds its indices to the map. */
  lemma ArrivalStores(r: Reassembler, stream: seq<byte>, got: set<nat>, e: Event)
    requires Tracks(r, stream, got)
    requires e.Arrive? && SliceOf(stream, e) && InWindow(r, e)
    ensures r.Stored(e.data, e.index) == Later(stream, got + Carried(e), r.next)
  {
    var stored, picked := r.Stored(e.data, e.index), Later(stream, got + Carried(e), r.next);
    forall k: nat ensures (k in stored <==> k in picked) && (k in stored ==> stored[k] == picked[k]) {
      StoredIsPicked(r, stream, got, e, k);
    }
  }

  /** Pieces in the window carry indices of the window. */
  lemma CarriedInside(r: Reassembler, stream: seq<byte>, got: set<nat>, e: Event)
    requires Tracks(r, stream, got) && SliceOf(stream, e) && InWindow(r, e)
    ensures Within(stream, got + Carried(e), r.next, r.output.taken + r.capacity)
  {
    if e.Arrive? {
      SpanIs(e.index, |e.data|);
      SpanIs(0, |stream|);
      SpanIs(0, r.output.taken + r.capacity);
    }
  }

  /** The run of received indices stops at the least one not received. */
  lemma RunEnds(stream: seq<byte>, got: set<nat>, next: nat, room: nat, n: nat)
    requires Within(stream, got, next, next + room) && n == RunLength(Later(stream, got, next), next, room)
    ensures Within(stream, got, next + n, next + room) && next + n !in got
  {
    var picked := Later(stream, got, next);
    HoldsAll(picked, next, n);
    SpanIs(0, next);
    SpanIs(0, |stream|);
    SpanIs(0, next + room);
    SpanIs(0, next + n);
    forall k: nat | k in Span(0, next + n) ensures k in got {
      if k >= next {
        assert k in picked;
      }
    }
    assert next + n !in picked;
  }

  /** Erasing the run leaves the later indices. */
  lemma {:induction false} RestIs(stream: seq<byte>, got: set<nat>, next: nat, n: nat)
    ensures Without(Later(stream, got, next), next, n) == Later(stream, got, next + n)
  {
    if n > 0 {
      RestIs(stream, got, next, n - 1);
    }
  }

  /** The run is the next part of the stream. */
  lemma RunIsStream(stream: seq<byte>, keys: set<nat>, next: nat, n: nat)
    requires Holds(Pick(stream, keys), next, n) && next <= |stream|
    ensures next + n <= |stream|
    ensures stream[..next] + Bytes(Pick(stream, keys), next, n) == stream[..next + n]
  {
    if n > 0 {
      BytesAt(Pick(stream, keys), next, n, n - 1);
      var bytes := Bytes(Pick(stream, keys), next, n);
      forall k | 0 <= k < n ensures bytes[k] == stream[next + k] {
        BytesAt(Pick(stream, keys), next, n, k);
      }
    }
  }

  /** The output after a run of stream bytes is assembled. */
  lemma AdvanceWrites(r: Reassembler, stream: seq<byte>, keys: set<nat>, stored: map<nat, byte>, n: nat, eof: bool)
    requires r.Valid() && r.next <= |stream| && r.output.history == stream[..r.next] && !r.output.ended
    requires stored == Pick(stream, keys) && Holds(stored, r.next, n) && n <= r.output.Room()
    ensures var r' := r.Advance(stored, n, eof);
            && r'.next <= |stream| && r'.output.history == stream[..r'.next]
            && (r'.output.ended <==> r'.eofSeen && r'.unassembled == map[])
  {
    RunIsStream(stream, keys, r.next, n);
    var bytes := Bytes(stored, r.next, n);
    assert bytes[..r.output.Accepted(bytes)] == bytes;
  }

  lemma AdvanceMoves(r: Reassembler, stored: map<nat, byte>, n: nat, eof: bool)
    requires Holds(stored, r.next, n)
    ensures var r' := r.Advance(stored, n, eof);
            && r'.next == r.next + n && r'.capacity == r.capacity && r'.output.taken == r.output.taken
            && r'.unassembled == Without(stored, r.next, n)
  {
  }

  lemma TracksFrom(r: Reassembler, stream: seq<byte>, got: set<nat>, next: nat, edge: nat)
    requires r.Valid() && r.next == next <= |stream| && r.output.history == stream[..r.next]
    requires r.output.taken + r.capacity == edge
    requires Within(stream, got, next, edge) && next !in got && r.unassembled == Later(stream, got, next)
    ensures Tracks(r, stream, got)
  {
  }

  /** The indices after a run of them is assembled. */
  lemma AdvanceSets(stream: seq<byte>, got: set<nat>, stored: map<nat, byte>, next: nat, room: nat, n: nat)
    requires Within(stream, got, next, next + room)
    requires stored == Later(stream, got, next) && n == RunLength(stored, next, room)
    ensures Within(stream, got, next + n, next + room) && next + n !in got
    ensures Without(stored, next, n) == Later(stream, got, next + n)
  {
    RunEnds(stream, got, next, room, n);
    RestIs(stream, got, next, n);
  }

  lemma AdvanceTracks(r: Reassembler, stream: seq<byte>, all: set<nat>, stored: map<nat, byte>, n: nat, eof: bool)
    requires r.Valid() && r.next <= |stream| && r.output.history == stream[..r.next] && !r.output.ended
    requires Within(stream, all, r.next, r.output.taken + r.capacity)
    requires stored == Later(stream, all, r.next) && n == RunLength(stored, r.next, r.output.Room())
    requires r.Advance(stored, n, eof).Valid()
    ensures var r' := r.Advance(stored, n, eof);
            && Tracks(r', stream, all)
            && (r'.output.ended <==> r'.eofSeen && r'.unassembled == map[])
  {
    RoomIs(r);
    AdvanceSets(stream, all, stored, r.next, r.output.Room(), n);
    AdvanceWrites(r, stream, all - Span(0, r.next), stored, n, eof);
    AdvanceMoves(r, stored, n, eof);
    TracksFrom(r.Advance(stored, n, eof), stream, all, r.next + n, r.next + r.output.Room());
  }

  lemma RoomIs(r: Reassembler)
    requires r.Valid() && |r.output.history| == r.next
    ensures r.next + r.output.Room() == r.output.taken + r.capacity
  {
  }

  /** The state after the piece, up to when the output ends. */
  lemma ArrivalTracks(r: Reassembler, stream: seq<byte>, got: set<nat>, e: Event)
    requires Tracks(r, stream, got) && !r.output.ended
    requires e.Arrive? && SliceOf(stream, e) && InWindow(r, e)
    ensures var r' := Step(r, e);
            && Tracks(r', stream, got + Carried(e))
            && (r'.output.ended <==> r'.eofSeen && r'.unassembled == map[])
  {
    var all := got + Carried(e);
    ArrivalStores(r, stream, got, e);
    CarriedInside(r, stream, got, e);
    PushKeepsValid(r, e.data, e.index, e.eof);
    var stored := Later(stream, all, r.next);
    AdvanceTracks(r, stream, all, stored, RunLength(stored, r.next, r.output.Room()), e.eof);
  }

  // Whole runs

  lemma {:induction false} SpanGrows(i: nat, m: nat, n: nat)
    requires m <= n
    ensures Span(i, m) <= Span(i, n)
  {
    SpanIs(i, m);
    SpanIs(i, n);
  }

  lemma TakeTracks(r: Reassembler, stream: seq<byte>, got: set<nat>, n: nat)
    requires Tracks(r, stream, got)
    ensures Tracks(r.Read(n), stream, got)
  {
    SpanGrows(0, r.output.taken + r.capacity, r.Read(n).output.taken + r.capacity);
  }

  /** Nothing waits exactly when what was received has no gap. */
  lemma EmptyMeansGapFree(r: Reassembler, stream: seq<byte>, got: set<nat>)
    requires Tracks(r, stream, got)
    ensures r.unassembled == map[] <==> GapFree(got)
    ensures Complete(stream, got) ==> r.next == |stream| && GapFree(got)
    ensures r.next == |stream| ==> Complete(stream, got)
  {
    SpanIs(0, r.next);
    SpanIs(0, |stream|);
    if r.unassembled == map[] {
      forall k | k in got ensures k < r.next {
        assert k !in r.unassembled;
      }
    } else {
      var k :| k in r.unassembled;
      assert k in got && r.next < k && r.next !in got;
    }
  }

  /** Once all of the stream is assembled, further slices change nothing. */
  lemma CompleteStays(r: Reassembler, stream: seq<byte>, got: set<nat>, e: Event)
    requires Tracks(r, stream, got) && Complete(stream, got) && r.output.ended && r.eofSeen
    requires e.Arrive? && SliceOf(stream, e)
    ensures Step(r, e) == r && got + Carried(e) == got
  {
    EmptyMeansGapFree(r, stream, got);
    SpanIs(e.index, |e.data|);
    assert r.Useful(e.data, e.index) == [];
    assert r.Stored(e.data, e.index) == r.unassembled == map[];
    assert r.output.Write([]) == r.output;
  }

  lemma StepRefines(r: Reassembler, stream: seq<byte>, got: set<nat>, eof: bool, e: Event)
    requires Refines(r, stream, got, eof) && SliceOf(stream, e) && InWindow(r, e)
    requires var eof' := eof || (e.Arrive? && e.eof);
             !(eof' && GapFree(got + Carried(e)) && !Complete(stream, got + Carried(e)))
    ensures Refines(Step(r, e), stream, got + Carried(e), eof || (e.Arrive? && e.eof))
  {
    if e.Take? {
      TakeTracks(r, stream, got, e.n);
      assert got + Carried(e) == got;
    } else if r.output.ended {
      CompleteStays(r, stream, got, e);
    } else {
      ArrivalTracks(r, stream, got, e);
      EmptyMeansGapFree(Step(r, e), stream, got + Carried(e));
    }
  }

  lemma NeverPrematureBefore(stream: seq<byte>, es: seq<Event>, n: nat)
    requires NeverPremature(stream, es) && n <= |es|
    ensures NeverPremature(stream, es[..n])
  {
    forall m | 0 <= m <= n ensures !Premature(stream, es[..n][..m]) {
      assert es[..n][..m] == es[..m];
    }
  }

  /** Refinement: over any run of slices of one stream that fit the window, interleaved
      with reads, the reassembler is determined by which indices were received. */
  lemma {:induction false} RunRefines(stream: seq<byte>, capacity: nat, es: seq<Event>)
    requires Behaved(stream, capacity, es) && NeverPremature(stream, es)
    ensures Refines(Run(capacity, es), stream, Received(es), EofAnnounced(es))
  {
    if es != [] {
      var n := |es| - 1;
      NeverPrematureBefore(stream, es, n);
      RunRefines(stream, capacity, es[..n]);
      assert !Premature(stream, es[..|es|]) && es[..|es|] == es;
      StepRefines(Run(capacity, es[..n]), stream, Received(es[..n]), EofAnnounced(es[..n]), es[n]);
    }
  }

  lemma {:induction false} BehavedBefore(stream: seq<byte>, capacity: nat, es: seq<Event>, n: nat)
    requires Behaved(stream, capacity, es) && n <= |es|
    ensures Behaved(stream, capacity, es[..n])
  {
    if n < |es| {
      BehavedBefore(stream, capacity, es[..|es| - 1], n);
      assert es[..|es| - 1][..n] == es[..n];
    } else {
      assert es[..n] == es;
    }
  }

  /** The output ended with the whole stream in it, or has not ended. */
  predicate EndedWhole(stream: seq<byte>, r: Reassembler) {
    r.output.ended ==> r.output.history == stream
  }

  /** A push that makes the run premature for the first time ends the output short. */
  lemma PrematureEndsShort(stream: seq<byte>, capacity: nat, es: seq<Event>)
    requires Behaved(stream, capacity, es) && Premature(stream, es)
    requires es != [] ==> NeverPremature(stream, es[..|es| - 1])
    ensures !EndedWhole(stream, Run(capacity, es))
  {
    var before, e := es[..|es| - 1], es[|es| - 1];
    var r, got := Run(capacity, before), Received(before);
    RunRefines(stream, capacity, before);
    assert before[..|before|] == before && !Premature(stream, before);
    assert e.Take? ==> got + Carried(e) == got;
    assert r.output.ended ==> Complete(stream, got + Carried(e));
    ArrivalTracks(r, stream, got, e);
    EmptyMeansGapFree(Step(r, e), stream, got + Carried(e));
  }

  lemma {:induction false} FirstPremature(stream: seq<byte>, es: seq<Event>) returns (n: nat)
    requires !NeverPremature(stream, es)
    ensures n <= |es| && Premature(stream, es[..n])
    ensures n > 0 ==> NeverPremature(stream, es[..n - 1])
  {
    assert |es| > 0 ==> forall i :: 0 <= i < |es| ==> es[..|es| - 1][..i] == es[..i];
    if |es| > 0 && !NeverPremature(stream, es[..|es| - 1]) {
      n := FirstPremature(stream, es[..|es| - 1]);
      assert es[..|es| - 1][..n] == es[..n];
      assert n > 0 ==> es[..|es| - 1][..n - 1] == es[..n - 1];
    } else {
      n := |es|;
      var m :| 0 <= m <= |es| && Premature(stream, es[..m]);
    }
  }

  /** End-of-stream exactness: the output only ever ends with the whole stream in it
      if and only if the end is never announced while nothing waits and something of
      the stream has not arrived. */
  lemma EndIsExact(stream: seq<byte>, capacity: nat, es: seq<Event>)
    requires Behaved(stream, capacity, es)
    ensures (forall n :: 0 <= n <= |es| ==> EndedWhole(stream, Run(capacity, es[..n])))
       <==> NeverPremature(stream, es)
  {
    if NeverPremature(stream, es) {
      forall n | 0 <= n <= |es| ensures EndedWhole(stream, Run(capacity, es[..n])) {
        BehavedBefore(stream, capacity, es, n);
        NeverPrematureBefore(stream, es, n);
        RunRefines(stream, capacity, es[..n]);
        EmptyMeansGapFree(Run(capacity, es[..n]), stream, Received(es[..n]));
      }
    } else {
      var n := FirstPremature(stream, es);
      BehavedBefore(stream, capacity, es, n);
      assert n > 0 ==> es[..n][..n - 1] == es[..n - 1];
      PrematureEndsShort(stream, capacity, es[..n]);
    }
  }

  /** The bare end of any stream, arriving before anything else, ends the output empty. */
  lemma EarlyEnd(stream: seq<byte>, capacity: nat)
    ensures var es := [Arrive([], |stream|, true)];
            && Behaved(stream, capacity, es)
            && Run(capacity, es).output.ended && Run(capacity, es).output.history == []
  {
    var e := Arrive([], |stream|, true);
    var r := NewReassembler(capacity);
    assert [e][..|[e]| - 1] == [];
    assert SliceOf(stream, e) && InWindow(r, e);
    assert r.Useful([], |stream|) == [] && r.Stored([], |stream|) == map[];
    assert Run(capacity, [e]) == Step(r, e);
  }

  /** A slice that carries the last byte, or an end that arrives when all before it is
      assembled, never makes a run premature. */
  lemma {:induction false} CarefulEnds(stream: seq<byte>, es: seq<Event>)
    requires forall n :: 0 <= n < |es| && es[n].Arrive? && es[n].eof ==>
               |stream| - 1 in Carried(es[n]) || Complete(stream, Received(es[..n]))
    ensures NeverPremature(stream, es)
  {
    forall n | 0 <= n <= |es| ensures !Premature(stream, es[..n]) {
      CarefulSoFar(stream, es, n);
    }
  }

  lemma {:induction false} CarefulSoFar(stream: seq<byte>, es: seq<Event>, n: nat)
    requires n <= |es|
    requires forall m :: 0 <= m < n && es[m].Arrive? && es[m].eof ==>
               |stream| - 1 in Carried(es[m]) || Complete(stream, Received(es[..m]))
    ensures EofAnnounced(es[..n]) ==> |stream| - 1 in Received(es[..n]) || Complete(stream, Received(es[..n]))
    ensures !Premature(stream, es[..n])
  {
    if n > 0 {
      CarefulSoFar(stream, es, n - 1);
      assert es[..n][..n - 1] == es[..n - 1];
    }
  }

  // Consequences of the refinement

  lemma {:induction false} RunKeeps(capacity: nat, es: seq<Event>)
    ensures Run(capacity, es).capacity == capacity && !Run(capacity, es).output.error
    ensures Run(capacity, es).output.capacity == capacity
  {
    if es != [] {
      RunKeeps(capacity, es[..|es| - 1]);
    }
  }

  /** Order, overlap and duplication do not matter: two runs that received the same
      indices and the same end announcement, and read equally much, end in one state. */
  lemma OrderIndependent(stream: seq<byte>, capacity: nat, es: seq<Event>, fs: seq<Event>)
    requires Behaved(stream, capacity, es) && NeverPremature(stream, es)
    requires Behaved(stream, capacity, fs) && NeverPremature(stream, fs)
    requires Received(es) == Received(fs) && EofAnnounced(es) == EofAnnounced(fs)
    requires Run(capacity, es).output.taken == Run(capacity, fs).output.taken
    ensures Run(capacity, es) == Run(capacity, fs)
  {
    var r, q, got := Run(capacity, es), Run(capacity, fs), Received(es);
    RunRefines(stream, capacity, es);
    RunRefines(stream, capacity, fs);
    RunKeeps(capacity, es);
    RunKeeps(capacity, fs);
    SpanIs(0, r.next);
    SpanIs(0, q.next);
  }

  /** What is buffered and what waits together stay within the capacity. */
  lemma WithinCapacity(stream: seq<byte>, capacity: nat, es: seq<Event>)
    requires Behaved(stream, capacity, es) && NeverPremature(stream, es)
    ensures |Run(capacity, es).unassembled| + Run(capacity, es).output.Buffered() <= capacity
  {
    RunRefines(stream, capacity, es);
    RunKeeps(capacity, es);
    KeysWithin(Run(capacity, es), stream, Received(es));
  }

  lemma KeysWithin(r: Reassembler, stream: seq<byte>, got: set<nat>)
    requires Tracks(r, stream, got)
    ensures |r.unassembled| + r.output.Buffered() <= r.capacity
  {
    SpanIs(0, r.next);
    SpanIs(0, r.output.taken + r.capacity);
    forall k | k in r.unassembled.Keys ensures r.next <= k < r.next + r.output.Room() {
      assert k in got;
    }
    WindowBound(r.unassembled.Keys, r.next, r.output.Room());
  }
}
