// The memory buffer under concurrency: adders, readers and clearers as interleaved
// atomic steps of operator/buffer/memory.go. A step is what happens between two points
// at which another goroutine can run: taking a permit, a channel send or receive, the
// atomic counter, one critical section of the in-flight lock, and giving permits back.
module BufferProtocol {
  import opened Sequences
  import opened Bags
  import opened MemoryBuffer

  /** The ids one read call has put in flight, and the positions already marked as flushed. */
  datatype Batch = Batch(ids: seq<nat>, marked: set<nat>)

  /** Where an id went: drawn for a batch, or placed in it. */
  datatype Owner = Drawn(batch: nat) | Placed(batch: nat, position: nat)

  /** `sending` are adders between their permit and the send, `holding` readers between
      the receive and the in-flight map, `drawn` the ids such readers have drawn already,
      `releasing` the permits clearers are about to give back. `accepted`, `flushed`,
      `owner`, `placed`, the entry that was put in flight under each id, and `sent` and
      `taken`, what went into the channel and came out of it, only record history. */
  datatype State<E> = State(
    max: nat,
    held: nat,
    sending: map<nat, E>,
    queue: seq<E>,
    holding: map<nat, E>,
    drawn: map<nat, nat>,
    batches: map<nat, Batch>,
    lastId: nat,
    inFlight: map<nat, E>,
    releasing: seq<nat>,
    accepted: multiset<E>,
    flushed: multiset<E>,
    owner: map<nat, Owner>,
    placed: map<nat, E>,
    sent: seq<E>,
    taken: seq<E>)

  datatype Action<E> =
    | Acquire(thread: nat, e: E)
    | Send(thread: nat)
    | Begin(batch: nat)
    | Receive(batch: nat)
    | Draw(batch: nat)
    | Insert(batch: nat)
    | Mark(batch: nat, start: nat, end: nat)
    | Release(i: nat)

  function Init<E>(max: nat): State<E> {
    State(max, 0, map[], [], map[], map[], map[], 0, map[], [], multiset{}, multiset{}, map[], map[], [], [])
  }

  /** What each step needs. Marking needs that no position of the range was marked before:
      each id is cleared at most once. */
  predicate Enabled<E>(s: State<E>, a: Action<E>) {
    match a
    case Acquire(t, _) => t !in s.sending && s.held < s.max
    case Send(t) => t in s.sending && |s.queue| < s.max
    case Begin(b) => b !in s.batches
    case Receive(b) => b in s.batches && b !in s.holding && s.queue != []
    case Draw(b) => b in s.holding && b !in s.drawn && s.lastId + 1 < TWO_TO_THE_64
    case Insert(b) => b in s.drawn && b in s.holding && b in s.batches
    case Mark(b, start, end) =>
      && b in s.batches && start <= end <= |s.batches[b].ids|
      && forall i :: start <= i < end ==> i !in s.batches[b].marked
    case Release(i) => i < |s.releasing| && s.releasing[i] <= s.held
  }

  function Positions(start: nat, end: nat): (r: set<nat>)
    ensures forall i :: i in r <==> start <= i < end
    decreases end - start
  {
    if start >= end then {} else {start} + Positions(start + 1, end)
  }

  ghost function Apply<E>(s: State<E>, a: Action<E>): State<E>
    requires Enabled(s, a)
  {
    match a
    case Acquire(t, e) =>
      s.(held := s.held + 1, sending := s.sending[t := e], accepted := s.accepted + multiset{e})
    case Send(t) =>
      s.(sending := s.sending - {t}, queue := s.queue + [s.sending[t]], sent := s.sent + [s.sending[t]])
    case Begin(b) =>
      s.(batches := s.batches[b := Batch([], {})])
    case Receive(b) =>
      s.(queue := s.queue[1..], holding := s.holding[b := s.queue[0]], taken := s.taken + [s.queue[0]])
    case Draw(b) =>
      s.(lastId := s.lastId + 1, drawn := s.drawn[b := s.lastId + 1], owner := s.owner[s.lastId + 1 := Drawn(b)])
    case Insert(b) =>
      var id, ids := s.drawn[b], s.batches[b].ids;
      s.(holding := s.holding - {b}, drawn := s.drawn - {b},
         inFlight := s.inFlight[id := s.holding[b]],
         batches := s.batches[b := s.batches[b].(ids := ids + [id])],
         owner := s.owner[id := Placed(b, |ids|)], placed := s.placed[id := s.holding[b]])
    case Mark(b, start, end) =>
      var ids := IdSet(s.batches[b].ids[start..end]);
      s.(inFlight := s.inFlight - ids,
         batches := s.batches[b := s.batches[b].(marked := s.batches[b].marked + Positions(start, end))],
         releasing := s.releasing + [end - start],
         flushed := s.flushed + Values(Taken(s.inFlight, ids)))
    case Release(i) =>
      s.(held := s.held - s.releasing[i], releasing := s.releasing[..i] + s.releasing[i + 1..])
  }

  // -------------------------------------------------------------- invariant

  function Sum(ns: seq<nat>): nat {
    if ns == [] then 0 else ns[0] + Sum(ns[1..])
  }

  /** Every permit held is accounted for. */
  ghost predicate Permits<E>(s: State<E>) {
    s.held == |s.sending| + |s.queue| + |s.holding| + |s.inFlight| + Sum(s.releasing) <= s.max
  }

  /** Every accepted entry is in exactly one place. */
  ghost predicate Conserved<E>(s: State<E>) {
    s.accepted == s.flushed + Values(s.sending) + multiset(s.queue) + Values(s.holding) + Values(s.inFlight)
  }

  /** Ids are drawn once, and placed once. */
  ghost predicate Owned<E>(s: State<E>) {
    && s.drawn.Keys <= s.holding.Keys <= s.batches.Keys
    && (forall id :: id in s.owner ==> id <= s.lastId)
    && (forall id :: id in s.inFlight ==> id in s.owner && s.owner[id].Placed?)
    && (forall b :: b in s.drawn ==> s.drawn[b] in s.owner && s.owner[s.drawn[b]] == Drawn(b))
    && (forall b, i :: b in s.batches && 0 <= i < |s.batches[b].ids| ==>
          s.batches[b].ids[i] in s.owner && s.owner[s.batches[b].ids[i]] == Placed(b, i))
  }

  /** What is not marked is still in flight. */
  ghost predicate Pending<E>(s: State<E>) {
    forall b, i :: b in s.batches && 0 <= i < |s.batches[b].ids| && i !in s.batches[b].marked ==>
      s.batches[b].ids[i] in s.inFlight
  }

  /** An id that was put in flight is where its owner says, and is still in flight exactly if
      it has not been marked. */
  ghost predicate AtHome<E>(s: State<E>, id: nat) {
    && id in s.owner && s.owner[id].Placed?
    && var b, i := s.owner[id].batch, s.owner[id].position;
       && b in s.batches && i < |s.batches[b].ids| && s.batches[b].ids[i] == id
       && (id in s.inFlight <==> i !in s.batches[b].marked)
  }

  ghost predicate HomeOf<E>(s: State<E>, id: nat, b: nat, i: nat) {
    id in s.placed && id in s.owner && s.owner[id] == Placed(b, i)
  }

  ghost predicate Homes<E>(s: State<E>) {
    && (forall id :: id in s.placed ==> AtHome(s, id))
    && (forall b, i :: b in s.batches && 0 <= i < |s.batches[b].ids| ==> HomeOf(s, s.batches[b].ids[i], b, i))
    && (forall b, i :: b in s.batches && i in s.batches[b].marked ==> i < |s.batches[b].ids|)
  }

  /** What has been put in flight is in flight or was flushed. */
  ghost predicate Cleared<E>(s: State<E>) {
    && (forall id :: id in s.inFlight ==> id in s.placed && s.placed[id] == s.inFlight[id])
    && s.flushed == Values(s.placed - s.inFlight.Keys)
  }

  /** Entries are taken in the order in which they were sent. */
  ghost predicate InOrder<E>(s: State<E>) {
    s.sent == s.taken + s.queue
  }

  ghost predicate Inv<E>(s: State<E>) {
    Permits(s) && Conserved(s) && Owned(s) && Pending(s) && Homes(s) && Cleared(s) && InOrder(s)
  }

  // ------------------------------------------------------------------- steps

  lemma {:induction false} SumConcat(a: seq<nat>, b: seq<nat>)
    ensures Sum(a + b) == Sum(a) + Sum(b)
  {
    if a == [] {
      assert a + b == b;
    } else {
      SumConcat(a[1..], b);
      assert (a + b)[1..] == a[1..] + b;
    }
  }

  lemma {:induction false} SumWithout(ns: seq<nat>, i: nat)
    requires i < |ns|
    ensures Sum(ns[..i] + ns[i + 1..]) == Sum(ns) - ns[i]
    decreases i
  {
    if i == 0 {
      assert ns[..0] + ns[1..] == ns[1..];
    } else {
      SumWithout(ns[1..], i - 1);
      assert (ns[..i] + ns[i + 1..])[1..] == ns[1..][..i - 1] + ns[1..][i..];
    }
  }

  lemma MarkedIds<E>(s: State<E>, b: nat, start: nat, end: nat)
    requires Owned(s) && Pending(s) && Enabled(s, Mark(b, start, end))
    ensures var ids := IdSet(s.batches[b].ids[start..end]);
            ids <= s.inFlight.Keys && |ids| == end - start
  {
    var part := s.batches[b].ids[start..end];
    forall i, j | 0 <= i < j < |part| ensures part[i] != part[j] {
      assert part[i] == s.batches[b].ids[start + i] && part[j] == s.batches[b].ids[start + j];
    }
    forall id | id in IdSet(part) ensures id in s.inFlight {
      var i :| 0 <= i < |part| && part[i] == id;
      assert part[i] == s.batches[b].ids[start + i];
    }
    IdSetSize(part);
  }

  lemma {:induction false} IdSetSize(ids: seq<nat>)
    requires Distinct(ids)
    ensures |IdSet(ids)| == |ids|
  {
    if ids != [] {
      var n := |ids| - 1;
      IdSetSize(ids[..n]);
      assert ids == ids[..n] + [ids[n]];
      assert IdSet(ids) == IdSet(ids[..n]) + {ids[n]};
      assert ids[n] !in IdSet(ids[..n]);
    }
  }

  lemma DrawnIsNew<E>(s: State<E>, b: nat)
    requires Owned(s) && b in s.drawn
    ensures s.drawn[b] !in s.inFlight && s.drawn[b] <= s.lastId
  {}

  lemma OneMore<E>(m: map<nat, E>, k: nat, e: E)
    requires k !in m
    ensures |m[k := e]| == |m| + 1
  {
    assert m[k := e].Keys == m.Keys + {k};
  }

  lemma OneFewer<E>(m: map<nat, E>, k: nat)
    requires k in m
    ensures |m - {k}| == |m| - 1
  {
    assert (m - {k}).Keys == m.Keys - {k};
  }

  lemma PermitsStep<E>(s: State<E>, a: Action<E>)
    requires Inv(s) && Enabled(s, a)
    ensures Permits(Apply(s, a))
  {
    hide Values, Conserved, Pending, Owned, Homes, Cleared, Permits, Apply;
    if a.Mark? {
      MarkPermits(s, a.batch, a.start, a.end);
    } else if a.Insert? {
      InsertPermits(s, a.batch);
    } else if a.Release? {
      ReleasePermits(s, a.i);
    } else {
      PassPermits(s, a);
    }
  }

  /** An entry moves on with its permit. */
  lemma PassPermits<E>(s: State<E>, a: Action<E>)
    requires Permits(s) && Enabled(s, a) && !a.Mark? && !a.Insert? && !a.Release?
    ensures Permits(Apply(s, a))
  {
    hide Sum;
    if a.Acquire? {
      OneMore(s.sending, a.thread, a.e);
    } else if a.Send? {
      OneFewer(s.sending, a.thread);
    } else if a.Receive? {
      OneMore(s.holding, a.batch, s.queue[0]);
    }
  }

  lemma InsertPermits<E>(s: State<E>, b: nat)
    requires Inv(s) && Enabled(s, Insert(b))
    ensures Permits(Apply(s, Insert(b)))
  {
    hide Values, Conserved, Pending, Owned, Homes, Cleared, Sum;
    DrawnIsNew(s, b);
    OneFewer(s.holding, b);
    OneMore(s.inFlight, s.drawn[b], s.holding[b]);
  }

  lemma ReleasePermits<E>(s: State<E>, i: nat)
    requires Permits(s) && Enabled(s, Release(i))
    ensures Permits(Apply(s, Release(i)))
  {
    hide Sum;
    SumWithout(s.releasing, i);
  }

  lemma MarkPermits<E>(s: State<E>, b: nat, start: nat, end: nat)
    requires Inv(s) && Enabled(s, Mark(b, start, end))
    ensures Permits(Apply(s, Mark(b, start, end)))
  {
    hide Values, Conserved, Pending, Owned, Taken, Positions, IdSet, Homes, Cleared;
    MarkedIds(s, b, start, end);
    InFlightLess(s.inFlight, IdSet(s.batches[b].ids[start..end]));
    SumConcat(s.releasing, [end - start]);
  }

  lemma InFlightLess<E>(m: map<nat, E>, ids: set<nat>)
    requires ids <= m.Keys
    ensures |m - ids| == |m| - |ids|
  {
    assert (m - ids).Keys == m.Keys - ids;
  }

  // Moving an entry from one place to another.

  lemma Moved<E>(a: multiset<E>, b: multiset<E>, c: multiset<E>, d: multiset<E>, f: multiset<E>, x: multiset<E>)
    ensures f + (a + x) + b + c + d == f + a + (b + x) + c + d
    ensures f + a + (b + x) + c + d == f + a + b + (c + x) + d
    ensures f + a + b + (c + x) + d == f + a + b + c + (d + x)
    ensures f + a + b + c + (d + x) == (f + x) + a + b + c + d
    ensures (f + a + b + c + d) + x == f + (a + x) + b + c + d
  {}

  lemma ConservedStep<E>(s: State<E>, a: Action<E>)
    requires Inv(s) && Enabled(s, a)
    ensures Conserved(Apply(s, a))
  {
    hide Values, Permits, Owned, Pending, Positions, IdSet, Taken, Homes, Cleared;
    var f, w, q, h, i := s.flushed, Values(s.sending), multiset(s.queue), Values(s.holding), Values(s.inFlight);
    match a
    case Acquire(t, e) =>
      ValuesAdd<nat, E>(s.sending, t, e);
      Moved(w, q, h, i, f, multiset{e});
    case Send(t) =>
      SendConserves(s, t);
    case Receive(b) =>
      ReceiveConserves(s, b);
    case Insert(b) =>
      InsertConserves(s, b);
    case Mark(b, start, end) =>
      MarkConserves(s, b, start, end);
    case _ =>
  }

  lemma SendConserves<E>(s: State<E>, t: nat)
    requires Inv(s) && Enabled(s, Send(t))
    ensures Conserved(Apply(s, Send(t)))
  {
    hide Values, Permits, Owned, Pending, Homes, Cleared;
    var e := s.sending[t];
    ValuesTake<E>(s.sending, t);
    Moved(Values(s.sending - {t}), multiset(s.queue), Values(s.holding), Values(s.inFlight), s.flushed, multiset{e});
    assert multiset(s.queue + [e]) == multiset(s.queue) + multiset{e};
  }

  lemma ReceiveConserves<E>(s: State<E>, b: nat)
    requires Inv(s) && Enabled(s, Receive(b))
    ensures Conserved(Apply(s, Receive(b)))
  {
    hide Values, Permits, Owned, Pending, Homes, Cleared;
    var e := s.queue[0];
    assert s.queue == [e] + s.queue[1..];
    assert multiset(s.queue) == multiset(s.queue[1..]) + multiset{e};
    ValuesAdd<nat, E>(s.holding, b, e);
    Moved(Values(s.sending), multiset(s.queue[1..]), Values(s.holding), Values(s.inFlight), s.flushed, multiset{e});
  }

  lemma InsertConserves<E>(s: State<E>, b: nat)
    requires Inv(s) && Enabled(s, Insert(b))
    ensures Conserved(Apply(s, Insert(b)))
  {
    hide Values, Permits, Owned, Pending, Homes, Cleared;
    var e, id := s.holding[b], s.drawn[b];
    DrawnIsNew(s, b);
    ValuesTake<E>(s.holding, b);
    ValuesAdd<nat, E>(s.inFlight, id, e);
    Moved(Values(s.sending), multiset(s.queue), Values(s.holding - {b}), Values(s.inFlight), s.flushed, multiset{e});
  }

  lemma MarkConserves<E>(s: State<E>, b: nat, start: nat, end: nat)
    requires Inv(s) && Enabled(s, Mark(b, start, end))
    ensures Conserved(Apply(s, Mark(b, start, end)))
  {
    hide Values, Permits, Owned, Pending, IdSet, Taken, Homes, Cleared;
    var ids := IdSet(s.batches[b].ids[start..end]);
    ValuesSplit<nat, E>(s.inFlight, ids);
    Moved(Values(s.sending), multiset(s.queue), Values(s.holding), Values(s.inFlight - ids), s.flushed,
          Values(Taken(s.inFlight, ids)));
  }

  lemma ValuesTake<E>(m: map<nat, E>, k: nat)
    requires k in m
    ensures Values(m) == Values(m - {k}) + multiset{m[k]}
  {
    ValuesRemove<nat, E>(m, k);
  }

  lemma OwnedStep<E>(s: State<E>, a: Action<E>)
    requires Inv(s) && Enabled(s, a)
    ensures Owned(Apply(s, a))
  {
    hide Values, Permits, Conserved, Pending, Positions, IdSet, Taken, Homes, Cleared;
    if a.Insert? {
      InsertOwns(s, a.batch);
    } else if a.Draw? {
      DrawOwns(s, a.batch);
    }
  }

  lemma InsertOwns<E>(s: State<E>, b: nat)
    requires Inv(s) && Enabled(s, Insert(b))
    ensures Owned(Apply(s, Insert(b)))
  {
    hide Values, Permits, Conserved, Pending, Homes, Cleared;
  }

  lemma DrawOwns<E>(s: State<E>, b: nat)
    requires Inv(s) && Enabled(s, Draw(b))
    ensures Owned(Apply(s, Draw(b)))
  {
    hide Values, Permits, Conserved, Pending, Homes, Cleared;
  }

  lemma PendingStep<E>(s: State<E>, a: Action<E>)
    requires Inv(s) && Enabled(s, a)
    ensures Pending(Apply(s, a))
  {
    hide Values, Permits, Conserved, Taken, Homes, Cleared;
    if a.Mark? {
      MarkPends(s, a.batch, a.start, a.end);
    }
  }

  lemma MarkPends<E>(s: State<E>, b: nat, start: nat, end: nat)
    requires Inv(s) && Enabled(s, Mark(b, start, end))
    ensures Pending(Apply(s, Mark(b, start, end)))
  {
    hide Values, Permits, Conserved, Taken, Homes, Cleared;
    var part := s.batches[b].ids[start..end];
    var s' := Apply(s, Mark(b, start, end));
    forall c, i | c in s'.batches && 0 <= i < |s'.batches[c].ids| && i !in s'.batches[c].marked
      ensures s'.batches[c].ids[i] in s'.inFlight
    {
      assert s.batches[c].ids[i] !in part;
    }
  }

  lemma HomesStep<E>(s: State<E>, a: Action<E>)
    requires Inv(s) && Enabled(s, a)
    ensures Homes(Apply(s, a))
  {
    hide Values, Permits, Conserved, Pending, Cleared, Homes, Owned;
    match a
    case Insert(b) => InsertHomes(s, b);
    case Mark(b, start, end) => MarkHomes(s, b, start, end);
    case Draw(b) => DrawHomes(s, b);
    case _ => OtherHomes(s, a);
  }

  /** Steps that neither draw an id nor put one in flight nor clear one. */
  lemma OtherHomes<E>(s: State<E>, a: Action<E>)
    requires Homes(s) && Enabled(s, a) && !a.Insert? && !a.Mark? && !a.Draw?
    ensures Homes(Apply(s, a))
  {
    hide Values;
    var s' := Apply(s, a);
    forall id | id in s'.placed ensures AtHome(s', id) {
      assert AtHome(s, id);
    }
  }

  lemma DrawHomes<E>(s: State<E>, b: nat)
    requires Inv(s) && Enabled(s, Draw(b))
    ensures Homes(Apply(s, Draw(b)))
  {
    hide Values, Permits, Conserved, Pending, Cleared;
    var s' := Apply(s, Draw(b));
    forall id | id in s'.placed ensures AtHome(s', id) {
      assert AtHome(s, id);
    }
  }

  lemma InsertHomes<E>(s: State<E>, b: nat)
    requires Inv(s) && Enabled(s, Insert(b))
    ensures Homes(Apply(s, Insert(b)))
  {
    hide Values, Permits, Conserved, Pending, Cleared, AtHome, HomeOf, Owned, Homes;
    var s' := Apply(s, Insert(b));
    DrawnIsUnplaced(s, b);
    forall x | x in s'.placed ensures AtHome(s', x) {
      InsertAtHome(s, b, x);
    }
    forall c, i | c in s'.batches && 0 <= i < |s'.batches[c].ids| ensures HomeOf(s', s'.batches[c].ids[i], c, i) {
      InsertHomeOf(s, b, c, i);
    }
    InsertMarked(s, b);
    HomesAre(s');
  }

  lemma HomesAre<E>(s: State<E>)
    requires forall id :: id in s.placed ==> AtHome(s, id)
    requires forall b, i :: b in s.batches && 0 <= i < |s.batches[b].ids| ==> HomeOf(s, s.batches[b].ids[i], b, i)
    requires forall b, i :: b in s.batches && i in s.batches[b].marked ==> i < |s.batches[b].ids|
    ensures Homes(s)
  {}

  lemma InsertAtHome<E>(s: State<E>, b: nat, x: nat)
    requires Homes(s) && Enabled(s, Insert(b)) && s.drawn[b] !in s.placed && x in Apply(s, Insert(b)).placed
    ensures AtHome(Apply(s, Insert(b)), x)
  {
    var s' := Apply(s, Insert(b));
    if x == s.drawn[b] {
      assert s'.batches[b].ids[|s.batches[b].ids|] == x;
    } else {
      assert AtHome(s, x);
    }
  }

  lemma InsertHomeOf<E>(s: State<E>, b: nat, c: nat, i: nat)
    requires Homes(s) && Enabled(s, Insert(b)) && s.drawn[b] !in s.placed
    requires var s' := Apply(s, Insert(b)); c in s'.batches && i < |s'.batches[c].ids|
    ensures var s' := Apply(s, Insert(b)); HomeOf(s', s'.batches[c].ids[i], c, i)
  {
    assert c in s.batches && i < |s.batches[c].ids| ==> HomeOf(s, s.batches[c].ids[i], c, i);
  }

  lemma InsertMarked<E>(s: State<E>, b: nat)
    requires Homes(s) && Enabled(s, Insert(b))
    ensures var s' := Apply(s, Insert(b));
            forall c, i :: c in s'.batches && i in s'.batches[c].marked ==> i < |s'.batches[c].ids|
  {}

  lemma DrawnIsUnplaced<E>(s: State<E>, b: nat)
    requires Owned(s) && Homes(s) && b in s.drawn
    ensures s.drawn[b] !in s.placed && s.drawn[b] !in s.inFlight
  {
    var id := s.drawn[b];
    assert id in s.placed ==> AtHome(s, id);
  }

  lemma MarkHomes<E>(s: State<E>, b: nat, start: nat, end: nat)
    requires Inv(s) && Enabled(s, Mark(b, start, end))
    ensures Homes(Apply(s, Mark(b, start, end)))
  {
    hide Values, Permits, Conserved, Pending, Cleared, Taken, Positions, IdSet;
    var s', ids := Apply(s, Mark(b, start, end)), IdSet(s.batches[b].ids[start..end]);
    forall x | x in s'.placed ensures AtHome(s', x) {
      assert AtHome(s, x);
      MarkedExactly(s, b, start, end, x);
    }
  }

  lemma ClearedStep<E>(s: State<E>, a: Action<E>)
    requires Inv(s) && Enabled(s, a)
    ensures Cleared(Apply(s, a))
  {
    hide Values, Permits, Conserved, Pending, Owned, Homes, IdSet, Positions, Taken;
    match a
    case Insert(b) =>
      var s' := Apply(s, a);
      DrawnIsUnplaced(s, b);
      assert s'.placed - s'.inFlight.Keys == s.placed - s.inFlight.Keys;
    case Mark(b, start, end) =>
      MarkedIds(s, b, start, end);
      FlushedMore(s.placed, s.inFlight, IdSet(s.batches[b].ids[start..end]));
    case _ =>
  }

  /** The ids of a range are those whose owner says so. */
  lemma MarkedExactly<E>(s: State<E>, b: nat, start: nat, end: nat, id: nat)
    requires b in s.batches && start <= end <= |s.batches[b].ids| && AtHome(s, id) && Owned(s)
    ensures id in IdSet(s.batches[b].ids[start..end])
            <==> s.owner[id].batch == b && start <= s.owner[id].position < end
  {
    var part := s.batches[b].ids[start..end];
    if id in IdSet(part) {
      var i :| 0 <= i < |part| && part[i] == id;
      assert s.batches[b].ids[start + i] == id;
    }
    if s.owner[id].batch == b && start <= s.owner[id].position < end {
      assert part[s.owner[id].position - start] == id;
    }
  }

  lemma FlushedMore<E>(placed: map<nat, E>, inFlight: map<nat, E>, ids: set<nat>)
    requires ids <= inFlight.Keys && forall id :: id in inFlight ==> id in placed && placed[id] == inFlight[id]
    ensures Values(placed - (inFlight - ids).Keys) == Values(placed - inFlight.Keys) + Values(Taken(inFlight, ids))
  {
    hide Values;
    var a, b := placed - inFlight.Keys, Taken(inFlight, ids);
    assert placed - (inFlight - ids).Keys == a + b;
    ValuesUnion(a, b);
  }

  lemma InOrderStep<E>(s: State<E>, a: Action<E>)
    requires InOrder(s) && Enabled(s, a)
    ensures InOrder(Apply(s, a))
  {
    if a.Send? {
      Associative(s.taken, s.queue, [s.sending[a.thread]]);
    } else if a.Receive? {
      MoveOne(s.taken, s.queue);
    }
  }

  lemma InvStep<E>(s: State<E>, a: Action<E>)
    requires Inv(s) && Enabled(s, a)
    ensures Inv(Apply(s, a))
  {
    hide Permits, Conserved, Owned, Pending, Homes, Cleared, InOrder, Apply, Enabled;
    InOrderStep(s, a);
    HomesStep(s, a);
    ClearedStep(s, a);
    PermitsStep(s, a);
    ConservedStep(s, a);
    OwnedStep(s, a);
    PendingStep(s, a);
  }

  // -------------------------------------------------------------------- runs

  /** Any interleaving of the steps of any number of goroutines. */
  ghost predicate Run<E(!new)>(max: nat, states: seq<State<E>>, actions: seq<Action<E>>) {
    && |states| == |actions| + 1 && states[0] == Init(max)
    && forall k :: 0 <= k < |actions| ==>
         Enabled(states[k], actions[k]) && states[k + 1] == Apply(states[k], actions[k])
  }

  lemma {:induction false} RunKeepsInv<E(!new)>(max: nat, states: seq<State<E>>, actions: seq<Action<E>>, k: nat)
    requires Run(max, states, actions) && k < |states|
    ensures Inv(states[k]) && states[k].max == max
    decreases k
  {
    if k > 0 {
      RunKeepsInv(max, states, actions, k - 1);
      InvStep(states[k - 1], actions[k - 1]);
      assert states[k] == Apply(states[k - 1], actions[k - 1]);
    }
  }

  predicate InBatch<E>(s: State<E>, b: nat, i: int) {
    b in s.batches && 0 <= i < |s.batches[b].ids|
  }

  /** In every state of every run: the permits held are those of the entries in transit,
      queued and in flight and of the clearers about to give theirs back, and never more
      than max_entries; a goroutine with a permit finds room in the channel; no clearer
      gives back more than is held; no id is handed out twice; every accepted entry is in one
      place or flushed; and entries are taken in the order in which they were sent. */
  lemma InterleavingsAreSafe<E(!new)>(max: nat, states: seq<State<E>>, actions: seq<Action<E>>, k: nat)
    requires Run(max, states, actions) && k < |states|
    ensures var s := states[k];
            && s.held == |s.sending| + |s.queue| + |s.holding| + |s.inFlight| + Sum(s.releasing) <= max
            && (forall t :: t in s.sending ==> Enabled(s, Send(t)))
            && (forall i :: 0 <= i < |s.releasing| ==> Enabled(s, Release(i)))
            && (forall b: nat, i, c: nat, j | InBatch(s, b, i) && InBatch(s, c, j) ::
                  s.batches[b].ids[i] == s.batches[c].ids[j] ==> b == c && i == j)
            && s.accepted == s.flushed + Values(s.sending) + multiset(s.queue) + Values(s.holding) + Values(s.inFlight)
            && s.sent == s.taken + s.queue
  {
    RunKeepsInv(max, states, actions, k);
    var s := states[k];
    forall t | t in s.sending ensures |s.sending| > 0 {
      assert s.sending.Keys != {};
    }
    forall i | 0 <= i < |s.releasing| ensures s.releasing[i] <= Sum(s.releasing) {
      SumWithout(s.releasing, i);
    }
  }
}