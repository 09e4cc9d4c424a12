/** Streaming the log to a consumer while it is appended to and pruned. */
module LogStream {
  import opened Wrappers
  import opened Ledger
  import opened OrderedTable
  import opened ChainDb
  import opened WriteAheadLog
  import opened ChainRuns
  import opened Bytes
  import RS = RollStage

  /** `last` is the last sequence number sent (or the consumer's start), `closed` after a gap. */
  datatype Stream = Stream(last: nat, sent: seq<Log>, closed: bool)

  function Skip<T>(s: seq<T>): seq<T> {
    if s == [] then [] else s[1..]
  }

  function Drain(last: nat, sent: seq<Log>, es: seq<Entry<Log>>): Stream
    decreases |es|
  {
    if es == [] then Stream(last, sent, false)
    else if es[0].key != last + 1 then Stream(last, sent, true)
    else Drain(es[0].key, sent + [es[0].value], es[1..])
  }

  /** One wake-up: iterate from the last number, skip the first entry, send while there is no gap. */
  function Poll(log: seq<Entry<Log>>, st: Stream): Stream {
    if st.closed then st else Drain(st.last, st.sent, Skip(From(log, st.last)))
  }

  method PollStream(log: seq<Entry<Log>>, st: Stream) returns (r: Stream)
    ensures r == Poll(log, st)
  {
    if st.closed {
      return st;
    }
    var es := Skip(From(log, st.last));
    var last, sent := st.last, st.sent;
    for i := 0 to |es|
      invariant Drain(last, sent, es[i..]) == Drain(st.last, st.sent, es)
    {
      assert es[i..][1..] == es[i + 1..];
      if es[i].key != last + 1 {
        return Stream(last, sent, true);
      }
      sent := sent + [es[i].value];
      last := es[i].key;
    }
    r := Stream(last, sent, false);
  }

  // ---- The log as everything ever appended ----

  ghost predicate Contiguous(log: seq<Entry<Log>>, next: nat) {
    |log| <= next && forall i :: 0 <= i < |log| ==> log[i].key == next - |log| + i
  }

  function Values(es: seq<Entry<Log>>): (r: seq<Log>)
    ensures |r| == |es|
  {
    seq(|es|, i requires 0 <= i < |es| => es[i].value)
  }

  lemma ContiguousSuffix(es: seq<Entry<Log>>, next: nat, n: nat)
    requires Contiguous(es, next) && n <= |es|
    ensures Contiguous(es[n..], next)
    ensures forall i :: 0 <= i < |es| - n ==> es[n..][i].key == next - |es| + n + i
  {
  }

  lemma ContiguousSorted(es: seq<Entry<Log>>, next: nat)
    requires Contiguous(es, next)
    ensures Sorted(es)
    ensures forall i :: 0 <= i < |es| ==> es[i].key == next - |es| + i
  {
  }

  /** What a consumer that has seen the first `n` entries, its start included, was sent. */
  function Sent(es: seq<Entry<Log>>, n: nat): seq<Log>
    requires 1 <= n <= |es|
  {
    Values(es[1..n])
  }

  lemma SentRest(es: seq<Entry<Log>>, n: nat)
    requires 1 <= n <= |es|
    ensures Sent(es, n) + Values(es[n..]) == Sent(es, |es|)
  {
  }

  lemma SentBefore(es: seq<Entry<Log>>, added: seq<Entry<Log>>, n: nat)
    requires 1 <= n <= |es|
    ensures Sent(es + added, n) == Sent(es, n)
  {
    assert (es + added)[1..n] == es[1..n];
  }

  /** What the stream sees of the world: the log now, and all entries since its start, never pruned. */
  datatype Session = Session(log: seq<Entry<Log>>, next: nat, ever: seq<Entry<Log>>, stream: Stream)

  function Last<T>(s: seq<T>, n: nat): seq<T>
    requires n <= |s|
  {
    s[|s| - n..]
  }

  function Least(a: nat, b: nat): nat {
    if a < b then a else b
  }

  /** Where both reach back, the log and the unpruned record hold the same entries. */
  ghost predicate Tracks(log: seq<Entry<Log>>, next: nat, ever: seq<Entry<Log>>, start: nat) {
    && log != [] && Contiguous(log, next)
    && ever != [] && Contiguous(ever, next) && next == start + |ever|
    && Last(log, Least(|log|, |ever|)) == Last(ever, Least(|log|, |ever|))
  }

  function FirstKey(s: Session): int {
    s.next - |s.log|
  }

  /** Sent is exactly what came after the start, in order; a gap means the last entry was pruned. */
  ghost predicate Faithful(s: Session, start: nat) {
    && Tracks(s.log, s.next, s.ever, start)
    && start <= s.stream.last < s.next == start + |s.ever|
    && s.stream.sent == Sent(s.ever, s.stream.last - start + 1)
    && (s.stream.closed ==> s.stream.last < FirstKey(s))
  }

  lemma {:induction false} DrainAll(last: nat, sent: seq<Log>, es: seq<Entry<Log>>)
    requires forall i :: 0 <= i < |es| ==> es[i].key == last + 1 + i
    ensures Drain(last, sent, es) == Stream(last + |es|, sent + Values(es), false)
    decreases |es|
  {
    if es == [] {
      assert sent + Values(es) == sent;
    } else {
      DrainAll(last + 1, sent + [es[0].value], es[1..]);
      assert sent + [es[0].value] + Values(es[1..]) == sent + Values(es);
    }
  }

  lemma LastAgree<T>(a: seq<T>, b: seq<T>, n: nat, m: nat)
    requires m <= n <= |a| && n <= |b| && Last(a, n) == Last(b, n)
    ensures Last(a, m) == Last(b, m) && a[|a| - m..] == b[|b| - m..]
  {
    assert Last(a, m) == Last(a, n)[n - m..];
    assert Last(b, m) == Last(b, n)[n - m..];
  }

  lemma Later(s: Session, start: nat) returns (later: seq<Entry<Log>>)
    requires Faithful(s, start) && s.stream.last >= FirstKey(s)
    ensures later == Skip(From(s.log, s.stream.last)) == s.ever[s.stream.last - start + 1..]
  {
    hide Contiguous, Sent, Skip, From, Last;
    var i, m := s.stream.last - FirstKey(s), s.next - 1 - s.stream.last;
    SkipFrom(s.log, s.next, i);
    LastAgree(s.log, s.ever, Least(|s.log|, |s.ever|), m);
    assert |s.log| - m == i + 1 && |s.ever| - m == s.stream.last - start + 1;
    later := s.log[i + 1..];
  }

  lemma SkipFrom(log: seq<Entry<Log>>, next: nat, i: nat)
    requires Contiguous(log, next) && i < |log|
    ensures Skip(From(log, next - |log| + i)) == log[i + 1..]
  {
    assert Sorted(log);
    FromAt(log, i);
  }

  /** A wake-up that still finds the last entry sends everything there is. */
  lemma PollCatchesUp(s: Session, start: nat)
    requires Faithful(s, start) && !s.stream.closed && s.stream.last >= FirstKey(s)
    ensures Poll(s.log, s.stream) == Stream(s.next - 1, Sent(s.ever, |s.ever|), false)
  {
    hide Contiguous, Values, Drain, From, Sent, Last;
    var later := Later(s, start);
    var n := s.stream.last - start + 1;
    ContiguousSuffix(s.ever, s.next, n);
    DrainAll(s.stream.last, s.stream.sent, later);
    SentRest(s.ever, n);
  }

  /** A wake-up after the last entry was pruned sends nothing more. */
  lemma PollAfterPruning(s: Session, start: nat)
    requires Faithful(s, start) && s.stream.last < FirstKey(s)
    ensures Poll(s.log, s.stream).last == s.stream.last && Poll(s.log, s.stream).sent == s.stream.sent
  {
    hide Contiguous, Sent;
    ContiguousSorted(s.log, s.next);
    if !s.stream.closed {
      assert s.log[0].key >= s.stream.last;
    }
  }

  lemma PollKeepsFaithful(s: Session, start: nat)
    requires Faithful(s, start)
    ensures Faithful(s.(stream := Poll(s.log, s.stream)), start)
  {
    hide Drain, From, Tracks, Sent;
    if s.stream.closed {
    } else if s.stream.last < FirstKey(s) {
      PollAfterPruning(s, start);
    } else {
      PollCatchesUp(s, start);
    }
  }

  // ---- Runs ----

  /** A session with a database step that drops `k` old entries and appends. */
  function AfterGrowth(s: Session, log: seq<Entry<Log>>, next: nat, k: nat): Session
    requires k <= |s.log| && |s.log| - k <= |log|
  {
    Session(log, next, s.ever + log[|s.log| - k..], s.stream)
  }

  lemma GrowthKeepsFaithful(s: Session, start: nat, log: seq<Entry<Log>>, next: nat, k: nat)
    requires Faithful(s, start) && log != [] && Contiguous(log, next)
    requires GrowsBy(s.log, s.next, log, next, k)
    ensures Faithful(AfterGrowth(s, log, next, k), start)
  {
    hide Contiguous, Sent, Last;
    var kept := |s.log| - k;
    var added := log[kept..];
    assert log == s.log[k..] + added;
    ContiguousSuffix(log, next, kept);
    ContiguousAppend(s.ever, s.next, added, next);
    LastGrow(s.log, s.ever, k, added);
    SentBefore(s.ever, added, s.stream.last - start + 1);
  }

  lemma LastGrow<T>(log: seq<T>, ever: seq<T>, k: nat, added: seq<T>)
    requires k <= |log| && Last(log, Least(|log|, |ever|)) == Last(ever, Least(|log|, |ever|))
    ensures var log', ever' := log[k..] + added, ever + added;
            Last(log', Least(|log'|, |ever'|)) == Last(ever', Least(|log'|, |ever'|))
  {
    var n := Least(|log| - k, |ever|);
    LastAgree(log, ever, Least(|log|, |ever|), n);
    LastAppend(log[k..], added, n);
    LastAppend(ever, added, n);
    assert Last(log[k..], n) == Last(log, n);
  }

  lemma LastAppend<T>(a: seq<T>, added: seq<T>, n: nat)
    requires n <= |a|
    ensures Last(a + added, n + |added|) == Last(a, n) + added
  {
  }

  lemma ContiguousAppend(ever: seq<Entry<Log>>, next: nat, added: seq<Entry<Log>>, next': nat)
    requires Contiguous(ever, next) && next' == next + |added|
    requires forall i :: 0 <= i < |added| ==> added[i].key == next + i
    ensures Contiguous(ever + added, next')
  {
  }

  datatype Event = Grow(log: seq<Entry<Log>>, next: nat, dropped: nat) | Wake

  /** Database steps are those the chain database makes; wake-ups may be late or lost. */
  ghost predicate Possible(s: Session, e: Event) {
    e.Grow? ==> e.log != [] && Contiguous(e.log, e.next) && GrowsBy(s.log, s.next, e.log, e.next, e.dropped)
  }

  ghost function Step(s: Session, e: Event): Session
    requires Possible(s, e)
  {
    match e
    case Grow(log, next, k) => AfterGrowth(s, log, next, k)
    case Wake => s.(stream := Poll(s.log, s.stream))
  }

  ghost predicate PossibleRun(s: Session, es: seq<Event>)
    decreases |es|
  {
    es != [] ==> Possible(s, es[0]) && PossibleRun(Step(s, es[0]), es[1..])
  }

  ghost function Run(s: Session, es: seq<Event>): Session
    requires PossibleRun(s, es)
    decreases |es|
  {
    if es == [] then s else Run(Step(s, es[0]), es[1..])
  }

  /**
   * Streaming: under every interleaving of appends, rollbacks, prunes and wake-ups the consumer gets
   * each later entry once and in order, and a gap closes the stream only after its last entry was
   * pruned.
   */
  lemma {:induction false} RunStaysFaithful(s: Session, start: nat, es: seq<Event>)
    requires Faithful(s, start) && PossibleRun(s, es)
    ensures Faithful(Run(s, es), start)
    decreases |es|
  {
    if es != [] {
      hide Faithful;
      match es[0] {
        case Grow(log, next, k) => GrowthKeepsFaithful(s, start, log, next, k);
        case Wake => PollKeepsFaithful(s, start);
      }
      RunStaysFaithful(Step(s, es[0]), start, es[1..]);
    }
  }

  /** A consumer that starts at a number in the log starts faithful. */
  lemma StartsFaithful(log: seq<Entry<Log>>, next: nat, start: nat)
    requires log != [] && Contiguous(log, next) && next - |log| <= start < next
    ensures var ever := From(log, start);
            Faithful(Session(log, next, ever, Stream(start, [], false)), start)
  {
    hide Contiguous, From, Values;
    var i := start - (next - |log|);
    ContiguousSorted(log, next);
    FromAt(log, i);
    hide Sorted;
    ContiguousSuffix(log, next, i);
    assert log[i..][0..] == log[i..];
    assert Sent(log[i..], 1) == [];
  }

  /** Every event of the roll stage is such a database step, so the two kinds of run compose. */
  lemma StageStepIsGrowth(genesis: Genesis, after: Option<U64>, w: RS.World, e: RS.PullEvent, s: Session) returns (g: Event)
    requires RS.Good(genesis, w) && RS.Offered(genesis, w, e)
    requires s.log == w.tables.log != [] && s.next == w.tables.nextWalSeq
    ensures Contiguous(s.log, s.next)
    ensures g.Grow? && Possible(s, g)
    ensures g.log == RS.Step(after, w, e).tables.log && g.next == RS.Step(after, w, e).tables.nextWalSeq
  {
    hide Invariant, RS.Step, RS.Offered;
    RS.StepKeepsGood(genesis, after, w, e);
    var t := RS.Step(after, w, e).tables;
    var k: nat :| GrowsBy(s.log, s.next, t.log, t.nextWalSeq, k);
    hide GrowsBy;
    g := Grow(t.log, t.nextWalSeq, k);
  }

  // ---- What the stream of a running database sends ----

  /** An apply entry extends some valid chain and carries what its block needs there. */
  ghost predicate Truthful(genesis: Genesis, l: Log) {
    l.Apply? ==> exists before :: Extends(genesis, before, l)
  }

  ghost predicate Extends(genesis: Genesis, before: seq<Block>, l: Log)
    requires l.Apply?
  {
    ValidChain(genesis, before + [l.block]) && Supplies(Unspent(genesis, before), l.block, l.resolver)
  }

  lemma {:induction false} LogIsTruthful(genesis: Genesis, w: RS.World, i: nat)
    requires RS.Good(genesis, w) && i < |w.tables.log|
    ensures Truthful(genesis, w.tables.log[i].value)
  {
    var after :| LogInvariant(w.tables.log, w.tables.nextWalSeq, genesis, w.chain, after);
    hide LogInvariant, Invariant, Truthful;
    EntryIsTruthful(genesis, w.tables.log, w.tables.nextWalSeq, w.chain, after, i);
  }

  lemma {:induction false} EntryIsTruthful(genesis: Genesis, log: seq<Entry<Log>>, next: nat, chain: seq<Block>, after: seq<seq<Block>>, i: nat)
    requires LogInvariant(log, next, genesis, chain, after) && i < |log|
    ensures Truthful(genesis, log[i].value)
  {
    hide ValidChain, Supplies, Unspent, Play;
    var l := log[i].value;
    assert Names(l, after[i]) && Supplied(genesis, l, after[i]);
    if l.Apply? {
      var before := after[i][..|after[i]| - 1];
      assert before + [l.block] == after[i];
      assert Extends(genesis, before, l);
    }
  }

  datatype Move = Pull(event: RS.PullEvent) | Notice

  /** A database that is fed, with one consumer of its log. */
  datatype Feed = Feed(world: RS.World, session: Session)

  function Newest<T>(s: seq<T>, n: int): seq<T> {
    if 0 <= n <= |s| then s[|s| - n..] else s
  }

  function FeedStep(after: Option<U64>, f: Feed, m: Move): Feed {
    match m
    case Notice => f.(session := f.session.(stream := Poll(f.session.log, f.session.stream)))
    case Pull(e) =>
      var w := RS.Step(after, f.world, e);
      var log, next := w.tables.log, w.tables.nextWalSeq;
      Feed(w, Session(log, next, f.session.ever + Newest(log, next - f.session.next), f.session.stream))
  }

  function FeedRun(after: Option<U64>, f: Feed, ms: seq<Move>): Feed {
    if ms == [] then f else FeedStep(after, FeedRun(after, f, ms[..|ms| - 1]), ms[|ms| - 1])
  }

  ghost predicate OfferedRun(genesis: Genesis, after: Option<U64>, f: Feed, ms: seq<Move>) {
    ms != [] ==>
      var n := |ms| - 1;
      OfferedRun(genesis, after, f, ms[..n]) && (ms[n].Pull? ==> RS.Offered(genesis, FeedRun(after, f, ms[..n]).world, ms[n].event))
  }

  ghost predicate FeedGood(genesis: Genesis, f: Feed, start: nat) {
    && RS.Good(genesis, f.world) && Faithful(f.session, start)
    && f.session.log == f.world.tables.log && f.session.next == f.world.tables.nextWalSeq
    && forall i :: 0 <= i < |f.session.ever| ==> Truthful(genesis, f.session.ever[i].value)
  }

  lemma PullKeepsGood(genesis: Genesis, after: Option<U64>, f: Feed, start: nat, e: RS.PullEvent)
    requires FeedGood(genesis, f, start) && RS.Offered(genesis, f.world, e)
    ensures FeedGood(genesis, FeedStep(after, f, Pull(e)), start)
  {
    hide Invariant, LogInvariant, RS.Step, RS.Offered, Contiguous, Sent, Truthful, Last;
    var w := RS.Step(after, f.world, e);
    RS.StepKeepsGood(genesis, after, f.world, e);
    var g := StageStepIsGrowth(genesis, after, f.world, e, f.session);
    GrowthKeepsFaithful(f.session, start, g.log, g.next, g.dropped);
    var f' := FeedStep(after, f, Pull(e));
    assert f'.session == AfterGrowth(f.session, g.log, g.next, g.dropped);
    forall i | 0 <= i < |f'.session.ever| ensures Truthful(genesis, f'.session.ever[i].value) {
      if i >= |f.session.ever| {
        LogIsTruthful(genesis, w, |f.session.log| - g.dropped + i - |f.session.ever|);
      }
    }
  }

  /**
   * Streaming from a running database: whatever events are pulled and whenever the consumer is woken, it has
   * been sent exactly what was logged after its start, once and in order, and every block sent comes with
   * exactly the outputs its transactions need, as they were just before it.
   */
  lemma {:induction false} FeedStaysGood(genesis: Genesis, after: Option<U64>, f: Feed, start: nat, ms: seq<Move>)
    requires FeedGood(genesis, f, start) && OfferedRun(genesis, after, f, ms)
    ensures FeedGood(genesis, FeedRun(after, f, ms), start)
    ensures var sent := FeedRun(after, f, ms).session.stream.sent;
            forall i :: 0 <= i < |sent| ==> Truthful(genesis, sent[i])
    decreases |ms|
  {
    if ms != [] {
      var n := |ms| - 1;
      FeedStaysGood(genesis, after, f, start, ms[..n]);
      var before := FeedRun(after, f, ms[..n]);
      hide RS.Good, RS.Step, RS.Offered, Poll;
      if ms[n].Pull? {
        PullKeepsGood(genesis, after, before, start, ms[n].event);
      } else {
        PollKeepsFaithful(before.session, start);
      }
    }
    SentIsTruthful(genesis, FeedRun(after, f, ms), start);
  }

  lemma SentIsTruthful(genesis: Genesis, f: Feed, start: nat)
    requires FeedGood(genesis, f, start)
    ensures forall i :: 0 <= i < |f.session.stream.sent| ==> Truthful(genesis, f.session.stream.sent[i])
  {
    hide RS.Good, Truthful, Tracks;
    var s := f.session;
    forall i | 0 <= i < |s.stream.sent| ensures Truthful(genesis, s.stream.sent[i]) {
      assert s.stream.sent[i] == s.ever[i + 1].value;
    }
  }

  lemma LogIsContiguous(genesis: Genesis, w: RS.World)
    requires RS.Good(genesis, w)
    ensures Contiguous(w.tables.log, w.tables.nextWalSeq)
  {
    hide Invariant, ValidChain, Names, Play, Supplied;
  }

  /** A consumer that starts at a number in the log of a reachable database is in such a state. */
  lemma {:induction false} FeedStartsGood(genesis: Genesis, w: RS.World, start: nat)
    requires RS.Good(genesis, w) && w.tables.log != []
    requires w.tables.nextWalSeq - |w.tables.log| <= start < w.tables.nextWalSeq
    ensures FeedGood(genesis, Feed(w, Session(w.tables.log, w.tables.nextWalSeq, From(w.tables.log, start), Stream(start, [], false))), start)
  {
    var log, next := w.tables.log, w.tables.nextWalSeq;
    LogIsContiguous(genesis, w);
    hide RS.Good, Truthful, Faithful, Contiguous, From;
    StartsFaithful(log, next, start);
    ContiguousSorted(log, next);
    FromAt(log, start - (next - |log|));
    forall i | 0 <= i < |From(log, start)| ensures Truthful(genesis, From(log, start)[i].value) {
      LogIsTruthful(genesis, w, start - (next - |log|) + i);
    }
  }
}
