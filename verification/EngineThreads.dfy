/**
 The engine under any interleaving of threads: Compile holds one mutex for its whole length and
 takes the other, a read-write lock, only to swap the finished map in; a lookup reads the map under
 the read lock. `published` and `answers` are history: the maps swapped in, and the lookups done.
 */
module EngineThreads {
  import opened Wrappers
  import opened Engines

  type Queries = map<string, PreparedQuery>

  type Tid = nat

  /** Where a thread is. `since` is the number of the map that was current when a lookup began. */
  datatype Thread =
    | Idle
    | WaitCompile(sources: map<string, string>)
    | Compiling(sources: map<string, string>)
    | Preparing(sources: map<string, string>, partial: Queries)
    | WaitSwap(built: Queries)
    | Swapping(built: Queries)
    | Swapped
    | Releasing
    | WaitRead(id: string, since: nat)
    | Reading(id: string, since: nat)
    | HasRead(id: string, since: nat, at: nat, result: Option<PreparedQuery>)

  datatype Answer = Answer(id: string, since: nat, at: nat, result: Option<PreparedQuery>)

  datatype System = System(
    queries: Queries,
    compileMu: Option<Tid>,
    writer: Option<Tid>,
    readers: set<Tid>,
    threads: map<Tid, Thread>,
    published: seq<Queries>,
    answers: seq<Answer>)

  function ThreadOf(s: System, t: Tid): Thread {
    if t in s.threads then s.threads[t] else Idle
  }

  function At(s: System, t: Tid, thread: Thread): System {
    s.(threads := s.threads[t := thread])
  }

  function Find(queries: Queries, id: string): Option<PreparedQuery> {
    if id in queries then Some(queries[id]) else None
  }

  const START := System(map[], None, None, {}, map[], [map[]], [])

  // ----- Steps of one thread

  /** A Compile call: lock, compile all, prepare one query after the other, swap, unlock. */
  ghost predicate CompileStep(opa: Opa, s: System, t: Tid, s': System) {
    match ThreadOf(s, t)
    case Idle => ThreadOf(s', t).WaitCompile? && s' == At(s, t, ThreadOf(s', t))
    case WaitCompile(sources) => s.compileMu == None && s' == At(s, t, Compiling(sources)).(compileMu := Some(t))
    case Compiling(sources) =>
      if sources == map[] then s' == At(s, t, WaitSwap(map[]))
      else if opa.compiles(sources) then s' == At(s, t, Preparing(sources, map[]))
      else s' == At(s, t, Idle).(compileMu := None)
    case Preparing(sources, partial) =>
      || (partial.Keys == sources.Keys && s' == At(s, t, WaitSwap(partial)))
      || (exists id | id in sources && id !in partial ::
            if opa.prepares(sources, id)
            then s' == At(s, t, Preparing(sources, partial[id := PreparedQuery(sources, id)]))
            else s' == At(s, t, Idle).(compileMu := None))
    case WaitSwap(built) =>
      s.writer == None && s.readers == {} && s' == At(s, t, Swapping(built)).(writer := Some(t))
    case Swapping(built) => s' == At(s, t, Swapped).(queries := built, published := s.published + [built])
    case Swapped => s' == At(s, t, Releasing).(writer := None)
    case Releasing => s' == At(s, t, Idle).(compileMu := None)
    case _ => false
  }

  /** A lookup: read lock, read, unlock. */
  ghost predicate LookupStep(s: System, t: Tid, s': System)
    requires s.published != []
  {
    match ThreadOf(s, t)
    case Idle =>
      ThreadOf(s', t).WaitRead? && ThreadOf(s', t).since == |s.published| - 1 && s' == At(s, t, ThreadOf(s', t))
    case WaitRead(id, since) => s.writer == None && s' == At(s, t, Reading(id, since)).(readers := s.readers + {t})
    case Reading(id, since) => s' == At(s, t, HasRead(id, since, |s.published| - 1, Find(s.queries, id)))
    case HasRead(id, since, at, result) =>
      s' == At(s, t, Idle).(readers := s.readers - {t}, answers := s.answers + [Answer(id, since, at, result)])
    case _ => false
  }

  ghost predicate Step(opa: Opa, s: System, t: Tid, s': System)
    requires s.published != []
  {
    CompileStep(opa, s, t, s') || LookupStep(s, t, s')
  }

  ghost predicate Next(opa: Opa, s: System, s': System) {
    s.published != [] && exists t: Tid :: Step(opa, s, t, s')
  }

  ghost predicate Reachable(opa: Opa, run: seq<System>) {
    run != [] && run[0] == START && forall i | 0 <= i < |run| - 1 :: Next(opa, run[i], run[i + 1])
  }

  // ----- The invariant

  predicate HoldsCompileMu(thread: Thread) {
    || thread.Compiling? || thread.Preparing? || thread.WaitSwap?
    || thread.Swapping? || thread.Swapped? || thread.Releasing?
  }

  predicate HoldsWriteLock(thread: Thread) {
    thread.Swapping? || thread.Swapped?
  }

  predicate HoldsReadLock(thread: Thread) {
    thread.Reading? || thread.HasRead?
  }

  /** The map is the whole result of a compilation that succeeded. */
  ghost predicate Complete(opa: Opa, queries: Queries) {
    exists sources :: Compilable(opa, sources) && queries == QueriesOf(sources)
  }

  /** The map number `at` was current between the beginning and the end of the lookup, and answered it. */
  predicate Answered(published: seq<Queries>, id: string, since: nat, at: nat, result: Option<PreparedQuery>) {
    since <= at < |published| && result == Find(published[at], id)
  }

  /** What is true of a thread's own variables. */
  ghost predicate LocalOk(opa: Opa, published: seq<Queries>, thread: Thread) {
    match thread
    case Preparing(sources, partial) =>
      && opa.compiles(sources) && partial.Keys <= sources.Keys
      && forall id | id in partial :: opa.prepares(sources, id) && partial[id] == PreparedQuery(sources, id)
    case WaitSwap(built) => Complete(opa, built)
    case Swapping(built) => Complete(opa, built)
    case WaitRead(id, since) => since < |published|
    case Reading(id, since) => since < |published|
    case HasRead(id, since, at, result) => Answered(published, id, since, at, result)
    case _ => true
  }

  ghost predicate CompileMuOk(s: System) {
    forall t: Tid :: HoldsCompileMu(ThreadOf(s, t)) <==> s.compileMu == Some(t)
  }

  ghost predicate ReadWriteLockOk(s: System) {
    && (forall t: Tid :: HoldsWriteLock(ThreadOf(s, t)) <==> s.writer == Some(t))
    && (forall t: Tid :: HoldsReadLock(ThreadOf(s, t)) <==> t in s.readers)
    && (s.writer.Some? ==> s.readers == {})
  }

  ghost predicate DataOk(opa: Opa, s: System) {
    && s.published != [] && s.published[0] == map[] && s.queries == s.published[|s.published| - 1]
    && (forall k | 0 < k < |s.published| :: Complete(opa, s.published[k]))
    && (forall t: Tid :: LocalOk(opa, s.published, ThreadOf(s, t)))
    && (forall a | a in s.answers :: Answered(s.published, a.id, a.since, a.at, a.result))
  }

  lemma {:induction false} OthersStay(opa: Opa, s: System, t: Tid, s': System)
    requires s.published != [] && Step(opa, s, t, s')
    ensures forall u: Tid | u != t :: ThreadOf(s', u) == ThreadOf(s, u)
  {
  }

  lemma {:induction false} CompileMuKept(opa: Opa, s: System, t: Tid, s': System)
    requires s.published != [] && CompileMuOk(s) && Step(opa, s, t, s')
    ensures CompileMuOk(s')
  {
    OthersStay(opa, s, t, s');
    assert HoldsCompileMu(ThreadOf(s, t)) <==> s.compileMu == Some(t);
  }

  /** The read-write lock is taken only when it is free, and given back by its holder. */
  predicate LockMove(s: System, t: Tid, s': System) {
    var before, after := ThreadOf(s, t), ThreadOf(s', t);
    && (if HoldsWriteLock(before) == HoldsWriteLock(after) then s'.writer == s.writer
        else if HoldsWriteLock(after) then s.writer == None && s.readers == {} && s'.writer == Some(t)
        else s'.writer == None)
    && (if HoldsReadLock(before) == HoldsReadLock(after) then s'.readers == s.readers
        else if HoldsReadLock(after) then s.writer == None && s'.readers == s.readers + {t}
        else s'.readers == s.readers - {t})
    && (s'.writer == s.writer || s'.readers == s.readers)
  }

  lemma {:induction false} LockMoves(opa: Opa, s: System, t: Tid, s': System)
    requires s.published != [] && Step(opa, s, t, s')
    ensures LockMove(s, t, s')
  {
  }

  lemma {:induction false} ReadWriteLockKept(opa: Opa, s: System, t: Tid, s': System)
    requires s.published != [] && ReadWriteLockOk(s) && Step(opa, s, t, s')
    ensures ReadWriteLockOk(s')
  {
    OthersStay(opa, s, t, s');
    LockMoves(opa, s, t, s');
    LockInvariant(s, t, s');
  }

  lemma {:induction false} LockInvariant(s: System, t: Tid, s': System)
    requires ReadWriteLockOk(s) && forall u: Tid | u != t :: ThreadOf(s', u) == ThreadOf(s, u)
    requires LockMove(s, t, s')
    ensures ReadWriteLockOk(s')
  {
    assert HoldsWriteLock(ThreadOf(s, t)) <==> s.writer == Some(t);
    assert HoldsReadLock(ThreadOf(s, t)) <==> t in s.readers;
  }

  /** Publishing one more map spoils nothing that was answered or noted before. */
  lemma {:induction false} LocalStays(opa: Opa, published: seq<Queries>, built: Queries, thread: Thread)
    requires LocalOk(opa, published, thread)
    ensures LocalOk(opa, published + [built], thread)
  {
  }

  lemma {:induction false} PreparedIsComplete(opa: Opa, sources: map<string, string>, partial: Queries)
    requires LocalOk(opa, [], Preparing(sources, partial)) && partial.Keys == sources.Keys
    ensures Complete(opa, partial)
  {
    assert partial == QueriesOf(sources);
    assert Compilable(opa, sources);
  }

  /** Only a swap publishes a map, and only the end of a lookup records an answer. */
  lemma {:induction false} DataMoves(opa: Opa, s: System, t: Tid, s': System)
    requires s.published != [] && Step(opa, s, t, s')
    ensures if ThreadOf(s, t).Swapping?
      then s'.queries == ThreadOf(s, t).built && s'.published == s.published + [s'.queries] && s'.answers == s.answers
           && ThreadOf(s', t) == Swapped
      else s'.queries == s.queries && s'.published == s.published
    ensures s'.answers == s.answers ||
      (ThreadOf(s, t).HasRead? &&
       var h := ThreadOf(s, t); s'.answers == s.answers + [Answer(h.id, h.since, h.at, h.result)])
  {
  }

  lemma {:induction false} DataKept(opa: Opa, s: System, t: Tid, s': System)
    requires DataOk(opa, s) && Step(opa, s, t, s')
    ensures DataOk(opa, s')
  {
    DataMoves(opa, s, t, s');
    OthersStay(opa, s, t, s');
    assert LocalOk(opa, s.published, ThreadOf(s, t));
    if ThreadOf(s, t).Swapping? {
      forall u: Tid
        ensures LocalOk(opa, s'.published, ThreadOf(s', u))
      {
        if u != t {
          LocalStays(opa, s.published, s'.queries, ThreadOf(s, u));
        }
      }
    } else {
      StepLocal(opa, s, t, s');
    }
  }

  lemma {:induction false} StepLocal(opa: Opa, s: System, t: Tid, s': System)
    requires s.published != [] && s.queries == s.published[|s.published| - 1]
    requires LocalOk(opa, s.published, ThreadOf(s, t)) && !ThreadOf(s, t).Swapping?
    requires Step(opa, s, t, s')
    ensures s'.published == s.published && LocalOk(opa, s.published, ThreadOf(s', t))
  {
    match ThreadOf(s, t)
    case Preparing(sources, partial) =>
      if partial.Keys == sources.Keys {
        PreparedIsComplete(opa, sources, partial);
      }
    case Compiling(sources) =>
      if sources == map[] {
        assert Compilable(opa, map[]) && map[] == QueriesOf(map[]);
      }
    case _ =>
  }

  // ----- Every interleaving

  lemma {:induction false} AlwaysOk(opa: Opa, run: seq<System>, n: nat)
    requires Reachable(opa, run) && n < |run|
    ensures CompileMuOk(run[n]) && ReadWriteLockOk(run[n]) && DataOk(opa, run[n])
  {
    if n > 0 {
      AlwaysOk(opa, run, n - 1);
      assert Next(opa, run[n - 1], run[n]);
      var t: Tid :| Step(opa, run[n - 1], t, run[n]);
      CompileMuKept(opa, run[n - 1], t, run[n]);
      ReadWriteLockKept(opa, run[n - 1], t, run[n]);
      DataKept(opa, run[n - 1], t, run[n]);
    }
  }

  /** At most one Compile is past its first lock, and no lookup reads while the map is swapped. */
  lemma {:induction false} MutualExclusion(opa: Opa, run: seq<System>, n: nat, t: Tid, u: Tid)
    requires Reachable(opa, run) && n < |run| && t != u
    ensures !(HoldsCompileMu(ThreadOf(run[n], t)) && HoldsCompileMu(ThreadOf(run[n], u)))
    ensures !(HoldsWriteLock(ThreadOf(run[n], t)) && HoldsReadLock(ThreadOf(run[n], u)))
  {
    AlwaysOk(opa, run, n);
    var s := run[n];
    assert HoldsCompileMu(ThreadOf(s, t)) <==> s.compileMu == Some(t);
    assert HoldsReadLock(ThreadOf(s, u)) <==> u in s.readers;
  }

  /**
   Lookups linearize: each answer is that of one map which was current between the beginning and the
   end of the lookup, and which is the initial empty map or the complete result of one successful
   compilation. It is never a mixture, a half-built map or a failed attempt, and a lookup that begins
   after a swap never sees an older map.
   */
  lemma {:induction false} LookupsLinearize(opa: Opa, run: seq<System>, n: nat, a: Answer)
    requires Reachable(opa, run) && n < |run| && a in run[n].answers
    ensures a.since <= a.at < |run[n].published|
    ensures var queries := run[n].published[a.at];
      a.result == if a.id in queries then Some(queries[a.id]) else None
    ensures run[n].published[a.at] == map[] || Complete(opa, run[n].published[a.at])
  {
    AlwaysOk(opa, run, n);
    if a.at > 0 {
      assert Complete(opa, run[n].published[a.at]);
    }
  }

  /** Published maps are never taken back, and answers are never changed. */
  lemma {:induction false} HistoryGrows(opa: Opa, run: seq<System>, m: nat, n: nat)
    requires Reachable(opa, run) && m <= n < |run|
    ensures run[m].published <= run[n].published && run[m].answers <= run[n].answers
    decreases n
  {
    if m < n {
      HistoryGrows(opa, run, m, n - 1);
      NextGrows(opa, run[n - 1], run[n]);
    }
  }

  lemma {:induction false} NextGrows(opa: Opa, s: System, s': System)
    requires Next(opa, s, s')
    ensures s.published <= s'.published && s.answers <= s'.answers
  {
    var t: Tid :| Step(opa, s, t, s');
    DataMoves(opa, s, t, s');
  }

  // ----- Progress

  /** The system can get from `s` to `s'`. */
  ghost predicate Leads(opa: Opa, s: System, s': System) {
    exists run :: Path(opa, run, s, s')
  }

  ghost predicate Path(opa: Opa, run: seq<System>, s: System, s': System) {
    && run != [] && run[0] == s && run[|run| - 1] == s'
    && forall i | 0 <= i < |run| - 1 :: Next(opa, run[i], run[i + 1])
  }

  lemma {:induction false} LeadsNowhere(opa: Opa, s: System)
    ensures Leads(opa, s, s)
  {
    assert Path(opa, [s], s, s);
  }

  lemma {:induction false} LeadsOn(opa: Opa, s: System, t: Tid, s': System, s'': System)
    requires s.published != [] && Step(opa, s, t, s') && Leads(opa, s', s'')
    ensures Leads(opa, s, s'')
  {
    var run :| Path(opa, run, s', s'');
    var longer := [s] + run;
    assert Next(opa, s, s');
    forall i | 0 <= i < |longer| - 1
      ensures Next(opa, longer[i], longer[i + 1])
    {
      if i > 0 {
        assert Next(opa, run[i - 1], run[i]);
      }
    }
    assert Path(opa, longer, s, s'');
  }

  /** Nobody holds a lock, and the thread is free. */
  predicate Quiet(s: System, t: Tid) {
    s.published != [] && ThreadOf(s, t) == Idle && s.compileMu == None && s.writer == None && s.readers == {}
  }

  /** A thread that is left alone can finish a compilation that succeeds, and its whole result is published. */
  lemma {:induction false} CompileCanFinish(opa: Opa, s: System, t: Tid, sources: map<string, string>)
    requires Quiet(s, t) && Compilable(opa, sources)
    ensures var built := QueriesOf(sources);
      Leads(opa, s, At(s, t, Idle).(queries := built, published := s.published + [built]))
  {
    var built := QueriesOf(sources);
    var done := At(s, t, Idle).(queries := built, published := s.published + [built]);
    var waiting := At(s, t, WaitCompile(sources));
    var compiling := At(s, t, Compiling(sources)).(compileMu := Some(t));
    assert At(waiting, t, Compiling(sources)).(compileMu := Some(t)) == compiling;
    SwapCanFinish(opa, s, t, built);
    CompilingCanFinish(opa, s, t, sources, done);
    LeadsOn(opa, waiting, t, compiling, done);
    LeadsOn(opa, s, t, waiting, done);
  }

  lemma {:induction false} CompilingCanFinish(opa: Opa, s: System, t: Tid, sources: map<string, string>, done: System)
    requires s.published != [] && Compilable(opa, sources)
    requires Leads(opa, At(s, t, WaitSwap(QueriesOf(sources))).(compileMu := Some(t)), done)
    ensures Leads(opa, At(s, t, Compiling(sources)).(compileMu := Some(t)), done)
  {
    var compiling := At(s, t, Compiling(sources)).(compileMu := Some(t));
    if sources == map[] {
      assert QueriesOf(sources) == map[];
      AtTwice(compiling, t, s, Compiling(sources), WaitSwap(map[]));
      LeadsOn(opa, compiling, t, At(compiling, t, WaitSwap(map[])), done);
    } else {
      AtTwice(compiling, t, s, Compiling(sources), Preparing(sources, map[]));
      PrepareCanFinish(opa, s, t, sources, map[], done);
      LeadsOn(opa, compiling, t, At(compiling, t, Preparing(sources, map[])), done);
    }
  }

  /** Query after query is prepared, until all are. */
  lemma {:induction false} PrepareCanFinish(opa: Opa, s: System, t: Tid, sources: map<string, string>, partial: Queries,
                                            done: System)
    requires s.published != [] && partial.Keys <= sources.Keys
    requires forall id | id in partial :: partial[id] == PreparedQuery(sources, id)
    requires forall id | id in sources :: opa.prepares(sources, id)
    requires Leads(opa, At(s, t, WaitSwap(QueriesOf(sources))).(compileMu := Some(t)), done)
    ensures Leads(opa, At(s, t, Preparing(sources, partial)).(compileMu := Some(t)), done)
    decreases sources.Keys - partial.Keys
  {
    var here := At(s, t, Preparing(sources, partial)).(compileMu := Some(t));
    if partial.Keys == sources.Keys {
      assert partial == QueriesOf(sources);
      AllPrepared(opa, here, t, sources, partial);
      AtTwice(here, t, s, Preparing(sources, partial), WaitSwap(partial));
      LeadsOn(opa, here, t, At(here, t, WaitSwap(partial)), done);
    } else {
      var id :| id in sources && id !in partial;
      var more := partial[id := PreparedQuery(sources, id)];
      assert id in sources.Keys - partial.Keys && id !in sources.Keys - more.Keys;
      PrepareCanFinish(opa, s, t, sources, more, done);
      OnePrepared(opa, here, t, sources, partial, id);
      AtTwice(here, t, s, Preparing(sources, partial), Preparing(sources, more));
      LeadsOn(opa, here, t, At(here, t, Preparing(sources, more)), done);
    }
  }

  lemma AtTwice(here: System, t: Tid, s: System, now: Thread, next: Thread)
    requires here == At(s, t, now).(compileMu := Some(t))
    ensures At(here, t, next) == At(s, t, next).(compileMu := Some(t))
  {
  }

  lemma {:induction false} AllPrepared(opa: Opa, here: System, t: Tid, sources: map<string, string>, partial: Queries)
    requires here.published != [] && ThreadOf(here, t) == Preparing(sources, partial) && partial.Keys == sources.Keys
    ensures Step(opa, here, t, At(here, t, WaitSwap(partial)))
  {
  }

  lemma {:induction false} OnePrepared(opa: Opa, here: System, t: Tid, sources: map<string, string>, partial: Queries,
                                       id: string)
    requires here.published != [] && ThreadOf(here, t) == Preparing(sources, partial)
    requires id in sources && id !in partial && opa.prepares(sources, id)
    ensures Step(opa, here, t, At(here, t, Preparing(sources, partial[id := PreparedQuery(sources, id)])))
  {
  }

  lemma {:induction false} SwapCanFinish(opa: Opa, s: System, t: Tid, built: Queries)
    requires Quiet(s, t)
    ensures Leads(opa, At(s, t, WaitSwap(built)).(compileMu := Some(t)),
                  At(s, t, Idle).(queries := built, published := s.published + [built]))
  {
    var done := At(s, t, Idle).(queries := built, published := s.published + [built]);
    var waitSwap := At(s, t, WaitSwap(built)).(compileMu := Some(t));
    var swapping := At(s, t, Swapping(built)).(compileMu := Some(t), writer := Some(t));
    var swapped := At(s, t, Swapped).(compileMu := Some(t), writer := Some(t),
                                      queries := built, published := s.published + [built]);
    assert At(waitSwap, t, Swapping(built)).(writer := Some(t)) == swapping;
    assert At(swapping, t, Swapped).(queries := built, published := s.published + [built]) == swapped;
    SwappedCanFinish(opa, swapped, t);
    assert At(swapped, t, Idle).(writer := None, compileMu := None) == done;
    LeadsOn(opa, swapping, t, swapped, done);
    LeadsOn(opa, waitSwap, t, swapping, done);
  }

  lemma {:induction false} SwappedCanFinish(opa: Opa, s: System, t: Tid)
    requires s.published != [] && ThreadOf(s, t) == Swapped
    ensures Leads(opa, s, At(s, t, Idle).(writer := None, compileMu := None))
  {
    var releasing := At(s, t, Releasing).(writer := None);
    var done := At(s, t, Idle).(writer := None, compileMu := None);
    assert At(releasing, t, Idle).(compileMu := None) == done;
    LeadsNowhere(opa, done);
    LeadsOn(opa, releasing, t, done, done);
    LeadsOn(opa, s, t, releasing, done);
  }

  /** A compilation that fails can be given up without a trace. */
  lemma {:induction false} CompileCanFail(opa: Opa, s: System, t: Tid, sources: map<string, string>)
    requires Quiet(s, t) && !Compilable(opa, sources)
    ensures Leads(opa, s, At(s, t, Idle))
  {
    var waiting := At(s, t, WaitCompile(sources));
    var compiling := At(s, t, Compiling(sources)).(compileMu := Some(t));
    assert At(waiting, t, Compiling(sources)).(compileMu := Some(t)) == compiling;
    if opa.compiles(sources) {
      var preparing := At(s, t, Preparing(sources, map[])).(compileMu := Some(t));
      AtTwice(compiling, t, s, Compiling(sources), Preparing(sources, map[]));
      var id :| id in sources && !opa.prepares(sources, id);
      CanGiveUp(opa, preparing, t, sources);
      AtTwice(preparing, t, s, Preparing(sources, map[]), Idle);
      LeadsOn(opa, compiling, t, preparing, At(s, t, Idle));
    } else {
      CanGiveUp(opa, compiling, t, sources);
      AtTwice(compiling, t, s, Compiling(sources), Idle);
    }
    LeadsOn(opa, waiting, t, compiling, At(s, t, Idle));
    LeadsOn(opa, s, t, waiting, At(s, t, Idle));
  }

  lemma {:induction false} CanGiveUp(opa: Opa, s: System, t: Tid, sources: map<string, string>)
    requires s.published != [] && sources != map[]
    requires if opa.compiles(sources)
      then ThreadOf(s, t) == Preparing(sources, map[]) && exists id | id in sources :: !opa.prepares(sources, id)
      else ThreadOf(s, t) == Compiling(sources)
    ensures Leads(opa, s, At(s, t, Idle).(compileMu := None))
  {
    var done := At(s, t, Idle).(compileMu := None);
    LeadsNowhere(opa, done);
    LeadsOn(opa, s, t, done, done);
  }

  /** A lookup that is left alone can finish, and answers from the current map. */
  lemma {:induction false} LookupCanFinish(opa: Opa, s: System, t: Tid, id: string)
    requires Quiet(s, t)
    ensures var now := |s.published| - 1;
      var result := if id in s.queries then Some(s.queries[id]) else None;
      Leads(opa, s, At(s, t, Idle).(answers := s.answers + [Answer(id, now, now, result)]))
  {
    var now: nat := |s.published| - 1;
    var result := if id in s.queries then Some(s.queries[id]) else None;
    var done := At(s, t, Idle).(answers := s.answers + [Answer(id, now, now, result)]);
    var waiting := At(s, t, WaitRead(id, now));
    var reading := At(s, t, Reading(id, now)).(readers := {t});
    assert At(waiting, t, Reading(id, now)).(readers := waiting.readers + {t}) == reading;
    ReadingCanFinish(opa, reading, t, id, now);
    assert At(reading, t, Idle).(readers := {}, answers := s.answers + [Answer(id, now, now, result)]) == done;
    LeadsOn(opa, waiting, t, reading, done);
    LeadsOn(opa, s, t, waiting, done);
  }

  lemma {:induction false} ReadingCanFinish(opa: Opa, s: System, t: Tid, id: string, since: nat)
    requires s.published != [] && ThreadOf(s, t) == Reading(id, since) && s.readers == {t}
    ensures var answer := Answer(id, since, |s.published| - 1, Find(s.queries, id));
      Leads(opa, s, At(s, t, Idle).(readers := {}, answers := s.answers + [answer]))
  {
    var answer := Answer(id, since, |s.published| - 1, Find(s.queries, id));
    var hasRead := At(s, t, HasRead(id, since, answer.at, answer.result));
    var done := At(s, t, Idle).(readers := {}, answers := s.answers + [answer]);
    assert s.readers - {t} == {};
    assert At(hasRead, t, Idle).(readers := {}, answers := s.answers + [answer]) == done;
    LeadsNowhere(opa, done);
    LeadsOn(opa, hasRead, t, done, done);
    LeadsOn(opa, s, t, hasRead, done);
  }
}
