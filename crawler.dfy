/** The crawl loop of `main`: IDs are tried one after another, each through
    the `wrapFunc` closure, which consults the cache, fetches, classifies the
    response, writes the cache file and counts consecutive refreshes. */
module Crawling {
  import opened Base
  import opened CacheLayout
  import opened AtomicFile

  /** 0644, the mode cache pages are written with. */
  const CacheMode: nat := 420

  /** The settings the crawl depends on: `-x`, `-f` and `-mssr`. */
  datatype Config = Config(maxID: int, force: bool, maxSubsequentRefreshes: int)

  /** The upstream's answer for one ID: a transport failure, or a response
      with its status, its `refresh` header ("" when absent) and a body that
      reads completely (`Some`) or fails while being read (`None`). */
  datatype Response = TransportError | Reply(status: int, refresh: string, body: Option<seq<byte>>)

  /** Everything outside the program: the upstream by ID, and the operating
      system's answers to the one atomic write made for each ID. */
  datatype Env = Env(upstream: nat -> Response, io: nat -> Syscalls)

  /** The conditions on which the source calls `log.Fatal`. */
  datatype Fatal = TransportFailure | HttpFailure(status: int) | ReadFailure | WriteFailure(err: IoError)

  datatype StepOutcome = Stopped | Cached | Refreshed | Fetched | Aborted(reason: Fatal)

  /** The closure's captured variables and the harvest directory, with two
      observations: the IDs requested upstream, in order, and the number of
      `time.Sleep` calls. */
  datatype CrawlState = CrawlState(
    id: nat, subsequentRefreshes: nat, dir: Dir, requested: seq<nat>, sleeps: nat)

  /** The three states of a cache entry. */
  datatype CacheEntry = Absent | Sentinel | Page(body: seq<byte>)

  function EntryOf(d: Dir, id: nat): CacheEntry
  {
    var name := PageFilename(id);
    if name !in d then Absent
    else if |d[name].data| == 0 then Sentinel
    else Page(d[name].data)
  }

  function Start(d: Dir): CrawlState
  {
    CrawlState(0, 0, d, [], 0)
  }

  /** The number of times the `for` loop of `main` runs its body. */
  function Iterations(maxID: int): nat
  {
    if maxID > 0 then maxID else 0
  }

  /** The skip rule: a cached file is left alone when it is non-empty, or
      when it is empty and force is off. */
  predicate Skipped(cfg: Config, d: Dir, id: nat)
  {
    EntryOf(d, id).Page? || (EntryOf(d, id).Sentinel? && !cfg.force)
  }

  predicate Stops(cfg: Config, s: CrawlState)
  {
    s.subsequentRefreshes > cfg.maxSubsequentRefreshes
  }

  /** One run of `wrapFunc`. */
  function CrawlStep(cfg: Config, env: Env, s: CrawlState): (CrawlState, StepOutcome)
  {
    if Stops(cfg, s) then (s, Stopped)
    else
      var id := s.id + 1;
      var name := PageFilename(id);
      if name in s.dir && (|s.dir[name].data| > 0 || !cfg.force) then (s.(id := id), Cached)
      else Exchange(env, s.(id := id, requested := s.requested + [id]))
  }

  /** The request for `s.id`, already counted and recorded, and what its
      response leads to. */
  function Exchange(env: Env, s: CrawlState): (CrawlState, StepOutcome)
  {
    var name := PageFilename(s.id);
    match env.upstream(s.id)
    case TransportError => (s, Aborted(TransportFailure))
    case Reply(status, refresh, body) =>
      if status >= 400 then (s, Aborted(HttpFailure(status)))
      else if refresh != "" then
        var w := AtomicWrite(s.dir, name, [], CacheMode, env.io(s.id));
        if w.err.Some? then (s.(dir := w.dir), Aborted(WriteFailure(w.err.value)))
        else (s.(dir := w.dir, subsequentRefreshes := s.subsequentRefreshes + 1), Refreshed)
      else
        var s1 := s.(subsequentRefreshes := 0);
        if body.None? then (s1, Aborted(ReadFailure))
        else
          var w := AtomicWrite(s.dir, name, body.value, CacheMode, env.io(s.id));
          if w.err.Some? then (s1.(dir := w.dir), Aborted(WriteFailure(w.err.value)))
          else (s1.(dir := w.dir, sleeps := s.sleeps + 1), Fetched)
  }

  /** The counter and the skip rule: a stopped step changes nothing; any
      other processes exactly the next ID, skips it exactly when its cache
      entry is skippable, and requests it upstream exactly when it does not
      skip it. */
  lemma StepCounts(cfg: Config, env: Env, s: CrawlState)
    ensures var r := CrawlStep(cfg, env, s);
      && (Stops(cfg, s) ==> r == (s, Stopped))
      && (!Stops(cfg, s) ==> r.0.id == s.id + 1)
      && (r.1 == Cached <==> !Stops(cfg, s) && Skipped(cfg, s.dir, s.id + 1))
      && (r.1 == Cached ==> r.0 == s.(id := s.id + 1))
      && (r.0.requested ==
            if r.1 == Stopped || r.1 == Cached then s.requested else s.requested + [s.id + 1])
  {
  }

  /** The fatal outcomes of the response: a transport error or an error
      status aborts right after the request, before anything is written. */
  lemma StepResponse(cfg: Config, env: Env, s: CrawlState)
    ensures var r := CrawlStep(cfg, env, s);
      && (r.1 == Aborted(TransportFailure) <==>
            r.0.requested != s.requested && env.upstream(s.id + 1).TransportError?)
      && (r.1.Aborted? && r.1.reason.HttpFailure? <==>
            r.0.requested != s.requested && env.upstream(s.id + 1).Reply?
            && env.upstream(s.id + 1).status >= 400)
      && (r.1.Aborted? && !r.1.reason.WriteFailure? ==> r.0.dir == s.dir)
  {
  }

  /** A refresh leaves an empty file at the new ID and one more refresh in
      the streak. */
  lemma StepRefreshStores(cfg: Config, env: Env, s: CrawlState)
    ensures var r := CrawlStep(cfg, env, s);
      r.1 == Refreshed ==>
        env.upstream(s.id + 1).Reply? && env.upstream(s.id + 1).refresh != ""
        && EntryOf(r.0.dir, s.id + 1) == Sentinel
        && r.0.subsequentRefreshes == s.subsequentRefreshes + 1
  {
    var id := s.id + 1;
    if !Stops(cfg, s) && env.upstream(id).Reply? && env.upstream(id).refresh != "" {
      AtomicWriteDir(s.dir, PageFilename(id), [], CacheMode, env.io(id));
    }
  }

  /** A page leaves its body at the new ID and resets the streak. */
  lemma StepFetchStores(cfg: Config, env: Env, s: CrawlState)
    ensures var r := CrawlStep(cfg, env, s);
      r.1 == Fetched ==>
        env.upstream(s.id + 1).Reply? && env.upstream(s.id + 1).refresh == ""
        && env.upstream(s.id + 1).body.Some?
        && PageFilename(s.id + 1) in r.0.dir
        && r.0.dir[PageFilename(s.id + 1)].data == env.upstream(s.id + 1).body.value
        && r.0.subsequentRefreshes == 0
  {
    var id := s.id + 1;
    var up := env.upstream(id);
    if !Stops(cfg, s) && up.Reply? && up.refresh == "" && up.body.Some? {
      AtomicWriteDir(s.dir, PageFilename(id), up.body.value, CacheMode, env.io(id));
    }
  }

  /** A refresh answer (status below 400, a `refresh` header) to an ID that
      is not skipped: the empty file is written; when that write succeeds the
      step is `Refreshed`, the ID's entry becomes an empty file and the streak
      grows by one; when it fails the step aborts with the write's error and
      the ID's entry is as it was. Nothing sleeps either way. */
  lemma StepRefreshes(cfg: Config, env: Env, s: CrawlState)
    requires !Stops(cfg, s) && !Skipped(cfg, s.dir, s.id + 1)
    requires env.upstream(s.id + 1).Reply? && env.upstream(s.id + 1).status < 400
    requires env.upstream(s.id + 1).refresh != ""
    ensures var id := s.id + 1;
      var w := AtomicWrite(s.dir, PageFilename(id), [], CacheMode, env.io(id));
      var r := CrawlStep(cfg, env, s);
      && r.0.id == id && r.0.requested == s.requested + [id] && r.0.sleeps == s.sleeps
      && r.0.dir == w.dir
      && (w.err.None? ==>
            && r.1 == Refreshed
            && r.0.subsequentRefreshes == s.subsequentRefreshes + 1
            && r.0.dir == s.dir[PageFilename(id) := File([], CacheMode)]
            && EntryOf(r.0.dir, id) == Sentinel)
      && (w.err.Some? ==>
            && r.1 == Aborted(WriteFailure(w.err.value))
            && r.0.subsequentRefreshes == s.subsequentRefreshes
            && EntryOf(r.0.dir, id) == EntryOf(s.dir, id))
  {
    var id := s.id + 1;
    AtomicWriteDir(s.dir, PageFilename(id), [], CacheMode, env.io(id));
  }

  /** Any other answer below 400 to an ID that is not skipped resets the
      streak; a body that fails to read aborts with nothing written; a body
      that reads is written; when that write succeeds the step is `Fetched`,
      the ID's file holds the body and one sleep follows; when it fails the
      step aborts with the write's error and the ID's entry is as it was. */
  lemma StepFetches(cfg: Config, env: Env, s: CrawlState)
    requires !Stops(cfg, s) && !Skipped(cfg, s.dir, s.id + 1)
    requires env.upstream(s.id + 1).Reply? && env.upstream(s.id + 1).status < 400
    requires env.upstream(s.id + 1).refresh == ""
    ensures var id := s.id + 1;
      var up := env.upstream(id);
      var r := CrawlStep(cfg, env, s);
      && r.0.id == id && r.0.requested == s.requested + [id] && r.0.subsequentRefreshes == 0
      && (up.body.None? ==> r.1 == Aborted(ReadFailure) && r.0.dir == s.dir && r.0.sleeps == s.sleeps)
      && (up.body.Some? ==>
            var w := AtomicWrite(s.dir, PageFilename(id), up.body.value, CacheMode, env.io(id));
            && r.0.dir == w.dir
            && (w.err.None? ==>
                  && r.1 == Fetched
                  && r.0.sleeps == s.sleeps + 1
                  && r.0.dir == s.dir[PageFilename(id) := File(up.body.value, CacheMode)])
            && (w.err.Some? ==>
                  && r.1 == Aborted(WriteFailure(w.err.value))
                  && r.0.sleeps == s.sleeps
                  && EntryOf(r.0.dir, id) == EntryOf(s.dir, id)))
  {
    var id := s.id + 1;
    var up := env.upstream(id);
    if up.body.Some? {
      AtomicWriteDir(s.dir, PageFilename(id), up.body.value, CacheMode, env.io(id));
    }
  }

  /** Only pages sleep, and the streak grows by at most one per step. */
  lemma StepBookkeeping(cfg: Config, env: Env, s: CrawlState)
    ensures var r := CrawlStep(cfg, env, s);
      && (r.0.sleeps == if r.1 == Fetched then s.sleeps + 1 else s.sleeps)
      && (r.0.subsequentRefreshes <= s.subsequentRefreshes + 1)
  {
  }

  /** A temporary name is never the name of a cache page: it ends in a digit,
      a page name in the "l" of ".html". */
  lemma TempNameIsNoPage(name: string, random: nat, id: nat)
    ensures TempName(name, random) != PageFilename(id)
  {
    var t := TempName(name, random);
    assert t[|t| - 1] == Decimal(random)[|Decimal(random)| - 1];
    PageFilenameEndsInL(id);
  }

  /** An atomic write of one page touches no other page. */
  lemma WriteFrame(d: Dir, id: nat, data: seq<byte>, io: Syscalls, j: nat)
    requires j != id
    ensures EntryOf(AtomicWrite(d, PageFilename(id), data, CacheMode, io).dir, j) == EntryOf(d, j)
  {
    var name := PageFilename(id);
    if PageFilename(j) == name {
      PageFilenameInjective(j, id);
    }
    if io.create.Created? {
      TempNameIsNoPage(name, io.create.random, j);
    }
    AtomicWriteEffects(d, name, data, CacheMode, io);
  }

  /** Handling a response touches at most the cache entry of its own ID. */
  lemma ExchangeFrame(env: Env, s: CrawlState, j: nat)
    requires j != s.id
    ensures EntryOf(Exchange(env, s).0.dir, j) == EntryOf(s.dir, j)
  {
    match env.upstream(s.id)
    case TransportError =>
    case Reply(_, refresh, body) =>
      if refresh != "" {
        WriteFrame(s.dir, s.id, [], env.io(s.id), j);
      } else if body.Some? {
        WriteFrame(s.dir, s.id, body.value, env.io(s.id), j);
      }
  }

  /** A step touches at most the cache entry of the ID it processes. */
  lemma StepFrame(cfg: Config, env: Env, s: CrawlState, j: nat)
    requires j != s.id + 1
    ensures EntryOf(CrawlStep(cfg, env, s).0.dir, j) == EntryOf(s.dir, j)
  {
    if !Stops(cfg, s) {
      ExchangeFrame(env, s.(id := s.id + 1, requested := s.requested + [s.id + 1]), j);
    }
  }

  /** One run of the closure from a given state. */
  type Stepper = CrawlState -> (CrawlState, StepOutcome)

  /** `n` iterations of a step, the process ending at the first fatal outcome. */
  function Iterate(step: Stepper, s: CrawlState, n: nat): (CrawlState, Option<Fatal>)
    decreases n
  {
    if n == 0 then (s, None)
    else
      var (s', o) := step(s);
      if o.Aborted? then (s', Some(o.reason)) else Iterate(step, s', n - 1)
  }

  function StepOf(cfg: Config, env: Env): Stepper
  {
    t => CrawlStep(cfg, env, t)
  }

  /** `n` more iterations of the `for` loop of `main`. */
  function CrawlRun(cfg: Config, env: Env, s: CrawlState, n: nat): (CrawlState, Option<Fatal>)
  {
    Iterate(StepOf(cfg, env), s, n)
  }

  /** A property of states that every step keeps holds at the end of any run. */
  lemma {:induction false} IterateKeeps(step: Stepper, inv: CrawlState -> bool, s: CrawlState, n: nat)
    requires inv(s)
    requires forall t :: inv(t) ==> inv(step(t).0)
    ensures inv(Iterate(step, s, n).0)
    decreases n
  {
    if n > 0 && !step(s).1.Aborted? {
      IterateKeeps(step, inv, step(s).0, n - 1);
    }
  }

  /** As `IterateKeeps`, when moreover no step from such a state is fatal:
      the run then ends without a fatal error. */
  lemma {:induction false} IterateKeepsWithoutFatal(
    step: Stepper, inv: CrawlState -> bool, s: CrawlState, n: nat)
    requires inv(s)
    requires forall t :: inv(t) ==> inv(step(t).0) && !step(t).1.Aborted?
    ensures inv(Iterate(step, s, n).0) && Iterate(step, s, n).1.None?
    decreases n
  {
    if n > 0 {
      IterateKeepsWithoutFatal(step, inv, step(s).0, n - 1);
    }
  }

  /** A step that returns its own state, without a fatal outcome, does so for
      the rest of the run. */
  lemma {:induction false} IterateFixpoint(step: Stepper, s: CrawlState, n: nat)
    requires step(s) == (s, Stopped)
    ensures Iterate(step, s, n) == (s, None)
    decreases n
  {
    if n > 0 {
      IterateFixpoint(step, s, n - 1);
    }
  }

  /** When every step advances the counter by at most one, `n` iterations
      advance it by at most `n`. */
  lemma {:induction false} IterateCounts(step: Stepper, s: CrawlState, n: nat)
    requires forall t: CrawlState :: t.id <= step(t).0.id <= t.id + 1
    ensures s.id <= Iterate(step, s, n).0.id <= s.id + n
    decreases n
  {
    if n > 0 && !step(s).1.Aborted? {
      IterateCounts(step, step(s).0, n - 1);
    }
  }

  /** When steps advance the counter by exactly one until the early stop,
      and stand still from then on, a run without a fatal error has done all
      its iterations or stopped early. */
  lemma {:induction false} IterateProgress(cfg: Config, step: Stepper, s: CrawlState, n: nat)
    requires forall t :: Stops(cfg, t) ==> step(t) == (t, Stopped)
    requires forall t :: !Stops(cfg, t) ==> step(t).0.id == t.id + 1
    ensures var r := Iterate(step, s, n);
            r.1.None? ==> r.0.id == s.id + n || Stops(cfg, r.0)
    decreases n
  {
    if n > 0 {
      if Stops(cfg, s) {
        IterateFixpoint(step, s, n);
      } else if !step(s).1.Aborted? {
        IterateProgress(cfg, step, step(s).0, n - 1);
      }
    }
  }

  /** The crawl's steps advance the counter by at most one. */
  lemma CrawlCounts(cfg: Config, env: Env, s: CrawlState, n: nat)
    ensures s.id <= CrawlRun(cfg, env, s, n).0.id <= s.id + n
  {
    forall t: CrawlState
      ensures t.id <= StepOf(cfg, env)(t).0.id <= t.id + 1
    {
      StepCounts(cfg, env, t);
    }
    IterateCounts(StepOf(cfg, env), s, n);
  }

  /** Once the streak is over the threshold, the rest of the loop does nothing. */
  lemma StoppedCrawlIsInert(cfg: Config, env: Env, s: CrawlState, n: nat)
    requires Stops(cfg, s)
    ensures CrawlRun(cfg, env, s, n) == (s, None)
  {
    StepCounts(cfg, env, s);
    IterateFixpoint(StepOf(cfg, env), s, n);
  }

  /** A run without a fatal error has processed one ID per iteration, unless
      the early stop has fired. */
  lemma CrawlProgress(cfg: Config, env: Env, s: CrawlState, n: nat)
    ensures var r := CrawlRun(cfg, env, s, n);
            r.1.None? ==> r.0.id == s.id + n || Stops(cfg, r.0)
  {
    forall t: CrawlState
      ensures Stops(cfg, t) ==> StepOf(cfg, env)(t) == (t, Stopped)
      ensures !Stops(cfg, t) ==> StepOf(cfg, env)(t).0.id == t.id + 1
    {
      StepCounts(cfg, env, t);
    }
    IterateProgress(cfg, StepOf(cfg, env), s, n);
  }

  predicate Increasing(xs: seq<nat>)
  {
    forall i, j :: 0 <= i < j < |xs| ==> xs[i] < xs[j]
  }

  /** Every ID requested between states `s` and `t` lies above the counter
      of `s` and at most at the counter of `t`. */
  predicate NewRequestsBetween(s: CrawlState, t: CrawlState)
  {
    forall i :: |s.requested| <= i < |t.requested| ==> s.id < t.requested[i] <= t.id
  }

  /** `t` comes after `s`: a counter no lower and the requests of `s`
      followed by more. */
  predicate Follows(s: CrawlState, t: CrawlState)
  {
    && s.id <= t.id
    && |s.requested| <= |t.requested|
    && t.requested[..|s.requested|] == s.requested
  }

  lemma FollowsCompose(s: CrawlState, t: CrawlState, u: CrawlState)
    requires Follows(s, t) && Follows(t, u)
    requires NewRequestsBetween(s, t) && NewRequestsBetween(t, u)
    ensures Follows(s, u) && NewRequestsBetween(s, u)
  {
    assert u.requested[..|s.requested|] == u.requested[..|t.requested|][..|s.requested|];
    forall i | |s.requested| <= i < |u.requested|
      ensures s.id < u.requested[i] <= u.id
    {
      if i < |t.requested| {
        assert u.requested[i] == u.requested[..|t.requested|][i];
      }
    }
  }

  /** A run only appends to the requests, and the IDs it requests are new:
      above the counter it started from and at most the counter it ends with. */
  lemma NewRequestsInRange(cfg: Config, env: Env, s: CrawlState, n: nat)
    ensures var r := CrawlRun(cfg, env, s, n).0;
            Follows(s, r) && NewRequestsBetween(s, r)
  {
    var inv := (t: CrawlState) => Follows(s, t) && NewRequestsBetween(s, t);
    forall t | inv(t)
      ensures inv(StepOf(cfg, env)(t).0)
    {
      var u := CrawlStep(cfg, env, t).0;
      StepCounts(cfg, env, t);
      assert Follows(t, u) && NewRequestsBetween(t, u);
      FollowsCompose(s, t, u);
    }
    IterateKeeps(StepOf(cfg, env), inv, s, n);
  }

  /** The requests so far go strictly up and none lies above the counter. */
  predicate RequestsOrdered(t: CrawlState)
  {
    && Increasing(t.requested)
    && forall i :: 0 <= i < |t.requested| ==> t.requested[i] <= t.id
  }

  /** Requests only ever go up: a run never goes back or repeats an ID. */
  lemma RequestsIncrease(cfg: Config, env: Env, s: CrawlState, n: nat)
    requires RequestsOrdered(s)
    ensures RequestsOrdered(CrawlRun(cfg, env, s, n).0)
  {
    forall t | RequestsOrdered(t)
      ensures RequestsOrdered(StepOf(cfg, env)(t).0)
    {
      StepCounts(cfg, env, t);
    }
    IterateKeeps(StepOf(cfg, env), RequestsOrdered, s, n);
  }

  /** From a fresh start the requested IDs increase strictly and lie between
      1 and the loop bound: the counter is incremented before use, at most
      once per iteration, so the last ID that can be tried is `maxID` itself. */
  lemma CrawlStaysInRange(cfg: Config, env: Env, d: Dir)
    ensures var r := CrawlRun(cfg, env, Start(d), Iterations(cfg.maxID));
            && r.0.id <= Iterations(cfg.maxID)
            && Increasing(r.0.requested)
            && forall i :: 0 <= i < |r.0.requested| ==> 1 <= r.0.requested[i] <= Iterations(cfg.maxID)
  {
    CrawlCounts(cfg, env, Start(d), Iterations(cfg.maxID));
    NewRequestsInRange(cfg, env, Start(d), Iterations(cfg.maxID));
    RequestsIncrease(cfg, env, Start(d), Iterations(cfg.maxID));
  }

  /** While the streak cannot pass the threshold, every iteration processes
      one ID, so a run that ends without a fatal error has tried exactly `n` IDs. */
  lemma CrawlTriesEveryId(cfg: Config, env: Env, s: CrawlState, n: nat)
    requires s.subsequentRefreshes + n <= cfg.maxSubsequentRefreshes + 1
    ensures CrawlRun(cfg, env, s, n).1.None? ==> CrawlRun(cfg, env, s, n).0.id == s.id + n
  {
    var inv := (t: CrawlState) =>
      s.id <= t.id && t.subsequentRefreshes <= s.subsequentRefreshes + (t.id - s.id);
    forall t | inv(t)
      ensures inv(StepOf(cfg, env)(t).0)
    {
      StepCounts(cfg, env, t);
      StepBookkeeping(cfg, env, t);
    }
    IterateKeeps(StepOf(cfg, env), inv, s, n);
    CrawlProgress(cfg, env, s, n);
    CrawlCounts(cfg, env, s, n);
  }

  /** With the threshold at least `maxID - 1`, a crawl from scratch that hits
      no fatal error processes the ID `maxID` itself: the bound is inclusive. */
  lemma MaxIdIsProcessed(cfg: Config, env: Env, d: Dir)
    requires cfg.maxID >= 1 && cfg.maxID <= cfg.maxSubsequentRefreshes + 1
    ensures var r := CrawlRun(cfg, env, Start(d), Iterations(cfg.maxID));
            r.1.None? ==> r.0.id == cfg.maxID
  {
    CrawlTriesEveryId(cfg, env, Start(d), Iterations(cfg.maxID));
  }

  /** Above the counter of `t`, its cache agrees with the cache `d0` the run
      started from. */
  ghost predicate AgreesAbove(d0: Dir, t: CrawlState)
  {
    forall k :: k > t.id ==> EntryOf(t.dir, k) == EntryOf(d0, k)
  }

  /** Every ID requested from position `m` on was not skippable in `d0`. */
  predicate UncachedSince(cfg: Config, d0: Dir, m: nat, t: CrawlState)
  {
    forall i :: m <= i < |t.requested| ==> !Skipped(cfg, d0, t.requested[i])
  }

  lemma StepKeepsUncached(cfg: Config, env: Env, d0: Dir, m: nat, s: CrawlState)
    requires AgreesAbove(d0, s) && UncachedSince(cfg, d0, m, s)
    ensures var t := CrawlStep(cfg, env, s).0;
            AgreesAbove(d0, t) && UncachedSince(cfg, d0, m, t)
  {
    StepCounts(cfg, env, s);
    var t := CrawlStep(cfg, env, s).0;
    if !Stops(cfg, s) {
      forall k | k > t.id
        ensures EntryOf(t.dir, k) == EntryOf(d0, k)
      {
        StepFrame(cfg, env, s, k);
      }
      assert EntryOf(s.dir, s.id + 1) == EntryOf(d0, s.id + 1);
    }
  }

  /** Every ID a run requests was, in the cache as the run found it, not
      skippable: absent, or empty with force on. In particular a non-empty
      cache entry is never requested again, whatever force says. */
  lemma RequestsOnlyUncached(cfg: Config, env: Env, s: CrawlState, n: nat)
    ensures var r := CrawlRun(cfg, env, s, n).0;
            forall i :: |s.requested| <= i < |r.requested| ==>
              !Skipped(cfg, s.dir, r.requested[i]) && !EntryOf(s.dir, r.requested[i]).Page?
  {
    var inv := (t: CrawlState) => AgreesAbove(s.dir, t) && UncachedSince(cfg, s.dir, |s.requested|, t);
    forall t | inv(t)
      ensures inv(StepOf(cfg, env)(t).0)
    {
      StepKeepsUncached(cfg, env, s.dir, |s.requested|, t);
    }
    IterateKeeps(StepOf(cfg, env), inv, s, n);
  }

  /** Re-running over a cache that holds a real page for every ID the run
      reaches issues no request and writes nothing. */
  lemma FullyCachedCrawlIsOffline(cfg: Config, env: Env, s: CrawlState, n: nat)
    requires forall k :: s.id < k <= s.id + n ==> EntryOf(s.dir, k).Page?
    ensures CrawlRun(cfg, env, s, n).0.requested == s.requested
    ensures CrawlRun(cfg, env, s, n).0.dir == s.dir
  {
    var inv := (t: CrawlState) =>
      s.id <= t.id && (t.id <= s.id + n ==> t.requested == s.requested && t.dir == s.dir);
    forall t | inv(t)
      ensures inv(StepOf(cfg, env)(t).0)
    {
      StepCounts(cfg, env, t);
    }
    IterateKeeps(StepOf(cfg, env), inv, s, n);
    CrawlCounts(cfg, env, s, n);
  }

  /** The cache after `k` consecutive refreshes from an empty directory:
      an empty file for each of the IDs 1 to k. */
  function SentinelsUpTo(k: nat): Dir
  {
    if k == 0 then map[] else SentinelsUpTo(k - 1)[PageFilename(k) := File([], CacheMode)]
  }

  /** The IDs 1 to k, in order. */
  function IdsUpTo(k: nat): (ids: seq<nat>)
    ensures |ids| == k && forall i :: 0 <= i < k ==> ids[i] == i + 1
  {
    if k == 0 then [] else IdsUpTo(k - 1) + [k]
  }

  lemma {:induction false} SentinelsUpToKeys(k: nat)
    ensures forall j :: j > k ==> PageFilename(j) !in SentinelsUpTo(k)
    ensures forall n :: n in SentinelsUpTo(k) ==> |n| > 0 && n[|n| - 1] == 'l'
    ensures forall j :: 1 <= j <= k ==> EntryOf(SentinelsUpTo(k), j) == Sentinel
  {
    if k > 0 {
      SentinelsUpToKeys(k - 1);
      PageFilenameEndsInL(k);
      forall j | j != k
        ensures PageFilename(j) != PageFilename(k)
      {
        if PageFilename(j) == PageFilename(k) {
          PageFilenameInjective(j, k);
        }
      }
      forall j | 1 <= j <= k
        ensures EntryOf(SentinelsUpTo(k), j) == Sentinel
      {
        if j < k {
          assert PageFilename(j) != PageFilename(k);
          assert EntryOf(SentinelsUpTo(k - 1), j) == Sentinel;
        }
      }
    }
  }

  /** The response for ID `k` is a refresh. */
  ghost predicate RefreshAt(env: Env, k: nat)
  {
    env.upstream(k).Reply? && env.upstream(k).status < 400 && env.upstream(k).refresh != ""
  }

  /** The write for ID `k` meets no failure. */
  ghost predicate WriteSucceedsAt(env: Env, k: nat)
  {
    && env.io(k).create.Created? && env.io(k).write.WroteAll? && env.io(k).syncOk
    && env.io(k).closeOk && env.io(k).chmodOk && env.io(k).renameOk
  }

  /** Every response a refresh. */
  ghost predicate AllRefreshes(env: Env)
  {
    forall k :: RefreshAt(env, k)
  }

  /** Every write succeeding. */
  ghost predicate WritesSucceed(env: Env)
  {
    forall k :: WriteSucceedsAt(env, k)
  }

  /** The state after `k` consecutive refreshes from an empty cache. */
  function AfterRefreshes(k: nat): CrawlState
  {
    CrawlState(k, k, SentinelsUpTo(k), IdsUpTo(k), 0)
  }

  /** The write of one more empty file into the cache of `k` refreshes
      succeeds and yields the cache of `k + 1` refreshes. */
  lemma RefreshWrite(env: Env, k: nat)
    requires WritesSucceed(env)
    ensures var w := AtomicWrite(SentinelsUpTo(k), PageFilename(k + 1), [], CacheMode, env.io(k + 1));
            w.err == None && w.dir == SentinelsUpTo(k + 1)
  {
    var name := PageFilename(k + 1);
    var io := env.io(k + 1);
    assert WriteSucceedsAt(env, k + 1);
    SentinelsUpToKeys(k);
    var t := TempName(name, io.create.random);
    assert t[|t| - 1] == Decimal(io.create.random)[|Decimal(io.create.random)| - 1];
    assert TempCreated(SentinelsUpTo(k), name, io);
    assert FirstError(io) == None;
    AtomicWriteEffects(SentinelsUpTo(k), name, [], CacheMode, io);
  }

  lemma RefreshStep(cfg: Config, env: Env, k: nat)
    requires AllRefreshes(env) && WritesSucceed(env)
    requires k <= cfg.maxSubsequentRefreshes
    ensures CrawlStep(cfg, env, AfterRefreshes(k)) == (AfterRefreshes(k + 1), Refreshed)
  {
    assert RefreshAt(env, k + 1);
    SentinelsUpToKeys(k);
    RefreshWrite(env, k);
  }

  /** `t` is the state after `t.id` refreshes, not past the threshold. */
  predicate Refreshing(cfg: Config, t: CrawlState)
  {
    t.id <= cfg.maxSubsequentRefreshes + 1 && t == AfterRefreshes(t.id)
  }

  /** A state reached by refreshes alone keeps being one, without a fatal
      error, as long as every response is a refresh and every write succeeds. */
  lemma RefreshKeepsRefreshing(cfg: Config, env: Env)
    requires AllRefreshes(env) && WritesSucceed(env)
    ensures forall t :: Refreshing(cfg, t) ==>
              Refreshing(cfg, StepOf(cfg, env)(t).0) && !StepOf(cfg, env)(t).1.Aborted?
  {
    forall t | Refreshing(cfg, t)
      ensures Refreshing(cfg, CrawlStep(cfg, env, t).0) && !CrawlStep(cfg, env, t).1.Aborted?
    {
      if t.id <= cfg.maxSubsequentRefreshes {
        RefreshStep(cfg, env, t.id);
      }
    }
  }

  /** A crawl from a state reached by refreshes alone stays such a state,
      meets no fatal error, and ends having run every iteration or stopped. */
  lemma RefreshRun(cfg: Config, env: Env, s: CrawlState, n: nat)
    requires AllRefreshes(env) && WritesSucceed(env)
    requires Refreshing(cfg, s)
    ensures var r := CrawlRun(cfg, env, s, n);
            && Refreshing(cfg, r.0) && r.1.None?
            && (r.0.id == s.id + n || Stops(cfg, r.0))
  {
    RefreshKeepsRefreshing(cfg, env);
    IterateKeepsWithoutFatal(StepOf(cfg, env), (t: CrawlState) => Refreshing(cfg, t), s, n);
    CrawlProgress(cfg, env, s, n);
  }

  /** Early stop: with every response a refresh and every write succeeding,
      a crawl that has seen `k` refreshes (from an empty cache, where
      `Start(map[]) == AfterRefreshes(0)`) goes on to request exactly the IDs
      up to `maxSubsequentRefreshes + 1`, each leaving an empty file and no
      sleep, and then issues nothing for the rest of the loop. */
  lemma AllRefreshesStopAfterThreshold(cfg: Config, env: Env, k: nat, n: nat)
    requires AllRefreshes(env) && WritesSucceed(env)
    requires k <= cfg.maxSubsequentRefreshes + 1 <= k + n
    ensures CrawlRun(cfg, env, AfterRefreshes(k), n)
              == (AfterRefreshes(cfg.maxSubsequentRefreshes + 1), None)
  {
    var s := AfterRefreshes(k);
    assert Refreshing(cfg, s);
    RefreshRun(cfg, env, s, n);
  }

  /** The class that holds the closure's state; `Step` is one call of
      `wrapFunc`, `Run` the `for` loop around it. */
  class Crawler {
    const cfg: Config
    const env: Env
    var id: nat
    var subsequentRefreshes: nat
    var dir: Dir
    var requested: seq<nat>
    var sleeps: nat

    function State(): CrawlState
      reads this
    {
      CrawlState(id, subsequentRefreshes, dir, requested, sleeps)
    }

    constructor (cfg: Config, env: Env, dir: Dir)
      ensures this.cfg == cfg && this.env == env
      ensures State() == Start(dir)
    {
      this.cfg := cfg;
      this.env := env;
      this.id := 0;
      this.subsequentRefreshes := 0;
      this.dir := dir;
      this.requested := [];
      this.sleeps := 0;
    }

    method Step() returns (outcome: StepOutcome)
      modifies this
      ensures (State(), outcome) == CrawlStep(cfg, env, old(State()))
    {
      if subsequentRefreshes > cfg.maxSubsequentRefreshes {
        return Stopped;
      }
      id := id + 1;
      var name := PageFilename(id);
      if name in dir && (|dir[name].data| > 0 || !cfg.force) {
        return Cached;
      }
      requested := requested + [id];
      outcome := Request();
    }

    /** The request for the current ID and the handling of its response. */
    method Request() returns (outcome: StepOutcome)
      modifies this
      ensures (State(), outcome) == Exchange(env, old(State()))
    {
      var name := PageFilename(id);
      var resp := env.upstream(id);
      if resp.TransportError? {
        return Aborted(TransportFailure);
      }
      if resp.status >= 400 {
        return Aborted(HttpFailure(resp.status));
      }
      if resp.refresh != "" {
        outcome := StoreRefresh(name);
        return;
      }
      subsequentRefreshes := 0;
      if resp.body.None? {
        return Aborted(ReadFailure);
      }
      outcome := StorePage(name, resp.body.value);
    }

    /** The refresh branch: an empty file, then one more refresh. */
    method StoreRefresh(name: string) returns (outcome: StepOutcome)
      modifies this
      ensures var w := AtomicWrite(old(dir), name, [], CacheMode, env.io(id));
              && outcome == (if w.err.Some? then Aborted(WriteFailure(w.err.value)) else Refreshed)
              && State() == old(State()).(dir := w.dir, subsequentRefreshes :=
                   if w.err.Some? then old(subsequentRefreshes) else old(subsequentRefreshes) + 1)
    {
      var d, err, _ := WriteFileAtomic(dir, name, [], CacheMode, env.io(id));
      dir := d;
      if err.Some? {
        return Aborted(WriteFailure(err.value));
      }
      subsequentRefreshes := subsequentRefreshes + 1;
      return Refreshed;
    }

    /** The page branch: the body written, then one sleep. */
    method StorePage(name: string, body: seq<byte>) returns (outcome: StepOutcome)
      modifies this
      ensures var w := AtomicWrite(old(dir), name, body, CacheMode, env.io(id));
              && outcome == (if w.err.Some? then Aborted(WriteFailure(w.err.value)) else Fetched)
              && State() == old(State()).(dir := w.dir, sleeps :=
                   if w.err.Some? then old(sleeps) else old(sleeps) + 1)
    {
      var d, err, _ := WriteFileAtomic(dir, name, body, CacheMode, env.io(id));
      dir := d;
      if err.Some? {
        return Aborted(WriteFailure(err.value));
      }
      sleeps := sleeps + 1;
      return Fetched;
    }

    method Run() returns (fatal: Option<Fatal>)
      modifies this
      ensures (State(), fatal) == CrawlRun(cfg, env, old(State()), Iterations(cfg.maxID))
    {
      ghost var n := Iterations(cfg.maxID);
      var i := 0;
      while i < cfg.maxID
        invariant 0 <= i <= n
        invariant CrawlRun(cfg, env, State(), n - i) == CrawlRun(cfg, env, old(State()), n)
      {
        var outcome := Step();
        if outcome.Aborted? {
          return Some(outcome.reason);
        }
        i := i + 1;
      }
      return None;
    }
  }
}
