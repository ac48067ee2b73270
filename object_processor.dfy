/**
 * The base of the tasks that work through a tenant instance's backlog one
 * object per run: each run takes the object that has waited longest, counts
 * the attempt in the shared store, lets the task's callback process it,
 * saves what changed, and decides from the attempt number whether a failure
 * is retried or handed to the exception handler. When the run's lock is
 * released and the backlog is not empty, the task submits itself again.
 *
 * The run is specified by the function RunSpec on values; the class methods
 * are proved to change their state exactly as RunSpec says, and the
 * properties of a run are lemmas about RunSpec.
 */
module ObjectProcessor {
  import opened Wrappers
  import opened TaskKeys
  import opened Store
  import opened RetryPolicy

  /** The class-level defaults of the task. */
  const DefaultRetryDelay := 10
  const DefaultMaxAttempts := 1

  /** The timestamp field every save writes along with the changed fields. */
  const UpdatedAt := "updated_at"

  /** The task's settings; the lock and the attempt counter expire after a positive time. */
  datatype Config = Config(name: string, maxAttempts: int, retryDelay: int, lockExpire: int) {
    predicate Valid() {
      lockExpire > 0
    }
  }

  /** An object as a value: its in-memory field values and the row as last saved. */
  datatype Row = Row(pk: int, fields: map<string, int>, stored: map<string, int>)

  /**
   * The fields whose in-memory value differs from the saved row: none exactly when
   * every field in memory is saved with the same value.
   */
  function Changes(r: Row): (c: set<string>)
    ensures c <= r.fields.Keys
    ensures c == {} <==> forall f :: f in r.fields ==> f in r.stored && r.stored[f] == r.fields[f]
  {
    var c := set f | f in r.fields && (f !in r.stored || r.stored[f] != r.fields[f]);
    assert forall f :: f in r.fields && (f !in r.stored || r.stored[f] != r.fields[f]) ==> f in c;
    c
  }

  /** Saving with an explicit field list: those fields' in-memory values reach the row. */
  function SaveFields(r: Row, updateFields: set<string>): (r': Row)
    ensures r'.pk == r.pk && r'.fields == r.fields
    ensures forall f :: f in updateFields && f in r.fields ==> f in r'.stored && r'.stored[f] == r.fields[f]
    ensures forall f :: f in r'.stored && (f !in updateFields || f !in r.fields) ==>
              f in r.stored && r'.stored[f] == r.stored[f]
    ensures r.stored.Keys <= r'.stored.Keys
  {
    r.(stored := r.stored + map f | f in updateFields && f in r.fields :: r.fields[f])
  }

  /** How the task's processing callback ended. */
  datatype Result =
    | ReturnedFalse                  // returned exactly False: nothing is to be saved
    | ReturnedOther                  // returned anything else: the changes are saved
    | Raised(failure: Failure)

  /** The callback's field writes on the object, and how it ended. */
  datatype Callback = Callback(writes: map<string, int>, result: Result)

  /** What a run does outside the store and the task's own fields. */
  datatype Effect =
    | Saved(pk: int, updateFields: set<string>)
    | HandledException(pk: int, failure: Failure)

  /** Resubmission of the task with the same arguments, after `countdown` seconds if given. */
  datatype Submission = Submission(instancePk: int, countdown: Option<int>)

  /** The store's keys and times to live, the task's countdown and its effects so far. */
  datatype RunState = RunState(counters: map<string, int>, ttl: map<string, int>, countdown: Option<int>, trace: seq<Effect>)

  /** The object once the callback has written its fields. */
  function Processed(r: Row, cb: Callback): Row {
    r.(fields := r.fields + cb.writes)
  }

  /** Whether the run saves the processed object: a result other than False, changes, and a save that succeeds. */
  predicate SavesObject(r: Row, cb: Callback, saveFailure: Option<Failure>) {
    cb.result == ReturnedOther && Changes(Processed(r, cb)) != {} && saveFailure.None?
  }

  /** The error the run's try block ends with: the callback's own, or that of the save it triggers. */
  function FailureOf(r: Row, cb: Callback, saveFailure: Option<Failure>): (f: Option<Failure>)
    ensures cb.result.Raised? ==> f == Some(cb.result.failure)
    ensures cb.result == ReturnedFalse ==> f == None
    ensures f.None? && cb.result == ReturnedOther ==> Changes(Processed(r, cb)) == {} || SavesObject(r, cb, saveFailure)
    ensures cb.result == ReturnedOther && Changes(Processed(r, cb)) != {} ==> f == saveFailure
    ensures cb.result == ReturnedOther && Changes(Processed(r, cb)) == {} ==> f == None
  {
    match cb.result
    case ReturnedFalse => None
    case ReturnedOther => if Changes(Processed(r, cb)) == {} then None else saveFailure
    case Raised(f) => Some(f)
  }

  function Attempt(cfg: Config, instancePk: int, counters: map<string, int>): int {
    CountIn(counters, AttemptKey(cfg.name, instancePk)) + 1
  }

  function RunVerdict(cfg: Config, instancePk: int, st: RunState, r: Row, cb: Callback, saveFailure: Option<Failure>): Verdict {
    Judge(Attempt(cfg, instancePk, st.counters), cfg.maxAttempts, cfg.retryDelay, FailureOf(r, cb, saveFailure))
  }

  /**
   * One run of the task for instance `instancePk` on the stalest pending
   * object `obj` (None when the backlog is empty), whose callback behaves as
   * `cb` and whose save, if one is attempted, fails with `saveFailure`.
   */
  function RunSpec(cfg: Config, instancePk: int, st: RunState, obj: Option<Row>, cb: Callback, saveFailure: Option<Failure>): (post: (RunState, Option<Row>))
    ensures obj.None? ==> post == (st.(countdown := None), None)
    ensures obj.Some? ==> post.1.Some? && post.1.value.pk == obj.value.pk
  {
    match obj
    case None => (st.(countdown := None), None)
    case Some(r) =>
      var key := AttemptKey(cfg.name, instancePk);
      var attempt := Attempt(cfg, instancePk, st.counters);
      var p := Processed(r, cb);
      var saves := SavesObject(r, cb, saveFailure);
      var v := Judge(attempt, cfg.maxAttempts, cfg.retryDelay, FailureOf(r, cb, saveFailure));
      var counted := st.counters[key := attempt];
      var expiring := st.ttl[key := cfg.lockExpire];
      var counters := if KeepsCounter(v) then counted else counted - {key};
      var ttl := if KeepsCounter(v) then expiring else expiring - {key};
      var countdown := if v.RetryAfter? then Some(v.countdown) else None;
      var saved := if saves then [Saved(r.pk, Changes(p) + {UpdatedAt})] else [];
      var handled := if v.GiveUp? then [HandledException(r.pk, v.failure)] else [];
      (RunState(counters, ttl, countdown, st.trace + saved + handled),
       Some(if saves then SaveFields(p, Changes(p) + {UpdatedAt}) else p))
  }

  /**
   * A run only appends to the effects, and touches no key of the store but
   * its own attempt counter.
   */
  lemma RunTouchesOnlyItsCounter(cfg: Config, instancePk: int, st: RunState, obj: Option<Row>, cb: Callback, saveFailure: Option<Failure>, k: string)
    requires k != AttemptKey(cfg.name, instancePk)
    ensures var post := RunSpec(cfg, instancePk, st, obj, cb, saveFailure).0;
      && |post.trace| >= |st.trace| && post.trace[..|st.trace|] == st.trace
      && CountIn(post.counters, k) == CountIn(st.counters, k)
      && (k in post.ttl <==> k in st.ttl) && (k in st.ttl ==> post.ttl[k] == st.ttl[k])
  {
    var post := RunSpec(cfg, instancePk, st, obj, cb, saveFailure).0;
    assert post.trace[..|st.trace|] == st.trace;
  }

  /**
   * The attempt counter after a run follows the retry policy: it holds the
   * attempt number, with the lock's time to live, exactly while the run
   * retries, and is deleted when the run succeeds or gives up.
   */
  lemma RunCounter(cfg: Config, instancePk: int, st: RunState, r: Row, cb: Callback, saveFailure: Option<Failure>)
    ensures var post := RunSpec(cfg, instancePk, st, Some(r), cb, saveFailure).0;
      var key := AttemptKey(cfg.name, instancePk);
      var v := RunVerdict(cfg, instancePk, st, r, cb, saveFailure);
      && CountIn(post.counters, key) == CounterAfter(Attempt(cfg, instancePk, st.counters), v)
      && (key in post.counters <==> KeepsCounter(v))
      && (key in post.ttl <==> KeepsCounter(v))
      && (key in post.ttl ==> post.ttl[key] == cfg.lockExpire)
  {
  }

  /**
   * Between runs the counter stays below maxAttempts: a run never leaves
   * behind a count that would make the next run start past the limit.
   */
  lemma {:induction false} RunKeepsCounterBelowLimit(cfg: Config, instancePk: int, st: RunState, obj: Option<Row>, cb: Callback, saveFailure: Option<Failure>)
    requires 0 <= CountIn(st.counters, AttemptKey(cfg.name, instancePk)) < cfg.maxAttempts
    ensures 0 <= CountIn(RunSpec(cfg, instancePk, st, obj, cb, saveFailure).0.counters, AttemptKey(cfg.name, instancePk)) < cfg.maxAttempts
  {
    if obj.Some? {
      RunCounter(cfg, instancePk, st, obj.value, cb, saveFailure);
      CounterStaysBelowLimit(CountIn(st.counters, AttemptKey(cfg.name, instancePk)), cfg.maxAttempts,
                             cfg.retryDelay, FailureOf(obj.value, cb, saveFailure));
    }
  }

  /**
   * A countdown is set only for an unexpected error before the last attempt,
   * and is then the attempt number times the retry delay; every other run
   * leaves it unset.
   */
  lemma RunCountdown(cfg: Config, instancePk: int, st: RunState, r: Row, cb: Callback, saveFailure: Option<Failure>)
    ensures var post := RunSpec(cfg, instancePk, st, Some(r), cb, saveFailure).0;
      var attempt := Attempt(cfg, instancePk, st.counters);
      && (post.countdown.Some? <==> FailureOf(r, cb, saveFailure) == Some(Unexpected) && attempt < cfg.maxAttempts)
      && (post.countdown.Some? ==> post.countdown.value == attempt * cfg.retryDelay)
  {
  }

  /**
   * The exception handler is called, once, exactly when the run fails at or
   * past the last attempt, or fails with a domain error that refuses retry.
   */
  lemma RunHandlesException(cfg: Config, instancePk: int, st: RunState, r: Row, cb: Callback, saveFailure: Option<Failure>, f: Failure)
    ensures var post := RunSpec(cfg, instancePk, st, Some(r), cb, saveFailure).0;
      var attempt := Attempt(cfg, instancePk, st.counters);
      post.trace == st.trace + [HandledException(r.pk, f)] <==>
        FailureOf(r, cb, saveFailure) == Some(f) && (attempt >= cfg.maxAttempts || f == ProcessingError(false))
  {
    var post := RunSpec(cfg, instancePk, st, Some(r), cb, saveFailure).0;
    if post.trace == st.trace + [HandledException(r.pk, f)] {
      assert post.trace[|st.trace|] == HandledException(r.pk, f);
    }
  }

  /** A callback that writes nothing and raises `f`. */
  function Raising(f: Failure): Callback {
    Callback(map[], Raised(f))
  }

  /** The failure each of several runs on `r` ends its try block with. */
  function Failures(r: Row, runs: seq<(Callback, Option<Failure>)>): (fs: seq<Option<Failure>>)
    ensures |fs| == |runs|
    ensures forall i :: 0 <= i < |runs| ==> fs[i] == FailureOf(r, runs[i].0, runs[i].1)
  {
    if runs == [] then []
    else [FailureOf(r, runs[0].0, runs[0].1)] + Failures(r, runs[1..])
  }

  /**
   * Consecutive runs on the same pending object `r`, the i-th with callback runs[i].0
   * and save failure runs[i].1: the state after them, and the attempt number and
   * verdict of each run.
   */
  function Runs(cfg: Config, instancePk: int, st: RunState, r: Row, runs: seq<(Callback, Option<Failure>)>): (res: (RunState, seq<Step>))
    ensures |res.1| == |runs|
    decreases |runs|
  {
    if runs == [] then (st, [])
    else
      var (cb, saveFailure) := runs[0];
      var step := Step(Attempt(cfg, instancePk, st.counters), RunVerdict(cfg, instancePk, st, r, cb, saveFailure));
      var rest := Runs(cfg, instancePk, RunSpec(cfg, instancePk, st, Some(r), cb, saveFailure).0, r, runs[1..]);
      (rest.0, [step] + rest.1)
  }

  /**
   * Consecutive runs make the decisions that the retry policy replays from the stored
   * counter: whatever the callbacks and saves do, the runs' attempt numbers and
   * verdicts are Replay's steps on the failures the runs end with.
   */
  lemma {:induction false} RunsFollowReplay(cfg: Config, instancePk: int, st: RunState, r: Row, runs: seq<(Callback, Option<Failure>)>)
    ensures Runs(cfg, instancePk, st, r, runs).1 ==
              Replay(CountIn(st.counters, AttemptKey(cfg.name, instancePk)), cfg.maxAttempts, cfg.retryDelay, Failures(r, runs))
    decreases |runs|
  {
    if runs != [] {
      var key := AttemptKey(cfg.name, instancePk);
      var count := CountIn(st.counters, key);
      var (cb, saveFailure) := runs[0];
      var st' := RunSpec(cfg, instancePk, st, Some(r), cb, saveFailure).0;
      var v := RunVerdict(cfg, instancePk, st, r, cb, saveFailure);
      RunCounter(cfg, instancePk, st, r, cb, saveFailure);
      assert CountIn(st'.counters, key) == CounterAfter(count + 1, v);
      RunsFollowReplay(cfg, instancePk, st', r, runs[1..]);
      var fs := Failures(r, runs);
      assert fs[1..] == Failures(r, runs[1..]);
    }
  }

  /**
   * With a per-run counter below maxAttempts to start from, every one of consecutive
   * runs, whatever its callback and save do, sees an attempt number in 1 .. maxAttempts.
   */
  lemma RunsAttemptsBounded(cfg: Config, instancePk: int, st: RunState, r: Row, runs: seq<(Callback, Option<Failure>)>)
    requires 0 <= CountIn(st.counters, AttemptKey(cfg.name, instancePk)) < cfg.maxAttempts
    ensures var steps := Runs(cfg, instancePk, st, r, runs).1;
      forall i :: 0 <= i < |steps| ==> 1 <= steps[i].attempt <= cfg.maxAttempts
  {
    var count := CountIn(st.counters, AttemptKey(cfg.name, instancePk));
    RunsFollowReplay(cfg, instancePk, st, r, runs);
    AttemptsBounded(count, cfg.maxAttempts, cfg.retryDelay, Failures(r, runs));
  }

  /** k runs whose callback writes nothing and raises `f`, with no save attempted. */
  function Recurring(f: Failure, k: nat): (runs: seq<(Callback, Option<Failure>)>)
    ensures |runs| == k
  {
    seq(k, _ => (Raising(f), None))
  }

  /** Those runs end with `f` every time. */
  lemma RecurringFailures(r: Row, f: Failure, k: nat)
    ensures Failures(r, Recurring(f, k)) == seq(k, _ => Some(f))
  {
    var fs := Failures(r, Recurring(f, k));
    forall i | 0 <= i < k
      ensures fs[i] == Some(f)
    {
      assert Recurring(f, k)[i] == (Raising(f), None);
    }
  }

  /**
   * A failure that keeps coming back, from a counter below maxAttempts: the
   * maxAttempts - count runs call handle_exception exactly once, with that
   * failure, and leave the attempt counter deleted and no countdown set.
   */
  lemma {:induction false} RunsGiveUpOnce(cfg: Config, instancePk: int, st: RunState, r: Row, f: Failure)
    requires f != ProcessingError(false)
    requires 0 <= CountIn(st.counters, AttemptKey(cfg.name, instancePk)) < cfg.maxAttempts
    ensures var count := CountIn(st.counters, AttemptKey(cfg.name, instancePk));
      var post := Runs(cfg, instancePk, st, r, Recurring(f, cfg.maxAttempts - count)).0;
      var key := AttemptKey(cfg.name, instancePk);
      && post.trace == st.trace + [HandledException(r.pk, f)]
      && key !in post.counters && key !in post.ttl
      && post.countdown == None
    decreases cfg.maxAttempts - CountIn(st.counters, AttemptKey(cfg.name, instancePk))
  {
    var key := AttemptKey(cfg.name, instancePk);
    var count := CountIn(st.counters, key);
    var runs := Recurring(f, cfg.maxAttempts - count);
    assert runs[0] == (Raising(f), None);
    assert runs[1..] == Recurring(f, cfg.maxAttempts - count - 1);
    var st' := RunSpec(cfg, instancePk, st, Some(r), Raising(f), None).0;
    var v := RunVerdict(cfg, instancePk, st, r, Raising(f), None);
    assert v == Judge(count + 1, cfg.maxAttempts, cfg.retryDelay, Some(f));
    RunCounter(cfg, instancePk, st, r, Raising(f), None);
    if count + 1 == cfg.maxAttempts {
      assert st'.trace == st.trace + [HandledException(r.pk, f)];
    } else {
      assert st'.trace == st.trace;
      RunsGiveUpOnce(cfg, instancePk, st', r, f);
    }
  }

  /**
   * The same runs, run by run: attempt numbers count + 1, count + 2, …, every run but
   * the last retries (after attempt * retryDelay seconds for an unexpected error), and
   * the last one gives up.
   */
  lemma RunsRetryThenGiveUp(cfg: Config, instancePk: int, st: RunState, r: Row, f: Failure)
    requires f != ProcessingError(false)
    requires 0 <= CountIn(st.counters, AttemptKey(cfg.name, instancePk)) < cfg.maxAttempts
    ensures var count := CountIn(st.counters, AttemptKey(cfg.name, instancePk));
      RetriesThenGivesUp(Runs(cfg, instancePk, st, r, Recurring(f, cfg.maxAttempts - count)).1, count, cfg.retryDelay, f)
  {
    var count := CountIn(st.counters, AttemptKey(cfg.name, instancePk));
    var k := cfg.maxAttempts - count;
    var fs := seq(k, _ => Some(f));
    RunsFollowReplay(cfg, instancePk, st, r, Recurring(f, k));
    RecurringFailures(r, f, k);
    BoundedRetry(count, cfg.maxAttempts, cfg.retryDelay, f);
    assert Runs(cfg, instancePk, st, r, Recurring(f, k)).1 == Replay(count, cfg.maxAttempts, cfg.retryDelay, fs);
  }

  /**
   * With the default of a single attempt, the first failure is final: the handler is
   * called once, the attempt counter is deleted and no retry is scheduled.
   */
  lemma DefaultAttemptsGiveUpAtOnce(cfg: Config, instancePk: int, st: RunState, r: Row, cb: Callback, saveFailure: Option<Failure>, f: Failure)
    requires cfg.maxAttempts == DefaultMaxAttempts
    requires CountIn(st.counters, AttemptKey(cfg.name, instancePk)) >= 0
    requires FailureOf(r, cb, saveFailure) == Some(f)
    ensures var post := RunSpec(cfg, instancePk, st, Some(r), cb, saveFailure).0;
      var key := AttemptKey(cfg.name, instancePk);
      && post.trace == st.trace + [HandledException(r.pk, f)]
      && key !in post.counters && key !in post.ttl
      && post.countdown == None
  {
    RunHandlesException(cfg, instancePk, st, r, cb, saveFailure, f);
    RunCounter(cfg, instancePk, st, r, cb, saveFailure);
    RunCountdown(cfg, instancePk, st, r, cb, saveFailure);
  }

  /**
   * The run saves the object exactly when the callback did not return False,
   * left changes, and the save went through; the save writes the changed
   * fields and the timestamp, and leaves nothing changed behind.
   */
  lemma RunSaves(cfg: Config, instancePk: int, st: RunState, r: Row, cb: Callback, saveFailure: Option<Failure>)
    ensures var post := RunSpec(cfg, instancePk, st, Some(r), cb, saveFailure);
      var changes := Changes(Processed(r, cb));
      && ((exists fs :: post.0.trace == st.trace + [Saved(r.pk, fs)]) <==>
            cb.result == ReturnedOther && changes != {} && saveFailure.None?)
      && (post.0.trace == st.trace + [Saved(r.pk, changes + {UpdatedAt})] <==> SavesObject(r, cb, saveFailure))
      && (SavesObject(r, cb, saveFailure) ==> Changes(post.1.value) == {})
      && (!SavesObject(r, cb, saveFailure) ==> post.1.value == Processed(r, cb))
  {
    var post := RunSpec(cfg, instancePk, st, Some(r), cb, saveFailure);
    var p := Processed(r, cb);
    if SavesObject(r, cb, saveFailure) {
      SaveLeavesNothingChanged(p);
    }
    if exists fs :: post.0.trace == st.trace + [Saved(r.pk, fs)] {
      var fs :| post.0.trace == st.trace + [Saved(r.pk, fs)];
      assert post.0.trace[|st.trace|] == Saved(r.pk, fs);
    }
    if post.0.trace == st.trace + [Saved(r.pk, Changes(p) + {UpdatedAt})] {
      assert post.0.trace[|st.trace|] == Saved(r.pk, Changes(p) + {UpdatedAt});
    }
  }

  /** Saving the changed fields (and the timestamp) makes the in-memory object agree with its row. */
  lemma SaveLeavesNothingChanged(r: Row)
    ensures Changes(SaveFields(r, Changes(r) + {UpdatedAt})) == {}
  {
    var r' := SaveFields(r, Changes(r) + {UpdatedAt});
    forall f | f in r'.fields
      ensures f in r'.stored && r'.stored[f] == r'.fields[f]
    {
      if f !in Changes(r) && f != UpdatedAt {
        assert f in r.stored && r.stored[f] == r.fields[f];
      }
    }
  }

  /** A tenant object: its fields as held in memory, and its row as last saved. */
  class WorkObject {
    const pk: int
    var fields: map<string, int>
    var stored: map<string, int>

    function AsRow(): Row
      reads this
    {
      Row(pk, fields, stored)
    }

    constructor (pk: int, fields: map<string, int>, stored: map<string, int>)
      ensures AsRow() == Row(pk, fields, stored)
    {
      this.pk := pk;
      this.fields := fields;
      this.stored := stored;
    }

    /** save(update_fields=...), which fails with `failure` when the database refuses it. */
    method Save(updateFields: set<string>, failure: Option<Failure>) returns (raised: Option<Failure>)
      modifies this
      ensures raised == failure
      ensures AsRow() == if failure.None? then SaveFields(old(AsRow()), updateFields) else old(AsRow())
    {
      raised := failure;
      if failure.None? {
        stored := SaveFields(AsRow(), updateFields).stored;
      }
    }
  }

  class ObjectProcessorTask {
    const cfg: Config
    const store: KeyValueStore
    /** The tenant instance of the current call, None when it no longer exists. */
    var instance: Option<int>
    /** The instance recorded as current by the last call that found one. */
    var currentInstance: Option<int>
    var countdown: Option<int>
    ghost var trace: seq<Effect>

    ghost predicate Valid()
      reads this, store
    {
      store.Valid() && cfg.Valid()
    }

    ghost function State(): RunState
      reads this, store
    {
      RunState(store.values, store.ttl, countdown, trace)
    }

    constructor (cfg: Config, store: KeyValueStore)
      requires store.Valid() && cfg.Valid()
      ensures Valid()
      ensures this.cfg == cfg && this.store == store
      ensures instance == None && currentInstance == None && countdown == None && trace == []
    {
      this.cfg := cfg;
      this.store := store;
      instance := None;
      currentInstance := None;
      countdown := None;
      trace := [];
    }

    /** Saves the object's changed fields plus the timestamp, when anything changed. */
    method SaveObject(obj: WorkObject, saveFailure: Option<Failure>) returns (raised: Option<Failure>)
      modifies this`trace, obj
      ensures var changes := Changes(old(obj.AsRow()));
        && raised == (if changes == {} then None else saveFailure)
        && obj.AsRow() == (if changes != {} && saveFailure.None? then SaveFields(old(obj.AsRow()), changes + {UpdatedAt}) else old(obj.AsRow()))
        && trace == old(trace) + (if changes != {} && saveFailure.None? then [Saved(obj.pk, changes + {UpdatedAt})] else [])
    {
      var changes := Changes(obj.AsRow());
      raised := None;
      if changes != {} {
        raised := obj.Save(changes + {UpdatedAt}, saveFailure);
        if raised.None? {
          trace := trace + [Saved(obj.pk, changes + {UpdatedAt})];
        }
      }
    }

    /**
     * The try block of a run: the callback processes the object and, unless
     * it returned False, the changes are saved. Returns the error the block
     * ends with.
     */
    method TryProcess(obj: WorkObject, cb: Callback, saveFailure: Option<Failure>) returns (failure: Option<Failure>)
      modifies this`trace, obj
      ensures failure == FailureOf(old(obj.AsRow()), cb, saveFailure)
      ensures var r := old(obj.AsRow());
        && obj.AsRow() == (if SavesObject(r, cb, saveFailure) then SaveFields(Processed(r, cb), Changes(Processed(r, cb)) + {UpdatedAt}) else Processed(r, cb))
        && trace == old(trace) + (if SavesObject(r, cb, saveFailure) then [Saved(r.pk, Changes(Processed(r, cb)) + {UpdatedAt})] else [])
    {
      obj.fields := obj.fields + cb.writes;
      match cb.result {
        case ReturnedFalse =>
          failure := None;
        case ReturnedOther =>
          failure := SaveObject(obj, saveFailure);
        case Raised(f) =>
          failure := Some(f);
      }
    }

    /**
     * The except clauses and the clean-up of a run, once attempt number
     * `attempt` of the object `pk` has ended with `failure`: a retry keeps the
     * counter `key` (and sets the countdown for an unexpected error), giving
     * up calls the exception handler, and every run that does not retry
     * deletes the counter.
     */
    method Settle(key: string, attempt: int, pk: int, failure: Option<Failure>)
      requires Valid()
      modifies this, store
      ensures Valid()
      ensures instance == old(instance) && currentInstance == old(currentInstance)
      ensures var v := Judge(attempt, cfg.maxAttempts, cfg.retryDelay, failure);
        && store.values == (if KeepsCounter(v) then old(store.values) else old(store.values) - {key})
        && store.ttl == (if KeepsCounter(v) then old(store.ttl) else old(store.ttl) - {key})
        && countdown == (if v.RetryAfter? then Some(v.countdown) else old(countdown))
        && trace == old(trace) + (if v.GiveUp? then [HandledException(pk, v.failure)] else [])
    {
      match failure {
        case None =>
        case Some(ProcessingError(retry)) =>
          if attempt < cfg.maxAttempts && retry {
            return;
          }
          trace := trace + [HandledException(pk, failure.value)];
        case Some(Unexpected) =>
          if attempt < cfg.maxAttempts {
            countdown := Some(attempt * cfg.retryDelay);
            return;
          }
          trace := trace + [HandledException(pk, Unexpected)];
      }
      var removed := store.Delete(key);
    }

    /** One run: `obj` is the stalest object the backlog query finds, or null. */
    method Run(obj: WorkObject?, cb: Callback, saveFailure: Option<Failure>)
      requires Valid() && instance.Some?
      modifies this, store, obj
      ensures Valid()
      ensures instance == old(instance) && currentInstance == old(currentInstance)
      ensures (State(), if obj == null then None else Some(obj.AsRow())) ==
              RunSpec(cfg, instance.value, old(State()), if obj == null then None else Some(old(obj.AsRow())), cb, saveFailure)
    {
      ghost var st := State();
      countdown := None;
      if obj == null {
        return;
      }
      ghost var r := obj.AsRow();
      var key := AttemptKey(cfg.name, instance.value);
      var attempt := store.Incr(key);
      var expired := store.Expire(key, cfg.lockExpire);
      var failure := TryProcess(obj, cb, saveFailure);
      Settle(key, attempt, obj.pk, failure);
      assert attempt == Attempt(cfg, instance.value, st.counters);
      assert failure == FailureOf(r, cb, saveFailure);
    }

    /**
     * A call with the instance's primary key: when the instance no longer
     * exists the call records that and returns without running; otherwise
     * it records the instance as current and runs.
     */
    method Call(instancePk: int, instances: set<int>, obj: WorkObject?, cb: Callback, saveFailure: Option<Failure>)
      requires Valid()
      modifies this, store, obj
      ensures Valid()
      ensures instancePk !in instances ==>
                instance == None && currentInstance == old(currentInstance) && State() == old(State()) &&
                (obj != null ==> obj.AsRow() == old(obj.AsRow()))
      ensures instancePk in instances ==>
                instance == Some(instancePk) && currentInstance == Some(instancePk) &&
                (State(), if obj == null then None else Some(obj.AsRow())) ==
                RunSpec(cfg, instancePk, old(State()), if obj == null then None else Some(old(obj.AsRow())), cb, saveFailure)
    {
      if instancePk !in instances {
        instance := None;
        return;
      }
      instance := Some(instancePk);
      currentInstance := Some(instancePk);
      Run(obj, cb, saveFailure);
    }

    /** After the lock is released: resubmit while there is a current instance and a backlog. */
    method AfterLockReleased(instancePk: int, backlog: bool) returns (resubmit: Option<Submission>)
      ensures resubmit.Some? <==> currentInstance.Some? && backlog
      ensures resubmit.Some? ==> resubmit.value == Submission(instancePk, countdown)
    {
      if currentInstance.Some? && backlog {
        resubmit := Some(Submission(instancePk, countdown));
      } else {
        resubmit := None;
      }
    }
  }

  /**
   * Two runs on one object whose processing fails unexpectedly both times,
   * with two attempts allowed: the first asks to be resubmitted after one
   * retry delay, the second hands the error over, resets the attempt
   * counter and resubmits without a countdown.
   */
  method TwoUnexpectedFailures() returns (first: Option<Submission>, second: Option<Submission>, counterReset: bool)
    ensures first == Some(Submission(7, Some(DefaultRetryDelay)))
    ensures second == Some(Submission(7, None))
    ensures counterReset
  {
    var store := new KeyValueStore();
    var task := new ObjectProcessorTask(Config("process", 2, DefaultRetryDelay, 60), store);
    var obj := new WorkObject(1, map["status" := 0], map["status" := 0]);
    var failing := Callback(map["status" := 1], Raised(Unexpected));
    task.Call(7, {7}, obj, failing, None);
    first := task.AfterLockReleased(7, true);
    task.Call(7, {7}, obj, failing, None);
    second := task.AfterLockReleased(7, true);
    counterReset := store.Count(AttemptKey("process", 7)) == 0;
    assert task.trace == [HandledException(1, Unexpected)];
  }
}
