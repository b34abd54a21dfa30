/**
 * What decides how a run of the encryption switch ends: writes on their way when it begins, and turning the switch
 * back.
 */
module EncryptionRuns {
  import opened Text
  import Paths
  import opened Encryption

  /** The job alone takes one state to another. */
  ghost predicate Leads(a: State, b: State) {
    exists events :: Run(a, events, b) && forall e | e in events :: ByJob(e)
  }

  lemma LeadsNowhere(a: State)
    ensures Leads(a, a)
  {
    assert Run(a, [], a);
  }

  lemma LeadsOn(a: State, b: State, e: Event)
    requires Leads(a, b) && Enabled(b, e) && ByJob(e)
    ensures Leads(a, Step(b, e))
  {
    var events :| Run(a, events, b) && forall x | x in events :: ByJob(x);
    RunOn(a, events, b, e);
    assert forall x | x in events + [e] :: ByJob(x);
  }

  /** The job after looking at an object: passed over when it is the wanted way, to be rewritten otherwise. */
  function Looked(j: Job, o: Object): Job
    requires j.phase.Picking? && j.phase.todo != []
  {
    var todo, last := j.phase.todo[1..], j.phase.last;
    if o.encrypted == j.on then j.(seen := j.seen + 1, skipped := j.skipped + 1, phase := Picking(todo, last))
    else j.(seen := j.seen + 1, phase := Rewriting(j.phase.todo[0], o.tag, o.value.meta, todo, last))
  }

  lemma LooksOn(start: State, s: State)
    requires Leads(start, s) && s.job.phase.Picking? && s.job.phase.todo != []
    requires !Paths.Marker(s.job.phase.todo[0]) && s.job.phase.todo[0] in s.store
    ensures Leads(start, s.(job := Looked(s.job, s.store[s.job.phase.todo[0]])))
  {
    LeadsOn(start, s, Look);
    if s.store[s.job.phase.todo[0]].encrypted { LeadsOn(start, Step(s, Look), LookWithKey); }
  }

  /** A marker is passed over. */
  lemma PassesOn(start: State, s: State)
    requires Leads(start, s) && s.job.phase.Picking? && s.job.phase.todo != [] && Paths.Marker(s.job.phase.todo[0])
    ensures Leads(start, s.(job := s.job.(phase := Picking(s.job.phase.todo[1..], s.job.phase.last))))
  {
    LeadsOn(start, s, Look);
  }

  /** At the end of a page the next one is asked for, if there is one. */
  lemma EndsPage(start: State, s: State)
    requires Leads(start, s) && s.job.phase.Picking? && s.job.phase.todo == []
    ensures Leads(start, s.(job := s.job.(phase := if s.job.phase.last.Some? then Paging(s.job.phase.last) else Done)))
  {
    LeadsOn(start, s, Look);
  }

  /** The state after an object was read and its copy stored with nobody in between. */
  function Rewritten(s: State): State
    requires s.job.phase.Rewriting? && s.job.phase.key in s.store
  {
    var j, o := s.job, s.store[s.job.phase.key];
    Stored(s, j.phase.key, Value(o.value.content, j.phase.meta), j.on).(
      job := j.(changed := j.changed + 1, phase := Checking(j.phase.todo, j.phase.last)))
  }

  lemma RewritesOn(start: State, s: State)
    requires Leads(start, s) && s.job.phase.Rewriting?
    requires s.job.phase.key in s.store && s.store[s.job.phase.key].tag == s.job.phase.tag
    ensures Leads(start, Rewritten(s))
  {
    LeadsOn(start, s, Fetch);
    LeadsOn(start, Step(s, Fetch), Keep);
  }

  // ---- a write decided before the switch ----

  /** The job at the keys of its last page, the setting as wanted and nothing failed so far. */
  ghost predicate Onward(s: State) {
    && s.job.phase.Picking? && s.job.phase.last.None? && s.setting == s.job.on && s.job.failed == 0
    && forall k | k in s.job.phase.todo :: k in s.store
  }

  /** Nothing but the store and the job has changed, and no key came or went. */
  predicate Same(a: State, b: State) {
    a.store.Keys == b.store.Keys && a.flying == b.flying && a.setting == b.setting && a.truth == b.truth
        && a.job.on == b.job.on
  }

  /** The next key done by the job alone. */
  lemma KeyDone(start: State, s: State) returns (next: State)
    requires Leads(start, s) && Onward(s) && s.job.phase.todo != []
    ensures Leads(start, next) && Onward(next) && Same(s, next) && next.job.phase.todo == s.job.phase.todo[1..]
  {
    var k := s.job.phase.todo[0];
    if Paths.Marker(k) {
      LeadsOn(start, s, Look);
      next := Step(s, Look);
    } else {
      LooksOn(start, s);
      next := s.(job := Looked(s.job, s.store[k]));
      if next.job.phase.Rewriting? { next := CopyDone(start, next); }
    }
  }

  lemma CopyDone(start: State, s: State) returns (next: State)
    requires Leads(start, s) && s.job.phase.Rewriting? && s.setting == s.job.on
    requires s.job.phase.key in s.store && s.store[s.job.phase.key].tag == s.job.phase.tag
    ensures Leads(start, next) && Same(s, next) && next.job.failed == s.job.failed
    ensures next.job.phase == Picking(s.job.phase.todo, s.job.phase.last)
  {
    RewritesOn(start, s);
    var kept := Rewritten(s);
    LeadsOn(start, kept, Check);
    next := Step(kept, Check);
    assert kept.store.Keys == s.store.Keys;
  }

  lemma {:induction false} AloneFinishes(start: State, s: State) returns (end: State)
    requires Leads(start, s) && Onward(s)
    ensures Leads(start, end) && Same(s, end) && end.job.phase.Done? && end.job.failed == 0
    decreases |s.job.phase.todo|
  {
    if s.job.phase.todo == [] {
      LeadsOn(start, s, Look);
      end := Step(s, Look);
    } else {
      var next := KeyDone(start, s);
      end := AloneFinishes(start, next);
    }
  }

  lemma {:induction false} AllKeys(keys: set<Key>) returns (list: seq<Key>)
    ensures forall k :: k in list <==> k in keys
  {
    if keys == {} {
      list := [];
    } else {
      var k :| k in keys;
      var rest := AllKeys(keys - {k});
      list := [k] + rest;
    }
  }

  /** A job just begun can finish with nobody else doing anything. */
  lemma BegunFinishes(start: State) returns (end: State)
    requires Begun(start)
    ensures Leads(start, end) && Same(start, end) && end.job.phase.Done? && end.job.failed == 0
  {
    var keys := AllKeys(start.store.Keys);
    LeadsNowhere(start);
    LeadsOn(start, start, ListPage(keys, None));
    end := AloneFinishes(start, Step(start, ListPage(keys, None)));
  }

  /** A run that finishes well may go on with writes. */
  lemma FinishOn(start: State, events: seq<Event>, s: State, e: Event)
    requires FinishesWell(start, events, s) && Enabled(s, e) && (e.Begin? || e.Land?)
    ensures FinishesWell(start, events + [e], Step(s, e))
  {
    RunOn(start, events, s, e);
    assert forall x | x in events + [e] :: !x.Flip?;
  }

  /**
   * What is needed for an operation on its way to take effect: a copy needs its source, and users may write that too.
   */
  lemma Readied(start: State, events: seq<Event>, s: State, i: nat) returns (events': seq<Event>, ready: State)
    requires FinishesWell(start, events, s) && i < |s.flying| && s.store.Keys == s.truth.Keys
    ensures FinishesWell(start, events', ready) && i < |ready.flying| && ready.flying[i] == s.flying[i]
    ensures ready.flying[i].Copy? ==> ready.flying[i].src in ready.store && ready.flying[i].src in ready.truth
  {
    events', ready := events, s;
    if s.flying[i].Copy? && s.flying[i].src !in s.store.Keys {
      var src := s.flying[i].src;
      var put := Put(src, Value("", ""), if Paths.Marker(src) then false else s.setting);
      FinishOn(start, events, s, Begin(put));
      var begun := Step(s, Begin(put));
      FinishOn(start, events + [Begin(put)], begun, Land(|s.flying|));
      events', ready := events + [Begin(put)] + [Land(|s.flying|)], Step(begun, Land(|s.flying|));
    }
  }

  /**
   * A write on its way to a file that was decided the other way can land after the job, which then leaves that file
   * behind.
   */
  lemma LateWriteStays(start: State, i: nat) returns (events: seq<Event>, end: State)
    requires Begun(start) && start.store.Keys == start.truth.Keys && i < |start.flying|
    requires !Paths.Marker(Target(start.flying[i])) && start.flying[i].encrypted != start.setting
    ensures FinishesWell(start, events, end) && !AllAre(end.store, start.setting)
    ensures var k := Target(start.flying[i]); k in end.store && end.store[k].encrypted != start.setting
  {
    var done := BegunFinishes(start);
    events :| Run(start, events, done) && forall e | e in events :: ByJob(e);
    assert FinishesWell(start, events, done);
    var ready;
    events, ready := Readied(start, events, done, i);
    FinishOn(start, events, ready, Land(i));
    events, end := events + [Land(i)], Step(ready, Land(i));
    var k := Target(start.flying[i]);
    assert k in end.store && end.store[k].encrypted == start.flying[i].encrypted;
  }

  /**
   * Every run that finishes well leaves every file the wanted way exactly when no write on its way to a file had been
   * decided the other way when the job began.
   */
  lemma SwitchedExactly(start: State)
    requires Begun(start) && start.store.Keys == start.truth.Keys
    ensures (forall events, end | FinishesWell(start, events, end) :: AllAre(end.store, start.setting))
       <==> Decided(start.flying, start.setting)
  {
    if Decided(start.flying, start.setting) {
      forall events, end | FinishesWell(start, events, end)
        ensures AllAre(end.store, start.setting)
      {
        FinishedMeansSwitched(start, events, end);
      }
    } else {
      var i :| 0 <= i < |start.flying| && !Paths.Marker(Target(start.flying[i]))
          && start.flying[i].encrypted != start.setting;
      var events, end := LateWriteStays(start, i);
    }
  }

  // ---- turning the switch back ----

  /** A key came to a rewrite, a refused copy or an error: the events after which the job looks at the switch. */
  predicate Outcome(s: State, e: Event) {
    match e
    case Keep => true
    case Fetch => s.job.phase.Rewriting? && FetchStep(s).phase.Checking?
    case LookWithKey => s.job.phase.NeedsKey? && LookWithKeyStep(s).phase.Checking?
    case _ => false
  }

  /** Some hundredth key of the run has such an outcome. */
  ghost predicate Hundredth(s: State, events: seq<Event>)
    decreases |events|
  {
    && events != [] && Enabled(s, events[0])
    && ((Outcome(s, events[0]) && s.job.seen % 100 == 0) || Hundredth(Step(s, events[0]), events[1..]))
  }

  /** The job is about to look at the switch after a hundredth key. */
  predicate AtHundredth(j: Job) {
    j.phase.Checking? && j.seen % 100 == 0
  }

  lemma StopStep(s: State, e: Event)
    requires Enabled(s, e) && !e.Flip? && s.setting != s.job.on && (s.job.stopped ==> s.job.phase.Done?)
    ensures var t := Step(s, e);
            && t.setting != t.job.on && (t.job.stopped ==> t.job.phase.Done?)
            && (t.job.stopped || AtHundredth(t.job)
                <==> s.job.stopped || AtHundredth(s.job) || (Outcome(s, e) && s.job.seen % 100 == 0))
  {
  }

  /**
   * From the moment the switch is turned back, a run that finishes is stopped exactly when some hundredth key from
   * then on is rewritten, refused or failed (or the job is just about to look): keys gone or already as wanted,
   * markers too, are passed over without a look at the switch, so a run over such keys alone is not stopped.
   */
  lemma {:induction false} StopsExactly(s: State, events: seq<Event>, end: State)
    requires Run(s, events, end) && (forall e | e in events :: !e.Flip?) && s.setting != s.job.on
    requires (s.job.stopped ==> s.job.phase.Done?) && end.job.phase.Done?
    ensures end.job.stopped <==> s.job.stopped || AtHundredth(s.job) || Hundredth(s, events)
    decreases |events|
  {
    if events != [] {
      StopStep(s, events[0]);
      StopsExactly(Step(s, events[0]), events[1..], end);
    }
  }
}
