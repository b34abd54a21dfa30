/**
 * Switching stored files to encrypted or back (files_crypto.switch) while people go on reading and writing
 * (file_store.py): a state machine of writers and one background job over one object store. A write decides how it is
 * stored when it begins and takes effect when it lands; every stored object gets a tag never used before. The job's
 * copy of an object onto itself is two steps, reading the source under its condition and storing the copy.
 */
module Encryption {
  import opened Text
  import Paths

  type Key = Paths.Key

  /** What a user stores: the file, and its content type and metadata. */
  datatype Value = Value(content: string, meta: string)

  datatype Object = Object(value: Value, encrypted: bool, tag: nat)

  type Store = map<Key, Object>

  /** A request on its way to the storage. */
  datatype Op = Put(key: Key, value: Value, encrypted: bool) | Copy(src: Key, dst: Key, encrypted: bool)

  function Target(op: Op): Key {
    match op case Put(k, _, _) => k case Copy(_, dst, _) => dst
  }

  /**
   * Where the job is: about to list, about to take the next key, to look at it with its key, to read the source of the
   * copy, to store the copy, to see whether the switch was turned, finished. `last` is the token of the next page.
   */
  datatype Phase =
    | Paging(after: Option<Key>)
    | Picking(todo: seq<Key>, last: Option<Key>)
    | NeedsKey(key: Key, todo: seq<Key>, last: Option<Key>)
    | Rewriting(key: Key, tag: nat, meta: string, todo: seq<Key>, last: Option<Key>)
    | Storing(key: Key, value: Value, todo: seq<Key>, last: Option<Key>)
    | Checking(todo: seq<Key>, last: Option<Key>)
    | Done

  datatype Job = Job(on: bool, phase: Phase, changed: nat, skipped: nat, failed: nat, seen: nat, stopped: bool)

  /** `truth` is what the users' own writes, copies and removals left; the job never touches it. */
  datatype State = State(store: Store, nextTag: nat, setting: bool, flying: seq<Op>, truth: map<Key, Value>, job: Job)

  datatype Event =
    | Begin(op: Op) | Land(i: nat) | Remove(gone: set<Key>) | Flip(on: bool)
    | ListPage(keys: seq<Key>, last: Option<Key>) | Look | LookWithKey | Fetch | Keep | Check

  // ---- reading ----

  datatype Answer = Missing | WrongKind | Found(value: Value)

  /** One request, with or without the key: the storage refuses the wrong kind. */
  function Ask(store: Store, k: Key, withKey: bool): Answer {
    if k !in store then Missing else if store[k].encrypted != withKey then WrongKind else Found(store[k].value)
  }

  /** file_store._either for a read: the expected way, then the other way; the second try meets `later`. */
  function Either(store: Store, later: Store, k: Key, setting: bool): Answer {
    var first := Ask(store, k, setting);
    if first == WrongKind then Ask(later, k, !setting) else first
  }

  // ---- steps ----

  /** An object stored under a tag not used before. */
  function Stored(s: State, k: Key, value: Value, encrypted: bool): State {
    s.(store := s.store[k := Object(value, encrypted, s.nextTag)], nextTag := s.nextTag + 1)
  }

  function Landed(s: State, op: Op): State {
    match op
    case Put(k, value, encrypted) => Stored(s, k, value, encrypted).(truth := s.truth[k := value])
    case Copy(src, dst, encrypted) =>
      if src in s.store && src in s.truth
          then Stored(s, dst, s.store[src].value, encrypted).(truth := s.truth[dst := s.truth[src]])
      else s
  }

  /** list_objects_v2: keys after the token, all of them up to the next token when there is one. */
  ghost predicate Lists(store: Store, after: Option<Key>, keys: seq<Key>, last: Option<Key>) {
    && (forall k | k in keys :: k in store)
    && (forall k | k in store && Follows(after, k) && (last.None? || !Follows(last, k)) :: k in keys)
  }

  predicate Follows(after: Option<Key>, k: Key) {
    after.None? || Paths.KeyLess(after.value, k)
  }

  /** file_store.mkdir writes a folder's marker plain, whatever the setting. */
  predicate MarkerWrite(op: Op) {
    op.Put? && Paths.Marker(op.key) && !op.encrypted
  }

  ghost predicate Enabled(s: State, e: Event) {
    match e
    case Begin(op) => op.encrypted == s.setting || MarkerWrite(op)
    case Land(i) => i < |s.flying|
    case Remove(_) => true
    case Flip(_) => true
    case ListPage(keys, last) => s.job.phase.Paging? && Lists(s.store, s.job.phase.after, keys, last)
    case Look => s.job.phase.Picking?
    case LookWithKey => s.job.phase.NeedsKey?
    case Fetch => s.job.phase.Rewriting?
    case Keep => s.job.phase.Storing?
    case Check => s.job.phase.Checking?
  }

  /** Gone, or already the way it should be: on to the next key, past the look at the switch. */
  function Skip(j: Job, todo: seq<Key>, last: Option<Key>): Job {
    j.(skipped := j.skipped + 1, phase := Picking(todo, last))
  }

  function Fail(j: Job, todo: seq<Key>, last: Option<Key>): Job {
    j.(failed := j.failed + 1, phase := Checking(todo, last))
  }

  /**
   * The next key of the page: its marker passed over, the page ended, or the object looked at without its key
   * (is_plain).
   */
  function LookStep(s: State): Job
    requires s.job.phase.Picking?
  {
    var j, todo, last := s.job, s.job.phase.todo, s.job.phase.last;
    if todo == [] then j.(phase := if last.Some? then Paging(last) else Done)
    else
      var k, rest := todo[0], todo[1..];
      if Paths.Marker(k) then j.(phase := Picking(rest, last))
      else
        var seen := j.(seen := j.seen + 1);
        if k !in s.store then Skip(seen, rest, last)
        else if s.store[k].encrypted then seen.(phase := NeedsKey(k, rest, last))
        else if !j.on then Skip(seen, rest, last)
        else seen.(phase := Rewriting(k, s.store[k].tag, s.store[k].value.meta, rest, last))
  }

  /** The second look, with the key: gone or plain by now is an error. */
  function LookWithKeyStep(s: State): Job
    requires s.job.phase.NeedsKey?
  {
    var j, k, todo, last := s.job, s.job.phase.key, s.job.phase.todo, s.job.phase.last;
    if k !in s.store || !s.store[k].encrypted then Fail(j, todo, last)
    else if j.on then Skip(j, todo, last)
    else j.(phase := Rewriting(k, s.store[k].tag, s.store[k].value.meta, todo, last))
  }

  /**
   * The source of the copy read, only if it still has the tag that was seen (If-Match; refused, it counts as skipped).
   * Content comes from the source, content type and metadata from what was seen.
   */
  function FetchStep(s: State): Job
    requires s.job.phase.Rewriting?
  {
    var j, k, todo, last := s.job, s.job.phase.key, s.job.phase.todo, s.job.phase.last;
    if k !in s.store then Fail(j, todo, last)
    else if s.store[k].tag != j.phase.tag then j.(skipped := j.skipped + 1, phase := Checking(todo, last))
    else j.(phase := Storing(k, Value(s.store[k].value.content, j.phase.meta), todo, last))
  }

  /** The copy stored, over whatever lies there by now. */
  function KeepStep(s: State): State
    requires s.job.phase.Storing?
  {
    var j := s.job;
    Stored(s, j.phase.key, j.phase.value, j.on).(job :=
        j.(changed := j.changed + 1, phase := Checking(j.phase.todo, j.phase.last)))
  }

  /** After a hundredth key that was rewritten, refused or failed: stop when the switch was turned the other way. */
  function CheckStep(s: State): Job
    requires s.job.phase.Checking?
  {
    var j := s.job;
    if j.seen % 100 == 0 && s.setting != j.on then j.(phase := Done, stopped := true)
    else j.(phase := Picking(j.phase.todo, j.phase.last))
  }

  function Step(s: State, e: Event): State
    requires Enabled(s, e)
  {
    match e
    case Begin(op) => s.(flying := s.flying + [op])
    case Land(i) => Landed(s, s.flying[i]).(flying := s.flying[..i] + s.flying[i + 1..])
    case Remove(gone) => s.(store := s.store - gone, truth := s.truth - gone)
    case Flip(on) => s.(setting := on)
    case ListPage(keys, last) => s.(job := s.job.(phase := Picking(keys, last)))
    case Look => s.(job := LookStep(s))
    case LookWithKey => s.(job := LookWithKeyStep(s))
    case Fetch => s.(job := FetchStep(s))
    case Keep => KeepStep(s)
    case Check => s.(job := CheckStep(s))
  }

  predicate ByJob(e: Event) {
    e.ListPage? || e.Look? || e.LookWithKey? || e.Fetch? || e.Keep? || e.Check?
  }

  ghost predicate Run(start: State, events: seq<Event>, end: State)
    decreases |events|
  {
    if events == [] then start == end
    else Enabled(start, events[0]) && Run(Step(start, events[0]), events[1..], end)
  }

  lemma {:induction false} RunOn(a: State, events: seq<Event>, b: State, e: Event)
    requires Run(a, events, b) && Enabled(b, e)
    ensures Run(a, events + [e], Step(b, e))
    decreases |events|
  {
    if events == [] {
      assert [e][1..] == [] && Run(Step(a, e), [], Step(b, e));
    } else {
      RunOn(Step(a, events[0]), events[1..], b, e);
      assert (events + [e])[1..] == events[1..] + [e];
    }
  }

  // ---- what users left is what is stored ----

  /** What an event of a user leaves at a key: nothing it did, Some(None) removed, Some(Some(v)) written. */
  function Landing(s: State, e: Event, k: Key): Option<Option<Value>> {
    match e
    case Land(i) =>
      if i >= |s.flying| || Target(s.flying[i]) != k then None
      else (match s.flying[i]
            case Put(_, value, _) => Some(Some(value))
            case Copy(src, _, _) => if src in s.store && src in s.truth then Some(Some(s.store[src].value)) else None)
    case Remove(gone) => if k in gone then Some(None) else None
    case _ => None
  }

  /** A user's event falls on the key whose copy is read and not yet stored. */
  predicate Crosses(s: State, e: Event) {
    s.job.phase.Storing? && Landing(s, e, s.job.phase.key).Some?
  }

  /** A run in which nobody crosses the job between the two steps of a copy. */
  ghost predicate Quiet(start: State, events: seq<Event>, end: State)
    decreases |events|
  {
    if events == [] then start == end
    else
      && Enabled(start, events[0]) && !Crosses(start, events[0])
      && Quiet(Step(start, events[0]), events[1..], end)
  }

  /** The store holds what the users left, under tags already used. */
  ghost predicate Faithful(s: State) {
    && s.store.Keys == s.truth.Keys
    && forall k | k in s.store :: s.store[k].value == s.truth[k] && s.store[k].tag < s.nextTag
  }

  /** What the job has seen of an object still holds of it while its tag does; what it has read is what is stored. */
  ghost predicate Holds(s: State) {
    match s.job.phase
    case Rewriting(k, tag, meta, _, _) => tag < s.nextTag
        && (k in s.store && s.store[k].tag == tag ==> s.store[k].value.meta == meta)
    case Storing(k, value, _, _) => k in s.store && s.store[k].value == value
    case _ => true
  }

  lemma LandHolds(s: State, i: nat)
    requires Faithful(s) && Holds(s) && i < |s.flying| && !Crosses(s, Land(i))
    ensures Faithful(Step(s, Land(i))) && Holds(Step(s, Land(i)))
  {
    var op := s.flying[i];
    assert s.job.phase.Storing? && op.Put? ==> op.key != s.job.phase.key;
  }

  lemma JobHolds(s: State, e: Event)
    requires Faithful(s) && Holds(s) && Enabled(s, e) && ByJob(e)
    ensures Faithful(Step(s, e)) && Holds(Step(s, e))
  {
  }

  /**
   * Every step but a crossing keeps the store true; the condition on the tag is what makes a copy carry its own
   * metadata.
   */
  lemma StepFaithful(s: State, e: Event)
    requires Faithful(s) && Holds(s) && Enabled(s, e) && !Crosses(s, e)
    ensures Faithful(Step(s, e)) && Holds(Step(s, e))
  {
    if ByJob(e) {
      JobHolds(s, e);
    } else if e.Land? {
      LandHolds(s, e.i);
    }
  }

  lemma {:induction false} QuietFaithful(start: State, events: seq<Event>, end: State)
    requires Faithful(start) && Holds(start) && Quiet(start, events, end)
    ensures Faithful(end) && Holds(end)
    decreases |events|
  {
    if events != [] {
      StepFaithful(start, events[0]);
      QuietFaithful(Step(start, events[0]), events[1..], end);
    }
  }

  /** No step of the job changes what any key reads as, when nobody crossed it. */
  lemma JobChangesNoContent(s: State, e: Event)
    requires Faithful(s) && Holds(s) && Enabled(s, e) && ByJob(e)
    ensures Step(s, e).store.Keys == s.store.Keys && forall k | k in s.store ::
            Step(s, e).store[k].value == s.store[k].value
  {
    StepFaithful(s, e);
    assert Step(s, e).truth == s.truth;
  }

  /**
   * What the job counts: an object rewritten as changed; one gone, already as wanted or saved again since it was looked
   * at as skipped; one that is gone or another kind by the second look, or gone before the copy, as failed.
   */
  lemma CountsExactly(s: State, e: Event)
    requires Enabled(s, e) && ByJob(e)
    ensures var j, now, store := s.job, Step(s, e).job, s.store;
            && now.changed == j.changed + (if e.Keep? then 1 else 0)
            && now.skipped == j.skipped + (match e
                 case Look => if j.phase.todo != [] && !Paths.Marker(j.phase.todo[0])
                     && (j.phase.todo[0] !in store || (!store[j.phase.todo[0]].encrypted && !j.on)) then 1 else 0
                 case LookWithKey => if j.phase.key in store && store[j.phase.key].encrypted && j.on then 1 else 0
                 case Fetch => if j.phase.key in store && store[j.phase.key].tag != j.phase.tag then 1 else 0
                 case _ => 0)
            && now.failed == j.failed + (match e
                 case LookWithKey => if j.phase.key !in store || !store[j.phase.key].encrypted then 1 else 0
                 case Fetch => if j.phase.key !in store then 1 else 0
                 case _ => 0)
  {
  }

  // ---- the window between reading and storing a copy ----

  /** Only users act. */
  predicate ByUsers(events: seq<Event>) {
    forall e | e in events :: !ByJob(e)
  }

  /** What the last of the users' events that falls on a key leaves there; None when none does. */
  ghost function LastLanding(s: State, events: seq<Event>, end: State, k: Key): Option<Option<Value>>
    requires Run(s, events, end)
    decreases |events|
  {
    if events == [] then None
    else
      var later := LastLanding(Step(s, events[0]), events[1..], end, k);
      if later.Some? then later else Landing(s, events[0], k)
  }

  function Left(s: State, k: Key): Option<Value> {
    if k in s.truth then Some(s.truth[k]) else None
  }

  lemma LandingLeft(s: State, e: Event, k: Key)
    requires Faithful(s) && Enabled(s, e) && !ByJob(e)
    ensures Faithful(Step(s, e)) && Step(s, e).job == s.job
    ensures Left(Step(s, e), k) == if Landing(s, e, k).Some? then Landing(s, e, k).value else Left(s, k)
  {
  }

  lemma {:induction false} LastLandingLeft(s: State, events: seq<Event>, end: State, k: Key)
    requires Faithful(s) && Run(s, events, end) && ByUsers(events)
    ensures Faithful(end) && end.job == s.job
    ensures Left(end, k) == if LastLanding(s, events, end, k).Some? then LastLanding(s, events, end, k).value
            else Left(s, k)
    decreases |events|
  {
    if events != [] {
      assert events[0] in events;
      LandingLeft(s, events[0], k);
      LastLandingLeft(Step(s, events[0]), events[1..], end, k);
    }
  }

  /**
   * Whatever users do between the two steps of a copy, storing it leaves the store true exactly when the last of their
   * events on that key, if any, wrote what the job had read: otherwise the older copy replaces it, or comes back.
   */
  lemma WindowExactly(s: State, events: seq<Event>, end: State)
    requires Faithful(s) && Holds(s) && s.job.phase.Storing? && Run(s, events, end) && ByUsers(events)
    ensures end.job.phase.Storing?
    ensures var last := LastLanding(s, events, end, s.job.phase.key);
            Faithful(Step(end, Keep)) <==> last.None? || last.value == Some(s.job.phase.value)
  {
    var k := s.job.phase.key;
    LastLandingLeft(s, events, end, k);
    assert Step(end, Keep).store[k].value == s.job.phase.value && Step(end, Keep).truth == end.truth;
    if Left(end, k) == Some(s.job.phase.value) {
      assert Step(end, Keep).store.Keys == end.store.Keys;
    } else if k in end.truth {
      assert end.truth[k] != s.job.phase.value;
    } else {
      assert k in Step(end, Keep).store.Keys && k !in end.truth.Keys;
    }
  }

  /** A save that lands there is lost: what is read afterwards is the older file. */
  lemma SaveLost(s: State, i: nat, setting: bool)
    requires Faithful(s) && Holds(s) && s.job.phase.Storing? && i < |s.flying|
    requires s.flying[i].Put? && s.flying[i].key == s.job.phase.key && s.flying[i].value != s.job.phase.value
    ensures var after := Step(Step(s, Land(i)), Keep);
            && after.truth[s.job.phase.key] == s.flying[i].value
            && Either(after.store, after.store, s.job.phase.key, setting) == Found(s.job.phase.value)
  {
  }

  // ---- reads ----

  /**
   * A read in the middle of anything: its two tries may meet different states, and between them users may write and
   * the job may work. It answers with what the users had left at its first try or at its second; it fails, although
   * the file is there, exactly when it was of the other kind at the first and of the kind tried first at the second.
   */
  lemma ReadsExactly(start: State, before: seq<Event>, mid: State, between: seq<Event>, end: State, k: Key,
                     setting: bool)
    requires Faithful(start) && Holds(start) && Quiet(start, before, mid) && Quiet(mid, between, end)
    ensures mid.store.Keys == mid.truth.Keys && end.store.Keys == end.truth.Keys
    ensures Either(mid.store, end.store, k, setting)
            == if k !in mid.store.Keys then Missing
               else if mid.store[k].encrypted == setting then Found(mid.truth[k])
               else if k !in end.store.Keys then Missing
               else if end.store[k].encrypted == setting then WrongKind
               else Found(end.truth[k])
  {
    QuietFaithful(start, before, mid);
    QuietFaithful(mid, between, end);
    assert k in mid.store <==> k in mid.store.Keys;
    assert k in end.store <==> k in end.store.Keys;
  }

  /** A user's own save can be what splits a read so: the file is there all the time and the read fails. */
  lemma SaveSplitsRead(s: State, i: nat, k: Key, setting: bool)
    requires k in s.store && s.store[k].encrypted != setting
    requires i < |s.flying| && s.flying[i].Put? && s.flying[i].key == k && s.flying[i].encrypted == setting
    ensures Either(s.store, Step(s, Land(i)).store, k, setting) == WrongKind
  {
  }

  // ---- a finished run leaves everything the wanted way ----

  /** Keys the job has still to come to. */
  ghost predicate Pending(p: Phase, k: Key) {
    match p
    case Paging(after) => Follows(after, k)
    case Picking(todo, last) => k in todo || (last.Some? && Follows(last, k))
    case NeedsKey(key, todo, last) => k == key || k in todo || (last.Some? && Follows(last, k))
    case Rewriting(key, _, _, todo, last) => k == key || k in todo || (last.Some? && Follows(last, k))
    case Storing(key, _, todo, last) => k == key || k in todo || (last.Some? && Follows(last, k))
    case Checking(todo, last) => k in todo || (last.Some? && Follows(last, k))
    case Done => false
  }

  /** Nothing on its way to a file was decided the other way. */
  predicate Decided(flying: seq<Op>, on: bool) {
    forall i | 0 <= i < |flying| :: Paths.Marker(Target(flying[i])) || flying[i].encrypted == on
  }

  ghost predicate Steady(s: State) {
    s.setting == s.job.on && !s.job.stopped && Decided(s.flying, s.job.on)
  }

  /** What is not the wanted way is still to come, unless something failed. */
  ghost predicate Covered(s: State) {
    s.job.failed == 0 ==> forall k | k in s.store && !Paths.Marker(k)
        && s.store[k].encrypted != s.job.on :: Pending(s.job.phase, k)
  }

  /** An object changed since it was looked at was written the wanted way. */
  ghost predicate Rewritable(s: State) {
    s.job.phase.Rewriting? && s.job.phase.key in s.store && s.store[s.job.phase.key].tag != s.job.phase.tag ==>
      s.store[s.job.phase.key].encrypted == s.job.on
  }

  ghost predicate TagsUsed(s: State) {
    && (forall k | k in s.store :: s.store[k].tag < s.nextTag)
    && (s.job.phase.Rewriting? ==> s.job.phase.tag < s.nextTag && !Paths.Marker(s.job.phase.key))
    && (s.job.phase.NeedsKey? ==> !Paths.Marker(s.job.phase.key))
  }

  ghost predicate Switching(s: State) {
    Steady(s) && Covered(s) && Rewritable(s) && TagsUsed(s)
  }

  lemma LandSwitching(s: State, i: nat)
    requires Switching(s) && i < |s.flying|
    ensures Switching(Step(s, Land(i)))
  {
    assert Paths.Marker(Target(s.flying[i])) || s.flying[i].encrypted == s.job.on;
  }

  lemma LookSwitching(s: State)
    requires Switching(s) && s.job.phase.Picking?
    ensures Switching(Step(s, Look))
  {
    var todo := s.job.phase.todo;
    if todo != [] {
      assert forall k | k in todo :: k == todo[0] || k in todo[1..];
    }
  }

  lemma PageSwitching(s: State, keys: seq<Key>, last: Option<Key>)
    requires Switching(s) && Enabled(s, ListPage(keys, last))
    ensures Switching(Step(s, ListPage(keys, last)))
  {
  }

  lemma BeginSwitching(s: State, op: Op)
    requires Switching(s) && Enabled(s, Begin(op))
    ensures Switching(Step(s, Begin(op)))
  {
  }

  lemma CopySwitching(s: State, e: Event)
    requires Switching(s) && Enabled(s, e) && (e.LookWithKey? || e.Fetch? || e.Keep? || e.Check?)
    ensures Switching(Step(s, e))
  {
  }

  /** Every step keeps it: what is stored the other way is still to come. */
  lemma StepSwitching(s: State, e: Event)
    requires Switching(s) && Enabled(s, e) && !e.Flip?
    ensures Switching(Step(s, e))
  {
    if e.Land? {
      LandSwitching(s, e.i);
    } else if e.Look? {
      LookSwitching(s);
    } else if e.ListPage? {
      PageSwitching(s, e.keys, e.last);
    } else if e.Begin? {
      BeginSwitching(s, e.op);
    } else if ByJob(e) {
      CopySwitching(s, e);
    }
  }

  lemma {:induction false} RunSwitching(start: State, events: seq<Event>, end: State)
    requires Switching(start) && Run(start, events, end) && forall e | e in events :: !e.Flip?
    ensures Switching(end)
    decreases |events|
  {
    if events != [] {
      StepSwitching(start, events[0]);
      RunSwitching(Step(start, events[0]), events[1..], end);
    }
  }

  /** A job just begun: nothing listed yet. */
  ghost predicate Begun(s: State) {
    s.job == Job(s.setting, Paging(None), 0, 0, 0, 0, false) && forall k | k in s.store :: s.store[k].tag < s.nextTag
  }

  /** The job has finished, nothing failed, and the setting stayed put. */
  ghost predicate FinishesWell(start: State, events: seq<Event>, end: State) {
    Run(start, events, end) && (forall e | e in events :: !e.Flip?) && end.job.phase.Done? && end.job.failed == 0
  }

  ghost predicate AllAre(store: Store, on: bool) {
    forall k | k in store && !Paths.Marker(k) :: store[k].encrypted == on
  }

  /**
   * When the job finishes well and nothing on its way had been decided before the switch, every object but the
   * markers is stored the wanted way, whatever was written, copied or removed meanwhile.
   */
  lemma FinishedMeansSwitched(start: State, events: seq<Event>, end: State)
    requires Begun(start) && Decided(start.flying, start.setting) && FinishesWell(start, events, end)
    ensures !end.job.stopped && AllAre(end.store, start.setting)
  {
    RunSwitching(start, events, end);
    RunKeepsOn(start, events, end);
  }

  lemma {:induction false} RunKeepsOn(start: State, events: seq<Event>, end: State)
    requires Run(start, events, end)
    ensures end.job.on == start.job.on
    decreases |events|
  {
    if events != [] { RunKeepsOn(Step(start, events[0]), events[1..], end); }
  }
}
