/**
 * The loop of files_crypto.switch as it is written, with nobody else at the store: page by page, key by key, rewriting
 * objects in place and counting. What it does is a run of the state machine, so what holds of every run holds of it.
 */
module EncryptionSwitch {
  import opened Text
  import Paths
  import opened Encryption
  import opened EncryptionRuns

  /** One answer of list_objects_v2: keys, and the token of the next page when there is one. */
  datatype Page = Page(keys: seq<Key>, last: Option<Key>)

  /** The storage's answers from a token on: the last page and only it has no token. */
  ghost predicate Answers(store: Store, after: Option<Key>, pages: seq<Page>)
    decreases |pages|
  {
    && pages != [] && Lists(store, after, pages[0].keys, pages[0].last)
    && (pages[0].last.Some? <==> |pages| > 1)
    && (pages[0].last.Some? ==> Answers(store, pages[0].last, pages[1..]))
  }

  lemma SameKeysList(was: Store, now: Store, after: Option<Key>, page: Page)
    requires was.Keys == now.Keys && Lists(was, after, page.keys, page.last)
    ensures Lists(now, after, page.keys, page.last) && forall k | k in page.keys :: k in now
  {
    assert forall k :: k in was <==> k in was.Keys;
    assert forall k :: k in now <==> k in now.Keys;
  }

  function Values(store: Store): map<Key, Value> {
    map k | k in store :: store[k].value
  }

  lemma RewriteSame(was: Store, now: Store, k: Key)
    requires k in was && k in now && now == was[k := now[k]] && now[k].value == was[k].value
    ensures Values(now) == Values(was)
  {
  }

  /** The objects stored another way than they were. */
  function Turned(was: Store, now: Store): set<Key> {
    set k | k in was && k in now && was[k].encrypted != now[k].encrypted
  }

  /** Values as they were, and nothing turned the wrong way. */
  ghost predicate Kept(was: Store, now: Store, on: bool) {
    && was.Keys == now.Keys
    && forall k | k in now :: now[k].value == was[k].value
        && (now[k].encrypted == on || now[k].encrypted == was[k].encrypted)
  }

  lemma TurnsOne(was: Store, now: Store, next: Store, k: Key, on: bool)
    requires Kept(was, now, on) && k in now && now[k].encrypted != on
    requires next.Keys == now.Keys && next[k].encrypted == on && next[k].value == now[k].value
    requires forall l | l in now && l != k :: l in next && next[l] == now[l]
    ensures Kept(was, next, on) && |Turned(was, next)| == |Turned(was, now)| + 1
  {
    assert k in was.Keys && k in next.Keys;
    assert k !in Turned(was, now);
    assert Turned(was, next) == Turned(was, now) + {k};
  }

  // ---- which keys are counted, and where the switch is looked at ----

  /** A key counted, unless it is a marker. */
  function FileOf(k: Key): seq<Key> {
    if Paths.Marker(k) then [] else [k]
  }

  /** The keys of a list that are no markers. */
  function Files(keys: seq<Key>): seq<Key> {
    if keys == [] then [] else FileOf(keys[0]) + Files(keys[1..])
  }

  function AllFiles(pages: seq<Page>): seq<Key> {
    if pages == [] then [] else Files(pages[0].keys) + AllFiles(pages[1..])
  }

  /** The n-th file counted, a hundredth one, has to be rewritten: it was not as wanted, and was not listed before. */
  predicate Rewrites(was: Store, files: seq<Key>, n: nat, on: bool) {
    n < |files| && (n + 1) % 100 == 0 && files[n] in was && was[files[n]].encrypted != on && files[n] !in files[..n]
  }

  /** Where the run has come to: the files counted are as wanted, the others as they were. */
  ghost predicate Come(was: Store, now: Store, done: seq<Key>, on: bool) {
    && was.Keys == now.Keys
    && (forall k | k in now && k in done :: now[k].encrypted == on)
    && (forall k | k in now && k !in done :: now[k] == was[k])
  }

  /** Nothing so far was a reason to stop. */
  ghost predicate NoReason(was: Store, done: seq<Key>, on: bool, setting: bool) {
    forall n | 0 <= n < |done| :: !(setting != on && Rewrites(was, done, n, on))
  }

  /** There is a reason to stop among the first n files. */
  ghost predicate Reason(was: Store, files: seq<Key>, on: bool, setting: bool) {
    setting != on && exists n: nat :: Rewrites(was, files, n, on)
  }

  lemma OneCome(was: Store, now: Store, next: Store, done: seq<Key>, k: Key, on: bool)
    requires Come(was, now, done, on) && next.Keys == now.Keys && k in next && next[k].encrypted == on
    requires forall l | l in now && l != k :: next[l] == now[l]
    ensures Come(was, next, done + [k], on)
  {
    assert k in was.Keys;
  }

  lemma RewritesHere(was: Store, now: Store, done: seq<Key>, k: Key, on: bool)
    requires Come(was, now, done, on) && k in now
    ensures Rewrites(was, done + [k], |done|, on) <==> (|done| + 1) % 100 == 0 && now[k].encrypted != on
  {
    assert (done + [k])[..|done|] == done && k in was.Keys;
  }

  lemma NoReasonMore(was: Store, done: seq<Key>, k: Key, on: bool, setting: bool)
    requires NoReason(was, done, on, setting) && !(setting != on && Rewrites(was, done + [k], |done|, on))
    ensures NoReason(was, done + [k], on, setting)
  {
    forall n | 0 <= n < |done + [k]|
      ensures !(setting != on && Rewrites(was, done + [k], n, on))
    {
      if n < |done| {
        assert (done + [k])[n] == done[n] && (done + [k])[..n] == done[..n];
        assert !(setting != on && Rewrites(was, done, n, on));
      }
    }
  }

  /** A reason among the first files is one among all of them. */
  lemma ReasonStays(was: Store, done: seq<Key>, files: seq<Key>, n: nat, on: bool)
    requires done <= files && Rewrites(was, done, n, on)
    ensures Rewrites(was, files, n, on)
  {
    assert files[..n] == done[..n];
  }

  // ---- the loop ----

  /** The counters the run reports. */
  datatype Counts = Counts(changed: nat, skipped: nat, failed: nat, seen: nat)

  predicate Counted(j: Job, c: Counts) {
    j.changed == c.changed && j.skipped == c.skipped && j.failed == c.failed && j.seen == c.seen
  }

  class Switcher {
    var store: Store
    var nextTag: nat
    var setting: bool

    /** The state of the machine in which the job stands at `job` over this store. */
    ghost function At(job: Job): State
      reads this
    {
      State(store, nextTag, setting, [], Values(store), job)
    }

    /** files_crypto.is_plain: the second out-parameter is the head, None when the object is gone. */
    method IsPlain(k: Key) returns (plain: bool, head: Option<(nat, string)>)
      ensures plain == !(k in store && store[k].encrypted)
      ensures head == if k in store then Some((store[k].tag, store[k].value.meta)) else None
    {
      if k !in store {
        return true, None;
      }
      return !store[k].encrypted, Some((store[k].tag, store[k].value.meta));
    }

    /** copy_object of a key onto itself with CopySourceIfMatch and the metadata that was seen. */
    method CopyOnto(k: Key, head: (nat, string), on: bool) returns (ok: bool)
      modifies `store, `nextTag
      ensures ok == (k in old(store) && old(store)[k].tag == head.0)
      ensures !ok ==> store == old(store) && nextTag == old(nextTag)
      ensures ok ==> store == old(store)[k := Object(Value(old(store)[k].value.content, head.1), on, old(nextTag))]
                     && nextTag == old(nextTag) + 1
    {
      if k !in store || store[k].tag != head.0 {
        return false;
      }
      store := store[k := Object(Value(store[k].value.content, head.1), on, nextTag)];
      nextTag := nextTag + 1;
      return true;
    }

    /** What is done for one key that is no marker: rewritten exactly when it is not stored the wanted way. */
    method Handle(k: Key, on: bool, ghost start: State, ghost job: Job) returns (rewritten: bool, ghost next: Job)
      requires job.on == on && job.phase.Picking? && job.phase.todo != [] && k == job.phase.todo[0] && !Paths.Marker(k)
               && k in store
      requires Leads(start, At(job))
      modifies `store, `nextTag
      ensures rewritten <==> old(store)[k].encrypted != on
      ensures !rewritten ==> store == old(store) && nextTag == old(nextTag)
      ensures store.Keys == old(store).Keys && store[k].encrypted == on && store[k].value == old(store)[k].value
      ensures forall l | l in old(store) && l != k :: store[l] == old(store)[l]
      ensures var todo, last := job.phase.todo[1..], job.phase.last;
              next == if rewritten
                  then job.(seen := job.seen + 1, changed := job.changed + 1, phase := Checking(todo, last))
                      else job.(seen := job.seen + 1, skipped := job.skipped + 1, phase := Picking(todo, last))
      ensures Leads(start, At(next))
    {
      LooksOn(start, At(job));
      next := Looked(job, store[k]);
      var plain, head := IsPlain(k);
      if head.None? || plain != on {
        return false, next;
      }
      ghost var s := At(next);
      RewritesOn(start, s);
      next := Rewritten(s).job;
      var ok := CopyOnto(k, head.value, on);
      RewriteSame(s.store, store, k);
      assert At(next) == Rewritten(s);
      return true, next;
    }

    /** What every turn of the loops keeps: `done` are the files counted so far. */
    ghost predicate Going(was: Store, on: bool, c: Counts, start: State, job: Job, done: seq<Key>)
      reads this
    {
      && Kept(was, store, on) && c.changed == |Turned(was, store)| && Come(was, store, done, on)
      && c.failed == 0 && c.seen == |done| && c.seen == c.changed + c.skipped
      && job.on == on && Counted(job, c) && Leads(start, At(job))
    }

    /**
     * A turn of the inner loop for such a key. One already as wanted is counted and passed over; one that was
     * rewritten is counted and, when it is a hundredth, the switch is looked at again.
     */
    method CountKey(k: Key, on: bool, counts: Counts, ghost was: Store, ghost start: State, ghost job: Job,
                    ghost done: seq<Key>)
      returns (c: Counts, stopped: bool, ghost next: Job)
      requires Going(was, on, counts, start, job, done) && NoReason(was, done, on, setting)
      requires !job.stopped && job.phase.Picking? && job.phase.todo != [] && k == job.phase.todo[0] && !Paths.Marker(k)
               && k in store
      modifies `store, `nextTag
      ensures store.Keys == old(store).Keys && Going(was, on, c, start, next, done + [k])
      ensures next.stopped == stopped && next.phase == if stopped then Done
              else Picking(job.phase.todo[1..], job.phase.last)
      ensures stopped <==> setting != on && Rewrites(was, done + [k], |done|, on)
      ensures !stopped ==> NoReason(was, done + [k], on, setting)
    {
      ghost var before := store;
      var rewritten;
      rewritten, next := Handle(k, on, start, job);
      OneCome(was, before, store, done, k, on);
      RewritesHere(was, before, done, k, on);
      if !rewritten {
        NoReasonMore(was, done, k, on, setting);
        return counts.(seen := counts.seen + 1, skipped := counts.skipped + 1), false, next;
      }
      TurnsOne(was, before, store, k, on);
      c := counts.(seen := counts.seen + 1, changed := counts.changed + 1);
      LeadsOn(start, At(next), Check);
      next := CheckStep(At(next));
      stopped := c.seen % 100 == 0 && setting != on;
      if !stopped { NoReasonMore(was, done, k, on, setting); }
    }

    /** A turn of the inner loop: a marker passed over, or a file counted. */
    method TurnKey(k: Key, ghost rest: seq<Key>, on: bool, counts: Counts, ghost was: Store, ghost start: State,
                   ghost job: Job, ghost done: seq<Key>)
      returns (c: Counts, stopped: bool, ghost next: Job, ghost done': seq<Key>)
      requires Going(was, on, counts, start, job, done) && NoReason(was, done, on, setting)
      requires !job.stopped && job.phase.Picking? && job.phase.todo == [k] + rest && k in store
      modifies `store, `nextTag
      ensures store.Keys == old(store).Keys && Going(was, on, c, start, next, done') && done' == done + FileOf(k)
      ensures next.stopped == stopped && next.phase == if stopped then Done else Picking(rest, job.phase.last)
      ensures !stopped ==> NoReason(was, done', on, setting)
      ensures stopped ==> setting != on && done' != [] && Rewrites(was, done', |done'| - 1, on)
    {
      assert job.phase.todo[0] == k && job.phase.todo[1..] == rest;
      if Paths.Marker(k) {
        PassesOn(start, At(job));
        c, stopped, next, done' := counts, false, job.(phase := Picking(rest, job.phase.last)), done;
        assert done + FileOf(k) == done;
      } else {
        c, stopped, next := CountKey(k, on, counts, was, start, job, done);
        done' := done + [k];
      }
    }

    /** The inner loop: the keys of one page. */
    method HandlePage(page: Page, on: bool, counts: Counts, ghost was: Store, ghost start: State, ghost job: Job,
                      ghost done: seq<Key>)
      returns (c: Counts, stopped: bool, ghost next: Job, ghost done': seq<Key>)
      requires Going(was, on, counts, start, job, done) && NoReason(was, done, on, setting)
      requires !job.stopped && job.phase == Picking(page.keys, page.last) && forall k | k in page.keys :: k in store
      modifies `store, `nextTag
      ensures Going(was, on, c, start, next, done') && next.stopped == stopped
      ensures done' <= done + Files(page.keys)
      ensures !stopped ==> done' == done + Files(page.keys) && NoReason(was, done', on, setting)
      ensures stopped ==> setting != on && done' != [] && Rewrites(was, done', |done'| - 1, on)
      ensures next.phase == if stopped then Done else Picking([], page.last)
    {
      c, next, done', stopped := counts, job, done, false;
      var j := 0;
      while j < |page.keys| && !stopped
        invariant 0 <= j <= |page.keys| && store.Keys == old(store).Keys
        invariant Going(was, on, c, start, next, done') && next.stopped == stopped
        invariant done' + Files(page.keys[j..]) == done + Files(page.keys)
        invariant !stopped ==> NoReason(was, done', on, setting) && next.phase == Picking(page.keys[j..], page.last)
        invariant stopped ==> setting != on && done' != [] && Rewrites(was, done', |done'| - 1, on) && next.phase.Done?
        decreases |page.keys| - j
      {
        var k := page.keys[j];
        assert k in store.Keys;
        FilesFirst(page.keys, j, done');
        c, stopped, next, done' := TurnKey(k, page.keys[j + 1..], on, c, was, start, next, done');
        j := j + 1;
      }
      if !stopped { assert page.keys[j..] == [] && done' + [] == done'; }
    }

    /** A turn of the outer loop: a page asked for and its keys handled; `all` are the files of all the pages. */
    method TurnPage(page: Page, on: bool, counts: Counts, ghost was: Store, ghost start: State, ghost job: Job,
                    ghost done: seq<Key>, ghost all: seq<Key>)
      returns (c: Counts, stopped: bool, ghost next: Job, ghost done': seq<Key>)
      requires Going(was, on, counts, start, job, done) && NoReason(was, done, on, setting)
               && done + Files(page.keys) <= all
      requires !job.stopped && job.phase.Paging? && Lists(was, job.phase.after, page.keys, page.last)
      modifies `store, `nextTag
      ensures Going(was, on, c, start, next, done') && next.stopped == stopped
      ensures if stopped then Reason(was, all, on, setting)
              else done' == done + Files(page.keys) && NoReason(was, done', on, setting)
      ensures next.phase == if stopped || page.last.None? then Done else Paging(page.last)
    {
      SameKeysList(was, store, job.phase.after, page);
      LeadsOn(start, At(job), ListPage(page.keys, page.last));
      c, stopped, next, done' :=
          HandlePage(page, on, counts, was, start, job.(phase := Picking(page.keys, page.last)), done);
      if stopped {
        ReasonHere(was, done', done + Files(page.keys), all, on, setting);
      } else {
        EndsPage(start, At(next));
        next := next.(phase := if page.last.Some? then Paging(page.last) else Done);
      }
    }

    /**
     * files_crypto.switch: a run of the machine's job from its start to its end. Contents stay; what is counted as
     * changed is what is now stored another way. It is stopped exactly when the switch is turned back and a hundredth
     * file has to be rewritten; otherwise it goes on to the end, and everything but the markers is as `on` says.
     */
    method Switch(on: bool, pages: seq<Page>) returns (c: Counts, stopped: bool, ghost end: Job)
      requires Answers(store, None, pages)
      modifies `store, `nextTag
      ensures var begun := Job(on, Paging(None), 0, 0, 0, 0, false);
              Leads(State(old(store), old(nextTag), setting, [], Values(old(store)), begun), At(end))
      ensures end.phase.Done? && end.stopped == stopped && Counted(end, c)
      ensures Kept(old(store), store, on) && c.changed == |Turned(old(store), store)|
      ensures c.failed == 0 && c.seen == c.changed + c.skipped
      ensures stopped <==> Reason(old(store), AllFiles(pages), on, setting)
      ensures !stopped ==> AllAre(store, on) && c.seen == |AllFiles(pages)|
    {
      ghost var was := store;
      end := Job(on, Paging(None), 0, 0, 0, 0, false);
      ghost var start := At(end);
      LeadsNowhere(start);
      c, stopped := Counts(0, 0, 0, 0), false;
      assert Turned(was, was) == {};
      ghost var done: seq<Key> := [];
      var p := 0;
      while p < |pages| && !stopped
        invariant 0 <= p <= |pages|
        invariant Going(was, on, c, start, end, done) && end.stopped == stopped
        invariant !stopped ==> done + AllFiles(pages[p..]) == AllFiles(pages) && NoReason(was, done, on, setting)
        invariant stopped ==> Reason(was, AllFiles(pages), on, setting)
        invariant !stopped && p < |pages| ==> end.phase.Paging? && Answers(was, end.phase.after, pages[p..])
        invariant stopped || p == |pages| ==> end.phase.Done?
        decreases |pages| - p
      {
        var page := pages[p];
        PagesFirst(pages, p, done);
        c, stopped, end, done := TurnPage(page, on, c, was, start, end, done, AllFiles(pages));
        p := p + 1;
      }
      if !stopped {
        assert done + [] == done;
        NoReasonAtAll(was, done, on, setting);
        AllAreDone(was, store, pages, on);
      }
    }
  }

  lemma FilesFirst(keys: seq<Key>, j: nat, done: seq<Key>)
    requires j < |keys|
    ensures keys[j..] == [keys[j]] + keys[j + 1..]
    ensures done + Files(keys[j..]) == done + FileOf(keys[j]) + Files(keys[j + 1..])
  {
    assert keys[j..][1..] == keys[j + 1..];
    Regrouped(done, FileOf(keys[j]), Files(keys[j + 1..]));
  }

  lemma PagesFirst(pages: seq<Page>, p: nat, done: seq<Key>)
    requires p < |pages|
    ensures pages[p..][0] == pages[p] && pages[p..][1..] == pages[p + 1..]
    ensures done + AllFiles(pages[p..]) == done + Files(pages[p].keys) + AllFiles(pages[p + 1..])
    ensures done + Files(pages[p].keys) <= done + AllFiles(pages[p..])
  {
    var f, rest := Files(pages[p].keys), AllFiles(pages[p + 1..]);
    assert pages[p..][1..] == pages[p + 1..];
    assert done + (f + rest) == done + f + rest;
  }

  lemma ReasonHere(was: Store, done: seq<Key>, some: seq<Key>, all: seq<Key>, on: bool, setting: bool)
    requires done != [] && done <= some <= all && setting != on && Rewrites(was, done, |done| - 1, on)
    ensures Reason(was, all, on, setting)
  {
    ReasonStays(was, done, all, |done| - 1, on);
  }

  lemma NoReasonAtAll(was: Store, files: seq<Key>, on: bool, setting: bool)
    requires NoReason(was, files, on, setting)
    ensures !Reason(was, files, on, setting)
  {
    if setting != on {
      forall n: nat
        ensures !Rewrites(was, files, n, on)
      {
      }
    }
  }

  lemma {:induction false} FilesAre(keys: seq<Key>)
    ensures forall k :: k in Files(keys) <==> k in keys && !Paths.Marker(k)
  {
    if keys != [] { FilesAre(keys[1..]); }
  }

  /** Every file of the store is on one of the pages. */
  lemma {:induction false} Listed(store: Store, after: Option<Key>, pages: seq<Page>, k: Key)
    requires Answers(store, after, pages) && k in store && Follows(after, k) && !Paths.Marker(k)
    ensures k in AllFiles(pages)
    decreases |pages|
  {
    FilesAre(pages[0].keys);
    if pages[0].last.Some? && Follows(pages[0].last, k) { Listed(store, pages[0].last, pages[1..], k); }
  }

  lemma AllAreDone(was: Store, now: Store, pages: seq<Page>, on: bool)
    requires Answers(was, None, pages) && Come(was, now, AllFiles(pages), on)
    ensures AllAre(now, on)
  {
    forall k | k in now && !Paths.Marker(k)
      ensures now[k].encrypted == on
    {
      assert k in was.Keys;
      Listed(was, None, pages, k);
    }
  }
}
