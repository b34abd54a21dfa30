/**
 * Saves that overlap. files_core.save looks, copies what it found into a version and then writes, with no lock: other
 * calls come in between. Here its three parts are steps of their own, so every interleaving of any number of saves is a
 * run; taking to the bin and restoring from it stay single steps.
 */
module Overlaps {
  import opened Text
  import opened Paths
  import opened FilesCore
  import FreeNames

  /** What a save does next; `kept` is the version it has made, none when it found nothing to keep. */
  datatype Phase = ToCopy | ToWrite(kept: Option<string>)

  datatype Saving = Saving(key: Key, data: string, phase: Phase)

  /** The files, and the saves under way by their number. */
  datatype State = State(files: Files, saving: map<nat, Saving>)

  datatype Step =
    | Look(call: nat, key: Key, data: string) | Copy(call: nat, id: string) | Write(call: nat) | Fail(call: nat)
    | Other(event: Event)

  ghost predicate Can(s: State, e: Step) {
    match e
    case Look(call, key, _) => call !in s.saving && LiveFile(s.files.tenant, key)
    case Copy(call, id) => call in s.saving && s.saving[call].phase.ToCopy? && Fresh(s.files, id)
    case Write(call) => call in s.saving && s.saving[call].phase.ToWrite?
    case Fail(call) => call in s.saving
    case Other(event) => (event.Bin? || event.Unbin?) && Possible(s.files, event)
  }

  /** A copy of what is not there any more ends the save. */
  function Next(s: State, e: Step): State {
    match e
    case Look(call, key, data) =>
      s.(saving := s.saving[call := Saving(key, data, if key in s.files.store then ToCopy else ToWrite(None))])
    case Copy(call, id) =>
      if call !in s.saving then s
      else if s.saving[call].key !in s.files.store then s.(saving := s.saving - {call})
      else
        var p, f := s.saving[call], s.files;
        State(f.(store := f.store[VersionKey(f.tenant, id) := f.store[p.key]],
                 versions := f.versions[id := Version(p.key, VersionKey(f.tenant, id))]),
              s.saving[call := p.(phase := ToWrite(Some(id)))])
    case Write(call) =>
      if call !in s.saving then s
      else State(Written(s.files, s.saving[call].key, s.saving[call].data), s.saving - {call})
    case Fail(call) => s.(saving := s.saving - {call})
    case Other(event) => s.(files := FilesCore.Step(s.files, event))
  }

  function Written(f: Files, key: Key, data: string): Files { f.(store := f.store[key := data]) }

  ghost predicate Run(start: State, steps: seq<Step>, end: State)
    decreases |steps|
  {
    if steps == [] then start == end else Can(start, steps[0]) && Run(Next(start, steps[0]), steps[1..], end)
  }

  ghost predicate Sound(s: State) {
    && Inv(s.files)
    && forall n | n in s.saving ::
      && LiveFile(s.files.tenant, s.saving[n].key)
      && forall id | s.saving[n].phase == ToWrite(Some(id)) :: id in s.files.versions
  }

  // ---- the parts of a save ----

  /** Nobody in between, the three parts are the whole save. */
  lemma PartsAreSave(s: State, call: nat, key: Key, data: string, id: string)
    requires call !in s.saving && LiveFile(s.files.tenant, key) && Fresh(s.files, id)
    ensures var steps := if key in s.files.store then [Look(call, key, data), Copy(call, id), Write(call)]
                         else [Look(call, key, data), Write(call)];
            Run(s, steps, s.(files := Saved(s.files, key, data, id)))
  {
    var a := Next(s, Look(call, key, data));
    var b := if key in s.files.store then Next(a, Copy(call, id)) else a;
    var c := Next(b, Write(call));
    assert c.saving == s.saving;
    assert c == s.(files := Saved(s.files, key, data, id));
    assert Run(c, [], c) && [Write(call)][1..] == [];
    assert Run(b, [Write(call)], c);
    if key in s.files.store {
      assert [Copy(call, id), Write(call)][1..] == [Write(call)];
      assert Run(a, [Copy(call, id), Write(call)], c);
      assert [Look(call, key, data), Copy(call, id), Write(call)][1..] == [Copy(call, id), Write(call)];
    } else {
      assert [Look(call, key, data), Write(call)][1..] == [Write(call)];
    }
  }

  lemma CopyKeeps(f: Files, key: Key, id: string, k: Key)
    requires Inv(f) && LiveFile(f.tenant, key) && Fresh(f, id) && key in f.store && Reachable(f, k)
    ensures var g := f.(store := f.store[VersionKey(f.tenant, id) := f.store[key]],
                        versions := f.versions[id := Version(key, VersionKey(f.tenant, id))]);
            Reachable(g, k) && g.store[k] == f.store[k]
  {
    var g := f.(store := f.store[VersionKey(f.tenant, id) := f.store[key]],
                versions := f.versions[id := Version(key, VersionKey(f.tenant, id))]);
    if n :| n in f.versions && k == VersionKey(f.tenant, n) {
      assert n in g.versions;
    } else if n :| n in f.bin && InBin(f, n, k) {
      assert n in g.bin && InBin(g, n, k);
    }
  }

  /** A copy is a save of what is there already. */
  lemma CopyIsSave(f: Files, key: Key, id: string)
    requires LiveFile(f.tenant, key) && key in f.store
    ensures f.(store := f.store[VersionKey(f.tenant, id) := f.store[key]],
               versions := f.versions[id := Version(key, VersionKey(f.tenant, id))])
            == Saved(f, key, f.store[key], id)
  {
    HiddenNotLive(f.tenant, id, VersionKey(f.tenant, id));
  }

  lemma WriteVersions(f: Files, key: Key, data: string)
    requires VersionsKept(f) && LiveFile(f.tenant, key)
    ensures VersionsKept(Written(f, key, data))
  {
    forall n { SaveApart(f, key, "", n); }
  }

  lemma WriteBin(f: Files, key: Key, data: string)
    requires BinKept(f) && LiveFile(f.tenant, key)
    ensures BinKept(Written(f, key, data))
  {
    var g := Written(f, key, data);
    forall n | n in f.bin
      ensures BinKey(f.tenant, n) in g.store <==> BinKey(f.tenant, n) in f.store
      ensures !f.bin[n].isDir ==> !ExistsDir(g.store, BinKey(f.tenant, n))
    {
      SaveApart(f, key, "", n);
      forall k | k in g.store && Under(BinKey(f.tenant, n), k)
        ensures k in f.store
      {
      }
    }
  }

  lemma WriteInv(f: Files, key: Key, data: string)
    requires Inv(f) && LiveFile(f.tenant, key)
    ensures Inv(Written(f, key, data))
  {
    WriteVersions(f, key, data);
    WriteBin(f, key, data);
  }

  /** A write changes what is reachable at its key only. */
  lemma WriteReach(f: Files, key: Key, data: string, k: Key)
    requires LiveFile(f.tenant, key)
    ensures var g := Written(f, key, data);
            if k == key then Reachable(g, k) && g.store[k] == data
            else (Reachable(g, k) <==> Reachable(f, k)) && (k in f.store ==> g.store[k] == f.store[k])
  {
    var g := Written(f, key, data);
    assert forall n | n in f.bin :: InBin(g, n, k) == InBin(f, n, k);
  }

  lemma OtherVersions(f: Files, event: Event)
    requires event.Bin? || event.Unbin?
    ensures FilesCore.Step(f, event).versions == f.versions && FilesCore.Step(f, event).tenant == f.tenant
  {
  }

  lemma StepSound(s: State, e: Step)
    requires Sound(s) && Can(s, e)
    ensures Sound(Next(s, e))
  {
    match e
    case Copy(call, id) =>
      var key := s.saving[call].key;
      if key in s.files.store {
        CopyIsSave(s.files, key, id);
        SaveInv(s.files, key, s.files.store[key], id);
      }
    case Write(call) => WriteInv(s.files, s.saving[call].key, s.saving[call].data);
    case Other(event) =>
      StepKeeps(s.files, event);
      OtherVersions(s.files, event);
    case _ =>
  }

  // ---- which step loses a content ----

  /** The content is kept somewhere else than at the key. */
  ghost predicate Elsewhere(f: Files, key: Key, content: string) {
    exists k :: k != key && Reachable(f, k) && f.store[k] == content
  }

  ghost predicate Loses(s: State, e: Step, content: string) {
    Kept(s.files, content) && !Kept(Next(s, e).files, content)
  }

  /** A write loses what lies at its key, when it is something else and kept nowhere else. */
  lemma WriteLoses(s: State, call: nat, content: string)
    requires Sound(s) && Can(s, Write(call))
    ensures var p, f := s.saving[call], s.files;
            Loses(s, Write(call), content)
            <==> p.key in f.store && f.store[p.key] == content && content != p.data && !Elsewhere(f, p.key, content)
  {
    var p, f := s.saving[call], s.files;
    var g := Written(f, p.key, p.data);
    forall k { WriteReach(f, p.key, p.data, k); }
    assert p.key in f.store ==> Reachable(f, p.key);
    assert Reachable(g, p.key);
  }

  /** No other step loses anything. */
  lemma OthersLoseNothing(s: State, e: Step, content: string)
    requires Sound(s) && Can(s, e) && !e.Write?
    ensures !Loses(s, e, content)
  {
    match e
    case Copy(call, id) =>
      var key := s.saving[call].key;
      if key in s.files.store && Kept(s.files, content) {
        var k :| Reachable(s.files, k) && s.files.store[k] == content;
        CopyKeeps(s.files, key, id, k);
      }
    case Other(event) => StepKeeps(s.files, event);
    case _ =>
  }

  // ---- what happened at a key since a save looked ----

  datatype Since = Unchanged | Gone | Put(content: string)

  /** What a step does to the object at a key. */
  function Effect(before: Store, after: Store, key: Key): Since {
    if key !in after then (if key in before then Gone else Unchanged)
    else if key in before && before[key] == after[key] then Unchanged
    else Put(after[key])
  }

  /** What the last step of a run that changed the object at a key did to it. */
  function LastChange(start: State, steps: seq<Step>, key: Key): Since
    decreases |steps|
  {
    if steps == [] then Unchanged
    else
      var next := Next(start, steps[0]);
      var later := LastChange(next, steps[1..], key);
      if later != Unchanged then later else Effect(start.files.store, next.files.store, key)
  }

  lemma {:induction false} LastChangeTrue(start: State, steps: seq<Step>, end: State, key: Key)
    requires Run(start, steps, end)
    ensures match LastChange(start, steps, key)
            case Unchanged => Effect(start.files.store, end.files.store, key) == Unchanged
            case Gone => key !in end.files.store
            case Put(content) => key in end.files.store && end.files.store[key] == content
    decreases |steps|
  {
    if steps != [] { LastChangeTrue(Next(start, steps[0]), steps[1..], end, key); }
  }

  /** A new content comes to a key by a save that writes there, or out of the bin. */
  lemma PutBy(s: State, e: Step, key: Key, content: string)
    requires Sound(s) && Can(s, e) && LiveFile(s.files.tenant, key)
    requires Effect(s.files.store, Next(s, e).files.store, key) == Put(content)
    ensures (e.Write? && s.saving[e.call].key == key && s.saving[e.call].data == content)
            || (e.Other? && e.event.Unbin?)
  {
    match e
    case Copy(call, id) => HiddenNotLive(s.files.tenant, id, key);
    case Other(event) =>
      if event.Bin? {
        HiddenNotLive(s.files.tenant, event.id, key);
        if event.isDir { DirLeavesLive(s.files, event.key, event.id, key); }
      }
    case _ =>
  }

  lemma DirLeavesLive(f: Files, key: Key, id: string, k: Key)
    requires LiveFile(f.tenant, key) && Fresh(f, id) && Live(f.tenant, k) && k in ToBin(f, key, true, id).value.store
    ensures k in f.store && ToBin(f, key, true, id).value.store[k] == f.store[k]
  {
    HiddenNotLive(f.tenant, id, k);
    BinDirStore(f, key, id);
  }

  // ---- versions stay ----

  lemma VersionStays(s: State, e: Step, n: string)
    requires Sound(s) && Can(s, e) && n in s.files.versions
    ensures var f, g, k := s.files, Next(s, e).files, VersionKey(s.files.tenant, n);
            g.tenant == f.tenant && n in g.versions && k in f.store && k in g.store && g.store[k] == f.store[k]
  {
    var f, k := s.files, VersionKey(s.files.tenant, n);
    VersionKeysDiffer(f.tenant, n, n);
    assert Reachable(f, k);
    match e
    case Copy(call, id) => VersionKeysDiffer(f.tenant, n, id);
    case Write(call) => HiddenNotLive(f.tenant, n, k);
    case Other(event) =>
      OtherVersions(f, event);
      if event.Bin? {
        HiddenNotLive(f.tenant, n, k);
        HiddenAway(f.tenant, event.key, n);
        if ToBin(f, event.key, event.isDir, event.id).Some? {
          if event.isDir {
            BinDirKeeps(f, event.key, event.id, k);
          } else {
            BinFileKeeps(f, event.key, event.id, k);
          }
        }
      } else if event.name in f.bin && BinRestored(f, event.name).Some? {
        VersionNotBin(f.tenant, n, event.name);
        RestoreKeeps(f, event.name, k);
      }
    case _ =>
  }

  /** No step of a run ends the save. */
  predicate GoesOn(steps: seq<Step>, call: nat) {
    forall e | e in steps :: e != Write(call) && e != Fail(call) && !(e.Copy? && e.call == call)
  }

  lemma {:induction false} WindowKeeps(start: State, steps: seq<Step>, end: State, call: nat)
    requires Sound(start) && Run(start, steps, end) && call in start.saving && GoesOn(steps, call)
    ensures Sound(end) && call in end.saving && end.saving[call] == start.saving[call]
    ensures end.files.tenant == start.files.tenant
    ensures forall n | n in start.files.versions :: var k := VersionKey(start.files.tenant, n);
              && n in end.files.versions && k in start.files.store && k in end.files.store
              && end.files.store[k] == start.files.store[k]
    decreases |steps|
  {
    if steps != [] {
      var e, next := steps[0], Next(start, steps[0]);
      assert e in steps && forall x | x in steps[1..] :: x in steps;
      StepSound(start, e);
      forall n | n in start.files.versions { VersionStays(start, e, n); }
      NextTenant(start, e);
      WindowKeeps(next, steps[1..], end, call);
    }
  }

  lemma NextTenant(s: State, e: Step)
    requires Can(s, e)
    ensures Next(s, e).files.tenant == s.files.tenant
  {
    if e.Other? { OtherVersions(s.files, e.event); }
  }

  // ---- exactly when a save loses a content ----

  /** The save has just made its version, or looked and found nothing. */
  ghost predicate JustReady(s: State, call: nat) {
    && call in s.saving && s.saving[call].phase.ToWrite?
    && var p, f := s.saving[call], s.files;
       match p.phase.kept
       case None => p.key !in f.store
       case Some(id) =>
         var kept := VersionKey(f.tenant, id);
         id in f.versions && kept in f.store && p.key in f.store && f.store[kept] == f.store[p.key]
  }

  lemma BecomesReady(s: State, e: Step)
    requires Sound(s) && Can(s, e) && (e.Look? || e.Copy?) && e.call in Next(s, e).saving
    ensures Next(s, e).saving[e.call].phase.ToWrite? ==> JustReady(Next(s, e), e.call)
  {
    if e.Copy? { HiddenNotLive(s.files.tenant, e.id, s.saving[e.call].key); }
  }

  /**
   * Whatever happens between a save's own copy and its write, the write loses a content exactly when that content is
   * what the last change at the key in between put there, it is not what the save writes, and nobody keeps it
   * elsewhere.
   */
  lemma SaveLosesExactly(start: State, call: nat, steps: seq<Step>, s: State, content: string)
    requires Sound(start) && JustReady(start, call) && Run(start, steps, s) && GoesOn(steps, call)
    ensures Can(s, Write(call))
    ensures var p := s.saving[call];
            Loses(s, Write(call), content)
            <==> LastChange(start, steps, p.key) == Put(content) && content != p.data
                 && !Elsewhere(s.files, p.key, content)
  {
    WindowKeeps(start, steps, s, call);
    var p := s.saving[call];
    WriteLoses(s, call, content);
    LastChangeTrue(start, steps, s, p.key);
    if LastChange(start, steps, p.key) == Unchanged && p.key in s.files.store {
      var id := p.phase.kept.value;
      var kept := VersionKey(s.files.tenant, id);
      HiddenNotLive(s.files.tenant, id, p.key);
      VersionKeysDiffer(s.files.tenant, id, id);
      assert Reachable(s.files, kept) && s.files.store[kept] == s.files.store[p.key];
    }
  }

  // ---- over every interleaving ----

  /** The save finds at its key what it has kept, or nothing: what a condition on the tag would check. */
  predicate Undisturbed(s: State, e: Step) {
    e.Write? && e.call in s.saving ==>
      var p, f := s.saving[e.call], s.files;
      p.key in f.store ==>
        p.phase.ToWrite? && p.phase.kept.Some?
        && VersionKey(f.tenant, p.phase.kept.value) in f.store
        && f.store[VersionKey(f.tenant, p.phase.kept.value)] == f.store[p.key]
  }

  ghost predicate AllUndisturbed(start: State, steps: seq<Step>)
    decreases |steps|
  {
    steps == [] || (Undisturbed(start, steps[0]) && AllUndisturbed(Next(start, steps[0]), steps[1..]))
  }

  lemma UndisturbedLosesNothing(s: State, e: Step, content: string)
    requires Sound(s) && Can(s, e) && Undisturbed(s, e)
    ensures !Loses(s, e, content)
  {
    if e.Write? {
      var p, f := s.saving[e.call], s.files;
      WriteLoses(s, e.call, content);
      if p.key in f.store {
        var id := p.phase.kept.value;
        HiddenNotLive(f.tenant, id, p.key);
        VersionKeysDiffer(f.tenant, id, id);
        assert id in f.versions;
        assert Reachable(f, VersionKey(f.tenant, id));
      }
    } else {
      OthersLoseNothing(s, e, content);
    }
  }

  /** However saves overlap: when each finds at its key what it kept, no content is lost. */
  lemma {:induction false} NothingLostUndisturbed(start: State, steps: seq<Step>, end: State)
    requires Sound(start) && Run(start, steps, end) && AllUndisturbed(start, steps)
    ensures Sound(end) && forall c | Kept(start.files, c) :: Kept(end.files, c)
    decreases |steps|
  {
    if steps != [] {
      StepSound(start, steps[0]);
      forall c | Kept(start.files, c)
        ensures Kept(Next(start, steps[0]).files, c)
      {
        UndisturbedLosesNothing(start, steps[0], c);
      }
      NothingLostUndisturbed(Next(start, steps[0]), steps[1..], end);
    }
  }

  // ---- two at once ----

  /** The two saves have looked, and copied what they found, before either writes. */
  function BothReady(s: State, key: Key, a: nat, one: string, id: string, b: nat, two: string, id': string): State {
    var f := s.files;
    if key !in f.store then
      s.(saving := s.saving[a := Saving(key, one, ToWrite(None))][b := Saving(key, two, ToWrite(None))])
    else
      var was := f.store[key];
      State(Saved(Saved(f, key, was, id), key, was, id'),
            s.saving[a := Saving(key, one, ToWrite(Some(id)))][b := Saving(key, two, ToWrite(Some(id')))])
  }

  /** The steps up to there. */
  function GetReady(s: State, key: Key, a: nat, one: string, id: string, b: nat, two: string, id': string): seq<Step> {
    [Look(a, key, one), Look(b, key, two)] + if key in s.files.store then [Copy(a, id), Copy(b, id')] else []
  }

  lemma StaysFresh(f: Files, key: Key, data: string, id: string, id': string)
    requires LiveFile(f.tenant, key) && Fresh(f, id) && Fresh(f, id') && id != id'
    ensures Fresh(Saved(f, key, data, id), id')
  {
    VersionKeysDiffer(f.tenant, id, id');
    SaveApart(f, key, id, id');
    SaveApart(f, key, id', id');
  }

  lemma RunOfTwo(start: State, x: Step, y: Step)
    requires Can(start, x) && Can(Next(start, x), y)
    ensures Run(start, [x, y], Next(Next(start, x), y))
  {
    assert [x, y][1..] == [y] && [y][1..] == [];
    assert Run(Next(start, x), [y], Next(Next(start, x), y));
  }

  lemma RunFrom(start: State, e: Step, steps: seq<Step>, end: State)
    requires Can(start, e) && Run(Next(start, e), steps, end)
    ensures Run(start, [e] + steps, end)
  {
    assert ([e] + steps)[1..] == steps;
  }

  lemma BothCopy(s: State, looked: State, key: Key, a: nat, one: string, id: string, b: nat, two: string,
                 id': string)
    requires LiveFile(s.files.tenant, key) && Fresh(s.files, id) && Fresh(s.files, id') && id != id'
    requires a !in s.saving && b !in s.saving && a != b && key in s.files.store
    requires looked == s.(saving := s.saving[a := Saving(key, one, ToCopy)][b := Saving(key, two, ToCopy)])
    ensures Run(looked, [Copy(a, id), Copy(b, id')], BothReady(s, key, a, one, id, b, two, id'))
  {
    var f, was := s.files, s.files.store[key];
    StaysFresh(f, key, was, id, id');
    CopyIsSave(f, key, id);
    CopyIsSave(Saved(f, key, was, id), key, id');
    var one' := Next(looked, Copy(a, id));
    assert one'.files == Saved(f, key, was, id);
    RunOfTwo(looked, Copy(a, id), Copy(b, id'));
    assert Next(one', Copy(b, id')) == BothReady(s, key, a, one, id, b, two, id');
  }

  lemma BothGetReady(s: State, key: Key, a: nat, one: string, id: string, b: nat, two: string, id': string)
    requires LiveFile(s.files.tenant, key) && Fresh(s.files, id) && Fresh(s.files, id') && id != id'
    requires a !in s.saving && b !in s.saving && a != b
    ensures Run(s, GetReady(s, key, a, one, id, b, two, id'), BothReady(s, key, a, one, id, b, two, id'))
  {
    var end, copies := BothReady(s, key, a, one, id, b, two, id'), [Copy(a, id), Copy(b, id')];
    var looked := Next(Next(s, Look(a, key, one)), Look(b, key, two));
    if key in s.files.store {
      BothCopy(s, looked, key, a, one, id, b, two, id');
      RunFrom(Next(s, Look(a, key, one)), Look(b, key, two), copies, end);
      RunFrom(s, Look(a, key, one), [Look(b, key, two)] + copies, end);
      assert [Look(a, key, one)] + ([Look(b, key, two)] + copies) == GetReady(s, key, a, one, id, b, two, id');
    } else {
      RunOfTwo(s, Look(a, key, one), Look(b, key, two));
      assert [Look(a, key, one), Look(b, key, two)] + [] == GetReady(s, key, a, one, id, b, two, id');
    }
  }

  lemma SaveSameKept(f: Files, key: Key, id: string, c: string)
    requires Inv(f) && LiveFile(f.tenant, key) && Fresh(f, id) && key in f.store && Kept(f, c)
    ensures Elsewhere(Saved(f, key, f.store[key], id), key, c)
  {
    var k :| Reachable(f, k) && f.store[k] == c;
    SaveKeeps(f, key, f.store[key], id, k);
    HiddenNotLive(f.tenant, id, key);
  }

  lemma SaveSameAdds(f: Files, key: Key, id: string, k: Key)
    requires LiveFile(f.tenant, key) && Fresh(f, id) && key in f.store && Reachable(Saved(f, key, f.store[key], id), k)
    ensures var from := if k == VersionKey(f.tenant, id) then key else k;
            Reachable(f, from) && Saved(f, key, f.store[key], id).store[k] == f.store[from]
  {
    var g := Saved(f, key, f.store[key], id);
    HiddenNotLive(f.tenant, id, key);
    if n :| n in f.bin && InBin(g, n, k) { assert InBin(f, n, k); }
  }

  /** Keeping a version of what is there changes no content that is kept. */
  lemma SaveSame(f: Files, key: Key, id: string, c: string)
    requires Inv(f) && LiveFile(f.tenant, key) && Fresh(f, id) && key in f.store
    ensures var g := Saved(f, key, f.store[key], id);
            (Kept(g, c) <==> Kept(f, c)) && (Elsewhere(g, key, c) <==> Kept(f, c))
  {
    var g := Saved(f, key, f.store[key], id);
    if Kept(f, c) {
      SaveSameKept(f, key, id, c);
    } else if Kept(g, c) {
      var k :| Reachable(g, k) && g.store[k] == c;
      SaveSameAdds(f, key, id, k);
      assert false;
    }
  }

  /** After the first write, the second replaces it. */
  lemma FirstLost(s: State, key: Key, a: nat, b: nat, c: string)
    requires Sound(s) && a != b && Can(s, Write(a)) && Can(s, Write(b))
    requires s.saving[a].key == key && s.saving[b].key == key
    ensures Sound(Next(s, Write(a))) && Can(Next(s, Write(a)), Write(b))
    ensures Loses(Next(s, Write(a)), Write(b), c)
            <==> c == s.saving[a].data && c != s.saving[b].data && !Elsewhere(s.files, key, c)
  {
    var t := Next(s, Write(a));
    StepSound(s, Write(a));
    WriteLoses(t, b, c);
    forall k { WriteReach(s.files, key, s.saving[a].data, k); }
  }

  /**
   * Two saves of one file that both look and copy before either writes: for every state, the second write loses the
   * first one's content exactly when that was kept nowhere before and the second writes something else.
   */
  lemma OverlapLosesExactly(s: State, key: Key, a: nat, one: string, id: string, b: nat, two: string, id': string,
                            c: string)
    requires Sound(s) && LiveFile(s.files.tenant, key) && Fresh(s.files, id) && Fresh(s.files, id') && id != id'
    requires a !in s.saving && b !in s.saving && a != b
    ensures var t := BothReady(s, key, a, one, id, b, two, id');
            && Run(s, GetReady(s, key, a, one, id, b, two, id'), t)
            && Can(t, Write(a)) && Can(Next(t, Write(a)), Write(b))
            && (Loses(Next(t, Write(a)), Write(b), c) <==> c == one && one != two && !Kept(s.files, one))
  {
    BothGetReady(s, key, a, one, id, b, two, id');
    BothSound(s, key, a, one, id, b, two, id');
    if key in s.files.store { BothKept(s.files, key, id, id', c); }
    FirstLost(BothReady(s, key, a, one, id, b, two, id'), key, a, b, c);
  }

  lemma BothSound(s: State, key: Key, a: nat, one: string, id: string, b: nat, two: string, id': string)
    requires Sound(s) && LiveFile(s.files.tenant, key) && Fresh(s.files, id) && Fresh(s.files, id') && id != id'
    ensures Sound(BothReady(s, key, a, one, id, b, two, id'))
  {
    if key in s.files.store { BothKept(s.files, key, id, id', ""); }
  }

  lemma BothKept(f: Files, key: Key, id: string, id': string, c: string)
    requires Inv(f) && LiveFile(f.tenant, key) && Fresh(f, id) && Fresh(f, id') && id != id' && key in f.store
    ensures var g := Saved(Saved(f, key, f.store[key], id), key, f.store[key], id');
            Inv(g) && id in g.versions && id' in g.versions && (Elsewhere(g, key, c) <==> Kept(f, c))
  {
    var was := f.store[key];
    var g := Saved(f, key, was, id);
    StaysFresh(f, key, was, id, id');
    SaveInv(f, key, was, id);
    SaveInv(g, key, was, id');
    SaveSame(f, key, id, c);
    SaveSame(g, key, id', c);
  }

  // ---- two uploads at once ----

  /**
   * An upload through a link is a save that finds nothing at the name it takes. Two that look at the same moment for
   * the same name in the same folder take the same one, and the first to be written is lost when it was kept nowhere
   * before and the second is another.
   */
  lemma UploadsMeetExactly(s: State, folder: Key, name: string, n: nat, m: nat, a: nat, one: string, b: nat,
                           two: string, c: string)
    requires Sound(s) && LiveFile(s.files.tenant, FreeNames.KeyAt(folder, name, n))
    requires FreeNames.FirstFree(s.files.store, folder, name, n) && FreeNames.FirstFree(s.files.store, folder, name, m)
    requires a !in s.saving && b !in s.saving && a != b
    ensures var key := FreeNames.KeyAt(folder, name, n);
            var t := Next(Next(s, Look(a, key, one)), Look(b, FreeNames.KeyAt(folder, name, m), two));
            && Run(s, [Look(a, key, one), Look(b, FreeNames.KeyAt(folder, name, m), two)], t)
            && Can(t, Write(a)) && Can(Next(t, Write(a)), Write(b))
            && (Loses(Next(t, Write(a)), Write(b), c) <==> c == one && one != two && !Kept(s.files, one))
  {
    FreeNames.FirstFreeIsOne(s.files.store, folder, name, n, m);
    var key := FreeNames.KeyAt(folder, name, n);
    var t := Next(Next(s, Look(a, key, one)), Look(b, key, two));
    RunOfTwo(s, Look(a, key, one), Look(b, key, two));
    FirstLost(t, key, a, b, c);
  }
}
