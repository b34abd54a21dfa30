/**
 * Moving and renaming (dav._move_or_copy with move) together with files_core.rekey, which carries shares, links, tags,
 * comments and versions along. Access rights and quotas are granted.
 */
module Moves {
  import opened Text
  import opened Paths
  import opened FilesCore
  import FilesEngine

  /** A row of one of the keyed tables. */
  datatype Row = Row(table: string, fileKey: Key, revoked: bool)

  type Rows = map<string, Row>

  // ---- rekey ----

  /** What a moved key becomes: the key itself, and with a folder everything under it. */
  function Renamed(src: Key, dst: Key, isDir: bool, k: Key): Key {
    if k == src then dst else if isDir && Under(src, k) then Moved(src, dst, k) else k
  }

  function UpdateExact(rows: Rows, src: Key, dst: Key): Rows {
    map r | r in rows :: if rows[r].fileKey == src then rows[r].(fileKey := dst) else rows[r]
  }

  function UpdateUnder(rows: Rows, src: Key, dst: Key): Rows {
    map r | r in rows :: if Under(src, rows[r].fileKey) then rows[r].(fileKey := Moved(src, dst, rows[r].fileKey))
        else rows[r]
  }

  /** files_core.rekey: two updates, the second for folders only. */
  function Rekeyed(rows: Rows, src: Key, dst: Key, isDir: bool): Rows {
    if isDir then UpdateUnder(UpdateExact(rows, src, dst), src, dst) else UpdateExact(rows, src, dst)
  }

  /**
   * The two updates rename every row once, and nothing else, exactly when no row of a folder moved inside itself is
   * hit twice.
   */
  lemma RekeyExactly(rows: Rows, src: Key, dst: Key, isDir: bool)
    ensures Rekeyed(rows, src, dst, isDir)
            == (map r | r in rows :: rows[r].(fileKey := Renamed(src, dst, isDir, rows[r].fileKey)))
            <==> !(isDir && Under(src, dst) && exists r :: r in rows && rows[r].fileKey == src)
  {
    var out := Rekeyed(rows, src, dst, isDir);
    var want := map r | r in rows :: rows[r].(fileKey := Renamed(src, dst, isDir, rows[r].fileKey));
    if isDir && Under(src, dst) {
      if r :| r in rows && rows[r].fileKey == src {
        MovedDiffers(src, dst);
        assert out[r].fileKey == Moved(src, dst, dst) && want[r].fileKey == dst;
      } else {
        assert out == want;
      }
    } else {
      assert out == want;
    }
  }

  lemma MovedDiffers(src: Key, dst: Key)
    requires Under(src, dst)
    ensures Moved(src, dst, dst) != dst
  {
    assert |Moved(src, dst, dst)| == |dst| + 1 + |Below(src, dst)|;
  }

  ghost predicate AtOrUnder(folder: Key, k: Key) { k == folder || Under(folder, k) }

  /** Renaming is one-to-one on everything but what the destination already holds, and leaves siblings alone. */
  lemma RenameInjective(src: Key, dst: Key, isDir: bool, k: Key, l: Key)
    requires !AtOrUnder(dst, k) && !AtOrUnder(dst, l)
    ensures Renamed(src, dst, isDir, k) == Renamed(src, dst, isDir, l) <==> k == l
    ensures k != src && !Under(src, k) ==> Renamed(src, dst, isDir, k) == k
  {
    if Under(src, k) { MovedBack(src, dst, k); }
    if Under(src, l) { MovedBack(src, dst, l); }
    if k == src || l == src { NotUnderItself(dst); }
  }

  lemma NotUnderItself(dst: Key)
    ensures !Under(dst, dst)
  {
  }

  // ---- the move ----

  datatype World = World(files: Files, rows: Rows)

  datatype Outcome = Done | Unchanged | Missing | InsideItself | Taken | Broken

  /** A replaced file or folder: rows of these tables end, share links are revoked (files_core.forget). */
  predicate Ends(table: string) {
    table == "QTT File Share" || table == "QTT File Request" || table == "QTT File Meta" || table == "QTT File Index"
  }

  predicate Hit(key: Key, isDir: bool, k: Key) { k == key || (isDir && Under(key, k)) }

  function Forgotten(rows: Rows, key: Key, isDir: bool): Rows {
    map r | r in rows && !(Ends(rows[r].table) && Hit(key, isDir, rows[r].fileKey)) ::
      if rows[r].table == "QTT Share Link" && Hit(key, isDir, rows[r].fileKey) then rows[r].(revoked := true)
          else rows[r]
  }

  predicate IsDir(store: Store, k: Key) { k !in store && ExistsDir(store, k) }

  /** What lies at the destination goes to the bin first. */
  function Cleared(w: World, target: Key, id: string): World {
    var isDir := IsDir(w.files.store, target);
    if target in w.files.store || isDir then
      World(match ToBin(w.files, target, isDir, id) case Some(f) => f case None => w.files,
          Forgotten(w.rows, target, isDir))
    else w
  }

  ghost function Shifted(w: World, src: Key, target: Key, isDir: bool): World {
    var store := w.files.store;
    World(w.files.(store :=
            if isDir then FilesEngine.CopiedInOrder(store, KeysUnder(store, src), src, target) - KeysUnder(store, src)
            else if src in store then store[target := store[src]] - {src} else store),
          Rekeyed(w.rows, src, target, isDir))
  }

  ghost function Move(w: World, src: Key, target: Key, overwrite: bool, id: string): (Outcome, World) {
    var store := w.files.store;
    var isDir := IsDir(store, src);
    if !isDir && src !in store then (Missing, w)
    else if target == src then (Unchanged, w)
    else if isDir && src + "/" <= target + "/" then (InsideItself, w)
    else if (target in store || ExistsDir(store, target)) && !overwrite then (Taken, w)
    else
      var cleared := Cleared(w, target, id);
      if !isDir && src !in cleared.files.store then (Broken, cleared)
      else (Done, Shifted(cleared, src, target, isDir))
  }

  class Drive {
    const files: FilesEngine.Engine
    var rows: Rows

    constructor (files: FilesEngine.Engine)
      ensures this.files == files && rows == map[]
    {
      this.files := files;
      rows := map[];
    }

    ghost function State(): World
      reads this, files
    {
      World(files.State(), rows)
    }

    /** files_core.rekey */
    method Rekey(src: Key, dst: Key, isDir: bool)
      modifies `rows
      ensures rows == Rekeyed(old(rows), src, dst, isDir)
    {
      rows := map r | r in rows :: if rows[r].fileKey == src then rows[r].(fileKey := dst) else rows[r];
      if isDir {
        rows := map r | r in rows :: if Under(src, rows[r].fileKey)
            then rows[r].(fileKey := Moved(src, dst, rows[r].fileKey)) else rows[r];
      }
    }

    method Clear(target: Key, id: string)
      requires LiveFile(files.tenant, target)
      modifies this, files
      ensures State() == Cleared(old(State()), target, id)
    {
      var isDir := target !in files.store && ExistsDir(files.store, target);
      if target in files.store || isDir {
        var ok := files.MoveToBin(target, isDir, id);
        rows := Forgotten(rows, target, isDir);
      }
    }

    /** The copy, the removal and the renaming of rows. */
    method Shift(src: Key, target: Key, isDir: bool)
      requires !isDir ==> src in files.store
      modifies this, files
      ensures State() == Shifted(old(State()), src, target, isDir)
    {
      if isDir {
        var objs := files.CopyTree(src, target);
        files.Remove(objs);
      } else {
        var ok := files.Copy(src, target);
        files.Remove({src});
      }
      Rekey(src, target, isDir);
    }

    /** dav._move_or_copy, moving: the guards and steps of a move, each outcome with its state. */
    method MoveTo(src: Key, target: Key, overwrite: bool, id: string) returns (outcome: Outcome)
      requires LiveFile(files.tenant, src) && LiveFile(files.tenant, target)
      modifies this, files
      ensures (outcome, State()) == Move(old(State()), src, target, overwrite, id)
    {
      var isDir := src !in files.store && ExistsDir(files.store, src);
      if !isDir && src !in files.store {
        return Missing;
      }
      if target == src {
        return Unchanged;
      }
      if isDir && src + "/" <= target + "/" {
        return InsideItself;
      }
      if (target in files.store || ExistsDir(files.store, target)) && !overwrite {
        return Taken;
      }
      Clear(target, id);
      if !isDir && src !in files.store {
        return Broken;
      }
      Shift(src, target, isDir);
      return Done;
    }
  }

  /** A folder moved over a name that is both a file and the folder it lies in: only the file is binned. */
  predicate Entangled(store: Store, src: Key, target: Key) {
    IsDir(store, src) && target in store && Under(target, src)
  }

  lemma UnderTwice(a: Key, b: Key, k: Key)
    requires Under(a, b) && Under(b, k)
    ensures Under(a, k)
  {
    assert k[..|a| + 1] == b[..|a| + 1];
  }

  lemma NotBoth(a: Key, b: Key, k: Key)
    requires a != b && !(a + "/" <= b + "/") && !Under(b, a) && Under(b, k)
    ensures !Under(a, k)
  {
  }

  /** A folder something lies in is there. */
  lemma SourceInTarget(store: Store, src: Key, target: Key)
    requires Under(target, src) && (src in store || ExistsDir(store, src))
    ensures ExistsDir(store, target)
  {
    if src !in store {
      var k :| k in store && Under(src, k);
      UnderTwice(target, src, k);
    }
  }

  // ---- what a move does to the objects ----

  /** After clearing, the file or folder the destination was is gone, and everything else is where it was. */
  lemma ClearedAt(w: World, target: Key, id: string, k: Key)
    requires LiveFile(w.files.tenant, target) && !AtOrUnder(BinKey(w.files.tenant, id), k)
    ensures var store, out := w.files.store, Cleared(w, target, id).files.store;
            && (k in out <==> k in store && !Hit(target, IsDir(store, target), k))
            && (k in out ==> out[k] == store[k])
  {
    if IsDir(w.files.store, target) {
      ClearedDirAt(w.files, target, id, k);
    } else {
      HiddenNotLive(w.files.tenant, id, target);
    }
  }

  lemma ClearedDirAt(f: Files, target: Key, id: string, k: Key)
    requires LiveFile(f.tenant, target) && IsDir(f.store, target) && !AtOrUnder(BinKey(f.tenant, id), k)
    ensures var out := ToBin(f, target, true, id).value.store;
            && (k in out <==> k in f.store && !Under(target, k))
            && (k in out ==> out[k] == f.store[k])
  {
    TreeGoneAt(f.store, target, BinKey(f.tenant, id), k);
  }

  lemma TreeGoneAt(store: Store, src: Key, dst: Key, k: Key)
    requires !Under(dst, k)
    ensures var out := TreeCopied(store, src, dst) - (KeysUnder(store, src) + {src + "/"});
            (k in out <==> k in store && !Under(src, k)) && (k in out ==> out[k] == store[k])
  {
    NeitherAddedNorGone(store, Copies(store, KeysUnder(store, src), src, dst), KeysUnder(store, src) + {src + "/"}, k);
    UnderIs(src, src + "/", "");
  }

  lemma NeitherAddedNorGone(store: Store, added: Store, gone: set<Key>, k: Key)
    requires k !in added
    ensures k in (store + added) - gone <==> k in store && k !in gone
    ensures k in (store + added) - gone ==> ((store + added) - gone)[k] == store[k]
  {
  }

  lemma FolderBinned(f: Files, target: Key, id: string, k: Key)
    requires LiveFile(f.tenant, target) && k in f.store && Under(target, k)
    ensures var out, to := ToBin(f, target, true, id).value.store, Moved(target, BinKey(f.tenant, id), k);
            to in out && out[to] == f.store[k]
  {
    var kept := BinKey(f.tenant, id);
    var to := Moved(target, kept, k);
    CopiesAt(f.store, KeysUnder(f.store, target), target, kept);
    MovedBack(target, kept, k);
    HiddenNotLive(f.tenant, id, to);
    if Under(target, to) { UnderLive(f.tenant, target, to); }
    UnderIs(target, target + "/", "");
    UnderLive(f.tenant, target, target + "/");
  }

  /** The bin takes in what was cleared. */
  lemma ClearedBin(w: World, target: Key, id: string, k: Key)
    requires LiveFile(w.files.tenant, target) && k in w.files.store && Hit(target, IsDir(w.files.store, target), k)
    ensures var store, out := w.files.store, Cleared(w, target, id).files.store;
            var to := Renamed(target, BinKey(w.files.tenant, id), IsDir(store, target), k);
            to in out && out[to] == store[k]
  {
    if IsDir(w.files.store, target) {
      FolderBinned(w.files, target, id, k);
    } else {
      HiddenNotLive(w.files.tenant, id, target);
    }
  }

  /** Something of the source is moved onto this key. */
  predicate Comes(store: Store, src: Key, target: Key, isDir: bool, k: Key) {
    if isDir then Under(target, k) && Moved(target, src, k) in store else k == target && src in store
  }

  /** Where what is moved onto a key comes from. */
  function Origin(src: Key, target: Key, isDir: bool, k: Key): Key
    requires if isDir then Under(target, k) else k == target
  {
    if isDir then Moved(target, src, k) else src
  }

  /** What lies at a key once the source has been shifted. */
  lemma ShiftedAt(w: World, src: Key, target: Key, isDir: bool, k: Key)
    requires src != target && !Under(target, src) && (isDir ==> !(src + "/" <= target + "/"))
    requires isDir <==> src !in w.files.store
    ensures var store, out := w.files.store, Shifted(w, src, target, isDir).files.store;
            && (k in out <==> Comes(store, src, target, isDir, k) || (k in store && !Hit(src, isDir, k)))
            && (k in out ==> out[k] == if Comes(store, src, target, isDir, k)
                then store[Origin(src, target, isDir, k)] else store[k])
  {
    var store := w.files.store;
    if isDir {
      forall j | Under(src, j)
        ensures !Under(src, Moved(src, target, j))
      {
        MovedBack(src, target, j);
        NotBoth(src, target, Moved(src, target, j));
      }
      FilesEngine.OrderDoesNotMatter(store, src, target);
      CopiesAt(store, KeysUnder(store, src), src, target);
      if Under(target, k) {
        MovedBack(target, src, k);
        NotBoth(src, target, k);
      }
    }
  }

  ghost predicate Movable(w: World, src: Key, target: Key, id: string) {
    LiveFile(w.files.tenant, src) && LiveFile(w.files.tenant, target) && Fresh(w.files, id)
  }

  lemma NotInTheBin(w: World, id: string, k: Key)
    requires Fresh(w.files, id) && k in w.files.store
    ensures !AtOrUnder(BinKey(w.files.tenant, id), k)
  {
  }

  lemma LiveNotInTheBin(tenant: string, id: string, k: Key)
    requires Live(tenant, k)
    ensures !AtOrUnder(BinKey(tenant, id), k)
  {
    HiddenNotLive(tenant, id, k);
  }

  lemma HitLive(tenant: string, folder: Key, isDir: bool, k: Key)
    requires Live(tenant, folder) && Hit(folder, isDir, k)
    ensures Live(tenant, k)
  {
    if Under(folder, k) { UnderLive(tenant, folder, k); }
  }

  /** A key of the source is neither at nor under a destination the source does not lie in. */
  lemma SourceApart(src: Key, target: Key, isDir: bool, k: Key)
    requires src != target && !Under(target, src) && (isDir ==> !(src + "/" <= target + "/")) && Hit(src, isDir, k)
    ensures !AtOrUnder(target, k)
  {
    if isDir && Under(src, k) {
      if Under(target, k) { NotBoth(src, target, k); }
      assert Under(src, target) ==> src + "/" <= target + "/";
    }
  }

  /** Where the object at a key is after a move: with the source, with what went to the bin, or where it was. */
  function Place(w: World, src: Key, target: Key, id: string, k: Key): Key {
    var store := w.files.store;
    if Hit(src, IsDir(store, src), k) then Renamed(src, target, IsDir(store, src), k)
    else if Hit(target, IsDir(store, target), k)
        then Renamed(target, BinKey(w.files.tenant, id), IsDir(store, target), k)
    else k
  }

  /**
   * A file in the folder of a name that is also a file: only that file is binned, and this one has something moved
   * onto it.
   */
  predicate WrittenOver(store: Store, src: Key, target: Key, k: Key) {
    IsDir(store, src) && target in store && Under(target, k) && Moved(target, src, k) in store
  }

  /** The state past the guards, before the shift, as far as the source is concerned. */
  lemma SourceThere(w: World, src: Key, target: Key, id: string, k: Key)
    requires Movable(w, src, target, id) && src != target && !Under(target, src) && Live(w.files.tenant, k)
    requires IsDir(w.files.store, src) ==> !(src + "/" <= target + "/")
    requires Hit(src, IsDir(w.files.store, src), k)
    ensures var store, out := w.files.store, Cleared(w, target, id).files.store;
            (k in out <==> k in store) && (k in store ==> out[k] == store[k])
  {
    SourceApart(src, target, IsDir(w.files.store, src), k);
    LiveNotInTheBin(w.files.tenant, id, k);
    ClearedAt(w, target, id, k);
  }

  /** The object a key has after a move past its guards: what comes from the source, or what clearing left there. */
  lemma MovedAt(w: World, src: Key, target: Key, overwrite: bool, id: string, k: Key)
    requires Movable(w, src, target, id) && Move(w, src, target, overwrite, id).0 == Done && !Under(target, src)
    ensures var c, out, isDir := Cleared(w, target, id).files.store,
            Move(w, src, target, overwrite, id).1.files.store, IsDir(w.files.store, src);
            && (k in out <==> Comes(c, src, target, isDir, k) || (k in c && !Hit(src, isDir, k)))
            && (k in out ==> out[k] == if Comes(c, src, target, isDir, k) then c[Origin(src, target, isDir, k)]
                else c[k])
  {
    SourceThere(w, src, target, id, src);
    ShiftedAt(Cleared(w, target, id), src, target, IsDir(w.files.store, src), k);
  }

  /** Clearing changes nothing of what comes from the source. */
  lemma SameComes(w: World, src: Key, target: Key, id: string, k: Key)
    requires Movable(w, src, target, id) && src != target && !Under(target, src)
    requires IsDir(w.files.store, src) ==> !(src + "/" <= target + "/")
    ensures var store, c, isDir := w.files.store, Cleared(w, target, id).files.store, IsDir(w.files.store, src);
            && (Comes(c, src, target, isDir, k) <==> Comes(store, src, target, isDir, k))
            && (Comes(c, src, target, isDir, k) ==>
                  c[Origin(src, target, isDir, k)] == store[Origin(src, target, isDir, k)])
  {
    if IsDir(w.files.store, src) {
      if Under(target, k) {
        MovedBack(target, src, k);
        UnderLive(w.files.tenant, src, Moved(target, src, k));
        SourceThere(w, src, target, id, Moved(target, src, k));
      }
    } else {
      SourceThere(w, src, target, id, src);
    }
  }

  /** Everything of the source arrives under the new key with its content, and is gone from the old one. */
  lemma SourceArrives(w: World, src: Key, target: Key, overwrite: bool, id: string, k: Key)
    requires Movable(w, src, target, id) && Move(w, src, target, overwrite, id).0 == Done && !Under(target, src)
    requires k in w.files.store && Hit(src, IsDir(w.files.store, src), k)
    ensures var out, to := Move(w, src, target, overwrite, id).1.files.store, Place(w, src, target, id, k);
            k !in out && to in out && out[to] == w.files.store[k]
  {
    var isDir := IsDir(w.files.store, src);
    var to := Place(w, src, target, id, k);
    if isDir { MovedBack(src, target, k); }
    MovedAt(w, src, target, overwrite, id, to);
    SameComes(w, src, target, id, to);
    SourceApart(src, target, isDir, k);
    MovedAt(w, src, target, overwrite, id, k);
  }

  /** What was replaced lies in the bin with its content. */
  lemma ReplacedBinned(w: World, src: Key, target: Key, overwrite: bool, id: string, k: Key)
    requires Movable(w, src, target, id) && Move(w, src, target, overwrite, id).0 == Done && !Under(target, src)
    requires k in w.files.store && Hit(target, IsDir(w.files.store, target), k)
             && !Hit(src, IsDir(w.files.store, src), k)
    ensures var out, to := Move(w, src, target, overwrite, id).1.files.store, Place(w, src, target, id, k);
            to in out && out[to] == w.files.store[k]
  {
    var kept := BinKey(w.files.tenant, id);
    var to := Place(w, src, target, id, k);
    ClearedBin(w, target, id, k);
    if IsDir(w.files.store, target) { MovedBack(target, kept, k); }
    HiddenNotLive(w.files.tenant, id, to);
    if Hit(src, true, to) { HitLive(w.files.tenant, src, true, to); }
    if Hit(target, true, to) { HitLive(w.files.tenant, target, true, to); }
    MovedAt(w, src, target, overwrite, id, to);
  }

  /** Everything else is where it was, unless something was moved onto it. */
  lemma OthersStay(w: World, src: Key, target: Key, overwrite: bool, id: string, k: Key)
    requires Movable(w, src, target, id) && Move(w, src, target, overwrite, id).0 == Done && !Under(target, src)
    requires k in w.files.store && !Hit(target, IsDir(w.files.store, target), k)
             && !Hit(src, IsDir(w.files.store, src), k)
    ensures var store, out := w.files.store, Move(w, src, target, overwrite, id).1.files.store;
            k in out && out[k] == if WrittenOver(store, src, target, k) then store[Moved(target, src, k)] else store[k]
  {
    NotInTheBin(w, id, k);
    ClearedAt(w, target, id, k);
    MovedAt(w, src, target, overwrite, id, k);
    SameComes(w, src, target, id, k);
    if Under(target, k) { assert ExistsDir(w.files.store, target); }
  }

  /**
   * Where every object is after a move: those of the source under the new key, the replaced ones in the bin, all
   * others where they were, each with its content. The one exception are objects something is moved onto, in the
   * folder of a name that is also a file.
   */
  lemma MoveDelivers(w: World, src: Key, target: Key, overwrite: bool, id: string, k: Key)
    requires Movable(w, src, target, id) && Move(w, src, target, overwrite, id).0 == Done && !Under(target, src)
    requires k in w.files.store
    ensures var store, out, to := w.files.store, Move(w, src, target, overwrite, id).1.files.store,
            Place(w, src, target, id, k);
            && to in out && (Hit(src, IsDir(store, src), k) ==> k !in out)
            && out[to] == if to == k && WrittenOver(store, src, target, k) then store[Moved(target, src, k)]
                else store[k]
  {
    var store := w.files.store;
    if Hit(src, IsDir(store, src), k) {
      SourceArrives(w, src, target, overwrite, id, k);
      SourceApart(src, target, IsDir(store, src), k);
    } else if Hit(target, IsDir(store, target), k) {
      ReplacedBinned(w, src, target, overwrite, id, k);
      if WrittenOver(store, src, target, k) { NotUnderItself(target); }
    } else {
      OthersStay(w, src, target, overwrite, id, k);
    }
  }

  /** Every row that is not ended with what is replaced is renamed as its object is, and no other row changes. */
  lemma RowsFollow(w: World, src: Key, target: Key, overwrite: bool, id: string, r: string)
    requires Move(w, src, target, overwrite, id).0 == Done && r in w.rows
    requires Ends(w.rows[r].table) ==> !AtOrUnder(target, w.rows[r].fileKey)
    ensures var rows, isDir := Move(w, src, target, overwrite, id).1.rows, IsDir(w.files.store, src);
            && r in rows && rows[r].fileKey == Renamed(src, target, isDir, w.rows[r].fileKey)
                && rows[r].table == w.rows[r].table
            && (!Hit(src, isDir, w.rows[r].fileKey) && !AtOrUnder(target, w.rows[r].fileKey) ==> rows[r] == w.rows[r])
  {
    var isDir := IsDir(w.files.store, src);
    if Under(src, target) { assert src + "/" <= target + "/"; }
    RekeyExactly(Cleared(w, target, id).rows, src, target, isDir);
  }

  /**
   * So after a move every row at or under the old key points to the moved object, with the content it pointed to
   * before.
   */
  lemma MoveKeepsRowsAndObjects(w: World, src: Key, target: Key, overwrite: bool, id: string, r: string)
    requires Movable(w, src, target, id) && Move(w, src, target, overwrite, id).0 == Done && !Under(target, src)
    requires r in w.rows && w.rows[r].fileKey in w.files.store && Hit(src, IsDir(w.files.store, src), w.rows[r].fileKey)
    ensures var out := Move(w, src, target, overwrite, id).1;
            && r in out.rows && out.rows[r].fileKey in out.files.store
            && out.files.store[out.rows[r].fileKey] == w.files.store[w.rows[r].fileKey]
  {
    var isDir := IsDir(w.files.store, src);
    if Under(src, target) { assert src + "/" <= target + "/"; }
    SourceApart(src, target, isDir, w.rows[r].fileKey);
    RowsFollow(w, src, target, overwrite, id, r);
    MoveDelivers(w, src, target, overwrite, id, w.rows[r].fileKey);
  }

  // ---- which outcome, and which rows end ----

  /** Something is stored at the key or in the folder of that name. */
  ghost predicate Stands(store: Store, k: Key) {
    k in store || exists j :: j in store && k + "/" <= j
  }

  /**
   * The outcomes: nothing there to move; already in place; a folder into itself; the name taken and not to be replaced;
   * a file that was binned with the folder it was to replace; otherwise done. The first four change nothing.
   */
  lemma OutcomeExactly(w: World, src: Key, target: Key, overwrite: bool, id: string)
    requires LiveFile(w.files.tenant, src) && LiveFile(w.files.tenant, target)
    ensures var store, (outcome, out) := w.files.store, Move(w, src, target, overwrite, id);
            var inside := src !in store && src + "/" <= target + "/";
            && (if !Stands(store, src) then outcome == Missing
                else if target == src then outcome == Unchanged
                else if inside then outcome == InsideItself
                else if Stands(store, target) && !overwrite then outcome == Taken
                else if src in store && target !in store && target + "/" <= src then outcome == Broken
                else outcome == Done)
            && (outcome != Done && outcome != Broken ==> out == w)
  {
    if src in w.files.store {
      LiveNotInTheBin(w.files.tenant, id, src);
      ClearedAt(w, target, id, src);
    }
  }

  /** The key is the destination or, when that is only a folder, lies in it. */
  predicate Replaced(store: Store, target: Key, k: Key) {
    k == target || (target !in store && target + "/" <= k)
  }

  /**
   * A row ends with the move exactly when it is a share, a request, a tag or an index entry of what is replaced; a
   * share link is revoked exactly when it is one of what is replaced, or was.
   */
  lemma RowsEndExactly(w: World, src: Key, target: Key, overwrite: bool, id: string, r: string)
    requires Move(w, src, target, overwrite, id).0 == Done && r in w.rows
    ensures var store, out, row := w.files.store, Move(w, src, target, overwrite, id).1.rows, w.rows[r];
            var replaced := Stands(store, target) && Replaced(store, target, row.fileKey);
            && (r !in out <==> replaced && row.table in {"QTT File Share", "QTT File Request", "QTT File Meta",
                                                         "QTT File Index"})
            && (r in out ==>
                  (out[r].revoked <==> row.revoked || (replaced && row.table == "QTT Share Link")))
  {
    var store := w.files.store;
    assert IsDir(store, target) ==> Stands(store, target);
    ClearedRow(w, target, id, r);
    RekeyedRow(Cleared(w, target, id).rows, src, target, IsDir(store, src), r);
  }

  lemma ClearedRow(w: World, target: Key, id: string, r: string)
    requires r in w.rows
    ensures var store, out, row := w.files.store, Cleared(w, target, id).rows, w.rows[r];
            var replaced := (target in store || IsDir(store, target)) && Hit(target, IsDir(store, target), row.fileKey);
            && (r !in out <==> replaced && Ends(row.table))
            && (r in out ==> (out[r].revoked <==> row.revoked || (replaced && row.table == "QTT Share Link")))
  {
  }

  lemma RekeyedRow(rows: Rows, src: Key, dst: Key, isDir: bool, r: string)
    ensures var out := Rekeyed(rows, src, dst, isDir);
            (r in out <==> r in rows) && (r in rows ==> out[r].revoked == rows[r].revoked)
  {
  }

  // ---- no file is replaced for good ----

  /**
   * The destination's name is both a file and a folder, and that folder has a file of the same name as the one moved.
   */
  ghost predicate NameShared(store: Store, src: Key, target: Key) {
    exists k :: k in FilesOf(store) && WrittenOver(store, src, target, k)
  }

  lemma PlacesFile(w: World, src: Key, target: Key, id: string, k: Key)
    requires Movable(w, src, target, id) && k in FilesOf(w.files.store)
    ensures !Marker(Place(w, src, target, id, k))
  {
    var kept := BinKey(w.files.tenant, id);
    BinKeysDiffer(w.files.tenant, id, id, kept);
    if Under(src, k) { FileMoved(src, target, k); }
    if Under(target, k) { FileMoved(target, kept, k); }
  }

  /** The files after a move are the places of the files before. */
  lemma FilesPlaced(w: World, src: Key, target: Key, overwrite: bool, id: string)
    requires Movable(w, src, target, id) && Move(w, src, target, overwrite, id).0 == Done && !Under(target, src)
    ensures FilesOf(Move(w, src, target, overwrite, id).1.files.store)
            == Image(FilesOf(w.files.store), k => Place(w, src, target, id, k))
  {
    var store, out := w.files.store, Move(w, src, target, overwrite, id).1.files.store;
    var place := k => Place(w, src, target, id, k);
    forall k | k in FilesOf(store)
      ensures place(k) in FilesOf(out)
    {
      MoveDelivers(w, src, target, overwrite, id, k);
      PlacesFile(w, src, target, id, k);
    }
    forall t | t in FilesOf(out)
      ensures t in Image(FilesOf(store), place)
    {
      var k := PlacedFrom(w, src, target, overwrite, id, t);
      assert place(k) == t;
    }
  }

  lemma OriginPlace(w: World, src: Key, target: Key, id: string, t: Key)
    requires src != target && Comes(w.files.store, src, target, IsDir(w.files.store, src), t) && !Marker(t)
    requires IsDir(w.files.store, src) || src in w.files.store
    requires Movable(w, src, target, id)
    ensures var k := Origin(src, target, IsDir(w.files.store, src), t);
            k in FilesOf(w.files.store) && Place(w, src, target, id, k) == t
  {
    if IsDir(w.files.store, src) {
      MovedBack(target, src, t);
      FileMoved(target, src, t);
    }
  }

  lemma StayedPlace(w: World, src: Key, target: Key, id: string, t: Key) returns (k: Key)
    requires Movable(w, src, target, id) && src != target && !Under(target, src)
    requires IsDir(w.files.store, src) ==> !(src + "/" <= target + "/")
    requires t in FilesOf(Cleared(w, target, id).files.store) && !Hit(src, IsDir(w.files.store, src), t)
    ensures k in FilesOf(w.files.store) && Place(w, src, target, id, k) == t
  {
    k := CameFrom(w, target, id, t);
    if Hit(src, IsDir(w.files.store, src), k) { SourceApart(src, target, IsDir(w.files.store, src), k); }
  }

  lemma PlacedFrom(w: World, src: Key, target: Key, overwrite: bool, id: string, t: Key) returns (k: Key)
    requires Movable(w, src, target, id) && Move(w, src, target, overwrite, id).0 == Done && !Under(target, src)
    requires t in FilesOf(Move(w, src, target, overwrite, id).1.files.store)
    ensures k in FilesOf(w.files.store) && Place(w, src, target, id, k) == t
  {
    MovedAt(w, src, target, overwrite, id, t);
    SameComes(w, src, target, id, t);
    if Comes(w.files.store, src, target, IsDir(w.files.store, src), t) {
      OriginPlace(w, src, target, id, t);
      k := Origin(src, target, IsDir(w.files.store, src), t);
    } else {
      k := StayedPlace(w, src, target, id, t);
    }
  }

  /** What lies somewhere after clearing lay there before, or is what was cleared. */
  lemma CameFrom(w: World, target: Key, id: string, t: Key) returns (k: Key)
    requires LiveFile(w.files.tenant, target) && Fresh(w.files, id) && t in FilesOf(Cleared(w, target, id).files.store)
    ensures k in FilesOf(w.files.store)
    ensures var isDir := IsDir(w.files.store, target);
            t == if Hit(target, isDir, k) then Renamed(target, BinKey(w.files.tenant, id), isDir, k) else k
  {
    var f, kept, isDir := w.files, BinKey(w.files.tenant, id), IsDir(w.files.store, target);
    if AtOrUnder(kept, t) {
      if isDir {
        CopiesAt(f.store, KeysUnder(f.store, target), target, kept);
        BinKeysDiffer(f.tenant, id, id, kept);
        k := Moved(kept, target, t);
        MovedBack(kept, target, t);
        FileMoved(kept, target, t);
      } else {
        k := target;
      }
    } else {
      ClearedAt(w, target, id, t);
      k := t;
    }
  }

  /** Two places are the same only where something is moved onto a file of the folder. */
  lemma PlacesMeet(w: World, src: Key, target: Key, id: string, k: Key, l: Key)
    requires Movable(w, src, target, id) && src != target && !Under(target, src)
    requires IsDir(w.files.store, src) ==> !(src + "/" <= target + "/")
    requires k in FilesOf(w.files.store) && l in FilesOf(w.files.store) && k != l
    requires Hit(src, IsDir(w.files.store, src), k) && Place(w, src, target, id, k) == Place(w, src, target, id, l)
    ensures WrittenOver(w.files.store, src, target, l)
  {
    var store, isDir := w.files.store, IsDir(w.files.store, src);
    if isDir { MovedBack(src, target, k); }
    if Hit(src, isDir, l) {
      if isDir { MovedBack(src, target, l); }
    } else if Hit(target, IsDir(store, target), l) {
      HitLive(w.files.tenant, target, true, Place(w, src, target, id, k));
      if Under(target, l) { MovedBack(target, BinKey(w.files.tenant, id), l); }
      HiddenNotLive(w.files.tenant, id, Place(w, src, target, id, l));
    } else {
      assert l != target;
      assert Under(target, l) && ExistsDir(store, target);
    }
  }

  lemma OthersDiffer(w: World, src: Key, target: Key, id: string, k: Key, l: Key)
    requires Movable(w, src, target, id) && k in w.files.store && l in w.files.store && k != l
    requires !Hit(src, IsDir(w.files.store, src), k) && !Hit(src, IsDir(w.files.store, src), l)
    ensures Place(w, src, target, id, k) != Place(w, src, target, id, l)
  {
    var kept := BinKey(w.files.tenant, id);
    NotInTheBin(w, id, k);
    NotInTheBin(w, id, l);
    if Under(target, k) { MovedBack(target, kept, k); }
    if Under(target, l) { MovedBack(target, kept, l); }
  }

  lemma MeetsOver(w: World, src: Key, target: Key, id: string, k: Key)
    requires Movable(w, src, target, id) && src != target && !Under(target, src)
    requires IsDir(w.files.store, src) ==> !(src + "/" <= target + "/")
    requires k in FilesOf(w.files.store) && WrittenOver(w.files.store, src, target, k)
    ensures var l := Moved(target, src, k);
            l in FilesOf(w.files.store) && l != k && Place(w, src, target, id, l) == k == Place(w, src, target, id, k)
  {
    MovedBack(target, src, k);
    FileMoved(target, src, k);
    if Hit(src, true, k) { SourceApart(src, target, true, k); }
    NotUnderItself(target);
  }

  /**
   * As many files are stored after a move as before, each in its place, exactly when the destination is not both a
   * file and a folder holding a name the moved folder has too. Otherwise that file's content is replaced and kept
   * nowhere: only the file of the destination's name goes to the bin.
   */
  lemma NothingReplacedExactly(w: World, src: Key, target: Key, overwrite: bool, id: string)
    requires Movable(w, src, target, id) && Move(w, src, target, overwrite, id).0 == Done && !Under(target, src)
    ensures |FilesOf(Move(w, src, target, overwrite, id).1.files.store)| == |FilesOf(w.files.store)|
       <==> !NameShared(w.files.store, src, target)
  {
    var files := FilesOf(w.files.store);
    var place := k => Place(w, src, target, id, k);
    FilesPlaced(w, src, target, overwrite, id);
    ImageSize(files, place);
    if k :| k in files && WrittenOver(w.files.store, src, target, k) {
      MeetsOver(w, src, target, id, k);
      assert place(k) == place(Moved(target, src, k));
    } else {
      forall k, l | k in files && l in files && place(k) == place(l)
        ensures k == l
      {
        if k != l {
          if Hit(src, IsDir(w.files.store, src), k) {
            PlacesMeet(w, src, target, id, k, l);
          } else if Hit(src, IsDir(w.files.store, src), l) {
            PlacesMeet(w, src, target, id, l, k);
          } else {
            OthersDiffer(w, src, target, id, k, l);
          }
        }
      }
    }
  }

  // ---- when the source lies under the destination ----

  /**
   * The guard looks only for a folder moved inside itself. Moving something over a folder it lies in bins it with
   * that folder before it is copied, and nothing arrives. A move past its guards delivers exactly when the source
   * does not lie under the destination (or the destination is a file too, and only that is binned).
   */
  lemma DeliversExactly(w: World, src: Key, target: Key, overwrite: bool, id: string, k: Key)
    requires Movable(w, src, target, id) && !Entangled(w.files.store, src, target)
    requires Move(w, src, target, overwrite, id).0 == Done || Move(w, src, target, overwrite, id).0 == Broken
    requires k in w.files.store && Hit(src, IsDir(w.files.store, src), k)
    ensures var out, to := Move(w, src, target, overwrite, id).1.files.store,
            Renamed(src, target, IsDir(w.files.store, src), k);
            (to in out && out[to] == w.files.store[k]) <==> !Under(target, src) || target in w.files.store
  {
    if Under(target, src) {
      SourceInTarget(w.files.store, src, target);
      if target in w.files.store {
        LiveNotInTheBin(w.files.tenant, id, src);
        ClearedAt(w, target, id, src);
      } else {
        NothingArrives(w, src, target, overwrite, id, k);
      }
    } else {
      SourceThere(w, src, target, id, src);
      MoveDelivers(w, src, target, overwrite, id, k);
      SourceApart(src, target, IsDir(w.files.store, src), k);
      if WrittenOver(w.files.store, src, target, k) { NotUnderItself(target); }
    }
  }

  lemma NothingArrives(w: World, src: Key, target: Key, overwrite: bool, id: string, k: Key)
    requires Movable(w, src, target, id) && Under(target, src) && target !in w.files.store
    requires Move(w, src, target, overwrite, id).0 == Done || Move(w, src, target, overwrite, id).0 == Broken
    requires k in w.files.store && Hit(src, IsDir(w.files.store, src), k)
    ensures Renamed(src, target, IsDir(w.files.store, src), k) !in Move(w, src, target, overwrite, id).1.files.store
  {
    var isDir := IsDir(w.files.store, src);
    var to := Renamed(src, target, isDir, k);
    SourceInTarget(w.files.store, src, target);
    ClearedAll(w, target, id);
    if isDir {
      NoneLeft(w, src, target, id);
      MovedBack(src, target, k);
    }
  }

  lemma NoneLeft(w: World, src: Key, target: Key, id: string)
    requires LiveFile(w.files.tenant, target) && IsDir(w.files.store, target) && Under(target, src)
    ensures KeysUnder(Cleared(w, target, id).files.store, src) == {}
  {
    ClearedAll(w, target, id);
    forall j | j in Cleared(w, target, id).files.store
      ensures !Under(src, j)
    {
      if Under(src, j) { UnderTwice(target, src, j); }
    }
  }

  lemma ClearedAll(w: World, target: Key, id: string)
    requires LiveFile(w.files.tenant, target) && IsDir(w.files.store, target)
    ensures forall j | j in Cleared(w, target, id).files.store :: !AtOrUnder(target, j)
  {
    forall j | j in Cleared(w, target, id).files.store
      ensures !AtOrUnder(target, j)
    {
      if AtOrUnder(target, j) {
        HitLive(w.files.tenant, target, true, j);
        LiveNotInTheBin(w.files.tenant, id, j);
        ClearedAt(w, target, id, j);
      }
    }
  }
}
