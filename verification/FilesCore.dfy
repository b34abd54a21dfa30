/**
 * Versions and the recycle bin (files_core.save, restore_version, to_bin, restore_bin) over the plain operations of
 * file_store.py. Random ids are parameters; that they are fresh is what a caller gets from drawing them at random.
 */
module FilesCore {
  import opened Text
  import opened Paths

  datatype Version = Version(fileKey: Key, storeKey: Key)

  datatype Binned = Binned(fileKey: Key, storeKey: Key, isDir: bool)

  /** The stored objects of one business with its version and recycle-bin rows, by row name. */
  datatype Files = Files(tenant: string, store: Store, versions: map<string, Version>, bin: map<string, Binned>)

  function VersionKey(tenant: string, id: string): Key { tenant + "/.versions/" + id }

  function BinKey(tenant: string, id: string): Key { tenant + "/.bin/" + id }

  /** A key in one of the business's spaces: below the business, in a folder whose name does not start with a dot. */
  predicate Live(tenant: string, k: Key) {
    |k| > |tenant| + 1 && tenant + "/" <= k && k[|tenant| + 1] != '.'
  }

  /** A live key that is no folder's marker. */
  predicate LiveFile(tenant: string, k: Key) { Live(tenant, k) && !Marker(k) }

  /** uuid4().hex */
  predicate IsId(n: string) { |n| == 32 && '/' !in n }

  /** An id nothing is stored under yet. */
  ghost predicate Fresh(f: Files, id: string) {
    && IsId(id) && id !in f.versions && id !in f.bin
    && VersionKey(f.tenant, id) !in f.store && BinKey(f.tenant, id) !in f.store
        && !ExistsDir(f.store, BinKey(f.tenant, id))
  }

  // ---- the operations ----

  /** files_core.save: what the file was is kept as a version. */
  function Saved(f: Files, key: Key, data: string, id: string): Files {
    if key in f.store then
      f.(store := f.store[VersionKey(f.tenant, id) := f.store[key]][key := data],
         versions := f.versions[id := Version(key, VersionKey(f.tenant, id))])
    else f.(store := f.store[key := data])
  }

  /** files_core.restore_version; None when the version is not kept any more. */
  function VersionRestored(f: Files, name: string, id: string): Option<Files> {
    if name !in f.versions || f.versions[name].storeKey !in f.store then None
    else Some(Saved(f, f.versions[name].fileKey, f.store[f.versions[name].storeKey], id))
  }

  /** file_store.copy_tree of a folder */
  function TreeCopied(store: Store, src: Key, dst: Key): Store {
    store + Copies(store, KeysUnder(store, src), src, dst)
  }

  /** files_core.to_bin; None when there is no such file. */
  function ToBin(f: Files, key: Key, isDir: bool, id: string): Option<Files> {
    var kept := BinKey(f.tenant, id);
    var row := f.bin[id := Binned(key, kept, isDir)];
    if isDir then
      Some(f.(store := TreeCopied(f.store, key, kept) - (KeysUnder(f.store, key) + {key + "/"}), bin := row))
    else if key !in f.store then None
    else Some(f.(store := f.store[kept := f.store[key]] - {key}, bin := row))
  }

  /** The position of the last dot of a key's last name; none when that name has no dot. */
  function LastDot(k: Key): (n: Option<nat>)
    ensures n.Some? ==> n.value < |k| && k[n.value] == '.'
  {
    if k == "" || k[|k| - 1] == '/' then None
    else if k[|k| - 1] == '.' then Some(|k| - 1)
    else LastDot(k[..|k| - 1])
  }

  /** The name beside a taken one: "… (restored)", before a file's extension. */
  function Beside(k: Key, isDir: bool): Key {
    var dot := if isDir then None else LastDot(k);
    if dot.Some? then k[..dot.value] + " (restored)." + k[dot.value + 1..] else k + " (restored)"
  }

  /** Where a bin row goes back to. */
  function Destination(f: Files, b: Binned): Key {
    if b.fileKey in f.store || ExistsDir(f.store, b.fileKey) then Beside(b.fileKey, b.isDir) else b.fileKey
  }

  /** files_core.restore_bin; None when the row or its file is gone. */
  function BinRestored(f: Files, name: string): Option<Files> {
    if name !in f.bin then None
    else
      var b := f.bin[name];
      var dest := Destination(f, b);
      if b.isDir then
        Some(f.(store := TreeCopied(f.store, b.storeKey, dest)[dest + "/" := ""] - KeysUnder(f.store, b.storeKey),
            bin := f.bin - {name}))
      else if b.storeKey !in f.store then None
      else Some(f.(store := f.store[dest := f.store[b.storeKey]] - {b.storeKey}, bin := f.bin - {name}))
  }

  // ---- what always holds ----

  ghost predicate VersionsKept(f: Files) {
    forall n | n in f.versions ::
      IsId(n) && f.versions[n].storeKey == VersionKey(f.tenant, n) && f.versions[n].storeKey in f.store
          && LiveFile(f.tenant, f.versions[n].fileKey)
  }

  /** A binned file is one object, a binned folder only what lies under its key. */
  ghost predicate BinKept(f: Files) {
    forall n | n in f.bin ::
      && IsId(n) && f.bin[n].storeKey == BinKey(f.tenant, n) && LiveFile(f.tenant, f.bin[n].fileKey)
      && (if f.bin[n].isDir then BinKey(f.tenant, n) !in f.store
          else BinKey(f.tenant, n) in f.store && !ExistsDir(f.store, BinKey(f.tenant, n)))
  }

  ghost predicate Inv(f: Files) { VersionsKept(f) && BinKept(f) }

  /** A key whose content can still be got at: live, kept as a version, or in the bin. */
  ghost predicate Reachable(f: Files, k: Key) {
    k in f.store && !Marker(k) &&
    (Live(f.tenant, k) || (exists n :: n in f.versions && k == VersionKey(f.tenant, n))
     || (exists n :: n in f.bin && InBin(f, n, k)))
  }

  ghost predicate InBin(f: Files, n: string, k: Key)
    requires n in f.bin
  {
    if f.bin[n].isDir then Under(BinKey(f.tenant, n), k) else k == BinKey(f.tenant, n)
  }

  ghost predicate Kept(f: Files, content: string) {
    exists k :: Reachable(f, k) && f.store[k] == content
  }

  lemma HiddenNotLive(tenant: string, id: string, k: Key)
    ensures k == VersionKey(tenant, id) || k == BinKey(tenant, id) || Under(BinKey(tenant, id), k) ==> !Live(tenant, k)
  {
    assert VersionKey(tenant, id)[|tenant| + 1] == '.' && BinKey(tenant, id)[|tenant| + 1] == '.';
    assert Under(BinKey(tenant, id), k) ==> k[|tenant| + 1] == (BinKey(tenant, id) + "/")[|tenant| + 1];
  }

  lemma VersionNotBin(tenant: string, m: string, n: string)
    ensures VersionKey(tenant, m) != BinKey(tenant, n) && !Under(BinKey(tenant, n), VersionKey(tenant, m))
  {
    assert VersionKey(tenant, m)[|tenant| + 2] == 'v' && BinKey(tenant, n)[|tenant| + 2] == 'b';
    assert (BinKey(tenant, n) + "/")[|tenant| + 2] == 'b';
  }

  lemma VersionKeysDiffer(tenant: string, m: string, n: string)
    requires IsId(m) && IsId(n)
    ensures VersionKey(tenant, m) == VersionKey(tenant, n) <==> m == n
    ensures !Marker(VersionKey(tenant, m))
  {
    assert VersionKey(tenant, m)[|tenant| + 11..] == m && VersionKey(tenant, n)[|tenant| + 11..] == n;
    assert m[31] in m;
  }

  lemma BinKeysDiffer(tenant: string, m: string, n: string, k: Key)
    requires IsId(m) && IsId(n)
    ensures (k == BinKey(tenant, m) || Under(BinKey(tenant, m), k))
         && (k == BinKey(tenant, n) || Under(BinKey(tenant, n), k))
         ==> m == n
    ensures !Marker(BinKey(tenant, m)) && !Under(BinKey(tenant, m), BinKey(tenant, m))
  {
    BinKeyPart(tenant, m, k);
    BinKeyPart(tenant, n, k);
    assert m[31] in m;
  }

  lemma BinKeyPart(tenant: string, m: string, k: Key)
    requires IsId(m)
    ensures k == BinKey(tenant, m) || Under(BinKey(tenant, m), k)
            ==> |k| >= |tenant| + 38 && k[|tenant| + 6..|tenant| + 38] == m
  {
    assert BinKey(tenant, m)[|tenant| + 6..|tenant| + 38] == m;
    if Under(BinKey(tenant, m), k) {
      assert k[..|tenant| + 39] == BinKey(tenant, m) + "/";
      assert k[|tenant| + 6..|tenant| + 38] == k[..|tenant| + 39][|tenant| + 6..|tenant| + 38];
    }
  }

  lemma UnderLive(tenant: string, key: Key, k: Key)
    requires Live(tenant, key) && Under(key, k)
    ensures Live(tenant, k)
  {
    assert k[..|key| + 1] == key + "/";
    assert k[..|tenant| + 1] == key[..|tenant| + 1];
  }

  // ---- every operation keeps every content ----

  /** What a save writes is neither another version nor in the bin. */
  lemma SaveApart(f: Files, key: Key, id: string, n: string)
    requires LiveFile(f.tenant, key)
    ensures VersionKey(f.tenant, n) != key && BinKey(f.tenant, n) != key && !Under(BinKey(f.tenant, n), key)
    ensures BinKey(f.tenant, n) != VersionKey(f.tenant, id) && !Under(BinKey(f.tenant, n), VersionKey(f.tenant, id))
  {
    HiddenNotLive(f.tenant, n, VersionKey(f.tenant, n));
    HiddenNotLive(f.tenant, n, BinKey(f.tenant, n));
    HiddenNotLive(f.tenant, n, key);
    VersionNotBin(f.tenant, id, n);
  }

  lemma SaveVersions(f: Files, key: Key, data: string, id: string)
    requires VersionsKept(f) && LiveFile(f.tenant, key) && Fresh(f, id)
    ensures VersionsKept(Saved(f, key, data, id))
  {
    forall n { SaveApart(f, key, id, n); }
  }

  lemma SaveBin(f: Files, key: Key, data: string, id: string)
    requires BinKept(f) && LiveFile(f.tenant, key) && Fresh(f, id)
    ensures BinKept(Saved(f, key, data, id))
  {
    var g := Saved(f, key, data, id);
    forall n { SaveApart(f, key, id, n); }
    assert forall n | n in f.bin && !f.bin[n].isDir
           && ExistsDir(g.store, BinKey(f.tenant, n)) :: ExistsDir(f.store, BinKey(f.tenant, n));
  }

  lemma SaveInv(f: Files, key: Key, data: string, id: string)
    requires Inv(f) && LiveFile(f.tenant, key) && Fresh(f, id)
    ensures Inv(Saved(f, key, data, id))
  {
    SaveVersions(f, key, data, id);
    SaveBin(f, key, data, id);
  }

  /** Where each reachable content is after a save. */
  lemma SaveKeeps(f: Files, key: Key, data: string, id: string, k: Key)
    requires Inv(f) && LiveFile(f.tenant, key) && Fresh(f, id) && Reachable(f, k)
    ensures var g := Saved(f, key, data, id);
            var to := if k == key then VersionKey(f.tenant, id) else k;
            Reachable(g, to) && g.store[to] == f.store[k]
  {
    var g := Saved(f, key, data, id);
    HiddenNotLive(f.tenant, id, key);
    VersionKeysDiffer(f.tenant, id, id);
    if k == key {
      assert id in g.versions;
    } else if n :| n in f.versions && k == VersionKey(f.tenant, n) {
      assert n in g.versions;
    } else if n :| n in f.bin && InBin(f, n, k) {
      assert n in g.bin && InBin(g, n, k);
    }
  }

  lemma BinFileApart(f: Files, key: Key, id: string, n: string)
    requires LiveFile(f.tenant, key) && IsId(id) && IsId(n)
    ensures VersionKey(f.tenant, n) != key && BinKey(f.tenant, n) != key
            && VersionKey(f.tenant, n) != BinKey(f.tenant, id)
    ensures n != id ==> BinKey(f.tenant, n) != BinKey(f.tenant, id)
    ensures !Under(BinKey(f.tenant, n), BinKey(f.tenant, id))
  {
    HiddenNotLive(f.tenant, n, key);
    VersionNotBin(f.tenant, n, id);
    BinKeysDiffer(f.tenant, n, id, BinKey(f.tenant, id));
    BinKeysDiffer(f.tenant, id, id, key);
  }

  lemma BinFileVersions(f: Files, key: Key, id: string)
    requires Inv(f) && LiveFile(f.tenant, key) && Fresh(f, id) && key in f.store
    ensures VersionsKept(ToBin(f, key, false, id).value)
  {
    forall n | IsId(n) { BinFileApart(f, key, id, n); }
  }

  lemma BinFileBin(f: Files, key: Key, id: string)
    requires Inv(f) && LiveFile(f.tenant, key) && Fresh(f, id) && key in f.store
    ensures BinKept(ToBin(f, key, false, id).value)
  {
    var g := ToBin(f, key, false, id).value;
    forall n | IsId(n) { BinFileApart(f, key, id, n); }
    assert forall n | n in f.bin && !f.bin[n].isDir
           && ExistsDir(g.store, BinKey(f.tenant, n)) :: ExistsDir(f.store, BinKey(f.tenant, n));
    assert ExistsDir(g.store, BinKey(f.tenant, id)) ==> ExistsDir(f.store, BinKey(f.tenant, id));
  }

  lemma BinFileInv(f: Files, key: Key, id: string)
    requires Inv(f) && LiveFile(f.tenant, key) && Fresh(f, id) && key in f.store
    ensures Inv(ToBin(f, key, false, id).value)
  {
    BinFileVersions(f, key, id);
    BinFileBin(f, key, id);
  }

  lemma BinFileKeeps(f: Files, key: Key, id: string, k: Key)
    requires Inv(f) && LiveFile(f.tenant, key) && Fresh(f, id) && key in f.store && Reachable(f, k)
    ensures var g := ToBin(f, key, false, id).value;
            var to := if k == key then BinKey(f.tenant, id) else k;
            Reachable(g, to) && g.store[to] == f.store[k]
  {
    var g := ToBin(f, key, false, id).value;
    HiddenNotLive(f.tenant, id, key);
    BinKeysDiffer(f.tenant, id, id, key);
    if k == key {
      assert id in g.bin && InBin(g, id, BinKey(f.tenant, id));
    } else if n :| n in f.versions && k == VersionKey(f.tenant, n) {
      assert n in g.versions;
    } else if n :| n in f.bin && InBin(f, n, k) {
      assert n in g.bin && InBin(g, n, k);
    }
  }

  /**
   * The store after binning a folder: its keys are gone, a copy of each lies under the bin key, the rest is as it
   * was.
   */
  lemma BinDirStore(f: Files, key: Key, id: string)
    requires Live(f.tenant, key) && Fresh(f, id)
    ensures var g := ToBin(f, key, true, id).value;
            var kept := BinKey(f.tenant, id);
            && (forall k | k in f.store && Under(key, k) ::
                  k !in g.store && Moved(key, kept, k) in g.store && g.store[Moved(key, kept, k)] == f.store[k])
            && (forall k | k in f.store && !Under(key, k) :: k in g.store && g.store[k] == f.store[k])
            && (forall k | k in g.store && !Under(kept, k) :: k in f.store && !Under(key, k))
            && (forall k | k in g.store && Under(kept, k) ::
                  Under(key, Moved(kept, key, k)) && Moved(kept, key, k) in f.store)
  {
    var kept := BinKey(f.tenant, id);
    var keys := KeysUnder(f.store, key);
    CopiesAt(f.store, keys, key, kept);
    UnderIs(key, key + "/", "");
    forall k | Under(kept, k)
      ensures !Under(key, k) && k !in f.store
    {
      HiddenNotLive(f.tenant, id, k);
      if Under(key, k) { UnderLive(f.tenant, key, k); }
    }
  }

  lemma BinDirInv(f: Files, key: Key, id: string)
    requires Inv(f) && LiveFile(f.tenant, key) && Fresh(f, id)
    ensures Inv(ToBin(f, key, true, id).value)
  {
    var g := ToBin(f, key, true, id).value;
    BinDirStore(f, key, id);
    forall n | IsId(n)
      ensures !Under(key, VersionKey(f.tenant, n)) && !Under(key, BinKey(f.tenant, n))
      ensures !Under(BinKey(f.tenant, id), BinKey(f.tenant, n))
    {
      HiddenAway(f.tenant, key, n);
      BinKeysDiffer(f.tenant, n, id, BinKey(f.tenant, n));
    }
    forall n | n in f.bin && !f.bin[n].isDir
      ensures !ExistsDir(g.store, BinKey(f.tenant, n))
    {
      forall k | k in g.store && Under(BinKey(f.tenant, n), k)
        ensures k in f.store
      {
        BinKeysDiffer(f.tenant, n, id, k);
      }
    }
  }

  /** Versions and the bin are not in any space's folder. */
  lemma HiddenAway(tenant: string, key: Key, n: string)
    requires Live(tenant, key)
    ensures !Under(key, VersionKey(tenant, n)) && !Under(key, BinKey(tenant, n))
  {
    HiddenNotLive(tenant, n, VersionKey(tenant, n));
    HiddenNotLive(tenant, n, BinKey(tenant, n));
    if Under(key, VersionKey(tenant, n)) { UnderLive(tenant, key, VersionKey(tenant, n)); }
    if Under(key, BinKey(tenant, n)) { UnderLive(tenant, key, BinKey(tenant, n)); }
  }

  /** What is reachable outside a binned folder still is. */
  lemma OutsideKept(f: Files, g: Files, id: string, row: Binned, k: Key)
    requires Reachable(f, k) && id !in f.bin && g.tenant == f.tenant && g.versions == f.versions
             && g.bin == f.bin[id := row]
    requires k in g.store && g.store[k] == f.store[k]
    ensures Reachable(g, k)
  {
    if n :| n in f.versions && k == VersionKey(f.tenant, n) {
      assert n in g.versions;
    } else if n :| n in f.bin && InBin(f, n, k) {
      assert n in g.bin && InBin(g, n, k);
    }
  }

  lemma InsideKept(f: Files, key: Key, id: string, k: Key)
    requires LiveFile(f.tenant, key) && Fresh(f, id) && Reachable(f, k) && Under(key, k)
    ensures var g, to := ToBin(f, key, true, id).value, Moved(key, BinKey(f.tenant, id), k);
            Reachable(g, to) && g.store[to] == f.store[k]
  {
    var g, to := ToBin(f, key, true, id).value, Moved(key, BinKey(f.tenant, id), k);
    BinDirStore(f, key, id);
    MovedBack(key, BinKey(f.tenant, id), k);
    assert k != key + "/" by {
      assert Marker(key + "/");
    }
    assert id in g.bin && InBin(g, id, to);
  }

  lemma BinDirKeeps(f: Files, key: Key, id: string, k: Key)
    requires Inv(f) && LiveFile(f.tenant, key) && Fresh(f, id) && Reachable(f, k)
    ensures var g := ToBin(f, key, true, id).value;
            var to := if Under(key, k) then Moved(key, BinKey(f.tenant, id), k) else k;
            Reachable(g, to) && g.store[to] == f.store[k]
  {
    if Under(key, k) {
      InsideKept(f, key, id, k);
    } else {
      BinDirStore(f, key, id);
      OutsideKept(f, ToBin(f, key, true, id).value, id, Binned(key, BinKey(f.tenant, id), true), k);
    }
  }

  // ---- restoring from the bin ----

  lemma {:induction false} LastDotAfter(k: Key, from: nat)
    requires from < |k| && k[from] == '/'
    ensures LastDot(k).Some? ==> LastDot(k).value > from
  {
    if k[|k| - 1] != '/' && k[|k| - 1] != '.' { LastDotAfter(k[..|k| - 1], from); }
  }

  /** The name beside a live one is live too. */
  lemma BesideLive(tenant: string, k: Key, isDir: bool)
    requires LiveFile(tenant, k)
    ensures LiveFile(tenant, Beside(k, isDir))
  {
    var dot := if isDir then None else LastDot(k);
    assert k[|tenant|] == (tenant + "/")[|tenant|];
    LastDotAfter(k, |tenant|);
    if dot.Some? {
      var b := Beside(k, isDir);
      assert k[..|tenant| + 1] == tenant + "/";
      assert b[..|tenant| + 1] == k[..|tenant| + 1] && b[|tenant| + 1] == k[|tenant| + 1];
      assert b[|b| - 1] == if dot.value == |k| - 1 then '.' else k[|k| - 1];
    }
  }

  lemma DestinationLive(f: Files, name: string)
    requires Inv(f) && name in f.bin
    ensures LiveFile(f.tenant, Destination(f, f.bin[name]))
  {
    BesideLive(f.tenant, f.bin[name].fileKey, f.bin[name].isDir);
  }

  /** What restoring overwrites, if anything, has the content it is overwritten with. */
  ghost predicate NothingInTheWay(f: Files, name: string)
    requires name in f.bin
  {
    var b := f.bin[name];
    var dest := Destination(f, b);
    if b.isDir then
      forall k | k in f.store && Under(b.storeKey, k) && !Marker(k) ::
        Moved(b.storeKey, dest, k) in f.store ==> f.store[Moved(b.storeKey, dest, k)] == f.store[k]
    else b.storeKey in f.store && dest in f.store ==> f.store[dest] == f.store[b.storeKey]
  }

  /** A file or folder of the bin item itself. */
  predicate OfItem(b: Binned, k: Key) {
    if b.isDir then Under(b.storeKey, k) else k == b.storeKey
  }

  /** What lies at a key after a folder is restored: the marker, an object of the folder, or what lay there. */
  lemma RestoreDirAt(f: Files, name: string, k: Key)
    requires Inv(f) && name in f.bin && f.bin[name].isDir
    ensures var g := BinRestored(f, name).value;
            var item, dest := f.bin[name].storeKey, Destination(f, f.bin[name]);
            var come := Under(dest, k) && Moved(dest, item, k) in f.store;
            && (k in g.store <==> k == dest + "/" || come || (k in f.store && !Under(item, k)))
            && (k in g.store ==> g.store[k] == if k == dest + "/" then "" else if come
                then f.store[Moved(dest, item, k)] else f.store[k])
  {
    var item, dest := f.bin[name].storeKey, Destination(f, f.bin[name]);
    var keys := KeysUnder(f.store, item);
    DestinationLive(f, name);
    CopiesAt(f.store, keys, item, dest);
    UnderIs(dest, dest + "/", "");
    HiddenNotLive(f.tenant, name, k);
    HiddenNotLive(f.tenant, name, dest + "/");
    UnderLive(f.tenant, dest, dest + "/");
    if Under(dest, k) {
      UnderLive(f.tenant, dest, k);
      MovedBack(dest, item, k);
      assert k in Copies(f.store, keys, item, dest) <==> Moved(dest, item, k) in f.store;
    }
  }

  lemma RestoreDirStore(f: Files, name: string)
    requires Inv(f) && name in f.bin && f.bin[name].isDir
    ensures var g := BinRestored(f, name).value;
            && (forall k | k in f.store && !OfItem(f.bin[name], k) :: k in g.store)
            && (forall k | k in g.store && !Under(Destination(f, f.bin[name]), k) ::
                  k in f.store && !OfItem(f.bin[name], k))
  {
    UnderIs(Destination(f, f.bin[name]), Destination(f, f.bin[name]) + "/", "");
    forall k { RestoreDirAt(f, name, k); }
  }

  lemma RestoreInv(f: Files, name: string)
    requires Inv(f) && name in f.bin && BinRestored(f, name).Some?
    ensures Inv(BinRestored(f, name).value)
  {
    var g := BinRestored(f, name).value;
    var b, dest := f.bin[name], Destination(f, f.bin[name]);
    DestinationLive(f, name);
    if b.isDir { RestoreDirStore(f, name); }
    forall n | IsId(n)
      ensures VersionKey(f.tenant, n) != BinKey(f.tenant, name)
              && !Under(BinKey(f.tenant, name), VersionKey(f.tenant, n))
      ensures n != name ==>
                BinKey(f.tenant, n) != BinKey(f.tenant, name) && !Under(BinKey(f.tenant, name), BinKey(f.tenant, n))
      ensures dest != BinKey(f.tenant, n) && !Under(BinKey(f.tenant, n), dest) && !Under(dest, BinKey(f.tenant, n))
              && dest != VersionKey(f.tenant, n)
    {
      VersionNotBin(f.tenant, n, name);
      BinKeysDiffer(f.tenant, n, name, BinKey(f.tenant, n));
      HiddenNotLive(f.tenant, n, dest);
      HiddenAway(f.tenant, dest, n);
    }
    RestoreInvBin(f, name);
  }

  lemma RestoreInvBin(f: Files, name: string)
    requires Inv(f) && name in f.bin && BinRestored(f, name).Some?
    ensures BinKept(BinRestored(f, name).value)
  {
    var g := BinRestored(f, name).value;
    var b, dest := f.bin[name], Destination(f, f.bin[name]);
    DestinationLive(f, name);
    if b.isDir { RestoreDirStore(f, name); }
    forall n | n in g.bin
      ensures BinKey(f.tenant, n) in g.store <==> BinKey(f.tenant, n) in f.store
      ensures !f.bin[n].isDir ==> !ExistsDir(g.store, BinKey(f.tenant, n))
    {
      HiddenNotLive(f.tenant, n, dest);
      HiddenAway(f.tenant, dest, n);
      BinKeysDiffer(f.tenant, n, name, BinKey(f.tenant, n));
      forall k | k in g.store && Under(BinKey(f.tenant, n), k)
        ensures k in f.store
      {
        HiddenNotLive(f.tenant, n, k);
        if Under(dest, k) { UnderLive(f.tenant, dest, k); }
      }
    }
  }

  /** Where each reachable content is after a restore. */
  lemma RestoreKeeps(f: Files, name: string, k: Key)
    requires Inv(f) && name in f.bin && BinRestored(f, name).Some? && NothingInTheWay(f, name) && Reachable(f, k)
    ensures var g, b := BinRestored(f, name).value, f.bin[name];
            var to := if !OfItem(b, k) then k else if b.isDir then Moved(b.storeKey, Destination(f, b), k)
                else Destination(f, b);
            Reachable(g, to) && g.store[to] == f.store[k]
  {
    var g, b := BinRestored(f, name).value, f.bin[name];
    var dest := Destination(f, b);
    DestinationLive(f, name);
    if OfItem(b, k) {
      if b.isDir { RestoredIsLive(f, name, k); }
    } else {
      if b.isDir { UntouchedByDir(f, name, k); }
      if n :| n in f.bin && InBin(f, n, k) {
        assert n in g.bin && InBin(g, n, k);
      }
    }
  }

  lemma RestoredIsLive(f: Files, name: string, k: Key)
    requires Inv(f) && name in f.bin && f.bin[name].isDir && k in f.store && Under(f.bin[name].storeKey, k)
             && !Marker(k)
    ensures var g, to := BinRestored(f, name).value, Moved(f.bin[name].storeKey, Destination(f, f.bin[name]), k);
            LiveFile(f.tenant, to) && to in g.store && g.store[to] == f.store[k]
  {
    var item, dest := f.bin[name].storeKey, Destination(f, f.bin[name]);
    var to := Moved(item, dest, k);
    DestinationLive(f, name);
    MovedBack(item, dest, k);
    UnderLive(f.tenant, dest, to);
    assert k != item + "/" by { assert Marker(item + "/"); }
    RestoreDirAt(f, name, to);
  }

  lemma UntouchedByDir(f: Files, name: string, k: Key)
    requires Inv(f) && name in f.bin && f.bin[name].isDir && NothingInTheWay(f, name)
    requires k in f.store && !Under(f.bin[name].storeKey, k) && !Marker(k)
    ensures k in BinRestored(f, name).value.store && BinRestored(f, name).value.store[k] == f.store[k]
  {
    var item, dest := f.bin[name].storeKey, Destination(f, f.bin[name]);
    RestoreDirAt(f, name, k);
    assert k != dest + "/" by { assert Marker(dest + "/"); }
    if Under(dest, k) {
      MovedBack(dest, item, k);
      assert Moved(dest, item, k) in f.store ==> !Marker(Moved(dest, item, k));
    }
  }

  // ---- over every run ----

  datatype Event =
    | Save(key: Key, data: string, id: string) | RestoreVersion(name: string, id: string)
    | Bin(key: Key, isDir: bool, id: string) | Unbin(name: string)

  ghost predicate Possible(f: Files, e: Event) {
    match e
    case Save(key, _, id) => LiveFile(f.tenant, key) && Fresh(f, id)
    case RestoreVersion(_, id) => Fresh(f, id)
    case Bin(key, _, id) => LiveFile(f.tenant, key) && Fresh(f, id)
    case Unbin(name) => name in f.bin ==> NothingInTheWay(f, name)
  }

  /** An operation that fails leaves everything as it was. */
  function Step(f: Files, e: Event): Files {
    var out := match e
      case Save(key, data, id) => Some(Saved(f, key, data, id))
      case RestoreVersion(name, id) => VersionRestored(f, name, id)
      case Bin(key, isDir, id) => ToBin(f, key, isDir, id)
      case Unbin(name) => BinRestored(f, name);
    if out.None? then f else out.value
  }

  lemma SaveKept(f: Files, key: Key, data: string, id: string)
    requires Inv(f) && LiveFile(f.tenant, key) && Fresh(f, id)
    ensures Inv(Saved(f, key, data, id)) && forall c | Kept(f, c) :: Kept(Saved(f, key, data, id), c)
  {
    SaveInv(f, key, data, id);
    forall c | Kept(f, c)
      ensures Kept(Saved(f, key, data, id), c)
    {
      var k :| Reachable(f, k) && f.store[k] == c;
      SaveKeeps(f, key, data, id, k);
    }
  }

  lemma BinKeptAll(f: Files, key: Key, isDir: bool, id: string)
    requires Inv(f) && LiveFile(f.tenant, key) && Fresh(f, id) && ToBin(f, key, isDir, id).Some?
    ensures var g := ToBin(f, key, isDir, id).value; Inv(g) && forall c | Kept(f, c) :: Kept(g, c)
  {
    if isDir { BinDirInv(f, key, id); } else { BinFileInv(f, key, id); }
    forall c | Kept(f, c)
      ensures Kept(ToBin(f, key, isDir, id).value, c)
    {
      var k :| Reachable(f, k) && f.store[k] == c;
      if isDir { BinDirKeeps(f, key, id, k); } else { BinFileKeeps(f, key, id, k); }
    }
  }

  lemma UnbinKept(f: Files, name: string)
    requires Inv(f) && name in f.bin && BinRestored(f, name).Some? && NothingInTheWay(f, name)
    ensures var g := BinRestored(f, name).value; Inv(g) && forall c | Kept(f, c) :: Kept(g, c)
  {
    RestoreInv(f, name);
    forall c | Kept(f, c)
      ensures Kept(BinRestored(f, name).value, c)
    {
      var k :| Reachable(f, k) && f.store[k] == c;
      RestoreKeeps(f, name, k);
    }
  }

  lemma StepKeeps(f: Files, e: Event)
    requires Inv(f) && Possible(f, e)
    ensures Inv(Step(f, e)) && forall c | Kept(f, c) :: Kept(Step(f, e), c)
  {
    match e
    case Save(key, data, id) => SaveKept(f, key, data, id);
    case RestoreVersion(name, id) =>
      if name in f.versions { SaveKept(f, f.versions[name].fileKey, f.store[f.versions[name].storeKey], id); }
    case Bin(key, isDir, id) => if ToBin(f, key, isDir, id).Some? { BinKeptAll(f, key, isDir, id); }
    case Unbin(name) => if BinRestored(f, name).Some? { UnbinKept(f, name); }
  }

  ghost predicate Run(start: Files, events: seq<Event>, end: Files)
    decreases |events|
  {
    if events == [] then start == end
    else Possible(start, events[0]) && Run(Step(start, events[0]), events[1..], end)
  }

  /**
   * No content is lost: whatever was live, kept as a version or in the bin at some moment still is at every later
   * one.
   */
  lemma {:induction false} NothingLost(start: Files, events: seq<Event>, end: Files)
    requires Inv(start) && Run(start, events, end)
    ensures Inv(end) && forall c | Kept(start, c) :: Kept(end, c)
    decreases |events|
  {
    if events != [] {
      StepKeeps(start, events[0]);
      NothingLost(Step(start, events[0]), events[1..], end);
    }
  }

  // ---- restoring, exactly ----

  /** Restoring leaves every other object as it was exactly when nothing is in its way. */
  lemma RestoreTouchesNothingExactly(f: Files, name: string)
    requires Inv(f) && name in f.bin && BinRestored(f, name).Some?
    ensures var g := BinRestored(f, name).value;
            (forall k | k in f.store && !OfItem(f.bin[name], k) && !Marker(k) ::
               k in g.store && g.store[k] == f.store[k])
            <==> NothingInTheWay(f, name)
  {
    var g, b, dest := BinRestored(f, name).value, f.bin[name], Destination(f, f.bin[name]);
    DestinationLive(f, name);
    HiddenNotLive(f.tenant, name, dest);
    if b.isDir {
      if NothingInTheWay(f, name) {
        forall k | k in f.store && !OfItem(b, k) && !Marker(k) { UntouchedByDir(f, name, k); }
      }
      forall k | k in f.store && Under(b.storeKey, k) && !Marker(k) && Moved(b.storeKey, dest, k) in f.store
        ensures var t := Moved(b.storeKey, dest, k);
                !OfItem(b, t) && !Marker(t) && t in g.store && g.store[t] == f.store[k]
      {
        RestoredIsLive(f, name, k);
        HiddenNotLive(f.tenant, name, Moved(b.storeKey, dest, k));
      }
    }
  }

  // ---- the name beside ----

  lemma {:induction false} LastDotIs(a: string, b: string)
    requires '.' !in b && '/' !in b
    ensures LastDot(a + "." + b) == Some(|a|)
    ensures LastDot(a + "/" + b) == None
  {
    var s, t := a + "." + b, a + "/" + b;
    if b != "" {
      var n := |b| - 1;
      assert b[n] in b;
      LastDotIs(a, b[..n]);
      assert s[..|s| - 1] == a + "." + b[..n] && t[..|t| - 1] == a + "/" + b[..n];
    }
  }

  /**
   * The name beside: " (restored)" before the extension, which begins at the last dot of a file's name; at the end of
   * a name without a dot, and of a folder's name always.
   */
  lemma BesideExactly(folder: Key, stem: string, ext: string, name: string)
    requires '.' !in ext && '/' !in ext && '.' !in name && '/' !in name
    ensures var k := folder + "/" + stem + "." + ext; Beside(k, false) == folder + "/" + stem + " (restored)." + ext
    ensures Beside(folder + "/" + name, false) == folder + "/" + name + " (restored)"
    ensures Beside(folder, true) == folder + " (restored)"
  {
    var k := folder + "/" + stem + "." + ext;
    LastDotIs(folder + "/" + stem, ext);
    LastDotIs(folder, name);
    assert k[..|folder + "/" + stem|] == folder + "/" + stem && k[|folder + "/" + stem| + 1..] == ext;
  }

  // ---- exactly when restoring replaces no file ----

  /** Both the item's name and the name beside it are taken: for a folder, a file of it has a namesake there. */
  predicate NameTaken(f: Files, name: string)
    requires name in f.bin
  {
    var b := f.bin[name];
    var beside := Beside(b.fileKey, b.isDir);
    && (b.fileKey in f.store || ExistsDir(f.store, b.fileKey))
    && if b.isDir then
         exists k :: k in FilesOf(f.store) && Under(b.storeKey, k) && Moved(b.storeKey, beside, k) in f.store
       else beside in f.store
  }

  /** Where the object at a key is after a restore. */
  function RestoredTo(f: Files, name: string, k: Key): Key
    requires name in f.bin
  {
    var b := f.bin[name];
    if !OfItem(b, k) then k else if b.isDir then Moved(b.storeKey, Destination(f, b), k) else Destination(f, b)
  }

  lemma FileMoved(src: Key, dst: Key, k: Key)
    requires Under(src, k) && !Marker(k)
    ensures !Marker(Moved(src, dst, k))
  {
    MovedBack(src, dst, k);
    assert k != src + "/" by { assert Marker(src + "/"); }
  }

  lemma RestoredFolderFiles(f: Files, name: string, t: Key)
    requires Inv(f) && name in f.bin && f.bin[name].isDir && !Marker(t)
    ensures t in BinRestored(f, name).value.store <==> exists k :: k in FilesOf(f.store) && RestoredTo(f, name, k) == t
  {
    var item, dest := f.bin[name].storeKey, Destination(f, f.bin[name]);
    RestoreDirAt(f, name, t);
    assert t != dest + "/" by { assert Marker(dest + "/"); }
    if Under(dest, t) && Moved(dest, item, t) in f.store {
      var k := Moved(dest, item, t);
      MovedBack(dest, item, t);
      FileMoved(dest, item, t);
      assert k in FilesOf(f.store) && RestoredTo(f, name, k) == t;
    } else if t in f.store && !Under(item, t) {
      assert t in FilesOf(f.store) && RestoredTo(f, name, t) == t;
    }
    forall k | k in FilesOf(f.store) && RestoredTo(f, name, k) == t && Under(item, k)
      ensures Under(dest, t) && Moved(dest, item, t) == k
    {
      MovedBack(item, dest, k);
    }
  }

  lemma RestoredOneFile(f: Files, name: string, t: Key)
    requires Inv(f) && name in f.bin && !f.bin[name].isDir && !Marker(t)
    ensures t in BinRestored(f, name).value.store <==> exists k :: k in FilesOf(f.store) && RestoredTo(f, name, k) == t
  {
    var item, dest := f.bin[name].storeKey, Destination(f, f.bin[name]);
    DestinationLive(f, name);
    HiddenNotLive(f.tenant, name, dest);
    BinKeysDiffer(f.tenant, name, name, item);
    assert item in FilesOf(f.store) && RestoredTo(f, name, item) == dest;
    assert t in f.store && t != item ==> t in FilesOf(f.store) && RestoredTo(f, name, t) == t;
  }

  lemma RestoredFiles(f: Files, name: string)
    requires Inv(f) && name in f.bin && BinRestored(f, name).Some?
    ensures FilesOf(BinRestored(f, name).value.store)
            == Image(FilesOf(f.store), k => if name in f.bin then RestoredTo(f, name, k) else k)
  {
    DestinationLive(f, name);
    forall k | k in FilesOf(f.store)
      ensures !Marker(RestoredTo(f, name, k))
    {
      if f.bin[name].isDir
          && Under(f.bin[name].storeKey, k) { FileMoved(f.bin[name].storeKey, Destination(f, f.bin[name]), k); }
    }
    forall t | !Marker(t)
      ensures t in BinRestored(f, name).value.store
              <==> exists k :: k in FilesOf(f.store) && RestoredTo(f, name, k) == t
    {
      if f.bin[name].isDir { RestoredFolderFiles(f, name, t); } else { RestoredOneFile(f, name, t); }
    }
  }

  /** Two files come to lie on each other only where both names are taken. */
  lemma RestoredMeet(f: Files, name: string, k: Key, l: Key)
    requires Inv(f) && name in f.bin && k in FilesOf(f.store) && l in FilesOf(f.store) && k != l
    requires OfItem(f.bin[name], k) && RestoredTo(f, name, k) == RestoredTo(f, name, l)
    ensures NameTaken(f, name)
  {
    var b, dest := f.bin[name], Destination(f, f.bin[name]);
    if b.isDir {
      MovedBack(b.storeKey, dest, k);
      if Under(b.storeKey, l) { MovedBack(b.storeKey, dest, l); }
    }
  }

  lemma TakenMeets(f: Files, name: string) returns (k: Key, l: Key)
    requires Inv(f) && name in f.bin && NameTaken(f, name) && BinRestored(f, name).Some?
    ensures k in FilesOf(f.store) && l in FilesOf(f.store) && k != l && RestoredTo(f, name, k) == RestoredTo(f, name, l)
  {
    var b, dest := f.bin[name], Destination(f, f.bin[name]);
    DestinationLive(f, name);
    if b.isDir {
      k :| k in FilesOf(f.store) && Under(b.storeKey, k) && Moved(b.storeKey, dest, k) in f.store;
      l := Moved(b.storeKey, dest, k);
      FileMoved(b.storeKey, dest, k);
      MovedBack(b.storeKey, dest, k);
      UnderLive(f.tenant, dest, l);
      HiddenNotLive(f.tenant, name, l);
      HiddenNotLive(f.tenant, name, k);
    } else {
      k, l := b.storeKey, dest;
      BinKeysDiffer(f.tenant, name, name, k);
      HiddenNotLive(f.tenant, name, l);
    }
  }

  /**
   * As many files are stored after a restore as before, each with its content in its place, exactly when the name is
   * free or the one beside it is (for a folder: holds none of its files' names). The code looks at the first name
   * only.
   */
  lemma RestoreReplacesExactly(f: Files, name: string)
    requires Inv(f) && name in f.bin && BinRestored(f, name).Some?
    ensures |FilesOf(BinRestored(f, name).value.store)| == |FilesOf(f.store)| <==> !NameTaken(f, name)
  {
    var files := FilesOf(f.store);
    var to := k => if name in f.bin then RestoredTo(f, name, k) else k;
    RestoredFiles(f, name);
    ImageSize(files, to);
    if NameTaken(f, name) {
      var k, l := TakenMeets(f, name);
      assert to(k) == to(l);
    } else {
      forall k, l | k in files && l in files && to(k) == to(l)
        ensures k == l
      {
        if k != l && OfItem(f.bin[name], k) {
          RestoredMeet(f, name, k, l);
        } else if k != l && OfItem(f.bin[name], l) {
          RestoredMeet(f, name, l, k);
        }
      }
    }
  }

  /** A restore whose name, or the name beside it, is free has nothing in its way. */
  lemma FreeNameSuffices(f: Files, name: string)
    requires Inv(f) && name in f.bin && BinRestored(f, name).Some? && !NameTaken(f, name)
    ensures NothingInTheWay(f, name)
  {
    var b, dest := f.bin[name], Destination(f, f.bin[name]);
    DestinationLive(f, name);
    if b.isDir {
      forall k | k in f.store && Under(b.storeKey, k) && !Marker(k)
        ensures Moved(b.storeKey, dest, k) !in f.store
      {
        MovedBack(b.storeKey, dest, k);
      }
    }
  }

  /** So it loses no content. */
  lemma FreeRestoreKeeps(f: Files, name: string)
    requires Inv(f) && name in f.bin && BinRestored(f, name).Some? && !NameTaken(f, name)
    ensures var g := BinRestored(f, name).value; Inv(g) && forall c | Kept(f, c) :: Kept(g, c)
  {
    FreeNameSuffices(f, name);
    UnbinKept(f, name);
  }

  /** A business with one file in the bin, its name taken, and the name beside it taken too. */
  function Crowded(id: string): Files {
    Files("t", map["t/s/a" := "new", "t/s/a (restored)" := "other", BinKey("t", id) := "old"], map[],
          map[id := Binned("t/s/a", BinKey("t", id), false)])
  }

  lemma BesidePlain()
    ensures Beside("t/s/a", false) == "t/s/a (restored)"
  {
    assert "t/s/a"[..4] == "t/s/";
    assert LastDot("t/s/") == None;
    assert LastDot("t/s/a") == None;
  }

  lemma CrowdedInv(id: string)
    requires IsId(id)
    ensures Inv(Crowded(id)) && Destination(Crowded(id), Crowded(id).bin[id]) == "t/s/a (restored)"
    ensures BinKey("t", id) != "t/s/a" && BinKey("t", id) != "t/s/a (restored)"
  {
    BesidePlain();
    assert LiveFile("t", "t/s/a") && LiveFile("t", "t/s/a (restored)");
    HiddenNotLive("t", id, "t/s/a");
    HiddenNotLive("t", id, "t/s/a (restored)");
    BinKeysDiffer("t", id, id, BinKey("t", id));
  }

  /** The "(restored)" name is not looked at again: when it is taken too, what had it is overwritten and lost. */
  lemma RestoredNameTaken(id: string)
    requires IsId(id)
    ensures var f := Crowded(id);
            Inv(f) && BinRestored(f, id).Some? && Kept(f, "other") && !Kept(BinRestored(f, id).value, "other")
  {
    CrowdedInv(id);
    var f, r := Crowded(id), "t/s/a (restored)";
    assert LiveFile("t", r);
    assert Reachable(f, r) && f.store[r] == "other";
    var g := BinRestored(f, id).value;
    assert g.store == f.store[r := "old"] - {BinKey("t", id)};
    assert forall k | k in g.store :: g.store[k] != "other";
  }

  lemma FolderDestination(f: Files, key: Key, id: string)
    requires Inv(f) && LiveFile(f.tenant, key) && Fresh(f, id) && key !in f.store
    ensures var g := ToBin(f, key, true, id).value; Destination(g, g.bin[id]) == key
  {
    var g := ToBin(f, key, true, id).value;
    forall k | k in g.store
      ensures !Under(key, k) && k != key
    {
      DirBackAt(f, key, id, k);
      HiddenNotLive(f.tenant, id, k);
      if Under(key, k) { UnderLive(f.tenant, key, k); }
    }
  }

  lemma FileDestination(f: Files, key: Key, id: string)
    requires Inv(f) && LiveFile(f.tenant, key) && Fresh(f, id) && key in f.store && !ExistsDir(f.store, key)
    ensures var g := ToBin(f, key, false, id).value; Destination(g, g.bin[id]) == key
  {
    HiddenAway(f.tenant, key, id);
    HiddenNotLive(f.tenant, id, key);
  }

  /** A file taken from the bin again is where and what it was. */
  lemma BinThenRestoreFile(f: Files, key: Key, id: string)
    requires Inv(f) && LiveFile(f.tenant, key) && Fresh(f, id) && key in f.store && !ExistsDir(f.store, key)
    ensures BinRestored(ToBin(f, key, false, id).value, id) == Some(f)
  {
    FileDestination(f, key, id);
    HiddenNotLive(f.tenant, id, key);
    assert ToBin(f, key, false, id).value.bin - {id} == f.bin;
    assert BinRestored(ToBin(f, key, false, id).value, id).value.store == f.store;
  }

  /** So is a folder, everything in it; it has its marker then. */
  lemma BinThenRestoreFolder(f: Files, key: Key, id: string)
    requires Inv(f) && LiveFile(f.tenant, key) && Fresh(f, id) && key !in f.store
    ensures BinRestored(ToBin(f, key, true, id).value, id) == Some(f.(store := f.store[key + "/" := ""]))
  {
    var g := ToBin(f, key, true, id).value;
    BinDirInv(f, key, id);
    FolderDestination(f, key, id);
    forall k
      ensures k in BinRestored(g, id).value.store <==> k in f.store[key + "/" := ""]
      ensures k in f.store[key + "/" := ""] ==> BinRestored(g, id).value.store[k] == f.store[key + "/" := ""][k]
    {
      FolderBackAt(f, key, id, k);
    }
    SameStore(BinRestored(g, id).value.store, f.store[key + "/" := ""]);
    FolderShape(f, key, id);
  }

  lemma SameStore(a: Store, b: Store)
    requires forall k :: k in a <==> k in b
    requires forall k | k in b :: a[k] == b[k]
    ensures a == b
  {
  }

  lemma RowBack(bin: map<string, Binned>, id: string, row: Binned)
    requires id !in bin
    ensures bin[id := row] - {id} == bin
  {
  }

  lemma FolderShape(f: Files, key: Key, id: string)
    requires Inv(f) && Fresh(f, id)
    ensures var h := BinRestored(ToBin(f, key, true, id).value, id); h.Some? && h.value == f.(store := h.value.store)
  {
    RowBack(f.bin, id, Binned(key, BinKey(f.tenant, id), true));
  }

  lemma FolderBackAt(f: Files, key: Key, id: string, k: Key)
    requires Inv(f) && LiveFile(f.tenant, key) && Fresh(f, id) && key !in f.store
    requires var g := ToBin(f, key, true, id).value; Inv(g) && Destination(g, g.bin[id]) == key
    ensures var h := BinRestored(ToBin(f, key, true, id).value, id).value;
            && (k in h.store <==> k in f.store || k == key + "/")
            && (k in h.store ==> h.store[k] == if k == key + "/" then "" else f.store[k])
  {
    RestoreDirAt(ToBin(f, key, true, id).value, id, k);
    DirBackAt(f, key, id, k);
    UnderIs(key, key + "/", "");
  }

  /** Where a binned folder's objects are, key by key. */
  lemma DirBackAt(f: Files, key: Key, id: string, k: Key)
    requires Inv(f) && LiveFile(f.tenant, key) && Fresh(f, id)
    ensures var g := ToBin(f, key, true, id).value;
            var kept := BinKey(f.tenant, id);
            if Under(key, k) then
              (Moved(key, kept, k) in g.store <==> k in f.store)
                  && (k in f.store ==> g.store[Moved(key, kept, k)] == f.store[k]) && k !in g.store
            else if Under(kept, k) then k !in f.store && k != key + "/"
            else (k in g.store <==> k in f.store) && (k in f.store ==> g.store[k] == f.store[k]) && k != key + "/"
  {
    var kept := BinKey(f.tenant, id);
    BinDirStore(f, key, id);
    UnderIs(key, key + "/", "");
    HiddenNotLive(f.tenant, id, k);
    if Under(key, k) {
      MovedBack(key, kept, k);
      UnderLive(f.tenant, key, k);
    }
  }
}
