/** The calls of file_store.py and files_core.py that change the stored objects, step by step as they are made. */
module FilesEngine {
  import opened Text
  import opened Paths
  import opened FilesCore

  class Engine {
    const tenant: string
    var store: Store
    var versions: map<string, Version>
    var bin: map<string, Binned>

    constructor (tenant: string)
      ensures State() == Files(tenant, map[], map[], map[]) && Inv(State())
    {
      this.tenant := tenant;
      store, versions, bin := map[], map[], map[];
    }

    ghost function State(): Files
      reads this
    {
      Files(tenant, store, versions, bin)
    }

    /** file_store.copy */
    method Copy(src: Key, dst: Key) returns (ok: bool)
      modifies `store
      ensures ok == (src in old(store)) && store == if ok then old(store)[dst := old(store)[src]] else old(store)
    {
      if src !in store {
        return false;
      }
      store := store[dst := store[src]];
      return true;
    }

    /** file_store.remove */
    method Remove(keys: set<Key>)
      modifies `store
      ensures store == old(store) - keys
    {
      store := store - keys;
    }

    /** file_store.mkdir */
    method Mkdir(folder: Key)
      modifies `store
      ensures store == old(store)[folder + "/" := ""]
    {
      store := store[folder + "/" := ""];
    }

    /**
     * file_store.copy_tree of a folder: the keys listed first, then copied one by one in that order. When no copy lands
     * in the folder itself the order does not matter.
     */
    method CopyTree(src: Key, dst: Key) returns (objs: set<Key>)
      modifies `store
      ensures objs == KeysUnder(old(store), src) && store == CopiedInOrder(old(store), objs, src, dst)
      ensures Apart(old(store), src, dst) ==> store == TreeCopied(old(store), src, dst)
    {
      objs := KeysUnder(store, src);
      var todo := objs;
      while todo != {}
        invariant todo <= objs
        invariant CopiedInOrder(store, todo, src, dst) == CopiedInOrder(old(store), objs, src, dst)
        decreases todo
      {
        SomeFirst(todo);
        var k :| k in todo && FirstOf(todo, k);
        CopiedFirst(store, todo, k, src, dst);
        todo := todo - {k};
        var ok := Copy(k, Moved(src, dst, k));
      }
      if Apart(old(store), src, dst) { OrderDoesNotMatter(old(store), src, dst); }
    }

    /** files_core.save */
    method Save(key: Key, data: string, id: string)
      modifies this
      ensures State() == Saved(old(State()), key, data, id)
    {
      if key in store {
        var kept := VersionKey(tenant, id);
        var ok := Copy(key, kept);
        versions := versions[id := Version(key, kept)];
      }
      store := store[key := data];
    }

    /** files_core.restore_version */
    method RestoreVersion(name: string, id: string) returns (ok: bool)
      modifies this
      ensures var out := VersionRestored(old(State()), name, id);
              ok == out.Some? && State() == if ok then out.value else old(State())
    {
      if name !in versions || versions[name].storeKey !in store {
        return false;
      }
      Save(versions[name].fileKey, store[versions[name].storeKey], id);
      return true;
    }

    /** files_core.to_bin */
    method MoveToBin(key: Key, isDir: bool, id: string) returns (ok: bool)
      requires LiveFile(tenant, key)
      modifies this
      ensures var out := ToBin(old(State()), key, isDir, id);
              ok == out.Some? && State() == if ok then out.value else old(State())
    {
      var kept := BinKey(tenant, id);
      if isDir {
        BinApart(tenant, key, id);
        var objs := CopyTree(key, kept);
        Remove(objs + {key + "/"});
      } else {
        ok := Copy(key, kept);
        if !ok {
          return;
        }
        Remove({key});
      }
      bin := bin[id := Binned(key, kept, isDir)];
      return true;
    }

    /** files_core.restore_bin */
    method RestoreBin(name: string) returns (ok: bool)
      requires Inv(State())
      modifies this
      ensures var out := BinRestored(old(State()), name);
              ok == out.Some? && State() == if ok then out.value else old(State())
    {
      if name !in bin {
        return false;
      }
      var b := bin[name];
      var dest := b.fileKey;
      if dest in store || ExistsDir(store, dest) {
        dest := Beside(b.fileKey, b.isDir);
      }
      if b.isDir {
        RestoreApart(State(), name);
        assert dest == Destination(State(), b);
        var objs := CopyTree(b.storeKey, dest);
        Mkdir(dest);
        Remove(objs);
      } else {
        ok := Copy(b.storeKey, dest);
        if !ok {
          return;
        }
        Remove({b.storeKey});
      }
      bin := bin - {name};
      return true;
    }
  }

  /** The keys copied one after the other, in the order they are listed in. */
  ghost function CopiedInOrder(store: Store, todo: set<Key>, src: Key, dst: Key): Store
    requires forall k | k in todo :: Under(src, k)
    decreases todo
  {
    if todo == {} then store
    else
      SomeFirst(todo);
      var k :| FirstOf(todo, k);
      CopiedInOrder(CopiedOne(store, k, src, dst), todo - {k}, src, dst)
  }

  function CopiedOne(store: Store, k: Key, src: Key, dst: Key): Store
    requires Under(src, k)
  {
    if k in store then store[Moved(src, dst, k) := store[k]] else store
  }

  lemma CopiedFirst(store: Store, todo: set<Key>, k: Key, src: Key, dst: Key)
    requires (forall l | l in todo :: Under(src, l)) && FirstOf(todo, k)
    ensures CopiedInOrder(store, todo, src, dst)
            == CopiedInOrder(CopiedOne(store, k, src, dst), todo - {k}, src, dst)
  {
    forall l | FirstOf(todo, l)
      ensures l == k
    {
      FirstIsOne(todo, k, l);
    }
  }

  lemma {:induction false} AnyOrder(store: Store, done: set<Key>, todo: set<Key>, src: Key, dst: Key)
    requires (forall k | k in done + todo :: k in store && Under(src, k)) && done !! todo && Apart(store, src, dst)
    ensures CopiedInOrder(store + Copies(store, done, src, dst), todo, src, dst)
            == store + Copies(store, done + todo, src, dst)
    decreases todo
  {
    if todo == {} {
      assert done + todo == done;
    } else {
      SomeFirst(todo);
      var k :| FirstOf(todo, k);
      var now := store + Copies(store, done, src, dst);
      CopiedFirst(now, todo, k, src, dst);
      CopiedOneMore(store, done, k, src, dst);
      AnyOrder(store, done + {k}, todo - {k}, src, dst);
      assert done + {k} + (todo - {k}) == done + todo;
    }
  }

  lemma CopiedOneMore(store: Store, done: set<Key>, k: Key, src: Key, dst: Key)
    requires (forall d | d in done :: d in store && Under(src, d)) && k in store && Under(src, k)
    requires Apart(store, src, dst)
    ensures CopiedOne(store + Copies(store, done, src, dst), k, src, dst) == store + Copies(store, done + {k}, src, dst)
  {
    CopiesOneMore(store, done, k, src, dst);
  }

  /** When no copy lands in the folder itself, all copies can be taken at once. */
  lemma OrderDoesNotMatter(store: Store, src: Key, dst: Key)
    requires Apart(store, src, dst)
    ensures CopiedInOrder(store, KeysUnder(store, src), src, dst) == TreeCopied(store, src, dst)
  {
    assert store + Copies(store, {}, src, dst) == store;
    AnyOrder(store, {}, KeysUnder(store, src), src, dst);
    assert {} + KeysUnder(store, src) == KeysUnder(store, src);
  }

  lemma CopiesOneMore(store: Store, done: set<Key>, k: Key, src: Key, dst: Key)
    requires (forall d | d in done :: d in store && Under(src, d)) && k in store && Under(src, k)
    requires Apart(store, src, dst)
    ensures var now := store + Copies(store, done, src, dst);
            && k in now && now[k] == store[k]
            && now[Moved(src, dst, k) := store[k]] == store + Copies(store, done + {k}, src, dst)
  {
    CopiesGrow(store, done, k, src, dst);
    CopiesAt(store, done, src, dst);
    var a := Copies(store, done, src, dst);
    forall t | t in a
      ensures !Under(src, t)
    {
      MovedBack(dst, src, t);
    }
  }

  lemma CopiesGrow(store: Store, done: set<Key>, k: Key, src: Key, dst: Key)
    requires (forall d | d in done :: d in store && Under(src, d)) && k in store && Under(src, k)
    ensures Copies(store, done + {k}, src, dst) == Copies(store, done, src, dst)[Moved(src, dst, k) := store[k]]
  {
    CopiesAt(store, done, src, dst);
    CopiesAt(store, done + {k}, src, dst);
    var a, b := Copies(store, done, src, dst), Copies(store, done + {k}, src, dst);
    forall t | t in a
      ensures t in b && b[t] == a[t]
    {
      MovedBack(dst, src, t);
    }
    forall t | t in b && t != Moved(src, dst, k)
      ensures t in a
    {
      MovedBack(dst, src, t);
    }
  }

  /** No copy of the folder lands in the folder itself. */
  predicate Apart(store: Store, src: Key, dst: Key) {
    forall k | k in store && Under(src, k) :: !Under(src, Moved(src, dst, k))
  }

  /** Nothing of a live folder lands in it again when it goes to the bin. */
  lemma BinApart(tenant: string, key: Key, id: string)
    requires LiveFile(tenant, key)
    ensures forall k | Under(key, k) :: !Under(key, Moved(key, BinKey(tenant, id), k))
  {
    forall k | Under(key, k)
      ensures !Under(key, Moved(key, BinKey(tenant, id), k))
    {
      var to := Moved(key, BinKey(tenant, id), k);
      MovedBack(key, BinKey(tenant, id), k);
      HiddenNotLive(tenant, id, to);
      if Under(key, to) { UnderLive(tenant, key, to); }
    }
  }

  /** Nor does anything of a binned folder when it is restored. */
  lemma RestoreApart(f: Files, name: string)
    requires Inv(f) && name in f.bin
    ensures var item, dest := f.bin[name].storeKey, Destination(f, f.bin[name]);
            forall k | Under(item, k) :: !Under(item, Moved(item, dest, k))
  {
    var item, dest := f.bin[name].storeKey, Destination(f, f.bin[name]);
    DestinationLive(f, name);
    forall k | Under(item, k)
      ensures !Under(item, Moved(item, dest, k))
    {
      var to := Moved(item, dest, k);
      MovedBack(item, dest, k);
      UnderLive(f.tenant, dest, to);
      HiddenNotLive(f.tenant, name, to);
    }
  }
}
