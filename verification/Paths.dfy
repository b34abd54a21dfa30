/** Keys of stored objects: a folder is a common prefix ending in a slash, its marker a key ending in one. */
module Paths {
  type Key = string

  type Store = map<Key, string>

  /** k lies in the folder `folder` (the folder's own marker included). */
  predicate Under(folder: Key, k: Key) {
    folder + "/" <= k
  }

  predicate Marker(k: Key) { k != "" && k[|k| - 1] == '/' }

  /** What comes after folder/ in a key under it. */
  function Below(folder: Key, k: Key): string
    requires Under(folder, k)
  {
    k[|folder| + 1..]
  }

  lemma UnderIs(folder: Key, k: Key, rest: string)
    ensures k == folder + "/" + rest ==> Under(folder, k) && Below(folder, k) == rest
    ensures Under(folder, k) && Below(folder, k) == rest ==> k == folder + "/" + rest
  {
    if Under(folder, k) {
      assert k == k[..|folder| + 1] + k[|folder| + 1..];
      assert k[..|folder| + 1] == folder + "/";
    }
  }

  /** file_store.exists_dir */
  predicate ExistsDir(store: Store, folder: Key) {
    exists k :: k in store && Under(folder, k)
  }

  /** file_store.keys_under */
  function KeysUnder(store: Store, folder: Key): set<Key> {
    set k | k in store && Under(folder, k)
  }

  /** A key moved from one folder to another. */
  function Moved(src: Key, dst: Key, k: Key): Key
    requires Under(src, k)
  {
    dst + "/" + Below(src, k)
  }

  lemma MovedBack(src: Key, dst: Key, k: Key)
    requires Under(src, k)
    ensures Under(dst, Moved(src, dst, k)) && Below(dst, Moved(src, dst, k)) == Below(src, k)
            && Moved(dst, src, Moved(src, dst, k)) == k
    ensures k != src + "/" ==> (Marker(Moved(src, dst, k)) <==> Marker(k))
    ensures k == src + "/" <==> Moved(src, dst, k) == dst + "/"
  {
    UnderIs(dst, Moved(src, dst, k), Below(src, k));
    UnderIs(src, k, Below(src, k));
    if k != src + "/" {
      assert Below(src, k) != "";
    }
  }

  /** The objects a copy of the tree src at dst writes. */
  function Copies(store: Store, keys: set<Key>, src: Key, dst: Key): Store
    requires forall k | k in keys :: k in store && Under(src, k)
  {
    var targets := set k | k in keys :: Moved(src, dst, k);
    map t | t in targets && Under(dst, t) && Moved(dst, src, t) in keys :: store[Moved(dst, src, t)]
  }

  lemma CopiesAt(store: Store, keys: set<Key>, src: Key, dst: Key)
    requires forall k | k in keys :: k in store && Under(src, k)
    ensures var copies := Copies(store, keys, src, dst);
            && (forall k | k in keys :: Moved(src, dst, k) in copies && copies[Moved(src, dst, k)] == store[k])
            && (forall t | t in copies ::
                  Under(dst, t) && Moved(dst, src, t) in keys && copies[t] == store[Moved(dst, src, t)])
  {
    forall k | k in keys { MovedBack(src, dst, k); }
  }

  /** The order keys are listed in. */
  predicate KeyLess(a: Key, b: Key) {
    if b == "" then false
    else if a == "" then true
    else a[0] < b[0] || (a[0] == b[0] && KeyLess(a[1..], b[1..]))
  }

  lemma {:induction false} KeyLessTotal(a: Key, b: Key)
    ensures KeyLess(a, b) || KeyLess(b, a) <==> a != b
    ensures !(KeyLess(a, b) && KeyLess(b, a))
  {
    if a != "" && b != "" {
      KeyLessTotal(a[1..], b[1..]);
      assert a == [a[0]] + a[1..] && b == [b[0]] + b[1..];
    }
  }

  lemma {:induction false} KeyLessTransitive(a: Key, b: Key, c: Key)
    requires KeyLess(a, b) && KeyLess(b, c)
    ensures KeyLess(a, c)
  {
    if a != "" && a[0] == b[0] == c[0] { KeyLessTransitive(a[1..], b[1..], c[1..]); }
  }

  /** The key listed first. */
  predicate FirstOf(keys: set<Key>, k: Key) {
    k in keys && forall l | l in keys :: l == k || KeyLess(k, l)
  }

  lemma {:induction false} SomeFirst(keys: set<Key>)
    requires keys != {}
    ensures exists k :: FirstOf(keys, k)
  {
    var k :| k in keys;
    if keys == {k} {
      assert FirstOf(keys, k);
    } else {
      SomeFirst(keys - {k});
      var m :| FirstOf(keys - {k}, m);
      KeyLessTotal(k, m);
      if KeyLess(k, m) {
        forall l | l in keys - {k} && l != m { KeyLessTransitive(k, m, l); }
        assert FirstOf(keys, k);
      } else {
        assert FirstOf(keys, m);
      }
    }
  }

  lemma FirstIsOne(keys: set<Key>, k: Key, l: Key)
    requires FirstOf(keys, k) && FirstOf(keys, l)
    ensures k == l
  {
    KeyLessTotal(k, l);
  }

  // ---- counting files ----

  /** The stored objects that are no folder's marker. */
  function FilesOf(store: Store): set<Key> {
    set k | k in store && !Marker(k)
  }

  function Image(keys: set<Key>, f: Key -> Key): set<Key> {
    set k | k in keys :: f(k)
  }

  ghost predicate OneToOne(keys: set<Key>, f: Key -> Key) {
    forall k, l | k in keys && l in keys && f(k) == f(l) :: k == l
  }

  /** No key is lost under a renaming exactly when it keeps different keys different. */
  lemma {:induction false} ImageSize(keys: set<Key>, f: Key -> Key)
    ensures |Image(keys, f)| <= |keys|
    ensures |Image(keys, f)| == |keys| <==> OneToOne(keys, f)
  {
    if keys != {} {
      var k :| k in keys;
      var rest := keys - {k};
      ImageSize(rest, f);
      assert Image(keys, f) == Image(rest, f) + {f(k)};
      if f(k) in Image(rest, f) {
        var l :| l in rest && f(l) == f(k);
      } else if OneToOne(rest, f) {
        assert forall l | l in rest :: f(l) in Image(rest, f);
        assert OneToOne(keys, f);
      } else {
        assert !OneToOne(keys, f);
      }
    }
  }
}
