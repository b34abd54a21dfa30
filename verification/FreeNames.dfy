/** Choosing a name nothing has yet: uploads through a link (files_links.drop) and automatic moves (files_auto._act). */
module FreeNames {
  import opened Text
  import opened Paths
  import FilesCore
  import FilesEngine
  import Moves

  /** str(n) */
  function Decimal(n: nat): (s: string)
    ensures s != ""
  {
    if n < 10 then ['0' + n as char] else Decimal(n / 10) + ['0' + (n % 10) as char]
  }

  lemma {:induction false} DecimalInjective(m: nat, n: nat)
    requires Decimal(m) == Decimal(n)
    ensures m == n
  {
    var a, b := Decimal(m), Decimal(n);
    assert a[|a| - 1] == '0' + (m % 10) as char && b[|b| - 1] == '0' + (n % 10) as char;
    assert m >= 10 ==> |a| >= 2;
    assert n >= 10 ==> |b| >= 2;
    if m >= 10 && n >= 10 {
      assert a[..|a| - 1] == Decimal(m / 10) && b[..|b| - 1] == Decimal(n / 10);
      DecimalInjective(m / 10, n / 10);
    }
  }

  /** The n-th name tried: the name itself, then "stem (2).ext", "stem (3).ext", …; a file's name has no slash. */
  function Candidate(name: string, n: nat): string {
    if n <= 1 then name
    else
      var dot := FilesCore.LastDot(name);
      if dot.Some? then name[..dot.value] + " (" + Decimal(n) + ")." + name[dot.value + 1..]
      else name + " (" + Decimal(n) + ")"
  }

  /** int(s) */
  function Value(s: string): int {
    if s == "" then 0 else 10 * Value(s[..|s| - 1]) + (s[|s| - 1] as int - '0' as int)
  }

  /** Written in digits, no zero first, and read back. */
  lemma {:induction false} DecimalReads(n: nat)
    ensures Value(Decimal(n)) == n && (forall c | c in Decimal(n) :: '0' <= c <= '9')
    ensures Decimal(n)[0] == '0' ==> n == 0
  {
    var s := Decimal(n);
    if n >= 10 {
      DecimalReads(n / 10);
      assert s[..|s| - 1] == Decimal(n / 10);
    } else {
      assert s[..0] == "";
    }
  }

  /** The second name tried has "(2)" before the extension, or at the end of a name without a dot, and so on. */
  lemma CandidateExactly(stem: string, ext: string, name: string, n: nat)
    requires '.' !in ext && '/' !in ext && '.' !in name && '/' !in name && n >= 2
    ensures Candidate(stem + "." + ext, n) == stem + " (" + Decimal(n) + ")." + ext
    ensures Candidate(name, n) == name + " (" + Decimal(n) + ")"
    ensures Candidate(stem + "." + ext, 1) == stem + "." + ext && Candidate(name, 1) == name
  {
    var k := stem + "." + ext;
    FilesCore.LastDotIs(stem, ext);
    assert k[..|stem|] == stem && k[|stem| + 1..] == ext;
    NoDot(name);
  }

  lemma {:induction false} NoDot(name: string)
    requires '.' !in name
    ensures FilesCore.LastDot(name) == None
  {
    if name != "" && name[|name| - 1] != '/' {
      assert name[|name| - 1] in name;
      NoDot(name[..|name| - 1]);
    }
  }

  lemma MiddleEqual(a: string, m: string, n: string, z: string)
    requires a + m + z == a + n + z
    ensures m == n
  {
    var s, t := a + m + z, a + n + z;
    assert s[|a|..|s| - |z|] == m && t[|a|..|t| - |z|] == n;
  }

  /** Different numbers give different names. */
  lemma CandidatesDiffer(name: string, m: nat, n: nat)
    requires 1 <= m < n
    ensures Candidate(name, m) != Candidate(name, n)
  {
    var dot := FilesCore.LastDot(name);
    if m == 1 {
      assert |Candidate(name, n)| > |name|;
    } else if Candidate(name, m) == Candidate(name, n) {
      if dot.Some? {
        var a, z := name[..dot.value] + " (", ")." + name[dot.value + 1..];
        assert Candidate(name, m) == a + Decimal(m) + z && Candidate(name, n) == a + Decimal(n) + z;
        MiddleEqual(a, Decimal(m), Decimal(n), z);
      } else {
        assert Candidate(name, m) == (name + " (") + Decimal(m) + ")"
               && Candidate(name, n) == (name + " (") + Decimal(n) + ")";
        MiddleEqual(name + " (", Decimal(m), Decimal(n), ")");
      }
      DecimalInjective(m, n);
    }
  }

  function KeyAt(folder: Key, name: string, n: nat): Key { folder + "/" + Candidate(name, n) }

  lemma KeysDiffer(folder: Key, name: string, m: nat, n: nat)
    requires 1 <= m < n
    ensures KeyAt(folder, name, m) != KeyAt(folder, name, n)
  {
    CandidatesDiffer(name, m, n);
    var a := folder + "/";
    assert (a + Candidate(name, m))[|a|..] == Candidate(name, m)
           && (a + Candidate(name, n))[|a|..] == Candidate(name, n);
  }

  function FirstKeys(folder: Key, name: string, n: nat): set<Key> {
    if n == 0 then {} else FirstKeys(folder, name, n - 1) + {KeyAt(folder, name, n)}
  }

  lemma {:induction false} FirstKeysHold(folder: Key, name: string, n: nat, m: nat)
    requires 1 <= m <= n
    ensures KeyAt(folder, name, m) in FirstKeys(folder, name, n)
  {
    if m < n { FirstKeysHold(folder, name, n - 1, m); }
  }

  lemma {:induction false} FirstKeysAre(folder: Key, name: string, n: nat, k: Key) returns (m: nat)
    requires k in FirstKeys(folder, name, n)
    ensures 1 <= m <= n && k == KeyAt(folder, name, m)
  {
    if k == KeyAt(folder, name, n) {
      m := n;
    } else {
      m := FirstKeysAre(folder, name, n - 1, k);
    }
  }

  lemma NextKeyIsNew(folder: Key, name: string, n: nat)
    ensures KeyAt(folder, name, n + 1) !in FirstKeys(folder, name, n)
  {
    if KeyAt(folder, name, n + 1) in FirstKeys(folder, name, n) {
      var m := FirstKeysAre(folder, name, n, KeyAt(folder, name, n + 1));
      KeysDiffer(folder, name, m, n + 1);
    }
  }

  lemma {:induction false} FirstKeysCount(folder: Key, name: string, n: nat)
    ensures |FirstKeys(folder, name, n)| == n
  {
    if n > 0 {
      FirstKeysCount(folder, name, n - 1);
      NextKeyIsNew(folder, name, n - 1);
    }
  }

  /** n names taken need n stored objects. */
  lemma TakenBound(store: Store, folder: Key, name: string, n: nat)
    requires forall m | 1 <= m <= n :: KeyAt(folder, name, m) in store
    ensures n <= |store|
  {
    FirstKeysCount(folder, name, n);
    forall k | k in FirstKeys(folder, name, n)
      ensures k in store.Keys
    {
      var m := FirstKeysAre(folder, name, n, k);
    }
    SubsetSize(FirstKeys(folder, name, n), store.Keys);
  }

  /** The number whose name is taken when nobody's own file is in question. */
  ghost predicate FirstFree(store: Store, folder: Key, name: string, n: nat) {
    n >= 1 && KeyAt(folder, name, n) !in store && forall m | 1 <= m < n :: KeyAt(folder, name, m) in store
  }

  lemma FirstFreeIsOne(store: Store, folder: Key, name: string, n: nat, m: nat)
    requires FirstFree(store, folder, name, n) && FirstFree(store, folder, name, m)
    ensures n == m
  {
  }

  /** The loop of both callers; `own` is the key of the file being moved, which it may keep. */
  method Choose(store: Store, folder: Key, name: string, own: Option<Key>) returns (n: nat)
    ensures 1 <= n <= |store| + 1
    ensures KeyAt(folder, name, n) !in store || own == Some(KeyAt(folder, name, n))
    ensures forall m | 1 <= m < n :: KeyAt(folder, name, m) in store && own != Some(KeyAt(folder, name, m))
  {
    n := 1;
    TakenBound(store, folder, name, 0);
    while KeyAt(folder, name, n) in store && own != Some(KeyAt(folder, name, n))
      invariant 1 <= n <= |store| + 1
      invariant forall m | 1 <= m < n :: KeyAt(folder, name, m) in store && own != Some(KeyAt(folder, name, m))
      decreases |store| + 1 - n
    {
      TakenBound(store, folder, name, n);
      n := n + 1;
    }
  }

  /** files_links.drop once the upload is accepted: nothing stored is replaced. */
  method Drop(files: FilesEngine.Engine, folder: Key, name: string, data: string) returns (key: Key)
    modifies files
    ensures key !in old(files.store) && files.store == old(files.store)[key := data]
    ensures exists n: nat :: n <= |old(files.store)| + 1 && key == KeyAt(folder, name, n)
                        && FirstFree(old(files.store), folder, name, n)
    ensures files.versions == old(files.versions) && files.bin == old(files.bin)
  {
    var n := Choose(files.store, folder, name, None);
    key := KeyAt(folder, name, n);
    files.store := files.store[key := data];
  }

  /**
   * files_auto._act, moving a file into a folder: it keeps its place when that is where it is, and otherwise goes to a
   * free name there; no other file changes, only the folder's marker is written.
   */
  method Act(drive: Moves.Drive, key: Key, folder: Key, name: string) returns (to: Key)
    requires key in drive.files.store && !Marker(key) && name != ""
    modifies drive, drive.files
    ensures to == key ==> drive.State() == old(drive.State())
    ensures to != key ==>
              && to !in old(drive.files.store) && to in drive.files.store && key !in drive.files.store
              && drive.files.store[to] == old(drive.files.store)[key]
                  && drive.rows == Moves.Rekeyed(old(drive.rows), key, to, false)
    ensures forall k | k in old(drive.files.store) && k != key && k != folder + "/" ::
              k in drive.files.store && drive.files.store[k] == old(drive.files.store)[k]
    ensures exists n :: 1 <= n <= |old(drive.files.store)| + 1 && to == KeyAt(folder, name, n)
  {
    var n := Choose(drive.files.store, folder, name, Some(key));
    to := KeyAt(folder, name, n);
    if to != key {
      CandidateLonger(folder, name, n);
      assert Marker(folder + "/");
      drive.files.Mkdir(folder);
      var ok := drive.files.Copy(key, to);
      drive.files.Remove({key});
      drive.Rekey(key, to, false);
    }
  }

  lemma CandidateLonger(folder: Key, name: string, n: nat)
    requires name != ""
    ensures KeyAt(folder, name, n) != folder + "/"
  {
    assert |Candidate(name, n)| > 0;
  }
}
