/**
 * Whiteboard drawings from several people put together (planning_rules.merge_elements and changed_since): each element
 * at its newest version, so that everyone ends with the same drawing.
 */
module Drawing {
  import opened Text

  datatype Element = Element(id: string, version: int, nonce: int, body: string)

  const MAX_ELEMENTS: nat := 20000

  /** Higher version, or the same version and a higher nonce. */
  predicate Newer(e: Element, than: Element) {
    e.version > than.version || (e.version == than.version && e.nonce > than.nonce)
  }

  type Table = map<string, Element>

  /** One element put into the table by id; one without an id is ignored. */
  function Put(t: Table, e: Element): Table {
    if e.id == "" then t
    else if e.id !in t || Newer(e, t[e.id]) then t[e.id := e]
    else t
  }

  function PutAll(t: Table, es: seq<Element>): Table
    decreases |es|
  {
    if es == [] then t else PutAll(Put(t, es[0]), es[1..])
  }

  /** The saved drawing by id; of two with the same id the last counts. */
  function ById(saved: seq<Element>): Table {
    if saved == [] then map[]
    else
      var n := |saved| - 1;
      if saved[n].id == "" then ById(saved[..n]) else ById(saved[..n])[saved[n].id := saved[n]]
  }

  function Ids(saved: seq<Element>): (ids: seq<string>)
    ensures forall i | i in ids :: i in ById(saved)
  {
    if saved == [] then []
    else
      var n := |saved| - 1;
      if saved[n].id == "" then Ids(saved[..n]) else Ids(saved[..n]) + [saved[n].id]
  }

  /** The ids the batch adds, in the order they first come. */
  function NewIds(t: Table, es: seq<Element>): seq<string>
    decreases |es|
  {
    if es == [] then []
    else (if es[0].id == "" || es[0].id in t then [] else [es[0].id]) + NewIds(Put(t, es[0]), es[1..])
  }

  function Order(saved: seq<Element>, incoming: seq<Element>): seq<string> {
    Ids(saved) + NewIds(ById(saved), incoming)
  }

  lemma {:induction false} PutAllKeeps(t: Table, es: seq<Element>)
    ensures t.Keys <= PutAll(t, es).Keys
    ensures forall i | i in NewIds(t, es) :: i in PutAll(t, es)
    decreases |es|
  {
    if es != [] { PutAllKeeps(Put(t, es[0]), es[1..]); }
  }

  function Lookup(t: Table, ids: seq<string>): (out: seq<Element>)
    requires forall i | i in ids :: i in t
    ensures |out| == |ids| && forall k | 0 <= k < |ids| :: out[k] == t[ids[k]]
  {
    if ids == [] then [] else [t[ids[0]]] + Lookup(t, ids[1..])
  }

  lemma OrderKnown(saved: seq<Element>, incoming: seq<Element>)
    ensures forall i | i in Order(saved, incoming) :: i in PutAll(ById(saved), incoming)
  {
    PutAllKeeps(ById(saved), incoming);
  }

  /** The merged drawing: the saved order, new elements after; None when the whiteboard is full. */
  function Merge(saved: seq<Element>, incoming: seq<Element>): Option<seq<Element>> {
    OrderKnown(saved, incoming);
    var out := Lookup(PutAll(ById(saved), incoming), Order(saved, incoming));
    if |out| > MAX_ELEMENTS then None else Some(out)
  }

  lemma NextIncoming(t: Table, order: seq<string>, incoming: seq<Element>, k: nat)
    requires k < |incoming|
    ensures PutAll(t, incoming[k..]) == PutAll(Put(t, incoming[k]), incoming[k + 1..])
    ensures order + NewIds(t, incoming[k..])
         == (if incoming[k].id == "" || incoming[k].id in t then order else order + [incoming[k].id])
            + NewIds(Put(t, incoming[k]), incoming[k + 1..])
  {
    var es, rest := incoming[k..], incoming[k + 1..];
    assert es[0] == incoming[k] && es[1..] == rest;
    if incoming[k].id == "" || incoming[k].id in t {
      assert [] + NewIds(Put(t, incoming[k]), rest) == NewIds(Put(t, incoming[k]), rest);
    } else {
      Regrouped(order, [incoming[k].id], NewIds(Put(t, incoming[k]), rest));
    }
  }

  /** planning_rules.merge_elements */
  method MergeElements(saved: seq<Element>, incoming: seq<Element>) returns (merged: Option<seq<Element>>)
    ensures merged == Merge(saved, incoming)
  {
    var byId: Table := map[];
    var order: seq<string> := [];
    for k := 0 to |saved|
      invariant byId == ById(saved[..k]) && order == Ids(saved[..k])
    {
      assert saved[..k + 1][..k] == saved[..k];
      if saved[k].id != "" {
        byId := byId[saved[k].id := saved[k]];
        order := order + [saved[k].id];
      }
    }
    assert saved[..|saved|] == saved;
    OrderKnown(saved, incoming);
    for k := 0 to |incoming|
      invariant PutAll(byId, incoming[k..]) == PutAll(ById(saved), incoming)
      invariant order + NewIds(byId, incoming[k..]) == Order(saved, incoming)
      invariant forall i | i in order :: i in byId
    {
      var e := incoming[k];
      NextIncoming(byId, order, incoming, k);
      if e.id != "" {
        if e.id !in byId {
          order := order + [e.id];
          byId := byId[e.id := e];
        } else if e.version > byId[e.id].version || (e.version == byId[e.id].version && e.nonce > byId[e.id].nonce) {
          byId := byId[e.id := e];
        }
      }
    }
    assert incoming[|incoming|..] == [] && order + [] == order;
    var out := Lookup(byId, order);
    if |out| > MAX_ELEMENTS {
      return None;
    }
    return Some(out);
  }

  // ---- the table holds the newest of what it was given ----

  /** Elements seen under an id: the table's own and those of the batch. */
  ghost predicate Seen(t: Table, es: seq<Element>, e: Element) {
    e.id != "" && ((e.id in t && t[e.id] == e) || e in es)
  }

  ghost predicate Keyed(t: Table) {
    forall i | i in t :: i != "" && t[i].id == i
  }

  lemma {:induction false} PutAllIsNewest(t: Table, es: seq<Element>)
    requires Keyed(t)
    ensures var m := PutAll(t, es);
            && Keyed(m)
            && (forall i | i in m :: Seen(t, es, m[i]))
            && (forall e | Seen(t, es, e) ::
                  e.id in m && e.version <= m[e.id].version
                  && (e.version == m[e.id].version ==> e.nonce <= m[e.id].nonce))
    decreases |es|
  {
    if es != [] {
      var t' := Put(t, es[0]);
      PutAllIsNewest(t', es[1..]);
      var m := PutAll(t, es);
      forall i | i in m
        ensures Seen(t, es, m[i])
      {
        assert Seen(t', es[1..], m[i]);
      }
      forall e | Seen(t, es, e)
        ensures e.id in m && e.version <= m[e.id].version
        ensures e.version == m[e.id].version ==> e.nonce <= m[e.id].nonce
      {
        if e in es[1..] {
          assert Seen(t', es[1..], e);
        } else {
          assert Seen(t', es[1..], t'[e.id]) && e.version <= t'[e.id].version;
        }
      }
    }
  }

  /** Among everything seen, an id, version and nonce name one element. */
  ghost predicate Consistent(t: Table, es: seq<Element>) {
    forall e, f | Seen(t, es, e) && Seen(t, es, f) && e.id == f.id && e.version == f.version
        && e.nonce == f.nonce :: e == f
  }

  /** The same elements in any order, with any repetitions, give the same table. */
  lemma SameElementsSameTable(t: Table, es: seq<Element>, fs: seq<Element>)
    requires Keyed(t) && Consistent(t, es) && forall e :: e in es <==> e in fs
    ensures PutAll(t, es) == PutAll(t, fs)
  {
    PutAllIsNewest(t, es);
    PutAllIsNewest(t, fs);
    var m, n := PutAll(t, es), PutAll(t, fs);
    assert forall e :: Seen(t, es, e) <==> Seen(t, fs, e);
    forall i | i in m
      ensures i in n && m[i] == n[i]
    {
      assert Seen(t, fs, m[i]);
      assert Seen(t, es, n[i]);
    }
    forall i | i in n
      ensures i in m
    {
      assert Seen(t, es, n[i]);
    }
  }

  lemma {:induction false} PutAllConcat(t: Table, a: seq<Element>, b: seq<Element>)
    ensures PutAll(t, a + b) == PutAll(PutAll(t, a), b)
    decreases |a|
  {
    if a == [] {
      assert a + b == b;
    } else {
      assert (a + b)[1..] == a[1..] + b;
      PutAllConcat(Put(t, a[0]), a[1..], b);
    }
  }

  // ---- drawings ----

  /** Every element has an id, and no two the same. */
  ghost predicate UniqueIds(es: seq<Element>) {
    (forall k | 0 <= k < |es| :: es[k].id != "") && forall k, l | 0 <= k < l < |es| :: es[k].id != es[l].id
  }

  lemma {:induction false} IdsAre(es: seq<Element>)
    requires forall k | 0 <= k < |es| :: es[k].id != ""
    ensures |Ids(es)| == |es| && forall k | 0 <= k < |es| :: Ids(es)[k] == es[k].id
  {
    if es != [] {
      var n := |es| - 1;
      IdsAre(es[..n]);
      forall k | 0 <= k < |es|
        ensures Ids(es)[k] == es[k].id
      {
        if k < n { assert es[..n][k] == es[k]; }
      }
    }
  }

  lemma {:induction false} UniqueRows(es: seq<Element>)
    requires UniqueIds(es)
    ensures Keyed(ById(es)) && forall e :: e in es <==> e.id in ById(es) && ById(es)[e.id] == e
  {
    if es != [] {
      var n := |es| - 1;
      UniqueRows(es[..n]);
      assert es == es[..n] + [es[n]];
      forall e
        ensures e in es <==> e.id in ById(es) && ById(es)[e.id] == e
      {
        if e in es[..n] {
          var k :| 0 <= k < n && es[..n][k] == e;
          assert es[k].id != es[n].id;
        }
      }
    }
  }

  lemma UniqueTable(es: seq<Element>)
    requires UniqueIds(es)
    ensures Keyed(ById(es)) && forall e :: e in es <==> e.id in ById(es) && ById(es)[e.id] == e
    ensures |Ids(es)| == |es| && forall k | 0 <= k < |es| :: Ids(es)[k] == es[k].id
  {
    UniqueRows(es);
    IdsAre(es);
  }

  /** New ids are new and all different. */
  lemma {:induction false} NewIdsFresh(t: Table, es: seq<Element>)
    ensures forall k | 0 <= k < |NewIds(t, es)| :: NewIds(t, es)[k] != "" && NewIds(t, es)[k] !in t
    ensures forall k, l | 0 <= k < l < |NewIds(t, es)| :: NewIds(t, es)[k] != NewIds(t, es)[l]
    ensures forall i | i in PutAll(t, es) :: i in t || i in NewIds(t, es)
    decreases |es|
  {
    if es != [] { NewIdsFresh(Put(t, es[0]), es[1..]); }
  }

  lemma {:induction false} TableOfLookup(t: Table, ids: seq<string>)
    requires Keyed(t) && (forall i | i in ids :: i in t)
    requires forall k, l | 0 <= k < l < |ids| :: ids[k] != ids[l]
    ensures UniqueIds(Lookup(t, ids))
    ensures ById(Lookup(t, ids)) == map i | i in ids :: t[i]
  {
    var es := Lookup(t, ids);
    assert forall k | 0 <= k < |ids| :: es[k].id == ids[k];
    UniqueTable(es);
    SameTable(t, ids, es, ById(es));
  }

  lemma SameTable(t: Table, ids: seq<string>, es: seq<Element>, m: Table)
    requires Keyed(t) && Keyed(m) && (forall i | i in ids :: i in t)
    requires |es| == |ids| && forall k | 0 <= k < |ids| :: es[k] == t[ids[k]]
    requires forall e :: e in es <==> e.id in m && m[e.id] == e
    ensures m == map i | i in ids :: t[i]
  {
    forall i | i in ids
      ensures i in m && m[i] == t[i]
    {
      var k :| 0 <= k < |ids| && ids[k] == i;
      assert es[k] in es;
    }
    forall i | i in m
      ensures i in ids
    {
      assert m[i] in es;
      var k :| 0 <= k < |es| && es[k] == m[i];
      assert ids[k] == i;
    }
  }

  lemma OrderDistinct(saved: seq<Element>, incoming: seq<Element>)
    requires UniqueIds(saved)
    ensures forall k, l | 0 <= k < l < |Order(saved, incoming)| ::
            Order(saved, incoming)[k] != Order(saved, incoming)[l]
    ensures forall i | i in PutAll(ById(saved), incoming) :: i in Order(saved, incoming)
  {
    UniqueTable(saved);
    NewIdsFresh(ById(saved), incoming);
    forall i | i in ById(saved)
      ensures i in Ids(saved)
    {
      var e := ById(saved)[i];
      assert e in saved;
      var k :| 0 <= k < |saved| && saved[k] == e;
      assert Ids(saved)[k] == i;
    }
  }

  /** A merge keeps ids unique and is exactly the table merge. */
  lemma MergeTable(saved: seq<Element>, incoming: seq<Element>)
    requires UniqueIds(saved) && Merge(saved, incoming).Some?
    ensures UniqueIds(Merge(saved, incoming).value)
    ensures ById(Merge(saved, incoming).value) == PutAll(ById(saved), incoming)
  {
    UniqueTable(saved);
    PutAllIsNewest(ById(saved), incoming);
    OrderKnown(saved, incoming);
    OrderDistinct(saved, incoming);
    TableOfLookup(PutAll(ById(saved), incoming), Order(saved, incoming));
  }

  /** What is in the table is replaced only by a higher version, or a higher nonce of the same. */
  lemma {:induction false} ReplacedByHigher(t: Table, es: seq<Element>, i: string)
    requires i in t
    ensures i in PutAll(t, es)
    ensures var was, now := t[i], PutAll(t, es)[i];
            now == was || was.version < now.version || (was.version == now.version && was.nonce < now.nonce)
    decreases |es|
  {
    if es != [] { ReplacedByHigher(Put(t, es[0]), es[1..], i); }
  }

  /** Saved order is kept, and what is saved is replaced only by a higher version or a higher nonce of the same. */
  lemma MergeKeepsOrder(saved: seq<Element>, incoming: seq<Element>, k: nat)
    requires UniqueIds(saved) && Merge(saved, incoming).Some? && k < |saved|
    ensures var out := Merge(saved, incoming).value;
            && k < |out| && out[k].id == saved[k].id
            && (out[k] == saved[k] || saved[k].version < out[k].version
                || (saved[k].version == out[k].version && saved[k].nonce < out[k].nonce))
  {
    UniqueTable(saved);
    PutAllIsNewest(ById(saved), incoming);
    OrderKnown(saved, incoming);
    assert Order(saved, incoming)[k] == saved[k].id;
    assert saved[k] in saved && Seen(ById(saved), incoming, saved[k]);
    ReplacedByHigher(ById(saved), incoming, saved[k].id);
  }

  /** New ids come in the order of the batch, each where it is first seen. */
  lemma {:induction false} NewIdsInOrder(t: Table, es: seq<Element>, e: Element)
    ensures NewIds(t, es + [e])
         == NewIds(t, es) + if e.id == "" || e.id in t || e.id in NewIds(t, es) then [] else [e.id]
    decreases |es|
  {
    if es == [] {
      assert [] + [e] == [e] && [e][1..] == [];
    } else {
      var t', first := Put(t, es[0]), if es[0].id == "" || es[0].id in t then [] else [es[0].id];
      NewIdsInOrder(t', es[1..], e);
      assert (es + [e])[0] == es[0] && (es + [e])[1..] == es[1..] + [e];
      Regrouped(first, NewIds(t', es[1..]), if e.id == "" || e.id in t' || e.id in NewIds(t', es[1..]) then []
          else [e.id]);
    }
  }

  /**
   * What a merge gives, in versions and nonces: every element seen under an id is kept or one at least as high is, and
   * what is kept was seen. A drawing of more than 20000 elements is refused.
   */
  lemma MergeNewest(saved: seq<Element>, incoming: seq<Element>)
    requires UniqueIds(saved) && Merge(saved, incoming).Some?
    ensures var out := Merge(saved, incoming).value;
            && |out| <= 20000 && UniqueIds(out)
            && (forall m | m in out :: m in saved || m in incoming)
            && forall e | (e in saved || e in incoming) && e.id != "" ::
                 exists m :: m in out && m.id == e.id && e.version <= m.version
                             && (e.version == m.version ==> e.nonce <= m.nonce)
  {
    var out, t := Merge(saved, incoming).value, PutAll(ById(saved), incoming);
    UniqueTable(saved);
    MergeTable(saved, incoming);
    UniqueTable(out);
    PutAllIsNewest(ById(saved), incoming);
    forall m | m in out
      ensures m in saved || m in incoming
    {
      assert m.id in t && t[m.id] == m && Seen(ById(saved), incoming, m);
    }
    forall e | (e in saved || e in incoming) && e.id != ""
      ensures exists m :: m in out && m.id == e.id && e.version <= m.version
                          && (e.version == m.version ==> e.nonce <= m.nonce)
    {
      assert Seen(ById(saved), incoming, e);
      assert t[e.id] in out;
    }
  }

  /** Several saves one after the other; None when one of them was refused. */
  function MergeAll(saved: seq<Element>, batches: seq<seq<Element>>): Option<seq<Element>>
    decreases |batches|
  {
    if batches == [] then Some(saved)
    else match Merge(saved, batches[0])
      case None => None
      case Some(next) => MergeAll(next, batches[1..])
  }

  function Flatten(batches: seq<seq<Element>>): seq<Element> {
    if batches == [] then [] else batches[0] + Flatten(batches[1..])
  }

  lemma {:induction false} MergeAllTable(saved: seq<Element>, batches: seq<seq<Element>>)
    requires UniqueIds(saved) && MergeAll(saved, batches).Some?
    ensures UniqueIds(MergeAll(saved, batches).value)
    ensures ById(MergeAll(saved, batches).value) == PutAll(ById(saved), Flatten(batches))
    decreases |batches|
  {
    if batches != [] {
      var next := Merge(saved, batches[0]).value;
      MergeTable(saved, batches[0]);
      MergeAllTable(next, batches[1..]);
      PutAllConcat(ById(saved), batches[0], Flatten(batches[1..]));
    }
  }

  // ---- which saves are accepted ----

  lemma {:induction false} TableSize(t: Table, es: seq<Element>)
    ensures |PutAll(t, es)| == |t| + |NewIds(t, es)|
    decreases |es|
  {
    if es != [] { TableSize(Put(t, es[0]), es[1..]); }
  }

  lemma {:induction false} SavedSize(es: seq<Element>)
    requires UniqueIds(es)
    ensures |ById(es)| == |es|
  {
    if es != [] {
      var n := |es| - 1;
      SavedSize(es[..n]);
      LastIsNew(es);
    }
  }

  lemma LastIsNew(es: seq<Element>)
    requires UniqueIds(es) && es != []
    ensures es[|es| - 1].id !in ById(es[..|es| - 1])
  {
    var n := |es| - 1;
    var t := ById(es[..n]);
    UniqueRows(es[..n]);
    assert forall i | i in t :: t[i] in es[..n] && t[i].id == i;
    assert forall e | e in es[..n] :: e.id != es[n].id;
  }

  /** One save is accepted when the ids together are within the limit, and saves that many. */
  lemma MergeFits(saved: seq<Element>, incoming: seq<Element>)
    requires UniqueIds(saved)
    ensures Merge(saved, incoming).Some? <==> |PutAll(ById(saved), incoming)| <= 20000
    ensures Merge(saved, incoming).Some? ==> |Merge(saved, incoming).value| == |PutAll(ById(saved), incoming)|
  {
    UniqueTable(saved);
    SavedSize(saved);
    TableSize(ById(saved), incoming);
  }

  /** So are several, whatever their order and grouping: ids are never lost on the way. */
  lemma {:induction false} MergeAllFits(saved: seq<Element>, batches: seq<seq<Element>>)
    requires UniqueIds(saved) && |saved| <= 20000
    ensures MergeAll(saved, batches).Some? <==> |PutAll(ById(saved), Flatten(batches))| <= 20000
    decreases |batches|
  {
    if batches == [] {
      SavedSize(saved);
    } else {
      var all := PutAll(ById(saved), batches[0]);
      MergeFits(saved, batches[0]);
      PutAllConcat(ById(saved), batches[0], Flatten(batches[1..]));
      TableSize(all, Flatten(batches[1..]));
      if Merge(saved, batches[0]).Some? {
        MergeTable(saved, batches[0]);
        MergeAllFits(Merge(saved, batches[0]).value, batches[1..]);
      }
    }
  }

  /**
   * Everyone ends with the same drawing: however the same elements are ordered, grouped into batches or repeated, all
   * are accepted or some are refused alike, every id has the same element in the end, and it is the newest there is.
   */
  lemma MergesConverge(saved: seq<Element>, a: seq<seq<Element>>, b: seq<seq<Element>>)
    requires UniqueIds(saved) && |saved| <= 20000 && Consistent(ById(saved), Flatten(a))
    requires forall e :: e in Flatten(a) <==> e in Flatten(b)
    ensures MergeAll(saved, a).Some? <==> MergeAll(saved, b).Some?
    ensures MergeAll(saved, a).Some? ==>
              && ById(MergeAll(saved, a).value) == ById(MergeAll(saved, b).value)
              && forall e | Seen(ById(saved), Flatten(a), e) ::
                   var kept := ById(MergeAll(saved, a).value);
                   e.id in kept && e.version <= kept[e.id].version
                   && (e.version == kept[e.id].version ==> e.nonce <= kept[e.id].nonce)
  {
    UniqueTable(saved);
    SameElementsSameTable(ById(saved), Flatten(a), Flatten(b));
    MergeAllFits(saved, a);
    MergeAllFits(saved, b);
    PutAllIsNewest(ById(saved), Flatten(a));
    if MergeAll(saved, a).Some? {
      MergeAllTable(saved, a);
      MergeAllTable(saved, b);
    }
  }

  // ---- what someone has not seen yet ----

  /** planning_rules.changed_since */
  function ChangedSince(es: seq<Element>, known: map<string, int>): seq<Element> {
    if es == [] then []
    else (if es[0].id in known && known[es[0].id] == es[0].version then [] else [es[0]]) + ChangedSince(es[1..], known)
  }

  function Versions(es: seq<Element>): map<string, int> {
    map i | i in ById(es) :: ById(es)[i].version
  }

  lemma {:induction false} SkippingKnown(t: Table, es: seq<Element>, known: map<string, int>)
    requires Keyed(t)
    requires forall e | e in es && e.id in known && known[e.id] == e.version :: e.id in t && !Newer(e, t[e.id])
    ensures PutAll(t, ChangedSince(es, known)) == PutAll(t, es)
    decreases |es|
  {
    if es != [] {
      var t' := Put(t, es[0]);
      SkippingKnown(t', es[1..], known);
      if !(es[0].id in known && known[es[0].id] == es[0].version) {
        assert ([es[0]] + ChangedSince(es[1..], known))[1..] == ChangedSince(es[1..], known);
      } else {
        assert [] + ChangedSince(es[1..], known) == ChangedSince(es[1..], known);
      }
    }
  }

  lemma {:induction false} ChangedMembers(es: seq<Element>, known: map<string, int>)
    ensures forall e :: e in ChangedSince(es, known) <==> e in es && !(e.id in known && known[e.id] == e.version)
  {
    if es != [] {
      ChangedMembers(es[1..], known);
    }
  }

  /** Where both have an element at the same version, the client's nonce is not the lower one. */
  predicate NonceNotBehind(client: seq<Element>, server: seq<Element>) {
    forall c, s | c in client && s in server && c.id == s.id && c.version == s.version :: s.nonce <= c.nonce
  }

  /** An element kept back at its version, but with a higher nonce, is missed. */
  lemma KeptBack(client: seq<Element>, server: seq<Element>, c: Element, s: Element)
    requires UniqueIds(client) && UniqueIds(server) && c in client && s in server
    requires c.id == s.id && c.version == s.version && s.nonce > c.nonce
    ensures PutAll(ById(client), ChangedSince(server, Versions(client))) != PutAll(ById(client), server)
  {
    UniqueTable(client);
    var t, changed := ById(client), ChangedSince(server, Versions(client));
    ChangedMembers(server, Versions(client));
    PutAllIsNewest(t, changed);
    PutAllIsNewest(t, server);
    UniqueTable(server);
    assert Seen(t, server, s) && Seen(t, changed, c);
    assert Seen(t, changed, PutAll(t, changed)[c.id]);
    assert PutAll(t, changed)[c.id] == c;
  }

  /**
   * Someone who merges only what changed_since gives them has what merging the whole drawing would give, exactly when
   * no element they have at the same version has a higher nonce there: changed_since looks at versions only.
   */
  lemma CatchUpExactly(client: seq<Element>, server: seq<Element>)
    requires UniqueIds(client) && UniqueIds(server)
    ensures PutAll(ById(client), ChangedSince(server, Versions(client))) == PutAll(ById(client), server)
       <==> NonceNotBehind(client, server)
  {
    if NonceNotBehind(client, server) {
      UniqueTable(client);
      forall s | s in server && s.id in Versions(client) && Versions(client)[s.id] == s.version
        ensures s.id in ById(client) && !Newer(s, ById(client)[s.id])
      {
        assert ById(client)[s.id] in client;
      }
      SkippingKnown(ById(client), server, Versions(client));
    } else {
      var c, s :| c in client && s in server && c.id == s.id && c.version == s.version && s.nonce > c.nonce;
      KeptBack(client, server, c, s);
    }
  }

  /** Such an element: same version, higher nonce, never sent. */
  lemma NonceIsMissed()
    ensures var client, server := [Element("a", 2, 1, "x")], [Element("a", 2, 7, "y")];
            && ChangedSince(server, Versions(client)) == []
            && PutAll(ById(client), server) != ById(client)
  {
    var c, s := Element("a", 2, 1, "x"), Element("a", 2, 7, "y");
    assert ById([c]) == map["a" := c];
    assert Versions([c])["a"] == 2;
    assert PutAll(ById([c]), [s]) == map["a" := s];
  }
}
