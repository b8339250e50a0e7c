/** The sparse tree over the flat state: a commit changes it entry by entry, a
    checkpoint builds it anew, and both have the same root. */
module FlatTree {
  import opened Wrappers
  import opened FlatState
  import SparseTree

  /** The tree key and the bytes of an entry. */
  datatype Codec = Codec(key: Key -> string, bytes: Value -> SparseTree.Bytes)

  /** The entries in use encode within the limits and do not share a path. */
  ghost predicate Faithful(h: SparseTree.Hasher, c: Codec, used: set<Key>) {
    && (forall k :: k in used ==> SparseTree.ValidKey(c.key(k)))
    && (forall j, k :: j in used && k in used && h.path(c.key(j)) == h.path(c.key(k)) ==> j == k)
    && (forall v :: 0 < |c.bytes(v)| <= SparseTree.MAX_VALUE)
  }

  ghost predicate Holds(h: SparseTree.Hasher, c: Codec, leaves: map<SparseTree.Path, SparseTree.Leaf>, k: Key,
                        v: Value) {
    h.path(c.key(k)) in leaves && leaves[h.path(c.key(k))] == SparseTree.Leaf(c.key(k), c.bytes(v))
  }

  /** The tree holds exactly the entries of the flat state. */
  ghost predicate Represents(h: SparseTree.Hasher, c: Codec, leaves: map<SparseTree.Path, SparseTree.Leaf>,
                             flat: Flat) {
    && (forall k :: k in flat ==> Holds(h, c, leaves, k, flat[k]))
    && (forall p :: p in leaves ==> exists k :: k in flat && h.path(c.key(k)) == p)
  }

  /** So the flat state determines the contents, and with them the root. */
  lemma RepresentsOnce(h: SparseTree.Hasher, c: Codec, a: map<SparseTree.Path, SparseTree.Leaf>,
                       b: map<SparseTree.Path, SparseTree.Leaf>, flat: Flat)
    requires Represents(h, c, a, flat) && Represents(h, c, b, flat)
    ensures a == b
  {
    forall p
      ensures p in a <==> p in b
      ensures p in a ==> a[p] == b[p]
    {
      if p in a {
        var k :| k in flat && h.path(c.key(k)) == p;
        assert Holds(h, c, a, k, flat[k]) && Holds(h, c, b, k, flat[k]);
      }
      if p in b {
        var k :| k in flat && h.path(c.key(k)) == p;
        assert Holds(h, c, a, k, flat[k]);
      }
    }
  }

  lemma PathsDiffer(h: SparseTree.Hasher, c: Codec, used: set<Key>, j: Key, k: Key)
    requires Faithful(h, c, used) && j in used && k in used
    ensures h.path(c.key(j)) == h.path(c.key(k)) ==> j == k
  {
  }

  lemma SetEntry(h: SparseTree.Hasher, c: Codec, leaves: map<SparseTree.Path, SparseTree.Leaf>, flat: Flat, k: Key,
                 v: Value, used: set<Key>)
    requires Represents(h, c, leaves, flat) && Faithful(h, c, used) && flat.Keys <= used && k in used
    ensures !SparseTree.Occupied(h, leaves, c.key(k))
    ensures Represents(h, c, leaves[h.path(c.key(k)) := SparseTree.Leaf(c.key(k), c.bytes(v))], flat[k := v])
  {
    hide Faithful;
    var path, flat' := h.path(c.key(k)), flat[k := v];
    var leaves' := leaves[path := SparseTree.Leaf(c.key(k), c.bytes(v))];
    if path in leaves {
      var j :| j in flat && h.path(c.key(j)) == path;
      PathsDiffer(h, c, used, j, k);
      assert Holds(h, c, leaves, j, flat[j]);
    }
    forall p | p in leaves'
      ensures exists j :: j in flat' && h.path(c.key(j)) == p
    {
      if p == path {
        assert k in flat';
      } else {
        var j :| j in flat && h.path(c.key(j)) == p;
        assert j in flat';
      }
    }
    forall j | j in flat'
      ensures Holds(h, c, leaves', j, flat'[j])
    {
      if j != k {
        PathsDiffer(h, c, used, j, k);
        assert Holds(h, c, leaves, j, flat[j]);
      }
    }
  }

  lemma DeleteEntry(h: SparseTree.Hasher, c: Codec, leaves: map<SparseTree.Path, SparseTree.Leaf>, flat: Flat, k: Key,
                    used: set<Key>)
    requires Represents(h, c, leaves, flat) && Faithful(h, c, used) && flat.Keys <= used && k in used
    ensures !SparseTree.Occupied(h, leaves, c.key(k))
    ensures Represents(h, c, leaves - {h.path(c.key(k))}, flat - {k})
  {
    hide Faithful;
    var path, flat' := h.path(c.key(k)), flat - {k};
    var leaves' := leaves - {path};
    if path in leaves {
      var j :| j in flat && h.path(c.key(j)) == path;
      PathsDiffer(h, c, used, j, k);
      assert Holds(h, c, leaves, j, flat[j]);
    }
    forall p | p in leaves'
      ensures exists j :: j in flat' && h.path(c.key(j)) == p
    {
      var j :| j in flat && h.path(c.key(j)) == p;
      assert j in flat';
    }
    forall j | j in flat'
      ensures Holds(h, c, leaves', j, flat'[j])
    {
      PathsDiffer(h, c, used, j, k);
      assert Holds(h, c, leaves, j, flat[j]);
    }
  }

  /** A well-formed tree over `flat`. */
  ghost predicate TreeOf(t: SparseTree.Tree, c: Codec, flat: Flat)
    reads t
  {
    t.Valid() && Represents(t.h, c, t.leaves.View(), flat)
  }

  method DeleteOne(t: SparseTree.Tree, c: Codec, k: Key, ghost flat: Flat, ghost used: set<Key>) returns (ok: bool)
    requires TreeOf(t, c, flat) && Faithful(t.h, c, used) && flat.Keys <= used && k in used
    modifies t
    ensures ok && TreeOf(t, c, flat - {k})
  {
    hide Represents, SparseTree.ValidKey;
    DeleteEntry(t.h, c, t.leaves.View(), flat, k, used);
    ok := t.Delete(c.key(k));
  }

  method SetOne(t: SparseTree.Tree, c: Codec, k: Key, v: Value, ghost flat: Flat, ghost used: set<Key>)
      returns (ok: bool)
    requires TreeOf(t, c, flat) && Faithful(t.h, c, used) && flat.Keys <= used && k in used
    modifies t
    ensures ok && TreeOf(t, c, flat[k := v])
  {
    hide Represents, SparseTree.ValidKey;
    SetEntry(t.h, c, t.leaves.View(), flat, k, v, used);
    ok := t.Set(c.key(k), c.bytes(v));
  }

  method DeleteEntries(t: SparseTree.Tree, c: Codec, deletes: set<Key>, ghost flat: Flat, ghost used: set<Key>)
      returns (ok: bool)
    requires TreeOf(t, c, flat) && Faithful(t.h, c, used) && flat.Keys + deletes <= used
    modifies t
    ensures ok && TreeOf(t, c, flat - deletes)
  {
    hide TreeOf, Faithful;
    ghost var now := flat;
    var done: set<Key> := {};
    assert flat - done == flat;
    while done != deletes
      invariant done <= deletes && now == flat - done && TreeOf(t, c, now)
      decreases deletes - done
    {
      var k :| k in deletes && k !in done;
      ok := DeleteOne(t, c, k, now, used);
      assert now - {k} == flat - (done + {k});
      now, done := now - {k}, done + {k};
    }
    ok := true;
  }

  method SetEntries(t: SparseTree.Tree, c: Codec, sets: Flat, ghost flat: Flat, ghost used: set<Key>) returns (ok: bool)
    requires TreeOf(t, c, flat) && Faithful(t.h, c, used) && flat.Keys + sets.Keys <= used
    modifies t
    ensures ok && TreeOf(t, c, flat + sets)
  {
    hide TreeOf, Faithful;
    var done: set<Key> := {};
    ghost var now := flat;
    while done != sets.Keys
      invariant done <= sets.Keys && now == flat + (map x | x in done :: sets[x]) && TreeOf(t, c, now)
      decreases sets.Keys - done
    {
      var k :| k in sets.Keys && k !in done;
      ok := SetOne(t, c, k, sets[k], now, used);
      PutStep(flat, sets, done, k);
      now, done := now[k := sets[k]], done + {k};
    }
    assert (map x | x in done :: sets[x]) == sets;
    ok := true;
  }

  /** Deletes first, then sets, each one write into the tree. */
  method ApplyDeltaToTree(t: SparseTree.Tree, c: Codec, d: Delta, ghost flat: Flat, ghost used: set<Key>)
      returns (ok: bool)
    requires TreeOf(t, c, flat) && Faithful(t.h, c, used) && flat.Keys + d.sets.Keys + d.deletes <= used
    modifies t
    ensures ok && TreeOf(t, c, Apply(flat, d))
  {
    hide TreeOf, Faithful;
    ok := DeleteEntries(t, c, d.deletes, flat, used);
    ok := SetEntries(t, c, d.sets, flat - d.deletes, used);
  }

  /** A tree built from nothing. */
  method BuildTree(h: SparseTree.Hasher, c: Codec, flat: Flat) returns (t: SparseTree.Tree)
    requires SparseTree.CollisionFree(h) && Faithful(h, c, flat.Keys)
    ensures fresh(t) && t.h == h && TreeOf(t, c, flat)
  {
    hide Faithful, SparseTree.CollisionFree;
    t := new SparseTree.Tree(h);
    assert TreeOf(t, c, map[]);
    var ok := SetEntries(t, c, flat, map[], flat.Keys);
    assert map[] + flat == flat;
  }

  /** The check made at every checkpoint never fails: the tree changed by the
      delta and the tree rebuilt from the complete state have the same root. */
  method IncrementalMatchesRebuild(t: SparseTree.Tree, c: Codec, d: Delta, complete: Flat, ghost flat: Flat,
                                   ghost used: set<Key>) returns (same: bool)
    requires TreeOf(t, c, flat) && complete == Apply(flat, d)
    requires Faithful(t.h, c, used) && flat.Keys + d.sets.Keys + d.deletes <= used
    modifies t
    ensures same && TreeOf(t, c, complete)
  {
    hide Represents;
    var ok := ApplyDeltaToTree(t, c, d, flat, used);
    assert complete.Keys <= used;
    var rebuilt := BuildTree(t.h, c, complete);
    RepresentsOnce(t.h, c, t.leaves.View(), rebuilt.leaves.View(), complete);
    var incremental := t.RootHash();
    var anew := rebuilt.RootHash();
    same := incremental == anew;
  }
}
