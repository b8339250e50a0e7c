/** The fixed-depth authenticated map behind the state root. Nodes that equal the
    empty subtree's hash are not stored; one write recomputes one path. The root
    depends on the contents alone, and membership and non-membership proofs are
    accepted exactly when they are right. */
module SparseTree {
  import opened Wrappers

  const DEPTH: nat := 256

  type Digest = nat
  type Bytes = seq<nat>

  /** The 256 path bits of a key, most significant first. */
  type Path = p: seq<bool> | |p| == DEPTH witness seq(DEPTH, _ => false)

  datatype Leaf = Leaf(key: string, value: Bytes)

  /** The four Keccak uses, each with its own domain byte. */
  datatype Hasher = Hasher(
    path: string -> Path,
    empty: Digest,
    leaf: (Path, Leaf) -> Digest,
    branch: (nat, Digest, Digest) -> Digest)

  /** Digests of leaves and branches determine what was hashed. Two keys may
      still share a path; the tree refuses the second one. */
  ghost predicate CollisionFree(h: Hasher) {
    && (forall p, x, q, y :: h.leaf(p, x) == h.leaf(q, y) ==> p == q && x == y)
    && (forall d, l, r, l', r' :: h.branch(d, l, r) == h.branch(d, l', r') ==> l == l' && r == r')
    && (forall p, x :: h.leaf(p, x) != h.empty)
  }

  /** Hashes of empty subtrees by depth. */
  function Default(h: Hasher, depth: nat): Digest
    requires depth <= DEPTH
    decreases DEPTH - depth
  {
    if depth == DEPTH then h.empty
    else h.branch(depth, Default(h, depth + 1), Default(h, depth + 1))
  }

  /** The specification: the hash of the complete subtree below `prefix`. */
  ghost function Subtree(h: Hasher, leaves: map<Path, Leaf>, prefix: seq<bool>): Digest
    requires |prefix| <= DEPTH
    decreases DEPTH - |prefix|
  {
    if |prefix| == DEPTH then
      if prefix in leaves then h.leaf(prefix, leaves[prefix]) else h.empty
    else h.branch(|prefix|, Subtree(h, leaves, prefix + [false]), Subtree(h, leaves, prefix + [true]))
  }

  ghost function Root(h: Hasher, leaves: map<Path, Leaf>): Digest {
    Subtree(h, leaves, [])
  }

  // ---- The stored nodes ----

  /** What a tree with these nodes takes the hash below `prefix` to be. */
  function NodeHash(h: Hasher, nodes: map<seq<bool>, Digest>, prefix: seq<bool>): Digest
    requires |prefix| <= DEPTH
  {
    if prefix in nodes then nodes[prefix] else Default(h, |prefix|)
  }

  /** Exactly the non-empty subtrees are stored. */
  ghost predicate NodesMatch(h: Hasher, nodes: map<seq<bool>, Digest>, leaves: map<Path, Leaf>) {
    && (forall prefix :: prefix in nodes ==> |prefix| <= DEPTH)
    && forall prefix {:trigger Agrees(h, nodes, leaves, prefix)} :: |prefix| <= DEPTH ==>
      Agrees(h, nodes, leaves, prefix)
  }

  ghost predicate Agrees(h: Hasher, nodes: map<seq<bool>, Digest>, leaves: map<Path, Leaf>, prefix: seq<bool>)
    requires |prefix| <= DEPTH
  {
    && NodeHash(h, nodes, prefix) == Subtree(h, leaves, prefix)
    && (prefix in nodes <==>
      if |prefix| == DEPTH then prefix in leaves else Subtree(h, leaves, prefix) != Default(h, |prefix|))
  }

  /** A subtree's hash depends only on the leaves below it. */
  lemma {:induction false} SubtreeFrame(h: Hasher, a: map<Path, Leaf>, b: map<Path, Leaf>, prefix: seq<bool>)
    requires |prefix| <= DEPTH
    requires forall p: Path :: prefix <= p ==> (p in a <==> p in b) && (p in a ==> a[p] == b[p])
    ensures Subtree(h, a, prefix) == Subtree(h, b, prefix)
    decreases DEPTH - |prefix|
  {
    if |prefix| < DEPTH {
      SubtreeFrame(h, a, b, prefix + [false]);
      SubtreeFrame(h, a, b, prefix + [true]);
    }
  }

  lemma {:induction false} EmptySubtree(h: Hasher, prefix: seq<bool>)
    requires |prefix| <= DEPTH
    ensures Subtree(h, map[], prefix) == Default(h, |prefix|)
    decreases DEPTH - |prefix|
  {
    if |prefix| < DEPTH {
      EmptySubtree(h, prefix + [false]);
      EmptySubtree(h, prefix + [true]);
    }
  }

  /** The hash of an inner node from the child on a path and its sibling. */
  function Join(h: Hasher, depth: nat, bit: bool, child: Digest, sibling: Digest): Digest {
    if bit then h.branch(depth, sibling, child) else h.branch(depth, child, sibling)
  }

  /** The sibling of `path[..depth + 1]`. */
  function Sibling(path: Path, depth: nat): seq<bool>
    requires depth < DEPTH
  {
    path[..depth] + [!path[depth]]
  }

  lemma SubtreeOnPath(h: Hasher, leaves: map<Path, Leaf>, path: Path, depth: nat)
    requires depth < DEPTH
    ensures Subtree(h, leaves, path[..depth]) ==
            Join(h, depth, path[depth], Subtree(h, leaves, path[..depth + 1]), Subtree(h, leaves, Sibling(path, depth)))
  {
    assert path[..depth + 1] == path[..depth] + [path[depth]];
  }

  // ---- Copy-on-write layers ----

  datatype Layer<K(==), V> = Layer(writes: map<K, V>, deleted: set<K>)

  /** A map with unpublished layers on top, the newest last. */
  datatype Overlay<K(==), V> = Overlay(base: map<K, V>, layers: seq<Layer<K, V>>) {

    /** Lookup walks from the newest layer down. */
    function Get(k: K): Option<V>
      decreases |layers|
    {
      if layers == [] then
        if k in base then Some(base[k]) else None
      else
        var top := layers[|layers| - 1];
        if k in top.writes then Some(top.writes[k])
        else if k in top.deleted then None
        else Below().Get(k)
    }

    function Below(): Overlay<K, V>
      requires layers != []
    {
      Overlay(base, layers[..|layers| - 1])
    }

    function Put(k: K, v: V): Overlay<K, V> {
      if layers == [] then Overlay(base[k := v], [])
      else var top := layers[|layers| - 1];
           Overlay(base, layers[..|layers| - 1] + [Layer(top.writes[k := v], top.deleted - {k})])
    }

    function Remove(k: K): Overlay<K, V> {
      if layers == [] then Overlay(base - {k}, [])
      else var top := layers[|layers| - 1];
           Overlay(base, layers[..|layers| - 1] + [Layer(top.writes - {k}, top.deleted + {k})])
    }

    function Clone(): Overlay<K, V> {
      Overlay(base, layers + [Layer(map[], {})])
    }

    /** Merge every layer into the base, oldest first. */
    function Publish(): Overlay<K, V>
      decreases |layers|
    {
      if layers == [] then this
      else var below, top := Below().Publish(), layers[|layers| - 1];
           Overlay((below.base - top.deleted) + top.writes, [])
    }

    /** The map the layers stand for. */
    ghost function View(): map<K, V> { Publish().base }

    /** A lookup through the layers finds what the published map holds. */
    lemma {:induction false} GetIsView(k: K)
      ensures Get(k) == if k in View() then Some(View()[k]) else None
      decreases |layers|
    {
      if layers != [] {
        Below().GetIsView(k);
      }
    }

    lemma PutIsUpdate(k: K, v: V)
      ensures Put(k, v).View() == View()[k := v]
    {
      if layers != [] {
        assert Put(k, v).Below() == Below();
      }
    }

    lemma RemoveIsDelete(k: K)
      ensures Remove(k).View() == View() - {k}
    {
      if layers != [] {
        assert Remove(k).Below() == Below();
      }
    }

    lemma CloneAndPublishKeepView()
      ensures Clone().View() == View() && Publish().View() == View()
    {
      assert Clone().Below() == this;
    }
  }

  // ---- Writing one path ----

  /** Every stored node is right except those above `path` at depth `d` or less. */
  ghost predicate MatchBelow(h: Hasher, nodes: map<seq<bool>, Digest>, leaves: map<Path, Leaf>, path: Path, d: nat) {
    && (forall prefix :: prefix in nodes ==> |prefix| <= DEPTH)
    && forall prefix {:trigger Agrees(h, nodes, leaves, prefix)} ::
         |prefix| <= DEPTH && !(|prefix| <= d && prefix <= path) ==> Agrees(h, nodes, leaves, prefix)
  }

  /** Changing one leaf only disturbs the nodes above it. */
  lemma LeafChange(h: Hasher, nodes: map<seq<bool>, Digest>, leaves: map<Path, Leaf>, path: Path, leaf: Option<Leaf>)
    requires NodesMatch(h, nodes, leaves)
    ensures var leaves' := if leaf.Some? then leaves[path := leaf.value] else leaves - {path};
            var nodes' := if leaf.Some? then nodes[path := h.leaf(path, leaf.value)] else nodes - {path};
            MatchBelow(h, nodes', leaves', path, DEPTH - 1) && NodeHash(h, nodes', path) == Subtree(h, leaves', path)
  {
    var leaves' := if leaf.Some? then leaves[path := leaf.value] else leaves - {path};
    var nodes' := if leaf.Some? then nodes[path := h.leaf(path, leaf.value)] else nodes - {path};
    forall prefix | |prefix| <= DEPTH && !(|prefix| <= DEPTH - 1 && prefix <= path)
      ensures Agrees(h, nodes', leaves', prefix)
    {
      assert Agrees(h, nodes, leaves, prefix);
      if prefix != path {
        assert |prefix| == DEPTH ==> !(prefix <= path);
        SubtreeFrame(h, leaves, leaves', prefix);
      }
    }
    assert Agrees(h, nodes', leaves', path);
  }

  /** One round of the recalculation: the node at depth `d` is put right. */
  lemma ClimbOne(h: Hasher, nodes: map<seq<bool>, Digest>, leaves: map<Path, Leaf>, path: Path, d: nat, current: Digest)
    requires d < DEPTH && MatchBelow(h, nodes, leaves, path, d)
    requires current == Subtree(h, leaves, path[..d + 1])
    ensures var joined := Join(h, d, path[d], current, NodeHash(h, nodes, Sibling(path, d)));
            && joined == Subtree(h, leaves, path[..d])
            && var nodes' := if joined == Default(h, d) then nodes - {path[..d]} else nodes[path[..d] := joined];
               if d == 0 then NodesMatch(h, nodes', leaves) else MatchBelow(h, nodes', leaves, path, d - 1)
  {
    var sibling := Sibling(path, d);
    assert !(sibling <= path) by { assert sibling[d] != path[d]; }
    assert Agrees(h, nodes, leaves, sibling);
    SubtreeOnPath(h, leaves, path, d);
    var joined := Join(h, d, path[d], current, NodeHash(h, nodes, sibling));
    var nodes' := if joined == Default(h, d) then nodes - {path[..d]} else nodes[path[..d] := joined];
    forall prefix | |prefix| <= DEPTH && (d == 0 || !(|prefix| <= d - 1 && prefix <= path))
      ensures Agrees(h, nodes', leaves, prefix)
    {
      if |prefix| <= d && prefix <= path {
        assert prefix == path[..d];
      } else {
        assert prefix != path[..d];
        assert Agrees(h, nodes, leaves, prefix);
      }
    }
  }

  const MAX_KEY: nat := 2048
  const MAX_VALUE: nat := 16 * 1024 * 1024

  predicate ValidKey(key: string) {
    0 < |key| <= MAX_KEY && forall i :: 0 <= i < |key| ==> '!' <= key[i] <= '~'
  }

  ghost predicate LeafOk(h: Hasher, p: Path, leaf: Leaf) {
    h.path(leaf.key) == p && ValidKey(leaf.key) && 0 < |leaf.value| <= MAX_VALUE
  }

  /** Another key already sits on the path of `key`. */
  ghost predicate Occupied(h: Hasher, leaves: map<Path, Leaf>, key: string) {
    h.path(key) in leaves && leaves[h.path(key)].key != key
  }

  class Tree {
    const h: Hasher
    var nodes: Overlay<seq<bool>, Digest>
    var leaves: Overlay<Path, Leaf>
    var entryCount: nat

    /** The nodes stored are those the contents call for. */
    ghost predicate Valid()
      reads this
    {
      && CollisionFree(h)
      && NodesMatch(h, nodes.View(), leaves.View())
      && entryCount == |leaves.View()|
      && forall p :: p in leaves.View() ==> LeafOk(h, p, leaves.View()[p])
    }

    constructor (h: Hasher)
      requires CollisionFree(h)
      ensures Valid() && this.h == h && leaves.View() == map[]
    {
      this.h := h;
      nodes, leaves, entryCount := Overlay(map[], []), Overlay(map[], []), 0;
      new;
      forall prefix: seq<bool> | |prefix| <= DEPTH
        ensures Agrees(h, map[], map[], prefix)
      {
        EmptySubtree(h, prefix);
      }
    }

    /** The stored root is the hash of the whole tree, whatever writes led here. */
    method RootHash() returns (r: Digest)
      requires Valid()
      ensures r == Root(h, leaves.View())
    {
      r := StoredHash([]);
    }

    method StoredHash(prefix: seq<bool>) returns (r: Digest)
      requires |prefix| <= DEPTH
      ensures r == NodeHash(h, nodes.View(), prefix)
      ensures NodesMatch(h, nodes.View(), leaves.View()) ==> r == Subtree(h, leaves.View(), prefix)
    {
      nodes.GetIsView(prefix);
      var stored := nodes.Get(prefix);
      r := if stored.Some? then stored.value else Default(h, |prefix|);
      assert NodesMatch(h, nodes.View(), leaves.View()) ==> Agrees(h, nodes.View(), leaves.View(), prefix);
    }

    method RecalculatePath(path: Path, leafHash: Digest)
      requires MatchBelow(h, nodes.View(), leaves.View(), path, DEPTH - 1)
      requires leafHash == Subtree(h, leaves.View(), path)
      modifies `nodes
      ensures NodesMatch(h, nodes.View(), leaves.View())
    {
      var current := leafHash;
      var d := DEPTH;
      assert path[..DEPTH] == path;
      while d > 0
        invariant 0 <= d <= DEPTH
        invariant if d == 0 then NodesMatch(h, nodes.View(), leaves.View())
                    else MatchBelow(h, nodes.View(), leaves.View(), path, d - 1)
        invariant current == Subtree(h, leaves.View(), path[..d])
      {
        d := d - 1;
        ClimbOne(h, nodes.View(), leaves.View(), path, d, current);
        var sibling := StoredHash(Sibling(path, d));
        current := Join(h, d, path[d], current, sibling);
        if current == Default(h, d) {
          nodes.RemoveIsDelete(path[..d]);
          nodes := nodes.Remove(path[..d]);
        } else {
          nodes.PutIsUpdate(path[..d], current);
          nodes := nodes.Put(path[..d], current);
        }
      }
    }

    method Set(key: string, value: Bytes) returns (ok: bool)
      requires Valid()
      modifies this
      ensures Valid()
      ensures ok <==> ValidKey(key) && 0 < |value| <= MAX_VALUE && !Occupied(h, old(leaves.View()), key)
      ensures leaves.View() == if ok then old(leaves.View())[h.path(key) := Leaf(key, value)] else old(leaves.View())
    {
      hide CollisionFree, NodesMatch, MatchBelow, Overlay.Publish, ValidKey;
      if !ValidKey(key) || |value| == 0 || |value| > MAX_VALUE {
        return false;
      }
      ghost var contents := leaves.View();
      var path := h.path(key);
      leaves.GetIsView(path);
      var existing := leaves.Get(path);
      if existing.Some? {
        if existing.value.key != key {
          return false;
        }
        if existing.value.value == value {
          assert contents[path := Leaf(key, value)] == contents;
          return true;
        }
      } else {
        entryCount := entryCount + 1;
      }
      WriteLeaf(path, Leaf(key, value));
      return true;
    }

    method WriteLeaf(path: Path, leaf: Leaf)
      requires NodesMatch(h, nodes.View(), leaves.View())
      modifies `nodes, `leaves
      ensures leaves.View() == old(leaves.View())[path := leaf] && NodesMatch(h, nodes.View(), leaves.View())
    {
      LeafChange(h, nodes.View(), leaves.View(), path, Some(leaf));
      leaves.PutIsUpdate(path, leaf);
      leaves := leaves.Put(path, leaf);
      var current := h.leaf(path, leaf);
      nodes.PutIsUpdate(path, current);
      nodes := nodes.Put(path, current);
      RecalculatePath(path, current);
    }

    method Delete(key: string) returns (ok: bool)
      requires Valid()
      modifies this
      ensures Valid()
      ensures ok <==> ValidKey(key) && !Occupied(h, old(leaves.View()), key)
      ensures leaves.View() == if ok then old(leaves.View()) - {h.path(key)} else old(leaves.View())
    {
      hide CollisionFree, NodesMatch, MatchBelow, Overlay.Publish, ValidKey;
      if !ValidKey(key) {
        return false;
      }
      ghost var contents := leaves.View();
      var path := h.path(key);
      leaves.GetIsView(path);
      var existing := leaves.Get(path);
      if existing.None? {
        assert contents - {path} == contents;
        return true;
      }
      if existing.value.key != key {
        return false;
      }
      LeafChange(h, nodes.View(), contents, path, None);
      leaves.RemoveIsDelete(path);
      leaves := leaves.Remove(path);
      entryCount := entryCount - 1;
      assert |contents - {path}| == |contents| - 1 by { assert (contents - {path}).Keys == contents.Keys - {path}; }
      nodes.RemoveIsDelete(path);
      nodes := nodes.Remove(path);
      RecalculatePath(path, Default(h, DEPTH));
      return true;
    }

    /** The siblings of the key's path, leaf level first; those that are empty
        subtrees are only marked in the bitmap. */
    method Prove(key: string) returns (ok: bool, proof: Proof)
      requires Valid()
      ensures ok <==> ValidKey(key) && !Occupied(h, leaves.View(), key)
      ensures ok ==> ProofOk(h, proof) && proof.key == key && Claims(h, leaves.View(), proof)
      ensures ok ==> Climb(h, proof, 0) == Root(h, leaves.View())
    {
      hide CollisionFree, NodesMatch, Overlay.Publish, ValidKey, Subtree, Climb, Default;
      proof := Proof(key, None, [], []);
      if !ValidKey(key) {
        return false, proof;
      }
      var path := h.path(key);
      leaves.GetIsView(path);
      var leaf := leaves.Get(path);
      if leaf.Some? && leaf.value.key != key {
        return false, proof;
      }
      ghost var contents := leaves.View();
      assert leaf.Some? ==> LeafOk(h, path, contents[path]);
      var bitmap: seq<bool>, siblings: seq<Digest> := [], [];
      for level := 0 to DEPTH
        invariant |bitmap| == level && |siblings| == Ones(bitmap)
        invariant forall l {:trigger SiblingAt(h, bitmap, siblings, l)} :: 0 <= l < level ==>
                    SiblingAt(h, bitmap, siblings, l) == Subtree(h, contents, Sibling(path, DEPTH - 1 - l))
      {
        var depth := DEPTH - 1 - level;
        var sibling := StoredHash(Sibling(path, depth));
        SiblingAppends(h, bitmap, siblings, sibling != Default(h, depth + 1), sibling);
        if sibling != Default(h, depth + 1) {
          bitmap, siblings := bitmap + [true], siblings + [sibling];
        } else {
          bitmap := bitmap + [false];
        }
      }
      proof := Proof(key, if leaf.Some? then Some(leaf.value.value) else None, bitmap, siblings);
      HonestClimb(h, contents, proof, 0);
      return true, proof;
    }
  }

  // ---- Proofs ----

  /** `value` is the claimed value, or `None` for a claim of absence. */
  datatype Proof = Proof(key: string, value: Option<Bytes>, bitmap: seq<bool>, siblings: seq<Digest>)

  function Ones(bitmap: seq<bool>): nat {
    if bitmap == [] then 0 else Ones(bitmap[..|bitmap| - 1]) + if bitmap[|bitmap| - 1] then 1 else 0
  }

  lemma {:induction false} OnesMonotone(bitmap: seq<bool>, level: nat)
    requires level < |bitmap|
    ensures Ones(bitmap[..level]) + (if bitmap[level] then 1 else 0) <= Ones(bitmap)
    decreases |bitmap|
  {
    var last := bitmap[..|bitmap| - 1];
    if level < |last| {
      OnesMonotone(last, level);
      assert last[..level] == bitmap[..level];
    } else {
      assert bitmap[..level] == last;
    }
  }

  /** The sibling used at `level`: the next listed one, or an empty subtree. */
  ghost function SiblingAt(h: Hasher, bitmap: seq<bool>, siblings: seq<Digest>, level: nat): Digest
    requires level < |bitmap| <= DEPTH && |siblings| == Ones(bitmap)
  {
    OnesMonotone(bitmap, level);
    if bitmap[level] then siblings[Ones(bitmap[..level])] else Default(h, DEPTH - level)
  }

  lemma SiblingAppends(h: Hasher, bitmap: seq<bool>, siblings: seq<Digest>, bit: bool, sibling: Digest)
    requires |bitmap| < DEPTH && |siblings| == Ones(bitmap)
    ensures var bitmap' := bitmap + [bit];
            var siblings' := if bit then siblings + [sibling] else siblings;
            && |siblings'| == Ones(bitmap')
            && SiblingAt(h, bitmap', siblings', |bitmap|) == (if bit then sibling else Default(h, DEPTH - |bitmap|))
            && forall l {:trigger SiblingAt(h, bitmap', siblings', l)} :: 0 <= l < |bitmap| ==>
                 SiblingAt(h, bitmap', siblings', l) == SiblingAt(h, bitmap, siblings, l)
  {
    var bitmap' := bitmap + [bit];
    assert bitmap'[..|bitmap|] == bitmap;
    forall l | 0 <= l < |bitmap|
      ensures bitmap'[..l] == bitmap[..l]
    {
    }
    forall l | 0 <= l < |bitmap| && bitmap[l]
      ensures Ones(bitmap[..l]) < |siblings|
    {
      OnesMonotone(bitmap, l);
    }
  }

  predicate ProofOk(h: Hasher, proof: Proof) {
    && ValidKey(proof.key)
    && |proof.bitmap| == DEPTH
    && |proof.siblings| == Ones(proof.bitmap)
    && (proof.value.Some? ==> 0 < |proof.value.value| <= MAX_VALUE)
  }

  function ClaimedLeaf(h: Hasher, proof: Proof): Digest {
    if proof.value.Some? then h.leaf(h.path(proof.key), Leaf(proof.key, proof.value.value)) else h.empty
  }

  /** The hash a proof implies for the node of its path at `depth`. */
  ghost function Climb(h: Hasher, proof: Proof, depth: nat): Digest
    requires ProofOk(h, proof) && depth <= DEPTH
    decreases DEPTH - depth
  {
    if depth == DEPTH then ClaimedLeaf(h, proof)
    else Join(h, depth, h.path(proof.key)[depth], Climb(h, proof, depth + 1),
              SiblingAt(h, proof.bitmap, proof.siblings, DEPTH - 1 - depth))
  }

  /** What the proof claims is true of the contents. */
  ghost predicate Claims(h: Hasher, leaves: map<Path, Leaf>, proof: Proof) {
    var path := h.path(proof.key);
    if proof.value.Some? then path in leaves && leaves[path] == Leaf(proof.key, proof.value.value)
    else path !in leaves
  }

  lemma {:induction false} HonestClimb(h: Hasher, leaves: map<Path, Leaf>, proof: Proof, depth: nat)
    requires ProofOk(h, proof) && depth <= DEPTH && Claims(h, leaves, proof)
    requires forall l {:trigger SiblingAt(h, proof.bitmap, proof.siblings, l)} :: 0 <= l < DEPTH ==>
               SiblingAt(h, proof.bitmap, proof.siblings, l)
                 == Subtree(h, leaves, Sibling(h.path(proof.key), DEPTH - 1 - l))
    ensures Climb(h, proof, depth) == Subtree(h, leaves, h.path(proof.key)[..depth])
    decreases DEPTH - depth
  {
    var path := h.path(proof.key);
    if depth < DEPTH {
      HonestClimb(h, leaves, proof, depth + 1);
      SubtreeOnPath(h, leaves, path, depth);
    } else {
      assert path[..depth] == path;
    }
  }

  /** A proof that reaches the right root is right at every depth of its path. */
  lemma {:induction false} RootFixesPath(h: Hasher, leaves: map<Path, Leaf>, proof: Proof, depth: nat)
    requires CollisionFree(h) && ProofOk(h, proof) && depth <= DEPTH
    requires Climb(h, proof, 0) == Root(h, leaves)
    ensures Climb(h, proof, depth) == Subtree(h, leaves, h.path(proof.key)[..depth])
    decreases depth
  {
    if depth > 0 {
      RootFixesPath(h, leaves, proof, depth - 1);
      SubtreeOnPath(h, leaves, h.path(proof.key), depth - 1);
    }
  }

  /** A proof that is accepted against a tree's root states what the tree holds:
      the very value for a claim of presence, nothing for a claim of absence. */
  lemma ProofIsSound(h: Hasher, leaves: map<Path, Leaf>, proof: Proof)
    requires CollisionFree(h) && ProofOk(h, proof)
    requires Climb(h, proof, 0) == Root(h, leaves)
    ensures Claims(h, leaves, proof)
  {
    RootFixesPath(h, leaves, proof, DEPTH);
    assert h.path(proof.key)[..DEPTH] == h.path(proof.key);
  }

  /** Every sibling, listed or empty, is that of the tree. */
  ghost predicate SiblingsAre(h: Hasher, leaves: map<Path, Leaf>, proof: Proof)
    requires |proof.bitmap| == DEPTH && |proof.siblings| == Ones(proof.bitmap)
  {
    forall l {:trigger SiblingAt(h, proof.bitmap, proof.siblings, l)} :: 0 <= l < DEPTH ==>
      SiblingAt(h, proof.bitmap, proof.siblings, l) == Subtree(h, leaves, Sibling(h.path(proof.key), DEPTH - 1 - l))
  }

  /** Exactly the honest proofs are accepted: the key has 1 to 2048 printable characters,
      the value at most 16 MiB and at least one byte, a bit for each of the 256 levels
      says whether a sibling is listed, all siblings are those of the tree, and the claim
      is true. */
  lemma ProofIff(h: Hasher, leaves: map<Path, Leaf>, proof: Proof)
    requires CollisionFree(h)
    ensures ProofOk(h, proof) && Climb(h, proof, 0) == Root(h, leaves) <==>
              && 1 <= |proof.key| <= 2048
              && !(exists i :: 0 <= i < |proof.key| && (proof.key[i] < '!' || proof.key[i] > '~'))
              && (proof.value.Some? ==> 1 <= |proof.value.value| <= 16_777_216)
              && |proof.bitmap| == 256 && |proof.siblings| == Ones(proof.bitmap)
              && SiblingsAre(h, leaves, proof) && Claims(h, leaves, proof)
  {
    hide Climb, Ones, Default, Subtree, SiblingAt, SiblingsAre, Claims, CollisionFree;
    if ProofOk(h, proof) {
      if Climb(h, proof, 0) == Root(h, leaves) {
        ProofIsSound(h, leaves, proof);
        RootFixesSiblings(h, leaves, proof);
      } else if SiblingsAre(h, leaves, proof) && Claims(h, leaves, proof) {
        SiblingsReachRoot(h, leaves, proof);
      }
    }
  }

  lemma SiblingsReachRoot(h: Hasher, leaves: map<Path, Leaf>, proof: Proof)
    requires ProofOk(h, proof) && SiblingsAre(h, leaves, proof) && Claims(h, leaves, proof)
    ensures Climb(h, proof, 0) == Root(h, leaves)
  {
    hide Climb, Subtree, SiblingAt, Claims;
    HonestClimb(h, leaves, proof, 0);
    assert h.path(proof.key)[..0] == [];
  }

  lemma RootFixesSiblings(h: Hasher, leaves: map<Path, Leaf>, proof: Proof)
    requires CollisionFree(h) && ProofOk(h, proof) && Climb(h, proof, 0) == Root(h, leaves)
    ensures SiblingsAre(h, leaves, proof)
  {
    hide SiblingAt, Subtree;
    forall l | 0 <= l < DEPTH
      ensures SiblingAt(h, proof.bitmap, proof.siblings, l) ==
              Subtree(h, leaves, Sibling(h.path(proof.key), DEPTH - 1 - l))
    {
      RootFixesPath(h, leaves, proof, DEPTH - 1 - l);
      RootFixesPath(h, leaves, proof, DEPTH - l);
      SubtreeOnPath(h, leaves, h.path(proof.key), DEPTH - 1 - l);
    }
  }

  /** Recompute the root from the leaf up. */
  method VerifySparse(h: Hasher, expectedRoot: Digest, proof: Proof) returns (ok: bool)
    ensures ok <==> ProofOk(h, proof) && Climb(h, proof, 0) == expectedRoot
  {
    if !ValidKey(proof.key) || |proof.bitmap| != DEPTH || |proof.siblings| != Ones(proof.bitmap) {
      return false;
    }
    if proof.value.Some? && (|proof.value.value| == 0 || |proof.value.value| > MAX_VALUE) {
      return false;
    }
    assert ProofOk(h, proof);
    hide ValidKey, Climb, Ones, Default, Join, ClaimedLeaf, ProofOk;
    var path := h.path(proof.key);
    var current := ClaimedLeaf(h, proof);
    var siblingIndex := 0;
    ClimbFromLeaf(h, proof);
    for level := 0 to DEPTH
      invariant siblingIndex == Ones(proof.bitmap[..level])
      invariant current == Climb(h, proof, DEPTH - level)
    {
      ClimbStep(h, proof, level);
      var depth := DEPTH - 1 - level;
      var sibling := Default(h, depth + 1);
      if proof.bitmap[level] {
        sibling := proof.siblings[siblingIndex];
        siblingIndex := siblingIndex + 1;
      }
      current := Join(h, depth, path[depth], current, sibling);
    }
    return current == expectedRoot;
  }

  lemma ClimbFromLeaf(h: Hasher, proof: Proof)
    requires ProofOk(h, proof)
    ensures Climb(h, proof, DEPTH) == ClaimedLeaf(h, proof) && Ones(proof.bitmap[..0]) == 0
  {
  }

  lemma ClimbStep(h: Hasher, proof: Proof, level: nat)
    requires ProofOk(h, proof) && level < DEPTH && |proof.bitmap| == DEPTH
    ensures var used := Ones(proof.bitmap[..level]);
            && Ones(proof.bitmap[..level + 1]) == used + (if proof.bitmap[level] then 1 else 0)
            && (proof.bitmap[level] ==> used < |proof.siblings|)
            && Climb(h, proof, DEPTH - level - 1) ==
                 Join(h, DEPTH - level - 1, h.path(proof.key)[DEPTH - level - 1], Climb(h, proof, DEPTH - level),
                      if proof.bitmap[level] then proof.siblings[used] else Default(h, DEPTH - level))
  {
    hide Join, Default, ValidKey;
    OnesMonotone(proof.bitmap, level);
    assert proof.bitmap[..level + 1][..level] == proof.bitmap[..level];
  }

  /** Equal roots mean equal contents below every prefix. */
  lemma {:induction false} RootBindsContents(h: Hasher, a: map<Path, Leaf>, b: map<Path, Leaf>, path: Path, depth: nat)
    requires CollisionFree(h) && Root(h, a) == Root(h, b) && depth <= DEPTH
    ensures Subtree(h, a, path[..depth]) == Subtree(h, b, path[..depth])
    ensures depth == DEPTH ==> (path in a <==> path in b) && (path in a ==> a[path] == b[path])
    decreases depth
  {
    if depth > 0 {
      RootBindsContents(h, a, b, path, depth - 1);
      SubtreeOnPath(h, a, path, depth - 1);
      SubtreeOnPath(h, b, path, depth - 1);
    }
    if depth == DEPTH {
      assert path[..depth] == path;
    }
  }

  /** The root determines the contents and the contents determine the root. */
  lemma RootIsContents(h: Hasher, a: map<Path, Leaf>, b: map<Path, Leaf>)
    requires CollisionFree(h)
    ensures Root(h, a) == Root(h, b) <==> a == b
  {
    if Root(h, a) == Root(h, b) {
      forall path: Path
        ensures (path in a <==> path in b) && (path in a ==> a[path] == b[path])
      {
        RootBindsContents(h, a, b, path, DEPTH);
      }
      assert a == b;
    }
  }
}
