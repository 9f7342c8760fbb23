/** The inventory root of scripts/release_manifests.py: a bottom-up pairing loop with
    odd-node promotion, related to the top-down tree of section 2.1 of RFC 6962. */
module Merkle {

  type Digest = nat

  /** One inventory row; `path` and `sha256` are tokens compared for equality only. */
  datatype Row = Row(path: nat, length: nat, sha256: nat)

  /** The three domain-tagged SHA-256 uses: one row, two child digests, no rows at all. */
  datatype Hashing = Hashing(leaf: Row -> Digest, node: (Digest, Digest) -> Digest, empty: Digest)

  /** What SHA-256 with three distinct domain tags is trusted for. */
  ghost predicate CollisionFree(h: Hashing) {
    && (forall a, b :: h.leaf(a) == h.leaf(b) ==> a == b)
    && (forall a, b, c, d :: h.node(a, b) == h.node(c, d) ==> a == c && b == d)
    && (forall a, c, d :: h.leaf(a) != h.node(c, d))
    && (forall a :: h.leaf(a) != h.empty)
    && (forall c, d :: h.node(c, d) != h.empty)
  }

  function Leaves(h: Hashing, rows: seq<Row>): (level: seq<Digest>)
    ensures |level| == |rows|
    ensures forall i :: 0 <= i < |rows| ==> level[i] == h.leaf(rows[i])
  {
    if rows == [] then [] else Leaves(h, rows[..|rows| - 1]) + [h.leaf(rows[|rows| - 1])]
  }

  /** The level above `level`: neighbours are paired, an odd last digest moves up unchanged. */
  function Paired(h: Hashing, level: seq<Digest>): (up: seq<Digest>)
    ensures 2 * |up| - 1 <= |level| <= 2 * |up|
  {
    if |level| <= 1 then level
    else [h.node(level[0], level[1])] + Paired(h, level[2..])
  }

  /** n / 2 rounded up: the size of the level above n digests. */
  function Half(n: nat): (m: nat)
    ensures 2 * m - 1 <= n <= 2 * m
  {
    (n + 1) / 2
  }

  /** The largest power of two strictly below n. */
  function Split(n: nat): (k: nat)
    requires 2 <= n
    ensures 1 <= k < n <= 2 * k
  {
    if n == 2 then 1 else 2 * Split(Half(n))
  }

  ghost predicate PowerOfTwo(k: nat) {
    k == 1 || (k > 0 && k % 2 == 0 && PowerOfTwo(k / 2))
  }

  /** Split really is the power of two that RFC 6962 names: no other lies in [n/2, n). */
  lemma {:induction false} SplitIsLargestPower(n: nat)
    requires 2 <= n
    ensures PowerOfTwo(Split(n))
    ensures forall k: nat :: PowerOfTwo(k) && k < n ==> k <= Split(n)
    decreases n
  {
    if n > 2 {
      SplitIsLargestPower(Half(n));
      assert Split(n) / 2 == Split(Half(n));
      forall k: nat | PowerOfTwo(k) && k < n ensures k <= Split(n) {
        if k != 1 {
          assert PowerOfTwo(k / 2) && k / 2 < Half(n);
        }
      }
    }
  }

  /** The top-down tree of section 2.1 of RFC 6962 over an already hashed level. */
  function Tree(h: Hashing, level: seq<Digest>): Digest
    requires level != []
    decreases |level|
  {
    if |level| == 1 then level[0]
    else
      var k := Split(|level|);
      h.node(Tree(h, level[..k]), Tree(h, level[k..]))
  }

  /** The specified root of a whole inventory. */
  function Root(h: Hashing, rows: seq<Row>): Digest {
    if rows == [] then h.empty else Tree(h, Leaves(h, rows))
  }

  lemma {:induction false} PairedConcat(h: Hashing, a: seq<Digest>, b: seq<Digest>)
    requires |a| % 2 == 0
    ensures Paired(h, a + b) == Paired(h, a) + Paired(h, b)
    decreases |a|
  {
    if a == [] {
      assert a + b == b;
    } else {
      PairedConcat(h, a[2..], b);
      assert (a + b)[2..] == a[2..] + b;
    }
  }

  /** One round of the bottom-up loop does not change the top-down root. */
  lemma {:induction false} PairingKeepsTree(h: Hashing, level: seq<Digest>)
    requires |level| >= 1
    ensures Tree(h, Paired(h, level)) == Tree(h, level)
    decreases |level|
  {
    if |level| == 2 {
      assert Paired(h, level[2..]) == [];
      assert level[..1] == [level[0]] && level[1..] == [level[1]];
    } else if |level| > 2 {
      var m := Split(Half(|level|));
      var a, b := level[..2 * m], level[2 * m..];
      assert level == a + b;
      PairedConcat(h, a, b);
      PairingKeepsTree(h, a);
      PairingKeepsTree(h, b);
      var up := Paired(h, level);
      assert |up| == Half(|level|);
      assert up[..m] == Paired(h, a) && up[m..] == Paired(h, b);
    }
  }

  /** The inner loop of merkle_root, building `next_level` two digests at a time. */
  lemma PairedStep(h: Hashing, level: seq<Digest>, i: nat)
    requires i < |level|
    ensures Paired(h, level[i..]) ==
            if i + 1 == |level| then [level[i]] else [h.node(level[i], level[i + 1])] + Paired(h, level[i + 2..])
  {
    if i + 1 < |level| {
      assert level[i..][2..] == level[i + 2..];
    }
  }

  method NextLevel(h: Hashing, level: seq<Digest>) returns (nextLevel: seq<Digest>)
    ensures nextLevel == Paired(h, level)
  {
    hide Paired;
    nextLevel := [];
    var index := 0;
    while index < |level|
      invariant 0 <= index
      invariant nextLevel + (if index < |level| then Paired(h, level[index..]) else []) == Paired(h, level)
    {
      var left := level[index];
      PairedStep(h, level, index);
      if index + 1 == |level| {
        nextLevel := nextLevel + [left];
      } else {
        nextLevel := nextLevel + [h.node(left, level[index + 1])];
      }
      index := index + 2;
    }
  }

  /** The outer loop of merkle_root: replace the level by its pairing until one digest is left. */
  method MerkleRoot(h: Hashing, rows: seq<Row>) returns (root: Digest)
    ensures root == Root(h, rows)
  {
    if rows == [] {
      return h.empty;
    }
    var level := Leaves(h, rows);
    while |level| > 1
      invariant level != [] && Tree(h, level) == Root(h, rows)
      decreases |level|
    {
      PairingKeepsTree(h, level);
      level := NextLevel(h, level);
    }
    root := level[0];
  }

  lemma LeavesSplit(h: Hashing, rows: seq<Row>, k: nat)
    requires k <= |rows|
    ensures Leaves(h, rows)[..k] == Leaves(h, rows[..k]) && Leaves(h, rows)[k..] == Leaves(h, rows[k..])
  {
  }

  lemma TreeUnfolds(h: Hashing, rows: seq<Row>)
    requires rows != []
    ensures |rows| == 1 ==> Tree(h, Leaves(h, rows)) == h.leaf(rows[0])
    ensures |rows| > 1 ==>
              var k := Split(|rows|);
              Tree(h, Leaves(h, rows)) == h.node(Tree(h, Leaves(h, rows[..k])), Tree(h, Leaves(h, rows[k..])))
  {
    hide Split, Leaves;
    if |rows| > 1 {
      LeavesSplit(h, rows, Split(|rows|));
    }
  }

  lemma HashesTell(h: Hashing, a: Row, b: Row, u: Digest, v: Digest, x: Digest, y: Digest)
    requires CollisionFree(h)
    ensures h.leaf(a) == h.leaf(b) ==> a == b
    ensures h.node(u, v) == h.node(x, y) ==> u == x && v == y
    ensures h.leaf(a) != h.node(u, v)
  {
  }

  /** Equal trees over rows come from equal row lists, whatever their lengths. */
  lemma {:induction false} EqualTreesEqualRows(h: Hashing, a: seq<Row>, b: seq<Row>)
    requires CollisionFree(h)
    requires a != [] && b != []
    requires Tree(h, Leaves(h, a)) == Tree(h, Leaves(h, b))
    ensures a == b
    decreases |a|
  {
    hide CollisionFree, Tree, Leaves, Split;
    TreeUnfolds(h, a);
    TreeUnfolds(h, b);
    if |a| == 1 && |b| == 1 {
      HashesTell(h, a[0], b[0], 0, 0, 0, 0);
    } else if |a| == 1 {
      var k := Split(|b|);
      HashesTell(h, a[0], a[0], Tree(h, Leaves(h, b[..k])), Tree(h, Leaves(h, b[k..])), 0, 0);
    } else if |b| == 1 {
      var j := Split(|a|);
      HashesTell(h, b[0], b[0], Tree(h, Leaves(h, a[..j])), Tree(h, Leaves(h, a[j..])), 0, 0);
    } else {
      var j, k := Split(|a|), Split(|b|);
      HashesTell(h, a[0], b[0], Tree(h, Leaves(h, a[..j])), Tree(h, Leaves(h, a[j..])),
                 Tree(h, Leaves(h, b[..k])), Tree(h, Leaves(h, b[k..])));
      EqualTreesEqualRows(h, a[..j], b[..k]);
      EqualTreesEqualRows(h, a[j..], b[k..]);
      assert a == a[..j] + a[j..] && b == b[..k] + b[k..];
    }
  }

  /** The root binds the whole ordered inventory, the empty one included. */
  lemma RootIsInjective(h: Hashing, a: seq<Row>, b: seq<Row>)
    requires CollisionFree(h)
    ensures Root(h, a) == Root(h, b) <==> a == b
  {
    if a != [] && b != [] && Root(h, a) == Root(h, b) {
      EqualTreesEqualRows(h, a, b);
    } else if a == [] && b != [] {
      RootIsNotEmpty(h, b);
    } else if a != [] && b == [] {
      RootIsNotEmpty(h, a);
    }
  }

  lemma RootIsNotEmpty(h: Hashing, rows: seq<Row>)
    requires CollisionFree(h)
    requires rows != []
    ensures Root(h, rows) != h.empty
  {
    if |rows| > 1 {
      var level := Leaves(h, rows);
      var k := Split(|level|);
      assert Tree(h, level) == h.node(Tree(h, level[..k]), Tree(h, level[k..]));
    }
  }

  /** The smallest trees: nothing, one row, two rows side by side, and a third row promoted beside the
      pair before it. */
  lemma SmallRoots(h: Hashing, a: Row, b: Row, c: Row)
    ensures Root(h, []) == h.empty && Root(h, [a]) == h.leaf(a)
    ensures Root(h, [a, b]) == h.node(h.leaf(a), h.leaf(b))
    ensures Root(h, [a, b, c]) == h.node(h.node(h.leaf(a), h.leaf(b)), h.leaf(c))
  {
    hide Tree, Leaves;
    TreeUnfolds(h, [a]);
    TreeUnfolds(h, [b]);
    TreeUnfolds(h, [c]);
    TreeUnfolds(h, [a, b]);
    assert [a, b][..1] == [a] && [a, b][1..] == [b] && Split(2) == 1;
    TreeUnfolds(h, [a, b, c]);
    assert Half(3) == 2 && Split(3) == 2;
    assert [a, b, c][..2] == [a, b] && [a, b, c][2..] == [c];
  }
}
