/** The tree of scripts behind a taproot output: its Merkle root and the path of every script (bitcointx/core/script.py). */
module Taproot {
  import opened Core
  import opened Serialize
  import opened Numerals
  import ScriptNum

  /** The tagged hashers of leaves and branches, and the tweak of an internal key by a root. */
  datatype Hashers = Hashers(leaf: Bytes -> Bytes, branch: Bytes -> Bytes)
  {
    ghost predicate Valid() {
      (forall b :: |leaf(b)| == 32) && (forall b :: |branch(b)| == 32)
    }
  }

  datatype Leaf = Script(code: Bytes, name: Option<string>) | SubTree(tree: Tree)

  datatype Tree = Tree(leaves: seq<Leaf>, version: byte)

  /** What the constructor accepts, here and in every tree inside. */
  predicate WellFormed(t: Tree) {
    && t.leaves != []
    && !(|t.leaves| == 1 && t.leaves[0].SubTree?)
    && t.version % 2 == 0
    && forall i :: 0 <= i < |t.leaves| && t.leaves[i].SubTree? ==> WellFormed(t.leaves[i].tree)
  }

  const TAPROOT_LEAF_TAPSCRIPT: byte := 0xc0

  predicate IsConventional(v: int) {
    (0xc0 <= v < 0x100 && v % 2 == 0) || v in {0x66, 0x7e, 0x80, 0x84, 0x96, 0x98, 0xba, 0xbc, 0xbe}
  }

  /** A leaf version the caller may ask for: there is a script to carry it, and it is conventional or accepted anyway. */
  predicate MayCarry(leaves: seq<Leaf>, version: int, acceptUnconventional: bool) {
    && (exists i :: 0 <= i < |leaves| && leaves[i].Script?)
    && version % 2 == 0 && 0 <= version < 0x100 && (acceptUnconventional || IsConventional(version))
  }

  predicate SubTreesFormed(leaves: seq<Leaf>) {
    forall i :: 0 <= i < |leaves| && leaves[i].SubTree? ==> WellFormed(leaves[i].tree)
  }

  /** None where the constructor raises: over well-formed trees, exactly where there would be no well-formed tree of that version. */
  function NewTree(leaves: seq<Leaf>, version: Option<int>, acceptUnconventional: bool): (r: Option<Tree>)
    ensures r.Some? ==> r.value.leaves == leaves && r.value.version as int == (if version.Some? then version.value else TAPROOT_LEAF_TAPSCRIPT)
    ensures SubTreesFormed(leaves) ==>
              (r.Some? <==> WellFormed(Tree(leaves, TAPROOT_LEAF_TAPSCRIPT)) && (version.Some? ==> MayCarry(leaves, version.value, acceptUnconventional)))
    ensures SubTreesFormed(leaves) && r.Some? ==> WellFormed(r.value)
  {
    if leaves == [] || (|leaves| == 1 && leaves[0].SubTree?) then None
    else match version
      case None => Some(Tree(leaves, TAPROOT_LEAF_TAPSCRIPT))
      case Some(v) =>
        if forall i :: 0 <= i < |leaves| ==> leaves[i].SubTree? then None
        else if v % 2 == 1 || v < 0 || v > 254 then None
        else if !acceptUnconventional && !IsConventional(v) then None
        else Some(Tree(leaves, v))
  }

  /** Python's order on bytes. */
  predicate Less(a: Bytes, b: Bytes) {
    b != [] && (a == [] || a[0] < b[0] || (a[0] == b[0] && Less(a[1..], b[1..])))
  }

  lemma {:induction false} LessIsTotal(a: Bytes, b: Bytes)
    ensures a == b || (Less(a, b) != Less(b, a))
    ensures a == b ==> !Less(a, b)
  {
    if a != [] && b != [] {
      LessIsTotal(a[1..], b[1..]);
      assert a == [a[0]] + a[1..] && b == [b[0]] + b[1..];
    }
  }

  function Branch(h: Hashers, left: Bytes, right: Bytes): Bytes {
    if Less(right, left) then h.branch(right + left) else h.branch(left + right)
  }

  /** The two hashes of a branch as BIP341 puts them: the smaller number first. */
  function Pair(h: Hashers, a: Bytes, b: Bytes): Bytes {
    if Value(256, a) < Value(256, b) then h.branch(a + b) else h.branch(b + a)
  }

  lemma LeadDecides(x: int, y: int, p: nat, u: nat, v: nat)
    requires u < p && v < p
    ensures x * p + u < y * p + v <==> x < y || (x == y && u < v)
  {
    MulLe(x + 1, y, p);
    MulLe(y + 1, x, p);
  }

  /** On equally long strings the order of bytes is that of big-endian numbers. */
  lemma {:induction false} LessIsNumeric(a: Bytes, b: Bytes)
    requires |a| == |b|
    ensures Less(a, b) <==> Value(256, a) < Value(256, b)
  {
    if a != [] {
      var p := Pow(256, |a| - 1);
      hide Value, Pow;
      ScriptNum.LeadingDigit(256, a);
      ScriptNum.LeadingDigit(256, b);
      ValueBound(256, a[1..]);
      ValueBound(256, b[1..]);
      LessIsNumeric(a[1..], b[1..]);
      LeadDecides(a[0], b[0], p, Value(256, a[1..]), Value(256, b[1..]));
    }
  }

  /** A branch is hashed in the order of BIP341, whichever side is named first. */
  lemma BranchIsPair(h: Hashers, a: Bytes, b: Bytes)
    requires |a| == |b|
    ensures Branch(h, a, b) == Pair(h, a, b) == Pair(h, b, a)
  {
    LessIsNumeric(a, b);
    LessIsNumeric(b, a);
    LessIsTotal(a, b);
    hide Less, Value;
  }

  type Path = seq<Bytes>

  /** A node and, given the path of the node itself, the paths of the leaves under it. */
  datatype Traversal = Traversal(root: Bytes, collect: Path -> seq<Path>)

  function LeafHash(h: Hashers, version: byte, code: Bytes): Bytes {
    h.leaf([version] + EncodeBytes(code))
  }

  /** The leaf hash of BIP341: version, length of the script, script. */
  function TapLeaf(h: Hashers, version: byte, code: Bytes): Bytes {
    h.leaf([version] + LengthPrefix(|code|) + code)
  }

  lemma LeafIsTapLeaf(h: Hashers, version: byte, code: Bytes)
    ensures LeafHash(h, version, code) == TapLeaf(h, version, code)
  {
    CompactSizeIsPrefix(|code|);
    hide CompactSize, LengthPrefix;
    assert [version] + (LengthPrefix(|code|) + code) == [version] + LengthPrefix(|code|) + code;
  }

  function Traverse(h: Hashers, version: byte, leaves: seq<Leaf>): Traversal
    requires leaves != [] && forall i :: 0 <= i < |leaves| && leaves[i].SubTree? ==> WellFormed(leaves[i].tree)
    decreases leaves, 0
  {
    if |leaves| == 1 then
      Traversal(LeafRoot(h, version, leaves[0]), parent => [[First(h, leaves[0])] + parent])
    else
      var split := |leaves| / 2;
      var left := Traverse(h, version, leaves[..split]);
      var right := Traverse(h, version, leaves[split..]);
      Traversal(
        Branch(h, left.root, right.root),
        parent => left.collect([right.root] + parent) + right.collect([left.root] + parent))
  }

  /** The hash a leaf stands for. */
  function LeafRoot(h: Hashers, version: byte, leaf: Leaf): Bytes
    requires leaf.SubTree? ==> WellFormed(leaf.tree)
    decreases leaf, 0
  {
    match leaf
    case Script(code, _) => LeafHash(h, version, code)
    case SubTree(tree) => Root(h, tree)
  }

  /** The first item of a leaf's path, which lookups skip for a tree inside the tree. */
  function First(h: Hashers, leaf: Leaf): Bytes
    requires leaf.SubTree? ==> WellFormed(leaf.tree)
    decreases leaf, 0
  {
    match leaf
    case Script(_, _) => []
    case SubTree(tree) => if |tree.leaves| == 1 then [] else Root(h, tree)
  }

  function Root(h: Hashers, t: Tree): Bytes
    requires WellFormed(t)
    decreases t, 0
  {
    Traverse(h, t.version, t.leaves).root
  }

  function Paths(h: Hashers, t: Tree): seq<Path>
    requires WellFormed(t)
  {
    Traverse(h, t.version, t.leaves).collect([])
  }

  ghost predicate Ready(leaves: seq<Leaf>) {
    leaves != [] && forall i :: 0 <= i < |leaves| && leaves[i].SubTree? ==> WellFormed(leaves[i].tree)
  }

  predicate Appended(full: seq<Path>, base: seq<Path>, parent: Path) {
    |full| == |base| && forall i :: 0 <= i < |base| ==> base[i] != [] && full[i] == base[i] + parent
  }

  lemma AppendedTwice(full: seq<Path>, once: seq<Path>, base: seq<Path>, sibling: Bytes, parent: Path)
    requires Appended(full, base, [sibling] + parent) && Appended(once, base, [sibling] + [])
    ensures Appended(full, once, parent)
  {
    forall i | 0 <= i < |base|
      ensures full[i] == once[i] + parent
    {
      assert base[i] + ([sibling] + parent) == base[i] + ([sibling] + []) + parent;
    }
  }

  lemma AppendedBoth(a: seq<Path>, b: seq<Path>, a': seq<Path>, b': seq<Path>, parent: Path)
    requires Appended(a, a', parent) && Appended(b, b', parent)
    ensures Appended(a + b, a' + b', parent)
  {
  }

  /** One path per leaf; the path of the node itself is appended to each. */
  lemma {:induction false} CollectAppends(h: Hashers, version: byte, leaves: seq<Leaf>, parent: Path)
    requires Ready(leaves)
    ensures var t := Traverse(h, version, leaves);
            |t.collect([])| == |leaves| && Appended(t.collect(parent), t.collect([]), parent)
    decreases |leaves|
  {
    hide LeafRoot, First, Branch, Pair, WellFormed;
    if |leaves| > 1 {
      var split := |leaves| / 2;
      var left, right := Traverse(h, version, leaves[..split]), Traverse(h, version, leaves[split..]);
      var t := Traverse(h, version, leaves);
      assert t.collect(parent) == left.collect([right.root] + parent) + right.collect([left.root] + parent);
      assert t.collect([]) == left.collect([right.root] + []) + right.collect([left.root] + []);
      hide Traverse, Appended;
      CollectAppends(h, version, leaves[..split], [right.root] + parent);
      CollectAppends(h, version, leaves[..split], [right.root] + []);
      CollectAppends(h, version, leaves[split..], [left.root] + parent);
      CollectAppends(h, version, leaves[split..], [left.root] + []);
      AppendedTwice(left.collect([right.root] + parent), left.collect([right.root] + []), left.collect([]), right.root, parent);
      AppendedTwice(right.collect([left.root] + parent), right.collect([left.root] + []), right.collect([]), left.root, parent);
      AppendedBoth(left.collect([right.root] + parent), right.collect([left.root] + parent),
        left.collect([right.root] + []), right.collect([left.root] + []), parent);
      AppendedSize(left.collect([right.root] + []), left.collect([]), [right.root] + []);
      AppendedSize(right.collect([left.root] + []), right.collect([]), [left.root] + []);
    } else {
      assert [First(h, leaves[0])] + parent == [First(h, leaves[0])] + [] + parent;
    }
  }

  lemma AppendedSize(full: seq<Path>, base: seq<Path>, parent: Path)
    requires Appended(full, base, parent)
    ensures |full| == |base|
  {
  }

  /** The path of the i-th leaf. */
  function PathAt(h: Hashers, version: byte, leaves: seq<Leaf>, i: nat): Path
    requires Ready(leaves) && i < |leaves|
  {
    CollectAppends(h, version, leaves, []);
    Traverse(h, version, leaves).collect([])[i]
  }

  /** In a branch the path goes on with the root of the other side. */
  lemma PathInBranch(h: Hashers, version: byte, leaves: seq<Leaf>, i: nat)
    requires Ready(leaves) && 1 < |leaves| && i < |leaves|
    ensures var split := |leaves| / 2;
            var left, right := leaves[..split], leaves[split..];
            PathAt(h, version, leaves, i) ==
              if i < split then PathAt(h, version, left, i) + [Traverse(h, version, right).root]
              else PathAt(h, version, right, i - split) + [Traverse(h, version, left).root]
  {
    hide LeafRoot, First, Branch, Pair, WellFormed;
    var split := |leaves| / 2;
    var left, right := leaves[..split], leaves[split..];
    var l, r := Traverse(h, version, left), Traverse(h, version, right);
    CollectAppends(h, version, left, [r.root] + []);
    CollectAppends(h, version, right, [l.root] + []);
    assert Traverse(h, version, leaves).collect([]) == l.collect([r.root] + []) + r.collect([l.root] + []);
  }

  lemma SingleRoot(h: Hashers, version: byte, leaf: Leaf)
    requires leaf.Script?
    ensures Traverse(h, version, [leaf]).root == TapLeaf(h, version, leaf.code)
  {
    LeafIsTapLeaf(h, version, leaf.code);
    hide TapLeaf, LeafHash;
  }

  lemma SplitRoot(h: Hashers, version: byte, leaves: seq<Leaf>)
    requires |leaves| > 1 && Ready(leaves)
    ensures var split := |leaves| / 2;
            Traverse(h, version, leaves).root == Branch(h, Traverse(h, version, leaves[..split]).root, Traverse(h, version, leaves[split..]).root)
  {
    hide Branch, LeafRoot, First;
  }

  /** Two scripts are one branch; of three, the last two are a branch of their own. */
  lemma SmallTrees(h: Hashers, version: byte, a: Leaf, b: Leaf, c: Leaf)
    requires h.Valid() && version % 2 == 0 && a.Script? && b.Script? && c.Script?
    ensures var x, y, z := TapLeaf(h, version, a.code), TapLeaf(h, version, b.code), TapLeaf(h, version, c.code);
            && Root(h, Tree([a], version)) == x
            && Root(h, Tree([a, b], version)) == Pair(h, x, y)
            && Root(h, Tree([a, b, c], version)) == Pair(h, x, Pair(h, y, z))
  {
    var x, y, z := TapLeaf(h, version, a.code), TapLeaf(h, version, b.code), TapLeaf(h, version, c.code);
    BranchIsPair(h, x, y);
    BranchIsPair(h, y, z);
    assert |Pair(h, y, z)| == 32;
    BranchIsPair(h, x, Pair(h, y, z));
    SingleRoot(h, version, a);
    SingleRoot(h, version, b);
    SingleRoot(h, version, c);
    hide TapLeaf, Pair, Branch, Traverse;
    SplitRoot(h, version, [a, b]);
    SplitRoot(h, version, [b, c]);
    SplitRoot(h, version, [a, b, c]);
    assert [a, b, c][..1] == [a] && [a, b, c][1..] == [b, c] && [b, c][..1] == [b] && [b, c][1..] == [c] && [a, b][..1] == [a] && [a, b][1..] == [b];
  }

  /** The script validation rule of BIP341: the hashes of the path are folded onto the leaf, each pair sorted. */
  function Fold(h: Hashers, node: Bytes, path: Path): Bytes
    decreases |path|
  {
    if path == [] then node else Fold(h, Pair(h, node, path[0]), path[1..])
  }

  lemma {:induction false} FoldAppend(h: Hashers, node: Bytes, a: Path, b: Path)
    ensures Fold(h, node, a + b) == Fold(h, Fold(h, node, a), b)
    decreases |a|
  {
    if a == [] {
      assert a + b == b;
    } else {
      assert (a + b)[1..] == a[1..] + b;
      FoldAppend(h, Pair(h, node, a[0]), a[1..], b);
    }
  }

  predicate AllHashes(path: Path) {
    forall i :: 0 <= i < |path| ==> |path[i]| == 32
  }

  lemma {:induction false} RootIsHash(h: Hashers, version: byte, leaves: seq<Leaf>)
    requires h.Valid() && Ready(leaves)
    ensures |Traverse(h, version, leaves).root| == 32
    decreases leaves, 0
  {
    if |leaves| == 1 {
      LeafRootIsHash(h, version, leaves[0]);
    } else {
      hide LeafRoot, First, WellFormed;
    }
  }

  lemma {:induction false} LeafRootIsHash(h: Hashers, version: byte, leaf: Leaf)
    requires h.Valid() && (leaf.SubTree? ==> WellFormed(leaf.tree))
    ensures |LeafRoot(h, version, leaf)| == 32
    decreases leaf, 0
  {
    if leaf.SubTree? {
      RootIsHash(h, leaf.tree.version, leaf.tree.leaves);
    }
  }

  /** Folding the path of a leaf onto its hash gives the root. */
  lemma {:induction false} PathFolds(h: Hashers, version: byte, leaves: seq<Leaf>, i: nat)
    requires h.Valid() && Ready(leaves) && i < |leaves|
    ensures var p := PathAt(h, version, leaves, i);
            && p != [] && p[0] == First(h, leaves[i]) && AllHashes(p[1..])
            && Fold(h, LeafRoot(h, version, leaves[i]), p[1..]) == Traverse(h, version, leaves).root
    decreases |leaves|
  {
    CollectAppends(h, version, leaves, []);
    if |leaves| > 1 {
      var split := |leaves| / 2;
      var left, right := leaves[..split], leaves[split..];
      PathInBranch(h, version, leaves, i);
      RootIsHash(h, version, left);
      RootIsHash(h, version, right);
      var l, r := Traverse(h, version, left).root, Traverse(h, version, right).root;
      assert Traverse(h, version, leaves).root == Branch(h, l, r);
      BranchIsPair(h, l, r);
      hide First, LeafRoot, Branch, Pair, Traverse, WellFormed, PathAt;
      if i < split {
        PathFolds(h, version, left, i);
        PathStep(h, LeafRoot(h, version, leaves[i]), PathAt(h, version, left, i), r);
      } else {
        PathFolds(h, version, right, i - split);
        PathStep(h, LeafRoot(h, version, leaves[i]), PathAt(h, version, right, i - split), l);
      }
    }
  }

  lemma PathStep(h: Hashers, leaf: Bytes, p: Path, sibling: Bytes)
    requires p != []
    ensures (p + [sibling])[0] == p[0] && (p + [sibling])[1..] == p[1..] + [sibling]
    ensures Fold(h, leaf, (p + [sibling])[1..]) == Pair(h, Fold(h, leaf, p[1..]), sibling)
  {
    assert (p + [sibling])[1..] == p[1..] + [sibling];
    FoldAppend(h, leaf, p[1..], [sibling]);
    assert [sibling][1..] == [];
    assert Fold(h, Fold(h, leaf, p[1..]), [sibling]) == Fold(h, Pair(h, Fold(h, leaf, p[1..]), sibling), []);
  }

  lemma Halves(n: nat, d: nat)
    ensures d == 0 ==> Pow(2, d) == 1
    ensures d > 0 ==> (n <= Pow(2, d) ==> n / 2 <= Pow(2, d - 1) && n - n / 2 <= Pow(2, d - 1))
    ensures d > 0 ==> (Pow(2, d) <= n ==> Pow(2, d - 1) <= n / 2 && Pow(2, d - 1) <= n - n / 2 && n > 1)
  {
    if d > 0 {
      PowPositive(2, d - 1);
    }
  }

  lemma SinglePath(h: Hashers, version: byte, leaves: seq<Leaf>)
    requires Ready(leaves) && |leaves| == 1
    ensures |PathAt(h, version, leaves, 0)| == 1
  {
  }

  /** The tree over n leaves is balanced: every path has as many siblings as the logarithm of n, rounded down or up. */
  lemma {:induction false} PathLength(h: Hashers, version: byte, leaves: seq<Leaf>, i: nat, d: nat)
    requires Ready(leaves) && i < |leaves|
    ensures |leaves| <= Pow(2, d) ==> |PathAt(h, version, leaves, i)| - 1 <= d
    ensures Pow(2, d) <= |leaves| ==> |PathAt(h, version, leaves, i)| - 1 >= d
    decreases |leaves|
  {
    hide LeafRoot, Branch, Pair, WellFormed, First, Traverse, PathAt, Pow;
    Halves(|leaves|, d);
    if |leaves| == 1 {
      SinglePath(h, version, leaves);
    } else {
      PathInBranch(h, version, leaves, i);
      var split := |leaves| / 2;
      var side, at := if i < split then leaves[..split] else leaves[split..], if i < split then i else i - split;
      assert |PathAt(h, version, leaves, i)| == |PathAt(h, version, side, at)| + 1;
      hide PathAt;
      if d > 0 {
        PathLength(h, version, side, at, d - 1);
      } else {
        PathNonempty(h, version, side, at);
      }
    }
  }

  lemma PathNonempty(h: Hashers, version: byte, leaves: seq<Leaf>, i: nat)
    requires Ready(leaves) && i < |leaves|
    ensures PathAt(h, version, leaves, i) != []
  {
    hide Traverse;
    CollectAppends(h, version, leaves, []);
  }

  /** One path per leaf, in order; past its first item it leads from the leaf to the root, in as many steps as a balanced tree has. */
  lemma PathsProve(h: Hashers, t: Tree, i: nat, d: nat)
    requires h.Valid() && WellFormed(t) && i < |t.leaves|
    ensures |Paths(h, t)| == |t.leaves|
    ensures var p := Paths(h, t)[i];
            && p != [] && p[0] == First(h, t.leaves[i]) && AllHashes(p[1..])
            && Fold(h, if t.leaves[i].Script? then TapLeaf(h, t.version, t.leaves[i].code) else Root(h, t.leaves[i].tree), p[1..]) == Root(h, t)
            && (|t.leaves| <= Pow(2, d) ==> |p[1..]| <= d)
            && (Pow(2, d) <= |t.leaves| ==> |p[1..]| >= d)
  {
    CollectAppends(h, t.version, t.leaves, []);
    PathFolds(h, t.version, t.leaves, i);
    PathLength(h, t.version, t.leaves, i, d);
    assert Paths(h, t)[i] == PathAt(h, t.version, t.leaves, i);
    if t.leaves[i].Script? {
      LeafIsTapLeaf(h, t.version, t.leaves[i].code);
    }
    hide Traverse, WellFormed, Fold, Pow;
  }

  function Join(path: Path): Bytes {
    if path == [] then [] else path[0] + Join(path[1..])
  }

  datatype Proof = Proof(code: Bytes, path: Bytes, version: byte)

  /** get_script_with_path_and_leaf_version, from the i-th leaf on. */
  function FindFrom(h: Hashers, t: Tree, name: string, i: nat): Option<Proof>
    requires WellFormed(t) && i <= |t.leaves|
    decreases t, |t.leaves| - i
  {
    if i == |t.leaves| then None
    else
      var leaf, path := t.leaves[i], PathAt(h, t.version, t.leaves, i);
      match leaf
      case Script(code, title) =>
        if title == Some(name) then Some(Proof(code, Join(path), t.version)) else FindFrom(h, t, name, i + 1)
      case SubTree(tree) =>
        match FindFrom(h, tree, name, 0)
        case Some(p) =>
          CollectAppends(h, t.version, t.leaves, []);
          Some(Proof(p.code, p.path + Join(path[1..]), p.version))
        case None => FindFrom(h, t, name, i + 1)
  }

  function Find(h: Hashers, t: Tree, name: string): Option<Proof>
    requires WellFormed(t)
  {
    FindFrom(h, t, name, 0)
  }

  /** Folding a path given as one string of 32-byte hashes. */
  function FoldBytes(h: Hashers, node: Bytes, path: Bytes): Bytes
    requires |path| % 32 == 0
    decreases |path|
  {
    if path == [] then node else FoldBytes(h, Pair(h, node, path[..32]), path[32..])
  }

  lemma {:induction false} FoldJoined(h: Hashers, node: Bytes, path: Path, tail: Bytes)
    requires AllHashes(path) && |tail| % 32 == 0
    ensures |Join(path) + tail| % 32 == 0
    ensures FoldBytes(h, node, Join(path) + tail) == FoldBytes(h, Fold(h, node, path), tail)
    decreases |path|
  {
    hide Pair;
    if path == [] {
      assert Join(path) + tail == tail;
    } else {
      var b := Join(path) + tail;
      assert b[..32] == path[0] && b[32..] == Join(path[1..]) + tail;
      FoldJoined(h, Pair(h, node, path[0]), path[1..], tail);
    }
  }

  lemma {:induction false} FoldBytesAppend(h: Hashers, node: Bytes, a: Bytes, b: Bytes)
    requires |a| % 32 == 0 && |b| % 32 == 0
    ensures FoldBytes(h, node, a + b) == FoldBytes(h, FoldBytes(h, node, a), b)
    decreases |a|
  {
    hide Pair;
    if a == [] {
      assert a + b == b;
    } else {
      assert (a + b)[..32] == a[..32] && (a + b)[32..] == a[32..] + b;
      FoldBytesAppend(h, Pair(h, node, a[..32]), a[32..], b);
    }
  }

  predicate Proves(h: Hashers, t: Tree, p: Proof)
    requires WellFormed(t)
  {
    |p.path| % 32 == 0 && FoldBytes(h, TapLeaf(h, p.version, p.code), p.path) == Root(h, t)
  }

  lemma ScriptProves(h: Hashers, t: Tree, i: nat)
    requires h.Valid() && WellFormed(t) && i < |t.leaves| && t.leaves[i].Script?
    ensures Proves(h, t, Proof(t.leaves[i].code, Join(PathAt(h, t.version, t.leaves, i)), t.version))
  {
    var leaf, path := t.leaves[i], PathAt(h, t.version, t.leaves, i);
    PathFolds(h, t.version, t.leaves, i);
    LeafIsTapLeaf(h, t.version, leaf.code);
    hide Traverse, PathAt, Branch, Pair, LeafHash, TapLeaf, FoldBytes, WellFormed;
    ScriptPath(h, leaf, path);
    FoldJoined(h, LeafRoot(h, t.version, leaf), path[1..], []);
    EndFold(h, Fold(h, LeafRoot(h, t.version, leaf), path[1..]));
    assert Join(path[1..]) + [] == Join(path[1..]);
  }

  lemma Chain(h: Hashers, start: Bytes, a: Bytes, mid: Bytes, rest: Path, root: Bytes)
    requires |a| % 32 == 0 && FoldBytes(h, start, a) == mid && AllHashes(rest) && Fold(h, mid, rest) == root
    ensures |a + Join(rest)| % 32 == 0 && FoldBytes(h, start, a + Join(rest)) == root
  {
    hide FoldBytes, Fold, Join;
    FoldJoined(h, mid, rest, []);
    EndFold(h, root);
    assert Join(rest) + [] == Join(rest);
    FoldBytesAppend(h, start, a, Join(rest));
  }

  lemma NestedProves(h: Hashers, t: Tree, i: nat, p: Proof)
    requires h.Valid() && WellFormed(t) && i < |t.leaves| && t.leaves[i].SubTree? && Proves(h, t.leaves[i].tree, p)
    ensures var path := PathAt(h, t.version, t.leaves, i); path != [] && Proves(h, t, Proof(p.code, p.path + Join(path[1..]), p.version))
  {
    var leaf, path := t.leaves[i], PathAt(h, t.version, t.leaves, i);
    hide Traverse, PathAt, Branch, Pair, TapLeaf, FoldBytes, Fold, Join, First;
    PathFolds(h, t.version, t.leaves, i);
    assert LeafRoot(h, t.version, leaf) == Root(h, leaf.tree);
    assert Root(h, t) == Traverse(h, t.version, t.leaves).root;
    hide WellFormed, LeafRoot, Root;
    Chain(h, TapLeaf(h, p.version, p.code), p.path, Root(h, leaf.tree), path[1..], Root(h, t));
  }

  lemma EndFold(h: Hashers, node: Bytes)
    ensures FoldBytes(h, node, []) == node
  {
  }

  /** The proof that a lookup returns leads from the script to the root of the outermost tree. */
  lemma {:induction false} FindProves(h: Hashers, t: Tree, name: string, i: nat)
    requires h.Valid() && WellFormed(t) && i <= |t.leaves|
    ensures var p := FindFrom(h, t, name, i); p.Some? ==> Proves(h, t, p.value)
    decreases t, |t.leaves| - i
  {
    if i < |t.leaves| {
      hide Traverse, PathAt, Branch, Pair, First, Proves, Join;
      FindProves(h, t, name, i + 1);
      match t.leaves[i] {
        case Script(code, title) =>
          ScriptProves(h, t, i);
        case SubTree(tree) =>
          FindProves(h, tree, name, 0);
          var p := FindFrom(h, tree, name, 0);
          if p.Some? {
            NestedProves(h, t, i, p.value);
          }
      }
    }
  }

  lemma ScriptPath(h: Hashers, leaf: Leaf, path: Path)
    requires leaf.Script? && path != [] && path[0] == First(h, leaf)
    ensures Join(path) == Join(path[1..])
  {
  }

  datatype Entry = Entry(code: Bytes, name: Option<string>, version: byte)

  /** Every script of the tree with its leaf version, in order. */
  function Scripts(t: Tree, i: nat): seq<Entry>
    requires i <= |t.leaves|
    decreases t, |t.leaves| - i
  {
    if i == |t.leaves| then []
    else
      (match t.leaves[i]
       case Script(code, name) => [Entry(code, name, t.version)]
       case SubTree(tree) => Scripts(tree, 0)) + Scripts(t, i + 1)
  }

  function FirstNamed(s: seq<Entry>, name: string): (r: Option<Entry>)
    ensures r.None? <==> forall e :: e in s ==> e.name != Some(name)
    ensures r.Some? ==> r.value in s && r.value.name == Some(name)
  {
    if s == [] then None else if s[0].name == Some(name) then Some(s[0]) else FirstNamed(s[1..], name)
  }

  lemma {:induction false} FirstNamedAppend(a: seq<Entry>, b: seq<Entry>, name: string)
    ensures FirstNamed(a + b, name) == if FirstNamed(a, name).Some? then FirstNamed(a, name) else FirstNamed(b, name)
  {
    if a == [] {
      assert a + b == b;
    } else {
      assert (a + b)[1..] == a[1..] + b;
      FirstNamedAppend(a[1..], b, name);
    }
  }

  /** A lookup finds the first script of that name anywhere in the tree, with the version of the tree it stands in. */
  lemma {:induction false} FindIsFirst(h: Hashers, t: Tree, name: string, i: nat)
    requires WellFormed(t) && i <= |t.leaves|
    ensures var p, e := FindFrom(h, t, name, i), FirstNamed(Scripts(t, i), name);
            && (p.Some? <==> e.Some?)
            && (p.Some? ==> p.value.code == e.value.code && p.value.version == e.value.version)
    decreases t, |t.leaves| - i
  {
    hide PathAt, Join, FirstNamed;
    if i < |t.leaves| {
      FindIsFirst(h, t, name, i + 1);
      match t.leaves[i] {
        case Script(code, title) =>
          FirstNamedAppend([Entry(code, title, t.version)], Scripts(t, i + 1), name);
          OneEntry(Entry(code, title, t.version), name);
        case SubTree(tree) =>
          FindIsFirst(h, tree, name, 0);
          FirstNamedAppend(Scripts(tree, 0), Scripts(t, i + 1), name);
      }
    } else {
      assert FirstNamed([], name) == None;
    }
  }

  lemma OneEntry(e: Entry, name: string)
    ensures FirstNamed([e], name) == if e.name == Some(name) then Some(e) else None
  {
  }

  /** The control block of BIP341: leaf version with the parity of the output key, internal key, path. */
  function ControlBlock(p: Proof, parity: nat, internalKey: Bytes): Bytes
    requires p.version % 2 == 0 && parity < 2
  {
    [p.version + parity] + internalKey + p.path
  }

  const TAPROOT_CONTROL_MAX_NODE_COUNT := 128

  /** The root a validator computes from a control block and a script; BIP341 allows 33 bytes and up to 128 hashes. */
  function ValidatorRoot(h: Hashers, control: Bytes, code: Bytes): Option<Bytes> {
    if |control| < 33 || (|control| - 33) % 32 != 0 || (|control| - 33) / 32 > TAPROOT_CONTROL_MAX_NODE_COUNT then None
    else Some(FoldBytes(h, TapLeaf(h, control[0] / 2 * 2, code), control[33..]))
  }

  lemma {:induction false} VersionsEven(t: Tree, i: nat)
    requires WellFormed(t) && i <= |t.leaves|
    ensures forall e :: e in Scripts(t, i) ==> e.version % 2 == 0
    decreases t, |t.leaves| - i
  {
    if i < |t.leaves| {
      VersionsEven(t, i + 1);
      if t.leaves[i].SubTree? {
        VersionsEven(t.leaves[i].tree, 0);
      }
    }
  }

  lemma ControlParts(p: Proof, parity: nat, internalKey: Bytes)
    requires p.version % 2 == 0 && parity < 2 && |internalKey| == 32
    ensures var control := ControlBlock(p, parity, internalKey);
            && |control| == 33 + |p.path| && control[33..] == p.path && control[1..33] == internalKey
            && control[0] % 2 == parity && control[0] / 2 * 2 == p.version
  {
  }

  /** The level of the i-th of n leaves in a flat tree. */
  function Level(n: nat, i: nat): (d: nat)
    requires i < n
  {
    if n == 1 then 0
    else if i < n / 2 then 1 + Level(n / 2, i)
    else 1 + Level(n - n / 2, i - n / 2)
  }

  lemma {:induction false} PathLevel(h: Hashers, version: byte, leaves: seq<Leaf>, i: nat)
    requires Ready(leaves) && i < |leaves|
    ensures |PathAt(h, version, leaves, i)| == 1 + Level(|leaves|, i)
    decreases |leaves|
  {
    hide LeafRoot, Branch, Pair, WellFormed, First, Traverse, PathAt;
    if |leaves| == 1 {
      SinglePath(h, version, leaves);
    } else {
      PathInBranch(h, version, leaves, i);
      var split := |leaves| / 2;
      if i < split {
        PathLevel(h, version, leaves[..split], i);
      } else {
        PathLevel(h, version, leaves[split..], i - split);
      }
    }
  }

  /** How deep a lookup finds the name: the levels of all trees on the way, added up. No hash is computed. */
  function DepthFrom(t: Tree, name: string, i: nat): Option<nat>
    requires i <= |t.leaves|
    decreases t, |t.leaves| - i
  {
    if i == |t.leaves| then None
    else match t.leaves[i]
      case Script(_, title) =>
        if title == Some(name) then Some(Level(|t.leaves|, i)) else DepthFrom(t, name, i + 1)
      case SubTree(tree) =>
        match DepthFrom(tree, name, 0)
        case Some(d) => Some(d + Level(|t.leaves|, i))
        case None => DepthFrom(t, name, i + 1)
  }

  /** The nesting depth and the leaf counts alone bound every lookup. */
  function CeilLog2(n: nat): nat {
    if n <= 1 then 0 else 1 + CeilLog2(n - n / 2)
  }

  function Height(t: Tree): nat {
    CeilLog2(|t.leaves|) + Tallest(t, 0)
  }

  function Tallest(t: Tree, i: nat): nat
    decreases t, if i <= |t.leaves| then |t.leaves| - i else 0
  {
    if i >= |t.leaves| then 0
    else
      var rest := Tallest(t, i + 1);
      match t.leaves[i]
      case Script(_, _) => rest
      case SubTree(tree) =>
        var below := CeilLog2(|tree.leaves|) + Tallest(tree, 0);
        if below > rest then below else rest
  }

  lemma {:induction false} JoinedSize(path: Path)
    requires AllHashes(path)
    ensures |Join(path)| == 32 * |path|
  {
    if path != [] {
      JoinedSize(path[1..]);
    }
  }

  /** A lookup finds a proof exactly where there is a depth, with one hash for each level. */
  lemma {:induction false} PathHasDepth(h: Hashers, t: Tree, name: string, i: nat)
    requires h.Valid() && WellFormed(t) && i <= |t.leaves|
    ensures var p, d := FindFrom(h, t, name, i), DepthFrom(t, name, i);
            (p.Some? <==> d.Some?) && (p.Some? ==> |p.value.path| == 32 * d.value)
    decreases t, |t.leaves| - i
  {
    if i < |t.leaves| {
      var path := PathAt(h, t.version, t.leaves, i);
      PathFolds(h, t.version, t.leaves, i);
      PathLevel(h, t.version, t.leaves, i);
      JoinedSize(path[1..]);
      assert t.leaves[i].Script? ==> Join(path) == Join(path[1..]);
      hide Traverse, PathAt, Branch, Pair, First, Join, Level, LeafRoot, Fold;
      PathHasDepth(h, t, name, i + 1);
      if t.leaves[i].SubTree? {
        PathHasDepth(h, t.leaves[i].tree, name, 0);
      }
    }
  }

  /**
   * A validator given the control block of a named script recovers the root, the parity and the internal key
   * exactly if the script stands at most 128 levels deep; below that the code still hands out a control block.
   */
  lemma ControlBlockProves(h: Hashers, t: Tree, name: string, parity: nat, internalKey: Bytes)
    requires h.Valid() && WellFormed(t) && Find(h, t, name).Some? && parity < 2 && |internalKey| == 32
    ensures DepthFrom(t, name, 0).Some?
    ensures var p := Find(h, t, name).value;
            && p.version % 2 == 0
            && var control := ControlBlock(p, parity, internalKey);
               && ValidatorRoot(h, control, p.code) == (if DepthFrom(t, name, 0).value <= TAPROOT_CONTROL_MAX_NODE_COUNT then Some(Root(h, t)) else None)
               && control[0] % 2 == parity && control[1..33] == internalKey
  {
    hide FindFrom, DepthFrom, Root, FoldBytes, Scripts, FirstNamed, WellFormed, ControlBlock, TapLeaf;
    FindProves(h, t, name, 0);
    FindIsFirst(h, t, name, 0);
    PathHasDepth(h, t, name, 0);
    VersionsEven(t, 0);
    ControlParts(Find(h, t, name).value, parity, internalKey);
  }

  lemma {:induction false} CeilLog2Is(n: nat)
    requires n > 0
    ensures n <= Pow(2, CeilLog2(n))
    ensures n > 1 ==> Pow(2, CeilLog2(n) - 1) < n
  {
    if n > 1 {
      CeilLog2Is(n - n / 2);
      if n - n / 2 > 1 {
        assert Pow(2, CeilLog2(n) - 1) == 2 * Pow(2, CeilLog2(n - n / 2) - 1);
      }
    }
  }

  lemma {:induction false} CeilLog2Grows(m: nat, n: nat)
    requires m <= n
    ensures CeilLog2(m) <= CeilLog2(n)
  {
    if m > 1 {
      CeilLog2Grows(m - m / 2, n - n / 2);
    }
  }

  lemma {:induction false} LevelBound(n: nat, i: nat)
    requires i < n
    ensures Level(n, i) <= CeilLog2(n)
  {
    if n > 1 {
      if i < n / 2 {
        LevelBound(n / 2, i);
        CeilLog2Grows(n / 2, n - n / 2);
      } else {
        LevelBound(n - n / 2, i - n / 2);
      }
    }
  }

  lemma {:induction false} DepthWithinHeight(t: Tree, name: string, i: nat)
    requires i <= |t.leaves|
    ensures DepthFrom(t, name, i).Some? ==> DepthFrom(t, name, i).value <= CeilLog2(|t.leaves|) + Tallest(t, i)
    decreases t, |t.leaves| - i
  {
    hide Level, CeilLog2;
    if i < |t.leaves| {
      LevelBound(|t.leaves|, i);
      DepthWithinHeight(t, name, i + 1);
      if t.leaves[i].SubTree? {
        DepthWithinHeight(t.leaves[i].tree, name, 0);
      }
    }
  }

  /** Every tree whose leaf counts, rounded up to powers of two, multiply to at most 2^128 along each nesting has valid control blocks only. */
  lemma ShallowTreesProve(h: Hashers, t: Tree, name: string, parity: nat, internalKey: Bytes)
    requires h.Valid() && WellFormed(t) && Find(h, t, name).Some? && parity < 2 && |internalKey| == 32
    requires Height(t) <= TAPROOT_CONTROL_MAX_NODE_COUNT
    ensures var p := Find(h, t, name).value;
            p.version % 2 == 0 && ValidatorRoot(h, ControlBlock(p, parity, internalKey), p.code) == Some(Root(h, t))
  {
    hide Find, DepthFrom, CeilLog2, Tallest, WellFormed, Root, ValidatorRoot;
    ControlBlockProves(h, t, name, parity, internalKey);
    DepthWithinHeight(t, name, 0);
  }

  /** Two scripts, with as many single scripts around them as asked for, one tree inside the other. */
  function Nest(n: nat): Tree {
    Tree([if n == 0 then Script([0x51], Some("deep")) else SubTree(Nest(n - 1)), Script([0x52], None)], TAPROOT_LEAF_TAPSCRIPT)
  }

  lemma {:induction false} NestDepth(n: nat)
    ensures WellFormed(Nest(n)) && NewTree(Nest(n).leaves, None, false) == Some(Nest(n))
    ensures DepthFrom(Nest(n), "deep", 0) == Some(n + 1) && Height(Nest(n)) == n + 1
  {
    var t := Nest(n);
    assert Level(2, 0) == 1 && CeilLog2(2) == 1 && Tallest(t, 2) == 0 && Tallest(t, 1) == 0;
    if n > 0 {
      NestDepth(n - 1);
      assert t.leaves[0].tree == Nest(n - 1);
    }
  }

  /** The code accepts every such nesting, proves membership in it, and from 128 on hands out a control block that no validator accepts. */
  lemma NestedTooDeep(h: Hashers, n: nat, internalKey: Bytes)
    requires h.Valid() && |internalKey| == 32
    ensures WellFormed(Nest(n)) && Find(h, Nest(n), "deep").Some?
    ensures var p := Find(h, Nest(n), "deep").value;
            && Proves(h, Nest(n), p) && p.version % 2 == 0
            && (ValidatorRoot(h, ControlBlock(p, 0, internalKey), p.code).Some? <==> n < 128)
  {
    hide Nest, DepthFrom, FindFrom, WellFormed, ValidatorRoot, Root, Proves, NewTree, Height;
    NestDepth(n);
    PathHasDepth(h, Nest(n), "deep", 0);
    FindProves(h, Nest(n), "deep", 0);
    ControlBlockProves(h, Nest(n), "deep", 0, internalKey);
  }
}
