/**
 * What a message payload means to the process that sends it: the tree it finds
 * when it follows its own pointers through the memory translation unit.  The
 * kernel's receiver has only z_translate, and this is where the two agree.
 */
module Sender {
  import opened Words
  import opened Mtu
  import opened Resolve

  /** The physical address behind a pointer while the sender runs. */
  function Seen(m: Memory, p: uint32): uint32 { Mapped(m.base, p) }

  /**
   * z_translate finds the sender's own address exactly when the pointer is NULL,
   * or is one of the kind that this sender makes: below or above the window for
   * the kernel, inside it for everyone else.
   */
  lemma TranslateIsSeenExactlyWhen(m: Memory, p: uint32)
    ensures Translate(m, p) == Seen(m, p) <==>
            || p == 0 || m.base == WINDOW
            || (if m.pid == 0 then !InWindow(p) || m.base == 0 else InWindow(p) && m.base != 0)
  {
  }

  /** So a process that passes on a string it was sent itself is misunderstood. */
  lemma ForwardedPointerIsMisread(m: Memory)
    requires m.pid != 0 && m.base == 0x4010_0000
    ensures Seen(m, 0x4001_0000) == 0x4001_0000 && Translate(m, 0x4001_0000) == 0x0011_0000
  {
  }

  /** A pointer the sender made itself: native for the kernel, into its own window for any other process. */
  predicate Own(m: Memory, p: uint32) {
    if m.pid == 0 then !InWindow(p) else m.base != 0 && InWindow(p) && m.base + (p - WINDOW) < TWO_32
  }

  lemma OwnIsSeen(m: Memory, p: uint32)
    requires Own(m, p) && p != 0
    ensures Translate(m, p) == Seen(m, p) != 0
  {
  }

  /** The sender reads this byte string at `p`. */
  ghost predicate ReadsBytes(m: Memory, p: uint32, bytes: seq<Byte>) {
    forall k | 0 <= k < |bytes| :: bytes[k] == m.byte(Seen(m, Wrap32(p + k)))
  }

  /** The object is this tree for the sender. */
  ghost predicate Reads(m: Memory, o: Obj<uint32>, tree: Tree)
    decreases tree
  {
    match o
    case Nothing => tree == TLeaf(LNothing)
    case RetVal(c) => tree == TLeaf(LRetVal(c))
    case UInt(u) => tree == TLeaf(LUInt(u))
    case Int(i) => tree == TLeaf(LInt(i))
    case Float32(f) => tree == TLeaf(LFloat(f))
    case Str(p) => tree == TLeaf(LStr(if p == 0 then None else Some(m.str(Seen(m, p)))))
    case Blob(p) => if p == 0 then tree == TLeaf(LNothing) else ReadsBlob(m, m.blob(Seen(m, p)), tree)
    case List(p) => if p == 0 then tree == TLeaf(LNothing) else ReadsList(m, m.table(Seen(m, p)), tree)
    case Map(p) => if p == 0 then tree == TLeaf(LNothing) else ReadsMap(m, m.table(Seen(m, p)), tree)
    case Unknown(_) => tree == TLeaf(LNothing)
  }

  ghost predicate ReadsBlob(m: Memory, h: BlobHeader, tree: Tree) {
    && tree.TLeaf? && tree.leaf.LBlob? && |tree.leaf.bytes| == h.len && (tree.leaf.isNull <==> h.data == 0)
    && ReadsBytes(m, h.data, tree.leaf.bytes)
  }

  ghost predicate ReadsList(m: Memory, src: RawTable, tree: Tree)
    decreases tree, 0
  {
    && tree.TNode? && !tree.isMap && |tree.entries| == src.len
    && forall i | 0 <= i < src.len :: Reads(m, ElementAt(m, src.a, i), tree.entries[i])
  }

  /** Keys and values are two arrays; in the tree each key is followed by its value. */
  ghost predicate ReadsMap(m: Memory, src: RawTable, tree: Tree)
    decreases tree, 0
  {
    && tree.TNode? && tree.isMap && |tree.entries| == 2 * src.len
    && forall i | 0 <= i < src.len ::
         && Reads(m, ElementAt(m, src.a, i), tree.entries[2 * i])
         && Reads(m, ElementAt(m, src.b, i), tree.entries[2 * i + 1])
  }

  /** The sender's `i`-th element of an array of 8-byte objects. */
  function ElementAt(m: Memory, a: uint32, i: nat): Obj<uint32> { m.obj(Seen(m, ElementAddress(a, i))) }

  function ElementAddress(a: uint32, i: nat): uint32 { Wrap32(a + 8 * i) }

  // ----- a payload made of the sender's own pointers arrives as the sender sees it

  /** A stretch of memory named by one of the sender's own pointers, or by NULL. */
  ghost predicate OwnRange(m: Memory, p: uint32, n: nat) {
    if p == 0 then n <= WINDOW
    else p + n <= TWO_32 && Own(m, p) && forall k | 0 <= k < n :: OwnAt(m, p, k)
  }

  predicate OwnAt(m: Memory, p: uint32, k: nat) { Own(m, Wrap32(p + k)) }

  /** The first `n` elements of the array at `a` have addresses of the sender's own. */
  ghost predicate OwnArray(m: Memory, a: uint32, n: nat) {
    forall i | 0 <= i < n :: ElementAddress(a, i) != 0 && Own(m, ElementAddress(a, i))
  }

  /** Every pointer the sender follows to read this tree is NULL or its own. */
  ghost predicate OwnPayload(m: Memory, o: Obj<uint32>, tree: Tree)
    decreases tree
  {
    match o
    case Str(p) => p == 0 || Own(m, p)
    case Blob(p) =>
      p == 0 || (Own(m, p) && OwnRange(m, m.blob(Seen(m, p)).data, m.blob(Seen(m, p)).len))
    case List(p) => p == 0 || (Own(m, p) && (tree.TNode? ==> OwnList(m, m.table(Seen(m, p)), tree)))
    case Map(p) => p == 0 || (Own(m, p) && (tree.TNode? ==> OwnMap(m, m.table(Seen(m, p)), tree)))
    case _ => true
  }

  ghost predicate OwnList(m: Memory, src: RawTable, tree: Tree)
    requires tree.TNode?
    decreases tree, 0
  {
    && OwnArray(m, src.a, src.len)
    && forall i | 0 <= i < src.len && i < |tree.entries| :: OwnPayload(m, ElementAt(m, src.a, i), tree.entries[i])
  }

  ghost predicate OwnMap(m: Memory, src: RawTable, tree: Tree)
    requires tree.TNode?
    decreases tree, 0
  {
    && OwnArray(m, src.a, src.len) && OwnArray(m, src.b, src.len)
    && forall i | 0 <= i < src.len && 2 * i + 1 < |tree.entries| ::
         && OwnPayload(m, ElementAt(m, src.a, i), tree.entries[2 * i])
         && OwnPayload(m, ElementAt(m, src.b, i), tree.entries[2 * i + 1])
  }

  /** Entry by entry. */
  lemma {:induction false} EntriesDenoteAt(g: Graph, node: Node, j: nat, trees: seq<Tree>)
    ensures EntriesDenote(g, node, j, trees) <==>
            forall k | 0 <= k < |trees| :: Denotes(g, node.entry(j + k), trees[k])
    decreases |trees|
  {
    if trees != [] {
      EntriesDenoteAt(g, node, j + 1, trees[1..]);
      assert forall k | 0 <= k < |trees| - 1 :: trees[1..][k] == trees[k + 1];
      if forall k | 0 <= k < |trees| :: Denotes(g, node.entry(j + k), trees[k]) {
        forall k | 0 <= k < |trees| - 1 ensures Denotes(g, node.entry(j + 1 + k), trees[1..][k]) {
          assert Denotes(g, node.entry(j + (k + 1)), trees[k + 1]);
        }
        assert Denotes(g, node.entry(j + 0), trees[0]);
      }
      if EntriesDenote(g, node, j, trees) {
        forall k | 0 <= k < |trees| ensures Denotes(g, node.entry(j + k), trees[k]) {
          if k > 0 {
            assert Denotes(g, node.entry(j + 1 + (k - 1)), trees[1..][k - 1]);
          }
        }
      }
    }
  }

  /** An element the sender reaches by its own address is the one z_resolve_obj copies. */
  lemma OwnElement(m: Memory, a: uint32, n: nat, i: nat)
    requires OwnArray(m, a, n) && i < n
    ensures ItemAt(m, a, i) == ElementAt(m, a, i)
  {
    OwnIsSeen(m, ElementAddress(a, i));
  }

  lemma {:induction false} BytesAtIndex(m: Memory, at: int, len: nat, k: nat)
    requires k < len
    ensures BytesAt(m, at, len)[k] == m.byte(at + k)
    decreases k
  {
    if k > 0 {
      BytesAtIndex(m, at + 1, len - 1, k - 1);
    }
  }

  /** The sender's bytes from `p` on, as the receiver finds them. */
  lemma OwnBytes(m: Memory, p: uint32, bytes: seq<Byte>)
    requires OwnRange(m, p, |bytes|)
    ensures ReadsBytes(m, p, bytes) <==> bytes == BytesAt(m, Translate(m, p), |bytes|)
  {
    var there := BytesAt(m, Translate(m, p), |bytes|);
    forall k | 0 <= k < |bytes| ensures there[k] == m.byte(Seen(m, Wrap32(p + k))) {
      BytesAtIndex(m, Translate(m, p), |bytes|, k);
      OwnByte(m, p, |bytes|, k);
    }
    if ReadsBytes(m, p, bytes) {
      assert bytes == there;
    }
  }

  lemma OwnByte(m: Memory, p: uint32, n: nat, k: nat)
    requires OwnRange(m, p, n) && k < n
    ensures Seen(m, Wrap32(p + k)) == Translate(m, p) + k
  {
    assert p != 0 ==> OwnAt(m, p, k);
  }

  lemma OwnBlob(m: Memory, p: uint32, tree: Tree)
    requires p != 0 && OwnPayload(m, Blob(p), tree)
    ensures Reads(m, Blob(p), tree) <==> Denotes(GraphOf(m), Blob(p), tree)
  {
    OwnIsSeen(m, p);
    var h := m.blob(Seen(m, p));
    if tree.TLeaf? && tree.leaf.LBlob? && |tree.leaf.bytes| == h.len {
      OwnBytes(m, h.data, tree.leaf.bytes);
      if h.data != 0 {
        OwnIsSeen(m, h.data);
      }
    }
  }

  /** The tree the sender sees is the one z_resolve_obj rebuilds from. */
  lemma {:induction false} OwnPayloadMeansWhatIsSeen(m: Memory, o: Obj<uint32>, tree: Tree)
    requires OwnPayload(m, o, tree)
    ensures Reads(m, o, tree) <==> Denotes(GraphOf(m), o, tree)
    decreases tree, 1
  {
    match o
    case Str(p) => if p != 0 { OwnIsSeen(m, p); }
    case Blob(p) => if p != 0 { OwnBlob(m, p, tree); }
    case List(p) => if p != 0 { OwnListMeans(m, p, tree); }
    case Map(p) => if p != 0 { OwnMapMeans(m, p, tree); }
    case _ =>
  }

  lemma OwnListMeans(m: Memory, p: uint32, tree: Tree)
    requires p != 0 && OwnPayload(m, List(p), tree)
    ensures Reads(m, List(p), tree) <==> Denotes(GraphOf(m), List(p), tree)
    decreases tree, 0
  {
    OwnIsSeen(m, p);
    var src, g := m.table(Seen(m, p)), GraphOf(m);
    if tree.TNode? && |tree.entries| == src.len {
      var node := NodeOf(m, List(p)).value;
      forall i | 0 <= i < src.len
        ensures node.entry(i) == ElementAt(m, src.a, i)
        ensures Reads(m, ElementAt(m, src.a, i), tree.entries[i]) <==> Denotes(g, node.entry(i), tree.entries[i])
      {
        OwnElement(m, src.a, src.len, i);
        OwnPayloadMeansWhatIsSeen(m, ElementAt(m, src.a, i), tree.entries[i]);
      }
      EntriesDenoteAt(g, node, 0, tree.entries);
    }
  }

  /** The sender and z_resolve_obj agree on pair `i`. */
  ghost predicate SamePair(m: Memory, src: RawTable, node: Node, entries: seq<Tree>, i: nat)
    requires 2 * i + 1 < |entries|
  {
    && (Reads(m, ElementAt(m, src.a, i), entries[2 * i]) <==> Denotes(GraphOf(m), node.entry(2 * i), entries[2 * i]))
    && (Reads(m, ElementAt(m, src.b, i), entries[2 * i + 1]) <==>
          Denotes(GraphOf(m), node.entry(2 * i + 1), entries[2 * i + 1]))
  }

  lemma OwnMapMeans(m: Memory, p: uint32, tree: Tree)
    requires p != 0 && OwnPayload(m, Map(p), tree)
    ensures Reads(m, Map(p), tree) <==> Denotes(GraphOf(m), Map(p), tree)
    decreases tree, 0
  {
    OwnIsSeen(m, p);
    var src := m.table(Seen(m, p));
    if tree.TNode? && |tree.entries| == 2 * src.len {
      var node := NodeOf(m, Map(p)).value;
      forall i: nat | i < src.len ensures SamePair(m, src, node, tree.entries, i) {
        PairOfEntries(m, p, i);
        OwnPayloadMeansWhatIsSeen(m, ElementAt(m, src.a, i), tree.entries[2 * i]);
        OwnPayloadMeansWhatIsSeen(m, ElementAt(m, src.b, i), tree.entries[2 * i + 1]);
      }
      PairsAgree(m, src, node, tree);
    }
  }

  lemma PairsAgree(m: Memory, src: RawTable, node: Node, tree: Tree)
    requires tree.TNode? && |tree.entries| == 2 * src.len
    requires forall i: nat | i < src.len :: SamePair(m, src, node, tree.entries, i)
    ensures (forall i | 0 <= i < src.len ::
               && Reads(m, ElementAt(m, src.a, i), tree.entries[2 * i])
               && Reads(m, ElementAt(m, src.b, i), tree.entries[2 * i + 1])) <==>
            EntriesDenote(GraphOf(m), node, 0, tree.entries)
  {
    EntriesDenoteAt(GraphOf(m), node, 0, tree.entries);
    EveryEntryIsKeyOrValue(GraphOf(m), node, src.len, tree.entries);
    forall i: nat | i < src.len
      ensures Reads(m, ElementAt(m, src.a, i), tree.entries[2 * i])
              && Reads(m, ElementAt(m, src.b, i), tree.entries[2 * i + 1])
              <==> Denotes(GraphOf(m), node.entry(2 * i), tree.entries[2 * i])
                   && Denotes(GraphOf(m), node.entry(2 * i + 1), tree.entries[2 * i + 1])
    {
      assert SamePair(m, src, node, tree.entries, i);
    }
  }

  lemma PairOfEntries(m: Memory, p: uint32, i: nat)
    requires p != 0 && Own(m, p) && i < m.table(Seen(m, p)).len
    requires var src := m.table(Seen(m, p)); OwnArray(m, src.a, src.len) && OwnArray(m, src.b, src.len)
    ensures var src := m.table(Seen(m, p));
            && NodeOf(m, Map(p)).Some?
            && NodeOf(m, Map(p)).value.entry(2 * i) == ElementAt(m, src.a, i)
            && NodeOf(m, Map(p)).value.entry(2 * i + 1) == ElementAt(m, src.b, i)
  {
    OwnIsSeen(m, p);
    var src := m.table(Seen(m, p));
    TableYields(m, Map(p));
    assert YieldsAt(NodeOf(m, Map(p)).value, true, i => ItemAt(m, src.a, i), i => ItemAt(m, src.b, i), i);
    OwnElement(m, src.a, src.len, i);
    OwnElement(m, src.b, src.len, i);
  }

  lemma EveryEntryIsKeyOrValue(g: Graph, node: Node, len: nat, trees: seq<Tree>)
    requires |trees| == 2 * len
    ensures (forall k | 0 <= k < |trees| :: Denotes(g, node.entry(0 + k), trees[k])) <==>
            forall i | 0 <= i < len ::
              Denotes(g, node.entry(2 * i), trees[2 * i]) && Denotes(g, node.entry(2 * i + 1), trees[2 * i + 1])
  {
    if forall i | 0 <= i < len ::
         Denotes(g, node.entry(2 * i), trees[2 * i]) && Denotes(g, node.entry(2 * i + 1), trees[2 * i + 1]) {
      forall k | 0 <= k < |trees| ensures Denotes(g, node.entry(0 + k), trees[k]) {
        var i := k / 2;
        assert k == 2 * i || k == 2 * i + 1;
      }
    }
    if forall k | 0 <= k < |trees| :: Denotes(g, node.entry(0 + k), trees[k]) {
      forall i | 0 <= i < len
        ensures Denotes(g, node.entry(2 * i), trees[2 * i]) && Denotes(g, node.entry(2 * i + 1), trees[2 * i + 1])
      {
        assert Denotes(g, node.entry(0 + 2 * i), trees[2 * i]);
        assert Denotes(g, node.entry(0 + (2 * i + 1)), trees[2 * i + 1]);
      }
    }
  }

  /**
   * z_resolve_obj on a payload made of the sender's own pointers: it succeeds
   * exactly when the tree the sender sees fits, and rebuilds that tree.
   */
  lemma PayloadArrivesAsSeen(m: Memory, o: Obj<uint32>, tree: Tree)
    requires OwnPayload(m, o, tree) && Reads(m, o, tree)
    ensures var r := Resolved(GraphOf(m), o, ZERO);
            (r.Done? <==> Fits(Size(tree))) && (r.Done? ==> r.tree == tree)
  {
    var g := GraphOf(m);
    GraphOfDepicts(m);
    OwnPayloadMeansWhatIsSeen(m, o, tree);
    ResolvesExactlyWhatFits(g, o);
    forall t | Denotes(g, o, t) ensures t == tree {
      MeaningIsUnique(g, o, t, tree);
    }
  }
}
