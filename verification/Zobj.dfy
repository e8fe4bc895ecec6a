/**
 * z_obj_copy and z_obj_equal of sw/common/zobj.c on a payload that
 * z_resolve_obj has rebuilt in a receiver's scratch area.
 */
module Zobj {
  import opened Words
  import opened Resolve
  import Sender

  // ----- what copying and comparing mean

  /**
   * `c` is a copy of the leaf: a NULL string becomes an empty one, and a blob
   * with a NULL data pointer one of its length, with whatever malloc returned.
   */
  predicate IsCopyOfLeaf(c: Leaf, l: Leaf) {
    if l.LBlob? then c.LBlob? && !c.isNull && |c.bytes| == |l.bytes| && (l.isNull || c.bytes == l.bytes)
    else c == if l == LStr(None) then LStr(Some([])) else l
  }

  predicate IsCopy(c: Tree, t: Tree)
    decreases t
  {
    match t
    case TLeaf(l) => c.TLeaf? && IsCopyOfLeaf(c.leaf, l)
    case TNode(isMap, entries) =>
      c.TNode? && c.isMap == isMap && |c.entries| == |entries| && AreCopies(c.entries, entries)
  }

  predicate AreCopies(cs: seq<Tree>, ts: seq<Tree>)
    requires |cs| == |ts|
    decreases ts
  {
    ts == [] || (IsCopy(cs[0], ts[0]) && AreCopies(cs[1..], ts[1..]))
  }

  /** fabsf(a - b) < 1e-6f: false as soon as the difference is not a number. */
  predicate EqualFloat(a: Float, b: Float) {
    a.Finite? && b.Finite? && -0.000001 < a.r - b.r < 0.000001
  }

  predicate EqualLeaf(a: Leaf, b: Leaf) {
    if a.LFloat? && b.LFloat? then EqualFloat(a.f, b.f)
    else if a.LBlob? && b.LBlob? then a.bytes == b.bytes
    else a == b
  }

  predicate EqualTree(a: Tree, b: Tree)
    decreases a
  {
    if a.TLeaf? && b.TLeaf? then EqualLeaf(a.leaf, b.leaf)
    else a.TNode? && b.TNode? && a.isMap == b.isMap && |a.entries| == |b.entries| && EqualTrees(a.entries, b.entries)
  }

  predicate EqualTrees(a: seq<Tree>, b: seq<Tree>)
    requires |a| == |b|
    decreases a
  {
    a == [] || (EqualTree(a[0], b[0]) && EqualTrees(a[1..], b[1..]))
  }

  predicate AllLeaves(t: Tree, p: Leaf -> bool)
    decreases t
  {
    match t
    case TLeaf(l) => p(l)
    case TNode(_, entries) => AllLeavesOf(entries, p)
  }

  predicate AllLeavesOf(ts: seq<Tree>, p: Leaf -> bool)
    decreases ts
  {
    ts == [] || (AllLeaves(ts[0], p) && AllLeavesOf(ts[1..], p))
  }

  /** Not a NULL string, an infinity or a NaN. */
  predicate Comparable(l: Leaf) { l != LStr(None) && (l.LFloat? ==> l.f.Finite?) }

  /** Nor a blob that claims a length without data. */
  predicate Faithful(l: Leaf) { Comparable(l) && (l.LBlob? && l.isNull ==> l.bytes == []) }

  /** Every copy of a faithful tree is equal to it, and a copy of any other tree only if all in it is comparable. */
  lemma {:induction false} CopyIsEqualWhen(c: Tree, t: Tree)
    requires IsCopy(c, t)
    ensures AllLeaves(t, Faithful) ==> EqualTree(c, t)
    ensures EqualTree(c, t) ==> AllLeaves(t, Comparable)
    decreases t
  {
    match t
    case TLeaf(_) =>
    case TNode(_, entries) => CopiesAreEqualWhen(c.entries, entries);
  }

  lemma {:induction false} CopiesAreEqualWhen(cs: seq<Tree>, ts: seq<Tree>)
    requires |cs| == |ts| && AreCopies(cs, ts)
    ensures AllLeavesOf(ts, Faithful) ==> EqualTrees(cs, ts)
    ensures EqualTrees(cs, ts) ==> AllLeavesOf(ts, Comparable)
    decreases ts
  {
    if ts != [] {
      CopyIsEqualWhen(cs[0], ts[0]);
      CopiesAreEqualWhen(cs[1..], ts[1..]);
    }
  }

  /** A copy for which malloc held other bytes than NULL points to. */
  function Mismatch(t: Tree): (c: Tree)
    ensures IsCopy(c, t) && (EqualTree(c, t) ==> AllLeaves(t, Faithful))
    decreases t
  {
    match t
    case TLeaf(l) =>
      TLeaf(if l.LBlob? then LBlob(if l.isNull then Flipped(l.bytes) else l.bytes, false)
            else if l == LStr(None) then LStr(Some([])) else l)
    case TNode(isMap, entries) => TNode(isMap, Mismatches(entries))
  }

  function Mismatches(ts: seq<Tree>): (cs: seq<Tree>)
    ensures |cs| == |ts| && AreCopies(cs, ts) && (EqualTrees(cs, ts) ==> AllLeavesOf(ts, Faithful))
    decreases ts
  {
    if ts == [] then [] else [Mismatch(ts[0])] + Mismatches(ts[1..])
  }

  function Flipped(bytes: seq<Byte>): (r: seq<Byte>)
    ensures |r| == |bytes| && (bytes != [] ==> r != bytes)
  {
    if bytes == [] then [] else
      var r := bytes[0 := if bytes[0] == 0 then 1 else 0];
      assert r[0] != bytes[0];
      r
  }

  /**
   * A copy is equal to the original, whatever malloc held, exactly when the
   * original has no NULL string, no infinity or NaN, and no blob that claims a
   * length without data.
   */
  lemma CopyIsEqualExactlyWhenFaithful(t: Tree)
    ensures (forall c | IsCopy(c, t) :: EqualTree(c, t)) <==> AllLeaves(t, Faithful)
  {
    if AllLeaves(t, Faithful) {
      forall c | IsCopy(c, t) ensures EqualTree(c, t) {
        CopyIsEqualWhen(c, t);
      }
    } else {
      assert IsCopy(Mismatch(t), t) && !EqualTree(Mismatch(t), t);
    }
  }

  /** A header of length 3 with a NULL data pointer: the receiver's copy may differ from it. */
  lemma NullBlobMayDiffer(m: Memory, p: uint32)
    requires Translate(m, p) != 0 && m.blob(Translate(m, p)) == BlobHeader(3, 0)
    ensures exists t, c :: Denotes(GraphOf(m), Blob(p), t) && Fits(Size(t)) && IsCopy(c, t) && !EqualTree(c, t)
  {
    var t := TLeaf(LeafOf(m, Blob(p)));
    assert Denotes(GraphOf(m), Blob(p), t) && !AllLeaves(t, Faithful);
    assert IsCopy(Mismatch(t), t) && !EqualTree(Mismatch(t), t);
  }

  lemma {:induction false} CopiesAppend(cs: seq<Tree>, ts: seq<Tree>, c: Tree, t: Tree)
    requires |cs| == |ts| && AreCopies(cs, ts) && IsCopy(c, t)
    ensures AreCopies(cs + [c], ts + [t])
    decreases |ts|
  {
    if ts == [] {
      assert ts + [t] == [t] && cs + [c] == [c] && [t][1..] == [] && [c][1..] == [];
    } else {
      assert (ts + [t])[1..] == ts[1..] + [t] && (cs + [c])[1..] == cs[1..] + [c];
      CopiesAppend(cs[1..], ts[1..], c, t);
    }
  }

  /** Equality position by position. */
  lemma {:induction false} EqualTreesAt(a: seq<Tree>, b: seq<Tree>)
    requires |a| == |b|
    ensures EqualTrees(a, b) <==> forall k | 0 <= k < |a| :: EqualTree(a[k], b[k])
    decreases |a|
  {
    if a != [] {
      EqualTreesAt(a[1..], b[1..]);
      assert forall k | 0 < k < |a| :: a[k] == a[1..][k - 1] && b[k] == b[1..][k - 1];
      if forall k | 0 <= k < |a| :: EqualTree(a[k], b[k]) {
        forall k | 0 <= k < |a| - 1 ensures EqualTree(a[1..][k], b[1..][k]) {
          assert a[1..][k] == a[k + 1] && b[1..][k] == b[k + 1];
        }
      }
    }
  }

  /** The tree without the distinction between NULL data and bytes at address 0. */
  function Bare(t: Tree): Tree
    decreases t
  {
    match t
    case TLeaf(l) => TLeaf(if l.LBlob? then LBlob(l.bytes, false) else l)
    case TNode(isMap, entries) => TNode(isMap, BareAll(entries))
  }

  function BareAll(ts: seq<Tree>): (r: seq<Tree>)
    ensures |r| == |ts|
    decreases ts
  {
    if ts == [] then [] else [Bare(ts[0])] + BareAll(ts[1..])
  }

  predicate NoFloat(l: Leaf) { !l.LFloat? }

  /** Without floats the comparison tells exactly the different trees apart. */
  lemma {:induction false} EqualExactlyWhenSame(a: Tree, b: Tree)
    requires AllLeaves(a, NoFloat)
    ensures EqualTree(a, b) <==> Bare(a) == Bare(b)
    decreases a
  {
    if a.TNode? && b.TNode? && |a.entries| == |b.entries| {
      AllEqualExactlyWhenSame(a.entries, b.entries);
    } else if a.TNode? && b.TNode? {
      assert |BareAll(a.entries)| != |BareAll(b.entries)|;
    }
  }

  lemma {:induction false} AllEqualExactlyWhenSame(a: seq<Tree>, b: seq<Tree>)
    requires |a| == |b| && AllLeavesOf(a, NoFloat)
    ensures EqualTrees(a, b) <==> BareAll(a) == BareAll(b)
    decreases a
  {
    if a != [] {
      EqualExactlyWhenSame(a[0], b[0]);
      AllEqualExactlyWhenSame(a[1..], b[1..]);
      assert BareAll(a)[0] == Bare(a[0]) && BareAll(a)[1..] == BareAll(a[1..]);
      assert BareAll(b)[0] == Bare(b[0]) && BareAll(b)[1..] == BareAll(b[1..]);
      assert BareAll(a) == [Bare(a[0])] + BareAll(a[1..]) && BareAll(b) == [Bare(b[0])] + BareAll(b[1..]);
    }
  }

  // ----- the code, reading a scratch area

  /** The `k`-th of the held entries. */
  lemma {:induction false} HeldEntry(m: Memory, s: Slots, isMap: bool, len: nat, n: nat, j: nat, trees: seq<Tree>,
      at: Budget, k: nat) returns (own: Budget)
    requires EntriesHeld(m, s, isMap, len, n, j, trees, at) && k < |trees|
    ensures var slot := SlotOf(isMap, len, n, j + k); slot < |s.items| && Holds(m, s, s.items[slot], trees[k], own)
    decreases k
  {
    if k == 0 {
      own := at;
    } else {
      own := HeldEntry(m, s, isMap, len, n, j + 1, trees[1..], Plus(at, Size(trees[0])), k - 1);
    }
  }

  /** z_obj_blob: what is not copied keeps what malloc returned. */
  method CopyBlob(m: Memory, h: BlobHeader) returns (t: Tree)
    ensures t.TLeaf? && IsCopyOfLeaf(t.leaf, BlobAt(m, h))
  {
    if h.data != 0 {
      return TLeaf(LBlob(BytesAt(m, h.data, h.len), false));
    }
    // what the new block holds, as a memory of its own
    var held: int -> Byte := *;
    t := TLeaf(LBlob(BytesAt(m.(byte := held), 0, h.len), false));
  }

  /** z_obj_copy of an object other than a list or map. */
  method CopyScalar(m: Memory, s: Scratch, o: Obj<nat>, ghost l: Leaf, ghost b: nat) returns (t: Tree)
    requires LeafHeld(m, s.View(), o, l, b)
    ensures t.TLeaf? && IsCopyOfLeaf(t.leaf, l)
  {
    match o {
      case Nothing => t := TLeaf(LNothing);
      case RetVal(c) => t := TLeaf(LRetVal(c));
      case UInt(u) => t := TLeaf(LUInt(u));
      case Int(i) => t := TLeaf(LInt(i));
      case Float32(f) => t := TLeaf(LFloat(f));
      case Str(p) => t := TLeaf(LStr(Some(if p == 0 then [] else m.str(p))));
      case Blob(k) => t := CopyBlob(m, s.blobs[k]);
      case _ =>
    }
  }

  /** z_obj_copy */
  method CopyObj(m: Memory, s: Scratch, o: Obj<nat>, ghost tree: Tree, ghost at: Budget) returns (t: Tree)
    requires Holds(m, s.View(), o, tree, at)
    ensures IsCopy(t, tree)
    decreases tree, 2
  {
    match o {
      case List(k) => t := CopyTable(m, s, false, k, tree, at);
      case Map(k) => t := CopyTable(m, s, true, k, tree, at);
      case _ => t := CopyScalar(m, s, o, tree.leaf, at.b);
    }
  }

  method CopyTable(m: Memory, s: Scratch, isMap: bool, k: nat, ghost tree: Tree, ghost at: Budget) returns (t: Tree)
    requires Holds(m, s.View(), if isMap then Map(k) else List(k), tree, at) && tree.TNode?
    ensures IsCopy(t, tree)
    decreases tree, 1
  {
    var len, keys := s.tables[k].len, s.tables[k].a;
    var cells: seq<Tree> := [];
    for i := 0 to len
      invariant |cells| == EntryCount(isMap, i) && AreCopies(cells, tree.entries[..|cells|])
    {
      PairSlots(len, at.n, i);
      cells := CopyCell(m, s, keys + i, tree, at, cells);
      if isMap {
        cells := CopyCell(m, s, s.tables[k].b.value + i, tree, at, cells);
      }
    }
    assert tree.entries[..|cells|] == tree.entries;
    t := TNode(isMap, cells);
  }

  /** One cell of the new table. */
  method CopyCell(m: Memory, s: Scratch, slot: nat, ghost tree: Tree, ghost at: Budget, cells: seq<Tree>)
      returns (r: seq<Tree>)
    requires tree.TNode? && Holds(m, s.View(), if tree.isMap then Map(at.t) else List(at.t), tree, at)
    requires |cells| < |tree.entries| && AreCopies(cells, tree.entries[..|cells|])
    requires slot == SlotOf(tree.isMap, s.tables[at.t].len, at.n, |cells|)
    ensures |r| == |cells| + 1 && AreCopies(r, tree.entries[..|r|])
    decreases tree, 0
  {
    ghost var j := |cells|;
    ghost var own := HeldEntry(m, s.View(), tree.isMap, s.tables[at.t].len, at.n, 0, tree.entries,
                               Opened(at, |tree.entries|), j);
    var t := CopyObj(m, s, s.items[slot], tree.entries[j], own);
    CopiesAppend(cells, tree.entries[..j], t, tree.entries[j]);
    assert tree.entries[..j + 1] == tree.entries[..j] + [tree.entries[j]];
    r := cells + [t];
  }

  /** z_obj_equal, with the rebuilt object on the left and a copy on the right. */
  method EqualObj(m: Memory, s: Scratch, o: Obj<nat>, other: Tree, ghost tree: Tree,
      ghost at: Budget) returns (eq: bool)
    requires Holds(m, s.View(), o, tree, at)
    ensures eq == EqualTree(tree, other)
    decreases tree, 2
  {
    match o {
      case List(k) => eq := EqualTable(m, s, false, k, other, tree, at);
      case Map(k) => eq := EqualTable(m, s, true, k, other, tree, at);
      case _ => eq := EqualScalar(m, s, o, other, tree.leaf, at.b);
    }
  }

  method EqualScalar(m: Memory, s: Scratch, o: Obj<nat>, other: Tree, ghost l: Leaf, ghost b: nat) returns (eq: bool)
    requires LeafHeld(m, s.View(), o, l, b)
    ensures eq == EqualTree(TLeaf(l), other)
  {
    if other.TNode? {
      return false;
    }
    match o {
      case Nothing => eq := other.leaf.LNothing?;
      case RetVal(c) => eq := other.leaf == LRetVal(c);
      case UInt(u) => eq := other.leaf == LUInt(u);
      case Int(i) => eq := other.leaf == LInt(i);
      case Float32(f) => eq := other.leaf.LFloat? && EqualFloat(f, other.leaf.f);
      case Str(p) => eq := other.leaf == (if p == 0 then LStr(None) else LStr(Some(m.str(p))));
      case Blob(k) => eq := other.leaf.LBlob? && other.leaf.bytes == BytesAt(m, s.blobs[k].data, s.blobs[k].len);
      case _ =>
    }
  }

  method EqualTable(m: Memory, s: Scratch, isMap: bool, k: nat, other: Tree, ghost tree: Tree, ghost at: Budget)
      returns (eq: bool)
    requires Holds(m, s.View(), if isMap then Map(k) else List(k), tree, at) && tree.TNode?
    ensures eq == EqualTree(tree, other)
    decreases tree, 1
  {
    var len, keys := s.tables[k].len, s.tables[k].a;
    if !other.TNode? || other.isMap != isMap || |other.entries| != EntryCount(isMap, len) {
      return false;
    }
    EqualTreesAt(tree.entries, other.entries);
    for i := 0 to len
      invariant forall j | 0 <= j < EntryCount(isMap, i) :: EqualTree(tree.entries[j], other.entries[j])
    {
      PairSlots(len, at.n, i);
      var j := EntryCount(isMap, i);
      eq := EqualCell(m, s, keys + i, j, other, tree, at);
      if !eq { return; }
      if isMap {
        eq := EqualCell(m, s, s.tables[k].b.value + i, j + 1, other, tree, at);
        if !eq { return; }
      }
    }
    eq := true;
  }

  method EqualCell(m: Memory, s: Scratch, slot: nat, j: nat, other: Tree, ghost tree: Tree, ghost at: Budget)
      returns (eq: bool)
    requires tree.TNode? && Holds(m, s.View(), if tree.isMap then Map(at.t) else List(at.t), tree, at)
    requires other.TNode? && |other.entries| == |tree.entries| && j < |tree.entries|
    requires slot == SlotOf(tree.isMap, s.tables[at.t].len, at.n, j)
    ensures eq == EqualTree(tree.entries[j], other.entries[j])
    decreases tree, 0
  {
    ghost var own := HeldEntry(m, s.View(), tree.isMap, s.tables[at.t].len, at.n, 0, tree.entries,
                               Opened(at, |tree.entries|), j);
    eq := EqualObj(m, s, s.items[slot], other.entries[j], tree.entries[j], own);
  }

  // ----- reading a message

  /**
   * k_msg_read followed by z_obj_copy, as receivers do: on success the result is
   * a copy of what the sender's object denotes, and comparing the two succeeds
   * if that is faithful and fails if it is not comparable; otherwise the payload
   * is Z_NONE.  For a payload made of the sender's own pointers that is the tree
   * the sender itself sees.
   */
  method ReadAndCopy(m: Memory, s: Scratch, o: Obj<uint32>) returns (ok: bool, copy: Tree, same: bool)
    requires s.Valid() && s.Used() == ZERO && Resolved(GraphOf(m), o, ZERO) != Overrun
    modifies s, s.tables, s.items, s.blobs
    ensures ok <==> exists tree :: Denotes(GraphOf(m), o, tree) && Fits(Size(tree))
    ensures !ok ==> copy == TLeaf(LNothing) && same
    ensures ok ==> forall tree :: Denotes(GraphOf(m), o, tree) ==>
              && IsCopy(copy, tree) && (same <==> EqualTree(copy, tree))
              && (AllLeaves(tree, Faithful) ==> same) && (same ==> AllLeaves(tree, Comparable))
    ensures forall tree | Sender.OwnPayload(m, o, tree) && Sender.Reads(m, o, tree) ::
              (ok <==> Fits(Size(tree))) && (ok ==> IsCopy(copy, tree) && (same <==> EqualTree(copy, tree)))
  {
    var r;
    GraphOfDepicts(m);
    r, ok := s.ResolveObj(m, o, GraphOf(m));
    ResolvesExactlyWhatFits(GraphOf(m), o);
    ghost var tree := if ok then Resolved(GraphOf(m), o, ZERO).tree else TLeaf(LNothing);
    copy := CopyObj(m, s, r, tree, ZERO);
    same := EqualObj(m, s, r, copy, tree, ZERO);
    EqualIsSymmetric(tree, copy);
    CopyIsEqualWhen(copy, tree);
    forall t | Denotes(GraphOf(m), o, t) && ok ensures t == tree {
      MeaningIsUnique(GraphOf(m), o, t, tree);
    }
    forall t | Sender.OwnPayload(m, o, t) && Sender.Reads(m, o, t)
      ensures (ok <==> Fits(Size(t))) && (ok ==> t == tree)
    {
      Sender.PayloadArrivesAsSeen(m, o, t);
    }
  }

  lemma {:induction false} EqualIsSymmetric(a: Tree, b: Tree)
    ensures EqualTree(a, b) <==> EqualTree(b, a)
    decreases a
  {
    if a.TNode? && b.TNode? && |a.entries| == |b.entries| {
      EqualTreesSymmetric(a.entries, b.entries);
    }
  }

  lemma {:induction false} EqualTreesSymmetric(a: seq<Tree>, b: seq<Tree>)
    requires |a| == |b|
    ensures EqualTrees(a, b) <==> EqualTrees(b, a)
    decreases a
  {
    if a != [] {
      EqualIsSymmetric(a[0], b[0]);
      EqualTreesSymmetric(a[1..], b[1..]);
    }
  }
}
