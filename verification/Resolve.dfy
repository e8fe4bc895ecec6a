/**
 * Message payloads: z_resolve_obj of sw/os/msg.c rebuilds the structure of a
 * sender's object in a bounded scratch area of the receiver without copying
 * the bytes, and z_obj_copy and z_obj_equal of sw/common/zobj.c work on the
 * result.
 */
module Resolve {
  import opened Words

  const MAX_TABLES: int := 4
  const MAX_ITEMS: int := 16
  const MAX_BLOBS: int := 2
  const OBJ_SIZE: int := 8

  datatype Float = Finite(r: real) | Infinite(negative: bool) | NaN

  /** z_obj_t; `P` is what its list, map and blob pointers are. */
  datatype Obj<+P> =
    | Nothing | RetVal(code: int) | UInt(u: uint32) | Int(i: int) | Float32(f: Float)
    | Str(s: uint32) | List(t: P) | Map(t: P) | Blob(b: P) | Unknown(kind: int)

  datatype RawTable = RawTable(len: uint32, a: uint32, b: uint32)
  datatype BlobHeader = BlobHeader(len: uint32, data: uint32)

  /**
   * The memory a message points into: what a table, an object, a blob header, a
   * string or a byte read at a physical address is.  It is a value: nothing
   * below can change it.
   */
  datatype Memory = Memory(pid: uint32, base: uint32, table: uint32 -> RawTable, obj: uint32 -> Obj<uint32>,
                           blob: uint32 -> BlobHeader, str: uint32 -> seq<Byte>, byte: int -> Byte)

  /** z_translate: the physical address of a pointer made by the sender. */
  function Translate(m: Memory, p: uint32): uint32 {
    if p == 0 then 0 else if m.pid == 0 then p else Wrap32(p - 0x8000_0000 + m.base)
  }

  // ----- what an object means

  /**
   * Everything that is not a list or a map.  A blob with a NULL data pointer may
   * still claim a length; its bytes are what reading there gives.
   */
  datatype Leaf =
    | LNothing | LRetVal(code: int) | LUInt(u: uint32) | LInt(i: int) | LFloat(f: Float)
    | LStr(s: Option<seq<Byte>>) | LBlob(bytes: seq<Byte>, isNull: bool)

  /** The entries of a map alternate between keys and values. */
  datatype Tree = TLeaf(leaf: Leaf) | TNode(isMap: bool, entries: seq<Tree>)

  function BytesAt(m: Memory, at: int, len: nat): (s: seq<Byte>)
    ensures |s| == len
    decreases len
  {
    if len == 0 then [] else [m.byte(at)] + BytesAt(m, at + 1, len - 1)
  }

  /** A string by its physical address; NULL stays NULL. */
  function StrAt(m: Memory, p: uint32): Leaf {
    LStr(if p == 0 then None else Some(m.str(p)))
  }

  function BlobAt(m: Memory, h: BlobHeader): Leaf { LBlob(BytesAt(m, h.data, h.len), h.data == 0) }

  /** The sender's blob header with its data pointer translated. */
  function BlobOf(m: Memory, src: uint32): BlobHeader {
    BlobHeader(m.blob(src).len, Translate(m, m.blob(src).data))
  }

  function LeafOf(m: Memory, o: Obj<uint32>): Leaf {
    match o
    case RetVal(c) => LRetVal(c)
    case UInt(u) => LUInt(u)
    case Int(i) => LInt(i)
    case Float32(f) => LFloat(f)
    case Str(s) => StrAt(m, Translate(m, s))
    case Blob(b) => if Translate(m, b) == 0 then LNothing else BlobAt(m, BlobOf(m, Translate(m, b)))
    case _ => LNothing
  }

  /** A list or a map: its entries in the order of the loop, and the answer of the budget test to a fill level. */
  datatype Node = Node(isMap: bool, len: uint32, entry: nat -> Obj<uint32>, passes: nat -> bool)

  function EntryCount(isMap: bool, len: nat): nat { if isMap then 2 * len else len }

  /** *z_translate(&a[i]) */
  function ItemAt(m: Memory, a: uint32, i: nat): Obj<uint32> {
    m.obj(Translate(m, Wrap32(a + OBJ_SIZE * i)))
  }

  /** The sender's `j`-th entry in the order of the loop. */
  function Entry(m: Memory, src: RawTable, isMap: bool, j: nat): Obj<uint32> {
    if !isMap then ItemAt(m, src.a, j) else ItemAt(m, if j % 2 == 0 then src.a else src.b, j / 2)
  }

  /** The 32-bit test on *icount + need. */
  predicate Passes(isMap: bool, len: uint32, used: nat) {
    Wrap32(used + Wrap32(len * (if isMap then 2 else 1))) <= MAX_ITEMS
  }

  /** None for a leaf; a list or map whose pointer is NULL counts as one. */
  function NodeOf(m: Memory, o: Obj<uint32>): Option<Node> {
    if (o.List? || o.Map?) && Translate(m, o.t) != 0 then
      var src := m.table(Translate(m, o.t));
      Some(Node(o.Map?, src.len, j => Entry(m, src, o.Map?, j), (used: nat) => Passes(o.Map?, src.len, used)))
    else None
  }

  /** An object graph, with everything about memory left out. */
  datatype Graph = Graph(node: Obj<uint32> -> Option<Node>, leaf: Obj<uint32> -> Leaf)

  function GraphOf(m: Memory): Graph { Graph(o => NodeOf(m, o), o => LeafOf(m, o)) }

  /** `g` is the graph of this memory. */
  ghost predicate Depicts(g: Graph, m: Memory) {
    && (forall o {:trigger NodeOf(m, o)} :: g.node(o) == NodeOf(m, o))
    && (forall o {:trigger LeafOf(m, o)} :: g.leaf(o) == LeafOf(m, o))
  }

  predicate TestOf(node: Node, used: nat) { node.passes(used) == Passes(node.isMap, node.len, used) }

  /** The budget test of every table is the code's. */
  ghost predicate Tested(g: Graph) {
    forall o, used: nat | g.node(o).Some? :: TestOf(g.node(o).value, used)
  }

  lemma GraphOfDepicts(m: Memory)
    ensures Depicts(GraphOf(m), m) && Tested(GraphOf(m))
  {
  }

  /** The object denotes this finite tree.  An object on a cycle denotes none. */
  predicate Denotes(g: Graph, o: Obj<uint32>, tree: Tree)
    decreases tree
  {
    match g.node(o)
    case None => tree == TLeaf(g.leaf(o))
    case Some(node) =>
      && tree.TNode? && tree.isMap == node.isMap && |tree.entries| == EntryCount(node.isMap, node.len)
      && EntriesDenote(g, node, 0, tree.entries)
  }

  /** The entries from the `j`-th on denote these trees. */
  predicate EntriesDenote(g: Graph, node: Node, j: nat, trees: seq<Tree>)
    decreases trees
  {
    trees == [] || (Denotes(g, node.entry(j), trees[0]) && EntriesDenote(g, node, j + 1, trees[1..]))
  }

  // ----- how much scratch a tree takes

  datatype Budget = Budget(t: nat, n: nat, b: nat)

  const ZERO: Budget := Budget(0, 0, 0)

  // `reads {}` keeps the verifier from computing with constant budgets
  function Plus(x: Budget, y: Budget): Budget
    reads {}
  {
    Budget(x.t + y.t, x.n + y.n, x.b + y.b)
  }

  function LeafSize(l: Leaf): Budget { if l.LBlob? then Budget(0, 0, 1) else ZERO }

  function Size(tree: Tree): Budget
    decreases tree
  {
    match tree
    case TLeaf(l) => LeafSize(l)
    case TNode(_, entries) => Plus(Budget(1, |entries|, 0), Sizes(entries))
  }

  function Sizes(trees: seq<Tree>): Budget
    decreases trees
  {
    if trees == [] then ZERO else Plus(Size(trees[0]), Sizes(trees[1..]))
  }

  predicate Fits(u: Budget) { u.t <= MAX_TABLES && u.n <= MAX_ITEMS && u.b <= MAX_BLOBS }

  // ----- z_resolve_obj on values: the tree it rebuilds and the scratch in use afterwards

  /** `Overrun`: the budget test lets a table claim items beyond the scratch area. */
  datatype Outcome = Done(tree: Tree, used: Budget) | OutOfScratch | Overrun
  datatype Row = Row(trees: seq<Tree>, rowUsed: Budget) | RowOutOfScratch | RowOverrun

  /** The counters after a table and its items have been claimed. */
  function Opened(u: Budget, need: nat): Budget
    reads {}
  {
    Budget(u.t + 1, u.n + need, u.b)
  }

  function Resolved(g: Graph, o: Obj<uint32>, u: Budget): (r: Outcome)
    requires Fits(u)
    ensures r.Done? ==> Fits(r.used) && u.t <= r.used.t
    decreases MAX_TABLES - u.t, 0
  {
    match g.node(o)
    case Some(node) =>
      var need := EntryCount(node.isMap, node.len);
      if u.t >= MAX_TABLES || !node.passes(u.n) then OutOfScratch
      else if u.n + need > MAX_ITEMS then Overrun
      else
        (match ResolvedFrom(g, node, 0, need, Opened(u, need))
         case Row(entries, v) => Done(TNode(node.isMap, entries), v)
         case RowOutOfScratch => OutOfScratch
         case RowOverrun => Overrun)
    case None =>
      if !g.leaf(o).LBlob? then Done(TLeaf(g.leaf(o)), u)
      else if u.b >= MAX_BLOBS then OutOfScratch
      else Done(TLeaf(g.leaf(o)), u.(b := u.b + 1))
  }

  /** Entries `j` and after, in the order of the loop: key, value, key, value. */
  function ResolvedFrom(g: Graph, node: Node, j: nat, need: nat, u: Budget): (r: Row)
    requires Fits(u) && j <= need
    ensures r.Row? ==> Fits(r.rowUsed) && u.t <= r.rowUsed.t
    decreases MAX_TABLES - u.t, need - j
  {
    if j == need then Row([], u)
    else
      match Resolved(g, node.entry(j), u)
      case OutOfScratch => RowOutOfScratch
      case Overrun => RowOverrun
      case Done(tree, v) => Prepend([tree], ResolvedFrom(g, node, j + 1, need, v))
  }

  function Prepend(done: seq<Tree>, r: Row): Row {
    match r
    case Row(trees, u) => Row(done + trees, u)
    case _ => r
  }

  // ----- what it rebuilds is what the sender meant, and it fails exactly when that does not fit

  lemma PlusOpened(u: Budget, need: nat, x: Budget)
    ensures Plus(Opened(u, need), x) == Plus(u, Plus(Budget(1, need, 0), x))
  {
  }

  lemma PlusAssociates(u: Budget, x: Budget, y: Budget)
    ensures Plus(Plus(u, x), y) == Plus(u, Plus(x, y))
  {
  }

  lemma {:induction false} ResolvedDenotes(g: Graph, o: Obj<uint32>, u: Budget)
    requires Fits(u) && Resolved(g, o, u).Done?
    ensures Denotes(g, o, Resolved(g, o, u).tree)
    ensures Resolved(g, o, u).used == Plus(u, Size(Resolved(g, o, u).tree))
    decreases MAX_TABLES - u.t, 0
  {
    match g.node(o)
    case Some(node) =>
      var need := EntryCount(node.isMap, node.len);
      var row := ResolvedFrom(g, node, 0, need, Opened(u, need));
      RowDenotes(g, node, 0, need, Opened(u, need));
      NodeTakes(u, node.isMap, row.trees);
    case None =>
      LeafTakes(u, g.leaf(o));
  }

  lemma NodeTakes(u: Budget, isMap: bool, entries: seq<Tree>)
    ensures Plus(u, Size(TNode(isMap, entries))) == Plus(Opened(u, |entries|), Sizes(entries))
  {
    NodeSize(isMap, entries);
    PlusOpened(u, |entries|, Sizes(entries));
  }

  lemma NodeSize(isMap: bool, entries: seq<Tree>)
    ensures Size(TNode(isMap, entries)) == Plus(Budget(1, |entries|, 0), Sizes(entries))
  {
  }

  lemma LeafTakes(u: Budget, l: Leaf)
    ensures Plus(u, Size(TLeaf(l))) == if l.LBlob? then u.(b := u.b + 1) else u
  {
  }

  lemma {:induction false} RowDenotes(g: Graph, node: Node, j: nat, need: nat, u: Budget)
    requires Fits(u) && j <= need && ResolvedFrom(g, node, j, need, u).Row?
    ensures var r := ResolvedFrom(g, node, j, need, u);
            && |r.trees| == need - j && r.rowUsed == Plus(u, Sizes(r.trees))
            && EntriesDenote(g, node, j, r.trees)
    decreases MAX_TABLES - u.t, need - j
  {
    if j < need {
      var first := Resolved(g, node.entry(j), u);
      ResolvedDenotes(g, node.entry(j), u);
      RowDenotes(g, node, j + 1, need, first.used);
      var rest := ResolvedFrom(g, node, j + 1, need, first.used).trees;
      assert ([first.tree] + rest)[1..] == rest;
      PlusAssociates(u, Size(first.tree), Sizes(rest));
    }
  }

  lemma FittingPasses(isMap: bool, len: uint32, used: nat)
    requires used + EntryCount(isMap, len) <= MAX_ITEMS
    ensures Passes(isMap, len, used)
  {
  }

  lemma {:induction false} FittingResolves(g: Graph, o: Obj<uint32>, u: Budget, tree: Tree)
    requires Tested(g) && Denotes(g, o, tree) && Fits(Plus(u, Size(tree)))
    ensures Fits(u) && Resolved(g, o, u) == Done(tree, Plus(u, Size(tree)))
    decreases tree
  {
    match g.node(o)
    case Some(node) =>
      var need := |tree.entries|;
      FittingPasses(node.isMap, node.len, u.n);
      assert TestOf(node, u.n);
      PlusOpened(u, need, Sizes(tree.entries));
      FittingRowResolves(g, node, 0, need, Opened(u, need), tree.entries);
    case None =>
  }

  lemma {:induction false} FittingRowResolves(g: Graph, node: Node, j: nat, need: nat, u: Budget, trees: seq<Tree>)
    requires Tested(g) && EntriesDenote(g, node, j, trees) && j + |trees| == need && Fits(Plus(u, Sizes(trees)))
    ensures Fits(u) && ResolvedFrom(g, node, j, need, u) == Row(trees, Plus(u, Sizes(trees)))
    decreases trees
  {
    if trees != [] {
      PlusAssociates(u, Size(trees[0]), Sizes(trees[1..]));
      FittingResolves(g, node.entry(j), u, trees[0]);
      FittingRowResolves(g, node, j + 1, need, Plus(u, Size(trees[0])), trees[1..]);
      assert [trees[0]] + trees[1..] == trees;
    }
  }

  /**
   * z_resolve_obj succeeds exactly on the objects that denote a finite tree of
   * at most 4 tables, 16 items and 2 blobs, and what it rebuilds is that tree,
   * whatever lengths the sender's tables claim.  A cyclic graph never succeeds.
   */
  lemma ResolvesExactlyWhatFits(g: Graph, o: Obj<uint32>)
    requires Tested(g)
    ensures var r := Resolved(g, o, ZERO);
            && (r.Done? <==> exists tree :: Denotes(g, o, tree) && Fits(Size(tree)))
            && (r.Done? ==> Denotes(g, o, r.tree) && r.used == Size(r.tree))
  {
    var r := Resolved(g, o, ZERO);
    if r.Done? {
      ResolvedDenotes(g, o, ZERO);
      assert Plus(ZERO, Size(r.tree)) == Size(r.tree);
    }
    if tree :| Denotes(g, o, tree) && Fits(Size(tree)) {
      assert Plus(ZERO, Size(tree)) == Size(tree);
      FittingResolves(g, o, ZERO, tree);
    }
  }

  /** An object means one tree at most. */
  lemma {:induction false} MeaningIsUnique(g: Graph, o: Obj<uint32>, x: Tree, y: Tree)
    requires Denotes(g, o, x) && Denotes(g, o, y)
    ensures x == y
    decreases x
  {
    match g.node(o)
    case Some(node) => RowMeaningIsUnique(g, node, 0, x.entries, y.entries);
    case None =>
  }

  lemma {:induction false} RowMeaningIsUnique(g: Graph, node: Node, j: nat, x: seq<Tree>, y: seq<Tree>)
    requires EntriesDenote(g, node, j, x) && EntriesDenote(g, node, j, y) && |x| == |y|
    ensures x == y
    decreases x
  {
    if x != [] {
      MeaningIsUnique(g, node.entry(j), x[0], y[0]);
      RowMeaningIsUnique(g, node, j + 1, x[1..], y[1..]);
      assert x == [x[0]] + x[1..] && y == [y[0]] + y[1..];
    }
  }

  /** A list whose first item is the list itself has no meaning. */
  lemma {:induction false} NoTreeContainsItself(g: Graph, o: Obj<uint32>, tree: Tree)
    requires g.node(o).Some? && g.node(o).value.len > 0 && g.node(o).value.entry(0) == o
    ensures !Denotes(g, o, tree)
    decreases tree
  {
    if tree.TNode? && |tree.entries| > 0 {
      NoTreeContainsItself(g, o, tree.entries[0]);
    }
  }

  // ----- when the 32-bit budget test is right

  /** With `used` items claimed, the test gives the answer of the true sum. */
  predicate ExactAt(isMap: bool, len: uint32, used: nat) {
    Passes(isMap, len, used) <==> used + EntryCount(isMap, len) <= MAX_ITEMS
  }

  /** Which is so exactly when the sum does not pass 2^32, or its remainder is above the limit anyway. */
  lemma ExactAtExactlyWhen(isMap: bool, len: uint32, used: nat)
    requires used <= MAX_ITEMS
    ensures ExactAt(isMap, len, used) <==>
            used + EntryCount(isMap, len) < TWO_32 || Wrap32(used + EntryCount(isMap, len)) > MAX_ITEMS
  {
  }

  /** And with any number of items claimed, exactly for these lengths. */
  predicate SafeLength(isMap: bool, len: uint32) {
    var count := EntryCount(isMap, len);
    count < TWO_32 - MAX_ITEMS || TWO_32 + MAX_ITEMS < count < 2 * TWO_32 - MAX_ITEMS
  }

  lemma SafeLengthExactlyWhen(isMap: bool, len: uint32)
    ensures SafeLength(isMap, len) <==> forall used: nat | used <= MAX_ITEMS :: ExactAt(isMap, len, used)
  {
    forall used: nat | used <= MAX_ITEMS && SafeLength(isMap, len) ensures ExactAt(isMap, len, used) {
      ExactAtExactlyWhen(isMap, len, used);
    }
    if !SafeLength(isMap, len) {
      ExactAtExactlyWhen(isMap, len, 0);
      ExactAtExactlyWhen(isMap, len, MAX_ITEMS);
      assert !ExactAt(isMap, len, 0) || !ExactAt(isMap, len, MAX_ITEMS);
    }
  }

  /** Arrays that fit a 32-bit address space at 8 bytes an object have safe lengths. */
  lemma LengthsInMemoryAreSafe(isMap: bool, len: uint32)
    requires len * OBJ_SIZE <= TWO_32
    ensures SafeLength(isMap, len)
  {
  }

  /** A map of 2^31 entries needs 2^32 items, which the code counts as none. */
  lemma MapOf2To31Passes()
    ensures Passes(true, 0x8000_0000, 0) && !ExactAt(true, 0x8000_0000, 0)
  {
  }

  /** A list of 2^32 - 1 items behind one claimed item is counted as none as well. */
  lemma NestedListOf2To32Minus1Passes()
    ensures Passes(false, 0xFFFF_FFFF, 1) && !ExactAt(false, 0xFFFF_FFFF, 1)
  {
  }

  /** The set holds everything that its lists and maps have as entries. */
  ghost predicate Closed(g: Graph, s: iset<Obj<uint32>>) {
    forall o, j: nat | o in s && g.node(o).Some? && j < EntryCount(g.node(o).value.isMap, g.node(o).value.len) ::
      g.node(o).value.entry(j) in s
  }

  predicate SafeNode(g: Graph, o: Obj<uint32>) {
    g.node(o).Some? ==> SafeLength(g.node(o).value.isMap, g.node(o).value.len)
  }

  /** Among these objects every list and map has a safe length. */
  ghost predicate TestIsExact(g: Graph, s: iset<Obj<uint32>>) { forall o | o in s :: SafeNode(g, o) }

  /** An object that reaches safe lengths alone claims no items beyond the scratch area. */
  lemma {:induction false} ExactNeverOverruns(g: Graph, s: iset<Obj<uint32>>, o: Obj<uint32>, u: Budget)
    requires Tested(g) && Fits(u) && Closed(g, s) && TestIsExact(g, s) && o in s
    ensures Resolved(g, o, u) != Overrun
    decreases MAX_TABLES - u.t, 0
  {
    match g.node(o)
    case Some(node) =>
      SafeTestIsExact(g, o, u.n);
      var need := EntryCount(node.isMap, node.len);
      if u.t < MAX_TABLES && u.n + need <= MAX_ITEMS {
        ExactRowNeverOverruns(g, s, o, 0, Opened(u, need));
      }
    case None =>
  }

  lemma SafeTestIsExact(g: Graph, o: Obj<uint32>, used: nat)
    requires Tested(g) && used <= MAX_ITEMS && g.node(o).Some? && SafeNode(g, o)
    ensures var node := g.node(o).value; node.passes(used) <==> used + EntryCount(node.isMap, node.len) <= MAX_ITEMS
  {
    var node := g.node(o).value;
    SafeLengthExactlyWhen(node.isMap, node.len);
    assert ExactAt(node.isMap, node.len, used) && TestOf(node, used);
  }

  lemma {:induction false} ExactRowNeverOverruns(g: Graph, s: iset<Obj<uint32>>, o: Obj<uint32>, j: nat, u: Budget)
    requires Tested(g) && Fits(u) && Closed(g, s) && TestIsExact(g, s) && o in s && g.node(o).Some?
    requires j <= EntryCount(g.node(o).value.isMap, g.node(o).value.len)
    ensures var node := g.node(o).value;
            ResolvedFrom(g, node, j, EntryCount(node.isMap, node.len), u) != RowOverrun
    decreases MAX_TABLES - u.t, EntryCount(g.node(o).value.isMap, g.node(o).value.len) - j
  {
    var node := g.node(o).value;
    if j < EntryCount(node.isMap, node.len) {
      ExactNeverOverruns(g, s, node.entry(j), u);
      var first := Resolved(g, node.entry(j), u);
      if first.Done? {
        ExactRowNeverOverruns(g, s, o, j + 1, first.used);
      }
    }
  }

  /**
   * Among objects that reach nothing else, none claims items beyond the scratch
   * area, from any counters, exactly when every list and map has a safe length.
   */
  lemma NeverOverrunsExactlyWhen(g: Graph, s: iset<Obj<uint32>>)
    requires Tested(g) && Closed(g, s)
    ensures (forall o, u | o in s && Fits(u) :: Resolved(g, o, u) != Overrun) <==> TestIsExact(g, s)
  {
    if TestIsExact(g, s) {
      forall o, u | o in s && Fits(u) ensures Resolved(g, o, u) != Overrun {
        ExactNeverOverruns(g, s, o, u);
      }
    } else {
      var o :| o in s && !SafeNode(g, o);
      UnsafeLengthOverruns(g, o);
    }
  }

  lemma UnsafeLengthOverruns(g: Graph, o: Obj<uint32>)
    requires Tested(g) && !SafeNode(g, o)
    ensures exists u :: Fits(u) && Resolved(g, o, u) == Overrun
  {
    var node := g.node(o).value;
    SafeLengthExactlyWhen(node.isMap, node.len);
    var used: nat :| used <= MAX_ITEMS && !ExactAt(node.isMap, node.len, used);
    if used + EntryCount(node.isMap, node.len) <= MAX_ITEMS {
      FittingPasses(node.isMap, node.len, used);
    }
    assert TestOf(node, used);
    assert Resolved(g, o, Budget(0, used, 0)) == Overrun;
  }

  /** A list that is its own first item is never rebuilt, and is refused when its length is safe. */
  lemma SelfContainingListIsRefused(g: Graph, o: Obj<uint32>, u: Budget)
    requires Tested(g) && Fits(u)
    requires g.node(o).Some? && g.node(o).value.len > 0 && g.node(o).value.entry(0) == o
    ensures !Resolved(g, o, u).Done?
    ensures SafeNode(g, o) ==> Resolved(g, o, u) == OutOfScratch
  {
    if Resolved(g, o, u).Done? {
      ResolvedDenotes(g, o, u);
      NoTreeContainsItself(g, o, Resolved(g, o, u).tree);
    }
    if SafeNode(g, o) {
      SafeSelfNeverOverruns(g, o, u);
    }
  }

  lemma {:induction false} SafeSelfNeverOverruns(g: Graph, o: Obj<uint32>, u: Budget)
    requires Tested(g) && Fits(u) && SafeNode(g, o)
    requires g.node(o).Some? && g.node(o).value.len > 0 && g.node(o).value.entry(0) == o
    ensures Resolved(g, o, u) == OutOfScratch
    decreases MAX_TABLES - u.t
  {
    SafeTestIsExact(g, o, u.n);
    var need := EntryCount(g.node(o).value.isMap, g.node(o).value.len);
    if u.t < MAX_TABLES && u.n + need <= MAX_ITEMS {
      SafeSelfNeverOverruns(g, o, Opened(u, need));
    }
  }

  // ----- the scratch area

  /** A rebuilt table: where its keys or items start, and for a map its values. */
  datatype Table = Table(len: nat, a: nat, b: Option<nat>)

  /** The contents of _tables, _items and _blobs. */
  datatype Slots = Slots(tables: seq<Table>, items: seq<Obj<nat>>, blobs: seq<BlobHeader>)

  /**
   * Where entry `j` of a table with items from `n` on is stored: the keys of a
   * map come before its values.
   */
  function SlotOf(isMap: bool, len: nat, n: nat, j: nat): nat {
    if !isMap then n + j
    else if j == 0 then n
    else if j == 1 then n + len
    else SlotOf(isMap, len, n, j - 2) + 1
  }

  predicate LeafHeld(m: Memory, s: Slots, o: Obj<nat>, l: Leaf, b: nat) {
    match l
    case LNothing => o == Nothing
    case LRetVal(c) => o == RetVal(c)
    case LUInt(u) => o == UInt(u)
    case LInt(i) => o == Int(i)
    case LFloat(f) => o == Float32(f)
    case LStr(_) => o.Str? && l == StrAt(m, o.s)
    case LBlob(_, _) => o == Blob(b) && b < |s.blobs| && l == BlobAt(m, s.blobs[b])
  }

  /**
   * The rebuilt object `o` is this tree, laid out in the scratch area from the
   * counters `at` on.  Strings and blob bytes are still the sender's.
   */
  predicate Holds(m: Memory, s: Slots, o: Obj<nat>, tree: Tree, at: Budget)
    decreases tree
  {
    match tree
    case TLeaf(l) => LeafHeld(m, s, o, l, at.b)
    case TNode(isMap, entries) =>
      && TableHeld(s, o, isMap, |entries|, at)
      && EntriesHeld(m, s, isMap, s.tables[at.t].len, at.n, 0, entries, Opened(at, |entries|))
  }

  /** The object points to table slot `at.t`, whose items start at slot `at.n`. */
  predicate TableHeld(s: Slots, o: Obj<nat>, isMap: bool, count: nat, at: Budget) {
    && o == (if isMap then Map(at.t) else List(at.t)) && at.t < |s.tables|
    && var len := s.tables[at.t].len;
    && s.tables[at.t] == Table(len, at.n, if isMap then Some(at.n + len) else None)
    && count == EntryCount(isMap, len) && at.n + count <= |s.items|
  }

  predicate EntriesHeld(m: Memory, s: Slots, isMap: bool, len: nat, n: nat, j: nat, trees: seq<Tree>, at: Budget)
    decreases trees
  {
    trees == [] ||
      (&& SlotOf(isMap, len, n, j) < |s.items|
       && Holds(m, s, s.items[SlotOf(isMap, len, n, j)], trees[0], at)
       && EntriesHeld(m, s, isMap, len, n, j + 1, trees[1..], Plus(at, Size(trees[0]))))
  }

  /** The slots from `lo` up to `hi` have the same contents. */
  predicate Agree(s: Slots, s': Slots, lo: Budget, hi: Budget) {
    && |s'.tables| == |s.tables| && |s'.items| == |s.items| && |s'.blobs| == |s.blobs|
    && (forall k | lo.t <= k < hi.t && k < |s.tables| :: s'.tables[k] == s.tables[k])
    && (forall k | lo.n <= k < hi.n && k < |s.items| :: s'.items[k] == s.items[k])
    && (forall k | lo.b <= k < hi.b && k < |s.blobs| :: s'.blobs[k] == s.blobs[k])
  }

  predicate AtMost(x: Budget, y: Budget) { x.t <= y.t && x.n <= y.n && x.b <= y.b }

  lemma LeafOnItsSlots(m: Memory, s: Slots, s': Slots, o: Obj<nat>, l: Leaf, at: Budget, lo: Budget, hi: Budget)
    requires LeafHeld(m, s, o, l, at.b) && Agree(s, s', lo, hi)
    requires AtMost(lo, at) && AtMost(Plus(at, Size(TLeaf(l))), hi)
    ensures LeafHeld(m, s', o, l, at.b)
  {
  }

  /** What a rebuilt tree means depends only on the slots it was given. */
  lemma {:induction false} HoldsOnItsSlots(m: Memory, s: Slots, s': Slots, o: Obj<nat>, tree: Tree, at: Budget,
      lo: Budget, hi: Budget)
    requires Holds(m, s, o, tree, at) && Agree(s, s', lo, hi)
    requires AtMost(lo, at) && AtMost(Plus(at, Size(tree)), hi)
    ensures Holds(m, s', o, tree, at)
    decreases tree
  {
    match tree
    case TLeaf(l) => LeafOnItsSlots(m, s, s', o, l, at, lo, hi);
    case TNode(isMap, entries) =>
      NodeTakes(at, isMap, entries);
      TableOnItsSlot(s, s', o, isMap, |entries|, at, Sizes(entries), lo, hi);
      EntriesInRangeAreSame(s, s', isMap, s.tables[at.t].len, at.n, lo, hi);
      EntriesOnTheirSlots(m, s, s', isMap, s.tables[at.t].len, at.n, 0, entries, Opened(at, |entries|), lo, hi);
  }

  lemma TableOnItsSlot(s: Slots, s': Slots, o: Obj<nat>, isMap: bool, count: nat, at: Budget, inner: Budget,
      lo: Budget, hi: Budget)
    requires TableHeld(s, o, isMap, count, at) && Agree(s, s', lo, hi)
    requires AtMost(lo, at) && AtMost(Plus(Opened(at, count), inner), hi)
    ensures TableHeld(s', o, isMap, count, at) && s'.tables[at.t] == s.tables[at.t]
    ensures AtMost(lo, Opened(at, count)) && at.n + count <= hi.n
  {
  }

  /** Where the two halves of a pair go. */
  lemma {:induction false} PairSlots(len: nat, n: nat, i: nat)
    ensures SlotOf(true, len, n, 2 * i) == n + i && SlotOf(true, len, n, 2 * i + 1) == n + len + i
  {
    if i > 0 {
      PairSlots(len, n, i - 1);
    }
  }

  lemma PairSlotsAt(len: nat, n: nat, i: nat, j: nat)
    requires j == 2 * i
    ensures SlotOf(true, len, n, j) == n + i && SlotOf(true, len, n, j + 1) == n + len + i
  {
    PairSlots(len, n, i);
  }

  lemma SlotInRange(isMap: bool, len: nat, n: nat, j: nat)
    requires j < EntryCount(isMap, len)
    ensures n <= SlotOf(isMap, len, n, j) < n + EntryCount(isMap, len)
  {
    PairSlots(len, n, j / 2);
    assert j == 2 * (j / 2) || j == 2 * (j / 2) + 1;
  }

  lemma SlotsDiffer(isMap: bool, len: nat, n: nat, j: nat, k: nat)
    requires j < k < EntryCount(isMap, len)
    ensures SlotOf(isMap, len, n, j) != SlotOf(isMap, len, n, k)
  {
    PairSlots(len, n, j / 2);
    PairSlots(len, n, k / 2);
    assert j == 2 * (j / 2) || j == 2 * (j / 2) + 1;
    assert k == 2 * (k / 2) || k == 2 * (k / 2) + 1;
  }

  predicate YieldsAt(node: Node, isMap: bool, keys: nat -> Obj<uint32>, values: nat -> Obj<uint32>, i: nat) {
    if isMap then node.entry(2 * i) == keys(i) && node.entry(2 * i + 1) == values(i) else node.entry(i) == keys(i)
  }

  /** The node's entries are these keys or items, and for a map these values in turn. */
  ghost predicate Yields(node: Node, isMap: bool, len: nat, keys: nat -> Obj<uint32>, values: nat -> Obj<uint32>) {
    node.isMap == isMap && node.len == len && forall i: nat :: YieldsAt(node, isMap, keys, values, i)
  }

  lemma TableYields(m: Memory, o: Obj<uint32>)
    requires NodeOf(m, o).Some?
    ensures var src := m.table(Translate(m, o.t));
            Yields(NodeOf(m, o).value, o.Map?, src.len, i => ItemAt(m, src.a, i), i => ItemAt(m, src.b, i))
  {
    var src, node := m.table(Translate(m, o.t)), NodeOf(m, o).value;
    var keys: nat -> Obj<uint32>, values: nat -> Obj<uint32> := i => ItemAt(m, src.a, i), i => ItemAt(m, src.b, i);
    forall i: nat
      ensures YieldsAt(node, o.Map?, keys, values, i)
    {
      Halves(i);
      assert node.entry(2 * i) == Entry(m, src, o.Map?, 2 * i);
      assert node.entry(2 * i + 1) == Entry(m, src, o.Map?, 2 * i + 1);
    }
  }

  lemma Halves(i: nat)
    ensures 2 * i / 2 == i && 2 * i % 2 == 0 && (2 * i + 1) / 2 == i && (2 * i + 1) % 2 == 1
  {
  }

  lemma StoreAbove(before: Slots, middle: Slots, start: Budget, u: Budget, slot: nat, r: Obj<nat>)
    requires Agree(before, middle, ZERO, u) && AtMost(start, u) && start.n <= slot < |middle.items|
    ensures Agree(before, middle.(items := middle.items[slot := r]), ZERO, start)
  {
  }

  /** The slots of these entries themselves have the same contents. */
  predicate SameEntries(s: Slots, s': Slots, isMap: bool, len: nat, n: nat, j: nat, count: nat) {
    |s'.items| == |s.items|
    && forall k | j <= k < j + count ::
         var slot := SlotOf(isMap, len, n, k); slot < |s.items| ==> s'.items[slot] == s.items[slot]
  }

  lemma EntriesInRangeAreSame(s: Slots, s': Slots, isMap: bool, len: nat, n: nat, lo: Budget, hi: Budget)
    requires Agree(s, s', lo, hi) && lo.n <= n && n + EntryCount(isMap, len) <= hi.n
    ensures SameEntries(s, s', isMap, len, n, 0, EntryCount(isMap, len))
  {
    forall k | 0 <= k < EntryCount(isMap, len)
      ensures var slot := SlotOf(isMap, len, n, k); slot < |s.items| ==> s'.items[slot] == s.items[slot]
    {
      SlotInRange(isMap, len, n, k);
    }
  }

  lemma RoomForBoth(lo: Budget, at: Budget, x: Budget, y: Budget, hi: Budget)
    requires AtMost(lo, at) && AtMost(Plus(at, Plus(x, y)), hi)
    ensures AtMost(lo, Plus(at, x)) && AtMost(Plus(at, x), hi) && AtMost(Plus(Plus(at, x), y), hi)
  {
  }

  lemma {:induction false} EntriesOnTheirSlots(m: Memory, s: Slots, s': Slots, isMap: bool, len: nat, n: nat, j: nat,
      trees: seq<Tree>, at: Budget, lo: Budget, hi: Budget)
    requires EntriesHeld(m, s, isMap, len, n, j, trees, at) && Agree(s, s', lo, hi)
    requires AtMost(lo, at) && AtMost(Plus(at, Sizes(trees)), hi)
    requires SameEntries(s, s', isMap, len, n, j, |trees|)
    ensures EntriesHeld(m, s', isMap, len, n, j, trees, at)
    decreases trees
  {
    if trees != [] {
      var next := Plus(at, Size(trees[0]));
      RoomForBoth(lo, at, Size(trees[0]), Sizes(trees[1..]), hi);
      HoldsOnItsSlots(m, s, s', s.items[SlotOf(isMap, len, n, j)], trees[0], at, lo, hi);
      EntriesOnTheirSlots(m, s, s', isMap, len, n, j + 1, trees[1..], next, lo, hi);
    }
  }

  lemma {:induction false} SizesAppend(trees: seq<Tree>, tree: Tree)
    ensures Sizes(trees + [tree]) == Plus(Sizes(trees), Size(tree))
    decreases |trees|
  {
    if trees == [] {
      assert trees + [tree] == [tree] && [tree][1..] == [];
    } else {
      assert (trees + [tree])[1..] == trees[1..] + [tree];
      SizesAppend(trees[1..], tree);
      PlusAssociates(Size(trees[0]), Sizes(trees[1..]), Size(tree));
    }
  }

  lemma {:induction false} EntriesHeldAppend(m: Memory, s: Slots, isMap: bool, len: nat, n: nat, j: nat,
      trees: seq<Tree>, tree: Tree, at: Budget, end: Budget, slot: nat)
    requires EntriesHeld(m, s, isMap, len, n, j, trees, at)
    requires slot == SlotOf(isMap, len, n, j + |trees|) && end == Plus(at, Sizes(trees))
    requires slot < |s.items| && Holds(m, s, s.items[slot], tree, end)
    ensures EntriesHeld(m, s, isMap, len, n, j, trees + [tree], at)
    decreases |trees|
  {
    if trees == [] {
      SizesOfNothing(at);
      assert end == at;
      assert trees + [tree] == [tree] && [tree][1..] == [];
      EntriesHeldCons(m, s, isMap, len, n, j, [tree], at, Plus(at, Size(tree)));
    } else {
      var next := Plus(at, Size(trees[0]));
      PlusAssociates(at, Size(trees[0]), Sizes(trees[1..]));
      EntriesHeldAppend(m, s, isMap, len, n, j + 1, trees[1..], tree, next, end, slot);
      assert (trees + [tree])[1..] == trees[1..] + [tree];
      EntriesHeldCons(m, s, isMap, len, n, j, trees + [tree], at, next);
    }
  }

  lemma EntriesHeldCons(m: Memory, s: Slots, isMap: bool, len: nat, n: nat, j: nat, trees: seq<Tree>, at: Budget,
      next: Budget)
    requires trees != [] && SlotOf(isMap, len, n, j) < |s.items|
    requires Holds(m, s, s.items[SlotOf(isMap, len, n, j)], trees[0], at)
    requires next == Plus(at, Size(trees[0])) && EntriesHeld(m, s, isMap, len, n, j + 1, trees[1..], next)
    ensures EntriesHeld(m, s, isMap, len, n, j, trees, at)
  {
  }

  lemma PrependNothing(row: Row)
    ensures Prepend([], row) == row
  {
  }

  lemma AgreeThrough(x: Slots, y: Slots, z: Slots, hi: Budget)
    requires Agree(x, y, ZERO, hi) && Agree(y, z, ZERO, hi)
    ensures Agree(x, z, ZERO, hi)
  {
  }

  lemma SizesOfNothing(u: Budget)
    ensures Plus(u, Sizes([])) == u
  {
  }

  lemma SmallNeedIsExact(isMap: bool, len: uint32)
    requires EntryCount(isMap, len) <= MAX_ITEMS
    ensures Wrap32(len * (if isMap then 2 else 1)) == EntryCount(isMap, len)
  {
  }

  lemma ResolvedNode(g: Graph, o: Obj<uint32>, u: Budget, node: Node)
    requires Fits(u) && g.node(o) == Some(node)
    ensures var need := EntryCount(node.isMap, node.len);
            Resolved(g, o, u) ==
            if u.t >= MAX_TABLES || !node.passes(u.n) then OutOfScratch
            else if u.n + need > MAX_ITEMS then Overrun
            else
              var row := ResolvedFrom(g, node, 0, need, Opened(u, need));
              if row.Row? then Done(TNode(node.isMap, row.trees), row.rowUsed)
              else if row.RowOutOfScratch? then OutOfScratch else Overrun
  {
  }

  // ----- the code

  /** The filling of one table: the graph, its node, the counters before it was claimed, and what comes of it. */
  datatype Job = Job(g: Graph, node: Node, start: Budget, row: Row) {
    function Need(): nat { EntryCount(node.isMap, node.len) }
    function Inner(): Budget { Opened(start, Need()) }
    function Slot(j: nat): nat { SlotOf(node.isMap, node.len, start.n, j) }

    /** The table itself has been claimed and set up. */
    predicate Claimed(s: Slots) {
      && start.t < |s.tables| && start.n + Need() <= |s.items|
      && s.tables[start.t] == Table(node.len, start.n, if node.isMap then Some(start.n + node.len) else None)
    }
  }

  /** `done` are the trees of the first entries, rebuilt into their slots; `u` is in use. */
  ghost predicate FilledIn(m: Memory, job: Job, done: seq<Tree>, s: Slots, u: Budget) {
    && Fits(job.Inner()) && Fits(u) && |done| <= job.Need() && job.Claimed(s)
    && u == Plus(job.Inner(), Sizes(done))
    && EntriesHeld(m, s, job.node.isMap, job.node.len, job.start.n, 0, done, job.Inner())
    && job.row == Prepend(done, ResolvedFrom(job.g, job.node, |done|, job.Need(), u))
  }

  /** A table just claimed has no entry filled. */
  lemma NothingFilled(m: Memory, job: Job, s: Slots)
    requires Fits(job.Inner()) && job.Claimed(s)
    requires job.row == ResolvedFrom(job.g, job.node, 0, job.Need(), job.Inner())
    ensures FilledIn(m, job, [], s, job.Inner())
  {
    PrependNothing(job.row);
    SizesOfNothing(job.Inner());
  }

  /** One more entry is resolved and stored in its slot. */
  lemma OneMoreFilled(m: Memory, job: Job, done: seq<Tree>, before: Slots, u: Budget, middle: Slots, r: Obj<nat>,
      tree: Tree, v: Budget)
    requires FilledIn(m, job, done, before, u) && |done| < job.Need() && job.Slot(|done|) < |middle.items|
    requires Agree(before, middle, ZERO, u) && Holds(m, middle, r, tree, u)
    requires Resolved(job.g, job.node.entry(|done|), u) == Done(tree, v) && v == Plus(u, Size(tree))
    ensures FilledIn(m, job, done + [tree], middle.(items := middle.items[job.Slot(|done|) := r]), v)
  {
    StoredEntryHolds(m, before, middle, job.node, job.start.n, job.Inner(), done, tree, job.Slot(|done|), r);
    OneMoreInRow(job, done, u, tree, v);
  }

  lemma OneMoreInRow(job: Job, done: seq<Tree>, u: Budget, tree: Tree, v: Budget)
    requires Fits(u) && |done| < job.Need() && Resolved(job.g, job.node.entry(|done|), u) == Done(tree, v)
    requires job.row == Prepend(done, ResolvedFrom(job.g, job.node, |done|, job.Need(), u))
    ensures job.row == Prepend(done + [tree], ResolvedFrom(job.g, job.node, |done| + 1, job.Need(), v))
  {
    PrependTwice(done, [tree], ResolvedFrom(job.g, job.node, |done| + 1, job.Need(), v));
  }

  lemma PrependTwice(x: seq<Tree>, y: seq<Tree>, r: Row)
    ensures Prepend(x, Prepend(y, r)) == Prepend(x + y, r)
  {
    assert r.Row? ==> x + (y + r.trees) == x + y + r.trees;
  }

  /** What the next entry may come to, given that the whole table does not overrun. */
  lemma NextEntry(m: Memory, job: Job, done: seq<Tree>, s: Slots, u: Budget)
    requires FilledIn(m, job, done, s, u) && |done| < job.Need() && job.row != RowOverrun
    ensures var r := Resolved(job.g, job.node.entry(|done|), u);
            r != Overrun && (r == OutOfScratch ==> job.row == RowOutOfScratch)
    ensures AtMost(job.start, u) && job.start.n <= job.Slot(|done|) < MAX_ITEMS
  {
    SlotInRange(job.node.isMap, job.node.len, job.start.n, |done|);
  }

  /** With all entries filled the object that points to the table is the whole tree. */
  lemma AllFilled(m: Memory, job: Job, entries: seq<Tree>, s: Slots, u: Budget, o: Obj<nat>)
    requires FilledIn(m, job, entries, s, u) && |entries| == job.Need()
    requires o == (if job.node.isMap then Map(job.start.t) else List(job.start.t))
    ensures job.row == Row(entries, u) && Holds(m, s, o, TNode(job.node.isMap, entries), job.start)
  {
    PrependToNothing(entries, u);
    NodeHolds(m, s, o, job.node.isMap, job.node.len, entries, job.start);
  }

  lemma PrependToNothing(done: seq<Tree>, u: Budget)
    ensures Prepend(done, Row([], u)) == Row(done, u)
  {
    assert done + [] == done;
  }

  lemma NodeHolds(m: Memory, s: Slots, o: Obj<nat>, isMap: bool, len: nat, entries: seq<Tree>, at: Budget)
    requires at.t < |s.tables| && s.tables[at.t] == Table(len, at.n, if isMap then Some(at.n + len) else None)
    requires o == (if isMap then Map(at.t) else List(at.t))
    requires |entries| == EntryCount(isMap, len) && at.n + |entries| <= |s.items|
    requires EntriesHeld(m, s, isMap, len, at.n, 0, entries, Opened(at, |entries|))
    ensures Holds(m, s, o, TNode(isMap, entries), at)
  {
  }

  /** The scratch part of a z_msg_t with its three counters. */
  class Scratch {
    const tables: array<Table>
    const items: array<Obj<nat>>
    const blobs: array<BlobHeader>
    var tcount: nat
    var icount: nat
    var bcount: nat

    ghost predicate Valid()
      reads this
    {
      tables.Length == MAX_TABLES && items.Length == MAX_ITEMS && blobs.Length == MAX_BLOBS && Fits(Used())
    }

    ghost function Used(): Budget
      reads this
    {
      Budget(tcount, icount, bcount)
    }

    ghost function View(): Slots
      reads this, tables, items, blobs
    {
      Slots(tables[..], items[..], blobs[..])
    }

    constructor ()
      ensures Valid() && Used() == ZERO && fresh(tables) && fresh(items) && fresh(blobs)
    {
      tables := new Table[MAX_TABLES](_ => Table(0, 0, None));
      items := new Obj<nat>[MAX_ITEMS](_ => Nothing);
      blobs := new BlobHeader[MAX_BLOBS](_ => BlobHeader(0, 0));
      tcount, icount, bcount := 0, 0, 0;
    }

    /** z_resolve_obj: `ok` is Z_OK; a refused object becomes Z_NONE. */
    method ResolveObj(m: Memory, o: Obj<uint32>, ghost g: Graph) returns (r: Obj<nat>, ok: bool)
      requires Depicts(g, m) && Valid()
      requires Resolved(g, o, Used()) != Overrun
      modifies this, tables, items, blobs
      ensures Valid() && AtMost(old(Used()), Used()) && Agree(old(View()), View(), ZERO, old(Used()))
      ensures ok <==> Resolved(g, o, old(Used())).Done?
      ensures ok ==> var d := Resolved(g, o, old(Used()));
                     Used() == d.used && Holds(m, View(), r, d.tree, old(Used()))
      ensures !ok ==> r == Nothing
      decreases MAX_TABLES - tcount, 2
    {
      ok := true;
      assert g.node(o) == NodeOf(m, o) && g.leaf(o) == LeafOf(m, o);
      match o {
        case Nothing => r := Nothing;
        case RetVal(c) => r := RetVal(c);
        case UInt(u) => r := UInt(u);
        case Int(i) => r := Int(i);
        case Float32(f) => r := Float32(f);
        case Str(p) => r := Str(Translate(m, p));
        case Blob(p) => r, ok := ResolveBlob(m, o, g);
        case List(p) => r, ok := ResolveTable(m, o, g);
        case Map(p) => r, ok := ResolveTable(m, o, g);
        case Unknown(_) => r := Nothing;
      }
    }

    method ResolveBlob(m: Memory, o: Obj<uint32>, ghost g: Graph) returns (r: Obj<nat>, ok: bool)
      requires Depicts(g, m) && Valid() && o.Blob?
      modifies this, blobs
      ensures Valid() && AtMost(old(Used()), Used()) && Agree(old(View()), View(), ZERO, old(Used()))
      ensures ok <==> Resolved(g, o, old(Used())).Done?
      ensures ok ==> var d := Resolved(g, o, old(Used()));
                     Used() == d.used && Holds(m, View(), r, d.tree, old(Used()))
      ensures !ok ==> r == Nothing
    {
      assert g.node(o) == NodeOf(m, o) && g.leaf(o) == LeafOf(m, o);
      var src := Translate(m, o.b);
      if src == 0 {
        return Nothing, true;
      }
      if bcount >= MAX_BLOBS {
        return Nothing, false;
      }
      blobs[bcount] := BlobHeader(m.blob(src).len, Translate(m, m.blob(src).data));
      r := Blob(bcount);
      bcount := bcount + 1;
      ok := true;
    }

    method ResolveTable(m: Memory, o: Obj<uint32>, ghost g: Graph) returns (r: Obj<nat>, ok: bool)
      requires Depicts(g, m) && Valid() && (o.List? || o.Map?)
      requires Resolved(g, o, Used()) != Overrun
      modifies this, tables, items, blobs
      ensures Valid() && AtMost(old(Used()), Used()) && Agree(old(View()), View(), ZERO, old(Used()))
      ensures ok <==> Resolved(g, o, old(Used())).Done?
      ensures ok ==> var d := Resolved(g, o, old(Used()));
                     Used() == d.used && Holds(m, View(), r, d.tree, old(Used()))
      ensures !ok ==> r == Nothing
      decreases MAX_TABLES - tcount, 1
    {
      assert g.node(o) == NodeOf(m, o) && g.leaf(o) == LeafOf(m, o);
      var p := Translate(m, o.t);
      if p == 0 {
        return Nothing, true;
      }
      ghost var node := NodeOf(m, o).value;
      ResolvedNode(g, o, Used(), node);
      TableYields(m, o);
      var src := m.table(p);
      var need, room := HasRoom(m, o, src.len, node);
      if !room {
        return Nothing, false;
      }
      r, ok := ClaimAndFill(m, o.Map?, src.len, i => ItemAt(m, src.a, i), i => ItemAt(m, src.b, i), need, g, node);
    }

    /** The 32-bit budget test: is there a table left, and are the items it needs? */
    method HasRoom(m: Memory, o: Obj<uint32>, len: uint32, ghost node: Node) returns (need: uint32, room: bool)
      requires NodeOf(m, o) == Some(node) && node.len == len
      ensures room <==> tcount < MAX_TABLES && node.passes(icount)
      ensures EntryCount(node.isMap, len) <= MAX_ITEMS ==> need == EntryCount(node.isMap, len)
    {
      need := Wrap32(len * (if o.Map? then 2 else 1));
      room := tcount < MAX_TABLES && Wrap32(icount + need) <= MAX_ITEMS;
      if EntryCount(node.isMap, len) <= MAX_ITEMS {
        SmallNeedIsExact(node.isMap, len);
      }
    }

    /** Claims a table and its items, then fills them; `keys` and `values` read the sender's two arrays. */
    method ClaimAndFill(m: Memory, isMap: bool, len: uint32, keys: nat -> Obj<uint32>, values: nat -> Obj<uint32>,
        need: nat, ghost g: Graph, ghost node: Node) returns (r: Obj<nat>, ok: bool)
      requires Depicts(g, m) && Valid() && need == EntryCount(isMap, len) && Fits(Opened(Used(), need))
      requires Yields(node, isMap, len, keys, values)
      requires ResolvedFrom(g, node, 0, need, Opened(Used(), need)) != RowOverrun
      modifies this, tables, items, blobs
      ensures Valid() && AtMost(old(Used()), Used()) && Agree(old(View()), View(), ZERO, old(Used()))
      ensures var row := ResolvedFrom(g, node, 0, need, Opened(old(Used()), need));
              && (ok <==> row.Row?)
              && (ok ==> Used() == row.rowUsed && Holds(m, View(), r, TNode(isMap, row.trees), old(Used())))
      ensures !ok ==> r == Nothing
      decreases MAX_TABLES - tcount, 0
    {
      ghost var start, before := Used(), View();
      ghost var job := Job(g, node, start, ResolvedFrom(g, node, 0, need, Opened(start, need)));
      var dst, base := tcount, icount;
      ClaimTable(len, isMap, need);
      ghost var claimed := View();
      NothingFilled(m, job, claimed);
      r := if isMap then Map(dst) else List(dst);
      ok := FillTable(m, isMap, len, keys, values, base, r, job);
      if !ok {
        r := Nothing;
      }
      AgreeThrough(before, claimed, View(), start);
    }

    method ClaimTable(len: uint32, isMap: bool, need: nat)
      requires Valid() && Fits(Opened(Used(), need))
      modifies `tcount, `icount, tables
      ensures Valid() && Used() == Opened(old(Used()), need) && Agree(old(View()), View(), ZERO, old(Used()))
      ensures tables[old(tcount)] == Table(len, old(icount), if isMap then Some(old(icount) + len) else None)
    {
      tables[tcount] := Table(len, icount, if isMap then Some(icount + len) else None);
      tcount := tcount + 1;
      icount := icount + need;
    }

    ghost predicate Filled(m: Memory, job: Job, done: seq<Tree>)
      reads this, tables, items, blobs
    {
      Valid() && FilledIn(m, job, done, View(), Used())
    }

    /** The loop over the entries of table `o`: item by item, or key and value in turn. */
    method FillTable(m: Memory, isMap: bool, len: uint32, keys: nat -> Obj<uint32>, values: nat -> Obj<uint32>,
        base: nat, ghost o: Obj<nat>, ghost job: Job) returns (ok: bool)
      requires Depicts(job.g, m) && Filled(m, job, []) && job.start.n == base && job.row != RowOverrun
      requires Yields(job.node, isMap, len, keys, values)
      requires o == (if isMap then Map(job.start.t) else List(job.start.t))
      modifies this, tables, items, blobs
      ensures Valid() && AtMost(old(Used()), Used()) && Agree(old(View()), View(), ZERO, job.start)
      ensures ok <==> job.row.Row?
      ensures ok ==> Used() == job.row.rowUsed && Holds(m, View(), o, TNode(isMap, job.row.trees), job.start)
      decreases MAX_TABLES - tcount, 5
    {
      ghost var done: seq<Tree> := [];
      for i := 0 to len
        invariant Filled(m, job, done) && |done| == EntryCount(isMap, i)
        invariant AtMost(old(Used()), Used()) && Agree(old(View()), View(), ZERO, job.start)
      {
        assert YieldsAt(job.node, isMap, keys, values, i);
        if isMap {
          ok, done := FillPair(m, keys(i), values(i), base, i, len, job, done);
        } else {
          ok, done := FillSlot(m, keys(i), base + i, job, done);
        }
        if !ok { return; }
      }
      ok := true;
      AllFilled(m, job, done, View(), Used(), o);
    }

    /** A key and its value. */
    method FillPair(m: Memory, key: Obj<uint32>, value: Obj<uint32>, base: nat, i: nat, len: uint32, ghost job: Job,
        ghost done: seq<Tree>) returns (ok: bool, ghost next: seq<Tree>)
      requires Depicts(job.g, m) && Filled(m, job, done) && job.row != RowOverrun
      requires job.start.n == base && i < len && |done| == 2 * i && job.node.isMap && job.node.len == len
      requires job.node.entry(2 * i) == key && job.node.entry(2 * i + 1) == value
      modifies this, tables, items, blobs
      ensures Valid() && AtMost(old(Used()), Used()) && Agree(old(View()), View(), ZERO, job.start)
      ensures if ok then Filled(m, job, next) && |next| == |done| + 2 else job.row == RowOutOfScratch
      decreases MAX_TABLES - tcount, 4
    {
      PairSlotsAt(len, base, i, |done|);
      ghost var before := View();
      ok, next := FillSlot(m, key, base + i, job, done);
      ghost var middle := View();
      if ok {
        ok, next := FillSlot(m, value, base + len + i, job, next);
        AgreeThrough(before, middle, View(), job.start);
      }
    }

    /** One entry: resolved and stored in its slot. */
    method FillSlot(m: Memory, raw: Obj<uint32>, slot: nat, ghost job: Job, ghost done: seq<Tree>)
        returns (ok: bool, ghost next: seq<Tree>)
      requires Depicts(job.g, m) && Filled(m, job, done) && |done| < job.Need() && job.row != RowOverrun
      requires raw == job.node.entry(|done|) && slot == job.Slot(|done|)
      modifies this, tables, items, blobs
      ensures Valid() && AtMost(old(Used()), Used()) && Agree(old(View()), View(), ZERO, job.start)
      ensures if ok then Filled(m, job, next) && |next| == |done| + 1 else job.row == RowOutOfScratch
      decreases MAX_TABLES - tcount, 3, 1
    {
      ghost var before, u := View(), Used();
      NextEntry(m, job, done, before, u);
      ghost var r, middle, tree;
      ok, r, middle, tree := ResolveInto(m, raw, slot, job.g, job.start);
      next := done;
      if ok {
        next := done + [tree];
        OneMoreFilled(m, job, done, before, u, middle, r, tree, Used());
      }
    }

    /** Resolves an entry and stores it; `middle` is the scratch area in between. */
    method ResolveInto(m: Memory, raw: Obj<uint32>, slot: nat, ghost g: Graph, ghost start: Budget)
        returns (ok: bool, ghost r: Obj<nat>, ghost middle: Slots, ghost tree: Tree)
      requires Depicts(g, m) && Valid() && Resolved(g, raw, Used()) != Overrun
      requires AtMost(start, Used()) && start.n <= slot < MAX_ITEMS
      modifies this, tables, items, blobs
      ensures Valid() && AtMost(old(Used()), Used()) && slot < |middle.items|
      ensures View() == middle.(items := middle.items[slot := r])
      ensures Agree(old(View()), middle, ZERO, old(Used())) && Agree(old(View()), View(), ZERO, start)
      ensures Resolved(g, raw, old(Used())) == if ok then Done(tree, Used()) else OutOfScratch
      ensures ok ==> Used() == Plus(old(Used()), Size(tree)) && Holds(m, middle, r, tree, old(Used()))
      decreases MAX_TABLES - tcount, 3, 0
    {
      ghost var before, u := View(), Used();
      var obj;
      obj, ok := ResolveObj(m, raw, g);
      r, middle := obj, View();
      tree := TLeaf(LNothing);
      if ok {
        tree := Resolved(g, raw, u).tree;
        ResolvedDenotes(g, raw, u);
      }
      StoreAbove(before, middle, start, u, slot, obj);
      StoreItem(slot, obj);
    }

    method StoreItem(slot: nat, r: Obj<nat>)
      requires slot < items.Length
      modifies items
      ensures View() == old(View()).(items := old(View()).items[slot := r])
    {
      items[slot] := r;
    }
  }

  /** Resolving one more entry leaves the earlier ones as they were. */
  lemma EarlierEntriesKept(m: Memory, before: Slots, middle: Slots, node: Node, n: nat, inner: Budget, done: seq<Tree>)
    requires |done| <= EntryCount(node.isMap, node.len) && n + EntryCount(node.isMap, node.len) == inner.n
    requires EntriesHeld(m, before, node.isMap, node.len, n, 0, done, inner)
    requires Agree(before, middle, ZERO, Plus(inner, Sizes(done)))
    ensures EntriesHeld(m, middle, node.isMap, node.len, n, 0, done, inner)
  {
    var u := Plus(inner, Sizes(done));
    EntriesInRangeAreSame(before, middle, node.isMap, node.len, n, ZERO, u);
    EntriesOnTheirSlots(m, before, middle, node.isMap, node.len, n, 0, done, inner, ZERO, u);
  }

  /** Storing an entry in its own slot leaves the earlier ones as they were. */
  lemma StoreKeepsEarlier(m: Memory, s: Slots, node: Node, n: nat, inner: Budget, done: seq<Tree>, slot: nat,
      r: Obj<nat>)
    requires |done| < EntryCount(node.isMap, node.len) && n + EntryCount(node.isMap, node.len) == inner.n
    requires slot == SlotOf(node.isMap, node.len, n, |done|) && slot < |s.items|
    requires EntriesHeld(m, s, node.isMap, node.len, n, 0, done, inner)
    ensures EntriesHeld(m, s.(items := s.items[slot := r]), node.isMap, node.len, n, 0, done, inner)
  {
    var after := s.(items := s.items[slot := r]);
    SlotInRange(node.isMap, node.len, n, |done|);
    forall k | 0 <= k < |done|
      ensures var other := SlotOf(node.isMap, node.len, n, k);
              other < |s.items| ==> after.items[other] == s.items[other]
    {
      SlotsDiffer(node.isMap, node.len, n, k, |done|);
    }
    EntriesOnTheirSlots(m, s, after, node.isMap, node.len, n, 0, done, inner, inner, Plus(inner, Sizes(done)));
  }

  /** So after both, one more entry is held. */
  lemma StoredEntryHolds(m: Memory, before: Slots, middle: Slots, node: Node, n: nat, inner: Budget,
      done: seq<Tree>, tree: Tree, slot: nat, r: Obj<nat>)
    requires |done| < EntryCount(node.isMap, node.len) && n + EntryCount(node.isMap, node.len) == inner.n
    requires slot == SlotOf(node.isMap, node.len, n, |done|) && slot < |middle.items|
    requires EntriesHeld(m, before, node.isMap, node.len, n, 0, done, inner)
    requires Agree(before, middle, ZERO, Plus(inner, Sizes(done)))
        && Holds(m, middle, r, tree, Plus(inner, Sizes(done)))
    ensures EntriesHeld(m, middle.(items := middle.items[slot := r]), node.isMap, node.len, n, 0, done + [tree], inner)
    ensures Plus(inner, Sizes(done + [tree])) == Plus(Plus(inner, Sizes(done)), Size(tree))
  {
    var u := Plus(inner, Sizes(done));
    var after := middle.(items := middle.items[slot := r]);
    EarlierEntriesKept(m, before, middle, node, n, inner, done);
    StoreKeepsEarlier(m, middle, node, n, inner, done, slot, r);
    SlotInRange(node.isMap, node.len, n, |done|);
    HoldsOnItsSlots(m, middle, after, r, tree, u, u, Plus(u, Size(tree)));
    EntriesHeldAppend(m, after, node.isMap, node.len, n, 0, done, tree, inner, u, slot);
    SizesAppend(done, tree);
    PlusAssociates(inner, Sizes(done), Size(tree));
  }
}
