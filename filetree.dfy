/**
 * The node model of NanoEditor: directories and files held in a heap of
 * nodes, the permission modes of a file, the path of a directory and the
 * invariants that keep the tree consistent.
 *
 * A C# reference to a `TreeNode` is a `NodeId` into the heap. A node is
 * never moved: `mkdir` and `touch` allocate a fresh id, larger than every
 * id in use, so a directory's parent always has a smaller id than the
 * directory itself. That order is the termination measure of the walk up
 * the parent chain, and it makes the tree acyclic.
 */
module FileTree {
  import opened Dictionary

  type NodeId = nat

  /** The root, `new Directory("/", null)`, the first node allocated. */
  const Root: NodeId := 0

  /** The permission modes of a file, in declaration order. */
  datatype Mods = No | Readonly | Writeable | ReadWrite

  /**
   * A `TreeNode`; `IsDirectory` is `Directory?`. A directory holds its
   * children table and its `ParentElement` (`None` for null); a file holds
   * its `Content` (`None` for null) and its two permission flags.
   */
  datatype Node =
    | Directory(name: string, children: Dict<NodeId>, parent: Option<NodeId>)
    | File(name: string, content: Option<string>, readable: bool, writeable: bool)

  type Heap = map<NodeId, Node>

  /**
   * The `(Readable, Writeable)` flags that `ChangeMod` sets for a mode.
   * As written, `ReadWrite` sets the same flags as `Readonly`, so a file is
   * writeable only in mode `Writeable`.
   */
  function ModeFlags(m: Mods): (flags: (bool, bool))
    ensures flags.0 <==> m == Readonly || m == ReadWrite
    ensures flags.1 <==> m == Writeable
  {
    match m
    case No => (false, false)
    case Readonly => (true, false)
    case Writeable => (false, true)
    case ReadWrite => (true, false)
  }

  /** As written, mode `ReadWrite` leaves the file read-only. */
  lemma ReadWriteActsAsReadonly()
    ensures ModeFlags(ReadWrite) == ModeFlags(Readonly) == (true, false)
  {
  }

  /** Every parent link points to an older directory of the heap. */
  predicate ParentsOk(h: Heap)
  {
    forall d :: d in h && h[d].Directory? && h[d].parent.Some? ==>
      var p := h[d].parent.value;
      p < d && p in h && h[p].Directory?
  }

  /**
   * The children table of directory `d` has unique keys, each key is the
   * `Name` of the node it holds, and each child directory's parent is `d`.
   */
  predicate EntriesOk(h: Heap, d: NodeId)
    requires d in h && h[d].Directory?
  {
    && UniqueKeys(h[d].children)
    && forall e :: e in h[d].children ==>
         && e.value in h
         && h[e.value].name == e.key
         && (h[e.value].Directory? ==> h[e.value].parent == Some(d))
  }

  /** The invariant of the tree. */
  predicate WellFormed(h: Heap)
  {
    && Root in h && h[Root].Directory? && h[Root].name == "/" && h[Root].parent == None
    && ParentsOk(h)
    && (forall d :: d in h && h[d].Directory? && h[d].parent.None? ==> d == Root)
    && (forall d :: d in h && h[d].Directory? ==> EntriesOk(h, d))
  }

  /** Every id in use is below the next id to allocate. */
  predicate Fresh(h: Heap, next: NodeId)
  {
    forall d :: d in h ==> d < next
  }

  /**
   * The full path of directory `d`, as `Pwd` builds it: the root (the
   * directory without a parent) is "/", any other directory is its
   * parent's path followed by its own name and "/".
   */
  function Path(h: Heap, d: NodeId): (p: string)
    requires ParentsOk(h) && d in h && h[d].Directory?
    ensures |p| > 0 && p[0] == '/' && p[|p| - 1] == '/'
    ensures p == "/" <==> h[d].parent.None?
    decreases d
  {
    match h[d].parent
    case None => "/"
    case Some(q) => Path(h, q) + h[d].name + "/"
  }

  /** Directory `d` is reachable from the root: every directory on its parent chain is held by its parent. */
  predicate Attached(h: Heap, d: NodeId)
    requires ParentsOk(h) && d in h && h[d].Directory?
    decreases d
  {
    match h[d].parent
    case None => d == Root
    case Some(q) => d in Values(h[q].children) && Attached(h, q)
  }

  /**
   * `ChildrenTreeNodes[n.name] = n` on directory `cur`, where `n` is stored
   * under the fresh id `id`: the entry `n.name` now holds `id`, the other
   * entries keep their values and their order, and no other node changes.
   */
  function AddChild(h: Heap, cur: NodeId, id: NodeId, n: Node): (h': Heap)
    requires cur in h && h[cur].Directory? && id !in h
    ensures h'.Keys == h.Keys + {id} && h'[id] == n
    ensures h'[cur].Directory? && h'[cur].name == h[cur].name && h'[cur].parent == h[cur].parent
    ensures Get(h'[cur].children, n.name) == Some(id)
    ensures forall k :: k != n.name ==> Get(h'[cur].children, k) == Get(h[cur].children, k)
    ensures Keys(h'[cur].children) ==
      if n.name in Keys(h[cur].children) then Keys(h[cur].children) else Keys(h[cur].children) + [n.name]
    ensures forall x :: x in h && x != cur ==> h'[x] == h[x]
  {
    h[id := n][cur := h[cur].(children := Set(h[cur].children, n.name, id))]
  }

  /** `h'` keeps the kind, the name and the parent of every node of `h`. */
  predicate Agree(h: Heap, h': Heap)
  {
    forall x :: x in h ==>
      && x in h'
      && h'[x].Directory? == h[x].Directory?
      && h'[x].name == h[x].name
      && (h[x].Directory? ==> h'[x].parent == h[x].parent)
  }

  /** The path of a directory depends only on the names and parents along its chain. */
  lemma {:induction false} PathFrame(h: Heap, h': Heap, d: NodeId)
    requires ParentsOk(h) && ParentsOk(h') && Agree(h, h')
    requires d in h && h[d].Directory?
    ensures Path(h', d) == Path(h, d)
    decreases d
  {
    match h[d].parent
    case None =>
    case Some(q) => PathFrame(h, h', q);
  }

  /** A directory stays reachable if its own parent link and every older directory stay as they are. */
  lemma {:induction false} AttachedFrame(h: Heap, h': Heap, d: NodeId)
    requires ParentsOk(h) && ParentsOk(h')
    requires d in h && h[d].Directory? && Attached(h, d)
    requires d in h' && h'[d].Directory? && h'[d].parent == h[d].parent
    requires forall x :: x in h && x < d && h[x].Directory? ==> x in h' && h'[x] == h[x]
    ensures Attached(h', d)
    decreases d
  {
    match h[d].parent
    case None =>
    case Some(q) => AttachedFrame(h, h', q);
  }

  /**
   * Adding a fresh node to a directory keeps the tree well formed, keeps
   * the kind, name and parent of every existing node (so every path), and
   * keeps that directory reachable from the root.
   */
  lemma AddChildPreservesWellFormed(h: Heap, cur: NodeId, id: NodeId, n: Node)
    requires WellFormed(h) && cur in h && h[cur].Directory? && Fresh(h, id)
    requires n.Directory? ==> n.children == [] && n.parent == Some(cur)
    ensures WellFormed(AddChild(h, cur, id, n))
    ensures Agree(h, AddChild(h, cur, id, n))
    ensures Attached(h, cur) ==> Attached(AddChild(h, cur, id, n), cur)
  {
    var h' := AddChild(h, cur, id, n);
    AddChildAgrees(h, cur, id, n);
    forall d | d in h' && h'[d].Directory? ensures EntriesOk(h', d) {
      AddChildKeepsEntries(h, cur, id, n, d);
    }
    if Attached(h, cur) {
      AttachedFrame(h, h', cur);
    }
  }

  /** Adding a fresh node changes no existing node's kind, name or parent. */
  lemma AddChildAgrees(h: Heap, cur: NodeId, id: NodeId, n: Node)
    requires WellFormed(h) && cur in h && h[cur].Directory? && Fresh(h, id)
    requires n.Directory? ==> n.parent == Some(cur)
    ensures Agree(h, AddChild(h, cur, id, n)) && ParentsOk(AddChild(h, cur, id, n))
  {
  }

  /** Adding a fresh node keeps the children table of every directory consistent. */
  lemma AddChildKeepsEntries(h: Heap, cur: NodeId, id: NodeId, n: Node, d: NodeId)
    requires WellFormed(h) && cur in h && h[cur].Directory? && Fresh(h, id)
    requires n.Directory? ==> n.children == [] && n.parent == Some(cur)
    requires Agree(h, AddChild(h, cur, id, n))
    requires d in AddChild(h, cur, id, n) && AddChild(h, cur, id, n)[d].Directory?
    ensures EntriesOk(AddChild(h, cur, id, n), d)
  {
    var h' := AddChild(h, cur, id, n);
    if d == cur {
      assert EntriesOk(h, cur);
      forall e | e in h'[cur].children
        ensures e.value in h' && h'[e.value].name == e.key
        ensures h'[e.value].Directory? ==> h'[e.value].parent == Some(cur)
      {
        if e != Entry(n.name, id) {
          assert e in h[cur].children;
        }
      }
    } else if d != id {
      assert EntriesOk(h, d);
    }
  }

  /**
   * Setting the permission flags of a file changes no directory: the tree
   * stays well formed and every directory keeps its path and stays
   * reachable.
   */
  lemma SetFlagsPreservesWellFormed(h: Heap, f: NodeId, readable: bool, writeable: bool, d: NodeId)
    requires WellFormed(h) && f in h && h[f].File?
    requires d in h && h[d].Directory? && Attached(h, d)
    ensures var h' := h[f := h[f].(readable := readable, writeable := writeable)];
      && WellFormed(h')
      && Attached(h', d)
      && Path(h', d) == Path(h, d)
  {
    var h' := h[f := h[f].(readable := readable, writeable := writeable)];
    assert Agree(h, h');
    assert ParentsOk(h');
    forall x | x in h' && h'[x].Directory? ensures EntriesOk(h', x) {
      assert EntriesOk(h, x);
    }
    AttachedFrame(h, h', d);
    PathFrame(h, h', d);
  }
}
