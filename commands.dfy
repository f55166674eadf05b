/**
 * What the shell commands `ls` and `cd` compute from the tree, and the
 * properties of `pwd`, `ls`, `cd`, `mkdir` and `touch` taken together.
 * Output that the commands write to the console is a sequence of lines.
 */
module Commands {
  import opened Dictionary
  import opened FileTree

  /** Every entry of the table refers to a node of the heap. */
  predicate InHeap(h: Heap, es: Dict<NodeId>)
  {
    forall e :: e in es ==> e.value in h
  }

  /** The `Name` of every node of a children table, in enumeration order, one per line. */
  function Names(h: Heap, es: Dict<NodeId>): (r: seq<string>)
    requires InHeap(h, es)
    ensures |r| == |es|
    ensures forall e :: e in es ==> h[e.value].name in r
  {
    var r := seq(|es|, i requires 0 <= i < |es| => assert es[i] in es; h[es[i].value].name);
    assert forall e :: e in es ==> h[e.value].name in r by {
      forall e | e in es ensures h[e.value].name in r {
        var i :| 0 <= i < |es| && es[i] == e;
        assert r[i] == h[e.value].name;
      }
    }
    r
  }

  /**
   * The first node of a children table whose `Name` is `name`
   * (`FirstOrDefault(x => x.Value.Name == name)`), or `None`.
   */
  function FindByName(h: Heap, es: Dict<NodeId>, name: string): (r: Option<NodeId>)
    requires InHeap(h, es)
    ensures r.None? <==> forall e :: e in es ==> h[e.value].name != name
    ensures r.Some? ==> r.value in h && h[r.value].name == name && r.value in Values(es)
    ensures r.Some? ==> exists i :: (0 <= i < |es| && es[i].value == r.value &&
      forall j :: 0 <= j < i ==> h[es[j].value].name != name)
  {
    if es == [] then None
    else if h[es[0].value].name == name then
      assert es[0].value == Values(es)[0];
      Some(es[0].value)
    else
      assert forall e :: e in es[1..] ==> e in es;
      var r := FindByName(h, es[1..], name);
      assert forall e :: e in es ==> e == es[0] || e in es[1..];
      assert r.Some? ==> r.value in Values(es[1..]) ==> r.value in Values(es) by {
        if r.Some? && r.value in Values(es[1..]) {
          var j :| 0 <= j < |es[1..]| && Values(es[1..])[j] == r.value;
          assert Values(es)[j + 1] == r.value;
        }
      }
      assert r.Some? ==> exists i :: (0 <= i < |es| && es[i].value == r.value &&
          forall j :: 0 <= j < i ==> h[es[j].value].name != name) by {
        if r.Some? {
          var i :| 0 <= i < |es[1..]| && es[1..][i].value == r.value &&
            forall j :: 0 <= j < i ==> h[es[1..][j].value].name != name;
          assert es[i + 1].value == r.value;
          forall j | 0 <= j < i + 1 ensures h[es[j].value].name != name {
            if j > 0 { assert es[j] == es[1..][j - 1]; }
          }
        }
      }
      r
  }

  /** A child directory is found by its name in its parent's table. */
  predicate IsChildDirectory(h: Heap, cur: NodeId, name: string, c: NodeId)
    requires cur in h && h[cur].Directory?
  {
    Get(h[cur].children, name) == Some(c) && c in h && h[c].Directory?
  }

  /** The message `cd` prints when its target is a file. */
  function UnableCdToFile(name: string): (r: string)
    ensures |r| == |name| + 20 && r[19..|r| - 1] == name
    ensures r[..19] == "Unable cd to file \"" && r[|r| - 1] == '"'
  {
    "Unable cd to file \"" + name + "\""
  }

  /**
   * `ls [name]` run in directory `cur`. With no argument it prints the keys
   * of `cur`'s table, in order; with the name of a child directory, that
   * child's keys; for a file or an unknown name, nothing. (The code prints
   * each node's `Name` and looks the child up by `Name`; under the tree
   * invariant both are the keys.)
   */
  function Listing(h: Heap, cur: NodeId, args: seq<string>): (r: seq<string>)
    requires WellFormed(h) && cur in h && h[cur].Directory?
    ensures |args| == 0 ==> r == Keys(h[cur].children)
    ensures |args| > 0 ==> (r ==
      match Get(h[cur].children, args[0])
      case Some(c) => if h[c].Directory? then Keys(h[c].children) else []
      case None => [])
  {
    assert EntriesOk(h, cur);
    NamesAreKeys(h, h[cur].children);
    if |args| == 0 then Names(h, h[cur].children)
    else
      FindByNameIsGet(h, h[cur].children, args[0]);
      match FindByName(h, h[cur].children, args[0])
      case Some(c) =>
        if h[c].Directory? then
          assert EntriesOk(h, c);
          NamesAreKeys(h, h[c].children);
          Names(h, h[c].children)
        else []
      case None => []
  }

  /**
   * `cd [name]` run in directory `cur`: the new current directory and the
   * lines printed. With no argument nothing happens; `..` moves to the
   * parent, or stays at the root; a name moves into the child directory
   * stored under it, reports a file, or does nothing when there is no such
   * entry. (The code looks the child up by `Name`; under the tree
   * invariant that is the key.)
   */
  function Navigate(h: Heap, cur: NodeId, args: seq<string>): (r: (NodeId, seq<string>))
    requires WellFormed(h) && cur in h && h[cur].Directory?
    ensures r.0 in h && h[r.0].Directory?
    ensures Attached(h, cur) ==> Attached(h, r.0)
    ensures |args| == 0 ==> r == (cur, [])
    ensures |args| > 0 && args[0] == ".." ==>
      r == (if cur == Root then (cur, []) else (h[cur].parent.value, []))
    ensures |args| > 0 && args[0] != ".." ==> (r ==
      match Get(h[cur].children, args[0])
      case Some(c) => if h[c].Directory? then (c, []) else (cur, [UnableCdToFile(args[0])])
      case None => (cur, []))
  {
    assert EntriesOk(h, cur);
    if |args| == 0 then (cur, [])
    else if args[0] != ".." then
      FindByNameIsGet(h, h[cur].children, args[0]);
      match FindByName(h, h[cur].children, args[0])
      case Some(c) =>
        if h[c].Directory? then
          assert Attached(h, cur) ==> Attached(h, c) by {
            var i :| 0 <= i < |h[cur].children| && Values(h[cur].children)[i] == c;
            assert h[cur].children[i] in h[cur].children;
          }
          (c, [])
        else (cur, [UnableCdToFile(args[0])])
      case None => (cur, [])
    else
      match h[cur].parent
      case None => (cur, [])
      case Some(p) => (p, [])
  }

  /** Under the tree invariant, looking a node up by its `Name` is looking it up by its key. */
  lemma {:induction false} FindByNameIsGet(h: Heap, es: Dict<NodeId>, name: string)
    requires forall e :: e in es ==> e.value in h && h[e.value].name == e.key
    ensures FindByName(h, es, name) == Get(es, name)
  {
    if es != [] && es[0].key != name {
      assert forall e :: e in es[1..] ==> e in es;
      FindByNameIsGet(h, es[1..], name);
      assert forall k :: IndexOf(es, k) == if es[0].key == k then Some(0) else
        match IndexOf(es[1..], k) case None => None case Some(i) => Some(i + 1);
    }
  }

  /** Under the tree invariant, the names `ls` prints for a table are its keys. */
  lemma NamesAreKeys(h: Heap, es: Dict<NodeId>)
    requires forall e :: e in es ==> e.value in h && h[e.value].name == e.key
    ensures Names(h, es) == Keys(es)
  {
    forall i | 0 <= i < |es| ensures Names(h, es)[i] == Keys(es)[i] {
      assert es[i] in es;
    }
  }

  /** `cd name` into a child directory followed by `cd ..` comes back to the same directory. */
  lemma CdChildThenParent(h: Heap, cur: NodeId, name: string, c: NodeId)
    requires WellFormed(h) && cur in h && h[cur].Directory?
    requires name != ".." && IsChildDirectory(h, cur, name, c)
    ensures Navigate(h, cur, [name]) == (c, [])
    ensures Navigate(h, c, [".."]) == (cur, [])
  {
    assert EntriesOk(h, cur);
    assert Entry(name, c) in h[cur].children;
  }

  /**
   * `mkdir name; cd name; pwd` prints the old path followed by `name` and
   * "/": the new directory is an empty child of `cur` and the tree stays
   * well formed.
   */
  lemma MkdirCdPwd(h: Heap, next: NodeId, cur: NodeId, name: string)
    requires WellFormed(h) && Fresh(h, next) && cur in h && h[cur].Directory?
    requires name != ".."
    ensures var h' := AddChild(h, cur, next, Directory(name, [], Some(cur)));
      && WellFormed(h')
      && Navigate(h', cur, [name]) == (next, [])
      && Listing(h', next, []) == []
      && Path(h', next) == Path(h, cur) + name + "/"
  {
    var h' := AddChild(h, cur, next, Directory(name, [], Some(cur)));
    AddChildPreservesWellFormed(h, cur, next, Directory(name, [], Some(cur)));
    PathFrame(h, h', cur);
  }

  /** `touch name; cd name` reports that `name` is a file and stays in `cur`. */
  lemma TouchThenCd(h: Heap, next: NodeId, cur: NodeId, name: string)
    requires WellFormed(h) && Fresh(h, next) && cur in h && h[cur].Directory?
    requires name != ".."
    ensures var h' := AddChild(h, cur, next, File(name, None, true, true));
      && WellFormed(h')
      && Navigate(h', cur, [name]) == (cur, ["Unable cd to file \"" + name + "\""])
  {
    var h' := AddChild(h, cur, next, File(name, None, true, true));
    AddChildPreservesWellFormed(h, cur, next, File(name, None, true, true));
  }
}
