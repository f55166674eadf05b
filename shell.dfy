/**
 * The session of NanoEditor: the `Environment` object, whose `Current`
 * directory the commands read and move, and the commands as its methods.
 * A command's console output is returned as a sequence of lines.
 */
module Shell {
  import opened Dictionary
  import opened FileTree
  import opened Commands

  /** The command objects the command table can construct. */
  datatype CommandKind = PwdCommand | LsCommand | CdCommand | MkdirCommand | TouchCommand | ClearCommand

  /** The command table built by the `Environment` constructor. */
  const Actions: map<string, CommandKind> := map[
    "pwd" := PwdCommand,
    "ls" := LsCommand,
    "cd" := CdCommand,
    "mkdir" := MkdirCommand,
    "touch" := TouchCommand,
    "clear" := ClearCommand]

  class Environment {
    /** Every node allocated so far, by id. */
    var heap: Heap
    /** `Environment.Current`. */
    var current: NodeId
    /** The id the next `new Directory` or `new File` receives. */
    var nextId: NodeId

    ghost predicate Valid()
      reads this
    {
      && WellFormed(heap) && Fresh(heap, nextId)
      && current in heap && heap[current].Directory? && Attached(heap, current)
    }

    /** A session starts in the empty root directory "/". */
    constructor ()
      ensures Valid()
      ensures heap == map[Root := Directory("/", [], None)] && current == Root
    {
      heap := map[Root := Directory("/", [], None)];
      current := Root;
      nextId := Root + 1;
    }

    /** `pwd`: prints the full path of the current directory. */
    method Pwd() returns (lines: seq<string>)
      requires Valid()
      ensures lines == [Path(heap, current)]
      ensures current == Root <==> lines == ["/"]
    {
      var path := CreateFullPath(current, "");
      assert Path(heap, current) + "" == Path(heap, current);
      lines := [path];
    }

    /**
     * Inserts the names on the parent chain of `d` in front of `sb`, one
     * directory at a time, and finally the root's "/".
     */
    method CreateFullPath(d: NodeId, sb: string) returns (r: string)
      requires ParentsOk(heap) && d in heap && heap[d].Directory?
      ensures r == Path(heap, d) + sb
      decreases d
    {
      match heap[d].parent
      case None =>
        r := "/" + sb;
      case Some(q) =>
        r := CreateFullPath(q, heap[d].name + "/" + sb);
    }

    /** `ls [name]`: lists the current directory, or its child directory `name`. */
    method Ls(args: seq<string>) returns (lines: seq<string>)
      requires Valid()
      ensures lines == Listing(heap, current, args)
    {
      assert EntriesOk(heap, current);
      if |args| == 0 {
        lines := ShowChildren(heap[current].children);
      } else {
        var found := FindByName(heap, heap[current].children, args[0]);
        lines := [];
        if found.Some? && heap[found.value].Directory? {
          assert EntriesOk(heap, found.value);
          lines := ShowChildren(heap[found.value].children);
        }
      }
    }

    /** Prints the `Name` of every node of a children table, in enumeration order. */
    method ShowChildren(nodes: Dict<NodeId>) returns (lines: seq<string>)
      requires InHeap(heap, nodes)
      ensures lines == Names(heap, nodes)
    {
      lines := [];
      for i := 0 to |nodes|
        invariant lines == Names(heap, nodes)[..i]
      {
        assert nodes[i] in nodes;
        lines := lines + [heap[nodes[i].value].name];
      }
    }

    /** `cd [name]`: moves into a child directory, or to the parent for "..". */
    method Cd(args: seq<string>) returns (lines: seq<string>)
      requires Valid()
      modifies this`current
      ensures Valid()
      ensures (current, lines) == Navigate(heap, old(current), args)
    {
      lines := [];
      assert EntriesOk(heap, current);
      if |args| == 0 {
        return;
      }
      var fileName := args[0];
      if fileName != ".." {
        var found := FindByName(heap, heap[current].children, fileName);
        if found.Some? {
          if heap[found.value].Directory? {
            current := found.value;
          } else {
            lines := [UnableCdToFile(fileName)];
          }
        }
      } else {
        match heap[current].parent
        case None =>
          return;
        case Some(p) =>
          current := p;
      }
    }

    /** `mkdir name`: `Current.ChildrenTreeNodes[name] = new Directory(name, Current)`. */
    method Mkdir(args: seq<string>)
      requires Valid() && |args| > 0
      modifies this
      ensures Valid()
      ensures heap == AddChild(old(heap), old(current), old(nextId), Directory(args[0], [], Some(old(current))))
      ensures current == old(current) && nextId == old(nextId) + 1
      ensures Path(heap, current) == Path(old(heap), current)
    {
      var fileName := args[0];
      var dir := Directory(fileName, [], Some(current));
      AddChildPreservesWellFormed(heap, current, nextId, dir);
      PathFrame(heap, AddChild(heap, current, nextId, dir), current);
      heap := AddChild(heap, current, nextId, dir);
      nextId := nextId + 1;
    }

    /** `touch name`: `Current.ChildrenTreeNodes[name] = new File(name)`. */
    method Touch(args: seq<string>)
      requires Valid() && |args| > 0
      modifies this
      ensures Valid()
      ensures heap == AddChild(old(heap), old(current), old(nextId), File(args[0], None, true, true))
      ensures current == old(current) && nextId == old(nextId) + 1
      ensures Path(heap, current) == Path(old(heap), current)
    {
      var fileName := args[0];
      var file := File(fileName, None, true, true);
      AddChildPreservesWellFormed(heap, current, nextId, file);
      PathFrame(heap, AddChild(heap, current, nextId, file), current);
      heap := AddChild(heap, current, nextId, file);
      nextId := nextId + 1;
    }

    /** `File.ChangeMod`: sets the permission flags of file `f` from `mod` alone. */
    method ChangeMod(f: NodeId, mod: Mods)
      requires Valid() && f in heap && heap[f].File?
      modifies this`heap
      ensures Valid()
      ensures heap == old(heap)[f := old(heap)[f].(readable := ModeFlags(mod).0, writeable := ModeFlags(mod).1)]
      ensures Path(heap, current) == Path(old(heap), current)
    {
      var (readable, writeable) := ModeFlags(mod);
      SetFlagsPreservesWellFormed(heap, f, readable, writeable, current);
      heap := heap[f := heap[f].(readable := readable, writeable := writeable)];
    }

    /**
     * Runs one parsed input line: the command table constructs the command
     * and the command is performed. A name missing from the table, and
     * `mkdir` or `touch` without an argument, end in an exception.
     */
    method Execute(command: string, args: seq<string>) returns (lines: seq<string>)
      requires Valid() && command in Actions
      requires Actions[command] == MkdirCommand || Actions[command] == TouchCommand ==> |args| > 0
      modifies this
      ensures Valid()
      ensures Actions[command] == PwdCommand ==> unchanged(this) && lines == [Path(heap, current)]
      ensures Actions[command] == LsCommand ==> unchanged(this) && lines == Listing(heap, current, args)
      ensures Actions[command] == CdCommand ==>
        heap == old(heap) && nextId == old(nextId) && (current, lines) == Navigate(heap, old(current), args)
      ensures Actions[command] == MkdirCommand ==>
        && heap == AddChild(old(heap), old(current), old(nextId), Directory(args[0], [], Some(old(current))))
        && current == old(current) && nextId == old(nextId) + 1 && lines == []
      ensures Actions[command] == TouchCommand ==>
        && heap == AddChild(old(heap), old(current), old(nextId), File(args[0], None, true, true))
        && current == old(current) && nextId == old(nextId) + 1 && lines == []
      ensures Actions[command] == ClearCommand ==> unchanged(this) && lines == []
    {
      match Actions[command]
      case PwdCommand =>
        lines := Pwd();
      case LsCommand =>
        lines := Ls(args);
      case CdCommand =>
        lines := Cd(args);
      case MkdirCommand =>
        Mkdir(args);
        lines := [];
      case TouchCommand =>
        Touch(args);
        lines := [];
      case ClearCommand =>
        lines := [];
    }
  }

  /** `mkdir name`, `cd name`, `pwd` in one session: the path grows by `name` and "/". */
  method MkdirCdPwdSession(env: Environment, name: string) returns (before: seq<string>, after: seq<string>)
    requires env.Valid() && name != ".."
    modifies env
    ensures env.Valid()
    ensures |before| == 1 && after == [before[0] + name + "/"]
  {
    before := env.Pwd();
    env.Mkdir([name]);
    var cdLines := env.Cd([name]);
    after := env.Pwd();
  }
}
