# NanoEditor filesystem shell, modelled in Dafny

NanoEditor (the BusyBoxSimulator repository) simulates a Unix-like shell
over an in-memory tree of directories and files. This project models the
tree and the commands that act on it: `pwd`, `ls`, `cd`, `mkdir` and
`touch`, the command table that dispatches them, and `File.ChangeMod`,
which sets a file's permission flags.

- `dictionary.dfy` (module `Dictionary`): a directory's children table,
  a C# `Dictionary<string, TreeNode>`, as an association list in
  enumeration order. `Set` is assignment through the indexer: it replaces
  the value of an existing key in place or appends a new key at the end.
- `filetree.dfy` (module `FileTree`): the nodes (`Directory`, `File`), the
  `Mods` enumeration, the heap of nodes, the tree invariant `WellFormed`,
  the path of a directory and the insertion of a new child.
- `commands.dfy` (module `Commands`): what `ls` and `cd` compute, and the
  properties of the commands together. Examples are `mkdir X; cd X; pwd`
  and `cd X; cd ..`.
- `shell.dfy` (module `Shell`): the `Environment` class. It holds the heap,
  `Current` and the node allocator, and each command is a method on it.
  `Execute` runs one parsed command line through the command table.

A C# object reference to a node is a `NodeId` into a heap
`map<NodeId, Node>`. Nodes are only ever created fresh, with an id larger
than every id in use. So a directory's `ParentElement` always has a
smaller id than the directory. That order gives the measure on which `Path`
and `Attached` recurse, and it rules out cycles. Console output is returned
as a sequence of lines. A null `Content` or `ParentElement` is `None`.

The tree invariant (`WellFormed`) says:
- every key of a children table is the `Name` of the node it holds;
- keys are unique;
- every child directory's `ParentElement` is the directory holding it;
- the root "/" is the only directory without a parent.

`Environment.Valid` adds three facts: every id in use is below the
allocator's next id (`Fresh`), `Current` is a directory, and it can be
reached from the root (`Attached`).

Behaviour kept as the code has it:
- `ChangeMod(ReadWrite)` sets `(Readable, Writeable)` to `(true, false)`,
  the same as `Readonly`. So a file is writeable only in mode `Writeable`
  (`ModeFlags`, `ReadWriteActsAsReadonly`).
- `ls` and `cd` look a child up by the node's `Name`, taking the first
  match in enumeration order. `mkdir` and `touch` store by key.
  `FindByNameIsGet` shows that the two lookups agree under the invariant.
- `mkdir ..` creates a child named `..` that `cd ..` never enters, because
  `cd ..` always goes to the parent. `MkdirCdPwd` therefore requires the
  name to differ from `..`.

Behaviour the code has that a reader might not expect:
- A new file has a null `Content`, not an empty string. Both of its flags
  are `true`, and no mode of `ChangeMod` produces that pair.
- An unknown command name is not reported. The dictionary lookup throws,
  so `Execute` requires the name to be in the table.
- The table holds only `pwd`, `ls`, `cd`, `mkdir`, `touch` and `clear`.
- `pwd` builds the path recursively, by inserting at the front of a
  `StringBuilder`. `CreateFullPath` is that recursion with its accumulator.
- Names may be empty: `mkdir ` with a trailing space creates a child
  named "".

## Model

| member | source | states |
|---|---|---|
| `Dictionary.IndexOf` | NanoEditor/Program.cs:224 | the position found is the first entry with the key, and there is none exactly when no entry has the key |
| `Dictionary.Get` | NanoEditor/Program.cs:224 | a lookup finds a value exactly when the key is among the keys, and the pair is an entry of the table |
| `Dictionary.Set` | NanoEditor/Program.cs:120 | after `d[k] = v`, `k` maps to `v` and every other key maps to what it did. An existing key keeps its position and a new key is appended. Unique keys stay unique, and every entry is the new one or an old one |
| `FileTree.ModeFlags` | NanoEditor/Program.cs:240-261 | the flags `ChangeMod` sets: readable exactly for `Readonly` and `ReadWrite`, writeable exactly for `Writeable` |
| `FileTree.ReadWriteActsAsReadonly` | NanoEditor/Program.cs:256-259 | `ReadWrite` sets the same flags as `Readonly`, `(true, false)` |
| `FileTree.Path` | NanoEditor/Program.cs:44-50 | the path of a directory begins and ends with "/", and it is exactly "/" when the directory has no parent |
| `FileTree.AddChild` | NanoEditor/Program.cs:118-136 | storing a fresh node `n` in `cur`'s table, as `mkdir` (line 120) and `touch` (line 136) do: entry `n.name` now holds the new id and the other keys keep their values and order. `cur` keeps its name and parent, and no other node changes |
| `FileTree.PathFrame` | NanoEditor/Program.cs:44-50 | a directory's path depends only on the names and parents along its parent chain |
| `FileTree.AttachedFrame` | NanoEditor/Program.cs:222-232 | a directory stays reachable from the root while its parent link and the older directories are unchanged |
| `FileTree.AddChildPreservesWellFormed` | NanoEditor/Program.cs:109-138 | `mkdir` and `touch` keep the tree invariant: keys equal names, keys are unique and child directories point back at their holder. Existing nodes keep kind, name and parent, and the current directory stays reachable |
| `FileTree.AddChildKeepsEntries` | NanoEditor/Program.cs:118-136 | after the insertion of `mkdir` (line 120) or `touch` (line 136) every directory's children table is still consistent |
| `FileTree.SetFlagsPreservesWellFormed` | NanoEditor/Program.cs:240-261 | changing a file's flags keeps the invariant, every directory's reachability and every path |
| `Commands.FindByName` | NanoEditor/Program.cs:68 | the first node with the given `Name`: none exactly when no entry's node has that name, otherwise the node of an entry with that name such that no earlier entry's node has it |
| `Commands.Names` | NanoEditor/Program.cs:73-77 | `ShowChildren` prints one line per entry of the table, and every entry's node `Name` is among them |
| `Commands.UnableCdToFile` | NanoEditor/Program.cs:98 | the message for `cd` into a file quotes the requested name verbatim, between the fixed text `Unable cd to file "` and a closing quote |
| `Commands.Navigate` | NanoEditor/Program.cs:89-106 | `cd` always ends in a directory of the heap, and a directory reachable from the root stays reachable. With no argument it does nothing. `cd ..` stays at the root and otherwise goes to the parent. `cd name` enters the child directory stored under `name`, prints `Unable cd to file "name"` for a file, and does nothing for a missing name |
| `Commands.FindByNameIsGet` | NanoEditor/Program.cs:93-96 | when keys equal names, lookup by `Name` is lookup by key |
| `Commands.NamesAreKeys` | NanoEditor/Program.cs:73-77 | when keys equal names, the lines `ls` prints for a table are its keys, in order |
| `Commands.Listing` | NanoEditor/Program.cs:62-77 | `ls` lists the current directory's keys. `ls name` lists the keys of the child directory stored under `name`, and nothing for a file or a missing name |
| `Commands.CdChildThenParent` | NanoEditor/Program.cs:91-105 | `cd name` into a child directory followed by `cd ..` returns to the same directory, with no output |
| `Commands.MkdirCdPwd` | NanoEditor/Program.cs:109-122 | after `mkdir name` the tree is well formed. `cd name` enters the new directory, which `ls` shows empty, and its path is the old path followed by `name` and "/" |
| `Commands.TouchThenCd` | NanoEditor/Program.cs:124-138 | after `touch name`, `cd name` stays put and prints `Unable cd to file "name"` |
| `Shell.Environment.constructor` | NanoEditor/Program.cs:177 | a session starts in the empty root directory "/", with the invariant established |
| `Shell.Environment.Pwd` | NanoEditor/Program.cs:38-42 | `pwd` prints one line, the path of `Current`, and that line is "/" exactly at the root |
| `Shell.Environment.CreateFullPath` | NanoEditor/Program.cs:44-50 | the recursive builder returns the path of the directory followed by what was already built |
| `Shell.Environment.Ls` | NanoEditor/Program.cs:62-71 | `ls` prints `Listing` and changes nothing |
| `Shell.Environment.ShowChildren` | NanoEditor/Program.cs:73-77 | the loop prints the `Name` of every node of the table, in enumeration order |
| `Shell.Environment.Cd` | NanoEditor/Program.cs:89-106 | `cd` moves `Current` and prints as `Navigate` says. It never touches the tree and keeps the invariant |
| `Shell.Environment.Mkdir` | NanoEditor/Program.cs:109-122 | `mkdir name` stores a fresh empty directory named `name`, whose parent is `Current`, under key `name`. It replaces any previous entry, keeps `Current` and its path, and keeps the invariant |
| `Shell.Environment.Touch` | NanoEditor/Program.cs:124-138 | `touch name` stores a fresh file named `name` under key `name`, with null content and both flags set. It replaces any previous entry, keeps `Current` and keeps the invariant |
| `Shell.Environment.ChangeMod` | NanoEditor/Program.cs:240-261 | the file's flags become `ModeFlags(mod)` whatever they were before. Nothing else changes and the invariant is kept |
| `Shell.Environment.Execute` | NanoEditor/Program.cs:181-189 | each name in the command table runs its command with the effect stated for it. `pwd`, `ls` and `clear` change nothing |
| `Shell.MkdirCdPwdSession` | NanoEditor/Program.cs:44-50 | in a live session, `pwd` after `mkdir name; cd name` prints the earlier path followed by `name` and "/" |

## Left out

- `Main` and `Environment.Launch` (NanoEditor/Program.cs:10-14, 192-208) are left out. They cover the prompt, reading lines, the `exit` check and splitting on spaces. `Execute` starts from the parsed command name and arguments.
- An unknown command name throws in the table lookup. That is a precondition of `Execute`, not a modelled outcome.
- `mkdir` and `touch` without an argument throw on `_parameters[0]`. That is a precondition of `Mkdir`, `Touch` and `Execute`.
- `clear` only calls `Console.Clear()`. It is modelled as a command that changes nothing and prints nothing.
- `cat` has no behaviour: its body throws `NotImplementedException`.
- `rm`, `write`, `mv` and `help` are named only in a comment and have no code. `chmod` and `man` do not appear in the code. None of them is modelled.
- `File.Content` is never read or written by any command. The model only records that `touch` leaves it null.
- `Pwd` reassigning its own `_directory` through the `ref` parameter is left out. `CreateFullPath` walks up the chain without changing the command object.
- Garbage collection is not modelled. A directory or file replaced by `mkdir` or `touch` stays in the heap, unreachable from the root.
- Enumeration order of a C# `Dictionary` is taken to be insertion order, with a replaced key keeping its place. No command removes entries, so this holds here.
