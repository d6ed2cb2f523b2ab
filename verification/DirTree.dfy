/** kernel/file.c and the directory handlers of kernel/syscall.c: nodes and files threaded into sibling lists, which the
    record of their creations describes. */
module DirTree {
  import opened Layout
  import opened Strings
  import opened Paths

  const NAME_BUF_SIZE: nat := 16
  const DIR_NODE_BYTES: nat := 36
  const FILE_BYTES: nat := 48
  const MAX_DEPTH: nat := 16

  class DirNode {
    var firstchild: DirNode?
    var parent: DirNode?
    var nextSibling: DirNode?
    var firstfile: FileNode?
    const name: array<char>

    constructor (parent: DirNode?, name: array<char>)
      ensures this.name == name && this.parent == parent
      ensures firstchild == null && nextSibling == null && firstfile == null
    {
      this.name, this.parent := name, parent;
      firstchild, nextSibling, firstfile := null, null, null;
    }
  }

  /** file_read and file_write, by the function they point to; NoCall is NULL.  The types of a file are 0 for
      CONSOLE_IN_TYPE, 1 for CONSOLE_OUT_TYPE, 2 for TTY0_TYPE and 3 for IPC_TYPE. */
  datatype FileCall = NoCall | ConsoleRead | ConsoleWrite | IpcRead | IpcWrite

  class FileNode {
    var parent: DirNode
    var nextSibling: FileNode?
    var listNext: FileNode?
    var listPrev: FileNode?
    const name: array<char>
    const kind: int
    const fileRead: FileCall
    const fileWrite: FileCall

    constructor (parent: DirNode, name: array<char>, kind: int)
      ensures this.name == name && this.parent == parent && this.kind == kind
      ensures fileRead == if kind == 0 || kind == 2 then ConsoleRead else if kind == 3 then IpcRead else NoCall
      ensures fileWrite == if kind == 1 || kind == 2 then ConsoleWrite else if kind == 3 then IpcWrite else NoCall
      ensures nextSibling == null && listNext == null && listPrev == null
    {
      this.name, this.parent, this.kind := name, parent, kind;
      match kind {
        case 0 => fileRead, fileWrite := ConsoleRead, NoCall;
        case 1 => fileRead, fileWrite := NoCall, ConsoleWrite;
        case 2 => fileRead, fileWrite := ConsoleRead, ConsoleWrite;
        case 3 => fileRead, fileWrite := IpcRead, IpcWrite;
        case _ => fileRead, fileWrite := NoCall, NoCall;
      }
      nextSibling, listNext, listPrev := null, null, null;
    }
  }

  /** The name of a node, in a buffer that holds it with its terminator. */
  ghost predicate NodeName(a: seq<char>, name: string) {
    Named(a, name) && |name| < NAME_BUF_SIZE
  }

  /** The name buffer of a new node: cleared, then filled by copying up to the terminator, which is not copied. */
  method NewName(name: array<char>, ghost s: string) returns (namebuf: array<char>)
    requires Named(name[..], s) && |s| < NAME_BUF_SIZE
    ensures fresh(namebuf) && namebuf.Length == 16 && Named(namebuf[..], s) && |s| < 16
  {
    ghost var x := name[..];
    namebuf := new char[NAME_BUF_SIZE];
    Clear(namebuf);
    TextAt(x, 0, 0);
    hide CStr, Terminated;
    var k := 0;
    while name[k] != NUL
      invariant name[..] == x && |s| < |x| && k <= |s|
      invariant forall j :: 0 <= j < NAME_BUF_SIZE ==> namebuf[j] == if j < k then s[j] else NUL
      decreases |s| - k
    {
      TextAt(x, 0, k);
      namebuf[k] := name[k];
      k := k + 1;
    }
    TextAt(x, 0, k);
    CopiedName(namebuf[..], s, k);
  }

  lemma CopiedName(a: seq<char>, s: string, k: nat)
    requires k == |s| < |a| && NUL !in s && forall j :: 0 <= j < |a| ==> a[j] == if j < k then s[j] else NUL
    ensures Named(a, s)
  {
    CStrIs(a, 0, s);
  }

  /** _strcmp of a node's name and a given one. */
  method SameName(en: DirNode, name: array<char>, ghost t: string, ghost s: string) returns (differ: int)
    requires Named(en.name[..], t) && Named(name[..], s)
    ensures differ == if t == s then 0 else 1
  {
    differ := Strcmp(en.name, 0, name, 0);
  }

  ghost function DirPtr(ns: seq<DirNode>, k: int): DirNode?
    requires k < |ns|
  {
    if k < 0 then null else ns[k]
  }

  ghost function FilePtr(fs: seq<FileNode>, k: int): FileNode?
    requires k < |fs|
  {
    if k < 0 then null else fs[k]
  }

  /** The links of the first n nodes are those that the record l of all of them prescribes. */
  ghost predicate DirsLinked(ns: seq<DirNode>, l: seq<Entry>, n: nat)
    requires n <= |ns| == |l| && IsTree(l)
    reads ns
  {
    && Prescribed(Firsts(ns), Nexts(ns), ns, l, n)
    && Ascends(Parents(ns), ns, l, n)
  }

  ghost predicate Ascends(parents: seq<DirNode?>, ns: seq<DirNode>, l: seq<Entry>, n: nat)
    requires n <= |parents| && n <= |ns| == |l| && IsTree(l)
  {
    forall i {:trigger parents[i]} :: 0 <= i < n ==> parents[i] == DirPtr(ns, l[i].parent)
  }

  ghost function Firsts(ns: seq<DirNode>): (s: seq<DirNode?>)
    reads ns
    ensures |s| == |ns| && forall i :: 0 <= i < |ns| ==> s[i] == ns[i].firstchild
  {
    seq(|ns|, i requires 0 <= i < |ns| reads ns => ns[i].firstchild)
  }

  ghost function Nexts(ns: seq<DirNode>): (s: seq<DirNode?>)
    reads ns
    ensures |s| == |ns| && forall i :: 0 <= i < |ns| ==> s[i] == ns[i].nextSibling
  {
    seq(|ns|, i requires 0 <= i < |ns| reads ns => ns[i].nextSibling)
  }

  ghost function Parents(ns: seq<DirNode>): (s: seq<DirNode?>)
    reads ns
    ensures |s| == |ns| && forall i :: 0 <= i < |ns| ==> s[i] == ns[i].parent
  {
    seq(|ns|, i requires 0 <= i < |ns| reads ns => ns[i].parent)
  }

  ghost function Files(ns: seq<DirNode>): (s: seq<FileNode?>)
    reads ns
    ensures |s| == |ns| && forall i :: 0 <= i < |ns| ==> s[i] == ns[i].firstfile
  {
    seq(|ns|, i requires 0 <= i < |ns| reads ns => ns[i].firstfile)
  }

  method SetFirstFile(ghost ns: seq<DirNode>, dir: DirNode, file: FileNode?, ghost p: nat)
    requires p < |ns| && ns[p] == dir && AllDistinct(ns)
    modifies dir
    ensures Firsts(ns) == old(Firsts(ns)) && Nexts(ns) == old(Nexts(ns))
    ensures Parents(ns) == old(Parents(ns)) && Files(ns) == old(Files(ns))[p := file]
  {
    dir.firstfile := file;
  }

  ghost predicate AllDistinct<T>(ns: seq<T>) {
    forall i, j :: 0 <= i < j < |ns| ==> ns[i] != ns[j]
  }

  method SetFirst(ghost ns: seq<DirNode>, parent: DirNode, node: DirNode?, ghost p: nat)
    requires p < |ns| && ns[p] == parent && AllDistinct(ns)
    modifies parent
    ensures Firsts(ns) == old(Firsts(ns))[p := node] && Nexts(ns) == old(Nexts(ns))
    ensures Parents(ns) == old(Parents(ns)) && Files(ns) == old(Files(ns))
  {
    parent.firstchild := node;
  }

  method SetNext(ghost ns: seq<DirNode>, end: DirNode, node: DirNode?, ghost k: nat)
    requires k < |ns| && ns[k] == end && AllDistinct(ns)
    modifies end
    ensures Firsts(ns) == old(Firsts(ns)) && Nexts(ns) == old(Nexts(ns))[k := node]
    ensures Parents(ns) == old(Parents(ns)) && Files(ns) == old(Files(ns))
  {
    end.nextSibling := node;
  }

  /** The values of the links, for the first n nodes of ns. */
  ghost predicate Prescribed(firsts: seq<DirNode?>, nexts: seq<DirNode?>, ns: seq<DirNode>, l: seq<Entry>, n: nat)
    requires n <= |firsts| && n <= |nexts| && n <= |ns| == |l|
  {
    forall i {:trigger firsts[i]} {:trigger nexts[i]} :: 0 <= i < n ==>
      firsts[i] == DirPtr(ns, NextIn(l, i, 0)) && nexts[i] == DirPtr(ns, NextIn(l, l[i].parent, i + 1))
  }

  /** The first child of p: only the link in p changes. */
  lemma FirstChildLinks(firsts: seq<DirNode?>, nexts: seq<DirNode?>, ns: seq<DirNode>, l: seq<Entry>, p: nat,
                        node: DirNode, e: Entry)
    requires |firsts| == |nexts| == |ns| == |l| && Prescribed(firsts, nexts, ns, l, |ns|)
    requires p < |ns| && e.parent == p && NextIn(l, p, 0) == NONE
    ensures Prescribed(firsts[p := node], nexts, ns + [node], l + [e], |ns|)
  {
    hide NextIn;
    forall i | 0 <= i < |ns|
      ensures firsts[p := node][i] == DirPtr(ns + [node], NextIn(l + [e], i, 0))
      ensures nexts[i] == DirPtr(ns + [node], NextIn(l + [e], (l + [e])[i].parent, i + 1))
    {
      LinksSnoc(l, e, i);
      assert firsts[i] == DirPtr(ns, NextIn(l, i, 0));
    }
  }

  /** A further child of p: only the link in the last child changes. */
  lemma LastChildLinks(firsts: seq<DirNode?>, nexts: seq<DirNode?>, ns: seq<DirNode>, l: seq<Entry>, p: nat, k: nat,
                       node: DirNode, e: Entry)
    requires |firsts| == |nexts| == |ns| == |l| && Prescribed(firsts, nexts, ns, l, |ns|)
    requires e.parent == p && k < |ns| && l[k].parent == p && NextIn(l, p, k + 1) == NONE
    ensures Prescribed(firsts, nexts[k := node], ns + [node], l + [e], |ns|)
  {
    forall i | 0 <= i < |ns|
      ensures firsts[i] == DirPtr(ns + [node], NextIn(l + [e], i, 0))
      ensures nexts[k := node][i] == DirPtr(ns + [node], NextIn(l + [e], (l + [e])[i].parent, i + 1))
    {
      LinksSnoc(l, e, i);
      assert firsts[i] == DirPtr(ns, NextIn(l, i, 0));
      if l[i].parent == p {
        OneLast(l, p, k, i);
      }
    }
  }

  ghost predicate FirstFiles(heads: seq<FileNode?>, fs: seq<FileNode>, fl: seq<Entry>, n: nat)
    requires n <= |heads| && |fs| == |fl|
  {
    forall i {:trigger heads[i]} :: 0 <= i < n ==> heads[i] == FilePtr(fs, NextIn(fl, i, 0))
  }

  lemma NewNode(ns: seq<DirNode>, node: DirNode, l: seq<Entry>, e: Entry)
    requires |ns| == |l| && e.parent < |ns| && IsTree(l) && IsTree(l + [e])
    requires Prescribed(Firsts(ns), Nexts(ns), ns + [node], l + [e], |ns|) && Ascends(Parents(ns), ns, l, |l|)
    requires node.parent == DirPtr(ns, e.parent) && node.firstchild == null && node.nextSibling == null
    ensures DirsLinked(ns + [node], l + [e], |l| + 1)
  {
    hide NextIn, IsTree;
    ParentsBelow(l);
    NewestLinks(l, e);
    var ms := ns + [node];
    assert Firsts(ms) == Firsts(ns) + [null];
    assert Nexts(ms) == Nexts(ns) + [null];
    assert Parents(ms) == Parents(ns) + [node.parent];
    MoreLinks(Firsts(ns), Nexts(ns), ms, l + [e], |ns|);
    MoreParents(Parents(ns), ns, node, l, e);
  }

  lemma ParentsBelow(l: seq<Entry>)
    requires IsTree(l)
    ensures forall j :: 0 <= j < |l| ==> l[j].parent < |l|
  {
  }

  lemma MoreLinks(firsts: seq<DirNode?>, nexts: seq<DirNode?>, ns: seq<DirNode>, l: seq<Entry>, n: nat)
    requires |firsts| == |nexts| == n && |ns| == |l| == n + 1 && Prescribed(firsts, nexts, ns, l, n)
    requires NextIn(l, n, 0) == NONE && NextIn(l, l[n].parent, n + 1) == NONE
    ensures Prescribed(firsts + [null], nexts + [null], ns, l, n + 1)
  {
    hide NextIn;
    forall i | 0 <= i < n + 1
      ensures (firsts + [null])[i] == DirPtr(ns, NextIn(l, i, 0))
      ensures (nexts + [null])[i] == DirPtr(ns, NextIn(l, l[i].parent, i + 1))
    {
      if i < n {
        assert firsts[i] == DirPtr(ns, NextIn(l, i, 0));
      }
    }
  }

  lemma MoreParents(parents: seq<DirNode?>, ns: seq<DirNode>, node: DirNode, l: seq<Entry>, e: Entry)
    requires |parents| == |ns| == |l| && e.parent < |ns| && IsTree(l) && IsTree(l + [e])
    requires Ascends(parents, ns, l, |l|)
    ensures Ascends(parents + [DirPtr(ns, e.parent)], ns + [node], l + [e], |l| + 1)
  {
    forall i | 0 <= i < |l| + 1
      ensures (parents + [DirPtr(ns, e.parent)])[i] == DirPtr(ns + [node], (l + [e])[i].parent)
    {
      if i < |l| {
        assert parents[i] == DirPtr(ns, l[i].parent);
      }
    }
  }

  lemma NewNodeFiles(ns: seq<DirNode>, node: DirNode, fs: seq<FileNode>, fl: seq<Entry>)
    requires |fs| == |fl| && InTree(fl, |ns|)
    requires FirstFiles(Files(ns), fs, fl, |ns|) && node.firstfile == null
    ensures FirstFiles(Files(ns + [node]), fs, fl, |ns| + 1)
  {
    hide NextIn;
    assert Files(ns + [node]) == Files(ns) + [null];
    assert NextIn(fl, |ns|, 0) == NONE;
    forall i | 0 <= i < |ns| ensures (Files(ns) + [null])[i] == FilePtr(fs, NextIn(fl, i, 0)) {
      assert Files(ns)[i] == FilePtr(fs, NextIn(fl, i, 0));
    }
  }

  ghost function Owners(fs: seq<FileNode>): (s: seq<DirNode>)
    reads fs
    ensures |s| == |fs| && forall i :: 0 <= i < |fs| ==> s[i] == fs[i].parent
  {
    seq(|fs|, i requires 0 <= i < |fs| reads fs => fs[i].parent)
  }

  ghost function Siblings(fs: seq<FileNode>): (s: seq<FileNode?>)
    reads fs
    ensures |s| == |fs| && forall i :: 0 <= i < |fs| ==> s[i] == fs[i].nextSibling
  {
    seq(|fs|, i requires 0 <= i < |fs| reads fs => fs[i].nextSibling)
  }

  ghost function ListNexts(fs: seq<FileNode>): (s: seq<FileNode?>)
    reads fs
    ensures |s| == |fs| && forall i :: 0 <= i < |fs| ==> s[i] == fs[i].listNext
  {
    seq(|fs|, i requires 0 <= i < |fs| reads fs => fs[i].listNext)
  }

  ghost function ListPrevs(fs: seq<FileNode>): (s: seq<FileNode?>)
    reads fs
    ensures |s| == |fs| && forall i :: 0 <= i < |fs| ==> s[i] == fs[i].listPrev
  {
    seq(|fs|, i requires 0 <= i < |fs| reads fs => fs[i].listPrev)
  }

  ghost predicate Owned(owners: seq<DirNode>, ns: seq<DirNode>, fl: seq<Entry>)
    requires |owners| == |fl| && InTree(fl, |ns|)
  {
    forall j {:trigger owners[j]} :: 0 <= j < |fl| ==> owners[j] == ns[fl[j].parent]
  }

  ghost predicate SiblingFiles(nexts: seq<FileNode?>, fs: seq<FileNode>, fl: seq<Entry>, n: nat)
    requires n <= |nexts| && n <= |fs| == |fl|
  {
    forall j {:trigger nexts[j]} :: 0 <= j < n ==> nexts[j] == FilePtr(fs, NextIn(fl, fl[j].parent, j + 1))
  }

  /** The list of all files, in the order of their creation. */
  ghost predicate AllFiles(nexts: seq<FileNode?>, prevs: seq<FileNode?>, fs: seq<FileNode>)
    requires |nexts| == |prevs| == |fs|
  {
    && (forall j {:trigger nexts[j]} :: 0 <= j < |fs| ==> nexts[j] == FilePtr(fs, if j + 1 < |fs| then j + 1 else NONE))
    && (forall j {:trigger prevs[j]} :: 0 <= j < |fs| ==> prevs[j] == FilePtr(fs, j - 1))
  }

  ghost predicate FilesLinked(fs: seq<FileNode>, ns: seq<DirNode>, fl: seq<Entry>)
    requires |fs| == |fl| && InTree(fl, |ns|)
    reads fs
  {
    && Owned(Owners(fs), ns, fl)
    && SiblingFiles(Siblings(fs), fs, fl, |fs|)
    && AllFiles(ListNexts(fs), ListPrevs(fs), fs)
  }

  /** The objects of the tree are distinct, and repr holds them and their name buffers. */
  ghost predicate Apart(ns: seq<DirNode>, fs: seq<FileNode>, repr: set<object>) {
    && (forall i :: 0 <= i < |ns| ==> ns[i] in repr && ns[i].name in repr)
    && (forall j :: 0 <= j < |fs| ==> fs[j] in repr && fs[j].name in repr)
    && AllDistinct(ns) && AllDistinct(fs)
  }

  lemma Outside(ns: seq<DirNode>, fs: seq<FileNode>, repr: set<object>, node: DirNode)
    requires Apart(ns, fs, repr) && node !in repr
    ensures node !in ns && forall i :: 0 <= i < |ns| ==> ns[i] != node
  {
  }

  lemma OutsideFiles(ns: seq<DirNode>, fs: seq<FileNode>, repr: set<object>, file: FileNode)
    requires Apart(ns, fs, repr) && file !in repr
    ensures file !in fs && AllDistinct(fs) && forall j :: 0 <= j < |fs| ==> fs[j] != file
  {
  }

  ghost predicate DirsNamed(ns: seq<DirNode>, l: seq<Entry>)
    requires |ns| == |l|
    reads set n | n in ns :: n.name
  {
    forall i {:trigger ns[i]} :: 0 <= i < |ns| ==> NodeName(ns[i].name[..], l[i].name)
  }

  ghost predicate FilesNamed(fs: seq<FileNode>, fl: seq<Entry>)
    requires |fs| == |fl|
    reads set f | f in fs :: f.name
  {
    forall j {:trigger fs[j]} :: 0 <= j < |fs| ==> NodeName(fs[j].name[..], fl[j].name)
  }

  /** The first file of directory p: only the link in p changes. */
  lemma FirstFileLinks(heads: seq<FileNode?>, nexts: seq<FileNode?>, fs: seq<FileNode>, fl: seq<Entry>, p: nat,
                       file: FileNode, e: Entry)
    requires |nexts| == |fs| == |fl| && p < |heads| && e.parent == p && NextIn(fl, p, 0) == NONE
    requires FirstFiles(heads, fs, fl, |heads|) && SiblingFiles(nexts, fs, fl, |fs|)
    ensures FirstFiles(heads[p := file], fs + [file], fl + [e], |heads|)
    ensures SiblingFiles(nexts, fs + [file], fl + [e], |fs|)
  {
    hide NextIn;
    forall i | 0 <= i < |heads| ensures heads[p := file][i] == FilePtr(fs + [file], NextIn(fl + [e], i, 0)) {
      NextInSnoc(fl, e, i, 0);
      assert heads[i] == FilePtr(fs, NextIn(fl, i, 0));
    }
    forall j | 0 <= j < |fs|
      ensures nexts[j] == FilePtr(fs + [file], NextIn(fl + [e], (fl + [e])[j].parent, j + 1))
    {
      LinksSnoc(fl, e, j);
    }
  }

  /** A further file of directory p: only the link in its last file changes. */
  lemma LastFileLinks(heads: seq<FileNode?>, nexts: seq<FileNode?>, fs: seq<FileNode>, fl: seq<Entry>, p: nat, k: nat,
                      file: FileNode, e: Entry)
    requires |nexts| == |fs| == |fl| && p < |heads| && e.parent == p && k < |fs| && fl[k].parent == p
    requires NextIn(fl, p, k + 1) == NONE
    requires FirstFiles(heads, fs, fl, |heads|) && SiblingFiles(nexts, fs, fl, |fs|)
    ensures FirstFiles(heads, fs + [file], fl + [e], |heads|)
    ensures SiblingFiles(nexts[k := file], fs + [file], fl + [e], |fs|)
  {
    forall i | 0 <= i < |heads| ensures heads[i] == FilePtr(fs + [file], NextIn(fl + [e], i, 0)) {
      NextInSnoc(fl, e, i, 0);
      assert heads[i] == FilePtr(fs, NextIn(fl, i, 0));
    }
    forall j | 0 <= j < |fs|
      ensures nexts[k := file][j] == FilePtr(fs + [file], NextIn(fl + [e], (fl + [e])[j].parent, j + 1))
    {
      LinksSnoc(fl, e, j);
      assert nexts[j] == FilePtr(fs, NextIn(fl, fl[j].parent, j + 1));
      if fl[j].parent == p {
        OneLast(fl, p, k, j);
      }
    }
  }

  method SetSibling(ghost fs: seq<FileNode>, end: FileNode, file: FileNode?, ghost k: nat)
    requires k < |fs| && fs[k] == end && AllDistinct(fs)
    modifies end
    ensures Siblings(fs) == old(Siblings(fs))[k := file] && Owners(fs) == old(Owners(fs))
    ensures ListNexts(fs) == old(ListNexts(fs)) && ListPrevs(fs) == old(ListPrevs(fs))
  {
    end.nextSibling := file;
  }

  /** The walk of file_list_push to the end of the list. */
  method EndOfList(start: FileNode, ghost fs: seq<FileNode>) returns (head: FileNode)
    requires fs != [] && start == fs[0] && AllFiles(ListNexts(fs), ListPrevs(fs), fs)
    ensures head == fs[|fs| - 1]
  {
    head := start;
    ghost var h := 0;
    while head.listNext != null
      invariant h < |fs| && head == fs[h]
      decreases |fs| - h
    {
      assert ListNexts(fs)[h] == head.listNext;
      head := head.listNext;
      h := h + 1;
    }
    assert ListNexts(fs)[h] == null;
  }

  /** The links of the list once file has been put after end. */
  method PutLast(end: FileNode, file: FileNode, ghost fs: seq<FileNode>)
    requires fs != [] && end == fs[|fs| - 1] && AllDistinct(fs) && file !in fs
    modifies end, file
    ensures ListNexts(fs + [file]) == old(ListNexts(fs))[|fs| - 1 := file] + [null]
    ensures ListPrevs(fs + [file]) == old(ListPrevs(fs)) + [end]
    ensures Siblings(fs) == old(Siblings(fs)) && Owners(fs) == old(Owners(fs))
    ensures file.nextSibling == old(file.nextSibling) && file.parent == old(file.parent)
  {
    end.listNext := file;
    file.listPrev := end;
    file.listNext := null;
  }

  lemma OneMoreFile(nexts: seq<FileNode?>, prevs: seq<FileNode?>, fs: seq<FileNode>, file: FileNode)
    requires |nexts| == |prevs| == |fs| && fs != [] && AllFiles(nexts, prevs, fs)
    ensures AllFiles(nexts[|fs| - 1 := file] + [null], prevs + [fs[|fs| - 1]], fs + [file])
  {
  }

  /** file_list_push, with the files fs in the list: the file goes to the end, and the head is returned. */
  method FileListPush(fileListHead: FileNode?, file: FileNode, ghost fs: seq<FileNode>) returns (newHead: FileNode)
    requires AllDistinct(fs) && file !in fs && fileListHead == (if fs == [] then null else fs[0])
    requires AllFiles(ListNexts(fs), ListPrevs(fs), fs)
    modifies fs, file
    ensures newHead == (fs + [file])[0]
    ensures AllFiles(ListNexts(fs + [file]), ListPrevs(fs + [file]), fs + [file])
    ensures Siblings(fs) == old(Siblings(fs)) && Owners(fs) == old(Owners(fs))
    ensures file.nextSibling == old(file.nextSibling) && file.parent == old(file.parent)
  {
    if fileListHead == null {
      file.listNext := null;
      file.listPrev := null;
      return file;
    }
    hide AllFiles, AllDistinct;
    var end := EndOfList(fileListHead, fs);
    OneMoreFile(ListNexts(fs), ListPrevs(fs), fs, file);
    PutLast(end, file, fs);
    newHead := fileListHead;
  }

  lemma NewFile(fs: seq<FileNode>, file: FileNode, ns: seq<DirNode>, fl: seq<Entry>, e: Entry, repr: set<object>)
    requires |fs| == |fl| && InTree(fl, |ns|) && 0 <= e.parent < |ns| && file.parent == ns[e.parent]
    requires Owned(Owners(fs), ns, fl) && SiblingFiles(Siblings(fs), fs + [file], fl + [e], |fs|)
    requires AllFiles(ListNexts(fs + [file]), ListPrevs(fs + [file]), fs + [file]) && file.nextSibling == null
    requires Apart(ns, fs, repr) && file !in repr && FilesNamed(fs, fl) && NodeName(file.name[..], e.name)
    ensures InTree(fl + [e], |ns|) && FilesLinked(fs + [file], ns, fl + [e])
    ensures Apart(ns, fs + [file], repr + {file, file.name}) && FilesNamed(fs + [file], fl + [e])
  {
    hide NextIn, Named, AllFiles;
    assert Owners(fs + [file]) == Owners(fs) + [file.parent];
    assert Siblings(fs + [file]) == Siblings(fs) + [null];
    MoreSiblings(Siblings(fs), fs + [file], fl + [e], |fs|);
    MoreOwners(Owners(fs), ns, fl, e);
  }

  lemma MoreSiblings(nexts: seq<FileNode?>, fs: seq<FileNode>, fl: seq<Entry>, n: nat)
    requires |nexts| == n && |fs| == |fl| == n + 1 && SiblingFiles(nexts, fs, fl, n)
    ensures SiblingFiles(nexts + [null], fs, fl, n + 1)
  {
  }

  lemma MoreOwners(owners: seq<DirNode>, ns: seq<DirNode>, fl: seq<Entry>, e: Entry)
    requires |owners| == |fl| && InTree(fl, |ns|) && 0 <= e.parent < |ns| && Owned(owners, ns, fl)
    ensures InTree(fl + [e], |ns|) && Owned(owners + [ns[e.parent]], ns, fl + [e])
  {
  }

  /** The literal PATH_root. */
  method RootName() returns (name: array<char>)
    ensures fresh(name) && NodeName(name[..], "/root")
  {
    name := new char[]['/', 'r', 'o', 'o', 't', NUL, NUL];
    CStrIs(name[..], 0, "/root");
  }

  ghost predicate InTree(fl: seq<Entry>, n: nat) {
    forall j :: 0 <= j < |fl| ==> 0 <= fl[j].parent < n
  }

  /** What does not concern the links, with one node more. */
  lemma OneMore(ns: seq<DirNode>, node: DirNode, l: seq<Entry>, e: Entry, fs: seq<FileNode>, fl: seq<Entry>,
                repr: set<object>)
    requires |ns| == |l| && |fs| == |fl| && InTree(fl, |l|) && node !in repr
    requires Apart(ns, fs, repr) && DirsNamed(ns, l) && NodeName(node.name[..], e.name) && FilesLinked(fs, ns, fl)
    ensures Apart(ns + [node], fs, repr + {node, node.name}) && DirsNamed(ns + [node], l + [e])
    ensures InTree(fl, |l + [e]|) && FilesLinked(fs, ns + [node], fl)
  {
    hide Named, NextIn;
  }

  lemma FilesNeedDirs(fl: seq<Entry>, n: nat)
    requires InTree(fl, n)
    ensures fl != [] ==> 0 < n
  {
    if fl != [] {
      assert fl[0].parent < n;
    }
  }

  lemma NoNodes(node: DirNode, e: Entry)
    requires e.parent == NONE
    ensures IsTree([e]) && Prescribed(Firsts([]), Nexts([]), [node], [e], 0) && Ascends(Parents([]), [], [], 0)
    ensures FirstFiles(Files([]), [], [], 0) && FilesLinked([], [], []) && DirsNamed([], []) && FilesNamed([], [])
    ensures IsTree([]) && InTree([], 0)
  {
  }

  class DirTree {
    var root: DirNode?
    var fileListHead: FileNode?
    var availStart: nat
    const pageStart: nat
    ghost var nodes: seq<DirNode>
    ghost var log: seq<Entry>
    ghost var files: seq<FileNode>
    ghost var fileLog: seq<Entry>
    ghost var repr: set<object>

    /** The page is filled from its start: nothing is ever given back. */
    ghost predicate Room()
      reads this
    {
      availStart == pageStart + DIR_NODE_BYTES * |nodes| + FILE_BYTES * |files| <= pageStart + SECTION
    }

    ghost predicate Records()
      reads this`nodes, this`log, this`files, this`fileLog
    {
      && |nodes| == |log| && |files| == |fileLog| && IsTree(log)
      && InTree(fileLog, |log|)
    }

    ghost predicate Shape()
      reads this
    {
      && Records()
      && root == (if nodes == [] then null else nodes[0])
      && fileListHead == (if files == [] then null else files[0])
      && Apart(nodes, files, repr) && Room()
    }

    ghost predicate Valid()
      reads this, repr
    {
      && Shape()
      && DirsLinked(nodes, log, |log|) && FirstFiles(Files(nodes), files, fileLog, |log|)
      && FilesLinked(files, nodes, fileLog)
      && DirsNamed(nodes, log) && FilesNamed(files, fileLog)
    }

    /** What Valid says of node number i. */
    lemma Node(i: nat)
      requires Valid() && i < |nodes|
      ensures |log| == |nodes| && |fileLog| == |files| && IsTree(log)
      ensures nodes[i].parent == DirPtr(nodes, log[i].parent)
      ensures nodes[i].firstchild == DirPtr(nodes, NextIn(log, i, 0))
      ensures nodes[i].nextSibling == DirPtr(nodes, NextIn(log, log[i].parent, i + 1))
      ensures nodes[i].firstfile == FilePtr(files, NextIn(fileLog, i, 0))
      ensures Named(nodes[i].name[..], log[i].name)
    {
      hide NextIn, Named;
      assert Firsts(nodes)[i] == nodes[i].firstchild && Parents(nodes)[i] == nodes[i].parent;
      assert Files(nodes)[i] == nodes[i].firstfile;
    }

    lemma Owns(i: nat)
      requires Valid() && i < |nodes|
      ensures nodes[i] in repr && nodes[i].name in repr
    {
      hide Named, FilesLinked, DirsLinked, FirstFiles, IsTree, InTree, DirsNamed, FilesNamed, AllDistinct;
    }

    lemma OwnsFile(j: nat)
      requires Valid() && j < |files|
      ensures files[j] in repr && files[j].name in repr
    {
      hide Named, FilesLinked, DirsLinked, FirstFiles, IsTree, InTree, DirsNamed, FilesNamed, AllDistinct;
    }

    lemma LinksOf(p: nat)
      requires Valid() && p < |nodes|
      ensures |nodes| == |log| && AllDistinct(nodes) && Prescribed(Firsts(nodes), Nexts(nodes), nodes, log, |nodes|)
      ensures nodes[p].firstchild == null <==> NextIn(log, p, 0) == NONE
      ensures var k := NextIn(log, p, 0); k != NONE ==> 0 <= k && nodes[k] == nodes[p].firstchild && log[k].parent == p
    {
      hide NextIn, Named;
      Node(p);
    }

    /** path_tree_init, given the page: the tree is empty. */
    constructor (pageStart: nat)
      ensures Valid() && log == [] && fileLog == [] && repr == {} && this.pageStart == pageStart
    {
      this.pageStart, availStart := pageStart, pageStart;
      root, fileListHead := null, null;
      nodes, log, files, fileLog, repr := [], [], [], [], {};
    }

    /** create_root_path. */
    method CreateRoot() returns (status: int)
      requires Valid() && (root == null ==> availStart + DIR_NODE_BYTES <= pageStart + SECTION)
      modifies this
      ensures Valid() && fileLog == old(fileLog) && fresh(repr - old(repr))
      ensures status == if old(log) == [] then 0 else -1
      ensures log == if old(log) == [] then [Entry(NONE, "/root")] else old(log)
    {
      HasRoot();
      hide Valid;
      if root != null {
        return -1;
      }
      MakeRoot();
      status := 0;
    }

    lemma HasRoot()
      requires Valid()
      ensures (root == null <==> nodes == []) && |nodes| == |log|
    {
    }

    /** Nodes take 36 bytes of the page and files 48. */
    lemma Bytes()
      requires Valid()
      ensures availStart == pageStart + 36 * |nodes| + 48 * |files| <= pageStart + 0x10_0000
    {
    }

    /** Without a root there is nothing. */
    lemma Bare()
      requires Valid() && root == null
      ensures nodes == [] && log == [] && files == [] && fileLog == [] && fileListHead == null
      ensures availStart == pageStart
    {
      hide Named, FirstFiles, NextIn, DirsNamed, FilesNamed, FilesLinked, Prescribed, Ascends, InTree, IsTree;
      FilesNeedDirs(fileLog, |log|);
    }

    method MakeRoot()
      requires Valid() && root == null && availStart + DIR_NODE_BYTES <= pageStart + SECTION
      modifies this
      ensures Valid() && fileLog == old(fileLog) && fresh(repr - old(repr)) && log == [Entry(NONE, "/root")]
    {
      hide Valid, Named, FirstFiles, NextIn, DirsNamed, FilesNamed, FilesLinked, Prescribed, Ascends, InTree, IsTree;
      Bare();
      var name := RootName();
      var node := new DirNode(null, name);
      ghost var e := Entry(NONE, "/root");
      NoNodes(node, e);
      assert nodes + [node] == [node] && log + [e] == [e];
      root := node;
      availStart := availStart + DIR_NODE_BYTES;
      Adopt(node, e);
    }

    /** A node that has been made and linked, but not recorded. */
    ghost predicate Prepared(node: DirNode, e: Entry)
      reads this, repr, node, node.name
    {
      && Records() && e.parent < |log| && IsTree(log + [e])
      && Apart(nodes, files, repr) && node !in repr
      && DirsNamed(nodes, log) && FilesNamed(files, fileLog) && NodeName(node.name[..], e.name)
      && root == (nodes + [node])[0] && fileListHead == (if files == [] then null else files[0])
      && availStart == pageStart + DIR_NODE_BYTES * (|nodes| + 1) + FILE_BYTES * |files| <= pageStart + SECTION
      && Prescribed(Firsts(nodes), Nexts(nodes), nodes + [node], log + [e], |nodes|)
      && Ascends(Parents(nodes), nodes, log, |log|) && FirstFiles(Files(nodes), files, fileLog, |log|)
      && FilesLinked(files, nodes, fileLog)
      && node.parent == DirPtr(nodes, e.parent)
      && node.firstchild == null && node.nextSibling == null && node.firstfile == null
    }

    /** The record of a node that has been made and linked. */
    ghost method Adopt(node: DirNode, e: Entry)
      requires Prepared(node, e)
      modifies this`nodes, this`log, this`repr
      ensures Valid() && nodes == old(nodes) + [node] && log == old(log) + [e] && repr == old(repr) + {node, node.name}
    {
      hide Prescribed, Ascends, FirstFiles, NextIn, Named, IsTree, Apart, InTree, DirsNamed, FilesNamed, DirsLinked,
           FilesLinked;
      NewNode(nodes, node, log, e);
      NewNodeFiles(nodes, node, files, fileLog);
      OneMore(nodes, node, log, e, files, fileLog, repr);
      nodes, log, repr := nodes + [node], log + [e], repr + {node, node.name};
    }

    /** find_end_sibling, from node number k of the list of p: the last of the list. */
    method FindEndSibling(node: DirNode, ghost p: int, ghost k: nat) returns (start: DirNode, ghost e: nat)
      requires Valid() && k < |nodes| && nodes[k] == node && log[k].parent == p
      ensures k <= e < |nodes| && start == nodes[e] && log[e].parent == p && NextIn(log, p, e + 1) == NONE
    {
      start, e := node, k;
      while start.nextSibling != null
        invariant k <= e < |nodes| && start == nodes[e] && log[e].parent == p
        decreases |nodes| - e
      {
        e := NextIn(log, p, e + 1);
        start := start.nextSibling;
      }
    }

    /** The comparison with "..". */
    method DiffersFromUp(name: array<char>, ghost s: string) returns (neq: int)
      requires Named(name[..], s)
      ensures neq == if s == UP then 0 else 1
    {
      var up := new char[]['.', '.', NUL, NUL];
      CStrIs(up[..], 0, UP);
      neq := Strcmp(name, 0, up, 0);
    }

    /** en is the subdirectory of number k that the search of i for s has come to. */
    ghost predicate At(i: nat, s: string, k: int, en: DirNode?)
      reads this
    {
      |log| == |nodes| && Searching(log, i, s, k) && en == DirPtr(nodes, k)
    }

    ghost predicate Found(i: nat, s: string, en: DirNode?)
      reads this
    {
      |log| == |nodes| && en == DirPtr(nodes, FindIn(log, i, s, 0))
    }

    ghost function Rank(k: int): (r: int)
      reads this
    {
      if k == NONE then 0 else 1 + |nodes| - k
    }

    lemma Visit(i: nat, s: string, k: int, en: DirNode?) returns (t: string, next: int)
      requires Valid() && At(i, s, k, en)
      ensures en == null ==> Found(i, s, en)
      ensures en != null ==> Named(en.name[..], t) && 0 <= Rank(next) < Rank(k)
      ensures en != null ==> if t == s then Found(i, s, en) else At(i, s, next, en.nextSibling)
    {
      hide FindIn, NextIn, Named;
      SearchGoesOn(log, i, s, k);
      t, next := s, NONE;
      if k != NONE {
        Node(k);
        t, next := log[k].name, NextIn(log, i, k + 1);
      }
    }

    lemma Start(i: nat, s: string) returns (k: int)
      requires Valid() && i < |nodes|
      ensures At(i, s, k, nodes[i].firstchild)
    {
      hide FindIn, NextIn, Named;
      Node(i);
      SearchStarts(log, i, s);
      k := NextIn(log, i, 0);
    }

    /** The search of find_target_subdir along the list of subdirectories. */
    method SearchSubdir(curdir: DirNode, name: array<char>, ghost i: nat, ghost s: string) returns (en: DirNode?)
      requires Valid() && i < |nodes| && nodes[i] == curdir && Named(name[..], s)
      ensures Found(i, s, en)
    {
      hide *;
      ghost var k := Start(i, s);
      en := curdir.firstchild;
      while en != null
        invariant Valid() && At(i, s, k, en) && Named(name[..], s)
        decreases Rank(k)
      {
        ghost var t, next := Visit(i, s, k, en);
        var differ := SameName(en, name, t, s);
        if differ == 0 {
          return en;
        }
        k := next;
        en := en.nextSibling;
      }
      ghost var t, next := Visit(i, s, k, en);
    }

    /** find_target_subdir, for node number i. */
    method FindTargetSubdir(curdir: DirNode, name: array<char>, ghost i: nat, ghost s: string)
      returns (target: DirNode?)
      requires Valid() && i < |nodes| && nodes[i] == curdir && Named(name[..], s)
      ensures |log| == |nodes| && IsTree(log) && target == DirPtr(nodes, Target(log, i, s))
    {
      Node(i);
      hide Named, FindIn, IsTree, Valid;
      var neq := DiffersFromUp(name, s);
      if neq == 0 {
        return curdir.parent;
      }
      target := SearchSubdir(curdir, name, i, s);
    }

    /** The end of create_path_node: node goes to the end of the children of node number p. */
    method LinkChild(parent: DirNode, node: DirNode, ghost p: nat, ghost e: Entry)
      requires Valid() && p < |nodes| == |log| && nodes[p] == parent && e.parent == p && IsTree(log + [e])
      modifies nodes
      ensures Prescribed(Firsts(nodes), Nexts(nodes), nodes + [node], log + [e], |nodes|)
      ensures Parents(nodes) == old(Parents(nodes)) && Files(nodes) == old(Files(nodes))
    {
      hide *;
      Node(p);
      LinksOf(p);
      ghost var firsts, nexts := Firsts(nodes), Nexts(nodes);
      if parent.firstchild != null {
        var end, k := FindEndSibling(parent.firstchild, p, NextIn(log, p, 0));
        LastChildLinks(firsts, nexts, nodes, log, p, k, node, e);
        SetNext(nodes, end, node, k);
      } else {
        FirstChildLinks(firsts, nexts, nodes, log, p, node, e);
        SetFirst(nodes, parent, node, p);
      }
    }

    /** create_path_node, under node number p. */
    method CreatePathNode(parent: DirNode?, name: array<char>, ghost p: nat, ghost s: string) returns (node: DirNode?)
      requires Valid()
      requires parent != null ==> p < |nodes| && nodes[p] == parent && Named(name[..], s) && |s| < NAME_BUF_SIZE
      requires parent != null ==> availStart + DIR_NODE_BYTES <= pageStart + SECTION
      modifies this, nodes
      ensures Valid() && fileLog == old(fileLog) && files == old(files) && fresh(repr - old(repr))
      ensures node == null <==> parent == null
      ensures parent == null ==> log == old(log) && nodes == old(nodes)
      ensures parent != null ==> log == old(log) + [Entry(p, s)] && nodes == old(nodes) + [node] && fresh(node)
    {
      hide Named, FirstFiles, NextIn, DirsNamed, FilesNamed, FilesLinked, DirsLinked, InTree, IsTree, Apart, Valid;
      HasRoot();
      if root == null || parent == null {
        return null;
      }
      var namebuf := NewName(name, s);
      var child := new DirNode(parent, namebuf);
      AddNode(parent, child, p, Entry(p, s));
      node := child;
    }

    method AddNode(parent: DirNode, node: DirNode, ghost p: nat, ghost e: Entry)
      requires Valid() && p < |nodes| && nodes[p] == parent && e.parent == p
      requires availStart + DIR_NODE_BYTES <= pageStart + SECTION
      requires node !in repr && NodeName(node.name[..], e.name) && node.parent == parent
      requires node.firstchild == null && node.nextSibling == null && node.firstfile == null
      modifies this, nodes
      ensures Valid() && fileLog == old(fileLog) && files == old(files) && repr == old(repr) + {node, node.name}
      ensures log == old(log) + [e] && nodes == old(nodes) + [node]
    {
      hide NodeName, FirstFiles, DirsNamed, FilesNamed, FilesLinked, Prescribed, Ascends, InTree, IsTree, Apart, Firsts,
           Nexts, Parents, Files, AllDistinct;
      TreeSnoc(log, e);
      Outside(nodes, files, repr, node);
      LinkChild(parent, node, p, e);
      availStart := availStart + DIR_NODE_BYTES;
      Adopt(node, e);
    }

    lemma FilesOf(p: nat)
      requires Valid() && p < |nodes|
      ensures Records() && AllDistinct(nodes) && AllDistinct(files)
      ensures FirstFiles(Files(nodes), files, fileLog, |nodes|)
      ensures SiblingFiles(Siblings(files), files, fileLog, |files|)
      ensures nodes[p].firstfile == null <==> NextIn(fileLog, p, 0) == NONE
      ensures var k := NextIn(fileLog, p, 0);
              k != NONE ==> 0 <= k && files[k] == nodes[p].firstfile && fileLog[k].parent == p
    {
      hide NextIn, Named, DirsNamed, FilesNamed, Prescribed, Ascends, SiblingFiles, AllFiles, Owned, IsTree, InTree;
      Node(p);
    }

    /** find_end_filesibling, from file number k of the list of directory p. */
    method FindEndFilesibling(f: FileNode, ghost p: int, ghost k: nat) returns (start: FileNode, ghost e: nat)
      requires Valid() && k < |files| && files[k] == f && fileLog[k].parent == p
      ensures k <= e < |files| && start == files[e] && fileLog[e].parent == p && NextIn(fileLog, p, e + 1) == NONE
    {
      hide Named, DirsNamed, FilesNamed, Prescribed, Ascends, FirstFiles, AllFiles, Owned, IsTree, InTree, Apart;
      start, e := f, k;
      while start.nextSibling != null
        invariant k <= e < |files| && start == files[e] && fileLog[e].parent == p
        decreases |files| - e
      {
        assert Siblings(files)[e] == start.nextSibling;
        e := NextIn(fileLog, p, e + 1);
        start := start.nextSibling;
      }
      assert Siblings(files)[e] == null;
    }

    /** The file goes to the end of the files of directory number p. */
    method LinkFile(dir: DirNode, file: FileNode, ghost p: nat, ghost e: Entry)
      requires Valid() && p < |nodes| && |files| == |fileLog| && nodes[p] == dir && e.parent == p
      modifies nodes, files
      ensures FirstFiles(Files(nodes), files + [file], fileLog + [e], |nodes|)
      ensures SiblingFiles(Siblings(files), files + [file], fileLog + [e], |files|)
      ensures Firsts(nodes) == old(Firsts(nodes)) && Nexts(nodes) == old(Nexts(nodes))
      ensures Parents(nodes) == old(Parents(nodes)) && Owners(files) == old(Owners(files))
      ensures ListNexts(files) == old(ListNexts(files)) && ListPrevs(files) == old(ListPrevs(files))
    {
      hide *;
      FilesOf(p);
      Counts();
      if dir.firstfile == null {
        FirstFileLinks(Files(nodes), Siblings(files), files, fileLog, p, file, e);
        SetFirstFile(nodes, dir, file, p);
      } else {
        var end, k := FindEndFilesibling(dir.firstfile, p, NextIn(fileLog, p, 0));
        LastFileLinks(Files(nodes), Siblings(files), files, fileLog, p, k, file, e);
        SetSibling(files, end, file, k);
      }
    }

    /** LinkFile, and what it keeps. */
    method LinkFileOnly(dir: DirNode, file: FileNode, ghost p: nat, ghost e: Entry)
      requires Valid() && p < |nodes| && |files| == |fileLog| && nodes[p] == dir && e.parent == p
      modifies nodes, files
      ensures Records() && DirsLinked(nodes, log, |log|) && Owned(Owners(files), nodes, fileLog)
      ensures FirstFiles(Files(nodes), files + [file], fileLog + [e], |nodes|)
      ensures SiblingFiles(Siblings(files), files + [file], fileLog + [e], |files|)
      ensures AllFiles(ListNexts(files), ListPrevs(files), files)
      ensures DirsNamed(nodes, log) && FilesNamed(files, fileLog)
    {
      hide Named, FirstFiles, NextIn, DirsNamed, FilesNamed, Prescribed, Ascends, InTree, IsTree, Apart, SiblingFiles,
           Owned, AllFiles;
      LinkFile(dir, file, p, e);
    }

    lemma Counts()
      requires Records()
      ensures |nodes| == |log| && |files| == |fileLog|
    {
    }

    /** A file that has been made and linked in its directory. */
    ghost predicate InDirectory(file: FileNode, e: Entry)
      reads this, repr, file, file.name
    {
      && Records() && 0 <= e.parent < |log|
      && Apart(nodes, files, repr) && file !in repr
      && DirsNamed(nodes, log) && FilesNamed(files, fileLog) && NodeName(file.name[..], e.name)
      && root == (if nodes == [] then null else nodes[0])
      && DirsLinked(nodes, log, |log|)
      && FirstFiles(Files(nodes), files + [file], fileLog + [e], |nodes|)
      && SiblingFiles(Siblings(files), files + [file], fileLog + [e], |files|)
      && Owned(Owners(files), nodes, fileLog)
      && file.parent == nodes[e.parent] && file.nextSibling == null
    }

    /** And in the list of all files, but not recorded. */
    ghost predicate PreparedFile(file: FileNode, e: Entry)
      reads this, repr, file, file.name
    {
      && InDirectory(file, e)
      && AllFiles(ListNexts(files + [file]), ListPrevs(files + [file]), files + [file])
      && fileListHead == (files + [file])[0]
      && availStart == pageStart + DIR_NODE_BYTES * |nodes| + FILE_BYTES * (|files| + 1) <= pageStart + SECTION
    }

    ghost method AdoptFile(file: FileNode, e: Entry)
      requires PreparedFile(file, e)
      modifies this`files, this`fileLog, this`repr
      ensures Valid() && files == old(files) + [file] && fileLog == old(fileLog) + [e]
      ensures repr == old(repr) + {file, file.name}
    {
      hide Prescribed, Ascends, FirstFiles, NextIn, Named, IsTree, Apart, InTree, DirsNamed, FilesNamed, DirsLinked,
           FilesLinked, SiblingFiles, Owned, AllFiles;
      NewFile(files, file, nodes, fileLog, e, repr);
      files, fileLog, repr := files + [file], fileLog + [e], repr + {file, file.name};
    }

    /** create_file_under_node, under node number p. */
    method CreateFileUnderNode(node: DirNode?, filename: array<char>, kind: int, ghost p: nat, ghost s: string)
      returns (file: FileNode?)
      requires Valid()
      requires node != null ==> p < |nodes| && nodes[p] == node && Named(filename[..], s) && |s| < NAME_BUF_SIZE
      requires node != null ==> availStart + FILE_BYTES <= pageStart + SECTION
      modifies this, nodes, files
      ensures Valid() && log == old(log) && nodes == old(nodes) && fresh(repr - old(repr))
      ensures file == null <==> node == null
      ensures node == null ==> fileLog == old(fileLog) && files == old(files)
      ensures node != null ==> fileLog == old(fileLog) + [Entry(p, s)] && files == old(files) + [file]
      ensures node != null ==>
        && fresh(file) && file.kind == kind
        && file.fileRead ==
           (if kind == 0 || kind == 2 then ConsoleRead else if kind == 3 then IpcRead else NoCall)
        && file.fileWrite ==
           (if kind == 1 || kind == 2 then ConsoleWrite else if kind == 3 then IpcWrite else NoCall)
    {
      hide Named, FirstFiles, NextIn, DirsNamed, FilesNamed, FilesLinked, DirsLinked, InTree, IsTree, Apart, Valid;
      HasRoot();
      if root == null || node == null {
        return null;
      }
      var namebuf := NewName(filename, s);
      var f := new FileNode(node, namebuf, kind);
      AddFile(node, f, p, Entry(p, s));
      file := f;
    }

    method AddFile(dir: DirNode, file: FileNode, ghost p: nat, ghost e: Entry)
      requires Valid() && p < |nodes| && nodes[p] == dir && e.parent == p
      requires availStart + FILE_BYTES <= pageStart + SECTION
      requires file !in repr && NodeName(file.name[..], e.name) && file.parent == dir
      requires file.nextSibling == null
      modifies this, nodes, files, file
      ensures Valid() && log == old(log) && nodes == old(nodes) && repr == old(repr) + {file, file.name}
      ensures fileLog == old(fileLog) + [e] && files == old(files) + [file]
    {
      hide Named, FirstFiles, NextIn, DirsNamed, FilesNamed, Prescribed, Ascends, InTree, IsTree, Apart, SiblingFiles,
           Owned, AllFiles, DirsLinked, FilesLinked;
      FilesOf(p);
      OutsideFiles(nodes, files, repr, file);
      LinkFileOnly(dir, file, p, e);
      PushFile(file, e);
      AdoptFile(file, e);
    }

    /** The parts of InDirectory that do not depend on where the file stands in the list of all files. */
    lemma Directory(file: FileNode, e: Entry)
      requires InDirectory(file, e)
      ensures Records() && 0 <= e.parent < |log| == |nodes| && |files| == |fileLog|
      ensures IsTree(log) && InTree(fileLog, |log|)
      ensures AllDistinct(files) && file !in files
    {
      hide Named, FirstFiles, NextIn, DirsNamed, FilesNamed, Prescribed, Ascends, InTree, IsTree, SiblingFiles, Owned,
           DirsLinked, FilesLinked, AllDistinct;
      OutsideFiles(nodes, files, repr, file);
    }

    /** The list of all files is no part of it. */
    method PushOnly(file: FileNode, ghost e: Entry) returns (head: FileNode)
      requires InDirectory(file, e) && AllFiles(ListNexts(files), ListPrevs(files), files)
      requires fileListHead == (if files == [] then null else files[0])
      modifies files, file
      ensures InDirectory(file, e) && head == (files + [file])[0]
      ensures AllFiles(ListNexts(files + [file]), ListPrevs(files + [file]), files + [file])
    {
      hide NodeName, FirstFiles, DirsNamed, FilesNamed, InTree, IsTree, Apart, SiblingFiles, Owned, AllFiles, DirsLinked,
           AllDistinct, Siblings, Owners, ListNexts, ListPrevs, Files, Records;
      Directory(file, e);
      head := FileListPush(fileListHead, file, files);
    }

    method PushFile(file: FileNode, ghost e: Entry)
      requires InDirectory(file, e) && AllFiles(ListNexts(files), ListPrevs(files), files)
      requires Room() && availStart + FILE_BYTES <= pageStart + SECTION
      requires fileListHead == (if files == [] then null else files[0])
      modifies this`fileListHead, this`availStart, files, file
      ensures PreparedFile(file, e)
    {
      hide NodeName, FirstFiles, DirsNamed, FilesNamed, InTree, IsTree, Apart, SiblingFiles, Owned, AllFiles, DirsLinked,
           AllDistinct, Siblings, Owners, ListNexts, ListPrevs, Files, Records;
      Directory(file, e);
      fileListHead := PushOnly(file, e);
      availStart := availStart + FILE_BYTES;
      assert InDirectory(file, e);
    }

    /** What Valid says of file number j. */
    lemma FileOf(j: nat)
      requires Valid() && j < |files|
      ensures |files| == |fileLog| && fileListHead == files[0] && Named(files[j].name[..], fileLog[j].name)
      ensures files[j].listNext == FilePtr(files, if j + 1 < |files| then j + 1 else NONE)
    {
      hide NextIn, Named, DirsNamed, Prescribed, Ascends, SiblingFiles, FirstFiles, Owned, IsTree, InTree, Apart;
      assert ListNexts(files)[j] == files[j].listNext;
    }

    /** What Valid says of the list that file number j is in. */
    lemma FileSibling(j: nat)
      requires Valid() && j < |files|
      ensures |files| == |fileLog| && Named(files[j].name[..], fileLog[j].name)
      ensures files[j].nextSibling == FilePtr(files, NextIn(fileLog, fileLog[j].parent, j + 1))
    {
      hide NextIn, Named, DirsNamed, Prescribed, Ascends, FirstFiles, Owned, IsTree, InTree, Apart;
      assert Siblings(files)[j] == files[j].nextSibling;
    }

    lemma ShortNames()
      requires Valid()
      ensures |files| == |fileLog| && |nodes| == |log|
      ensures forall i :: 0 <= i < |log| ==> |log[i].name| < NAME_BUF_SIZE
      ensures forall j :: 0 <= j < |fileLog| ==> |fileLog[j].name| < NAME_BUF_SIZE
    {
      hide Named, FilesLinked, DirsLinked, FirstFiles, IsTree, InTree, Apart;
      forall i | 0 <= i < |log| ensures |log[i].name| < NAME_BUF_SIZE {
        var n := nodes[i];
      }
      forall j | 0 <= j < |fileLog| ensures |fileLog[j].name| < NAME_BUF_SIZE {
        var f := files[j];
      }
    }

    /** find_file, which reads the head of the list of all files without a test. */
    method FindFile(name: array<char>, ghost s: string) returns (file: FileNode?)
      requires Valid() && fileListHead != null && Named(name[..], s)
      ensures |files| == |fileLog| && file == FilePtr(files, FindNamed(fileLog, s, 0))
    {
      hide Valid, Named;
      Heads();
      var head: FileNode := fileListHead;
      ghost var h := 0;
      FileOf(0);
      while head.listNext != null
        invariant Valid() && h < |files| == |fileLog| && head == files[h] && Named(name[..], s)
        invariant FindNamed(fileLog, s, 0) == FindNamed(fileLog, s, h)
        decreases |files| - h
      {
        FileOf(h);
        var differ := SameFileName(head, name, fileLog[h].name, s);
        if differ == 0 {
          return head;
        }
        head := head.listNext;
        h := h + 1;
      }
      FileOf(h);
      var differ := SameFileName(head, name, fileLog[h].name, s);
      if differ == 0 {
        return head;
      }
      file := null;
    }

    lemma Heads()
      requires Valid()
      ensures (fileListHead == null <==> files == []) && Records()
    {
    }
  }

  method SameFileName(f: FileNode, name: array<char>, ghost t: string, ghost s: string) returns (differ: int)
    requires Named(f.name[..], t) && Named(name[..], s)
    ensures differ == if t == s then 0 else 1
  {
    differ := Strcmp(name, 0, f.name, 0);
  }
}
