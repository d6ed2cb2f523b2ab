/** The directory handlers of kernel/syscall.c, for a task with its current directory, and lsdir of
    userproc/commands.c on top of two of them. */
module DirCalls {
  import opened Strings
  import opened Listing
  import opened Paths
  import opened DirTree

  /** A listing loop that has gone over the names taken, all of which fitted, and has rest to go. */
  ghost predicate Listed(names: seq<string>, taken: seq<string>, rest: seq<string>, size: nat) {
    && names == taken + rest && |Joined(taken)| <= size
    && Taken(names, size, 0) == |taken| + Taken(rest, size, |Joined(taken)|)
  }

  lemma OneFits(names: seq<string>, taken: seq<string>, rest: seq<string>, size: nat)
    requires rest != [] && Listed(names, taken, rest, size) && size - |Joined(taken)| >= |rest[0]| + SLACK
    ensures Listed(names, taken + [rest[0]], rest[1..], size)
    ensures Joined(taken + [rest[0]]) == Joined(taken) + rest[0] + DELIM
  {
    hide Joined;
    JoinedSnoc(taken, rest[0]);
    assert taken + rest == taken + [rest[0]] + rest[1..];
  }

  /** The loop stops at the end or at a name that does not fit. */
  lemma AllTaken(names: seq<string>, taken: seq<string>, rest: seq<string>, size: nat)
    requires Listed(names, taken, rest, size)
    requires rest == [] || size - |Joined(taken)| < |rest[0]| + SLACK
    ensures Taken(names, size, 0) == |taken| && names[..|taken|] == taken
  {
    hide Joined;
  }

  /** What a listing call leaves in a buffer of the given size. */
  function ListingOf(names: seq<string>, size: nat): string {
    Joined(names[..Taken(names, size, 0)])
  }

  /** Split, the listing is the names in it and one empty token exactly when none of them hides a delimiter. */
  lemma ListingSplits(names: seq<string>, size: nat)
    requires 2 <= size
    ensures |ListingOf(names, size)| + 2 <= size
    ensures var k := Taken(names, size, 0);
            Split(ListingOf(names, size)) == names[..k] + [""] <==> AllWhole(names[..k])
  {
    var k := Taken(names, size, 0);
    RoundTrip(names[..k]);
    TakesLongestPrefix(names, size, 0, k);
  }

  const LS_BUF: nat := 160

  class Session {
    const tree: DirTree
    var cwdn: DirNode
    ghost var cwd: nat

    ghost predicate Valid()
      reads this, tree, tree.repr
    {
      tree.Valid() && this !in tree.repr && cwd < |tree.nodes| && tree.nodes[cwd] == cwdn
    }

    constructor (tree: DirTree)
      requires tree.Valid() && tree.nodes != [] && tree.root != null
      ensures this.tree == tree && Valid() && cwd == 0
    {
      this.tree := tree;
      cwdn := tree.root;
      cwd := 0;
    }

    /** chdir_handler: r0 is what the task gets back. */
    method Chdir(name: array<char>, ghost s: string) returns (r0: int)
      requires Valid() && Named(name[..], s)
      modifies this
      ensures Valid() && IsTree(tree.log) && old(cwd) < |tree.log|
      ensures var t := Target(tree.log, old(cwd), s);
              if t == NONE then r0 == -1 && cwd == old(cwd) else r0 == 0 && cwd == t
    {
      hide DirTree.Valid, Named, FindIn, IsTree;
      var target := tree.FindTargetSubdir(cwdn, name, cwd, s);
      if target != null {
        cwdn := target;
        cwd := Target(tree.log, cwd, s);
        r0 := 0;
      } else {
        r0 := -1;
      }
    }

    /** en is the subdirectory of number k that the loop has come to, after the names taken. */
    ghost predicate SubdirAt(taken: seq<string>, k: int, en: DirNode?, size: nat)
      reads this, tree
    {
      && NONE <= k < |tree.log| == |tree.nodes| && (k != NONE ==> tree.log[k].parent == cwd)
      && en == DirPtr(tree.nodes, k)
      && Listed(NamesIn(tree.log, cwd, 0), taken, Rest(tree.log, cwd, k), size)
    }

    ghost function Rank(k: int, n: nat): int {
      if k == NONE then 0 else 1 + n - k
    }

    lemma FirstSubdir(size: nat) returns (k: int)
      requires Valid()
      ensures SubdirAt([], k, cwdn.firstchild, size)
    {
      hide NextIn, NamesIn, Named, DirTree.Valid;
      tree.Node(cwd);
      RestGoesOn(tree.log, cwd, 0);
      k := NextIn(tree.log, cwd, 0);
    }

    lemma VisitSubdir(taken: seq<string>, k: int, en: DirNode?, size: nat) returns (t: string, next: int)
      requires Valid() && SubdirAt(taken, k, en, size)
      ensures en == null ==> Joined(taken) == ListingOf(NamesIn(tree.log, cwd, 0), size)
      ensures en != null ==> Named(en.name[..], t) && en.name in tree.repr
      ensures en != null && size - |Joined(taken)| < |t| + SLACK ==>
        Joined(taken) == ListingOf(NamesIn(tree.log, cwd, 0), size)
      ensures en != null && size - |Joined(taken)| >= |t| + SLACK ==>
        && SubdirAt(taken + [t], next, en.nextSibling, size) && Joined(taken + [t]) == Joined(taken) + t + DELIM
        && 0 <= Rank(next, |tree.nodes|) < Rank(k, |tree.nodes|)
    {
      hide NextIn, NamesIn, Named, Listed, Joined, DirTree.Valid;
      var rest := Rest(tree.log, cwd, k);
      t, next := "", NONE;
      if k == NONE {
        AllTaken(NamesIn(tree.log, cwd, 0), taken, rest, size);
      } else {
        tree.Node(k);
        tree.Owns(k);
        t, next := tree.log[k].name, NextIn(tree.log, cwd, k + 1);
        RestGoesOn(tree.log, cwd, k + 1);
        assert rest[1..] == NamesIn(tree.log, cwd, k + 1);
        if size - |Joined(taken)| < |t| + SLACK {
          AllTaken(NamesIn(tree.log, cwd, 0), taken, rest, size);
        } else {
          OneFits(NamesIn(tree.log, cwd, 0), taken, rest, size);
        }
      }
    }

    /** getsubdir_handler. */
    method GetSubdir(buf: array<char>)
      requires Valid() && buf !in tree.repr && 0 < buf.Length
      modifies buf
      ensures Valid() && Holds(buf[..], ListingOf(NamesIn(tree.log, cwd, 0), buf.Length))
    {
      hide *;
      Clear(buf);
      EmptyHolds(buf[..]);
      var delim := DelimArray();
      ghost var taken: seq<string> := [];
      ghost var k := FirstSubdir(buf.Length);
      var en := cwdn.firstchild;
      while en != null
        invariant Valid() && SubdirAt(taken, k, en, buf.Length) && Holds(buf[..], Joined(taken))
        invariant Named(delim[..], DELIM) && fresh(delim)
        decreases Rank(k, |tree.nodes|)
      {
        ghost var t, next := VisitSubdir(taken, k, en, buf.Length);
        var fits := AddEntry(buf, en.name, delim, Joined(taken), t);
        if !fits {
          return;
        }
        taken, k := taken + [t], next;
        en := en.nextSibling;
      }
      ghost var t, next := VisitSubdir(taken, k, en, buf.Length);
    }

    ghost predicate FileAt(taken: seq<string>, k: int, f: FileNode?, size: nat)
      reads this, tree
    {
      && NONE <= k < |tree.fileLog| == |tree.files| && (k != NONE ==> tree.fileLog[k].parent == cwd)
      && f == FilePtr(tree.files, k)
      && Listed(NamesIn(tree.fileLog, cwd, 0), taken, Rest(tree.fileLog, cwd, k), size)
    }

    lemma FirstFile(size: nat) returns (k: int)
      requires Valid()
      ensures FileAt([], k, cwdn.firstfile, size)
    {
      hide NextIn, NamesIn, Named, DirTree.Valid;
      tree.Node(cwd);
      RestGoesOn(tree.fileLog, cwd, 0);
      k := NextIn(tree.fileLog, cwd, 0);
    }

    lemma VisitFile(taken: seq<string>, k: int, f: FileNode?, size: nat) returns (t: string, next: int)
      requires Valid() && FileAt(taken, k, f, size)
      ensures f == null ==> Joined(taken) == ListingOf(NamesIn(tree.fileLog, cwd, 0), size)
      ensures f != null ==> Named(f.name[..], t) && f.name in tree.repr
      ensures f != null && size - |Joined(taken)| < |t| + SLACK ==>
        Joined(taken) == ListingOf(NamesIn(tree.fileLog, cwd, 0), size)
      ensures f != null && size - |Joined(taken)| >= |t| + SLACK ==>
        && FileAt(taken + [t], next, f.nextSibling, size) && Joined(taken + [t]) == Joined(taken) + t + DELIM
        && 0 <= Rank(next, |tree.files|) < Rank(k, |tree.files|)
    {
      hide NextIn, NamesIn, Named, Listed, Joined, DirTree.Valid;
      var rest := Rest(tree.fileLog, cwd, k);
      t, next := "", NONE;
      if k == NONE {
        AllTaken(NamesIn(tree.fileLog, cwd, 0), taken, rest, size);
      } else {
        tree.FileSibling(k);
        tree.OwnsFile(k);
        t, next := tree.fileLog[k].name, NextIn(tree.fileLog, cwd, k + 1);
        RestGoesOn(tree.fileLog, cwd, k + 1);
        assert rest[1..] == NamesIn(tree.fileLog, cwd, k + 1);
        if size - |Joined(taken)| < |t| + SLACK {
          AllTaken(NamesIn(tree.fileLog, cwd, 0), taken, rest, size);
        } else {
          OneFits(NamesIn(tree.fileLog, cwd, 0), taken, rest, size);
        }
      }
    }

    /** getfdir_handler. */
    method GetFdir(buf: array<char>)
      requires Valid() && buf !in tree.repr && 0 < buf.Length
      modifies buf
      ensures Valid() && Holds(buf[..], ListingOf(NamesIn(tree.fileLog, cwd, 0), buf.Length))
    {
      hide *;
      Clear(buf);
      EmptyHolds(buf[..]);
      var delim := DelimArray();
      ghost var taken: seq<string> := [];
      ghost var k := FirstFile(buf.Length);
      var f := cwdn.firstfile;
      while f != null
        invariant Valid() && FileAt(taken, k, f, buf.Length) && Holds(buf[..], Joined(taken))
        invariant Named(delim[..], DELIM) && fresh(delim)
        decreases Rank(k, |tree.files|)
      {
        ghost var t, next := VisitFile(taken, k, f, buf.Length);
        var fits := AddEntry(buf, f.name, delim, Joined(taken), t);
        if !fits {
          return;
        }
        taken, k := taken + [t], next;
        f := f.nextSibling;
      }
      ghost var t, next := VisitFile(taken, k, f, buf.Length);
    }

    /** lsdir: what it passes to put_str is what the listing of the subdirectories splits into, and then the same for the
        files.  No piece may overrun the token buffer. */
    method Lsdir() returns (shown: seq<string>)
      requires Valid()
      requires Short(Split(ListingOf(NamesIn(tree.log, cwd, 0), LS_BUF)))
      requires Short(Split(ListingOf(NamesIn(tree.fileLog, cwd, 0), LS_BUF)))
      ensures shown == Pieces(NamesIn(tree.log, cwd, 0)) + Pieces(NamesIn(tree.fileLog, cwd, 0))
      ensures AllPlain(NamesIn(tree.log, cwd, 0)) && AllPlain(NamesIn(tree.fileLog, cwd, 0)) ==>
                var dirs, files := NamesIn(tree.log, cwd, 0), NamesIn(tree.fileLog, cwd, 0);
                var k, j := Taken(dirs, 160, 0), Taken(files, 160, 0);
                && |shown| == (2 * k + 1) + (2 * j + 1)
                && Lists(shown, 0, dirs[..k]) && Lists(shown, 2 * k + 1, files[..j])
    {
      hide NamesIn, Split, PutStr, Taken, Joined, Short, ListingOf, Pieces, DirTree.Valid, AllPlain;
      var buf := new char[LS_BUF];
      Clear(buf);
      GetSubdir(buf);
      var delim := DelimArray();
      var token := new char[TOKEN_SIZE];
      var dirs := ShowListing(buf, delim, token, NamesIn(tree.log, cwd, 0));
      Clear(buf);
      GetFdir(buf);
      var files := ShowListing(buf, delim, token, NamesIn(tree.fileLog, cwd, 0));
      shown := dirs + files;
      if AllPlain(NamesIn(tree.log, cwd, 0)) && AllPlain(NamesIn(tree.fileLog, cwd, 0)) {
        PlainPieces(NamesIn(tree.log, cwd, 0));
        PlainPieces(NamesIn(tree.fileLog, cwd, 0));
      }
    }

    /** Where no name hides a delimiter and none is empty, lsdir can be called and shows the names that fit,
        subdirectories and then files, each on a line of its own. */
    lemma LsdirShowsNames()
      requires Valid() && AllPlain(NamesIn(tree.log, cwd, 0)) && AllPlain(NamesIn(tree.fileLog, cwd, 0))
      ensures Short(Split(ListingOf(NamesIn(tree.log, cwd, 0), LS_BUF)))
      ensures Short(Split(ListingOf(NamesIn(tree.fileLog, cwd, 0), LS_BUF)))
    {
      hide DirTree.Valid, NamesIn, AllPlain, ListingOf;
      AllShort();
      ShortPieces(NamesIn(tree.log, cwd, 0));
      ShortPieces(NamesIn(tree.fileLog, cwd, 0));
    }

    lemma AllShort()
      requires Valid()
      ensures Short(NamesIn(tree.log, cwd, 0)) && Short(NamesIn(tree.fileLog, cwd, 0))
    {
      hide DirTree.Valid;
      tree.ShortNames();
      NamesBelow(tree.log, cwd, 0, TOKEN_SIZE);
      NamesBelow(tree.fileLog, cwd, 0, TOKEN_SIZE);
    }

    /** The node at position j of the way up, or null past its end. */
    ghost predicate OnTrail(t: seq<nat>, j: nat, dir: DirNode?)
      reads tree
    {
      && j <= |t| && (forall i :: 0 <= i < |t| ==> t[i] < |tree.nodes|)
      && dir == if j < |t| then tree.nodes[t[j]] else null
    }

    lemma TrailStarts() returns (t: seq<nat>)
      requires Valid()
      ensures IsTree(tree.log) && cwd < |tree.log| && t == Trail(tree.log, cwd) && OnTrail(t, 0, cwdn)
    {
      hide DirTree.Valid, NextIn, Named;
      tree.Node(cwd);
      t := Trail(tree.log, cwd);
    }

    lemma TrailGoesOn(t: seq<nat>, j: nat, dir: DirNode)
      requires Valid() && IsTree(tree.log) && cwd < |tree.log| && t == Trail(tree.log, cwd) && OnTrail(t, j, dir)
      ensures j < |t| && OnTrail(t, j + 1, dir.parent)
    {
      hide DirTree.Valid, NextIn, Named, IsTree;
      tree.Node(t[j]);
    }

    lemma TrailEnds(t: seq<nat>, j: nat)
      requires Valid() && IsTree(tree.log) && cwd < |tree.log| && t == Trail(tree.log, cwd) && OnTrail(t, j, null)
      ensures j == |t|
    {
    }

    /** The walk of getfullpath_handler to the root, which fills dirwk and counts. */
    method Walk(dirwk: array<DirNode?>, ghost t: seq<nat>) returns (j: nat)
      requires Valid() && dirwk !in tree.repr && IsTree(tree.log) && cwd < |tree.log| && t == Trail(tree.log, cwd)
      requires OnTrail(t, 0, cwdn) && |t| <= dirwk.Length
      modifies dirwk
      ensures Valid() && j == |t| && forall i :: 0 <= i < j ==> OnTrail(t, i, dirwk[i])
    {
      hide *;
      var curdir: DirNode? := cwdn;
      j := 0;
      while curdir != null
        invariant Valid() && j <= |t| && OnTrail(t, j, curdir)
        invariant forall i :: 0 <= i < j ==> OnTrail(t, i, dirwk[i])
        decreases |t| - j
      {
        TrailGoesOn(t, j, curdir);
        dirwk[j] := curdir;
        curdir := curdir.parent;
        j := j + 1;
      }
      TrailEnds(t, j);
    }

    /** getfullpath_handler on a buffer that holds s. A short buffer is only warned of, so the room is the caller's
        business, as is the depth. */
    method GetFullPath(buf: array<char>, ghost s: string)
      requires Valid() && buf !in tree.repr && Named(buf[..], s) && IsTree(tree.log) && cwd < |tree.log|
      requires |Trail(tree.log, cwd)| <= 16 && |s| + |Path(tree.log, cwd)| < buf.Length
      modifies buf
      ensures Valid() && Named(buf[..], s + Path(tree.log, cwd))
    {
      hide DirTree.Valid, IsTree, Trail, NextIn, Path, Named, Backwards, OnTrail;
      ghost var t := TrailStarts();
      BackwardsIsPath(tree.log, cwd);
      var dirwk := new DirNode?[MAX_DEPTH](_ => null);
      var j := Walk(dirwk, t);
      Concatenate(buf, dirwk, j, t, s);
    }

    /** The text that the names from position j on contribute. */
    ghost predicate PathFrom(buf: seq<char>, t: seq<nat>, j: nat, s: string)
      reads tree
    {
      && j <= |t| && (forall i :: 0 <= i < |t| ==> t[i] < |tree.log|)
      && Named(buf, s + Backwards(tree.log, t[j..]))
    }

    /** Its second loop, from the root down. */
    method Concatenate(buf: array<char>, dirwk: array<DirNode?>, level: nat, ghost t: seq<nat>, ghost s: string)
      requires Valid() && buf !in tree.repr && Named(buf[..], s) && level == |t| <= dirwk.Length
      requires forall i :: 0 <= i < |t| ==> t[i] < |tree.log|
      requires forall i :: 0 <= i < level ==> OnTrail(t, i, dirwk[i])
      requires |s| + |Backwards(tree.log, t)| < buf.Length
      modifies buf
      ensures Valid() && Named(buf[..], s + Backwards(tree.log, t))
    {
      hide *;
      PathStarts(buf[..], t, s);
      var j: int := level - 1;
      while j >= 0
        invariant -1 <= j < level && Valid() && PathFrom(buf[..], t, j + 1, s)
      {
        AppendName(buf, dirwk[j], t, j, s);
        j := j - 1;
      }
      PathEnds(buf[..], t, s);
    }

    lemma PathStarts(buf: seq<char>, t: seq<nat>, s: string)
      requires Named(buf, s) && forall i :: 0 <= i < |t| ==> t[i] < |tree.log|
      ensures PathFrom(buf, t, |t|, s)
    {
      hide Named;
      assert s + Backwards(tree.log, []) == s;
    }

    lemma PathEnds(buf: seq<char>, t: seq<nat>, s: string)
      requires PathFrom(buf, t, 0, s)
      ensures (forall i :: 0 <= i < |t| ==> t[i] < |tree.log|) && Named(buf, s + Backwards(tree.log, t))
    {
      assert t[0..] == t;
    }

    method AppendName(buf: array<char>, dir: DirNode?, ghost t: seq<nat>, ghost j: nat, ghost s: string)
      requires Valid() && buf !in tree.repr && j < |t| && PathFrom(buf[..], t, j + 1, s) && OnTrail(t, j, dir)
      requires |s| + |Backwards(tree.log, t)| < buf.Length
      modifies buf
      ensures Valid() && PathFrom(buf[..], t, j, s)
    {
      hide DirTree.Valid, Named, Backwards;
      ghost var b := Backwards(tree.log, t[j + 1..]);
      NameAt(t, j, s, dir);
      Append(buf, dir.name, s + b, tree.log[t[j]].name);
    }

    lemma NameAt(t: seq<nat>, j: nat, s: string, dir: DirNode?)
      requires Valid() && j < |t| && OnTrail(t, j, dir) && forall i :: 0 <= i < |t| ==> t[i] < |tree.log|
      ensures dir != null && dir.name in tree.repr && Named(dir.name[..], tree.log[t[j]].name)
      ensures var b := Backwards(tree.log, t[j + 1..]);
              && s + Backwards(tree.log, t[j..]) == s + b + tree.log[t[j]].name
              && |b| + |tree.log[t[j]].name| <= |Backwards(tree.log, t)|
    {
      hide DirTree.Valid, NextIn, Named;
      tree.Node(t[j]);
      tree.Owns(t[j]);
      assert t[j..][1..] == t[j + 1..];
      BackwardsSuffix(tree.log, t, j);
    }
  }

  /** What lsdir shows of a list of names. */
  function Pieces(names: seq<string>): seq<string> {
    PutStr(Split(ListingOf(names, LS_BUF)))
  }

  /** No name is empty and none hides a delimiter. */
  predicate AllPlain(names: seq<string>) {
    AllWhole(names) && "" !in names
  }

  lemma ShortPieces(names: seq<string>)
    requires AllPlain(names) && Short(names)
    ensures Short(Split(ListingOf(names, LS_BUF)))
  {
    hide Split, ListingOf, Taken, Whole;
    ListingSplits(names, LS_BUF);
  }

  lemma PlainPieces(names: seq<string>)
    requires AllPlain(names)
    ensures var k := Taken(names, LS_BUF, 0);
            |Pieces(names)| == 2 * k + 1 && Lists(Pieces(names), 0, names[..k])
  {
    hide Split, ListingOf, Taken, PutStr, Whole;
    ListingSplits(names, LS_BUF);
    OneLineEach(names[..Taken(names, LS_BUF, 0)]);
  }

  method ShowListing(buf: array<char>, delim: array<char>, token: array<char>, ghost names: seq<string>)
    returns (shown: seq<string>)
    requires buf.Length == LS_BUF && Holds(buf[..], ListingOf(names, LS_BUF)) && Short(Split(ListingOf(names, LS_BUF)))
    requires delim != token && token != buf && token.Length == TOKEN_SIZE
    requires Delimiter(delim[..], 2) && Named(delim[..], DELIM)
    modifies token
    ensures shown == Pieces(names)
  {
    ListingSplits(names, LS_BUF);
    hide Split, ListingOf, PutStr, Holds, Short, Delimiter, Named;
    shown := ShowNames(buf, delim, token, ListingOf(names, LS_BUF));
  }

  lemma EmptyHolds(buf: seq<char>)
    requires 0 < |buf| && forall k :: 0 <= k < |buf| ==> buf[k] == NUL
    ensures Holds(buf, Joined([]))
  {
  }
}
