/** The directory tree as the record of its creations: entry i is the i-th node made, with the number of its parent.
    Every list that kernel/file.c threads through the nodes is a function of that record. */
module Paths {
  datatype Entry = Entry(parent: int, name: string)

  const NONE: int := -1
  const UP: string := ".."

  /** Entry 0 is the root, and every other entry hangs under an earlier one. */
  predicate IsTree(log: seq<Entry>) {
    forall i :: 0 <= i < |log| ==> if i == 0 then log[i].parent == NONE else 0 <= log[i].parent < i
  }

  lemma TreeSnoc(log: seq<Entry>, e: Entry)
    requires IsTree(log) && 0 <= e.parent < |log|
    ensures IsTree(log + [e])
  {
  }

  /** The first entry from number from on that hangs under p, or NONE. */
  function NextIn(log: seq<Entry>, p: int, from: nat): (k: int)
    ensures k == NONE || (from <= k < |log| && log[k].parent == p)
    ensures forall j :: from <= j < |log| && (k == NONE || j < k) ==> log[j].parent != p
    decreases |log| - from
  {
    if from >= |log| then NONE else if log[from].parent == p then from else NextIn(log, p, from + 1)
  }

  /** The same, among the entries that carry the given name. */
  function FindIn(log: seq<Entry>, p: int, name: string, from: nat): (k: int)
    ensures k == NONE || (from <= k < |log| && log[k].parent == p && log[k].name == name)
    ensures forall j :: from <= j < |log| && (k == NONE || j < k) ==> !(log[j].parent == p && log[j].name == name)
    decreases |log| - from
  {
    if from >= |log| then NONE
    else if log[from].parent == p && log[from].name == name then from
    else FindIn(log, p, name, from + 1)
  }

  /** The first entry with the name, wherever it hangs. */
  function FindNamed(log: seq<Entry>, name: string, from: nat): (k: int)
    ensures k == NONE || (from <= k < |log| && log[k].name == name)
    ensures forall j :: from <= j < |log| && (k == NONE || j < k) ==> log[j].name != name
    decreases |log| - from
  {
    if from >= |log| then NONE else if log[from].name == name then from else FindNamed(log, name, from + 1)
  }

  function NamesIn(log: seq<Entry>, p: int, from: nat): seq<string>
    decreases |log| - from
  {
    if from >= |log| then []
    else (if log[from].parent == p then [log[from].name] else []) + NamesIn(log, p, from + 1)
  }

  /** A search or a listing along the list visits the entries that NextIn gives. */
  lemma {:induction false} Along(log: seq<Entry>, p: int, name: string, from: nat)
    ensures var k := NextIn(log, p, from);
            && (k == NONE ==> FindIn(log, p, name, from) == NONE && NamesIn(log, p, from) == [])
            && (k != NONE ==>
                  && FindIn(log, p, name, from) == (if log[k].name == name then k else FindIn(log, p, name, k + 1))
                  && NamesIn(log, p, from) == [log[k].name] + NamesIn(log, p, k + 1))
    decreases |log| - from
  {
    if from < |log| && log[from].parent != p {
      Along(log, p, name, from + 1);
    }
  }

  /** A search along the list of p that has come to entry k, or to its end. */
  predicate Searching(log: seq<Entry>, p: int, name: string, k: int) {
    && NONE <= k < |log| && (k != NONE ==> log[k].parent == p)
    && FindIn(log, p, name, 0) ==
       if k == NONE then NONE else if log[k].name == name then k else FindIn(log, p, name, k + 1)
  }

  lemma SearchStarts(log: seq<Entry>, p: int, name: string)
    ensures Searching(log, p, name, NextIn(log, p, 0))
  {
    Along(log, p, name, 0);
  }

  lemma SearchGoesOn(log: seq<Entry>, p: int, name: string, k: int)
    requires Searching(log, p, name, k)
    ensures NONE <= k < |log| && (k != NONE ==> log[k].parent == p)
    ensures k == NONE || log[k].name == name ==> FindIn(log, p, name, 0) == k
    ensures k != NONE && log[k].name != name ==> Searching(log, p, name, NextIn(log, p, k + 1))
    ensures k != NONE ==> NextIn(log, p, k + 1) == NONE || k < NextIn(log, p, k + 1) < |log|
  {
    if k != NONE {
      Along(log, p, name, k + 1);
    }
  }

  /** The names from entry k of a list on. */
  function Rest(log: seq<Entry>, p: int, k: int): seq<string>
    requires NONE <= k < |log|
  {
    if k == NONE then [] else [log[k].name] + NamesIn(log, p, k + 1)
  }

  lemma RestGoesOn(log: seq<Entry>, p: int, from: nat)
    ensures NextIn(log, p, from) < |log| && Rest(log, p, NextIn(log, p, from)) == NamesIn(log, p, from)
  {
    Along(log, p, "", from);
  }

  lemma {:induction false} NamesBelow(log: seq<Entry>, p: int, from: nat, n: nat)
    requires forall i :: 0 <= i < |log| ==> |log[i].name| < n
    ensures forall t :: t in NamesIn(log, p, from) ==> |t| < n
    decreases |log| - from
  {
    if from < |log| {
      NamesBelow(log, p, from + 1, n);
    }
  }

  /** A new entry comes at the end of the list of its parent, and changes no other list. */
  lemma {:induction false} NextInSnoc(log: seq<Entry>, e: Entry, p: int, from: nat)
    requires from <= |log|
    ensures NextIn(log + [e], p, from) ==
            if NextIn(log, p, from) != NONE then NextIn(log, p, from) else if e.parent == p then |log| else NONE
    decreases |log| - from
  {
    if from < |log| {
      NextInSnoc(log, e, p, from + 1);
    }
  }

  /** In the listing of its parent a new entry comes last, and it is in no other listing. */
  lemma {:induction false} NamesSnoc(log: seq<Entry>, e: Entry, p: int, from: nat)
    requires from <= |log|
    ensures NamesIn(log + [e], p, from) == NamesIn(log, p, from) + if e.parent == p then [e.name] else []
    decreases |log| - from
  {
    if from < |log| {
      NamesSnoc(log, e, p, from + 1);
    }
  }

  /** What the new entry changes in the links of entry i. */
  lemma LinksSnoc(log: seq<Entry>, e: Entry, i: nat)
    requires i < |log|
    ensures NextIn(log + [e], i, 0) == if NextIn(log, i, 0) == NONE && i == e.parent then |log| else NextIn(log, i, 0)
    ensures NextIn(log + [e], log[i].parent, i + 1) ==
            if NextIn(log, log[i].parent, i + 1) == NONE && log[i].parent == e.parent then |log|
            else NextIn(log, log[i].parent, i + 1)
  {
    NextInSnoc(log, e, i, 0);
    NextInSnoc(log, e, log[i].parent, i + 1);
  }

  /** The new entry has no successor and nothing hangs under it. */
  lemma NewestLinks(log: seq<Entry>, e: Entry)
    requires forall j :: 0 <= j < |log| ==> log[j].parent < |log|
    requires e.parent < |log|
    ensures NextIn(log + [e], |log|, 0) == NONE && NextIn(log + [e], e.parent, |log| + 1) == NONE
  {
    NextInSnoc(log, e, |log|, 0);
  }

  lemma OneLast(log: seq<Entry>, p: int, end: nat, i: nat)
    requires end < |log| && log[end].parent == p && NextIn(log, p, end + 1) == NONE
    requires i < |log| && log[i].parent == p
    ensures NextIn(log, p, i + 1) == NONE <==> i == end
  {
  }

  /** Where chdir leads from directory i: after any name but "..", to an entry from which ".." leads back. */
  function Target(log: seq<Entry>, i: nat, name: string): (t: int)
    requires IsTree(log) && i < |log|
    ensures t == NONE || 0 <= t < |log|
    ensures name != UP && t != NONE ==> log[t].parent == i
  {
    if name == UP then log[i].parent else FindIn(log, i, name, 0)
  }

  /** chdir up and then to the name of the directory left leads back exactly if the name is not "..", and no directory
      made earlier beside it has the same name. */
  lemma UpDown(log: seq<Entry>, i: nat)
    requires IsTree(log) && 0 < i < |log|
    ensures Target(log, log[i].parent, log[i].name) == i <==>
            log[i].name != UP && forall j :: 0 <= j < i ==> !(log[j].parent == log[i].parent && log[j].name == log[i].name)
  {
    var p := log[i].parent;
    if log[i].name == UP {
      assert Target(log, p, UP) < i;
    }
  }

  /** Of two directories of the same name, the second cannot be returned to. */
  lemma UpDownFails()
    ensures var log := [Entry(NONE, "/root"), Entry(0, "/a"), Entry(0, "/a")];
            IsTree(log) && Target(log, 2, UP) == 0 && Target(log, 0, "/a") == 1
  {
    var log := [Entry(NONE, "/root"), Entry(0, "/a"), Entry(0, "/a")];
    assert log[1] == Entry(0, "/a");
  }

  /** The numbers of the entries from i up to the root. */
  function Trail(log: seq<Entry>, i: nat): (t: seq<nat>)
    requires IsTree(log) && i < |log|
    ensures t != [] && t[0] == i && forall j :: 0 <= j < |t| ==> t[j] < |log|
    ensures log[t[|t| - 1]].parent == NONE && forall j :: 0 <= j < |t| - 1 ==> log[t[j]].parent == t[j + 1]
    decreases i
  {
    if log[i].parent == NONE then [i] else [i] + Trail(log, log[i].parent)
  }

  function Path(log: seq<Entry>, i: nat): string
    requires IsTree(log) && i < |log|
    decreases i
  {
    if log[i].parent == NONE then log[i].name else Path(log, log[i].parent) + log[i].name
  }

  /** The names along a trail, from its far end back to its start. */
  function Backwards(log: seq<Entry>, t: seq<nat>): string
    requires forall j :: 0 <= j < |t| ==> t[j] < |log|
  {
    if t == [] then "" else Backwards(log, t[1..]) + log[t[0]].name
  }

  /** Walking to the root and concatenating on the way back gives the path. */
  lemma {:induction false} BackwardsIsPath(log: seq<Entry>, i: nat)
    requires IsTree(log) && i < |log|
    ensures Backwards(log, Trail(log, i)) == Path(log, i)
    decreases i
  {
    if log[i].parent == NONE {
      assert [i][1..] == [];
      assert Backwards(log, []) + log[i].name == log[i].name;
    } else {
      BackwardsIsPath(log, log[i].parent);
      assert Trail(log, i)[1..] == Trail(log, log[i].parent);
    }
  }

  lemma {:induction false} BackwardsSuffix(log: seq<Entry>, t: seq<nat>, j: nat)
    requires j <= |t| && forall i :: 0 <= i < |t| ==> t[i] < |log|
    ensures |Backwards(log, t[j..])| <= |Backwards(log, t)|
    decreases j
  {
    if j == 0 {
      assert t[0..] == t;
    } else {
      BackwardsSuffix(log, t[1..], j - 1);
      assert t[1..][j - 1..] == t[j..];
    }
  }

  /** The form of the kernel's names: a slash and then text without slashes. */
  predicate Slashed(name: string) {
    name != "" && name[0] == '/' && '/' !in name[1..]
  }

  predicate AllSlashed(log: seq<Entry>) {
    forall i :: 0 <= i < |log| ==> Slashed(log[i].name)
  }

  predicate SiblingsDiffer(log: seq<Entry>) {
    forall i, j :: 0 <= i < j < |log| && log[i].parent == log[j].parent ==> log[i].name != log[j].name
  }

  predicate PathsDiffer(log: seq<Entry>)
    requires IsTree(log)
  {
    forall i, j :: 0 <= i < j < |log| ==> Path(log, i) != Path(log, j)
  }

  lemma LastComponent(a: string, n: string, b: string, m: string)
    requires Slashed(n) && Slashed(m) && a + n == b + m
    ensures a == b && n == m
  {
    SlashFirst(n);
    SlashFirst(m);
    assert (a + n)[|a|] == '/' && (b + m)[|b|] == '/';
    assert |a| == |b|;
    assert (a + n)[..|a|] == a && (a + n)[|a|..] == n && (b + m)[..|b|] == b && (b + m)[|b|..] == m;
  }

  lemma SlashFirst(n: string)
    requires Slashed(n)
    ensures forall k :: 0 <= k < |n| ==> (n[k] == '/' <==> k == 0)
  {
    forall k | 0 < k < |n| ensures n[k] != '/' {
      assert n[k] == n[1..][k - 1];
    }
  }

  lemma {:induction false} SamePathSameEntry(log: seq<Entry>, i: nat, j: nat)
    requires IsTree(log) && AllSlashed(log) && SiblingsDiffer(log) && i < |log| && j < |log|
    requires Path(log, i) == Path(log, j)
    ensures i == j
    decreases i + j
  {
    var a := if i == 0 then "" else Path(log, log[i].parent);
    var b := if j == 0 then "" else Path(log, log[j].parent);
    assert Path(log, i) == a + log[i].name && Path(log, j) == b + log[j].name;
    LastComponent(a, log[i].name, b, log[j].name);
    if i != 0 && j != 0 {
      SamePathSameEntry(log, log[i].parent, log[j].parent);
    } else if i != 0 {
      PathIsNonEmpty(log, log[i].parent);
    } else if j != 0 {
      PathIsNonEmpty(log, log[j].parent);
    }
  }

  lemma PathIsNonEmpty(log: seq<Entry>, i: nat)
    requires IsTree(log) && AllSlashed(log) && i < |log|
    ensures Path(log, i) != ""
  {
  }

  /** With names of that form, the full path identifies the directory exactly when sibling names differ. */
  lemma PathsDifferExactly(log: seq<Entry>)
    requires IsTree(log) && AllSlashed(log)
    ensures PathsDiffer(log) <==> SiblingsDiffer(log)
  {
    if SiblingsDiffer(log) {
      forall i, j | 0 <= i < j < |log| ensures Path(log, i) != Path(log, j) {
        if Path(log, i) == Path(log, j) {
          SamePathSameEntry(log, i, j);
        }
      }
    }
    if PathsDiffer(log) {
      forall i, j | 0 <= i < j < |log| && log[i].parent == log[j].parent ensures log[i].name != log[j].name {
        assert Path(log, i) != Path(log, j);
      }
    }
  }

  /** chdir to each name in turn; NONE once one is not found. */
  function Follow(log: seq<Entry>, i: int, names: seq<string>): (t: int)
    requires IsTree(log) && (i == NONE || 0 <= i < |log|)
    ensures t == NONE || 0 <= t < |log|
    decreases |names|
  {
    if names == [] then i
    else
      var j := Follow(log, i, names[..|names| - 1]);
      if j == NONE then NONE else Target(log, j, names[|names| - 1])
  }

  /** The names below the root on the way to i. */
  function Components(log: seq<Entry>, i: nat): seq<string>
    requires IsTree(log) && i < |log|
    decreases i
  {
    if log[i].parent == NONE then [] else Components(log, log[i].parent) + [log[i].name]
  }

  /** The components of the path lead from the root back to the directory. */
  lemma {:induction false} FollowComponents(log: seq<Entry>, i: nat)
    requires IsTree(log) && AllSlashed(log) && SiblingsDiffer(log) && i < |log|
    ensures Follow(log, 0, Components(log, i)) == i
    decreases i
  {
    if i != 0 {
      var p := log[i].parent;
      FollowComponents(log, p);
      UpDown(log, i);
      assert (Components(log, p) + [log[i].name])[..|Components(log, p)|] == Components(log, p);
    }
  }

  /** n times up. */
  function Ups(n: nat): (names: seq<string>)
    ensures |names| == n && forall j :: 0 <= j < n ==> names[j] == ".."
  {
    seq(n, _ => "..")
  }

  /** Going up follows the way to the root, entry by entry, and fails past its end. */
  lemma {:induction false} UpsFollowTrail(log: seq<Entry>, i: nat, n: nat)
    requires IsTree(log) && i < |log|
    ensures Follow(log, i, Ups(n)) == if n < |Trail(log, i)| then Trail(log, i)[n] else -1
    decreases n
  {
    if n != 0 {
      UpsFollowTrail(log, i, n - 1);
      assert Ups(n)[..n - 1] == Ups(n - 1);
    }
  }

  /** Going down by any names but "..", if that succeeds, and then up as many times leads back; going up first is the
      harder way round (UpDown). */
  lemma {:induction false} DownUp(log: seq<Entry>, i: nat, names: seq<string>)
    requires IsTree(log) && i < |log| && ".." !in names && Follow(log, i, names) != -1
    ensures Follow(log, Follow(log, i, names), Ups(|names|)) == i
    decreases |names|
  {
    if names != [] {
      var up, name := names[..|names| - 1], names[|names| - 1];
      var j := Follow(log, i, up);
      DownUp(log, i, up);
      UpFirst(log, Target(log, j, name), |up|);
    }
  }

  lemma UpFirst(log: seq<Entry>, i: nat, n: nat)
    requires IsTree(log) && i < |log| && log[i].parent != NONE
    ensures Follow(log, i, Ups(n + 1)) == Follow(log, log[i].parent, Ups(n))
  {
    hide Follow, Ups;
    var p := log[i].parent;
    UpsFollowTrail(log, i, n + 1);
    UpsFollowTrail(log, p, n);
    assert Trail(log, i) == [i] + Trail(log, p);
  }

  /** A successful chdir down adds the name to the full path, and one up removes the last name from it. */
  lemma PathAfterChdir(log: seq<Entry>, i: nat, name: string)
    requires IsTree(log) && i < |log| && Target(log, i, name) != -1
    ensures var t := Target(log, i, name);
            if name == ".." then Path(log, i) == Path(log, t) + log[i].name else Path(log, t) == Path(log, i) + name
  {
  }

  /** Every directory on the way to the root has a prefix of the path, the root its own name. */
  lemma {:induction false} AncestorsPrefix(log: seq<Entry>, i: nat, j: nat)
    requires IsTree(log) && i < |log| && j < |Trail(log, i)|
    ensures Path(log, Trail(log, i)[j]) <= Path(log, i) && log[0].name <= Path(log, i)
    decreases i
  {
    if i != 0 {
      var p := log[i].parent;
      AncestorsPrefix(log, p, if j == 0 then 0 else j - 1);
      assert Path(log, p) <= Path(log, i);
    }
  }
}
