/** The listing of a directory: names that the kernel joins with ";;" in a caller's buffer and lsdir splits again. */
module Listing {
  import opened Strings

  const DELIM: string := ";;"
  /** sizeof(delim), of a char pointer, that the space check adds to the length of a name. */
  const SLACK: nat := 4

  function Joined(names: seq<string>): string {
    if names == [] then "" else names[0] + DELIM + Joined(names[1..])
  }

  /** The pieces between delimiters. */
  function Split(s: string): (ts: seq<string>)
    ensures ts != []
    decreases |s|
  {
    var k := First(s, DELIM);
    if k < |s| then [s[..k]] + Split(s[k + |DELIM|..]) else [s]
  }

  /** No semicolon of the name is followed by another one or ends it. */
  predicate Whole(name: string) {
    forall j :: 0 <= j < |name| ==> !(name[j] == ';' && (j + 1 == |name| || name[j + 1] == ';'))
  }

  /** The delimiter starts inside a name only where Whole forbids it. */
  lemma AtInEntry(name: string, rest: string, j: nat)
    requires j < |name|
    ensures At(name + DELIM + rest, DELIM, j) <==> name[j] == ';' && (j + 1 == |name| || name[j + 1] == ';')
  {
    var s := name + DELIM + rest;
    assert s[j..j + 2] == [s[j], s[j + 1]];
    assert s[j] == name[j] && s[j + 1] == if j + 1 == |name| then ';' else name[j + 1];
  }

  lemma AtEntryEnd(name: string, rest: string)
    ensures At(name + DELIM + rest, DELIM, |name|)
  {
    assert (name + DELIM + rest)[|name|..|name| + 2] == DELIM;
  }

  lemma FirstInEntry(name: string, rest: string)
    ensures First(name + DELIM + rest, DELIM) <= |name|
    ensures First(name + DELIM + rest, DELIM) == |name| <==> Whole(name)
  {
    hide First, At;
    var s := name + DELIM + rest;
    AtEntryEnd(name, rest);
    if Whole(name) {
      forall j | 0 <= j < |name| ensures !At(s, DELIM, j) {
        assert !(name[j] == ';' && (j + 1 == |name| || name[j + 1] == ';'));
        AtInEntry(name, rest, j);
      }
      FirstIs(s, DELIM, |name|);
    } else {
      var j :| 0 <= j < |name| && name[j] == ';' && (j + 1 == |name| || name[j + 1] == ';');
      AtInEntry(name, rest, j);
    }
  }

  /** Splitting gives back the names that were joined, and one empty piece, exactly when no name can be cut or run into
      its delimiter. */
  lemma {:induction false} RoundTrip(names: seq<string>)
    ensures Split(Joined(names)) == names + [""] <==> AllWhole(names)
  {
    hide *;
    if names == [] {
      NothingJoined();
    } else {
      RoundTrip(names[1..]);
      RoundTripCons(names);
    }
  }

  lemma NothingJoined()
    ensures Split(Joined([])) == [""] && AllWhole([]) && [] + [""] == [""]
  {
  }

  lemma RoundTripCons(names: seq<string>)
    requires names != []
    requires Split(Joined(names[1..])) == names[1..] + [""] <==> AllWhole(names[1..])
    ensures Split(Joined(names)) == names + [""] <==> AllWhole(names)
  {
    hide *;
    JoinedHead(names);
    SplitEntry(names[0], Joined(names[1..]));
    WholeHead(names);
    SameTails(names[0], Split(Joined(names[1..])), names[1..] + [""]);
  }

  lemma JoinedHead(names: seq<string>)
    requires names != []
    ensures Joined(names) == names[0] + DELIM + Joined(names[1..])
    ensures names + [""] == [names[0]] + (names[1..] + [""])
  {
  }

  /** A name that ends in a semicolon is cut, and its rest runs into the next name. */
  lemma RoundTripFails()
    ensures Split(Joined(["a;", "b"])) == ["a", ";b", ""]
  {
    hide First, At, Split, Joined;
    JoinedPair("a;", "b");
    assert "a;" + DELIM + ("b" + DELIM + "") == "a;;;b;;";
    CutAtOne();
    CutAtTwo();
    SplitEmpty();
    assert ["a"] + ([";b"] + [""]) == ["a", ";b", ""];
  }

  lemma CutAtOne()
    ensures Split("a;;;b;;") == ["a"] + Split(";b;;")
  {
    var s := "a;;;b;;";
    assert s[0..2][0] == 'a' && s[1..3] == DELIM;
    FirstIs(s, DELIM, 1);
    SplitOnce(s);
    assert s[3..] == ";b;;" && s[..1] == "a";
  }

  lemma CutAtTwo()
    ensures Split(";b;;") == [";b"] + Split("")
  {
    var t := ";b;;";
    assert t[0..2][1] == 'b' && t[1..3][0] == 'b' && t[2..4] == DELIM;
    FirstIs(t, DELIM, 2);
    SplitOnce(t);
    assert t[4..] == "" && t[..2] == ";b";
  }

  lemma JoinedPair(a: string, b: string)
    ensures Joined([a, b]) == a + DELIM + (b + DELIM + "")
  {
    assert [a, b][1..] == [b] && [b][1..] == [];
    assert Joined([b]) == b + DELIM + Joined([]);
  }

  lemma SplitOnce(s: string)
    requires First(s, DELIM) < |s|
    ensures Split(s) == [s[..First(s, DELIM)]] + Split(s[First(s, DELIM) + 2..])
  {
    hide First;
  }

  lemma SplitEmpty()
    ensures Split("") == [""]
  {
  }

  predicate AllWhole(names: seq<string>) {
    forall n :: n in names ==> Whole(n)
  }

  lemma WholeHead(names: seq<string>)
    requires names != []
    ensures AllWhole(names) <==> Whole(names[0]) && AllWhole(names[1..])
  {
    assert names == [names[0]] + names[1..];
  }

  lemma SameTails(x: string, a: seq<string>, b: seq<string>)
    ensures [x] + a == [x] + b <==> a == b
  {
    assert ([x] + a)[1..] == a && ([x] + b)[1..] == b;
  }

  lemma SplitEntry(name: string, rest: string)
    ensures Whole(name) ==> Split(name + DELIM + rest) == [name] + Split(rest)
    ensures !Whole(name) ==> |Split(name + DELIM + rest)[0]| < |name|
  {
    hide First, Whole;
    FirstInEntry(name, rest);
    var s := name + DELIM + rest;
    assert s[|name| + 2..] == rest && s[..|name|] == name;
  }

  /** How many of the names the loop of the handler appends, with used characters in a buffer of the given size. */
  function Taken(names: seq<string>, size: nat, used: nat): (k: nat)
    requires used <= size
    ensures k <= |names|
    decreases |names|
  {
    if names == [] || size - used < |names[0]| + SLACK then 0
    else 1 + Taken(names[1..], size, used + |names[0]| + |DELIM|)
  }

  /** The names taken are the longest prefix whose listing leaves two characters free. */
  lemma {:induction false} TakesLongestPrefix(names: seq<string>, size: nat, used: nat, k: nat)
    requires used <= size && k <= |names|
    ensures k <= Taken(names, size, used) <==> k == 0 || used + |Joined(names[..k])| + 2 <= size
    decreases |names|
  {
    if k != 0 {
      var next := used + |names[0]| + |DELIM|;
      assert names[..k][1..] == names[1..][..k - 1];
      if size - used < |names[0]| + SLACK {
        assert used + |Joined(names[..k])| + 2 > size;
      } else {
        TakesLongestPrefix(names[1..], size, next, k - 1);
        if k == 1 {
          assert names[..k][1..] == [];
        }
      }
    }
  }

  lemma {:induction false} JoinedSnoc(names: seq<string>, name: string)
    ensures Joined(names + [name]) == Joined(names) + name + DELIM
  {
    if names == [] {
      assert Joined([name]) == name + DELIM + Joined([]);
    } else {
      assert (names + [name])[1..] == names[1..] + [name];
      JoinedSnoc(names[1..], name);
    }
  }

  /** A buffer that holds s and nothing else. */
  ghost predicate Holds(buf: seq<char>, s: string) {
    && |s| < |buf| && buf[..|s|] == s && NUL !in s
    && forall k :: |s| <= k < |buf| ==> buf[k] == NUL
  }

  lemma HeldString(buf: seq<char>, s: string, at: nat)
    requires Holds(buf, s) && at <= |s|
    ensures Terminated(buf, at) && CStr(buf, at) == s[at..]
  {
    CStrIs(buf, at, s[at..]);
  }

  method DelimArray() returns (delim: array<char>)
    ensures fresh(delim) && Delimiter(delim[..], 2) && Named(delim[..], DELIM)
  {
    delim := new char[][';', ';', NUL, NUL];
    CStrIs(delim[..], 0, DELIM);
  }

  /** The body of the loops of getsubdir_handler and getfdir_handler: the space check and the two appends. */
  method AddEntry(buf: array<char>, name: array<char>, delim: array<char>, ghost s: string, ghost n: string)
    returns (fits: bool)
    requires buf != name && buf != delim && Holds(buf[..], s)
    requires Named(name[..], n) && Named(delim[..], DELIM)
    modifies buf
    ensures fits <==> buf.Length - |s| >= |n| + SLACK
    ensures Holds(buf[..], if fits then s + n + DELIM else s)
  {
    ghost var x := buf[..];
    HeldString(x, s, 0);
    hide CStr, Terminated;
    var used := Strlen(buf, 0);
    var len := Strlen(name, 0);
    if buf.Length - used < len + SLACK {
      return false;
    }
    Strcat(buf, 0, name, 0);
    ghost var y := buf[..];
    Strcat(buf, 0, delim, 0);
    HoldsMore(x, s, n, y);
    HoldsMore(y, s + n, DELIM, buf[..]);
    fits := true;
  }

  /** _strcat on strings known by their text. */
  method Append(dest: array<char>, src: array<char>, ghost d: string, ghost s: string)
    requires dest != src && Named(dest[..], d) && Named(src[..], s) && |d| + |s| < dest.Length
    modifies dest
    ensures Named(dest[..], d + s)
  {
    hide CStr, Terminated;
    Strcat(dest, 0, src, 0);
  }

  lemma HoldsMore(x: seq<char>, s: string, n: string, y: seq<char>)
    requires Holds(x, s) && NUL !in n && |s| + |n| < |x| == |y|
    requires Terminated(y, 0) && CStr(y, 0) == s + n && y[|s| + |n| + 1..] == x[|s| + |n| + 1..]
    ensures Holds(y, s + n)
  {
    forall k | |s + n| <= k < |y| ensures y[k] == NUL {
      if k > |s + n| {
        assert y[k] == y[|s| + |n| + 1..][k - |s| - |n| - 1];
      }
    }
  }

  /** What lsdir passes to put_str for the tokens: a line break and the text of each, an empty one without the break. */
  function PutStr(tokens: seq<string>): seq<string> {
    if tokens == [] then []
    else
      var t := tokens[|tokens| - 1];
      PutStr(tokens[..|tokens| - 1]) + if t == "" then [""] else ["\r\n", t]
  }

  /** The texts at and after position at of shown are a line break and a name for each of the names, and an empty one. */
  predicate Lists(shown: seq<string>, at: nat, names: seq<string>) {
    && at + 2 * |names| < |shown| && shown[at + 2 * |names|] == ""
    && forall i :: 0 <= i < |names| ==> shown[at + 2 * i] == "\r\n" && shown[at + 2 * i + 1] == names[i]
  }

  /** For names that are not empty this is one line each, and one empty text. */
  lemma {:induction false} OneLineEach(names: seq<string>)
    requires "" !in names
    ensures |PutStr(names)| == 2 * |names|
    ensures |PutStr(names + [""])| == 2 * |names| + 1 && Lists(PutStr(names + [""]), 0, names)
  {
    assert (names + [""])[..|names|] == names;
    if names != [] {
      var front, last := names[..|names| - 1], names[|names| - 1];
      OneLineEach(front);
      assert (front + [""])[..|front|] == front;
      assert Lists(PutStr(front) + [""], 0, front);
      assert PutStr(names) == PutStr(front) + ["\r\n", last];
      assert forall i :: 0 <= i < |front| ==> front[i] == names[i];
    }
  }

  const TOKEN_SIZE: nat := 16

  /** Each of the tokens fits the token buffer, with its terminator. */
  predicate Short(tokens: seq<string>) {
    forall t :: t in tokens ==> |t| < TOKEN_SIZE
  }

  /** A loop of lsdir over a buffer that holds s, with at least one zero to spare. */
  method ShowNames(buf: array<char>, delim: array<char>, token: array<char>, ghost s: string)
    returns (shown: seq<string>)
    requires Holds(buf[..], s) && |s| + 2 <= buf.Length
    requires delim != token && token != buf && token.Length == TOKEN_SIZE
    requires Delimiter(delim[..], 2) && CStr(delim[..], 0) == DELIM
    requires Short(Split(s))
    modifies token
    ensures shown == PutStr(Split(s))
  {
    ghost var x, e := buf[..], delim[..];
    ghost var tokens: seq<string> := [];
    shown := [];
    var start := 0;
    hide *;
    Begins(s);
    while start != NULL
      invariant buf[..] == x && delim[..] == e
      invariant Progress(s, start, tokens, shown)
      decreases Left(s, start)
    {
      InProgress(x, s, start, tokens, shown);
      var next, put := NextToken(buf, start, delim, token, x, e);
      ghost var t := CStr(token[..], 0);
      Advances(s, start, tokens, shown, t, next, put);
      start, shown, tokens := next, shown + put, tokens + [t];
    }
    Finished(s, tokens, shown);
  }

  /** The body of the loop: the token found, and the calls of put_str for it. */
  method NextToken(buf: array<char>, start: nat, delim: array<char>, token: array<char>,
                   ghost x: seq<char>, ghost e: seq<char>)
    returns (next: int, put: seq<string>)
    requires buf[..] == x && delim[..] == e && delim != token && token != buf && token.Length == TOKEN_SIZE
    requires Delimiter(e, 2) && CStr(e, 0) == DELIM && Searchable(x, start, 2)
    requires Stop(CStr(x, start), DELIM) < TOKEN_SIZE
    modifies token
    ensures buf[..] == x && delim[..] == e
    ensures var p := CStr(x, start);
            var k := First(p, DELIM);
            && Terminated(token[..], 0) && CStr(token[..], 0) == p[..k]
            && next == if k < |p| then start + k + 2 else NULL
    ensures put == if CStr(token[..], 0) == "" then [""] else ["\r\n", CStr(token[..], 0)]
  {
    hide At, CStr, Terminated, First, Stop, Searchable, Delimiter;
    Clear(token);
    next := StrtokFst(buf, start, delim, 2, token);
    Unfolds(token[..], 0);
    put := [];
    if token[0] != NUL {
      put := put + ["\r\n"];
    }
    put := put + [CStr(token[..], 0)];
  }

  /** The tokens found so far, which have been shown, and those in the text from start on are all the tokens. */
  ghost predicate Progress(s: string, start: int, tokens: seq<string>, shown: seq<string>) {
    && shown == PutStr(tokens)
    && if start == NULL then tokens == Split(s) else 0 <= start <= |s| && tokens + Split(s[start..]) == Split(s)
  }

  function Left(s: string, start: int): int {
    if start == NULL then 0 else 1 + |s| - start
  }

  lemma Begins(s: string)
    ensures Progress(s, 0, [], [])
  {
    assert s[0..] == s;
  }

  lemma Finished(s: string, tokens: seq<string>, shown: seq<string>)
    requires Progress(s, NULL, tokens, shown)
    ensures shown == PutStr(Split(s))
  {
  }

  lemma InProgress(x: seq<char>, s: string, start: int, tokens: seq<string>, shown: seq<string>)
    requires start != NULL && Progress(s, start, tokens, shown) && Holds(x, s) && |s| + 2 <= |x|
    requires Short(Split(s))
    ensures 0 <= start <= |s| && Searchable(x, start, 2)
    ensures CStr(x, start) == s[start..] && Stop(CStr(x, start), DELIM) < TOKEN_SIZE
  {
    HeldString(x, s, start);
    hide CStr, Terminated;
    var p := s[start..];
    assert Split(p)[0] in tokens + Split(p);
    assert |Split(p)[0]| == First(p, DELIM);
  }

  lemma Advances(s: string, start: int, tokens: seq<string>, shown: seq<string>, t: string, next: int, put: seq<string>)
    requires start != NULL && Progress(s, start, tokens, shown)
    requires var p := s[start..]; var k := First(p, DELIM);
             && t == p[..k] && (next == if k < |p| then start + k + 2 else NULL)
             && put == if t == "" then [""] else ["\r\n", t]
    ensures Progress(s, next, tokens + [t], shown + put) && 0 <= Left(s, next) < Left(s, start)
  {
    hide First;
    var p := s[start..];
    var k := First(p, DELIM);
    assert (tokens + [t])[..|tokens|] == tokens;
    if k < |p| {
      assert p[k + 2..] == s[next..];
      assert Split(p) == [t] + Split(s[next..]);
      assert tokens + Split(p) == tokens + [t] + Split(s[next..]);
    } else {
      assert t == p && Split(p) == [p];
    }
  }
}
