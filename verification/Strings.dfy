/** klib/string.c: zero-terminated strings in character arrays, by the loops that walk them. */
module Strings {
  const NUL: char := '\0'

  ghost predicate Terminated(a: seq<char>, at: nat) {
    exists k :: at <= k < |a| && a[k] == NUL
  }

  /** The string that starts at index at: the characters before the first zero. */
  function CStr(a: seq<char>, at: nat): (s: string)
    requires Terminated(a, at)
    ensures at + |s| < |a| && a[at + |s|] == NUL && a[at..at + |s|] == s && NUL !in s
    decreases |a| - at
  {
    if a[at] == NUL then "" else [a[at]] + CStr(a, at + 1)
  }

  /** The window up to the first zero is the string. */
  lemma {:induction false} CStrIs(a: seq<char>, at: nat, s: string)
    requires at + |s| < |a| && a[at..at + |s|] == s && a[at + |s|] == NUL && NUL !in s
    ensures Terminated(a, at) && CStr(a, at) == s
    decreases |s|
  {
    if s != "" {
      assert a[at] == s[0];
      assert a[at + 1..at + |s|] == s[1..];
      CStrIs(a, at + 1, s[1..]);
    }
  }

  lemma Unfolds(a: seq<char>, at: nat)
    requires Terminated(a, at)
    ensures a[at] == NUL ==> CStr(a, at) == ""
    ensures a[at] != NUL ==> Terminated(a, at + 1) && CStr(a, at) == [a[at]] + CStr(a, at + 1)
  {
  }

  /** The array holds the string s, with its terminator. */
  ghost predicate Named(a: seq<char>, s: string) {
    Terminated(a, 0) && CStr(a, 0) == s
  }

  /** _memset with zero, over a whole array. */
  method Clear(a: array<char>)
    modifies a
    ensures forall k :: 0 <= k < a.Length ==> a[k] == NUL
  {
    var i := 0;
    while i < a.Length
      invariant i <= a.Length && forall k :: 0 <= k < i ==> a[k] == NUL
    {
      a[i] := NUL;
      i := i + 1;
    }
  }

  method Strlen(a: array<char>, at: nat) returns (len: nat)
    requires Terminated(a[..], at)
    ensures len == |CStr(a[..], at)|
  {
    hide *;
    ghost var x := a[..];
    TextAt(x, at, 0);
    len := 0;
    while a[at + len] != NUL
      invariant a[..] == x && len <= |CStr(x, at)|
      decreases |CStr(x, at)| - len
    {
      TextAt(x, at, len);
      len := len + 1;
    }
    TextAt(x, at, len);
  }

  /** _strcmp: of its three tests in the loop, only the one for both strings ending can hold. */
  method Strcmp(a: array<char>, i: nat, b: array<char>, j: nat) returns (differ: int)
    requires Terminated(a[..], i) && Terminated(b[..], j)
    ensures differ == if CStr(a[..], i) == CStr(b[..], j) then 0 else 1
  {
    ghost var x, y := a[..], b[..];
    var k := 0;
    Heads(x, i, y, j);
    hide *;
    while a[i + k] == b[j + k]
      invariant a[..] == x && b[..] == y && i + k < |x| && j + k < |y| && SameSoFar(x, i, y, j, k)
      decreases a.Length - k
    {
      Matched(x, i, y, j, k);
      if a[i + k] == NUL {
        return 0;
      }
      k := k + 1;
    }
    Matched(x, i, y, j, k);
    differ := 1;
  }

  /** The strings at i and j are equal exactly if what follows their first k characters is. */
  ghost predicate SameSoFar(x: seq<char>, i: nat, y: seq<char>, j: nat, k: nat) {
    && Terminated(x, i) && Terminated(y, j) && Terminated(x, i + k) && Terminated(y, j + k)
    && (CStr(x, i) == CStr(y, j) <==> CStr(x, i + k) == CStr(y, j + k))
  }

  lemma Matched(x: seq<char>, i: nat, y: seq<char>, j: nat, k: nat)
    requires SameSoFar(x, i, y, j, k) && i + k < |x| && j + k < |y|
    ensures Terminated(x, i) && Terminated(y, j)
    ensures x[i + k] != y[j + k] ==> CStr(x, i) != CStr(y, j)
    ensures x[i + k] == y[j + k] == NUL ==> CStr(x, i) == CStr(y, j)
    ensures x[i + k] == y[j + k] != NUL ==> i + k + 1 < |x| && j + k + 1 < |y| && SameSoFar(x, i, y, j, k + 1)
  {
    hide CStr;
    Heads(x, i + k, y, j + k);
  }

  lemma Heads(a: seq<char>, i: nat, b: seq<char>, j: nat)
    requires Terminated(a, i) && Terminated(b, j)
    ensures i < |a| && j < |b|
    ensures a[i] != b[j] ==> CStr(a, i) != CStr(b, j)
    ensures a[i] == b[j] == NUL ==> CStr(a, i) == CStr(b, j)
    ensures a[i] == b[j] != NUL ==> Terminated(a, i + 1) && Terminated(b, j + 1)
    ensures a[i] == b[j] != NUL ==> (CStr(a, i) == CStr(b, j) <==> CStr(a, i + 1) == CStr(b, j + 1))
  {
    hide CStr;
    Unfolds(a, i);
    Unfolds(b, j);
    if a[i] == b[j] != NUL {
      assert CStr(a, i)[1..] == CStr(a, i + 1);
      assert CStr(b, j)[1..] == CStr(b, j + 1);
    }
  }

  /** _strcpy, which is also the second half of _strcat. */
  method Strcpy(dest: array<char>, di: nat, src: array<char>, si: nat)
    requires dest != src && Terminated(src[..], si) && di + |CStr(src[..], si)| < dest.Length
    modifies dest
    ensures var s := CStr(src[..], si);
            dest[..] == old(dest[..di]) + s + [NUL] + old(dest[di + |s| + 1..])
  {
    hide *;
    ghost var x, y := dest[..], src[..];
    ghost var s := CStr(y, si);
    TextAt(y, si, 0);
    var k := 0;
    while src[si + k] != NUL
      invariant src[..] == y && si + |s| < |y| && k <= |s|
      invariant forall j :: 0 <= j < dest.Length ==> dest[j] == if di <= j < di + k then s[j - di] else x[j]
      decreases |s| - k
    {
      TextAt(y, si, k);
      dest[di + k] := src[si + k];
      k := k + 1;
    }
    TextAt(y, si, k);
    dest[di + k] := NUL;
    Spliced(x, di, s, dest[..]);
  }

  /** The text s and a zero, over what x held from index di on. */
  lemma Spliced(x: seq<char>, di: nat, s: string, x': seq<char>)
    requires di + |s| < |x| == |x'| && x'[di + |s|] == NUL
    requires forall j :: 0 <= j < |x| && j != di + |s| ==> x'[j] == if di <= j < di + |s| then s[j - di] else x[j]
    ensures x' == x[..di] + s + [NUL] + x[di + |s| + 1..]
  {
  }

  /** _strcat, with room in dest for both strings. */
  method Strcat(dest: array<char>, di: nat, src: array<char>, si: nat)
    requires dest != src && Terminated(dest[..], di) && Terminated(src[..], si)
    requires di + |CStr(dest[..], di)| + |CStr(src[..], si)| < dest.Length
    modifies dest
    ensures Terminated(dest[..], di) && CStr(dest[..], di) == CStr(old(dest[..]), di) + CStr(src[..], si)
    ensures var n := di + |CStr(old(dest[..]), di)|;
            && dest[..n] == old(dest[..])[..n]
            && dest[n + |CStr(src[..], si)| + 1..] == old(dest[..])[n + |CStr(src[..], si)| + 1..]
  {
    hide CStr, Terminated;
    var n := Strlen(dest, di);
    Strcpy(dest, di + n, src, si);
    Appended(old(dest[..]), di, CStr(src[..], si), dest[..]);
  }

  /** The text and its terminator, character by character. */
  lemma TextAt(a: seq<char>, at: nat, k: nat)
    requires Terminated(a, at)
    ensures at + |CStr(a, at)| < |a|
    ensures k < |CStr(a, at)| ==> a[at + k] == CStr(a, at)[k] != NUL
    ensures k == |CStr(a, at)| ==> a[at + k] == NUL
  {
    var s := CStr(a, at);
    if k < |s| {
      assert a[at..at + |s|][k] == s[k];
    }
  }

  /** x with the string s appended to its string at index di. */
  lemma Appended(x: seq<char>, di: nat, s: string, x': seq<char>)
    requires Terminated(x, di) && NUL !in s && di + |CStr(x, di)| + |s| < |x| == |x'|
    requires var n := di + |CStr(x, di)|;
             && x'[n + |s|] == NUL
             && forall j :: 0 <= j < n + |s| ==> x'[j] == if n <= j < n + |s| then s[j - n] else x[j]
    ensures Terminated(x', di) && CStr(x', di) == CStr(x, di) + s
  {
    var d := CStr(x, di);
    forall j | 0 <= j < |d + s| ensures x'[di + j] == (d + s)[j] {
      TextAt(x, di, j);
    }
    assert x'[di..di + |d + s|] == d + s;
    CStrIs(x', di, d + s);
  }

  /** _strncpy: count characters, whatever they are, and a zero. */
  method Strncpy(dest: array<char>, di: nat, src: array<char>, si: nat, count: nat)
    requires dest != src && di + count < dest.Length && si + count <= src.Length
    modifies dest
    ensures dest[..] == old(dest[..di]) + src[si..si + count] + [NUL] + old(dest[di + count + 1..])
  {
    var k := 0;
    while k < count
      invariant k <= count
      invariant forall j :: 0 <= j < dest.Length ==>
                  dest[j] == if di <= j < di + k then src[si + j - di] else old(dest[j])
    {
      dest[di + k] := src[si + k];
      k := k + 1;
    }
    dest[di + count] := NUL;
  }

  /** d starts at position k of s. */
  predicate At(s: string, d: string, k: nat) {
    k + |d| <= |s| && s[k..k + |d|] == d
  }

  /** The first position from which s continues with d, or the length of s. */
  function First(s: string, d: string): (k: nat)
    ensures k <= |s| && (k < |s| ==> At(s, d, k))
    ensures forall j :: 0 <= j < k ==> !At(s, d, j)
  {
    if s == "" || At(s, d, 0) then 0
    else
      FirstAfterHead(s, d);
      1 + First(s[1..], d)
  }

  lemma FirstAfterHead(s: string, d: string)
    requires s != ""
    ensures forall k :: 1 <= k <= |s| ==> (At(s, d, k) <==> At(s[1..], d, k - 1))
  {
    forall k | 1 <= k <= |s| ensures At(s, d, k) <==> At(s[1..], d, k - 1) {
      if k + |d| <= |s| {
        assert s[1..][k - 1..k - 1 + |d|] == s[k..k + |d|];
      }
    }
  }

  lemma FirstIs(s: string, d: string, k: nat)
    requires k <= |s| && (k < |s| ==> At(s, d, k)) && forall j :: 0 <= j < k ==> !At(s, d, j)
    ensures First(s, d) == k
  {
  }

  /** The two statements that strtok_fst repeats: copy the window at s to sbuf and compare it with the delimiter. */
  method Window(buf: array<char>, s: nat, delim: array<char>, delimSz: nat, sbuf: array<char>) returns (differ: int)
    requires Terminated(delim[..], 0) && |CStr(delim[..], 0)| == delimSz && sbuf.Length == delimSz + 1
    requires sbuf != buf && sbuf != delim && s + delimSz <= buf.Length
    modifies sbuf
    ensures differ == if buf[s..s + delimSz] == CStr(delim[..], 0) then 0 else 1
  {
    Strncpy(sbuf, 0, buf, s, delimSz);
    ghost var window, d := buf[s..s + delimSz], CStr(delim[..], 0);
    assert sbuf[..] == window + [NUL];
    assert sbuf[delimSz] == NUL;
    differ := Strcmp(sbuf, 0, delim, 0);
    if window == d {
      CStrIs(sbuf[..], 0, d);
    } else {
      WindowDiffers(window, d);
    }
  }

  lemma WindowDiffers(window: string, d: string)
    requires |window| == |d| && window != d
    ensures Terminated(window + [NUL], 0) && CStr(window + [NUL], 0) != d
  {
    assert (window + [NUL])[|window|] == NUL;
    assert (window + [NUL])[..|d|] == window;
  }

  lemma WindowAt(buf: seq<char>, start: nat, s: nat, d: string)
    requires Terminated(buf, start) && start <= s <= start + |CStr(buf, start)| && s + |d| <= |buf| && NUL !in d
    ensures buf[s..s + |d|] == d <==> At(CStr(buf, start), d, s - start)
  {
    var str := CStr(buf, start);
    var k, n := s - start, |str|;
    if k + |d| <= n {
      assert buf[start..start + n][k..k + |d|] == buf[start + k..start + k + |d|];
    } else {
      assert buf[s..s + |d|][n - k] == buf[start + n] == NUL;
    }
  }

  /** The search from start stays within buf: on an empty string, it steps over the terminator, and must find another. */
  ghost predicate Searchable(buf: seq<char>, start: nat, delimSz: nat) {
    && Terminated(buf, start)
    && if CStr(buf, start) == "" then
         start + delimSz <= |buf| && start + 1 < |buf| && buf[start + 1] == NUL
       else
         start + |CStr(buf, start)| + delimSz <= |buf| + 1
  }

  /** Where the loop of strtok_fst stops: at the first delimiter, or at a terminator. */
  function Stop(str: string, d: string): nat {
    if str == "" then 1 else First(str, d)
  }

  ghost predicate Delimiter(delim: seq<char>, delimSz: nat) {
    Terminated(delim, 0) && |CStr(delim, 0)| == delimSz && 0 < delimSz
  }

  /** Window at s, against the delimiter, in terms of the string at start; x is buf and e is delim. */
  method Differs(buf: array<char>, start: nat, s: nat, delim: array<char>, delimSz: nat, sbuf: array<char>,
                 ghost x: seq<char>, ghost e: seq<char>)
    returns (differ: int)
    requires buf[..] == x && delim[..] == e && sbuf != buf && sbuf != delim && sbuf.Length == delimSz + 1
    requires Searchable(x, start, delimSz) && Delimiter(e, delimSz) && start <= s
    requires s == start || s < start + |CStr(x, start)|
    modifies sbuf
    ensures differ == if At(CStr(x, start), CStr(e, 0), s - start) then 0 else 1
    ensures buf[..] == x && delim[..] == e
  {
    InReach(x, start, s, delimSz);
    WindowAt(x, start, s, CStr(e, 0));
    hide CStr, Terminated, At, Searchable;
    differ := Window(buf, s, delim, delimSz, sbuf);
  }

  method Search(buf: array<char>, start: nat, delim: array<char>, delimSz: nat, sbuf: array<char>,
                ghost x: seq<char>, ghost e: seq<char>)
    returns (s: nat)
    requires buf[..] == x && delim[..] == e && sbuf != buf && sbuf != delim && sbuf.Length == delimSz + 1
    requires Searchable(x, start, delimSz) && Delimiter(e, delimSz)
    modifies sbuf
    ensures buf[..] == x && s < buf.Length && s == start + Stop(CStr(x, start), CStr(e, 0))
    ensures CStr(x, start) == "" ==> buf[s] == NUL
  {
    hide CStr, Terminated, At, First, Stop, Searchable, Delimiter;
    SearchBegins(x, start, e, delimSz);
    ghost var str, d := CStr(x, start), CStr(e, 0);
    s := start;
    var differ := Differs(buf, start, s, delim, delimSz, sbuf, x, e);
    while differ != 0
      invariant buf[..] == x && delim[..] == e
      invariant start <= s && Before(str, d, s - start) && (s == start || s < start + |str|)
      invariant differ == if At(str, d, s - start) then 0 else 1
      decreases start + |str| - s
    {
      s := s + 1;
      var ended := Ends(buf, start, s, delimSz, x, d);
      if ended {
        break;
      }
      differ := Differs(buf, start, s, delim, delimSz, sbuf, x, e);
    }
    StopIs(str, d, s - start);
  }

  /** The search has not passed the delimiter, nor the end of the text. */
  predicate Before(str: string, d: string, k: nat) {
    k <= First(str, d) && if str == "" then k == 0 else k < |str|
  }

  lemma SearchBegins(x: seq<char>, start: nat, e: seq<char>, delimSz: nat)
    requires Searchable(x, start, delimSz) && Delimiter(e, delimSz)
    ensures Terminated(x, start) && Terminated(e, 0) && CStr(e, 0) != "" && 0 < delimSz
    ensures Before(CStr(x, start), CStr(e, 0), 0)
    ensures CStr(x, start) == "" ==> !At(CStr(x, start), CStr(e, 0), 0)
  {
  }

  /** The test of the character after one that is not where the delimiter starts. */
  method Ends(buf: array<char>, start: nat, s: nat, delimSz: nat, ghost x: seq<char>, ghost d: string)
    returns (ended: bool)
    requires buf[..] == x && Searchable(x, start, delimSz) && 0 < delimSz && start < s && d != ""
    requires Before(CStr(x, start), d, s - start - 1) && !At(CStr(x, start), d, s - start - 1)
    ensures s < buf.Length && (ended <==> buf[s] == NUL)
    ensures !ended ==> Before(CStr(x, start), d, s - start) && s - start < |CStr(x, start)|
    ensures ended ==> s - start == (if CStr(x, start) == "" then 1 else |CStr(x, start)|)
    ensures ended ==> |CStr(x, start)| <= First(CStr(x, start), d)
  {
    hide CStr, Terminated, At, First;
    InReach(x, start, s - 1, delimSz);
    NotYet(CStr(x, start), d, s - start - 1);
    TextBefore(x, start, s);
    ended := buf[s] == NUL;
  }

  /** A position that has no delimiter is not the one looked for. */
  lemma NotYet(str: string, d: string, k: nat)
    requires k <= |str| && 0 < |d|
    ensures At(str, d, k) ==> k < |str|
    ensures k <= First(str, d) && k < |str| && !At(str, d, k) ==> k + 1 <= First(str, d)
    ensures First(str, d) <= |str|
  {
  }

  lemma StopIs(str: string, d: string, k: nat)
    requires 0 < |d|
    requires if str == "" then k == 1 else k <= First(str, d) && (k < |str| ==> At(str, d, k))
    ensures k == Stop(str, d)
  {
  }

  /** What Searchable gives the loop: the window at s lies in buf, and so does the next character. */
  lemma InReach(x: seq<char>, start: nat, s: nat, delimSz: nat)
    requires Searchable(x, start, delimSz) && 0 < delimSz && start <= s
    requires s < start + |CStr(x, start)| || s == start
    ensures s + delimSz <= |x| && s + 1 < |x| && start + |CStr(x, start)| < |x|
    ensures CStr(x, start) == "" ==> x[start + 1] == NUL
  {
  }

  const NULL: int := -1

  /** strtok_fst on the string at index start: the text before the delimiter goes to token, and the index after it is
      returned, or NULL. */
  method StrtokFst(buf: array<char>, start: nat, delim: array<char>, delimSz: nat, token: array<char>)
    returns (next: int)
    requires token != buf && token != delim
    requires Delimiter(delim[..], delimSz) && Searchable(buf[..], start, delimSz)
    requires Stop(CStr(buf[..], start), CStr(delim[..], 0)) < token.Length
    modifies token
    ensures var s := CStr(buf[..], start);
            var k := First(s, CStr(delim[..], 0));
            && Terminated(token[..], 0) && CStr(token[..], 0) == s[..k]
            && next == if k < |s| then start + k + delimSz else NULL
  {
    hide *;
    SearchBegins(buf[..], start, delim[..], delimSz);
    ghost var x, d := buf[..], CStr(delim[..], 0);
    var sbuf := new char[delimSz + 1];
    var s := Search(buf, start, delim, delimSz, sbuf, x, delim[..]);
    Strncpy(token, 0, buf, start, s - start);
    TokenAt(x, start, s, d, token[..]);
    if buf[s] != NUL {
      return s + delimSz;
    }
    return NULL;
  }

  /** Within the text there is no zero. */
  lemma TextBefore(buf: seq<char>, start: nat, s: nat)
    requires Terminated(buf, start) && start <= s < |buf|
    ensures s < start + |CStr(buf, start)| ==> buf[s] != NUL
    ensures s == start + |CStr(buf, start)| ==> buf[s] == NUL
  {
    var str := CStr(buf, start);
    if s < start + |str| {
      assert buf[start..start + |str|][s - start] == str[s - start];
    }
  }

  /** The outcome of strtok_fst, once it has found s and filled the token. */
  lemma TokenAt(x: seq<char>, start: nat, s: nat, d: string, token: seq<char>)
    requires Terminated(x, start) && start <= s < |x| && s == start + Stop(CStr(x, start), d)
    requires s - start < |token| && token[..s - start + 1] == x[start..s] + [NUL]
    requires CStr(x, start) == "" ==> x[s] == NUL
    ensures Terminated(token, 0) && CStr(token, 0) == CStr(x, start)[..First(CStr(x, start), d)]
    ensures x[s] != NUL <==> First(CStr(x, start), d) < |CStr(x, start)|
    ensures x[s] != NUL ==> s == start + First(CStr(x, start), d)
  {
    hide At, CStr, Terminated;
    TokenIs(x, start, s, token);
    TextBefore(x, start, s);
  }

  /** What strtok_fst leaves in token. */
  lemma TokenIs(buf: seq<char>, start: nat, s: nat, token: seq<char>)
    requires Terminated(buf, start) && start <= s < |buf| && s - start < |token|
    requires token[..s - start + 1] == buf[start..s] + [NUL]
    requires s <= start + |CStr(buf, start)| || (CStr(buf, start) == "" && s == start + 1)
    ensures Terminated(token, 0)
    ensures CStr(token, 0) == if CStr(buf, start) == "" then "" else CStr(buf, start)[..s - start]
  {
    var str, n := CStr(buf, start), s - start;
    assert token[..n + 1][n] == token[n] == NUL;
    if str == "" {
      if n == 1 {
        assert token[..2][0] == token[0] == buf[start..s][0];
      }
      CStrIs(token, 0, "");
    } else {
      assert token[0..n] == token[..n + 1][..n] == buf[start..s];
      assert buf[start..s] == buf[start..start + |str|][..n] == str[..n];
      CStrIs(token, 0, str[..n]);
    }
  }
}
