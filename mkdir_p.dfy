/** mkdir_p (vcfisec.c:92-109): creates each directory along a path by calling `mkdir` on
    successively longer prefixes of a private copy of the path, cut in place with a NUL.
    `mkdir` itself is not modelled; the model records the path of each call, in order
    (the source ignores what `mkdir` returns). */
module Mkdir {

  /** The C string held by a buffer: everything before its first NUL. */
  function CString(buf: seq<char>): (s: string)
    ensures '\0' !in s
  {
    if buf == [] || buf[0] == '\0' then [] else [buf[0]] + CString(buf[1..])
  }

  lemma {:induction false} CStringOf(a: string, rest: seq<char>)
    requires '\0' !in a
    ensures CString(a + ['\0'] + rest) == a
  {
    if a == [] {
      assert (a + ['\0'] + rest)[0] == '\0';
    } else {
      assert (a + ['\0'] + rest)[1..] == a[1..] + ['\0'] + rest;
      CStringOf(a[1..], rest);
      assert [a[0]] + a[1..] == a;
    }
  }

  /** The prefixes of path that end just before a '/' found at an index in 1..j-1,
      shortest first. */
  function SlashPrefixes(path: string, j: nat): seq<string>
    requires j <= |path|
  {
    if j <= 1 then []
    else SlashPrefixes(path, j - 1) + (if path[j - 1] == '/' then [path[..j - 1]] else [])
  }

  /** The paths mkdir_p passes to `mkdir`, as written: the scan starts at index 1, so a
      path of one character never enters the loop and gets no call at all. */
  function MkdirCalls(path: string): seq<string>
    requires |path| > 0
  {
    SlashPrefixes(path, |path|) + (if |path| >= 2 && path[|path| - 1] != '/' then [path] else [])
  }

  /** The paths a corrected mkdir_p passes to `mkdir`: the same prefixes, then the whole
      path whenever it does not end in '/'. */
  function MkdirCallsFixed(path: string): seq<string>
    requires |path| > 0
  {
    SlashPrefixes(path, |path|) + (if path[|path| - 1] != '/' then [path] else [])
  }

  /** Every entry is a proper prefix of path, at least one character long and shorter
      than bound, that ends just before a '/'. */
  ghost predicate CutsBefore(path: string, calls: seq<string>, bound: nat)
  {
    forall k :: 0 <= k < |calls| ==>
      1 <= |calls[k]| < bound && |calls[k]| < |path| && calls[k] == path[..|calls[k]|] && path[|calls[k]|] == '/'
  }

  /** The entries grow strictly longer. */
  ghost predicate Increasing(calls: seq<string>)
  {
    forall k, l :: 0 <= k < l < |calls| ==> |calls[k]| < |calls[l]|
  }

  /** Every '/' at an index in 1..bound-1 has the prefix before it among the entries. */
  ghost predicate AllCuts(path: string, calls: seq<string>, bound: nat)
    requires bound <= |path|
  {
    forall m :: 1 <= m < bound && path[m] == '/' ==> path[..m] in calls
  }

  /** The prefixes below index j are exactly the cuts before each '/' at 1..j-1,
      shortest first. */
  lemma {:induction false} SlashPrefixesSpec(path: string, j: nat)
    requires j <= |path|
    ensures CutsBefore(path, SlashPrefixes(path, j), j)
    ensures Increasing(SlashPrefixes(path, j))
    ensures AllCuts(path, SlashPrefixes(path, j), j)
  {
    if j > 1 {
      SlashPrefixesSpec(path, j - 1);
      var prev := SlashPrefixes(path, j - 1);
      if path[j - 1] == '/' {
        SnocCut(path, prev, j - 1);
      } else {
        assert SlashPrefixes(path, j) == prev + [];
        assert prev + [] == prev;
      }
    }
  }

  /** Appending the cut before the '/' at index c to the cuts below c keeps all three
      properties, now up to c + 1. */
  lemma SnocCut(path: string, prev: seq<string>, c: nat)
    requires 1 <= c < |path| && path[c] == '/'
    requires CutsBefore(path, prev, c) && Increasing(prev) && AllCuts(path, prev, c)
    ensures CutsBefore(path, prev + [path[..c]], c + 1)
    ensures Increasing(prev + [path[..c]])
    ensures AllCuts(path, prev + [path[..c]], c + 1)
  {
    var calls := prev + [path[..c]];
    forall k | 0 <= k < |calls|
      ensures 1 <= |calls[k]| < c + 1 && |calls[k]| < |path|
      ensures calls[k] == path[..|calls[k]|] && path[|calls[k]|] == '/'
    {
      if k < |prev| {
        assert calls[k] == prev[k];
      }
    }
    forall k, l | 0 <= k < l < |calls|
      ensures |calls[k]| < |calls[l]|
    {
      assert calls[k] == prev[k];
      if l < |prev| {
        assert calls[l] == prev[l];
      }
    }
    forall m | 1 <= m < c + 1 && path[m] == '/'
      ensures path[..m] in calls
    {
      if m < c {
        assert path[..m] in prev;
      } else {
        assert calls[|prev|] == path[..m];
      }
    }
  }

  lemma PathNotACut(path: string, calls: seq<string>)
    requires CutsBefore(path, calls, |path| + 1)
    ensures path !in calls
  {
    forall k | 0 <= k < |calls|
      ensures calls[k] != path
    {
      assert |calls[k]| < |path|;
    }
  }

  /** What mkdir_p does, as written, to a non-empty path: it calls `mkdir` on the prefix
      before each '/' at index 1 or more, shortest first, on nothing else but the path
      itself, and on the path itself iff the path has two characters or more and does not
      end in '/'. */
  lemma MkdirCallsSpec(path: string)
    requires |path| > 0
    ensures var calls := MkdirCalls(path);
      (forall k :: 0 <= k < |calls| ==> 1 <= |calls[k]| <= |path| && calls[k] == path[..|calls[k]|]) &&
      (forall k :: 0 <= k < |calls| && |calls[k]| < |path| ==> path[|calls[k]|] == '/') &&
      Increasing(calls) &&
      AllCuts(path, calls, |path|) &&
      (path in calls <==> |path| >= 2 && path[|path| - 1] != '/')
  {
    var r := SlashPrefixes(path, |path|);
    SlashPrefixesSpec(path, |path|);
    PathNotACut(path, r);
    var last := if |path| >= 2 && path[|path| - 1] != '/' then [path] else [];
    WholePathLast(path, r, last);
  }

  /** The corrected mkdir_p calls `mkdir` on the whole path whenever it does not end in
      '/', so that every directory the path names is created; on paths of two characters
      or more it does exactly what the code as written does. */
  lemma MkdirCallsFixedSpec(path: string)
    requires |path| > 0
    ensures var calls := MkdirCallsFixed(path);
      (forall k :: 0 <= k < |calls| ==> 1 <= |calls[k]| <= |path| && calls[k] == path[..|calls[k]|]) &&
      (forall k :: 0 <= k < |calls| && |calls[k]| < |path| ==> path[|calls[k]|] == '/') &&
      Increasing(calls) &&
      AllCuts(path, calls, |path|) &&
      (path in calls <==> path[|path| - 1] != '/') &&
      (|path| >= 2 ==> calls == MkdirCalls(path))
  {
    var r := SlashPrefixes(path, |path|);
    SlashPrefixesSpec(path, |path|);
    PathNotACut(path, r);
    var last := if path[|path| - 1] != '/' then [path] else [];
    WholePathLast(path, r, last);
  }

  /** Appending the whole path (or nothing) after the cuts keeps them prefixes, in order. */
  lemma WholePathLast(path: string, r: seq<string>, last: seq<string>)
    requires |path| > 0
    requires CutsBefore(path, r, |path|) && Increasing(r) && AllCuts(path, r, |path|)
    requires last == [] || last == [path]
    ensures var calls := r + last;
      (forall k :: 0 <= k < |calls| ==> 1 <= |calls[k]| <= |path| && calls[k] == path[..|calls[k]|]) &&
      (forall k :: 0 <= k < |calls| && |calls[k]| < |path| ==> path[|calls[k]|] == '/') &&
      Increasing(calls) &&
      AllCuts(path, calls, |path|)
  {
    var calls := r + last;
    forall k | 0 <= k < |calls|
      ensures 1 <= |calls[k]| <= |path| && calls[k] == path[..|calls[k]|]
      ensures |calls[k]| < |path| ==> path[|calls[k]|] == '/'
    {
      if k >= |r| {
        assert calls[k] == path;
      } else {
        assert calls[k] == r[k];
      }
    }
    forall k, l | 0 <= k < l < |calls|
      ensures |calls[k]| < |calls[l]|
    {
      if l >= |r| {
        assert calls[k] == r[k] && calls[l] == path;
      } else {
        assert calls[k] == r[k] && calls[l] == r[l];
      }
    }
    forall m | 1 <= m < |path| && path[m] == '/'
      ensures path[..m] in calls
    {
      assert path[..m] in r;
    }
  }

  /** The discrepancy: a one-character directory name such as "d" is never created by
      the code as written, while the corrected version creates it. */
  lemma OneCharacterPathNotCreated(c: char)
    requires c != '/'
    ensures MkdirCalls([c]) == []
    ensures MkdirCallsFixed([c]) == [[c]]
  {
  }

  /** The copy of a C string holds its only NUL at the end. */
  lemma NulOnlyAtEnd(path: string, buf: seq<char>)
    requires '\0' !in path && buf == path + ['\0']
    ensures forall i :: 0 <= i < |path| ==> buf[i] != '\0'
  {
    forall i | 0 <= i < |path|
      ensures buf[i] != '\0'
    {
      assert buf[i] == path[i] && path[i] in path;
    }
  }

  /** One cut: overwrite the '/' at p with a NUL, call `mkdir` on the C string now held by
      the buffer (the prefix before p), and put the '/' back, leaving the buffer as it was. */
  method CutAt(tmp: array<char>, path: string, p: nat) returns (call: string)
    requires tmp[..] == path + ['\0'] && '\0' !in path
    requires p < |path| && path[p] == '/'
    modifies tmp
    ensures call == path[..p]
    ensures tmp[..] == path + ['\0']
  {
    tmp[p] := '\0';
    assert tmp[..] == path[..p] + ['\0'] + (path[p + 1..] + ['\0']);
    CStringOf(path[..p], path[p + 1..] + ['\0']);
    call := CString(tmp[..]);                      // mkdir(tmp)
    tmp[p] := '/';
    assert tmp[..] == path + ['\0'];
  }

  /** The inner scan of mkdir_p: advance to the next '/' or to the terminating NUL. No
      '/' is passed over, so no cut is missed. */
  method SkipToSlash(tmp: array<char>, path: string, p0: nat) returns (p: nat)
    requires tmp[..] == path + ['\0'] && '\0' !in path
    requires p0 <= |path|
    ensures p0 <= p <= |path|
    ensures p == |path| || path[p] == '/'
    ensures forall m :: p0 <= m < p ==> path[m] != '/'
    ensures SlashPrefixes(path, p) == SlashPrefixes(path, p0)
  {
    p := p0;
    while tmp[p] != '\0' && tmp[p] != '/'
      invariant p0 <= p <= |path|
      invariant forall m :: p0 <= m < p ==> path[m] != '/'
      invariant SlashPrefixes(path, p) == SlashPrefixes(path, p0)
      decreases |path| - p
    {
      assert path[p] in path;
      p := p + 1;
    }
    if p == |path| {
    } else {
      assert tmp[p] == path[p] && path[p] in path;
    }
  }

  /** mkdir_p as written: `strdup` the path, walk `p` from index 1, cut the buffer with a
      NUL before each '/', call `mkdir`, and put the '/' back. */
  method MkdirP(path: string) returns (calls: seq<string>)
    requires |path| > 0 && '\0' !in path
    ensures calls == MkdirCalls(path)
  {
    var tmp := new char[|path| + 1](i requires 0 <= i < |path| + 1 => if i < |path| then path[i] else '\0');
    assert tmp[..] == path + ['\0'];
    calls := [];
    var p := 1;
    ghost var done := false;
    while tmp[p] != '\0'
      invariant 1 <= p <= |path|
      invariant tmp[..] == path + ['\0']
      invariant calls == SlashPrefixes(path, p) + (if done then [path] else [])
      invariant done ==> p == |path| && p >= 2 && path[p - 1] != '/'
      invariant !done && p >= 2 ==> path[p - 1] == '/'
      decreases |path| - p + (if tmp[p] == '\0' then 0 else 1)
    {
      assert !done;
      p := SkipToSlash(tmp, path, p);
      if tmp[p] != '\0' {
        var call := CutAt(tmp, path, p);
        calls := calls + [call];
        assert SlashPrefixes(path, p + 1) == SlashPrefixes(path, p) + [path[..p]];
        p := p + 1;
      } else {
        NulOnlyAtEnd(path, tmp[..]);
        assert p == |path|;
        CStringOf(path, []);
        assert tmp[..] == path + ['\0'] + [];
        calls := calls + [CString(tmp[..])];       // mkdir(tmp)
        done := true;
      }
    }
  }

  /** The corrected mkdir_p: cut before every '/' after the first character, then call
      `mkdir` on the whole path unless it ends in '/'. */
  method MkdirPFixed(path: string) returns (calls: seq<string>)
    requires |path| > 0 && '\0' !in path
    ensures calls == MkdirCallsFixed(path)
  {
    var tmp := new char[|path| + 1](i requires 0 <= i < |path| + 1 => if i < |path| then path[i] else '\0');
    assert tmp[..] == path + ['\0'];
    calls := [];
    var p := 1;
    while tmp[p] != '\0'
      invariant 1 <= p <= |path|
      invariant tmp[..] == path + ['\0']
      invariant calls == SlashPrefixes(path, p)
      decreases |path| - p
    {
      if tmp[p] == '/' {
        var call := CutAt(tmp, path, p);
        calls := calls + [call];
      }
      p := p + 1;
    }
    NulOnlyAtEnd(path, tmp[..]);
    assert p == |path|;
    assert tmp[p - 1] == path[|path| - 1];
    if tmp[p - 1] != '/' {
      CStringOf(path, []);
      assert tmp[..] == path + ['\0'] + [];
      calls := calls + [CString(tmp[..])];         // mkdir(tmp)
    }
  }
}
