/**
 * The PATH candidates tried by cmd_exec and by the child of
 * cmd_output_direction: the command name as given, then "dir/name" for
 * every directory strtok yields from PATH, split at ':'.
 */
module PathSearch {

  const SEP: char := ':'

  /** Length of the leading run of s that contains no ':'. */
  function RunLength(s: string): (k: nat)
    ensures k <= |s|
    ensures forall i :: 0 <= i < k ==> s[i] != SEP
    ensures k == |s| || s[k] == SEP
    decreases |s|
  {
    if s == [] || s[0] == SEP then 0 else 1 + RunLength(s[1..])
  }

  /**
   * What repeated strtok(_, ":") returns: the maximal non-empty runs of s
   * without ':', in order. Runs of ':' (and ':' at either end) yield nothing.
   */
  function StrTok(s: string): (segs: seq<string>)
    ensures forall i :: 0 <= i < |segs| ==> segs[i] != [] && SEP !in segs[i]
    decreases |s|
  {
    if s == [] then []
    else if s[0] == SEP then StrTok(s[1..])
    else
      var k := RunLength(s);
      [s[..k]] + StrTok(s[k..])
  }

  /** The ':'-separated fields of s, empty ones included (the split PATH is defined by). */
  function Fields(s: string): (fs: seq<string>)
    ensures |fs| >= 1
    decreases |s|
  {
    var k := RunLength(s);
    if k == |s| then [s] else [s[..k]] + Fields(s[k + 1..])
  }

  /** The non-empty strings of fs, in order. */
  function NonEmpty(fs: seq<string>): seq<string>
    decreases |fs|
  {
    if fs == [] then [] else (if fs[0] == [] then [] else [fs[0]]) + NonEmpty(fs[1..])
  }

  /** Join with ':' between consecutive strings. */
  function Join(segs: seq<string>): string
    decreases |segs|
  {
    if segs == [] then [] else if |segs| == 1 then segs[0] else segs[0] + [SEP] + Join(segs[1..])
  }

  /** "dir/name" for each dir, in order. */
  function InDirs(dirs: seq<string>, name: string): (ps: seq<string>)
    ensures |ps| == |dirs|
    ensures forall i :: 0 <= i < |dirs| ==> ps[i] == dirs[i] + "/" + name
    decreases |dirs|
  {
    if dirs == [] then [] else [dirs[0] + "/" + name] + InDirs(dirs[1..], name)
  }

  /** The paths execv is tried on, in order: the name as given, then one per strtok segment. */
  function Candidates(name: string, path: string): (c: seq<string>)
    ensures |c| == 1 + |StrTok(path)| && c[0] == name
  {
    [name] + InDirs(StrTok(path), name)
  }

  /** RunLength is the one index that ends the leading run. */
  lemma RunLengthIs(s: string, k: nat)
    requires k <= |s|
    requires forall i :: 0 <= i < k ==> s[i] != SEP
    requires k == |s| || s[k] == SEP
    ensures RunLength(s) == k
  {
  }

  /**
   * strtok keeps exactly the non-empty ':'-separated fields: an empty PATH
   * entry (leading, trailing or doubled ':') names no directory at all.
   */
  lemma {:induction false} StrTokIsNonEmptyFields(s: string)
    ensures StrTok(s) == NonEmpty(Fields(s))
    decreases |s|
  {
    var k := RunLength(s);
    if s == [] {
      assert Fields(s) == [[]];
      assert NonEmpty(Fields(s)) == [] + NonEmpty([]);
    } else if s[0] == SEP {
      assert k == 0;
      var rest := Fields(s[1..]);
      assert Fields(s) == [[]] + rest;
      assert NonEmpty(Fields(s)) == NonEmpty(rest) by { assert ([[]] + rest)[1..] == rest; }
      StrTokIsNonEmptyFields(s[1..]);
    } else if k == |s| {
      assert s[..k] == s && s[k..] == [];
      assert Fields(s) == [s];
      assert NonEmpty([s]) == [s] + NonEmpty([]);
    } else {
      var rest := Fields(s[k + 1..]);
      assert Fields(s) == [s[..k]] + rest;
      assert NonEmpty(Fields(s)) == [s[..k]] + NonEmpty(rest) by { assert ([s[..k]] + rest)[1..] == rest; }
      assert s[k..][0] == SEP && s[k..][1..] == s[k + 1..];
      assert StrTok(s[k..]) == StrTok(s[k + 1..]);
      StrTokIsNonEmptyFields(s[k + 1..]);
    }
  }

  /** Splitting a PATH built from non-empty directories gives those directories back. */
  lemma {:induction false} StrTokJoin(segs: seq<string>)
    requires forall i :: 0 <= i < |segs| ==> segs[i] != [] && SEP !in segs[i]
    ensures StrTok(Join(segs)) == segs
    decreases |segs|
  {
    if segs == [] {
    } else {
      var s := Join(segs);
      var d := segs[0];
      assert d != [] && SEP !in d;
      var tail := if |segs| == 1 then [] else [SEP] + Join(segs[1..]);
      assert s == d + tail;
      RunLengthIs(s, |d|);
      assert s[..|d|] == d && s[|d|..] == tail;
      if |segs| == 1 {
        assert StrTok(s) == [d] + StrTok([]);
      } else {
        assert tail[0] == SEP && tail[1..] == Join(segs[1..]);
        assert StrTok(tail) == StrTok(Join(segs[1..]));
        StrTokJoin(segs[1..]);
        assert segs == [d] + segs[1..];
      }
    }
  }

  /**
   * The number of execv attempts is one for the name as given plus one per
   * non-empty PATH field; the first is the name itself, and attempt i + 1 is
   * the i-th non-empty field followed by "/" and the name.
   */
  lemma CandidatesShape(name: string, path: string)
    ensures var c := Candidates(name, path);
      var dirs := NonEmpty(Fields(path));
      && |c| == 1 + |dirs|
      && c[0] == name
      && forall i :: 0 <= i < |dirs| ==> c[i + 1] == dirs[i] + "/" + name
  {
    StrTokIsNonEmptyFields(path);
  }

  /** A directory followed by ':' or the end of PATH is the next strtok segment. */
  lemma StrTokRun(d: string, rest: string)
    requires d != [] && SEP !in d
    requires rest == [] || rest[0] == SEP
    ensures StrTok(d + rest) == [d] + StrTok(rest)
  {
    var p := d + rest;
    RunLengthIs(p, |d|);
    assert p[..|d|] == d && p[|d|..] == rest;
  }

  /** A ':'-free run followed by ':' is the next field, and the split resumes after the ':'. */
  lemma FieldsRun(d: string, rest: string)
    requires SEP !in d
    requires rest != [] && rest[0] == SEP
    ensures Fields(d + rest) == [d] + Fields(rest[1..])
  {
    var p := d + rest;
    RunLengthIs(p, |d|);
    assert p[..|d|] == d && p[|d| + 1..] == rest[1..];
  }

  /** Prefixing "dir/" to a list whose head is d gives d's path first. */
  lemma InDirsCons(d: string, rest: seq<string>, name: string)
    ensures InDirs([d] + rest, name) == [d + "/" + name] + InDirs(rest, name)
  {
    assert ([d] + rest)[1..] == rest;
  }

  /** A ':'-free string is a single field. */
  lemma FieldsOfRun(d: string)
    requires SEP !in d
    ensures Fields(d) == [d]
  {
    RunLengthIs(d, |d|);
  }

  /** The fields of "a::b". */
  lemma FieldsOfDoubleSep(a: string, b: string)
    requires SEP !in a && SEP !in b
    ensures Fields(a + [SEP, SEP] + b) == [a, [], b]
  {
    var tail := [SEP] + b;
    assert Fields(tail) == [[], b] by {
      assert [] + tail == tail && tail[1..] == b;
      FieldsRun([], tail);
      FieldsOfRun(b);
    }
    assert Fields(a + [SEP, SEP] + b) == [a] + Fields(tail) by {
      assert a + [SEP, SEP] + b == a + ([SEP] + tail);
      assert ([SEP] + tail)[1..] == tail;
      FieldsRun(a, [SEP] + tail);
    }
  }

  /** The directories strtok finds in "a::b". */
  lemma StrTokOfDoubleSep(a: string, b: string)
    requires a != [] && SEP !in a
    requires b != [] && SEP !in b
    ensures StrTok(a + [SEP, SEP] + b) == [a, b]
  {
    var tail := [SEP] + b;
    assert a + [SEP, SEP] + b == a + ([SEP] + tail);
    StrTokRun(a, [SEP] + tail);
    assert ([SEP] + tail)[1..] == tail && tail[1..] == b;
    StrTokRun(b, []);
    assert b + [] == b;
  }

  /**
   * An empty entry between two directories is dropped, not read as the
   * current directory: "a::b" is three fields but only two directories.
   */
  lemma EmptyFieldDropped(a: string, b: string, name: string)
    requires a != [] && SEP !in a
    requires b != [] && SEP !in b
    ensures Fields(a + [SEP, SEP] + b) == [a, [], b]
    ensures Candidates(name, a + [SEP, SEP] + b) == [name, a + "/" + name, b + "/" + name]
  {
    FieldsOfDoubleSep(a, b);
    StrTokOfDoubleSep(a, b);
    InDirsCons(a, [b], name);
    InDirsCons(b, [], name);
  }

  /** strtok's view from position pos, when a ':'-free run ends at end: that run, then the view from end. */
  lemma StrTokAt(path: string, pos: nat, end: nat)
    requires pos < end <= |path|
    requires forall i :: pos <= i < end ==> path[i] != SEP
    requires end == |path| || path[end] == SEP
    ensures StrTok(path[pos..]) == [path[pos..end]] + StrTok(path[end..])
  {
    var s := path[pos..];
    RunLengthIs(s, end - pos);
    assert s[..end - pos] == path[pos..end] && s[end - pos..] == path[end..];
  }

  /** A ':' at position pos contributes no candidate. */
  lemma CandidatesSkip(path: string, pos: nat, name: string)
    requires pos < |path| && path[pos] == SEP
    ensures InDirs(StrTok(path[pos..]), name) == InDirs(StrTok(path[pos + 1..]), name)
  {
    assert path[pos..][1..] == path[pos + 1..];
  }

  /** A ':'-free run from pos to end contributes the one candidate "run/name". */
  lemma CandidatesRun(path: string, pos: nat, end: nat, name: string)
    requires pos < end <= |path|
    requires forall i :: pos <= i < end ==> path[i] != SEP
    requires end == |path| || path[end] == SEP
    ensures InDirs(StrTok(path[pos..]), name) == [path[pos..end] + "/" + name] + InDirs(StrTok(path[end..]), name)
  {
    StrTokAt(path, pos, end);
    InDirsCons(path[pos..end], StrTok(path[end..]), name);
  }

  /**
   * The candidate loop: start with the name as given, then walk PATH the way
   * strtok does, skipping ':' and cutting each maximal run into "run/name".
   */
  method PathCandidates(name: string, path: string) returns (cands: seq<string>)
    ensures cands == Candidates(name, path)
    ensures |cands| >= 1 && cands[0] == name
  {
    cands := [name];
    var pos := 0;
    assert path[pos..] == path;
    while pos < |path|
      invariant 0 <= pos <= |path|
      invariant |cands| >= 1 && cands[0] == name
      invariant cands + InDirs(StrTok(path[pos..]), name) == Candidates(name, path)
      decreases |path| - pos
    {
      if path[pos] == SEP {
        CandidatesSkip(path, pos, name);
        pos := pos + 1;
      } else {
        var end := pos;
        while end < |path| && path[end] != SEP
          invariant pos <= end <= |path|
          invariant forall i :: pos <= i < end ==> path[i] != SEP
          decreases |path| - end
        {
          end := end + 1;
        }
        ghost var rest := InDirs(StrTok(path[end..]), name);
        var cand := path[pos..end] + "/" + name;
        CandidatesRun(path, pos, end, name);
        assert cands + ([cand] + rest) == (cands + [cand]) + rest;
        cands := cands + [cand];
        pos := end;
      }
    }
    assert path[pos..] == [];
  }
}
