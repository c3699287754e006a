/**
 * The argument vector handed to execv: the words of the command followed by
 * a NULL sentinel (None), built in place in a stack array.
 */
module ArgVector {
  import opened Wrappers

  /** The NULL-terminated vector holding words in order. */
  function Argv(words: seq<string>): (v: seq<Option<string>>)
    ensures |v| == |words| + 1
    ensures v[|words|] == None
    ensures forall j :: 0 <= j < |words| ==> v[j] == Some(words[j])
    decreases |words|
  {
    if words == [] then [None] else [Some(words[0])] + Argv(words[1..])
  }

  /** What execv reads from a vector: the strings before the first NULL. */
  function UntilNull(v: seq<Option<string>>): seq<string>
    decreases |v|
  {
    if v == [] || v[0].None? then [] else [v[0].value] + UntilNull(v[1..])
  }

  /** The program started with Argv(words) receives exactly words as its arguments. */
  lemma {:induction false} UntilNullArgv(words: seq<string>)
    ensures UntilNull(Argv(words)) == words
    decreases |words|
  {
    if words != [] {
      var v := Argv(words);
      assert v[1..] == Argv(words[1..]);
      UntilNullArgv(words[1..]);
    }
  }

  /**
   * The for loops of cmd_exec and cmd_exec_helper: a fresh array of n + 1
   * slots, slot j set to token j for j < n, and slot n set to NULL.
   */
  method BuildArgv(tokens: seq<string>, n: nat) returns (argv: array<Option<string>>)
    requires n <= |tokens|
    ensures fresh(argv)
    ensures argv.Length == n + 1
    ensures argv[..] == Argv(tokens[..n])
  {
    argv := new Option<string>[n + 1](_ => None);
    var j := 0;
    while j < n
      invariant 0 <= j <= n
      invariant forall k :: 0 <= k < j ==> argv[k] == Some(tokens[k])
    {
      argv[j] := Some(tokens[j]);
      j := j + 1;
    }
    argv[n] := None;
    assert forall k :: 0 <= k < n ==> tokens[..n][k] == tokens[k];
  }
}
