/**
 * The token sequence of one input line (the output of the tokenizer, which
 * is not part of this model) and the linear searches the shell runs over it.
 */
module Tokens {
  import opened Wrappers

  /**
   * Position of the first element of s equal to x, or -1 when there is none.
   * This is the value of the early-return search loops over the tokens and
   * over the builtin table.
   */
  function IndexOf(s: seq<string>, x: string): (r: int)
    ensures -1 <= r < |s|
    ensures r == -1 <==> x !in s
    ensures r != -1 ==> s[r] == x && x !in s[..r]
    decreases |s|
  {
    if |s| == 0 then -1
    else if s[0] == x then 0
    else
      var k := IndexOf(s[1..], x);
      if k == -1 then -1
      else
        assert s[..k + 1] == [s[0]] + s[1..][..k];
        k + 1
  }

  /** The first occurrence is unique: any index with x and no earlier x is IndexOf. */
  lemma IndexOfUnique(s: seq<string>, x: string, i: nat)
    requires i < |s| && s[i] == x && x !in s[..i]
    ensures IndexOf(s, x) == i
  {
    assert s[i] in s;
  }

  /**
   * tokens_get_token: the token at index i, or None (NULL) when i is not an
   * index of the line.
   */
  function TokenAt(tokens: seq<string>, i: int): Option<string>
  {
    if 0 <= i < |tokens| then Some(tokens[i]) else None
  }

  /**
   * The loop shared by detect_out_direction and detect_in_direction: scan the
   * tokens left to right and return the index of the first one equal to op,
   * or -1 after the last token.
   */
  method FindToken(tokens: seq<string>, op: string) returns (i: int)
    ensures i == IndexOf(tokens, op)
    ensures i == -1 <==> op !in tokens
    ensures i != -1 ==> 0 <= i < |tokens| && tokens[i] == op && op !in tokens[..i]
  {
    var j := 0;
    while j < |tokens|
      invariant 0 <= j <= |tokens|
      invariant op !in tokens[..j]
    {
      if tokens[j] == op {
        IndexOfUnique(tokens, op, j);
        return j;
      }
      assert tokens[..j + 1] == tokens[..j] + [tokens[j]];
      j := j + 1;
    }
    assert tokens[..j] == tokens;
    return -1;
  }
}
