/**
 * The redirection planner of cmd_exec: find the first ">" and the first "<",
 * choose a branch ("> " is tested first), split the line into the argument
 * vector before the operator and the target after it.
 */
module Redirection {
  import opened Wrappers
  import opened Tokens
  import opened ArgVector

  const OUT_OP: string := ">"
  const IN_OP: string := "<"

  /**
   * What cmd_exec does with a line. Plain runs every token as argv; Out sends
   * standard output and error to target; In reads standard input from
   * target. target is None when the operator is the last token.
   */
  datatype Plan =
    | Plain(argv: seq<string>)
    | Out(argv: seq<string>, target: Option<string>)
    | In(argv: seq<string>, target: Option<string>)

  /**
   * The plan cmd_exec chooses for a line. argv is always a prefix of the
   * line; a redirection stops it before its operator, and no ">" reaches the
   * argv of a line that is redirected at all.
   */
  function PlanOf(tokens: seq<string>): (p: Plan)
    ensures |p.argv| <= |tokens| && p.argv == tokens[..|p.argv|]
    ensures !p.Plain? ==> |p.argv| < |tokens|
    ensures p.Out? ==> OUT_OP !in p.argv && tokens[|p.argv|] == OUT_OP
    ensures p.In? ==> OUT_OP !in tokens && IN_OP !in p.argv && tokens[|p.argv|] == IN_OP
  {
    var outPos := IndexOf(tokens, OUT_OP);
    var inPos := IndexOf(tokens, IN_OP);
    if outPos != -1 then Out(tokens[..outPos], TokenAt(tokens, outPos + 1))
    else if inPos != -1 then In(tokens[..inPos], TokenAt(tokens, inPos + 1))
    else Plain(tokens)
  }

  /** detect_out_direction: first index of ">", or -1. */
  method DetectOut(tokens: seq<string>) returns (i: int)
    ensures i == IndexOf(tokens, OUT_OP)
    ensures -1 <= i < |tokens|
    ensures i == -1 <==> OUT_OP !in tokens
    ensures i != -1 ==> tokens[i] == OUT_OP && OUT_OP !in tokens[..i]
  {
    i := FindToken(tokens, OUT_OP);
  }

  /** detect_in_direction: first index of "<", or -1. */
  method DetectIn(tokens: seq<string>) returns (i: int)
    ensures i == IndexOf(tokens, IN_OP)
    ensures -1 <= i < |tokens|
    ensures i == -1 <==> IN_OP !in tokens
    ensures i != -1 ==> tokens[i] == IN_OP && IN_OP !in tokens[..i]
  {
    i := FindToken(tokens, IN_OP);
  }

  /**
   * The planning half of cmd_exec: both detections first, then the branch,
   * the argv array filled in place with its NULL sentinel, and the target
   * read from the token after the operator.
   */
  method PlanCommand(tokens: seq<string>) returns (plan: Plan, argv: array<Option<string>>)
    ensures fresh(argv)
    ensures plan == PlanOf(tokens)
    ensures argv.Length == |plan.argv| + 1
    ensures argv[..] == Argv(plan.argv)
  {
    var outPos := DetectOut(tokens);
    var inPos := DetectIn(tokens);
    if outPos != -1 {
      argv := BuildArgv(tokens, outPos);
      plan := Out(tokens[..outPos], TokenAt(tokens, outPos + 1));
    } else if inPos != -1 {
      argv := BuildArgv(tokens, inPos);
      plan := In(tokens[..inPos], TokenAt(tokens, inPos + 1));
    } else {
      argv := BuildArgv(tokens, |tokens|);
      assert tokens[..|tokens|] == tokens;
      plan := Plain(tokens);
    }
  }

  /** The branch taken: Out exactly when ">" occurs; In exactly when "<" does and ">" does not. */
  lemma PlanBranch(tokens: seq<string>)
    ensures PlanOf(tokens).Out? <==> OUT_OP in tokens
    ensures PlanOf(tokens).In? <==> OUT_OP !in tokens && IN_OP in tokens
    ensures PlanOf(tokens).Plain? <==> OUT_OP !in tokens && IN_OP !in tokens
    ensures PlanOf(tokens).Plain? ==> PlanOf(tokens).argv == tokens
  {
  }

  /**
   * A redirected line splits at its first operator i: argv is tokens[0..i),
   * the operator itself is token i, and the target is token i + 1 when there
   * is one. Neither the operator nor anything after it reaches argv.
   */
  lemma RedirectSplit(tokens: seq<string>)
    requires !PlanOf(tokens).Plain?
    ensures var p := PlanOf(tokens);
      var op := if p.Out? then OUT_OP else IN_OP;
      var i := |p.argv|;
      && i < |tokens|
      && p.argv == tokens[..i]
      && tokens[i] == op
      && op !in p.argv
      && (p.target.Some? <==> i + 1 < |tokens|)
      && (p.target.Some? ==> tokens[..i + 2] == p.argv + [op, p.target.value])
  {
    var p := PlanOf(tokens);
    var i := |p.argv|;
    if p.target.Some? {
      assert tokens[..i + 2] == tokens[..i] + [tokens[i], tokens[i + 1]];
    }
  }

  /**
   * Output wins: when both operators occur, the line is an output
   * redirection whichever comes first, and a "<" before the ">" is passed to
   * the program as an ordinary argument.
   */
  lemma OutputWins(tokens: seq<string>)
    requires OUT_OP in tokens && IN_OP in tokens
    ensures PlanOf(tokens).Out?
    ensures IndexOf(tokens, IN_OP) < IndexOf(tokens, OUT_OP) ==> IN_OP in PlanOf(tokens).argv
  {
    var o := IndexOf(tokens, OUT_OP);
    var i := IndexOf(tokens, IN_OP);
    if i < o {
      assert tokens[..o][i] == IN_OP;
    }
  }

  /** The line "sort < in.txt > out.txt" writes to out.txt and runs sort with the arguments "<" and "in.txt". */
  lemma OutputWinsExample()
    ensures PlanOf(["sort", "<", "in.txt", ">", "out.txt"]) == Out(["sort", "<", "in.txt"], Some("out.txt"))
  {
  }
}
