/**
 * The per-line decision of the shell loop: a builtin runs in the shell
 * process; any other line is handed to a child, which does nothing for a
 * line ending in "&" and otherwise carries out the cmd_exec plan.
 */
module Shell {
  import opened Wrappers
  import opened Builtins
  import opened Redirection

  const BACKGROUND_OP: string := "&"

  /**
   * detect_background_proce: the line is some line followed by a separate
   * "&" token. It reads token length - 1, so the line must not be empty.
   */
  function IsBackground(tokens: seq<string>): (b: bool)
    requires |tokens| > 0
    ensures b <==> exists front :: tokens == front + [BACKGROUND_OP]
  {
    assert tokens == tokens[..|tokens| - 1] + [tokens[|tokens| - 1]];
    tokens[|tokens| - 1] == BACKGROUND_OP
  }

  /** What happens to one input line. */
  datatype Action =
    | RunBuiltin(index: nat)   // cmd_table[index].fun runs in the shell process
    | BackgroundSkipped        // the child sees the "&" and runs nothing
    | Execute(plan: Plan)      // the child runs cmd_exec with this plan

  /** The branch main takes for a non-empty line: lookup of token 0, then the child's test for "&". */
  function Dispatch(tokens: seq<string>): (a: Action)
    requires |tokens| > 0
    ensures a.RunBuiltin? ==> a.index < |CMD_TABLE| && CMD_TABLE[a.index].cmd == tokens[0]
  {
    var fundex := BuiltinIndex(Some(tokens[0]));
    if fundex >= 0 then RunBuiltin(fundex)
    else if IsBackground(tokens) then BackgroundSkipped
    else Execute(PlanOf(tokens))
  }

  /**
   * The lookup comes first: a line whose first token names a builtin runs
   * that builtin, whatever follows it, so "pwd > f" and "cd d &" are neither
   * redirected nor backgrounded.
   */
  lemma BuiltinFirst(tokens: seq<string>, i: nat)
    requires |tokens| > 0 && i < |CMD_TABLE| && tokens[0] == CMD_TABLE[i].cmd
    ensures Dispatch(tokens) == RunBuiltin(i)
  {
    EveryRowFound(i);
  }

  /**
   * A child is handed a plan exactly when the first token is not a builtin
   * and the line does not end in "&"; a line ending in "&" is never
   * executed.
   */
  lemma ExecuteIff(tokens: seq<string>)
    requires |tokens| > 0
    ensures Dispatch(tokens).Execute? <==>
      (forall i :: 0 <= i < |CMD_TABLE| ==> CMD_TABLE[i].cmd != tokens[0]) && !IsBackground(tokens)
    ensures Dispatch(tokens).Execute? ==> Dispatch(tokens).plan == PlanOf(tokens)
    ensures Dispatch(tokens) == BackgroundSkipped <==>
      (forall i :: 0 <= i < |CMD_TABLE| ==> CMD_TABLE[i].cmd != tokens[0]) && IsBackground(tokens)
  {
    var names := Names();
    if exists i :: 0 <= i < |CMD_TABLE| && CMD_TABLE[i].cmd == tokens[0] {
      var i :| 0 <= i < |CMD_TABLE| && CMD_TABLE[i].cmd == tokens[0];
      assert names[i] == tokens[0];
    } else {
      assert tokens[0] !in names;
    }
  }

  /** The help command "?" is a builtin; "help" is not in the table and goes to a child. */
  lemma HelpSpelling(rest: seq<string>)
    ensures Dispatch(["?"] + rest) == RunBuiltin(0)
    ensures (|rest| == 0 || rest[|rest| - 1] != BACKGROUND_OP) ==>
      Dispatch(["help"] + rest) == Execute(PlanOf(["help"] + rest))
  {
    BuiltinIndexTable();
    var t := ["help"] + rest;
    assert t[|t| - 1] == if rest == [] then "help" else rest[|rest| - 1];
  }
}
