/**
 * The builtin registry: the fixed command table, the lookup of a command
 * name in it and the help listing printed from it.
 */
module Builtins {
  import opened Wrappers
  import opened Tokens

  /** One table row; the handler is identified by the row's index. */
  datatype Entry = Entry(cmd: string, doc: string)

  /** cmd_table, in its declared order. */
  const CMD_TABLE: seq<Entry> := [
    Entry("?", "show this help menu"),
    Entry("exit", "exit the command shell"),
    Entry("pwd", ""),
    Entry("cd", "")
  ]

  /** The names of the table rows, in table order. */
  function Names(): seq<string>
  {
    seq(|CMD_TABLE|, i requires 0 <= i < |CMD_TABLE| => CMD_TABLE[i].cmd)
  }

  /** Names lists the table rows' names as they stand in the table. */
  lemma NamesOfTable()
    ensures Names() == ["?", "exit", "pwd", "cd"]
    ensures |Names()| == |CMD_TABLE|
    ensures forall i :: 0 <= i < |CMD_TABLE| ==> Names()[i] == CMD_TABLE[i].cmd
  {
  }

  /** The index lookup returns: -1 for NULL, else the first row named cmd, else -1. */
  function BuiltinIndex(cmd: Option<string>): (r: int)
    ensures -1 <= r < |CMD_TABLE|
  {
    if cmd.None? then -1 else IndexOf(Names(), cmd.value)
  }

  /**
   * lookup: a linear search of the table that compares each row with cmd
   * (skipping the comparison when cmd is NULL) and returns the first match.
   */
  method Lookup(cmd: Option<string>) returns (r: int)
    ensures r == BuiltinIndex(cmd)
    ensures -1 <= r < |CMD_TABLE|
    ensures r == -1 <==> cmd.None? || forall i :: 0 <= i < |CMD_TABLE| ==> CMD_TABLE[i].cmd != cmd.value
    ensures r != -1 ==> CMD_TABLE[r].cmd == cmd.value
    ensures r != -1 ==> forall i :: 0 <= i < r ==> CMD_TABLE[i].cmd != cmd.value
  {
    var names := Names();
    NamesOfTable();
    var i := 0;
    while i < |CMD_TABLE|
      invariant 0 <= i <= |CMD_TABLE|
      invariant cmd.None? || cmd.value !in names[..i]
    {
      if cmd.Some? && CMD_TABLE[i].cmd == cmd.value {
        IndexOfUnique(names, cmd.value, i);
        return i;
      }
      assert names[..i + 1] == names[..i] + [names[i]];
      i := i + 1;
    }
    assert names[..i] == names;
    return -1;
  }

  /** The table as written: "?", "exit", "pwd", "cd" map to 0..3; "help" is not registered. */
  lemma BuiltinIndexTable()
    ensures BuiltinIndex(Some("?")) == 0
    ensures BuiltinIndex(Some("exit")) == 1
    ensures BuiltinIndex(Some("pwd")) == 2
    ensures BuiltinIndex(Some("cd")) == 3
    ensures BuiltinIndex(Some("help")) == -1
    ensures BuiltinIndex(None) == -1
  {
    var names := Names();
    NamesOfTable();
    assert BuiltinIndex(Some("?")) == 0 by { IndexOfUnique(names, "?", 0); }
    assert BuiltinIndex(Some("exit")) == 1 by { IndexOfUnique(names, "exit", 1); }
    assert BuiltinIndex(Some("pwd")) == 2 by { IndexOfUnique(names, "pwd", 2); }
    assert BuiltinIndex(Some("cd")) == 3 by { IndexOfUnique(names, "cd", 3); }
  }

  /** The row names are pairwise distinct, so every row is reachable by lookup. */
  lemma EveryRowFound(i: nat)
    requires i < |CMD_TABLE|
    ensures BuiltinIndex(Some(CMD_TABLE[i].cmd)) == i
  {
    var names := Names();
    NamesOfTable();
    assert CMD_TABLE[i].cmd !in names[..i];
    IndexOfUnique(names, CMD_TABLE[i].cmd, i);
  }

  /** One line of the help listing: "cmd - doc". Its command is read back from its front. */
  function HelpLine(e: Entry): (line: string)
    ensures ' ' !in e.cmd ==> LineCommand(line) == e.cmd
  {
    if ' ' !in e.cmd then LineCommandPrefix(e.cmd, " - " + e.doc); e.cmd + (" - " + e.doc)
    else e.cmd + " - " + e.doc
  }

  /**
   * cmd_help: one line per table row, in table order; always returns 1.
   * The printed text is returned as the sequence of lines.
   */
  method Help() returns (lines: seq<string>, status: int)
    ensures status == 1
    ensures |lines| == |CMD_TABLE|
    ensures forall i :: 0 <= i < |lines| ==> lines[i] == HelpLine(CMD_TABLE[i])
  {
    lines := [];
    var i := 0;
    while i < |CMD_TABLE|
      invariant 0 <= i <= |CMD_TABLE|
      invariant |lines| == i
      invariant forall k :: 0 <= k < i ==> lines[k] == HelpLine(CMD_TABLE[k])
    {
      lines := lines + [HelpLine(CMD_TABLE[i])];
      i := i + 1;
    }
    status := 1;
  }

  /** The command a help line is about: its text up to the first space. */
  function LineCommand(line: string): string
    decreases |line|
  {
    if line == [] || line[0] == ' ' then [] else [line[0]] + LineCommand(line[1..])
  }

  /** A name without spaces is read back from the front of any text that starts with a space after it. */
  lemma {:induction false} LineCommandPrefix(c: string, rest: string)
    requires ' ' !in c
    requires rest != [] && rest[0] == ' '
    ensures LineCommand(c + rest) == c
    decreases |c|
  {
    if c == [] {
      assert c + rest == rest;
    } else {
      assert (c + rest)[1..] == c[1..] + rest;
      assert ' ' !in c[1..] by { assert forall k :: 0 <= k < |c[1..]| ==> c[1..][k] == c[k + 1]; }
      LineCommandPrefix(c[1..], rest);
    }
  }

  /**
   * The help listing names every row exactly once, in table order: line i
   * is about row i, and no two lines are about the same command.
   */
  lemma HelpListsEachRowOnce(lines: seq<string>)
    requires |lines| == |CMD_TABLE|
    requires forall i :: 0 <= i < |lines| ==> lines[i] == HelpLine(CMD_TABLE[i])
    ensures forall i :: 0 <= i < |lines| ==> LineCommand(lines[i]) == CMD_TABLE[i].cmd
    ensures forall i, j :: 0 <= i < j < |lines| ==> LineCommand(lines[i]) != LineCommand(lines[j])
  {
    forall i | 0 <= i < |lines|
      ensures LineCommand(lines[i]) == CMD_TABLE[i].cmd
    {
      assert ' ' !in CMD_TABLE[i].cmd;
    }
  }
}
