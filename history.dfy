/**
 * The command history of a REPL view (sublimerepl.py): the in-memory
 * history `MemHistory` with the de-duplicating `push` of `History`, and the
 * `HistoryMatchList` that `match` hands back for browsing the commands that
 * start with what the user has typed.
 */
module History {
  import opened Py

  /** A key press while browsing: `prev_command` or `next_command`. */
  datatype Move = Prev | Next

  /** The index one move takes `cur` to in a list of `n` matches (`max(0, cur - 1)`, `min(n - 1, cur + 1)`). */
  function Moved(cur: int, n: nat, m: Move): int {
    match m
    case Prev => if cur - 1 >= 0 then cur - 1 else 0
    case Next => if n - 1 <= cur + 1 then n - 1 else cur + 1
  }

  /** The index after a series of moves, starting where `HistoryMatchList` starts: one past the last match. */
  function Browsed(n: nat, moves: seq<Move>): int
    decreases |moves|
  {
    if moves == [] then n else Moved(Browsed(n, moves[..|moves| - 1]), n, moves[|moves| - 1])
  }

  /**
   * Browsing never leaves the list: the index stays in `-1..n`, and after at
   * least one move over a non-empty list it names a match.
   */
  lemma {:induction false} BrowsedInRange(n: nat, moves: seq<Move>)
    ensures -1 <= Browsed(n, moves) <= n
    ensures n > 0 && moves != [] ==> 0 <= Browsed(n, moves) < n
    decreases |moves|
  {
    if moves != [] {
      BrowsedInRange(n, moves[..|moves| - 1]);
    }
  }

  /** `k` presses of `prev_command` from the start show the `k`-th most recent match, stopping at the oldest. */
  lemma {:induction false} PrevTimes(n: nat, k: nat)
    requires 0 < k
    ensures Browsed(n, seq(k, _ => Prev)) == if n - k >= 0 then n - k else 0
    decreases k
  {
    var moves := seq(k, _ => Prev);
    assert moves[..k - 1] == seq(k - 1, _ => Prev);
    if k > 1 {
      PrevTimes(n, k - 1);
    }
  }

  /** `HistoryMatchList`: the matching commands, oldest first, and the browsing index. */
  class MatchList {
    const prefix: string
    const commands: seq<string>
    var cur: int

    ghost predicate Valid()
      reads this
    {
      -1 <= cur <= |commands| && (commands != [] ==> 0 <= cur)
    }

    constructor (prefix: string, commands: seq<string>)
      ensures this.prefix == prefix && this.commands == commands
      ensures cur == |commands| && Valid()
    {
      this.prefix := prefix;
      this.commands := commands;
      cur := |commands|;
    }

    /**
     * `current_command()`: `""` when nothing matched, IndexError at the start
     * position (one past the last match), and otherwise the match under the
     * index.
     */
    function Current(): (r: Result<string>)
      reads this
      requires Valid()
      ensures r.Raise? <==> commands != [] && cur == |commands|
      ensures r.Raise? ==> r.error == IndexError
      ensures r.Ok? ==> (commands == [] && r.value == "") || (0 <= cur < |commands| && r.value == commands[cur])
    {
      if commands == [] then Ok("")
      else if cur == |commands| then Raise(IndexError)
      else Ok(commands[cur])
    }

    /** `prev_command()`: one match back, stopping at the oldest; it never raises. */
    method PrevCommand() returns (r: Result<string>)
      requires Valid()
      modifies this`cur
      ensures Valid() && cur == Moved(old(cur), |commands|, Prev)
      ensures r == Current() && r.Ok?
    {
      cur := if cur - 1 >= 0 then cur - 1 else 0;
      r := Current();
    }

    /** `next_command()`: one match on, stopping at the newest; it never raises. */
    method NextCommand() returns (r: Result<string>)
      requires Valid()
      modifies this`cur
      ensures Valid() && cur == Moved(old(cur), |commands|, Next)
      ensures r == Current() && r.Ok?
    {
      cur := if |commands| - 1 <= cur + 1 then |commands| - 1 else cur + 1;
      r := Current();
    }
  }

  /** The commands of `cmds` that start with `prefix`, in their order (the loop of `MemHistory.match`). */
  function Matching(cmds: seq<string>, prefix: string): (r: seq<string>)
    ensures |r| <= |cmds|
    decreases |cmds|
  {
    if cmds == [] then []
    else
      var last := cmds[|cmds| - 1];
      Matching(cmds[..|cmds| - 1], prefix) + (if StartsWith(last, prefix) then [last] else [])
  }

  /** A command is among the matches exactly when it is stored and starts with the prefix. */
  lemma {:induction false} MatchingExactly(cmds: seq<string>, prefix: string, c: string)
    ensures c in Matching(cmds, prefix) <==> c in cmds && StartsWith(c, prefix)
    decreases |cmds|
  {
    if cmds != [] {
      var init := cmds[..|cmds| - 1];
      MatchingExactly(init, prefix, c);
      assert cmds == init + [cmds[|cmds| - 1]];
    }
  }

  /** Matches keep the stored order: those of older commands come before those of newer ones. */
  lemma {:induction false} MatchingKeepsOrder(older: seq<string>, newer: seq<string>, prefix: string)
    ensures Matching(older + newer, prefix) == Matching(older, prefix) + Matching(newer, prefix)
    decreases |newer|
  {
    if newer == [] {
      assert older + newer == older;
    } else {
      var init := newer[..|newer| - 1];
      assert (older + newer)[..|older + newer| - 1] == older + init;
      MatchingKeepsOrder(older, init, prefix);
    }
  }

  /** The empty prefix matches every stored command. */
  lemma {:induction false} MatchingEmptyPrefix(cmds: seq<string>)
    ensures Matching(cmds, []) == cmds
    decreases |cmds|
  {
    if cmds != [] {
      MatchingEmptyPrefix(cmds[..|cmds| - 1]);
      assert cmds[..|cmds| - 1] + [cmds[|cmds| - 1]] == cmds;
    }
  }

  /** Stripping trailing whitespace twice strips nothing more. */
  lemma RStripTwice(s: string)
    ensures RStrip(RStrip(s)) == RStrip(s)
  {
  }

  /** `MemHistory` with the `push` of `History`: the stored commands and the last one pushed. */
  class MemHistory {
    var last: Option<string>
    var stack: seq<string>

    /**
     * Every stored command is non-blank and has no trailing whitespace, no
     * command is stored twice in a row, and `last` is the newest one.
     */
    ghost predicate Valid()
      reads this
    {
      (forall i :: 0 <= i < |stack| ==> stack[i] != [] && RStrip(stack[i]) == stack[i]) &&
      (forall i :: 0 < i < |stack| ==> stack[i] != stack[i - 1]) &&
      last == (if stack == [] then None else Some(stack[|stack| - 1]))
    }

    constructor ()
      ensures stack == [] && last == None && Valid()
    {
      last := None;
      stack := [];
    }

    /** `append(cmd)`: the command goes on top of the stack. */
    method Append(cmd: string)
      modifies this`stack
      ensures stack == old(stack) + [cmd]
    {
      stack := stack + [cmd];
    }

    /** `push(command)`: store the command without trailing whitespace, unless it is blank or repeats the last one. */
    method Push(command: string)
      requires Valid()
      modifies this
      ensures Valid()
      ensures var cmd := RStrip(command);
        if cmd == [] || Some(cmd) == old(last) then stack == old(stack) && last == old(last)
        else stack == old(stack) + [cmd] && last == Some(cmd)
    {
      var cmd := RStrip(command);
      if cmd == [] || Some(cmd) == last {
        return;
      }
      RStripTwice(command);
      Append(cmd);
      last := Some(cmd);
    }

    /** `match(command_prefix)`: the stored commands with that prefix, oldest first, ready to browse from the newest. */
    method Match(prefix: string) returns (m: MatchList)
      ensures fresh(m) && m.Valid() && m.prefix == prefix
      ensures m.commands == Matching(stack, prefix) && m.cur == |m.commands|
    {
      var matching: seq<string> := [];
      for i := 0 to |stack|
        invariant matching == Matching(stack[..i], prefix)
      {
        assert stack[..i + 1][..i] == stack[..i];
        if StartsWith(stack[i], prefix) {
          matching := matching + [stack[i]];
        }
      }
      assert stack[..|stack|] == stack;
      m := new MatchList(prefix, matching);
    }
  }
}
