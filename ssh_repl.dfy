/**
 * Line assembly of the SSH REPL on Windows (repls/ssh_repl.py): the output
 * of the `ssh` process is read one byte at a time into a list until the
 * list looks like the end of a line or of a prompt. The process's output is
 * a parameter here: the successive results of `stdout.read(1)`, each one
 * byte, or none once the stream has ended.
 */
module SshRepl {
  import opened Py

  /** One `read(1)`: a single byte, or `b''` at the end of the stream. */
  type Chunk = Bytes

  const NewlineByte: Chunk := [10]
  const CarriageReturn: Chunk := [13]
  /** BEL, which ends the terminal-title sequence before a shell prompt */
  const TerminalByte: Chunk := [7]
  /** `$ ` */
  const TerminalEnd: seq<Chunk> := [[36], [32]]
  /** `ESC ] 0 ;`, the start of a terminal-title sequence */
  const EofBytes: seq<Chunk> := [[27], [93], [48], [59]]
  /** `>>> ` */
  const PythonBytes: seq<Chunk> := [[62], [62], [62], [32]]
  /** `root@` */
  const DockerBytes: seq<Chunk> := [[114], [111], [111], [116], [64]]
  /** `# ` */
  const DockerEnd: seq<Chunk> := [[35], [32]]

  /** `_starts_with(arr, byte_list)`: `byte_list[:len(arr)] == arr` is list-prefix equality. */
  function ListStartsWith(arr: seq<Chunk>, list: seq<Chunk>): (r: bool)
    ensures r <==> StartsWith(list, arr)
  {
    Prefix(list, |arr|) == arr
  }

  /** `_ends_with(arr, byte_list)`: `byte_list[-len(arr):] == arr` is list-suffix equality for a non-empty `arr`. */
  function ListEndsWith(arr: seq<Chunk>, list: seq<Chunk>): (r: bool)
    requires arr != []
    ensures r <==> EndsWith(list, arr)
  {
    Suffix(list, -|arr|) == arr
  }

  /** The five ways a list can end a line. */
  predicate EndsLine(list: seq<Chunk>)
    requires list != []
  {
    var last := list[|list| - 1];
    last == [] || last == NewlineByte || EndsWith(list, EofBytes) ||
    (EndsWith(list, TerminalEnd) && TerminalByte in list) || EndsWith(list, PythonBytes) ||
    (StartsWith(list, DockerBytes) && EndsWith(list, DockerEnd))
  }

  /**
   * `_check_eol(byte_list)`: whether the list ends a line, and whether it
   * does so as a shell prompt behind a terminal title (`$ ` with a BEL
   * before it), the one case that has a prefix to drop.
   */
  function CheckEol(list: seq<Chunk>): (r: (bool, bool))
    requires list != []
    ensures r.0 <==> EndsLine(list)
    ensures r.1 <==> EndsWith(list, TerminalEnd) && TerminalByte in list
    ensures r.1 ==> r.0
  {
    var last := list[|list| - 1];
    if last == [] || last == NewlineByte then (true, false)
    else if ListEndsWith(EofBytes, list) then (true, false)
    else if ListEndsWith(TerminalEnd, list) && TerminalByte in list then (true, true)
    else if ListEndsWith(PythonBytes, list) then (true, false)
    else if ListStartsWith(DockerBytes, list) && ListEndsWith(DockerEnd, list) then (true, false)
    else (false, false)
  }

  /** What follows the first BEL, behind a terminal title; the whole list otherwise. */
  function Kept(list: seq<Chunk>, terminalPrefix: bool): (k: seq<Chunk>)
    requires terminalPrefix ==> TerminalByte in list
    ensures !terminalPrefix ==> k == list
    ensures terminalPrefix ==>
      exists i :: (0 <= i < |list| && list[i] == TerminalByte && TerminalByte !in list[..i] && k == list[i + 1..])
  {
    if terminalPrefix then
      var i := IndexOf(list, TerminalByte);
      assert TerminalByte !in list[..i];
      list[i + 1..]
    else list
  }

  /**
   * What `read_bytes` keeps of a list that ends a line (`Kept`): a bare
   * title start is dropped, one at the end becomes a newline, and anything
   * else is kept whole. No title start survives at the end.
   */
  function Trimmed(list: seq<Chunk>, terminalPrefix: bool): (r: seq<Chunk>)
    requires terminalPrefix ==> TerminalByte in list
    ensures var kept := Kept(list, terminalPrefix);
      (kept == EofBytes ==> r == []) &&
      (EndsWith(kept, EofBytes) && kept != EofBytes ==> r == kept[..|kept| - |EofBytes|] + [NewlineByte]) &&
      (!EndsWith(kept, EofBytes) ==> r == kept)
    ensures !EndsWith(r, EofBytes)
  {
    var kept := Kept(list, terminalPrefix);
    if |kept| == |EofBytes| && kept == EofBytes then []
    else if ListEndsWith(EofBytes, kept) then
      var r := Prefix(kept, -|EofBytes|) + [NewlineByte];
      assert r[|r| - 1] != EofBytes[3];
      r
    else kept
  }

  /**
   * A shell prompt behind a terminal title, `ESC]0;<title> BEL <prompt>$ `
   * with no BEL in the title, is returned as `<prompt>$ ` alone.
   */
  lemma TitleDropped(title: seq<Chunk>, prompt: seq<Chunk>)
    requires TerminalByte !in title
    ensures var list := title + [TerminalByte] + prompt + TerminalEnd;
      CheckEol(list) == (true, true) && Trimmed(list, true) == prompt + TerminalEnd
  {
    TitleEol(title, prompt);
    TitleTrimmed(title, prompt);
  }

  /** The title line ends with the prompt's terminal bytes and holds a BEL. */
  lemma TitleEol(title: seq<Chunk>, prompt: seq<Chunk>)
    ensures var list := title + [TerminalByte] + prompt + TerminalEnd;
      CheckEol(list) == (true, true)
  {
    var list := title + [TerminalByte] + prompt + TerminalEnd;
    assert list[|title|] == TerminalByte;
    assert TerminalByte in list;
    assert list[|list| - 2..] == TerminalEnd;
    assert list[|list| - 1] != [] && list[|list| - 1] != NewlineByte;
  }

  /** Trimming the title line drops the title up to the first BEL and keeps the rest. */
  lemma TitleTrimmed(title: seq<Chunk>, prompt: seq<Chunk>)
    requires TerminalByte !in title
    ensures var list := title + [TerminalByte] + prompt + TerminalEnd;
      Trimmed(list, true) == prompt + TerminalEnd
  {
    var list := title + [TerminalByte] + prompt + TerminalEnd;
    var tail := prompt + TerminalEnd;
    assert list == title + [TerminalByte] + tail;
    assert !EndsWith(list, EofBytes) by {
      assert list[|list| - 1] != EofBytes[3];
    }
    assert list[|title|] == TerminalByte;
    var i := IndexOf(list, TerminalByte);
    assert list[..|title|] == title;
    assert i == |title|;
    assert list[i + 1..] == tail;
    assert !EndsWith(tail, EofBytes) by {
      assert tail[|tail| - 1] != EofBytes[3];
    }
  }

  /** What one chunk does to the pending list: it stays pending, or a line is complete. */
  datatype Step = Pending(list: seq<Chunk>) | Complete(items: seq<Chunk>)

  /** One pass of the Windows loop of `read_bytes` with chunk `b` on the pending `list`. */
  function Fed(list: seq<Chunk>, b: Chunk): (r: Step)
    ensures r.Complete? ==> r.items != []
    ensures b == CarriageReturn ==> r == Pending(list)
  {
    if b == CarriageReturn then Pending(list)
    else
      var l1 := list + [b];
      var (eol, terminalPrefix) := CheckEol(l1);
      if !eol then Pending(l1)
      else
        var l2 := Trimmed(l1, terminalPrefix);
        if l2 == [] then Pending([]) else Complete(l2)
  }

  /** The space that completes `$ ` behind a terminal title hands back the prompt without the title. */
  lemma FedTitlePrompt(title: seq<Chunk>, prompt: seq<Chunk>)
    requires TerminalByte !in title
    ensures Fed(title + [TerminalByte] + prompt + [TerminalEnd[0]], TerminalEnd[1]) ==
      Complete(prompt + TerminalEnd)
  {
    var list := title + [TerminalByte] + prompt + TerminalEnd;
    assert title + [TerminalByte] + prompt + [TerminalEnd[0]] + [TerminalEnd[1]] == list;
    TitleDropped(title, prompt);
  }

  /** Where reading stands: a line was assembled from the items, or the input ran out with a list pending. */
  datatype Read = Line(items: seq<Chunk>, used: nat) | Starved(list: seq<Chunk>)

  /** The Windows branch of `read_bytes`, from the pending `list` and the input from `i` on. */
  function ReadFrom(list: seq<Chunk>, input: seq<Chunk>, i: nat): (r: Read)
    requires i <= |input|
    ensures r.Line? ==> r.items != [] && i < r.used <= |input|
    decreases |input| - i
  {
    if i == |input| then Starved(list)
    else
      match Fed(list, input[i])
      case Pending(l) => ReadFrom(l, input, i + 1)
      case Complete(items) => Line(items, i + 1)
  }

  /** A carriage return never enters a line (the `\r\n` to `\n` translation). */
  lemma {:induction false} ReadDropsCarriageReturns(list: seq<Chunk>, input: seq<Chunk>, i: nat)
    requires i <= |input| && CarriageReturn !in list
    ensures var r := ReadFrom(list, input, i); r.Line? ==> CarriageReturn !in r.items
    decreases |input| - i
  {
    if i < |input| {
      FedDropsCarriageReturns(list, input[i]);
      match Fed(list, input[i])
      case Pending(l) => ReadDropsCarriageReturns(l, input, i + 1);
      case Complete(_) =>
    }
  }

  /** One chunk never brings a carriage return into the pending list or a completed line. */
  lemma FedDropsCarriageReturns(list: seq<Chunk>, b: Chunk)
    requires CarriageReturn !in list
    ensures match Fed(list, b)
      case Pending(l) => CarriageReturn !in l
      case Complete(items) => CarriageReturn !in items
  {
    if b != CarriageReturn {
      var l1 := list + [b];
      assert CarriageReturn !in l1;
      var (eol, terminalPrefix) := CheckEol(l1);
      if eol && terminalPrefix {
        var kept := l1[IndexOf(l1, TerminalByte) + 1..];
        assert forall c :: c in kept ==> c in l1;
      }
    }
  }

  /**
   * A plain line — no CR, no BEL, no early line end, ending in a newline —
   * is returned whole, after exactly its own chunks.
   */
  lemma {:induction false} ReadPlainLine(items: seq<Chunk>, rest: seq<Chunk>, k: nat)
    requires items != [] && items[|items| - 1] == NewlineByte && k < |items|
    requires forall j :: 0 <= j < |items| ==> items[j] != CarriageReturn && items[j] != TerminalByte
    requires forall j :: 1 <= j < |items| ==> !EndsLine(items[..j])
    ensures ReadFrom(items[..k], items + rest, k) == Line(items, |items|)
    decreases |items| - k
  {
    var input := items + rest;
    var l1 := items[..k] + [input[k]];
    assert input[k] == items[k];
    assert l1 == items[..k + 1];
    if k + 1 < |items| {
      assert !EndsLine(l1);
      assert Fed(items[..k], input[k]) == Pending(items[..k + 1]);
      ReadPlainLine(items, rest, k + 1);
    } else {
      assert l1 == items;
      assert TerminalByte !in items;
      assert !EndsWith(items, EofBytes) by {
        assert items[|items| - 1] != EofBytes[3];
      }
      assert Fed(items[..k], input[k]) == Complete(items);
    }
  }

  /**
   * The body of the Windows loop of `read_bytes` for one chunk: a `\r` is
   * skipped; any other chunk is appended, and at a line end the
   * terminal-title prefix is dropped and a title start dropped or replaced.
   */
  method Feed(byteList: seq<Chunk>, b: Chunk) returns (r: Step)
    ensures r == Fed(byteList, b)
  {
    if b == CarriageReturn {
      return Pending(byteList);
    }
    var list := byteList + [b];
    var (eol, terminalPrefix) := CheckEol(list);
    if !eol {
      return Pending(list);
    }
    ghost var whole := list;
    if terminalPrefix {
      var endIndex := IndexOf(list, TerminalByte);
      list := list[endIndex + 1..];
    }
    if |list| == |EofBytes| && list == EofBytes {
      list := [];
    } else if ListEndsWith(EofBytes, list) {
      list := Prefix(list, -|EofBytes|) + [NewlineByte];
    }
    assert list == Trimmed(whole, terminalPrefix);
    if |list| == 0 {
      return Pending([]);
    }
    return Complete(list);
  }

  /**
   * `read_bytes` on Windows: feed chunk after chunk and return the joined
   * line once one is complete; `None` when the input runs out first.
   */
  method ReadBytesWindows(input: seq<Chunk>) returns (line: Option<Bytes>)
    ensures match ReadFrom([], input, 0)
      case Line(items, _) => line == Some(Concat(items))
      case Starved(_) => line == None
  {
    var byteList: seq<Chunk> := [];
    var i := 0;
    while i < |input|
      invariant i <= |input| && ReadFrom(byteList, input, i) == ReadFrom([], input, 0)
    {
      var step := Feed(byteList, input[i]);
      i := i + 1;
      match step
      case Pending(l) =>
        byteList := l;
      case Complete(items) =>
        return Some(Concat(items));
    }
    return None;
  }
}
