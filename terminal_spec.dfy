/**
 * The terminal emulator of ansi/ansi_control.py, as functions on values.
 *
 * The emulator edits the text of a view. Its state is the view's text, the
 * view's `_output_end` and `_prompt_size` (the output ends at
 * `_output_end - _prompt_size`, the prompt fills the rest up to
 * `_output_end`, the user's input follows), the emulator's own
 * `_cursor_pos`, and the live style of its colour annotator. Each function
 * below is the state transition of one method of `AnsiControl`; the class in
 * terminal.dfy is proved to perform exactly these transitions.
 */
module TerminalSpec {
  import opened Py
  import AnsiColor

  /** The view's text and its two markers. */
  datatype Screen = Screen(text: string, outputEnd: int, promptSize: int)

  /** The emulator's state: the view, `_cursor_pos` and the live colour style. */
  datatype Term = Term(screen: Screen, cursor: int, styling: AnsiColor.Styling)

  /** How an operation ends: a new state, an exception raised in a given state, or a loop that never ends. */
  datatype Step = Next(term: Term) | Raised(error: Error, term: Term) | Hung

  /**
   * The emulator's settings: `is_ansi_allow_color`, and the escape-stripping
   * substitution `_ansi_escape_regex.sub('', ·)`, whose pattern lives in a
   * module that is not part of this model.
   */
  datatype Config = Config(allowColor: bool, strip: string -> string)

  function Min(a: int, b: int): int { if a <= b then a else b }

  function Max(a: int, b: int): int { if a >= b then a else b }

  /** A position taken into the buffer `0..size`. */
  function Clamp(n: int, size: nat): (r: nat)
    ensures r <= size
    ensures 0 <= n <= size ==> r == n
  {
    if n < 0 then 0 else if n > size then size else n
  }

  /** `view.insert(edit, pos, s)`; a position outside the buffer goes to its nearest end. */
  function InsertAt(buf: string, pos: int, s: string): string
    decreases |buf|
  {
    if pos <= 0 || buf == [] then s + buf else [buf[0]] + InsertAt(buf[1..], pos - 1, s)
  }

  /** `view.erase(edit, Region(a, b))`: the characters whose positions lie between `a` and `b` go. */
  function EraseAt(buf: string, a: int, b: int): string
    decreases |buf|
  {
    if buf == [] then []
    else (if Min(a, b) <= 0 < Max(a, b) then [] else [buf[0]]) + EraseAt(buf[1..], a - 1, b - 1)
  }

  /** `' ' * n`, which is empty for `n <= 0`. */
  function Spaces(n: int): string {
    if n <= 0 then [] else seq(n, i => ' ')
  }

  /** `_get_text_end`: where the output ends and the prompt begins. */
  function TextEnd(t: Term): int {
    t.screen.outputEnd - t.screen.promptSize
  }

  /** `_check_cursor_moved`: the cursor is detached from the end of the output. */
  predicate Detached(t: Term) {
    t.cursor != TextEnd(t)
  }

  /** The same state with `_prompt_size` replaced. */
  function WithPrompt(t: Term, n: int): Term {
    t.(screen := t.screen.(promptSize := n))
  }

  /** The same state with the view's text and `_output_end` replaced. */
  function Edit(t: Term, text: string, outputEnd: int): Term {
    t.(screen := t.screen.(text := text, outputEnd := outputEnd))
  }

  // ---------------------------------------------------------------------------
  // Line search on a snapshot of the view's text

  /** The position just past the last newline of `v[..end]`, if it holds one. */
  function AfterLastNewline(v: string, end: nat): Option<nat>
    requires end <= |v|
    decreases end
  {
    if end == 0 then None
    else if v[end - 1] == '\n' then Some(end)
    else AfterLastNewline(v, end - 1)
  }

  /** The position of the first newline of `v[from..]`, counted in `v`, if there is one. */
  function FirstNewline(v: string, from: nat): Option<nat>
    requires from <= |v|
    decreases |v| - from
  {
    if from == |v| then None
    else if v[from] == '\n' then Some(from)
    else FirstNewline(v, from + 1)
  }

  /**
   * `_find_line_start(view_text)`: whether a newline precedes the cursor
   * (in `view_text[:cursor]`), and the position just past the last one (0
   * when there is none).
   */
  function LineStart(v: string, cursor: int): (bool, int) {
    match AfterLastNewline(v, Clip(|v|, cursor))
    case None => (false, 0)
    case Some(p) => (true, p)
  }

  /**
   * `_find_line_end(view_text)`: whether a newline sits in
   * `view_text[cursor:]`, and its position there added to the cursor; the
   * end of the output text when there is none.
   */
  function LineEnd(v: string, cursor: int, textEnd: int): (bool, int) {
    var from := Clip(|v|, cursor);
    match FirstNewline(v, from)
    case None => (false, textEnd)
    case Some(p) => (true, cursor + (p - from))
  }

  // ---------------------------------------------------------------------------
  // Editing primitives

  /** `_erase(start, end)`: nothing for an empty or reversed range, else erase it and pull the output end back. */
  function Erased(t: Term, start: int, end: int): Term {
    var length := end - start;
    if length <= 0 then t
    else Edit(t, EraseAt(t.screen.text, start, end), t.screen.outputEnd - length)
  }

  /** `_insert_append(s, pos)`: insert at `pos`; the output end and the cursor move on by `|s|`. */
  function Appended(t: Term, s: string, pos: int): Term {
    Edit(t, InsertAt(t.screen.text, pos, s), t.screen.outputEnd + |s|).(cursor := t.cursor + |s|)
  }

  /** `_insert_overwrite(s)`: replace up to `|s|` characters of the line at the cursor by `s`. */
  function Overwritten(t: Term, s: string): Term {
    var pos := LineEnd(t.screen.text, t.cursor, TextEnd(t)).1;
    var k := Min(pos - t.cursor, |s|);
    var t1 := Erased(t, t.cursor, t.cursor + k);
    Appended(t1, s, t1.cursor)
  }

  /** `_insert_space_to_offset(offset)`: move right by `offset`, padding a short line with spaces. */
  function PaddedTo(t: Term, offset: int): Term {
    var pos := LineEnd(t.screen.text, t.cursor, TextEnd(t)).1;
    if t.cursor + offset > pos then Appended(t.(cursor := pos), Spaces(t.cursor + offset - pos), pos)
    else t.(cursor := t.cursor + offset)
  }

  /** `_insert(s)`: the text without escapes overwrites when the cursor is detached and is appended otherwise. */
  function InsertedText(cfg: Config, t: Term, s: string): Term {
    var text := cfg.strip(s);
    if Detached(t) then Overwritten(t, text) else Appended(t, text, t.cursor)
  }

  /** `_insert` of each section's text in turn. */
  function InsertedSections(cfg: Config, t: Term, secs: seq<AnsiColor.Section>): Term
    decreases |secs|
  {
    if secs == [] then t else InsertedSections(cfg, InsertedText(cfg, t, secs[0].text), secs[1..])
  }

  /**
   * `insert(s)`: with colours allowed, the colour annotator splits the text
   * into sections first (its exceptions and its endless loop pass through);
   * otherwise the text is inserted whole.
   */
  function Inserted(cfg: Config, t: Term, s: string): Step {
    if !cfg.allowColor then Next(InsertedText(cfg, t, s))
    else
      var (r, st) := AnsiColor.RunSpec(t.styling, s);
      var t1 := t.(styling := st);
      match r
      case Colored(_, secs) => Next(InsertedSections(cfg, t1, secs))
      case ColorRaised(e) => Raised(e, t1)
      case ColorHangs => Hung
  }

  // ---------------------------------------------------------------------------
  // Cursor moves; `v` is the view's text as read before the move

  /** Where the loop of `_move_line_up` ends: stopped early at a cursor, or done with a cursor and the column. */
  datatype Climb = Stopped(cursor: int) | Climbed(cursor: int, offset: Option<int>)

  /**
   * The loop of `_move_line_up` from `cursor`, with `k` moves left and the
   * column remembered by the first move: each move goes to the start of the
   * line above; with no newline before the cursor the method returns at once.
   */
  function UpFrom(v: string, cursor: int, k: nat, offset: Option<int>): Climb
    decreases k
  {
    if k == 0 then Climbed(cursor, offset)
    else
      var (found, pos) := LineStart(v, cursor);
      if !found then Stopped(cursor)
      else
        var o := if offset.None? then cursor - pos else offset.value;
        UpFrom(v, LineStart(v, pos - 1).1, k - 1, Some(o))
  }

  /**
   * `_move_line_up(view_text, n)` (CUU): after the loop, pad to the
   * remembered column; with `n == 0` there is none, and `int + None` raises.
   */
  function MovedUp(v: string, t: Term, n: nat): Step {
    match UpFrom(v, t.cursor, n, None)
    case Stopped(c) => Next(t.(cursor := c))
    case Climbed(c, None) => Raised(TypeError, t.(cursor := c))
    case Climbed(c, Some(o)) => Next(PaddedTo(t.(cursor := c), o))
  }

  /**
   * One pass of the loop of `_move_line_down`: go past the next newline; on
   * the last line, insert a newline at the end of the output instead.
   */
  function DownStep(cfg: Config, v: string, t: Term): Step {
    var (found, pos) := LineEnd(v, t.cursor, TextEnd(t));
    if !found then Inserted(cfg, t.(cursor := pos), "\n")
    else Next(t.(cursor := pos + 1))
  }

  /** The loop of `_move_line_down`, with `k` passes left; an exception ends it. */
  function DownFrom(cfg: Config, v: string, t: Term, k: nat): Step
    decreases k
  {
    if k == 0 then Next(t)
    else match DownStep(cfg, v, t)
      case Next(t1) => DownFrom(cfg, v, t1, k - 1)
      case Raised(e, t1) => Raised(e, t1)
      case Hung => Hung
  }

  /** `_move_line_down(view_text, n)` (CUD): the column is taken before the loop and padded to after it. */
  function MovedDown(cfg: Config, v: string, t: Term, n: nat): Step {
    var offset := t.cursor - LineStart(v, t.cursor).1;
    match DownFrom(cfg, v, t, n)
    case Next(t1) => Next(PaddedTo(t1, offset))
    case Raised(e, t1) => Raised(e, t1)
    case Hung => Hung
  }

  /** `_move_cursor_forward(view_text, n)` (CUF): past the line end, go to the line end and overwrite with `' ' * diff`. */
  function MovedForward(v: string, t: Term, n: int): Term {
    var pos := LineEnd(v, t.cursor, TextEnd(t)).1;
    var diff := pos - (t.cursor + n);
    if diff < 0 then Overwritten(t.(cursor := pos), Spaces(diff)) else t.(cursor := t.cursor + n)
  }

  /** `_move_cursor_backward(view_text, n)` (CUB), held at the line start. */
  function MovedBackward(v: string, t: Term, n: int): Term {
    t.(cursor := Max(LineStart(v, t.cursor).1, t.cursor - n))
  }

  /** `int(p)` for a coordinate, where an empty one counts as 0. */
  function Coordinate(p: string): Option<nat> {
    if p == [] then Some(0) else ParseInt(p)
  }

  /**
   * `_move_cursor_coordinate(view_text, code)` (CUP): one field goes to
   * (0, 0); two are line and column counted from 0, applied as moves down
   * and forward from position 0; more fields, or a field that is not a
   * number, raise ValueError.
   */
  function MovedTo(cfg: Config, v: string, t: Term, code: string): Step {
    var parts := Split(code, ';');
    if |parts| > 2 then Raised(ValueError, t)
    else
      var y := if |parts| == 1 then Some(0) else Coordinate(parts[0]);
      var x := if |parts| == 1 then Some(0) else Coordinate(parts[1]);
      if y.None? || x.None? then Raised(ValueError, t)
      else
        var t1 := t.(cursor := 0);
        var s := if y.value != 0 then MovedDown(cfg, v, t1, y.value) else Next(t1);
        match s
        case Next(t2) => Next(if x.value != 0 then MovedForward(v, t2, x.value) else t2)
        case Raised(e, t2) => Raised(e, t2)
        case Hung => Hung
  }

  // ---------------------------------------------------------------------------
  // Controls

  /** `_process_carriage_return`: the line start, searched in the text up to one past the cursor. */
  function Returned(t: Term): Term {
    var v := Prefix(t.screen.text, t.cursor + 1);
    t.(cursor := LineStart(v, t.cursor).1)
  }

  /** `_process_newline`: carriage return, then one line down. */
  function NewLined(cfg: Config, t: Term): Step {
    var t1 := Returned(t);
    MovedDown(cfg, t1.screen.text, t1, 1)
  }

  /** `_process_cursor_move`: CUU, CUD, CUF, CUB with a count (1 when absent) and CUP. */
  function CursorMoved(cfg: Config, t: Term, params: string, final: char): Step {
    var v := t.screen.text;
    if final == 'H' then MovedTo(cfg, v, t, params)
    else
      var n := if |params| > 0 then ParseInt(params) else Some(1);
      if n.None? then Raised(ValueError, t)
      else if final == 'A' then MovedUp(v, t, n.value)
      else if final == 'B' then MovedDown(cfg, v, t, n.value)
      else if final == 'C' then Next(MovedForward(v, t, n.value))
      else Next(MovedBackward(v, t, n.value))
  }

  /** `_process_line_erase` (EL): 1 erases from the line start to the cursor, 2 the whole line, others from the cursor to the line end. */
  function LineErased(t: Term, mode: string): Term {
    var v := t.screen.text;
    var start := if mode == "1" || mode == "2" then LineStart(v, t.cursor).1 else t.cursor;
    var end := if mode == "1" then t.cursor else LineEnd(v, t.cursor, TextEnd(t)).1;
    Erased(t, start, end)
  }

  /** `_process_display_erase` (ED): 1 erases up to the cursor, 2 and 3 everything, others from the cursor on. */
  function DisplayErased(t: Term, mode: string): Term {
    var size := |t.screen.text|;
    var start := if mode == "1" || mode == "2" || mode == "3" then 0 else t.cursor;
    var end := if mode == "1" then t.cursor else size;
    Erased(t, start, end)
  }

  // ---------------------------------------------------------------------------
  // Tokens

  /** What the cursor regexes match: a carriage return, a newline, or a CSI sequence other than SGR. */
  datatype Token = CarriageReturn | LineFeed | Csi(params: string, final: char)

  datatype TokenMatch = TokenMatch(start: nat, end: nat, token: Token)

  /** `[;|\d*]`: the characters of a CSI parameter string after its optional `?`. */
  predicate IsCsiParamChar(c: char) {
    IsDigit(c) || c == ';' || c == '|' || c == '*'
  }

  predicate IsLetter(c: char) {
    'a' <= c <= 'z' || 'A' <= c <= 'Z'
  }

  /** The end of the run of parameter characters starting at `p`. */
  function CsiParamEnd(s: string, p: nat): (e: nat)
    requires p <= |s|
    ensures p <= e <= |s|
    ensures forall i :: p <= i < e ==> IsCsiParamChar(s[i])
    ensures e == |s| || !IsCsiParamChar(s[e])
    decreases |s| - p
  {
    if p < |s| && IsCsiParamChar(s[p]) then CsiParamEnd(s, p + 1) else p
  }

  /** `\x1b\[(\??\d*[;|\d*]*)((?!m)[a-zA-Z])` at position `p`: the end of the match, the parameters and the final letter. */
  function CsiAt(s: string, p: nat): (r: Option<(nat, string, char)>)
    ensures r.Some? ==> p + 3 <= r.value.0 <= |s|
  {
    if p + 2 < |s| && s[p] == AnsiColor.Esc && s[p + 1] == '[' then
      var q0 := if s[p + 2] == '?' then p + 3 else p + 2;
      var q := CsiParamEnd(s, q0);
      if q < |s| && IsLetter(s[q]) && s[q] != 'm' then Some((q + 1, s[p + 2..q], s[q])) else None
    else None
  }

  /**
   * `re.search` of `_cursor_regex` (CSI or `\r`), or of
   * `_cursor_w_newline_regex` (CSI, `\r` or `\n`) when `withNewline`, from `p`.
   */
  function FindToken(s: string, p: nat, withNewline: bool): (r: Option<TokenMatch>)
    ensures r.Some? ==> p <= r.value.start < r.value.end <= |s|
    decreases |s| - p
  {
    if p >= |s| then None
    else match CsiAt(s, p)
      case Some((e, params, final)) => Some(TokenMatch(p, e, Csi(params, final)))
      case None =>
        if s[p] == '\r' then Some(TokenMatch(p, p + 1, CarriageReturn))
        else if withNewline && s[p] == '\n' then Some(TokenMatch(p, p + 1, LineFeed))
        else FindToken(s, p + 1, withNewline)
  }

  /** `_process_ansi(m)`: dispatch a token; unrecognised sequences and bracketed paste change nothing. */
  function Processed(cfg: Config, t: Term, tok: Token): Step {
    match tok
    case LineFeed => NewLined(cfg, t)
    case CarriageReturn => Next(Returned(t))
    case Csi(params, final) =>
      if final in "ABCDH" then CursorMoved(cfg, t, params, final)
      else if params in {"", "0", "1", "2"} && final == 'K' then Next(LineErased(t, params))
      else if params in {"", "0", "1", "2", "3"} && final == 'J' then Next(DisplayErased(t, params))
      else Next(t)
  }

  // ---------------------------------------------------------------------------
  // Input normalisation

  /** `ESC[J` */
  const ClearSeq: string := [AnsiColor.Esc, '[', 'J']

  /** The leading NULs of `s` removed. */
  function DropNuls(s: string): (r: string)
    ensures |r| <= |s| && r == s[|s| - |r|..]
    ensures r == [] || r[0] != '\0'
  {
    if s != [] && s[0] == '\0' then DropNuls(s[1..]) else s
  }

  /** `_clear_regex.sub('\x1b[J', text)`: `ESC[J` followed by NULs becomes `ESC[J`. */
  function ClearNuls(s: string): (r: string)
    ensures |r| <= |s|
    decreases |s|
  {
    if |s| >= 4 && s[..3] == ClearSeq && s[3] == '\0' then ClearSeq + ClearNuls(DropNuls(s[3..]))
    else if s == [] then []
    else [s[0]] + ClearNuls(s[1..])
  }

  /** The three characters `\xe2\x80\x93` (an en dash read byte by byte). */
  const Endash: string := ['\U{e2}', '\U{80}', '\U{93}']

  /** `_endash_regex.sub('-', text)` */
  function Dashes(s: string): (r: string)
    ensures |r| <= |s|
    decreases |s|
  {
    if |s| >= 3 && s[..3] == Endash then ['-'] + Dashes(s[3..])
    else if s == [] then []
    else [s[0]] + Dashes(s[1..])
  }

  // ---------------------------------------------------------------------------
  // The run loop

  /**
   * The loop of `run` over the rest of the text: the leftmost token (a
   * newline counts only while the cursor is detached) splits off a prefix,
   * which is inserted, and is then processed; what follows the last token
   * is inserted at the end.
   */
  function RunFrom(cfg: Config, t: Term, rest: string): Step
    decreases |rest|
  {
    if |rest| == 0 then Next(t)
    else match FindToken(rest, 0, Detached(t))
      case None => Inserted(cfg, t, rest)
      case Some(m) =>
        var s1 := if m.start > 0 then Inserted(cfg, t, rest[..m.start]) else Next(t);
        match s1
        case Next(t1) =>
          (match Processed(cfg, t1, m.token)
           case Next(t2) => RunFrom(cfg, t2, rest[m.end..])
           case Raised(e, t2) => Raised(e, t2)
           case Hung => Hung)
        case Raised(e, t1) => Raised(e, t1)
        case Hung => Hung
  }

  /** `run(text)`: normalise the text, then run the loop over it. */
  function Ran(cfg: Config, t: Term, text: string): Step {
    RunFrom(cfg, t, Dashes(ClearNuls(text)))
  }

  // ---------------------------------------------------------------------------
  // The view outside the emulator (sublimerepl.py)

  /** `ReplView.write` without emulation: the text `u` goes in just before the prompt. */
  function WrittenPlain(sc: Screen, u: string): Screen {
    sc.(text := InsertAt(sc.text, sc.outputEnd - sc.promptSize, u), outputEnd := sc.outputEnd + |u|)
  }

  /**
   * `ReplView.write_prompt(s)` without emulation, where `u` is what `write`
   * inserts for `s`: written with no prompt, after which the prompt size is
   * the length of `s`.
   */
  function WrittenPrompt(sc: Screen, s: string, u: string): Screen {
    WrittenPlain(sc.(promptSize := 0), u).(promptSize := |s|)
  }

  /** `ReplView.adjust_end`: with echo suppressed, erase whatever follows the output; else take everything as output. */
  function AdjustedEnd(sc: Screen, suppressEcho: bool): Screen {
    var size := |sc.text|;
    if suppressEcho then
      var e := Min(size, sc.outputEnd);
      sc.(text := EraseAt(sc.text, e, size), outputEnd := e)
    else sc.(outputEnd := size)
  }

  /** A selection: `begin()` and `end()` are the smaller and the larger end. */
  datatype Region = Region(a: int, b: int) {
    function Begin(): int { Min(a, b) }
    function End(): int { Max(a, b) }
  }

  /** `ReplView.delta`: from the first selection back to the output end; IndexError with no selection. */
  function Delta(sc: Screen, sel: seq<Region>): (r: Result<int>)
    ensures r.Raise? <==> sel == []
    ensures r.Ok? ==> (r.value <= 0 <==> sc.outputEnd <= sel[0].Begin())
  {
    if sel == [] then Raise(IndexError) else Ok(sc.outputEnd - sel[0].Begin())
  }

  /** `ReplView.input_region`: from the output end to the end of the view. */
  function InputRegion(sc: Screen): (r: Region)
    ensures 0 <= sc.outputEnd <= |sc.text| ==>
      r.Begin() == sc.outputEnd && r.End() == |sc.text| && sc.text[r.Begin()..r.End()] == sc.text[sc.outputEnd..]
  {
    Region(sc.outputEnd, |sc.text|)
  }

  /** A selection that lies within the user's input and is not a bare caret at its very start. */
  predicate InInput(r: Region, outputEnd: int) {
    outputEnd <= r.Begin() && !(r.a == r.b == outputEnd)
  }
}
