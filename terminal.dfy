/**
 * The objects that carry the terminal emulator's state: the view of a REPL
 * (`ReplView` in sublimerepl.py), which owns the text and the output and
 * prompt markers, and the emulator `AnsiControl` of ansi/ansi_control.py,
 * which owns the cursor and edits its view in place. Each method is proved
 * to perform the transition of the same name in TerminalSpec.
 */
module Terminal {
  import opened Py
  import AnsiColor
  import opened TerminalSpec

  /** How a method that can fail ends: normally, by raising, or never. */
  datatype Outcome = Done | Failed(error: Error) | Stuck

  /** A method's outcome together with the state it leaves, as a `Step`. */
  function Observed(o: Outcome, t: Term): Step {
    match o
    case Done => Next(t)
    case Failed(e) => Raised(e, t)
    case Stuck => Hung
  }

  /** `ReplView`: the view's text, the output end, the prompt size and the selections. */
  class ReplView {
    var text: string
    var outputEnd: int
    var promptSize: int
    var sel: seq<Region>
    var ansi: AnsiControl?
    /** `emulate_ansi_csi`, `repl.suppress_echo` and `filter_ascii_color_codes` */
    const emulate: bool
    const suppressEcho: bool
    const filterColors: bool
    /** The two colour-code substitutions of `write`, whose patterns are not part of this model. */
    const colorFilter: string -> string

    /** With emulation on, the view has its emulator, and the emulator edits this view. */
    ghost predicate Valid()
      reads this
    {
      emulate ==> ansi != null && ansi.rv == this
    }

    function View(): Screen
      reads this
    {
      Screen(text, outputEnd, promptSize)
    }

    /** What `write` inserts for `s` without emulation: `s` with colour codes removed when they are filtered. */
    function Filtered(s: string): string {
      if filterColors then colorFilter(s) else s
    }

    /** `ReplInsertTextCommand`: `view.insert(edit, pos, s)`. */
    method InsertText(pos: int, s: string)
      modifies this`text
      ensures text == InsertAt(old(text), pos, s)
    {
      text := InsertAt(text, pos, s);
    }

    /** `ReplEraseTextCommand`: `view.erase(edit, Region(start, end))`. */
    method EraseText(start: int, end: int)
      modifies this`text
      ensures text == EraseAt(old(text), start, end)
    {
      text := EraseAt(text, start, end);
    }

    /**
     * `write(s)`: emulated, the text goes through the emulator's `run`, and
     * an exception leaves the state where it was raised; otherwise the
     * (filtered) text goes in just before the prompt.
     */
    method Write(s: string) returns (hung: bool)
      requires Valid()
      modifies this`text, this`outputEnd, ansi, if emulate then {ansi.color} else {}
      ensures Valid() && promptSize == old(promptSize)
      ensures emulate ==> var st := Ran(ansi.Cfg(), old(ansi.State()), s);
        (hung <==> st.Hung?) && (!hung ==> ansi.State() == st.term)
      ensures !emulate ==> !hung && View() == WrittenPlain(old(View()), Filtered(s))
    {
      if emulate {
        var r := ansi.Run(s);
        hung := r.Stuck?;
      } else {
        var u := s;
        if filterColors {
          u := colorFilter(u);
        }
        InsertText(outputEnd - promptSize, u);
        outputEnd := outputEnd + |u|;
        hung := false;
      }
    }

    /** `write_prompt(s)`: written with a prompt size of 0, after which `s` is the prompt. */
    method WritePrompt(s: string) returns (hung: bool)
      requires Valid()
      modifies this`text, this`outputEnd, this`promptSize, ansi, if emulate then {ansi.color} else {}
      ensures Valid() && promptSize == |s|
      ensures emulate ==> var st := Ran(ansi.Cfg(), WithPrompt(old(ansi.State()), 0), s);
        (hung <==> st.Hung?) && (!hung ==> ansi.State() == WithPrompt(st.term, |s|))
      ensures !emulate ==> !hung && View() == WrittenPrompt(old(View()), s, Filtered(s))
    {
      promptSize := 0;
      hung := Write(s);
      promptSize := |s|;
    }

    /**
     * `adjust_end()`: with echo suppressed, whatever follows the output is
     * erased; otherwise all the text counts as output. The emulator's cursor
     * goes to the new output end.
     */
    method AdjustEnd()
      requires Valid()
      modifies this`text, this`outputEnd, ansi
      ensures Valid()
      ensures View() == AdjustedEnd(old(View()), suppressEcho)
      ensures emulate ==> ansi.cursor == outputEnd
    {
      if suppressEcho {
        var size := |text|;
        outputEnd := Min(size, outputEnd);
        EraseText(outputEnd, size);
      } else {
        outputEnd := |text|;
      }
      if emulate {
        ansi.cursor := outputEnd;
      }
    }

    /** `allow_deletion()`: no selection reaches into the output and no caret sits exactly at its end. */
    method AllowDeletion() returns (ok: bool)
      ensures ok <==> forall i :: 0 <= i < |sel| ==> InInput(sel[i], outputEnd)
    {
      var i := 0;
      while i < |sel|
        invariant 0 <= i <= |sel|
        invariant forall j :: 0 <= j < i ==> InInput(sel[j], outputEnd)
      {
        var r := sel[i];
        if r.Begin() == r.End() && r.Begin() == outputEnd {
          return false;
        }
        if r.Begin() < outputEnd || r.End() < outputEnd {
          return false;
        }
        i := i + 1;
      }
      return true;
    }
  }

  /** `AnsiControl`: the emulator, editing the view `rv` in place. */
  class AnsiControl {
    const rv: ReplView
    const allowColor: bool
    const strip: string -> string
    const color: AnsiColor.AnsiColor
    var cursor: int

    /** `AnsiControl(rv, is_ansi_allow_color)`: the cursor starts at 0, the colour annotator at the default style. */
    constructor (rv: ReplView, allowColor: bool, strip: string -> string)
      ensures this.rv == rv && this.allowColor == allowColor && this.strip == strip
      ensures cursor == 0 && fresh(color) && color.State() == AnsiColor.Styling(AnsiColor.DefaultStyle, false)
    {
      this.rv := rv;
      this.allowColor := allowColor;
      this.strip := strip;
      color := new AnsiColor.AnsiColor();
      cursor := 0;
    }

    function Cfg(): Config {
      Config(allowColor, strip)
    }

    function State(): Term
      reads this, rv, color
    {
      Term(rv.View(), cursor, color.State())
    }

    /** `_get_text_end()` */
    function GetTextEnd(): int
      reads rv
    {
      rv.outputEnd - rv.promptSize
    }

    method Erase(start: int, end: int)
      modifies rv`text, rv`outputEnd
      ensures State() == Erased(old(State()), start, end)
    {
      var length := end - start;
      if length <= 0 {
        return;
      }
      rv.outputEnd := rv.outputEnd - length;
      rv.EraseText(start, end);
    }

    method InsertAppend(s: string, pos: int)
      modifies this, rv`text, rv`outputEnd
      ensures State() == Appended(old(State()), s, pos)
    {
      rv.outputEnd := rv.outputEnd + |s|;
      cursor := cursor + |s|;
      rv.InsertText(pos, s);
    }

    method InsertOverwrite(s: string)
      modifies this, rv`text, rv`outputEnd
      ensures State() == Overwritten(old(State()), s)
    {
      var viewText := rv.text;
      var pos := LineEnd(viewText, cursor, GetTextEnd()).1;
      var lineLength := pos - cursor;
      var overwriteLength := Min(lineLength, |s|);
      var end := cursor + overwriteLength;
      Erase(cursor, end);
      InsertAppend(s, cursor);
    }

    method InsertSpaceToOffset(offset: int)
      modifies this, rv`text, rv`outputEnd
      ensures State() == PaddedTo(old(State()), offset)
    {
      var viewText := rv.text;
      var pos := LineEnd(viewText, cursor, GetTextEnd()).1;
      if cursor + offset > pos {
        var n := cursor + offset - pos;
        cursor := pos;
        InsertAppend(Spaces(n), cursor);
      } else {
        cursor := cursor + offset;
      }
    }

    /** `_insert(s)` */
    method InsertPlain(s: string)
      modifies this, rv`text, rv`outputEnd
      ensures State() == InsertedText(Cfg(), old(State()), s)
    {
      var text := strip(s);
      if cursor != GetTextEnd() {
        InsertOverwrite(text);
        return;
      }
      InsertAppend(text, cursor);
    }

    /** `insert(s)` */
    method Insert(s: string) returns (r: Outcome)
      modifies this, rv`text, rv`outputEnd, color
      ensures Observed(r, State()) == Inserted(Cfg(), old(State()), s)
    {
      if !allowColor {
        InsertPlain(s);
        return Done;
      }
      var run := color.Run(s);
      match run {
        case ColorRaised(e) =>
          return Failed(e);
        case ColorHangs =>
          return Stuck;
        case Colored(_, secs) =>
          ghost var t1 := State();
          for i := 0 to |secs|
            invariant InsertedSections(Cfg(), State(), secs[i..]) == InsertedSections(Cfg(), t1, secs)
          {
            assert secs[i..][1..] == secs[i + 1..];
            InsertPlain(secs[i].text);
          }
          return Done;
      }
    }

    /** `_move_line_up(view_text, n)` */
    method MoveLineUp(v: string, n: nat) returns (r: Outcome)
      modifies this, rv`text, rv`outputEnd
      ensures Observed(r, State()) == MovedUp(v, old(State()), n)
    {
      var offset: Option<int> := None;
      for k := 0 to n
        invariant UpFrom(v, cursor, n - k, offset) == UpFrom(v, old(cursor), n, None)
        modifies this
      {
        var (found, pos) := LineStart(v, cursor);
        if !found {
          return Done;
        }
        if offset.None? {
          offset := Some(cursor - pos);
        }
        cursor := pos - 1;
        cursor := LineStart(v, cursor).1;
      }
      if offset.None? {
        return Failed(TypeError);
      }
      InsertSpaceToOffset(offset.value);
      return Done;
    }

    /** `_move_line_down(view_text, n)` */
    method MoveLineDown(v: string, n: nat) returns (r: Outcome)
      modifies this, rv`text, rv`outputEnd, color
      ensures Observed(r, State()) == MovedDown(Cfg(), v, old(State()), n)
    {
      var offset := cursor - LineStart(v, cursor).1;
      for k := 0 to n
        invariant DownFrom(Cfg(), v, State(), n - k) == DownFrom(Cfg(), v, old(State()), n)
      {
        var stepped := LineDown(v);
        if stepped != Done {
          return stepped;
        }
      }
      InsertSpaceToOffset(offset);
      return Done;
    }

    /** One pass of the loop of `_move_line_down(view_text, n)`. */
    method LineDown(v: string) returns (r: Outcome)
      modifies this, rv`text, rv`outputEnd, color
      ensures Observed(r, State()) == DownStep(Cfg(), v, old(State()))
    {
      var (found, pos) := LineEnd(v, cursor, GetTextEnd());
      if !found {
        cursor := pos;
        r := Insert("\n");
      } else {
        cursor := pos + 1;
        r := Done;
      }
    }

    /** `_move_cursor_forward(view_text, n)` */
    method MoveCursorForward(v: string, n: int)
      modifies this, rv`text, rv`outputEnd
      ensures State() == MovedForward(v, old(State()), n)
    {
      var pos := LineEnd(v, cursor, GetTextEnd()).1;
      var newPos := cursor + n;
      var diff := pos - newPos;
      if diff < 0 {
        cursor := pos;
        assert State() == old(State()).(cursor := pos);
        InsertOverwrite(Spaces(diff));
      } else {
        cursor := newPos;
      }
    }

    /** `_move_cursor_backward(view_text, n)` */
    method MoveCursorBackward(v: string, n: int)
      modifies this
      ensures State() == MovedBackward(v, old(State()), n)
    {
      var pos := LineStart(v, cursor).1;
      cursor := Max(pos, cursor - n);
    }

    /** `_move_cursor_coordinate(view_text, code)` */
    method MoveCursorCoordinate(v: string, code: string) returns (r: Outcome)
      modifies this, rv`text, rv`outputEnd, color
      ensures Observed(r, State()) == MovedTo(Cfg(), v, old(State()), code)
    {
      var parts := Split(code, ';');
      var y: nat, x: nat := 0, 0;
      if |parts| != 1 {
        if |parts| > 2 {
          return Failed(ValueError);
        }
        var py, px := Coordinate(parts[0]), Coordinate(parts[1]);
        if py.None? || px.None? {
          return Failed(ValueError);
        }
        y, x := py.value, px.value;
      }
      cursor := 0;
      if y != 0 {
        r := MoveLineDown(v, y);
        if r != Done {
          return r;
        }
      }
      if x != 0 {
        MoveCursorForward(v, x);
      }
      return Done;
    }

    /** `_process_carriage_return()` */
    method ProcessCarriageReturn()
      modifies this
      ensures State() == Returned(old(State()))
    {
      var viewText := rv.text;
      var text := Prefix(viewText, cursor + 1);
      cursor := LineStart(text, cursor).1;
    }

    /** `_process_newline()` */
    method ProcessNewline() returns (r: Outcome)
      modifies this, rv`text, rv`outputEnd, color
      ensures Observed(r, State()) == NewLined(Cfg(), old(State()))
    {
      ProcessCarriageReturn();
      r := MoveLineDown(rv.text, 1);
    }

    /** `_process_cursor_move(m)` */
    method ProcessCursorMove(params: string, final: char) returns (r: Outcome)
      modifies this, rv`text, rv`outputEnd, color
      ensures Observed(r, State()) == CursorMoved(Cfg(), old(State()), params, final)
    {
      var viewText := rv.text;
      if final == 'H' {
        r := MoveCursorCoordinate(viewText, params);
        return;
      }
      var n := if |params| > 0 then ParseInt(params) else Some(1);
      if n.None? {
        return Failed(ValueError);
      }
      if final == 'A' {
        r := MoveLineUp(viewText, n.value);
      } else if final == 'B' {
        r := MoveLineDown(viewText, n.value);
      } else if final == 'C' {
        MoveCursorForward(viewText, n.value);
        r := Done;
      } else {
        MoveCursorBackward(viewText, n.value);
        r := Done;
      }
    }

    /** `_process_line_erase(m)` */
    method ProcessLineErase(mode: string)
      modifies rv`text, rv`outputEnd
      ensures State() == LineErased(old(State()), mode)
    {
      var viewText := rv.text;
      var start, end;
      if mode == "1" {
        start := LineStart(viewText, cursor).1;
        end := cursor;
      } else if mode == "2" {
        start := LineStart(viewText, cursor).1;
        end := LineEnd(viewText, cursor, GetTextEnd()).1;
      } else {
        start := cursor;
        end := LineEnd(viewText, cursor, GetTextEnd()).1;
      }
      Erase(start, end);
    }

    /** `_process_display_erase(m)` */
    method ProcessDisplayErase(mode: string)
      modifies rv`text, rv`outputEnd
      ensures State() == DisplayErased(old(State()), mode)
    {
      var start, end;
      if mode == "1" {
        start, end := 0, cursor;
      } else if mode == "2" || mode == "3" {
        start, end := 0, |rv.text|;
      } else {
        start, end := cursor, |rv.text|;
      }
      Erase(start, end);
    }

    /** `_process_ansi(m)` */
    method ProcessAnsi(tok: Token) returns (r: Outcome)
      modifies this, rv`text, rv`outputEnd, color
      ensures Observed(r, State()) == Processed(Cfg(), old(State()), tok)
    {
      match tok {
        case LineFeed =>
          r := ProcessNewline();
        case CarriageReturn =>
          ProcessCarriageReturn();
          r := Done;
        case Csi(params, final) =>
          r := Done;
          if final in "ABCDH" {
            r := ProcessCursorMove(params, final);
          } else if params in {"", "0", "1", "2"} && final == 'K' {
            ProcessLineErase(params);
          } else if params in {"", "0", "1", "2", "3"} && final == 'J' {
            ProcessDisplayErase(params);
          }
      }
    }

    /** `run(text)` */
    method Run(text: string) returns (r: Outcome)
      modifies this, rv`text, rv`outputEnd, color
      ensures Observed(r, State()) == Ran(Cfg(), old(State()), text)
    {
      var rest := Dashes(ClearNuls(text));
      while true
        invariant RunFrom(Cfg(), State(), rest) == Ran(Cfg(), old(State()), text)
        decreases |rest|
      {
        if |rest| == 0 {
          break;
        }
        var found := FindToken(rest, 0, cursor != GetTextEnd());
        if found.None? {
          break;
        }
        var m := found.value;
        if m.start > 0 {
          r := Insert(rest[..m.start]);
          if r != Done {
            return;
          }
        }
        rest := rest[m.end..];
        r := ProcessAnsi(m.token);
        if r != Done {
          return;
        }
      }
      if |rest| > 0 {
        r := Insert(rest);
      } else {
        r := Done;
      }
    }
  }
}
