/**
 * What the emulator's transitions mean: the editor primitives as slices of
 * the text, the line searches as "last newline before" and "first newline
 * from", and the promises of each cursor move, erase, insertion and of the
 * run loop on plain text.
 */
module TerminalProps {
  import opened Py
  import opened TerminalSpec
  import AnsiColor

  // ---------------------------------------------------------------------------
  // The editor primitives

  /** Inserting puts `s` between the text before the (clamped) position and the text after it. */
  lemma {:induction false} InsertAtSlices(buf: string, pos: int, s: string)
    ensures var p := Clamp(pos, |buf|); InsertAt(buf, pos, s) == buf[..p] + s + buf[p..]
    decreases |buf|
  {
    if pos > 0 && buf != [] {
      InsertAtSlices(buf[1..], pos - 1, s);
      var p := Clamp(pos, |buf|);
      assert Clamp(pos - 1, |buf| - 1) == p - 1;
      assert buf[1..][..p - 1] == buf[1..p] && buf[1..][p - 1..] == buf[p..];
      assert [buf[0]] + buf[1..p] == buf[..p];
    }
  }

  /** Erasing keeps the text before the (clamped, ordered) region and the text after it. */
  lemma EraseAtSlices(buf: string, a: int, b: int)
    ensures var lo := Clamp(Min(a, b), |buf|); var hi := Clamp(Max(a, b), |buf|);
      lo <= hi && EraseAt(buf, a, b) == buf[..lo] + buf[hi..]
  {
    EraseAtSwap(buf, a, b);
    EraseAtOrdered(buf, Min(a, b), Max(a, b));
  }

  lemma {:induction false} EraseAtOrdered(buf: string, lo: int, hi: int)
    requires lo <= hi
    ensures EraseAt(buf, lo, hi) == buf[..Clamp(lo, |buf|)] + buf[Clamp(hi, |buf|)..]
    decreases |buf|
  {
    if buf != [] {
      EraseAtOrdered(buf[1..], lo - 1, hi - 1);
      if lo <= 0 < hi {
        EraseFirstInside(buf, lo, hi);
      } else if hi <= 0 {
        EraseFirstBefore(buf, lo, hi);
      } else {
        EraseFirstAfter(buf, lo, hi);
      }
    }
  }

  /** The step of `EraseAtOrdered` when the first character lies inside the range. */
  lemma EraseFirstInside(buf: string, lo: int, hi: int)
    requires buf != [] && lo <= 0 < hi
    requires EraseAt(buf[1..], lo - 1, hi - 1) == buf[1..][Clamp(hi - 1, |buf| - 1)..]
    ensures EraseAt(buf, lo, hi) == buf[Clamp(hi, |buf|)..]
  {
    assert buf[1..][Clamp(hi - 1, |buf| - 1)..] == buf[Clamp(hi, |buf|)..];
  }

  /** The step of `EraseAtOrdered` when the range ends before the first character. */
  lemma EraseFirstBefore(buf: string, lo: int, hi: int)
    requires buf != [] && lo <= hi <= 0
    requires EraseAt(buf[1..], lo - 1, hi - 1) == buf[1..]
    ensures EraseAt(buf, lo, hi) == buf
  {
    assert [buf[0]] + buf[1..] == buf;
  }

  /** The step of `EraseAtOrdered` when the range starts after the first character. */
  lemma EraseFirstAfter(buf: string, lo: int, hi: int)
    requires buf != [] && 0 < lo <= hi
    requires EraseAt(buf[1..], lo - 1, hi - 1) ==
      buf[1..][..Clamp(lo - 1, |buf| - 1)] + buf[1..][Clamp(hi - 1, |buf| - 1)..]
    ensures EraseAt(buf, lo, hi) == buf[..Clamp(lo, |buf|)] + buf[Clamp(hi, |buf|)..]
  {
    var l, h := Clamp(lo, |buf|), Clamp(hi, |buf|);
    assert Clamp(lo - 1, |buf| - 1) == l - 1 && Clamp(hi - 1, |buf| - 1) == h - 1;
    assert !(Min(lo, hi) <= 0 < Max(lo, hi));
    assert EraseAt(buf, lo, hi) == [buf[0]] + EraseAt(buf[1..], lo - 1, hi - 1);
    ConsSlices(buf, l, h);
  }

  /** The split of `buf[1..]` at `l - 1` and `h - 1`, with the first element put back. */
  lemma ConsSlices(buf: string, l: nat, h: nat)
    requires 1 <= l <= h <= |buf|
    ensures [buf[0]] + (buf[1..][..l - 1] + buf[1..][h - 1..]) == buf[..l] + buf[h..]
  {
    assert buf[1..][..l - 1] == buf[1..l];
    assert buf[1..][h - 1..] == buf[h..];
    assert [buf[0]] + buf[1..l] == buf[..l];
  }

  /** The region's two ends may come in either order. */
  lemma {:induction false} EraseAtSwap(buf: string, a: int, b: int)
    ensures EraseAt(buf, a, b) == EraseAt(buf, Min(a, b), Max(a, b))
    decreases |buf|
  {
    if buf != [] {
      EraseAtSwap(buf[1..], a - 1, b - 1);
      assert Min(a - 1, b - 1) == Min(a, b) - 1 && Max(a - 1, b - 1) == Max(a, b) - 1;
    }
  }

  /** Inserting the empty string changes nothing. */
  lemma InsertNothing(buf: string, pos: int)
    ensures InsertAt(buf, pos, []) == buf
  {
    InsertAtSlices(buf, pos, []);
    var p := Clamp(pos, |buf|);
    assert buf[..p] + [] + buf[p..] == buf;
  }

  /** `' ' * n` is `n` spaces, and nothing when `n` is not positive. */
  lemma SpacesLength(n: int)
    ensures |Spaces(n)| == Max(n, 0)
    ensures forall i :: 0 <= i < |Spaces(n)| ==> Spaces(n)[i] == ' '
  {
  }

  // ---------------------------------------------------------------------------
  // Line search

  /** AfterLastNewline finds the last newline of `v[..end]`, and only looks at `v[..end]`. */
  lemma {:induction false} AfterLastNewlineIsLast(v: string, end: nat)
    requires end <= |v|
    ensures match AfterLastNewline(v, end)
      case None => forall i :: 0 <= i < end ==> v[i] != '\n'
      case Some(p) => 0 < p <= end && v[p - 1] == '\n' && forall i :: p <= i < end ==> v[i] != '\n'
    decreases end
  {
    if end > 0 && v[end - 1] != '\n' {
      AfterLastNewlineIsLast(v, end - 1);
    }
  }

  /** AfterLastNewline reads nothing past `end`. */
  lemma {:induction false} AfterLastNewlineLocal(v: string, w: string, end: nat)
    requires end <= |v| && end <= |w| && v[..end] == w[..end]
    ensures AfterLastNewline(v, end) == AfterLastNewline(w, end)
    decreases end
  {
    if end > 0 {
      assert v[end - 1] == v[..end][end - 1] == w[..end][end - 1] == w[end - 1];
      assert v[..end - 1] == v[..end][..end - 1] == w[..end][..end - 1] == w[..end - 1];
      AfterLastNewlineLocal(v, w, end - 1);
    }
  }

  /** FirstNewline finds the first newline of `v[from..]`. */
  lemma {:induction false} FirstNewlineIsFirst(v: string, from: nat)
    requires from <= |v|
    ensures match FirstNewline(v, from)
      case None => forall i :: from <= i < |v| ==> v[i] != '\n'
      case Some(q) => from <= q < |v| && v[q] == '\n' && forall i :: from <= i < q ==> v[i] != '\n'
    decreases |v| - from
  {
    if from < |v| && v[from] != '\n' {
      FirstNewlineIsFirst(v, from + 1);
    }
  }

  /**
   * `_find_line_start`: when a newline precedes the cursor, the position
   * just past the last one, with no newline from there to the cursor;
   * otherwise 0, and no newline at all before the cursor.
   */
  lemma LineStartIsAfterLastNewline(v: string, cursor: int)
    ensures var (found, p) := LineStart(v, cursor); var e := Clip(|v|, cursor);
      (found ==> 0 < p <= e && v[p - 1] == '\n' && forall i :: p <= i < e ==> v[i] != '\n') &&
      (!found ==> p == 0 && forall i :: 0 <= i < e ==> v[i] != '\n')
  {
    AfterLastNewlineIsLast(v, Clip(|v|, cursor));
  }

  /**
   * `_find_line_end` from a cursor inside the text: the first newline at or
   * after the cursor, with none between; otherwise the given text end, and
   * no newline from the cursor on.
   */
  lemma LineEndIsFirstNewline(v: string, cursor: int, textEnd: int)
    requires 0 <= cursor <= |v|
    ensures var (found, p) := LineEnd(v, cursor, textEnd);
      (found ==> cursor <= p < |v| && v[p] == '\n' && forall i :: cursor <= i < p ==> v[i] != '\n') &&
      (!found ==> p == textEnd && forall i :: cursor <= i < |v| ==> v[i] != '\n')
  {
    FirstNewlineIsFirst(v, cursor);
  }

  // ---------------------------------------------------------------------------
  // Erase, append, overwrite, pad

  /**
   * `_erase(start, end)`: an empty or reversed range changes nothing; a
   * range inside the text is cut out and the output end drops by its
   * length. The cursor, the prompt size and the style never change.
   */
  lemma ErasedCutsRange(t: Term, start: int, end: int)
    ensures var r := Erased(t, start, end);
      r.cursor == t.cursor && r.screen.promptSize == t.screen.promptSize && r.styling == t.styling
    ensures end <= start ==> Erased(t, start, end) == t
    ensures 0 <= start <= end <= |t.screen.text| ==>
      var r := Erased(t, start, end);
      r.screen.text == t.screen.text[..start] + t.screen.text[end..] &&
      r.screen.outputEnd == t.screen.outputEnd - (end - start)
  {
    if 0 <= start < end <= |t.screen.text| {
      EraseAtSlices(t.screen.text, start, end);
    } else if 0 <= start == end <= |t.screen.text| {
      assert t.screen.text[..start] + t.screen.text[end..] == t.screen.text;
    }
  }

  /**
   * `_insert_append(s, pos)` at a position inside the text: `s` lands at
   * `pos`, and the output end and the cursor both move on by `|s|`.
   */
  lemma AppendedInserts(t: Term, s: string, pos: int)
    requires 0 <= pos <= |t.screen.text|
    ensures var r := Appended(t, s, pos);
      r.screen.text == t.screen.text[..pos] + s + t.screen.text[pos..] &&
      r.screen.outputEnd == t.screen.outputEnd + |s| && r.cursor == t.cursor + |s| &&
      r.screen.promptSize == t.screen.promptSize && r.styling == t.styling
  {
    InsertAtSlices(t.screen.text, pos, s);
  }

  /**
   * While the cursor sits at the end of the output, `_insert` appends the
   * text without escapes at the cursor and the cursor stays at the end of
   * the output.
   */
  lemma AttachedInsertAppends(cfg: Config, t: Term, s: string)
    requires !Detached(t)
    ensures var r := InsertedText(cfg, t, s); var u := cfg.strip(s);
      !Detached(r) &&
      r.screen.text == InsertAt(t.screen.text, t.cursor, u) &&
      r.cursor == t.cursor + |u| && r.screen.outputEnd == t.screen.outputEnd + |u|
  {
  }

  /** How many characters `_insert_overwrite(s)` replaces: `|s|`, or what is left of the line if that is shorter. */
  function OverwriteLength(t: Term, s: string): int {
    Min(LineEnd(t.screen.text, t.cursor, TextEnd(t)).1 - t.cursor, |s|)
  }

  /**
   * From a cursor inside the output, the characters `_insert_overwrite`
   * replaces lie inside the text and none of them is a newline, so the
   * line's own newline always survives.
   */
  lemma OverwriteKeepsNewline(t: Term, s: string)
    requires 0 <= t.cursor <= TextEnd(t) <= |t.screen.text|
    ensures var k := OverwriteLength(t, s);
      0 <= k && t.cursor + k <= |t.screen.text| &&
      forall i :: t.cursor <= i < t.cursor + k ==> t.screen.text[i] != '\n'
  {
    LineEndIsFirstNewline(t.screen.text, t.cursor, TextEnd(t));
  }

  /** `_insert_overwrite(s)`: `s` replaces the next `k` characters, and the cursor ends just past it. */
  lemma OverwrittenSlices(t: Term, s: string)
    requires 0 <= t.cursor <= TextEnd(t) <= |t.screen.text|
    ensures var v := t.screen.text; var c := t.cursor; var k := OverwriteLength(t, s);
      0 <= k && c + k <= |v| &&
      Overwritten(t, s).screen.text == v[..c] + s + v[c + k..] &&
      Overwritten(t, s).cursor == c + |s| &&
      Overwritten(t, s).screen.outputEnd == t.screen.outputEnd - k + |s|
  {
    var k := OverwriteLength(t, s);
    OverwriteKeepsNewline(t, s);
    ErasedCutsRange(t, t.cursor, t.cursor + k);
    assert Overwritten(t, s) == Appended(Erased(t, t.cursor, t.cursor + k), s, t.cursor);
    AppendAfterCut(t, k, s);
  }

  /** Cutting `k` characters at the cursor and inserting `s` there replaces those characters by `s`. */
  lemma AppendAfterCut(t: Term, k: nat, s: string)
    requires 0 <= t.cursor && t.cursor + k <= |t.screen.text|
    ensures var v := t.screen.text; var c := t.cursor; var r := Appended(Erased(t, c, c + k), s, c);
      r.screen.text == v[..c] + s + v[c + k..] &&
      r.cursor == c + |s| &&
      r.screen.outputEnd == t.screen.outputEnd - k + |s|
  {
    var c := t.cursor;
    var t1 := Erased(t, c, c + k);
    ErasedCutsRange(t, c, c + k);
    AppendedInserts(t1, s, c);
    SpliceAfterCut(t.screen.text, c, k, s);
  }

  /** Inserting at the point of a cut puts the insertion in place of the cut range. */
  lemma SpliceAfterCut(v: string, c: nat, k: nat, s: string)
    requires c + k <= |v|
    ensures var u := v[..c] + v[c + k..]; u[..c] + s + u[c..] == v[..c] + s + v[c + k..]
  {
    var u := v[..c] + v[c + k..];
    assert u[..c] == v[..c];
    assert u[c..] == v[c + k..];
  }

  /** `_insert_space_to_offset(offset)` always leaves the cursor `offset` further on. */
  lemma PaddedCursor(t: Term, offset: int)
    ensures PaddedTo(t, offset).cursor == t.cursor + offset
  {
    SpacesLength(t.cursor + offset - LineEnd(t.screen.text, t.cursor, TextEnd(t)).1);
  }

  /**
   * When the line is too short for the offset, the spaces go at the end of
   * the line, just before its newline (or at the end of the output).
   */
  lemma PaddingAtLineEnd(t: Term, offset: int)
    requires 0 <= t.cursor <= TextEnd(t) <= |t.screen.text|
    ensures var v := t.screen.text; var (found, p) := LineEnd(v, t.cursor, TextEnd(t));
      t.cursor <= p <= |v| && (found ==> p < |v|) &&
      (t.cursor + offset > p ==>
        PaddedTo(t, offset).screen.text == v[..p] + Spaces(t.cursor + offset - p) + v[p..] &&
        (found ==> PaddedTo(t, offset).screen.text[t.cursor + offset] == '\n'))
  {
    var v := t.screen.text;
    LineEndIsFirstNewline(v, t.cursor, TextEnd(t));
    var (found, p) := LineEnd(v, t.cursor, TextEnd(t));
    if t.cursor + offset > p {
      var n := t.cursor + offset - p;
      SpacesLength(n);
      AppendedInserts(t.(cursor := p), Spaces(n), p);
      if found {
        var w := v[..p] + Spaces(n) + v[p..];
        assert w[t.cursor + offset] == v[p];
      }
    }
  }

  // ---------------------------------------------------------------------------
  // Cursor moves

  /**
   * `_move_cursor_backward(n)` from a cursor inside the text moves back by
   * `n` but never across a newline: short of `n` it stops at the line start.
   */
  lemma BackwardStaysOnLine(v: string, t: Term, n: int)
    requires 0 <= n && 0 <= t.cursor <= |v|
    ensures var r := MovedBackward(v, t, n);
      r.screen == t.screen &&
      t.cursor - n <= r.cursor <= t.cursor &&
      (forall i :: r.cursor <= i < t.cursor ==> v[i] != '\n') &&
      (r.cursor > t.cursor - n ==> r.cursor == 0 || v[r.cursor - 1] == '\n')
  {
    LineStartIsAfterLastNewline(v, t.cursor);
  }

  /**
   * `_move_cursor_forward(n)` never changes the text: the cursor moves on by
   * `n` within the line and stops at the line end otherwise (the padding it
   * writes there is `' ' * diff` for a negative `diff`, which is empty).
   */
  lemma ForwardStopsAtLineEnd(v: string, t: Term, n: int)
    ensures var r := MovedForward(v, t, n);
      r.screen == t.screen && r.styling == t.styling &&
      r.cursor == Min(t.cursor + n, LineEnd(v, t.cursor, TextEnd(t)).1)
  {
    var p := LineEnd(v, t.cursor, TextEnd(t)).1;
    if p - (t.cursor + n) < 0 {
      var t0 := t.(cursor := p);
      assert Spaces(p - (t.cursor + n)) == [];
      var k := Min(LineEnd(t0.screen.text, p, TextEnd(t0)).1 - p, 0);
      ErasedCutsRange(t0, p, p + k);
      InsertNothing(t.screen.text, p);
    }
  }

  /** `_move_line_up` with no newline before the cursor returns at once, or raises TypeError (`int + None`) for a count of 0. */
  lemma UpOnFirstLine(v: string, t: Term, n: nat)
    requires forall i :: 0 <= i < Clip(|v|, t.cursor) ==> v[i] != '\n'
    ensures MovedUp(v, t, n) == if n == 0 then Raised(TypeError, t) else Next(t)
  {
    LineStartIsAfterLastNewline(v, t.cursor);
  }

  /**
   * `_move_line_up(1)` below a newline: the cursor lands in the line above
   * at the column it had (that line padded with spaces when it is shorter).
   */
  lemma UpOneLine(v: string, t: Term)
    requires LineStart(v, t.cursor).0
    ensures var start := LineStart(v, t.cursor).1; var above := LineStart(v, start - 1).1;
      MovedUp(v, t, 1).Next? && MovedUp(v, t, 1).term.cursor == above + (t.cursor - start)
  {
    var start := LineStart(v, t.cursor).1;
    var above := LineStart(v, start - 1).1;
    PaddedCursor(t.(cursor := above), t.cursor - start);
  }

  /** One pass of `_move_line_down` with a newline at `q`, the first at or after the cursor, goes just past it. */
  lemma DownToNextLine(cfg: Config, v: string, t: Term, q: nat)
    requires 0 <= t.cursor <= q < |v| && v[q] == '\n'
    requires forall i :: t.cursor <= i < q ==> v[i] != '\n'
    ensures DownStep(cfg, v, t) == Next(t.(cursor := q + 1))
  {
    LineEndIsFirstNewline(v, t.cursor, TextEnd(t));
  }

  /**
   * One pass of `_move_line_down` on the last line (colours off): a newline
   * goes in at the end of the output and the cursor follows it.
   */
  lemma DownOnLastLine(cfg: Config, v: string, t: Term)
    requires !cfg.allowColor && 0 <= t.cursor <= |v|
    requires forall i :: t.cursor <= i < |v| ==> v[i] != '\n'
    ensures DownStep(cfg, v, t) == Next(Appended(t.(cursor := TextEnd(t)), cfg.strip("\n"), TextEnd(t)))
  {
    LineEndIsFirstNewline(v, t.cursor, TextEnd(t));
  }

  // ---------------------------------------------------------------------------
  // Moving up and back down

  /** The number of newlines before position `e`: the line the position is on, counted from 0. */
  function LineNumber(v: string, e: nat): nat
    requires e <= |v|
  {
    multiset(v[..e])['\n']
  }

  /** Position `s` starts a line: it is 0 or follows a newline. */
  predicate IsLineStart(v: string, s: nat)
    requires s <= |v|
  {
    s == 0 || v[s - 1] == '\n'
  }

  /** Between two positions with no newline between them, the line number stays the same. */
  lemma SameLine(v: string, a: nat, b: nat)
    requires a <= b <= |v|
    requires forall i :: a <= i < b ==> v[i] != '\n'
    ensures LineNumber(v, b) == LineNumber(v, a)
  {
    assert v[..b] == v[..a] + v[a..b];
    assert '\n' !in v[a..b];
  }

  /** The line number never goes down, and it goes up across a newline. */
  lemma LineNumberGrows(v: string, a: nat, b: nat)
    requires a <= b <= |v|
    ensures LineNumber(v, a) <= LineNumber(v, b)
    ensures a < b && v[b - 1] == '\n' ==> LineNumber(v, a) < LineNumber(v, b)
  {
    assert v[..b] == v[..a] + v[a..b];
    if a < b && v[b - 1] == '\n' {
      assert v[a..b][b - 1 - a] == '\n';
    }
  }

  /** Two line starts on the same line are the same position. */
  lemma LineStartUnique(v: string, a: nat, b: nat)
    requires a <= |v| && b <= |v| && IsLineStart(v, a) && IsLineStart(v, b)
    requires LineNumber(v, a) == LineNumber(v, b)
    ensures a == b
  {
    if a < b {
      LineNumberGrows(v, a, b);
    } else if b < a {
      LineNumberGrows(v, b, a);
    }
  }

  /** `_find_line_start` from `x` finds the line start `s` when no newline lies between them. */
  lemma LineStartOf(v: string, s: nat, x: nat)
    requires s <= x <= |v| && IsLineStart(v, s)
    requires forall i :: s <= i < x ==> v[i] != '\n'
    ensures LineStart(v, x).1 == s && (LineStart(v, x).0 <==> s > 0)
  {
    LineStartIsAfterLastNewline(v, x);
  }

  /** `_find_line_start` gives the start of the cursor's line, on the same line. */
  lemma LineStartSameLine(v: string, x: nat)
    requires x <= |v|
    ensures var (found, p) := LineStart(v, x);
      p <= x && IsLineStart(v, p) && LineNumber(v, p) == LineNumber(v, x) &&
      (found <==> LineNumber(v, x) > 0) && (found ==> p > 0) &&
      forall i :: p <= i < x ==> v[i] != '\n'
  {
    LineStartIsAfterLastNewline(v, x);
    var (found, p) := LineStart(v, x);
    SameLine(v, p, x);
    if found {
      LineNumberGrows(v, 0, p);
    } else {
      assert LineNumber(v, 0) == 0;
    }
  }

  /**
   * The loop of `_move_line_up` with `k` moves left, from `x` with at least
   * `k` lines above: it climbs to the start of the line `k` above, and keeps
   * the column taken by the first move.
   */
  lemma {:induction false} UpLands(v: string, x: nat, k: nat, offset: Option<int>) returns (y: nat)
    requires x <= |v| && 1 <= k <= LineNumber(v, x)
    ensures y <= x && IsLineStart(v, y) && LineNumber(v, y) == LineNumber(v, x) - k && y <= LineStart(v, x).1
    ensures UpFrom(v, x, k, offset) ==
      Climbed(y, Some(if offset.None? then x - LineStart(v, x).1 else offset.value))
    decreases k
  {
    var pos := LineStart(v, x).1;
    var o := if offset.None? then x - pos else offset.value;
    var next := LineStart(v, pos - 1).1;
    UpOneStart(v, x);
    if k == 1 {
      y := next;
    } else {
      y := UpLands(v, next, k - 1, Some(o));
      LineStartSameLine(v, next);
    }
  }

  /** Below a newline, the start of the line above the cursor's line is one line up. */
  lemma UpOneStart(v: string, x: nat)
    requires x <= |v| && 1 <= LineNumber(v, x)
    ensures var pos := LineStart(v, x).1; var next := LineStart(v, pos - 1).1;
      LineStart(v, x).0 && 0 < pos <= x && next <= pos - 1 && IsLineStart(v, next) &&
      LineNumber(v, next) + 1 == LineNumber(v, x)
  {
    LineStartSameLine(v, x);
    var pos := LineStart(v, x).1;
    LineStartSameLine(v, pos - 1);
    LineNumberGrows(v, pos - 1, pos);
    assert v[..pos] == v[..pos - 1] + [v[pos - 1]];
  }

  /**
   * The loop of `_move_line_down` with `k` passes left, from `x` with at
   * least `k` newlines after it: each pass goes past the next newline, so
   * it ends at the start of the line `k` below.
   */
  lemma {:induction false} DownLands(cfg: Config, w: string, t: Term, k: nat) returns (y: nat)
    requires 0 <= t.cursor <= |w| && LineNumber(w, t.cursor) + k <= LineNumber(w, |w|)
    ensures t.cursor <= y <= |w| && LineNumber(w, y) == LineNumber(w, t.cursor) + k
    ensures k > 0 ==> IsLineStart(w, y)
    ensures DownFrom(cfg, w, t, k) == Next(t.(cursor := y))
    decreases k
  {
    if k == 0 {
      y := t.cursor;
    } else {
      LineEndIsFirstNewline(w, t.cursor, TextEnd(t));
      var (found, p) := LineEnd(w, t.cursor, TextEnd(t));
      if !found {
        SameLine(w, t.cursor, |w|);
      }
      SameLine(w, t.cursor, p);
      assert w[..p + 1] == w[..p] + [w[p]];
      y := DownLands(cfg, w, t.(cursor := p + 1), k - 1);
      if k - 1 == 0 {
        assert IsLineStart(w, p + 1);
      }
    }
  }

  /** Counting lines in a text padded with spaces at `p`: unchanged before `p`, shifted after it. */
  lemma PaddedLines(v: string, p: nat, d: nat, i: nat)
    requires p <= |v| && i <= |v|
    ensures var w := v[..p] + Spaces(d) + v[p..];
      (i <= p ==> w[..i] == v[..i] && LineNumber(w, i) == LineNumber(v, i)) &&
      (p <= i ==> LineNumber(w, i + d) == LineNumber(v, i))
  {
    var w := v[..p] + Spaces(d) + v[p..];
    SpacesLength(d);
    if i <= p {
      assert w[..i] == v[..i];
    }
    if p <= i {
      assert w[..i + d] == v[..p] + Spaces(d) + v[p..i];
      assert v[..i] == v[..p] + v[p..i];
      assert '\n' !in Spaces(d);
    }
  }

  /** Past the padding, the padded text is the old text moved on by `d`. */
  lemma PaddedShift(v: string, p: nat, d: nat, a: nat)
    requires p <= a <= |v|
    ensures var w := v[..p] + Spaces(d) + v[p..];
      |w| == |v| + d && w[a + d..] == v[a..] && (forall i :: a + d <= i < |w| ==> w[i] == v[i - d])
  {
    SpacesLength(d);
  }

  /** A stretch of a line without newlines stays so once moved on by the padding. */
  lemma PaddedNoNewline(v: string, p: nat, d: nat, a: nat, b: nat)
    requires p <= a <= b <= |v|
    requires forall i :: a <= i < b ==> v[i] != '\n'
    ensures var w := v[..p] + Spaces(d) + v[p..];
      |w| == |v| + d && forall i :: a + d <= i < b + d ==> w[i] != '\n'
  {
    PaddedShift(v, p, d, a);
  }

  /**
   * `_move_line_up(n)` from the cursor `c` at column `o` of line `L >= n`:
   * the result is the text `v` with `d` spaces padded in at the end of line
   * `L - n` (none when it is long enough), and the cursor at column `o` of
   * that line.
   */
  lemma UpMove(t: Term, n: nat) returns (p: nat, d: nat, t1: Term)
    requires 1 <= n && 0 <= t.cursor <= TextEnd(t) <= |t.screen.text|
    requires n <= LineNumber(t.screen.text, t.cursor)
    ensures var v := t.screen.text; var c := t.cursor; var s := LineStart(v, c).1;
      s <= c && p < s && MovedUp(v, t, n) == Next(t1) && |Spaces(d)| == d &&
      t1.screen.text == v[..p] + Spaces(d) + v[p..]
    ensures t1.screen.outputEnd == t.screen.outputEnd + d &&
      t1.screen.promptSize == t.screen.promptSize && t1.styling == t.styling &&
      (d == 0 ==> t1.screen == t.screen)
    ensures 0 <= t1.cursor <= |t1.screen.text| &&
      LineNumber(t1.screen.text, t1.cursor) + n == LineNumber(t.screen.text, t.cursor) &&
      t1.cursor - LineStart(t1.screen.text, t1.cursor).1 == t.cursor - LineStart(t.screen.text, t.cursor).1
  {
    var v := t.screen.text;
    var c := t.cursor;
    LineStartSameLine(v, c);
    var s := LineStart(v, c).1;
    var o := c - s;
    var y := UpLands(v, c, n, None);
    p := UpLineEnd(v, y, s, TextEnd(t));
    d := if y + o > p then y + o - p else 0;
    var t0 := t.(cursor := y);
    t1 := PaddedTo(t0, o);
    assert MovedUp(v, t, n) == Next(t1);
    UpPadded(t0, o, p, d);
    UpColumn(t, t1, n, y, p, d);
  }

  /** The padded line holds the cursor `n` lines above its old line, at its old column. */
  lemma UpColumn(t: Term, t1: Term, n: nat, y: nat, q: nat, d: nat)
    requires var v := t.screen.text; var c := t.cursor;
      c <= |v| && LineStart(v, c).1 <= c && y <= q < |v| && IsLineStart(v, y) &&
      LineNumber(v, y) + n == LineNumber(v, c) &&
      (forall i :: y <= i < q ==> v[i] != '\n') &&
      d == (if y + (c - LineStart(v, c).1) > q then y + (c - LineStart(v, c).1) - q else 0) &&
      t1.screen.text == v[..q] + Spaces(d) + v[q..] && t1.cursor == y + (c - LineStart(v, c).1)
    ensures 0 <= t1.cursor <= |t1.screen.text| &&
      LineNumber(t1.screen.text, t1.cursor) + n == LineNumber(t.screen.text, t.cursor) &&
      t1.cursor - LineStart(t1.screen.text, t1.cursor).1 == t.cursor - LineStart(t.screen.text, t.cursor).1
  {
    var v := t.screen.text;
    var w := t1.screen.text;
    var o := t.cursor - LineStart(v, t.cursor).1;
    PaddedColumnUp(v, w, y, o, q, d);
    assert LineNumber(w, y + o) + n == LineNumber(v, t.cursor);
  }

  /** The line `y` starts, which lies above the line `s` starts, ends with a newline before `s`. */
  lemma UpLineEnd(v: string, y: nat, s: nat, textEnd: int) returns (q: nat)
    requires y <= s <= |v| && LineNumber(v, y) < LineNumber(v, s)
    ensures y <= q < s && LineEnd(v, y, textEnd) == (true, q) && v[q] == '\n'
    ensures forall i :: y <= i < q ==> v[i] != '\n'
  {
    LineEndIsFirstNewline(v, y, textEnd);
    var (found, e) := LineEnd(v, y, textEnd);
    if !found {
      SameLine(v, y, s);
      assert false;
    }
    if s <= e {
      SameLine(v, y, s);
      assert false;
    }
    q := e;
  }

  /** Padding to column `o` of a line that ends at `q`: `d` spaces go in before the newline. */
  lemma UpPadded(t0: Term, o: nat, q: nat, d: nat)
    requires var v := t0.screen.text; t0.cursor <= q < |v|
    requires LineEnd(t0.screen.text, t0.cursor, TextEnd(t0)) == (true, q)
    requires d == if t0.cursor + o > q then t0.cursor + o - q else 0
    ensures var v := t0.screen.text; var r := PaddedTo(t0, o);
      |Spaces(d)| == d &&
      r.screen.text == v[..q] + Spaces(d) + v[q..] &&
      r.screen.outputEnd == t0.screen.outputEnd + d &&
      r.screen.promptSize == t0.screen.promptSize && r.styling == t0.styling &&
      r.cursor == t0.cursor + o &&
      (d == 0 ==> r.screen == t0.screen)
  {
    var v := t0.screen.text;
    SpacesLength(d);
    if t0.cursor + o > q {
      AppendedInserts(t0.(cursor := q), Spaces(d), q);
    } else {
      assert v[..q] + Spaces(0) + v[q..] == v;
    }
  }

  /** In the padded text, column `o` of the line `y` starts is still on that line. */
  lemma PaddedColumnUp(v: string, w: string, y: nat, o: nat, q: nat, d: nat)
    requires y <= q < |v| && IsLineStart(v, y)
    requires forall i :: y <= i < q ==> v[i] != '\n'
    requires d == (if y + o > q then y + o - q else 0) && w == v[..q] + Spaces(d) + v[q..]
    ensures y + o <= |w| && LineNumber(w, y + o) == LineNumber(v, y) &&
      (y + o) - LineStart(w, y + o).1 == o
  {
    var x1 := y + o;
    SpacesLength(d);
    PaddedLines(v, q, d, y);
    forall i | y <= i < x1
      ensures w[i] != '\n'
    {
      if i < q {
        assert w[i] == v[i];
      } else {
        assert w[i] == ' ';
      }
    }
    if y > 0 {
      assert w[y - 1] == v[y - 1];
    }
    LineStartOf(w, y, x1);
    SameLine(w, y, x1);
  }

  /**
   * `_move_line_down(n)` on the padded text `w` from column `o` of line
   * `L - n` comes back to the start of line `L`, and then to column `o`
   * of it, since the line held the cursor at that column.
   */
  lemma DownMove(cfg: Config, t: Term, n: nat, t1: Term, p: nat, d: nat)
    requires 1 <= n && 0 <= t.cursor <= TextEnd(t) <= |t.screen.text|
    requires n <= LineNumber(t.screen.text, t.cursor)
    requires var v := t.screen.text; var s := LineStart(v, t.cursor).1;
      s <= t.cursor && p < s && |Spaces(d)| == d && t1.screen.text == v[..p] + Spaces(d) + v[p..] &&
      t1.screen.outputEnd == t.screen.outputEnd + d && t1.screen.promptSize == t.screen.promptSize &&
      0 <= t1.cursor <= |t1.screen.text| &&
      LineNumber(t1.screen.text, t1.cursor) + n == LineNumber(v, t.cursor) &&
      t1.cursor - LineStart(t1.screen.text, t1.cursor).1 == t.cursor - s
    ensures MovedDown(cfg, t1.screen.text, t1, n) == Next(t1.(cursor := t.cursor + d))
  {
    var v := t.screen.text;
    var c := t.cursor;
    var w := t1.screen.text;
    var s := LineStart(v, c).1;
    var t2 := t1.(cursor := s + d);
    DownReachesLine(cfg, t, n, t1, p, d);
    DownPadsBack(t, t1, p, d);
    DownThenPad(cfg, w, t1, n, t2, c - s);
  }

  /** The loop of `_move_line_down(n)` on the padded text ends at the start of the cursor's old line. */
  lemma DownReachesLine(cfg: Config, t: Term, n: nat, t1: Term, p: nat, d: nat)
    requires 0 <= t.cursor <= |t.screen.text| && 1 <= n
    requires var v := t.screen.text; var s := LineStart(v, t.cursor).1;
      s <= t.cursor && p < s && |Spaces(d)| == d && t1.screen.text == v[..p] + Spaces(d) + v[p..] &&
      0 <= t1.cursor <= |t1.screen.text| &&
      LineNumber(t1.screen.text, t1.cursor) + n == LineNumber(v, t.cursor)
    ensures var s := LineStart(t.screen.text, t.cursor).1;
      DownFrom(cfg, t1.screen.text, t1, n) == Next(t1.(cursor := s + d))
  {
    var s := LineStart(t.screen.text, t.cursor).1;
    DownTarget(t, n, t1, p, d);
    DownToLineStart(cfg, t1.screen.text, t1, n, s + d);
  }

  /** The start of the cursor's old line, moved on by `d`, lies `n` lines below the cursor after the up move. */
  lemma DownTarget(t: Term, n: nat, t1: Term, p: nat, d: nat)
    requires 0 <= t.cursor <= |t.screen.text|
    requires var v := t.screen.text; var s := LineStart(v, t.cursor).1;
      s <= t.cursor && p < s && t1.screen.text == v[..p] + Spaces(d) + v[p..] &&
      0 <= t1.cursor <= |t1.screen.text| &&
      LineNumber(t1.screen.text, t1.cursor) + n == LineNumber(v, t.cursor)
    ensures var s := LineStart(t.screen.text, t.cursor).1; var w := t1.screen.text;
      s + d <= |w| && IsLineStart(w, s + d) && LineNumber(w, t1.cursor) + n == LineNumber(w, s + d)
  {
    PaddedLineStart(t.screen.text, t1.screen.text, p, d, t.cursor);
  }

  /** In the padded text the start of the cursor's line moves on by `d` and keeps its line number. */
  lemma PaddedLineStart(v: string, w: string, p: nat, d: nat, c: nat)
    requires c <= |v| && p < LineStart(v, c).1 <= c && w == v[..p] + Spaces(d) + v[p..]
    ensures var s := LineStart(v, c).1;
      s + d <= |w| && IsLineStart(w, s + d) && LineNumber(w, s + d) == LineNumber(v, c)
  {
    LineStartSameLine(v, c);
    var s := LineStart(v, c).1;
    SpacesLength(d);
    PaddedLines(v, p, d, s);
    PaddedShift(v, p, d, s - 1);
    assert w[s + d - 1] == v[s - 1];
  }

  /** Padding to the old column from the start of the cursor's old line lands on the old cursor, moved on by `d`. */
  lemma DownPadsBack(t: Term, t1: Term, p: nat, d: nat)
    requires 0 <= t.cursor <= TextEnd(t) <= |t.screen.text|
    requires var v := t.screen.text; var s := LineStart(v, t.cursor).1;
      s <= t.cursor && p < s && |Spaces(d)| == d && t1.screen.text == v[..p] + Spaces(d) + v[p..] &&
      t1.screen.outputEnd == t.screen.outputEnd + d && t1.screen.promptSize == t.screen.promptSize
    ensures var s := LineStart(t.screen.text, t.cursor).1;
      PaddedTo(t1.(cursor := s + d), t.cursor - s) == t1.(cursor := t.cursor + d)
  {
    var s := LineStart(t.screen.text, t.cursor).1;
    PadTarget(t, t1, p, d);
    PadWithinLine(t1.(cursor := s + d), t.cursor - s);
  }

  /** From the start of the cursor's old line in the padded text, the old column lies within the line and the output. */
  lemma PadTarget(t: Term, t1: Term, p: nat, d: nat)
    requires 0 <= t.cursor <= TextEnd(t) <= |t.screen.text|
    requires var v := t.screen.text; var s := LineStart(v, t.cursor).1;
      s <= t.cursor && p < s && |Spaces(d)| == d && t1.screen.text == v[..p] + Spaces(d) + v[p..] &&
      t1.screen.outputEnd == t.screen.outputEnd + d && t1.screen.promptSize == t.screen.promptSize
    ensures var s := LineStart(t.screen.text, t.cursor).1; var t2 := t1.(cursor := s + d); var o := t.cursor - s;
      0 <= o && 0 <= t2.cursor && t2.cursor + o <= TextEnd(t2) <= |t2.screen.text| &&
      forall i :: t2.cursor <= i < t2.cursor + o ==> t2.screen.text[i] != '\n'
  {
    var v := t.screen.text;
    var c := t.cursor;
    LineStartSameLine(v, c);
    var s := LineStart(v, c).1;
    PaddedNoNewline(v, p, d, s, c);
  }

  /** `_move_line_down` is its loop followed by padding to the column it started at. */
  lemma DownThenPad(cfg: Config, w: string, t1: Term, n: nat, t2: Term, o: int)
    requires DownFrom(cfg, w, t1, n) == Next(t2) && t1.cursor - LineStart(w, t1.cursor).1 == o
    ensures MovedDown(cfg, w, t1, n) == Next(PaddedTo(t2, o))
  {
  }

  /** `n` passes of `_move_line_down` end at the line start `n` lines below. */
  lemma DownToLineStart(cfg: Config, w: string, t1: Term, n: nat, target: nat)
    requires 1 <= n && 0 <= t1.cursor <= |w| && target <= |w| && IsLineStart(w, target)
    requires LineNumber(w, t1.cursor) + n == LineNumber(w, target)
    ensures DownFrom(cfg, w, t1, n) == Next(t1.(cursor := target))
  {
    LineNumberGrows(w, target, |w|);
    var y := DownLands(cfg, w, t1, n);
    LineStartUnique(w, y, target);
  }

  /** Padding to a column the line already reaches only moves the cursor. */
  lemma PadWithinLine(t: Term, o: int)
    requires 0 <= o && 0 <= t.cursor && t.cursor + o <= TextEnd(t) <= |t.screen.text|
    requires forall i :: t.cursor <= i < t.cursor + o ==> t.screen.text[i] != '\n'
    ensures PaddedTo(t, o) == t.(cursor := t.cursor + o)
  {
    LineEndIsFirstNewline(t.screen.text, t.cursor, TextEnd(t));
  }

  /**
   * `ESC[nA` then `ESC[nB`, with at least `n` lines above the cursor, bring
   * the cursor back to its line and column. The up move may pad the line it
   * lands on with `d` spaces; the cursor then comes back `d` positions
   * further on, to the same text after it, and with no padding to exactly
   * the state it left.
   */
  lemma UpThenDownReturns(cfg: Config, t: Term, n: nat) returns (t1: Term)
    requires 1 <= n && 0 <= t.cursor <= TextEnd(t) <= |t.screen.text|
    requires n <= LineNumber(t.screen.text, t.cursor)
    ensures MovedUp(t.screen.text, t, n) == Next(t1)
    ensures |t.screen.text| <= |t1.screen.text|
    ensures var d := |t1.screen.text| - |t.screen.text|; var c := t.cursor;
      MovedDown(cfg, t1.screen.text, t1, n) == Next(t1.(cursor := c + d))
    ensures var v := t.screen.text; var w := t1.screen.text; var d := |w| - |v|; var c := t.cursor;
      c + d <= |w| && w[c + d..] == v[c..] &&
      LineNumber(w, c + d) == LineNumber(v, c) &&
      (c + d) - LineStart(w, c + d).1 == c - LineStart(v, c).1
    ensures |t1.screen.text| == |t.screen.text| ==> MovedDown(cfg, t1.screen.text, t1, n) == Next(t)
  {
    var p, d;
    p, d, t1 := UpMove(t, n);
    DownAfterUp(cfg, t, n, t1, p, d);
    PaddedColumnOf(t, t1, p, d);
  }

  /** `PaddedColumn` for the states before and after the up move. */
  lemma PaddedColumnOf(t: Term, t1: Term, p: nat, d: nat)
    requires var v := t.screen.text; t.cursor <= |v| && p < LineStart(v, t.cursor).1 <= t.cursor
    requires |Spaces(d)| == d && t1.screen.text == t.screen.text[..p] + Spaces(d) + t.screen.text[p..]
    ensures var v := t.screen.text; var w := t1.screen.text; var d := |w| - |v|; var c := t.cursor;
      c + d <= |w| && w[c + d..] == v[c..] &&
      LineNumber(w, c + d) == LineNumber(v, c) &&
      (c + d) - LineStart(w, c + d).1 == c - LineStart(v, c).1
  {
    SpacesLength(d);
    PaddedColumn(t.screen.text, t1.screen.text, p, d, t.cursor);
    assert |t1.screen.text| - |t.screen.text| == d;
  }

  /** The down half of `UpThenDownReturns`, from the padded state the up move leaves. */
  lemma DownAfterUp(cfg: Config, t: Term, n: nat, t1: Term, p: nat, d: nat)
    requires 1 <= n && 0 <= t.cursor <= TextEnd(t) <= |t.screen.text|
    requires n <= LineNumber(t.screen.text, t.cursor)
    requires var v := t.screen.text; var s := LineStart(v, t.cursor).1;
      s <= t.cursor && p < s && |Spaces(d)| == d && t1.screen.text == v[..p] + Spaces(d) + v[p..] &&
      t1.screen.outputEnd == t.screen.outputEnd + d && t1.screen.promptSize == t.screen.promptSize &&
      t1.styling == t.styling && (d == 0 ==> t1.screen == t.screen) &&
      0 <= t1.cursor <= |t1.screen.text| &&
      LineNumber(t1.screen.text, t1.cursor) + n == LineNumber(v, t.cursor) &&
      t1.cursor - LineStart(t1.screen.text, t1.cursor).1 == t.cursor - s
    ensures |t.screen.text| <= |t1.screen.text|
    ensures var d := |t1.screen.text| - |t.screen.text|; var c := t.cursor;
      MovedDown(cfg, t1.screen.text, t1, n) == Next(t1.(cursor := c + d))
    ensures |t1.screen.text| == |t.screen.text| ==> MovedDown(cfg, t1.screen.text, t1, n) == Next(t)
  {
    var v := t.screen.text;
    var c := t.cursor;
    SpacesLength(d);
    assert |t1.screen.text| == |v| + d;
    DownMove(cfg, t, n, t1, p, d);
    if d == 0 {
      assert t1.(cursor := c + d) == t;
    }
  }

  /** Padding before the cursor's line keeps its tail, its line number and its column. */
  lemma PaddedColumn(v: string, w: string, p: nat, d: nat, c: nat)
    requires c <= |v| && p < LineStart(v, c).1 <= c && w == v[..p] + Spaces(d) + v[p..]
    ensures c + d <= |w| && w[c + d..] == v[c..] &&
      LineNumber(w, c + d) == LineNumber(v, c) &&
      (c + d) - LineStart(w, c + d).1 == c - LineStart(v, c).1
  {
    LineStartSameLine(v, c);
    var s := LineStart(v, c).1;
    PaddedShift(v, p, d, c);
    PaddedLines(v, p, d, c);
    PaddedShift(v, p, d, s - 1);
    assert w[s + d - 1] == v[s - 1];
    PaddedNoNewline(v, p, d, s, c);
    LineStartOf(w, s + d, c + d);
  }

  // ---------------------------------------------------------------------------
  // Controls

  /** `\r` from a cursor at or after 0 goes to the start of the cursor's line. */
  lemma ReturnGoesToLineStart(t: Term)
    requires 0 <= t.cursor
    ensures Returned(t) == t.(cursor := LineStart(t.screen.text, t.cursor).1)
  {
    var text := t.screen.text;
    var v := Prefix(text, t.cursor + 1);
    assert Clip(|v|, t.cursor) == Clip(|text|, t.cursor);
    var e := Clip(|text|, t.cursor);
    assert v[..e] == text[..e];
    AfterLastNewlineLocal(v, text, e);
  }

  /** No erase moves the cursor. */
  lemma ErasingKeepsCursor(t: Term, mode: string)
    ensures LineErased(t, mode).cursor == t.cursor
    ensures DisplayErased(t, mode).cursor == t.cursor
  {
    var v := t.screen.text;
    ErasedCutsRange(t, if mode == "1" || mode == "2" then LineStart(v, t.cursor).1 else t.cursor,
      if mode == "1" then t.cursor else LineEnd(v, t.cursor, TextEnd(t)).1);
    ErasedCutsRange(t, if mode == "1" || mode == "2" || mode == "3" then 0 else t.cursor,
      if mode == "1" then t.cursor else |v|);
  }

  /**
   * `ESC[K` (EL 0): erase from the cursor to the end of the line, keeping
   * the newline that ends it; on the last line, up to the end of the output.
   */
  lemma EraseLineForward(t: Term, mode: string)
    requires mode != "1" && mode != "2"
    requires 0 <= t.cursor <= TextEnd(t) <= |t.screen.text|
    ensures var v := t.screen.text; var (found, p) := LineEnd(v, t.cursor, TextEnd(t));
      t.cursor <= p <= |v| &&
      LineErased(t, mode).screen.text == v[..t.cursor] + v[p..] &&
      (forall i :: t.cursor <= i < p ==> v[i] != '\n') &&
      (found ==> p < |v| && v[p] == '\n') && (!found ==> p == TextEnd(t))
  {
    var v := t.screen.text;
    LineEndIsFirstNewline(v, t.cursor, TextEnd(t));
    ErasedCutsRange(t, t.cursor, LineEnd(v, t.cursor, TextEnd(t)).1);
  }

  /** `ESC[1K` (EL 1): erase from the start of the line up to the cursor. */
  lemma EraseLineBackward(t: Term)
    requires 0 <= t.cursor <= |t.screen.text|
    ensures var v := t.screen.text; var s := LineStart(v, t.cursor).1;
      0 <= s <= t.cursor && (s == 0 || v[s - 1] == '\n') &&
      LineErased(t, "1").screen.text == v[..s] + v[t.cursor..] &&
      (forall i :: s <= i < t.cursor ==> v[i] != '\n')
  {
    var v := t.screen.text;
    LineStartIsAfterLastNewline(v, t.cursor);
    ErasedCutsRange(t, LineStart(v, t.cursor).1, t.cursor);
  }

  /** `ESC[2K` (EL 2): erase the whole line around the cursor, keeping the newline that ends it. */
  lemma EraseWholeLine(t: Term)
    requires 0 <= t.cursor <= TextEnd(t) <= |t.screen.text|
    ensures var v := t.screen.text; var s := LineStart(v, t.cursor).1;
      var (found, p) := LineEnd(v, t.cursor, TextEnd(t));
      0 <= s <= t.cursor <= p <= |v| && (s == 0 || v[s - 1] == '\n') &&
      LineErased(t, "2").screen.text == v[..s] + v[p..] &&
      (forall i :: s <= i < p ==> v[i] != '\n') &&
      (found ==> p < |v| && v[p] == '\n')
  {
    var v := t.screen.text;
    LineStartIsAfterLastNewline(v, t.cursor);
    LineEndIsFirstNewline(v, t.cursor, TextEnd(t));
    ErasedCutsRange(t, LineStart(v, t.cursor).1, LineEnd(v, t.cursor, TextEnd(t)).1);
  }

  /** `ESC[J` (ED): 0 erases from the cursor on, 1 up to the cursor, 2 and 3 everything. */
  lemma EraseDisplay(t: Term, mode: string)
    requires 0 <= t.cursor <= |t.screen.text|
    ensures var v := t.screen.text; var r := DisplayErased(t, mode).screen;
      (mode == "2" || mode == "3" ==> r.text == [] && r.outputEnd == t.screen.outputEnd - |v|) &&
      (mode == "1" ==> r.text == v[t.cursor..] && r.outputEnd == t.screen.outputEnd - t.cursor) &&
      (mode != "1" && mode != "2" && mode != "3" ==>
        r.text == v[..t.cursor] && r.outputEnd == t.screen.outputEnd - (|v| - t.cursor))
  {
    var v := t.screen.text;
    if mode == "2" || mode == "3" {
      ErasedCutsRange(t, 0, |v|);
    } else if mode == "1" {
      ErasedCutsRange(t, 0, t.cursor);
    } else {
      ErasedCutsRange(t, t.cursor, |v|);
    }
  }

  // ---------------------------------------------------------------------------
  // Tokens and dispatch

  /** While the cursor is attached the newline regex is not used, so a newline is never a token. */
  lemma {:induction false} AttachedNewlineIsText(s: string, p: nat)
    ensures var r := FindToken(s, p, false); r.Some? ==> r.value.token != LineFeed
    decreases |s| - p
  {
    if p < |s| && CsiAt(s, p).None? && s[p] != '\r' {
      AttachedNewlineIsText(s, p + 1);
    }
  }

  /** A match of the cursor regex (with `\n` when `withNewline`) starts at `q`. */
  predicate TokenStartsAt(s: string, q: nat, withNewline: bool)
    requires q < |s|
  {
    CsiAt(s, q).Some? || s[q] == '\r' || (withNewline && s[q] == '\n')
  }

  /** `re.search` returns the leftmost match: no token starts between `p` and the one found, nor anywhere on a miss. */
  lemma {:induction false} FindTokenLeftmost(s: string, p: nat, withNewline: bool)
    ensures var m := FindToken(s, p, withNewline);
      && (m.Some? ==> TokenStartsAt(s, m.value.start, withNewline))
      && (m.Some? ==> forall q :: p <= q < m.value.start ==> !TokenStartsAt(s, q, withNewline))
      && (m.None? ==> forall q :: p <= q < |s| ==> !TokenStartsAt(s, q, withNewline))
    decreases |s| - p
  {
    if p < |s| && !TokenStartsAt(s, p, withNewline) {
      FindTokenLeftmost(s, p + 1, withNewline);
    }
  }

  /** Text without ESC and `\r` (and without `\n` when newlines count) holds no token. */
  lemma {:induction false} NoTokenInPlainText(s: string, p: nat, withNewline: bool)
    requires forall i :: p <= i < |s| ==> s[i] != AnsiColor.Esc && s[i] != '\r' && (withNewline ==> s[i] != '\n')
    ensures FindToken(s, p, withNewline) == None
    decreases |s| - p
  {
    if p < |s| {
      NoTokenInPlainText(s, p + 1, withNewline);
    }
  }

  /** `ESC[H` and any CUP code without `;` go to position 0. */
  lemma CupWithoutSemicolonGoesHome(cfg: Config, v: string, t: Term, code: string)
    requires ';' !in code
    ensures MovedTo(cfg, v, t, code) == Next(t.(cursor := 0))
  {
    SplitCount(code, ';');
    assert multiset(code)[';'] == 0;
  }

  /** A CUP code with more than one `;` raises ValueError when unpacked into `y, x`. */
  lemma CupWithThreeFieldsRaises(cfg: Config, v: string, t: Term, code: string)
    requires multiset(code)[';'] >= 2
    ensures MovedTo(cfg, v, t, code) == Raised(ValueError, t)
  {
    SplitCount(code, ';');
  }

  /** A CSI sequence that is no cursor move and no supported erase changes nothing. */
  lemma UnknownCsiIgnored(cfg: Config, t: Term, params: string, final: char)
    requires final !in "ABCDH"
    requires final == 'K' ==> params !in {"", "0", "1", "2"}
    requires final == 'J' ==> params !in {"", "0", "1", "2", "3"}
    ensures Processed(cfg, t, Csi(params, final)) == Next(t)
  {
  }

  // ---------------------------------------------------------------------------
  // Input normalisation

  /** Without NULs, the `ESC[J` clean-up changes nothing. */
  lemma {:induction false} ClearNulsWithoutNul(s: string)
    requires forall i :: 0 <= i < |s| ==> s[i] != '\0'
    ensures ClearNuls(s) == s
    decreases |s|
  {
    if s != [] {
      ClearNulsWithoutNul(s[1..]);
    }
  }

  /** Leading NULs in front of a text that does not start with one are all dropped. */
  lemma {:induction false} DropNulsRun(k: nat, rest: string)
    requires rest == [] || rest[0] != '\0'
    ensures DropNuls(seq(k, _ => '\0') + rest) == rest
    decreases k
  {
    var s := seq(k, _ => '\0') + rest;
    if k == 0 {
      assert s == rest;
    } else {
      assert s[0] == '\0';
      assert s[1..] == seq(k - 1, _ => '\0') + rest;
      DropNulsRun(k - 1, rest);
    }
  }

  /** `ESC[J` followed by one or more NULs keeps the sequence and drops the NULs. */
  lemma ClearNulsAfterClear(k: nat, rest: string)
    requires 0 < k && (rest == [] || rest[0] != '\0')
    ensures ClearNuls(ClearSeq + seq(k, _ => '\0') + rest) == ClearSeq + ClearNuls(rest)
  {
    var nuls := seq(k, _ => '\0');
    var s := ClearSeq + nuls + rest;
    ClearSeqHead(s, nuls + rest);
    ClearNulsAtClear(s);
    DropNulsRun(k, rest);
  }

  /** The pieces of `ESC[J` followed by a text. */
  lemma ClearSeqHead(s: string, tail: string)
    requires s == ClearSeq + tail && tail != []
    ensures |s| >= 4 && s[..3] == ClearSeq && s[3] == tail[0] && s[3..] == tail
  {
  }

  /** One step of the `ESC[J` clean-up at a match. */
  lemma ClearNulsAtClear(s: string)
    requires |s| >= 4 && s[..3] == ClearSeq && s[3] == '\0'
    ensures ClearNuls(s) == ClearSeq + ClearNuls(DropNuls(s[3..]))
  {
  }

  /** Without the byte `\xe2`, the en-dash substitution changes nothing. */
  lemma {:induction false} DashesWithoutEndash(s: string)
    requires forall i :: 0 <= i < |s| ==> s[i] != '\U{e2}'
    ensures Dashes(s) == s
    decreases |s|
  {
    if s != [] {
      assert |s| >= 3 ==> s[..3][0] != Endash[0];
      DashesWithoutEndash(s[1..]);
    }
  }

  /** An en dash read byte by byte becomes `-`. */
  lemma DashesReplacesEndash()
    ensures Dashes(['a'] + Endash + ['b']) == ['a', '-', 'b']
  {
    var s := ['a'] + Endash + ['b'];
    assert s[..3][0] != Endash[0];
    assert s[1..][..3] == Endash && s[1..][3..] == ['b'];
    assert Dashes(['b']) == ['b'] by {
      DashesWithoutEndash(['b']);
    }
  }

  // ---------------------------------------------------------------------------
  // The run loop

  /**
   * Plain output while the cursor is attached (no ESC, `\r`, NUL or `\xe2`,
   * colours off) is inserted in one piece, as `_insert` of the whole text.
   */
  lemma PlainRunInsertsWhole(cfg: Config, t: Term, text: string)
    requires !cfg.allowColor && !Detached(t) && |text| > 0
    requires forall i :: 0 <= i < |text| ==>
      text[i] != AnsiColor.Esc && text[i] != '\r' && text[i] != '\0' && text[i] != '\U{e2}'
    ensures Ran(cfg, t, text) == Next(InsertedText(cfg, t, text))
  {
    ClearNulsWithoutNul(text);
    DashesWithoutEndash(text);
    NoTokenInPlainText(text, 0, false);
  }

  /**
   * A carriage return lets the next text overwrite the line: `abc\rXYZ`
   * written to an empty view with the cursor at the end of the output
   * leaves `XYZ` (colours off, and the escape filter leaving both pieces
   * alone).
   */
  lemma CarriageReturnOverwrites(cfg: Config, sty: AnsiColor.Styling)
    requires !cfg.allowColor && cfg.strip("abc") == "abc" && cfg.strip("XYZ") == "XYZ"
    ensures Ran(cfg, Term(Screen("", 0, 0), 0, sty), "abc\rXYZ") == Next(Term(Screen("XYZ", 3, 0), 3, sty))
  {
    var text := "abc\rXYZ";
    AbcReturnClean(text);
    AbcThenReturn(cfg, sty, text);
    OverwriteXyz(cfg, sty);
  }

  /** `abc\rXYZ` has no NUL and no en dash: `run` takes it as it is. */
  lemma AbcReturnClean(text: string)
    requires text == "abc\rXYZ"
    ensures Dashes(ClearNuls(text)) == text
  {
    ClearNulsWithoutNul(text);
    DashesWithoutEndash(text);
  }

  /** The loop of `run` over `abc\rXYZ` appends `abc`, goes back to 0 and goes on with `XYZ`. */
  lemma AbcThenReturn(cfg: Config, sty: AnsiColor.Styling, text: string)
    requires !cfg.allowColor && cfg.strip("abc") == "abc" && text == "abc\rXYZ"
    ensures RunFrom(cfg, Term(Screen("", 0, 0), 0, sty), text) == RunFrom(cfg, Term(Screen("abc", 3, 0), 0, sty), "XYZ")
  {
    var t := Term(Screen("", 0, 0), 0, sty);
    ReturnFindsToken(text);
    assert text[..3] == "abc" && text[4..] == "XYZ";
    var t2 := ReturnAfterAbc(cfg, sty);
    assert !Detached(t);
  }

  /** The search of `abc\rXYZ` with the cursor attached finds the `\r`. */
  lemma ReturnFindsToken(text: string)
    requires text == "abc\rXYZ"
    ensures FindToken(text, 0, false) == Some(TokenMatch(3, 4, CarriageReturn))
  {
    assert FindToken(text, 3, false) == Some(TokenMatch(3, 4, CarriageReturn));
    assert FindToken(text, 2, false) == FindToken(text, 3, false);
    assert FindToken(text, 1, false) == FindToken(text, 2, false);
  }

  /** `abc` is appended to the empty view, and `\r` takes the cursor back to 0. */
  lemma ReturnAfterAbc(cfg: Config, sty: AnsiColor.Styling) returns (t2: Term)
    requires !cfg.allowColor && cfg.strip("abc") == "abc"
    ensures t2 == Term(Screen("abc", 3, 0), 0, sty)
    ensures Inserted(cfg, Term(Screen("", 0, 0), 0, sty), "abc") == Next(Term(Screen("abc", 3, 0), 3, sty))
    ensures Processed(cfg, Term(Screen("abc", 3, 0), 3, sty), CarriageReturn) == Next(t2)
  {
    var t := Term(Screen("", 0, 0), 0, sty);
    var t1 := Term(Screen("abc", 3, 0), 3, sty);
    AppendedInserts(t, "abc", 0);
    t2 := t1.(cursor := 0);
    ReturnGoesToLineStart(t1);
    LineStartIsAfterLastNewline("abc", 3);
  }

  /** From position 0 of `abc`, `XYZ` overwrites the whole line. */
  lemma OverwriteXyz(cfg: Config, sty: AnsiColor.Styling)
    requires !cfg.allowColor && cfg.strip("XYZ") == "XYZ"
    ensures RunFrom(cfg, Term(Screen("abc", 3, 0), 0, sty), "XYZ") == Next(Term(Screen("XYZ", 3, 0), 3, sty))
  {
    NoTokenInPlainText("XYZ", 0, true);
    XyzReplacesAbc(sty);
  }

  /** `_insert_overwrite("XYZ")` at the start of `abc` replaces all three characters. */
  lemma XyzReplacesAbc(sty: AnsiColor.Styling)
    ensures Overwritten(Term(Screen("abc", 3, 0), 0, sty), "XYZ") == Term(Screen("XYZ", 3, 0), 3, sty)
  {
    var t2 := Term(Screen("abc", 3, 0), 0, sty);
    LineEndIsFirstNewline("abc", 0, 3);
    assert OverwriteLength(t2, "XYZ") == 3;
    OverwrittenSlices(t2, "XYZ");
  }

  // ---------------------------------------------------------------------------
  // The view

  /** `write` without emulation puts the output just before the prompt; the prompt and the input follow it unchanged. */
  lemma PlainWriteBeforePrompt(sc: Screen, u: string)
    requires 0 <= sc.outputEnd - sc.promptSize <= |sc.text|
    ensures var e := sc.outputEnd - sc.promptSize; var r := WrittenPlain(sc, u);
      r.text == sc.text[..e] + u + sc.text[e..] &&
      r.text[e + |u|..] == sc.text[e..] &&
      r.outputEnd - r.promptSize == e + |u| && r.promptSize == sc.promptSize
  {
    var e := sc.outputEnd - sc.promptSize;
    InsertAtSlices(sc.text, e, u);
    assert (sc.text[..e] + u + sc.text[e..])[e + |u|..] == sc.text[e..];
  }

  /** `write_prompt(s)` puts the prompt at the output end and then counts `|s|` characters of prompt. */
  lemma PromptWriteAtOutputEnd(sc: Screen, s: string, u: string)
    requires 0 <= sc.outputEnd <= |sc.text|
    ensures var r := WrittenPrompt(sc, s, u);
      r.text == sc.text[..sc.outputEnd] + u + sc.text[sc.outputEnd..] &&
      r.outputEnd == sc.outputEnd + |u| && r.promptSize == |s|
  {
    InsertAtSlices(sc.text, sc.outputEnd, u);
  }

  /**
   * Output written while the user types never touches the input: the text
   * of `input_region` (`user_input`) is the same before and after `write`.
   */
  lemma WriteKeepsUserInput(sc: Screen, u: string)
    requires 0 <= sc.promptSize <= sc.outputEnd <= |sc.text|
    ensures var r := WrittenPlain(sc, u); var before := InputRegion(sc); var after := InputRegion(r);
      0 <= after.Begin() <= after.End() == |r.text| &&
      r.text[after.Begin()..after.End()] == sc.text[before.Begin()..before.End()]
  {
    var e := sc.outputEnd - sc.promptSize;
    PlainWriteBeforePrompt(sc, u);
    var r := WrittenPlain(sc, u);
    assert r.text[e + |u|..][sc.promptSize..] == r.text[sc.outputEnd + |u|..];
    assert sc.text[e..][sc.promptSize..] == sc.text[sc.outputEnd..];
  }

  /** A prompt goes in before the user's input, which follows it unchanged. */
  lemma PromptKeepsUserInput(sc: Screen, s: string, u: string)
    requires 0 <= sc.outputEnd <= |sc.text|
    ensures var r := WrittenPrompt(sc, s, u); var before := InputRegion(sc); var after := InputRegion(r);
      0 <= after.Begin() <= after.End() == |r.text| &&
      r.text[after.Begin()..after.End()] == sc.text[before.Begin()..before.End()]
  {
    PromptWriteAtOutputEnd(sc, s, u);
    var r := WrittenPrompt(sc, s, u);
    assert r.text[sc.outputEnd + |u|..] == sc.text[sc.outputEnd..];
  }

  /** After `adjust_end` nothing is left in `input_region`: what the user typed counts as output, or is gone. */
  lemma AdjustEndEmptiesInput(sc: Screen, suppressEcho: bool)
    requires 0 <= sc.outputEnd
    ensures var r := InputRegion(AdjustedEnd(sc, suppressEcho)); r.Begin() == r.End()
  {
    AdjustedEndAtTextEnd(sc, suppressEcho);
  }

  /**
   * `adjust_end` leaves the output end at the end of the text: with echo
   * suppressed by cutting what follows the output, otherwise by taking
   * everything as output.
   */
  lemma AdjustedEndAtTextEnd(sc: Screen, suppressEcho: bool)
    requires 0 <= sc.outputEnd
    ensures var r := AdjustedEnd(sc, suppressEcho);
      r.outputEnd == |r.text| && r.promptSize == sc.promptSize &&
      (suppressEcho ==> r.text == sc.text[..Min(|sc.text|, sc.outputEnd)]) &&
      (!suppressEcho ==> r.text == sc.text)
  {
    var e := Min(|sc.text|, sc.outputEnd);
    EraseAtSlices(sc.text, e, |sc.text|);
  }
}
