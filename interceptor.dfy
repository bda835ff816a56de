/**
 * The command interceptor of an SSH REPL (interceptor/interceptor.py): it
 * catches `vi <path>` to fetch the remote file instead, and completes a
 * word on Tab by asking the remote shell. What the remote shell answers to
 * an intercepted command arrives here as a parameter `reply`: `None` when
 * `_intercept_cmd` failed, otherwise the lines its post-processor kept.
 */
module Interceptor {
  import opened Py

  const Newline: byte := 10
  const Backspace: byte := 8
  const Slash: byte := 47
  /** `b'vi '` */
  const ViCommand: Bytes := [118, 105, 32]

  /** No whitespace at either end, as `strip()` leaves it. */
  predicate IsStripped(b: Bytes) {
    b == [] || (!IsByteSpace(b[0]) && !IsByteSpace(b[|b| - 1]))
  }

  lemma StripBytesIsStripped(b: Bytes)
    ensures IsStripped(StripBytes(b))
  {
    var r := RStripBytes(b);
    var l := LStripBytes(r);
    if l != [] {
      assert l[|l| - 1] == r[|r| - 1];
    }
  }

  // ---------------------------------------------------------------------------
  // Post-processing the reply

  /**
   * `_post_process_intercept_cmd_win`: nothing for an empty reply; otherwise
   * one line, with a trailing backspace pair cut off and escapes and
   * surrounding whitespace removed (`stripEscapes` is the substitution of
   * the REPL's 8-bit escape regex).
   */
  function PostProcessWin(b: Bytes, stripEscapes: Bytes -> Bytes): (r: Option<seq<Bytes>>)
    ensures r.None? <==> b == []
    ensures r.Some? ==> |r.value| == 1 && IsStripped(r.value[0])
  {
    if b == [] then None
    else
      var cut := if EndsWith(b, [Backspace]) then Prefix(b, -2) else b;
      StripBytesIsStripped(stripEscapes(cut));
      Some([StripBytes(stripEscapes(cut))])
  }

  /**
   * `_post_process_intercept_cmd_unix`: the reply is the echoed command, the
   * output lines and the next prompt; with fewer than two newlines there is
   * no output, otherwise the output lines come back with the first one
   * cleaned of escapes and whitespace.
   */
  function PostProcessUnix(b: Bytes, stripEscapes: Bytes -> Bytes): (r: Option<seq<Bytes>>)
    ensures r.None? <==> multiset(b)[Newline] < 2
    ensures r.Some? ==> |r.value| == multiset(b)[Newline] - 1 && IsStripped(r.value[0])
  {
    var lines := Split(b, Newline);
    SplitCount(b, Newline);
    if |lines| <= 2 then None
    else
      var results := lines[1..|lines| - 1];
      StripBytesIsStripped(stripEscapes(results[0]));
      Some(results[0 := StripBytes(stripEscapes(results[0]))])
  }

  /** Echo line, output lines and prompt line in: exactly the output lines out, the first one stripped. */
  lemma PostProcessUnixKeepsOutput(echo: Bytes, output: seq<Bytes>, prompt: Bytes, stripEscapes: Bytes -> Bytes)
    requires |output| >= 1
    requires Newline !in echo && Newline !in prompt
    requires forall i :: 0 <= i < |output| ==> Newline !in output[i]
    ensures PostProcessUnix(Join([echo] + output + [prompt], Newline), stripEscapes)
      == Some(output[0 := StripBytes(stripEscapes(output[0]))])
  {
    var pieces := [echo] + output + [prompt];
    NoNewlineInLines(echo, output, prompt);
    SplitJoin(pieces, Newline);
    assert pieces[1..|pieces| - 1] == output;
  }

  lemma NoNewlineInLines(echo: Bytes, output: seq<Bytes>, prompt: Bytes)
    requires Newline !in echo && Newline !in prompt
    requires forall i :: 0 <= i < |output| ==> Newline !in output[i]
    ensures var pieces := [echo] + output + [prompt];
      forall i :: 0 <= i < |pieces| ==> Newline !in pieces[i]
  {
    var pieces := [echo] + output + [prompt];
    forall i | 0 <= i < |pieces|
      ensures Newline !in pieces[i]
    {
      if 0 < i < |pieces| - 1 {
        assert pieces[i] == output[i - 1];
      }
    }
  }

  // ---------------------------------------------------------------------------
  // Asking the shell for the working directory and the user

  /**
   * `_get_cwd`: the first reply line from its first `/` up to the next
   * newline, stripped; nothing when there is no reply or no `/`. A
   * directory found is always absolute and a single line.
   */
  function GetCwd(reply: Option<seq<Bytes>>): (r: Option<string>)
    ensures r.None? <==> reply.None? || reply.value == [] || Slash !in reply.value[0]
    ensures r.Some? ==> |r.value| > 0 && r.value[0] == '/' && '\n' !in r.value
  {
    if reply.None? || reply.value == [] then None
    else
      var b := reply.value[0];
      if Slash !in b then None
      else
        var cwd := DecodeBytes(b[IndexOf(b, Slash)..]);
        assert cwd[0] == '/';
        var line := if '\n' in cwd then cwd[..IndexOf(cwd, '\n')] else cwd;
        StripKeepsSlash(line);
        Some(Strip(line))
  }

  /** Stripping a line that starts with `/` keeps the `/` at its head and adds nothing. */
  lemma StripKeepsSlash(line: string)
    requires |line| > 0 && line[0] == '/' && '\n' !in line
    ensures |Strip(line)| > 0 && Strip(line)[0] == '/' && '\n' !in Strip(line)
  {
    var r := RStrip(line);
    assert !IsSpace(line[0]);
    assert r[0] == '/';
    assert LStrip(r) == r;
    assert forall c :: c in r ==> c in line;
  }

  /** `_get_user`: the first reply line as text, or nothing. */
  function GetUser(reply: Option<seq<Bytes>>): (r: Option<string>)
    ensures r.Some? <==> reply.Some? && reply.value != []
    ensures r.Some? ==> |r.value| == |reply.value[0]|
  {
    if reply.None? || reply.value == [] then None else Some(DecodeBytes(reply.value[0]))
  }

  // ---------------------------------------------------------------------------
  // vi

  /** What `_process_vi` does with a command: let it through, swallow it, or swallow it and open a remote file. */
  datatype ViAction = NotVi | Declined | Open(path: string)

  /** `path.replace('\\', '/')` */
  function Slashed(s: string): (r: string)
    ensures |r| == |s| && '\\' !in r
    ensures forall i :: 0 <= i < |s| && s[i] != '\\' ==> r[i] == s[i]
  {
    seq(|s|, i requires 0 <= i < |s| => if s[i] == '\\' then '/' else s[i])
  }

  /** The replacement works character by character, so it can be done piece by piece. */
  lemma SlashedConcat(a: string, b: string)
    ensures Slashed(a + b) == Slashed(a) + Slashed(b)
  {
    assert forall i :: 0 <= i < |a| ==> (a + b)[i] == a[i];
    assert forall i :: |a| <= i < |a| + |b| ==> (a + b)[i] == b[i - |a|];
  }

  /** `posixpath.join(a, b)` */
  function PosixJoin(a: string, b: string): (r: string)
    ensures a != [] && a[0] == '/' ==> |r| > 0 && r[0] == '/'
  {
    if StartsWith(b, "/") then b
    else if a == [] || EndsWith(a, "/") then a + b
    else a + "/" + b
  }

  /**
   * The last step of `_process_vi`: an absolute path is opened as is; a
   * relative one is opened below the shell's cwd, joined to it by a single
   * `/` and with every backslash turned into `/`; without a cwd the command
   * is only swallowed.
   */
  function Resolved(path: string, cwdReply: Option<seq<Bytes>>): (r: ViAction)
    ensures r.Open? ==> |r.path| > 0 && r.path[0] == '/'
    ensures r == Declined <==> !StartsWith(path, "/") && GetCwd(cwdReply).None?
    ensures StartsWith(path, "/") ==> r == Open(path)
    ensures !StartsWith(path, "/") && r.Open? ==>
      var cwd := GetCwd(cwdReply).value;
      r.path == Slashed(cwd) + (if EndsWith(cwd, "/") then "" else "/") + Slashed(path)
    ensures !StartsWith(path, "/") && r.Open? ==> EndsWith(r.path, Slashed(path))
  {
    if StartsWith(path, "/") then Open(path)
    else
      match GetCwd(cwdReply)
      case None => Declined
      case Some(parent) =>
        JoinedSlashed(parent, path);
        Open(Slashed(PosixJoin(parent, path)))
  }

  /**
   * `_process_vi`: a command `vi <path>` is swallowed, and its argument,
   * stripped and decoded, is handled by `ViPath`; any other command is let
   * through. Every file opened is named by an absolute path.
   */
  function ProcessVi(b: Bytes, userReply: Option<seq<Bytes>>, cwdReply: Option<seq<Bytes>>): (r: ViAction)
    ensures r == NotVi <==> !StartsWith(b, ViCommand)
    ensures StartsWith(b, ViCommand) ==> r == ViPath(DecodeBytes(StripBytes(b[3..])), userReply, cwdReply)
    ensures r.Open? ==> |r.path| > 0 && r.path[0] == '/'
  {
    if !StartsWith(b, ViCommand) then NotVi
    else ViPath(DecodeBytes(StripBytes(b[3..])), userReply, cwdReply)
  }

  /** The file name `vi` was given once a leading `./` or `~` is dropped. */
  function ViName(path: string): string {
    if StartsWith(path, "./") then path[2..]
    else if StartsWith(path, "~") then path[1..]
    else path
  }

  /**
   * The path handling of `_process_vi` for the stripped argument `path`: a
   * leading `./` is dropped, `~` becomes `/home/<user>`, and what is still
   * relative is taken below the cwd. An absolute name is opened as is;
   * otherwise the opened path ends with the name, backslashes turned into `/`.
   */
  function ViPath(path: string, userReply: Option<seq<Bytes>>, cwdReply: Option<seq<Bytes>>): (r: ViAction)
    ensures r != NotVi
    ensures r.Open? ==> |r.path| > 0 && r.path[0] == '/'
    ensures !StartsWith(path, "~") && StartsWith(ViName(path), "/") ==> r == Open(ViName(path))
    ensures r.Open? && !(StartsWith(ViName(path), "/") && !StartsWith(path, "~")) ==>
      EndsWith(r.path, Slashed(ViName(path)))
    ensures r == Declined <==>
      if StartsWith(path, "~") then GetUser(userReply).None? || GetUser(userReply).value == ""
      else !StartsWith(ViName(path), "/") && GetCwd(cwdReply).None?
  {
    if StartsWith(path, "./") then
      assert !StartsWith(path, "~") by {
        assert path[0] == '.';
      }
      Resolved(path[2..], cwdReply)
    else if StartsWith(path, "~") then HomePath(path, userReply)
    else Resolved(path, cwdReply)
  }

  /** Joining a relative path to a directory and then replacing backslashes: the two pieces and one `/` between. */
  lemma JoinedSlashed(parent: string, path: string)
    requires parent != [] && !StartsWith(path, "/")
    ensures var joined := Slashed(PosixJoin(parent, path));
      joined == Slashed(parent) + (if EndsWith(parent, "/") then "" else "/") + Slashed(path) &&
      EndsWith(joined, Slashed(path))
  {
    var joined := Slashed(PosixJoin(parent, path));
    if EndsWith(parent, "/") {
      SlashedConcat(parent, path);
    } else {
      SlashedConcat(parent, "/");
      SlashedConcat(parent + "/", path);
    }
    SlashedEnd(joined, parent, path);
  }

  /** A joined path ends with its last piece. */
  lemma SlashedEnd(joined: string, cwd: string, path: string)
    requires joined == Slashed(cwd) + (if EndsWith(cwd, "/") then "" else "/") + Slashed(path)
    ensures EndsWith(joined, Slashed(path))
  {
    var head := Slashed(cwd) + (if EndsWith(cwd, "/") then "" else "/");
    assert joined == head + Slashed(path);
    assert joined[|joined| - |Slashed(path)|..] == Slashed(path);
  }

  /**
   * `~…` becomes `/home/<user>…`, declined when the shell names no user or
   * an empty one; every backslash is turned into `/`, and the cwd is never
   * asked.
   */
  function HomePath(path: string, userReply: Option<seq<Bytes>>): (r: ViAction)
    requires StartsWith(path, "~")
    ensures r != NotVi
    ensures r.Open? <==> GetUser(userReply).Some? && GetUser(userReply).value != ""
    ensures r.Open? ==> r.path == "/home/" + Slashed(GetUser(userReply).value) + Slashed(path[1..])
    ensures r.Open? ==> StartsWith(r.path, "/home/") && EndsWith(r.path, Slashed(path[1..]))
  {
    match GetUser(userReply)
    case None => Declined
    case Some(user) =>
      if user == "" then Declined
      else
        var home := Slashed("/home/" + user + path[1..]);
        SlashedConcat("/home/" + user, path[1..]);
        SlashedConcat("/home/", user);
        assert Slashed("/home/") == "/home/";
        var r := "/home/" + Slashed(user) + Slashed(path[1..]);
        assert r[..6] == "/home/";
        assert r[|r| - |Slashed(path[1..])|..] == Slashed(path[1..]);
        Open(home)
  }

  /** `vi ./name` opens what `vi name` opens, unless `name` itself starts with `~` or `./`. */
  lemma ViDotSlash(name: string, userReply: Option<seq<Bytes>>, cwdReply: Option<seq<Bytes>>)
    requires !StartsWith(name, "~") && !StartsWith(name, "./")
    ensures ViPath("./" + name, userReply, cwdReply) == ViPath(name, userReply, cwdReply)
  {
    assert ("./" + name)[2..] == name;
    assert StartsWith("./" + name, "./");
  }

  /** `vi ./~x` takes `~x` below the cwd, where `vi ~x` would go to the home directory. */
  lemma ViDotTildeIsRelative(userReply: Option<seq<Bytes>>, cwdReply: Option<seq<Bytes>>)
    requires GetCwd(cwdReply) == Some("/tmp")
    ensures ViPath("./~x", userReply, cwdReply) == Open("/tmp/~x")
  {
    assert StartsWith("./~x", "./");
    assert "./~x"[2..] == "~x";
    TmpJoinsTildeX();
  }

  /** `~x` is relative, and joined below `/tmp` it gives `/tmp/~x`. */
  lemma TmpJoinsTildeX()
    ensures !StartsWith("~x", "/") && !EndsWith("/tmp", "/")
    ensures Slashed("/tmp") + "/" + Slashed("~x") == "/tmp/~x"
  {
    assert "~x"[..1] != "/" by {
      assert "~x"[..1][0] == '~';
    }
    assert "/tmp"[3..] != "/" by {
      assert "/tmp"[3..][0] == 'p';
    }
    assert Slashed("/tmp") == "/tmp";
    assert Slashed("~x") == "~x";
  }

  /** `vi ~/…` does not depend on the shell's cwd. */
  lemma ViHomeIgnoresCwd(path: string, userReply: Option<seq<Bytes>>, cwd1: Option<seq<Bytes>>, cwd2: Option<seq<Bytes>>)
    requires StartsWith(path, "~")
    ensures ViPath(path, userReply, cwd1) == ViPath(path, userReply, cwd2) == HomePath(path, userReply)
  {
    assert path[0] == '~';
    assert !StartsWith(path, "./") by {
      assert "./"[0] != path[0];
    }
  }

  // ---------------------------------------------------------------------------
  // Tab completion

  /** Every word starts with `p`. */
  predicate IsCommonPrefix(p: Bytes, words: seq<Bytes>) {
    forall i :: 0 <= i < |words| ==> StartsWith(words[i], p)
  }

  /** `min(len(word) for word in words)` */
  function MinLength(words: seq<Bytes>): (m: nat)
    requires words != []
    ensures forall i :: 0 <= i < |words| ==> m <= |words[i]|
    ensures exists i :: 0 <= i < |words| && m == |words[i]|
    decreases |words|
  {
    if |words| == 1 then |words[0]|
    else
      var m := MinLength(words[1..]);
      assert forall i :: 1 <= i < |words| ==> words[i] == words[1..][i - 1];
      if |words[0]| <= m then |words[0]| else m
  }

  /** The longest common prefix of two byte strings. */
  function PairPrefix(a: Bytes, b: Bytes): Bytes
    decreases |a|
  {
    if a == [] || b == [] || a[0] != b[0] then [] else [a[0]] + PairPrefix(a[1..], b[1..])
  }

  /** A prefix of both is exactly a prefix of their common prefix. */
  lemma {:induction false} PairPrefixCommon(a: Bytes, b: Bytes, q: Bytes)
    ensures StartsWith(a, q) && StartsWith(b, q) <==> StartsWith(PairPrefix(a, b), q)
    decreases |a|
  {
    if a == [] || b == [] || a[0] != b[0] {
    } else if q != [] {
      PairPrefixCommon(a[1..], b[1..], q[1..]);
      assert StartsWith(a, q) <==> q[0] == a[0] && StartsWith(a[1..], q[1..]);
      assert StartsWith(b, q) <==> q[0] == b[0] && StartsWith(b[1..], q[1..]);
      var p := PairPrefix(a, b);
      assert StartsWith(p, q) <==> q[0] == p[0] && StartsWith(p[1..], q[1..]);
    }
  }

  /** The longest common prefix of all words, folded pairwise; `b""` for no words. */
  function CommonPrefixOf(words: seq<Bytes>): Bytes
    decreases |words|
  {
    if words == [] then []
    else if |words| == 1 then words[0]
    else PairPrefix(CommonPrefixOf(words[..|words| - 1]), words[|words| - 1])
  }

  /** A common prefix of non-empty `words` is exactly a prefix of `CommonPrefixOf(words)`. */
  lemma {:induction false} CommonPrefixOfIsLongest(words: seq<Bytes>, q: Bytes)
    requires words != []
    ensures IsCommonPrefix(q, words) <==> StartsWith(CommonPrefixOf(words), q)
    decreases |words|
  {
    if |words| > 1 {
      var init := words[..|words| - 1];
      var last := words[|words| - 1];
      CommonPrefixOfIsLongest(init, q);
      PairPrefixCommon(CommonPrefixOf(init), last, q);
      assert IsCommonPrefix(q, words) <==> IsCommonPrefix(q, init) && StartsWith(last, q) by {
        assert forall i :: 0 <= i < |init| ==> init[i] == words[i];
      }
    }
  }

  /**
   * The scan of `_common_prefix` stops at a common prefix that is as long as
   * the shortest word or cannot take one more byte of the first word:
   * such a prefix is the longest common prefix.
   */
  lemma ScanStopIsLongest(words: seq<Bytes>, p: Bytes)
    requires words != [] && IsCommonPrefix(p, words)
    requires |p| == MinLength(words) || !IsCommonPrefix(words[0][..|p| + 1], words)
    ensures p == CommonPrefixOf(words)
  {
    var c := CommonPrefixOf(words);
    CommonPrefixOfIsLongest(words, c);
    CommonPrefixOfIsLongest(words, p);
    assert StartsWith(words[0], c) && StartsWith(words[0], p);
    if |p| < |c| {
      assert false;
    }
  }

  /**
   * `_common_prefix(words)`: extend the prefix one byte of the first word at
   * a time while every word still starts with it.
   */
  method CommonPrefix(words: seq<Bytes>) returns (prefix: Bytes)
    ensures prefix == CommonPrefixOf(words)
  {
    if words == [] {
      return [];
    }
    var minLength := MinLength(words);
    prefix := [];
    var i := 0;
    while i < minLength
      invariant i <= minLength && prefix == words[0][..i] && IsCommonPrefix(prefix, words)
    {
      var letter := words[0][i..i + 1];
      assert prefix + letter == words[0][..i + 1];
      if IsCommonPrefix(prefix + letter, words) {
        prefix := prefix + letter;
        i := i + 1;
      } else {
        break;
      }
    }
    ScanStopIsLongest(words, prefix);
  }

  /** The whitespace position of `s` before `end` that comes last, if any. */
  function LastSpace(s: string, end: nat): (r: Option<nat>)
    requires end <= |s|
    ensures r.Some? ==> r.value < end && IsSpace(s[r.value])
    ensures forall i :: (if r.Some? then r.value + 1 else 0) <= i < end ==> !IsSpace(s[i])
    decreases end
  {
    if end == 0 then None else if IsSpace(s[end - 1]) then Some(end - 1) else LastSpace(s, end - 1)
  }

  /**
   * `text.rsplit(maxsplit=1)`: nothing for blank text; otherwise the last
   * word, preceded by what comes before it (trailing whitespace removed)
   * unless that is blank.
   */
  function RSplitLast(text: string): (r: seq<string>)
    ensures |r| <= 2 && (r == [] <==> RStrip(text) == [])
    ensures r != [] ==> var w := r[|r| - 1];
      w != [] && EndsWith(RStrip(text), w) && (forall i :: 0 <= i < |w| ==> !IsSpace(w[i]))
    ensures |r| == 2 ==> r[0] != [] && !IsSpace(r[0][|r[0]| - 1]) && StartsWith(text, r[0])
  {
    var s := RStrip(text);
    if s == [] then []
    else
      match LastSpace(s, |s|)
      case None => [s]
      case Some(j) =>
        var left := RStrip(s[..j]);
        var word := s[j + 1..];
        RSplitPieces(text, s, j);
        if left == [] then [word] else [left, word]
  }

  /** The pieces `rsplit` cuts at the last space `j` of the stripped text `s`. */
  lemma RSplitPieces(text: string, s: string, j: nat)
    requires s == RStrip(text) && j < |s| && IsSpace(s[j])
    requires forall i :: j + 1 <= i < |s| ==> !IsSpace(s[i])
    ensures var word := s[j + 1..]; var left := RStrip(s[..j]);
      word != [] && EndsWith(s, word) && StartsWith(text, left)
  {
    var left := RStrip(s[..j]);
    var word := s[j + 1..];
    assert s[|s| - |word|..] == word;
    assert text[..|left|] == left by {
      assert s == text[..|s|];
    }
  }

  /**
   * The answer of `_process_tab_unix`: not handled for blank text; no
   * completion without a reply; otherwise what precedes the last word
   * (and one space) followed by the single reply, or by the longest common
   * prefix of several.
   */
  function TabCompletion(text: string, reply: Option<seq<Bytes>>): (r: (bool, Option<string>))
    ensures !r.0 <==> RStrip(text) == []
    ensures r.1.Some? <==> r.0 && reply.Some? && reply.value != []
  {
    var split := RSplitLast(text);
    if split == [] then (false, None)
    else if reply.None? || reply.value == [] then (true, None)
    else
      var before := if |split| == 1 then "" else split[0] + " ";
      var result := if |reply.value| == 1 then reply.value[0] else CommonPrefixOf(reply.value);
      (true, Some(before + DecodeBytes(result)))
  }

  /** The completion keeps the text before the last word, followed by one space. */
  lemma TabCompletionKeepsHead(text: string, reply: Option<seq<Bytes>>)
    requires |RSplitLast(text)| == 2 && TabCompletion(text, reply).1.Some?
    ensures var head := RSplitLast(text)[0];
      StartsWith(text, head) && StartsWith(TabCompletion(text, reply).1.value, head + " ")
  {
  }

  /** With several candidates, the completed word is one every candidate starts with, and the longest such. */
  lemma TabCompletionIsCommon(text: string, reply: seq<Bytes>, q: Bytes)
    requires RStrip(text) != [] && |reply| > 1
    ensures var split := RSplitLast(text); var before := if |split| == 1 then "" else split[0] + " ";
      exists c :: TabCompletion(text, Some(reply)).1 == Some(before + DecodeBytes(c)) &&
        (IsCommonPrefix(q, reply) <==> StartsWith(c, q))
  {
    CommonPrefixOfIsLongest(reply, q);
    var c := CommonPrefixOf(reply);
    assert TabCompletion(text, Some(reply)).1 == Some((if |RSplitLast(text)| == 1 then "" else RSplitLast(text)[0] + " ") + DecodeBytes(c));
  }

  /** `_process_tab_unix(text)` with the shell's reply to `compgen -f <word>`. */
  method ProcessTabUnix(text: string, reply: Option<seq<Bytes>>) returns (handled: bool, txt: Option<string>)
    ensures (handled, txt) == TabCompletion(text, reply)
  {
    var split := RSplitLast(text);
    if |split| == 0 {
      return false, None;
    }
    var prefix := if |split| == 1 then "" else split[0] + " ";
    if reply.None? || reply.value == [] {
      return true, None;
    }
    var result: Bytes;
    if |reply.value| == 1 {
      result := reply.value[0];
    } else {
      result := CommonPrefix(reply.value);
    }
    return true, Some(prefix + DecodeBytes(result));
  }
}
