/**
 * Running a command described in a JSON menu file (run_existing_command.py):
 * find the entry with a given `id` in the user's copy of the file, else in
 * the package's, and run its `command` with its `args`. Reading and parsing
 * the files is I/O; each file arrives here already read.
 */
module RunExistingCommand {
  import opened Py

  /** A JSON value; an object keeps its members in the order written. */
  datatype Json =
    | JNull
    | JBool(b: bool)
    | JNum(n: int)
    | JStr(s: string)
    | JList(elems: seq<Json>)
    | JObj(members: seq<(string, Json)>)

  /** The index of the member that `json.loads` keeps for `key`: the last one written. */
  function MemberIndex(members: seq<(string, Json)>, key: string): (r: Option<nat>)
    ensures r.Some? ==> r.value < |members| && members[r.value].0 == key
    ensures r.None? <==> forall i :: 0 <= i < |members| ==> members[i].0 != key
    ensures r.Some? ==> forall i :: r.value < i < |members| ==> members[i].0 != key
    decreases |members|
  {
    if members == [] then None
    else if members[|members| - 1].0 == key then Some(|members| - 1)
    else MemberIndex(members[..|members| - 1], key)
  }

  /** `obj[key]` of a parsed object, `None` when `key not in obj`. */
  function Get(members: seq<(string, Json)>, key: string): Option<Json> {
    match MemberIndex(members, key)
    case None => None
    case Some(i) => Some(members[i].1)
  }

  /** An object whose `"id"` is `id`. */
  predicate HasId(j: Json, id: string) {
    j.JObj? && Get(j.members, "id") == Some(JStr(id))
  }

  /**
   * An object with the id can be reached from `j`: `j` is one, or one is
   * reachable from an element of the list `j`, or from the `"children"` of
   * the object `j`.
   */
  predicate Holds(id: string, j: Json)
    decreases j
  {
    match j
    case JList(elems) => exists k :: 0 <= k < |elems| && Holds(id, elems[k])
    case JObj(members) =>
      HasId(j, id) ||
      (match MemberIndex(members, "children")
       case None => false
       case Some(k) =>
         assert members[k] in members;
         Holds(id, members[k].1))
    case _ => false
  }

  /**
   * `_find_cmd_in_json(id, json_object)`: a list is searched element by
   * element and the first hit wins; an object with the id is the answer
   * itself, any other object is searched only through its `"children"`;
   * anything else holds nothing.
   */
  function FindCmdInJson(id: string, j: Json): (r: Option<Json>)
    ensures r.Some? ==> HasId(r.value, id)
    ensures HasId(j, id) ==> r == Some(j)
    ensures !j.JList? && !j.JObj? ==> r == None
    ensures r.Some? <==> Holds(id, j)
    decreases j, 1, 0
  {
    match j
    case JList(elems) => FindInList(id, j, 0)
    case JObj(members) =>
      if Get(members, "id") == Some(JStr(id)) then Some(j)
      else
        (match MemberIndex(members, "children")
         case None => None
         case Some(k) =>
           assert members[k] in members;
           FindCmdInJson(id, members[k].1))
    case _ => None
  }

  /** The `for elem in json_object` loop of `_find_cmd_in_json` from element `i` on. */
  function FindInList(id: string, j: Json, i: nat): (r: Option<Json>)
    requires j.JList? && i <= |j.elems|
    ensures r.Some? ==> HasId(r.value, id)
    ensures r.Some? ==> exists k :: (i <= k < |j.elems| && FindCmdInJson(id, j.elems[k]) == r &&
      (forall l :: i <= l < k ==> FindCmdInJson(id, j.elems[l]).None?))
    ensures r.None? ==> forall l :: i <= l < |j.elems| ==> FindCmdInJson(id, j.elems[l]).None?
    decreases j, 0, |j.elems| - i
  {
    if i == |j.elems| then None
    else
      var cmd := FindCmdInJson(id, j.elems[i]);
      if cmd.Some? then cmd else FindInList(id, j, i + 1)
  }

  /** A list is searched in element order: the answer is the first element's answer that is not `None`. */
  lemma ListFirstHitWins(id: string, elems: seq<Json>, k: nat)
    requires k < |elems| && FindCmdInJson(id, elems[k]).Some?
    requires forall l :: 0 <= l < k ==> FindCmdInJson(id, elems[l]).None?
    ensures FindCmdInJson(id, JList(elems)) == FindCmdInJson(id, elems[k])
  {
    var j := JList(elems);
    var r := FindInList(id, j, 0);
    if r.Some? {
      var k' :| 0 <= k' < |elems| && FindCmdInJson(id, elems[k']) == r &&
        (forall l :: 0 <= l < k' ==> FindCmdInJson(id, elems[l]).None?);
    }
  }

  /** A command file as `_find_cmd_in_file` reads it. */
  datatype CommandFile =
    | Unreadable          // IOError or ValueError while reading: no command here
    | Malformed           // `json.loads` fails after the read, outside the `try`
    | Parsed(data: Json)

  /** `_find_cmd_in_file(id, file)` */
  function FindCmdInFile(id: string, f: CommandFile): (r: Result<Option<Json>>)
    ensures r.Raise? <==> f == Malformed
    ensures r.Ok? && r.value.Some? ==> HasId(r.value.value, id)
  {
    match f
    case Unreadable => Ok(None)
    case Malformed => Raise(ValueError)
    case Parsed(data) => Ok(FindCmdInJson(id, data))
  }

  /** A command to run: its name and its arguments (`None` when the entry has no `"args"`). */
  datatype Invocation = Invocation(command: Json, args: Option<Json>)

  /** The loop over `(SUBLIMEREPL_USER_DIR, SUBLIMEREPL_DIR)`: the user's file first, the package's only on a miss. */
  function FoundCmd(id: string, user: CommandFile, package: CommandFile): (r: Result<Option<Json>>)
    ensures FindCmdInFile(id, user) != Ok(None) ==> r == FindCmdInFile(id, user)
    ensures FindCmdInFile(id, user) == Ok(None) ==> r == FindCmdInFile(id, package)
  {
    var first := FindCmdInFile(id, user);
    if first.Ok? && first.value.None? then FindCmdInFile(id, package) else first
  }

  /**
   * `RunExistingWindowCommandCommand.run(id, file)`: nothing runs when
   * neither file has the entry; otherwise the entry's `"command"` runs with
   * its `"args"` (KeyError without a `"command"`).
   */
  function RunExisting(id: string, user: CommandFile, package: CommandFile): (r: Result<Option<Invocation>>)
    ensures r == Ok(None) <==> FoundCmd(id, user, package) == Ok(None)
    ensures r.Ok? && r.value.Some? ==> exists c :: (FoundCmd(id, user, package) == Ok(Some(c)) &&
      HasId(c, id) && Get(c.members, "command") == Some(r.value.value.command) &&
      r.value.value.args == Get(c.members, "args"))
  {
    match FoundCmd(id, user, package)
    case Raise(e) => Raise(e)
    case Ok(None) => Ok(None)
    case Ok(Some(cmd)) =>
      match Get(cmd.members, "command")
      case None => Raise(KeyError)
      case Some(name) => Ok(Some(Invocation(name, Get(cmd.members, "args"))))
  }

  /** An entry in the user's file shadows the package's file entirely. */
  lemma UserFileFirst(id: string, user: CommandFile, p1: CommandFile, p2: CommandFile)
    requires FindCmdInFile(id, user).Ok? && FindCmdInFile(id, user).value.Some?
    ensures RunExisting(id, user, p1) == RunExisting(id, user, p2)
  {
  }
}
