/**
 * The REPL manager (repl_manager.py): the table of open REPL views, the
 * settings translation that substitutes `$variables` in a REPL's
 * configuration, and the fallback from the Paramiko SSH REPL to the plain
 * `ssh` command.
 */
module ReplManager {
  import opened Py
  import opened RunExistingCommand

  // ---------------------------------------------------------------------------
  // translate

  /** No object in `j` has the key `platform`. */
  predicate NoPlatformKey(j: Json, platform: string)
    decreases j
  {
    match j
    case JList(elems) => forall i :: 0 <= i < |elems| ==> NoPlatformKey(elems[i], platform)
    case JObj(members) =>
      (forall i :: 0 <= i < |members| ==> members[i].0 != platform) &&
      (forall i :: 0 <= i < |members| ==> NoPlatformKey(members[i].1, platform))
    case _ => true
  }

  /**
   * `translate(window, obj, subst)`: dictionaries, strings and lists are
   * translated, anything else comes back unchanged. `substitute` stands for
   * `Template(s).safe_substitute(**subst)` and `platform` for
   * `sublime.platform().lower()`.
   */
  function Translate(j: Json, substitute: string -> string, platform: string): (r: Json)
    ensures j.JStr? ==> r == JStr(substitute(j.s))
    ensures !j.JObj? && !j.JStr? && !j.JList? ==> r == j
    decreases j, 2
  {
    match j
    case JObj(members) => TranslateDict(j, substitute, platform)
    case JStr(s) => JStr(substitute(s))
    case JList(elems) => TranslateList(j, substitute, platform)
    case _ => j
  }

  /** `_translate_list`: the list of the translated elements, in order. */
  function TranslateList(j: Json, substitute: string -> string, platform: string): (r: Json)
    requires j.JList?
    ensures r.JList? && |r.elems| == |j.elems|
    ensures forall i :: 0 <= i < |j.elems| ==> r.elems[i] == Translate(j.elems[i], substitute, platform)
    decreases j, 1
  {
    JList(seq(|j.elems|, i requires 0 <= i < |j.elems| => Translate(j.elems[i], substitute, platform)))
  }

  /**
   * `_translate_dict`: a dictionary with an entry for the platform is
   * replaced by that entry, translated; otherwise every value is translated
   * under the same key, in the same order.
   */
  function TranslateDict(j: Json, substitute: string -> string, platform: string): (r: Json)
    requires j.JObj?
    ensures Get(j.members, platform).Some? ==> r == Translate(Get(j.members, platform).value, substitute, platform)
    ensures Get(j.members, platform).None? ==>
      r.JObj? && |r.members| == |j.members| &&
      (forall i :: 0 <= i < |j.members| ==>
        r.members[i].0 == j.members[i].0 && r.members[i].1 == Translate(j.members[i].1, substitute, platform))
    decreases j, 1
  {
    match MemberIndex(j.members, platform)
    case Some(k) =>
      assert j.members[k] in j.members;
      Translate(j.members[k].1, substitute, platform)
    case None =>
      JObj(seq(|j.members|, i requires 0 <= i < |j.members| =>
        assert j.members[i] in j.members;
        (j.members[i].0, Translate(j.members[i].1, substitute, platform))))
  }

  /** With a substitution that changes nothing and no platform entries, translation is the identity. */
  lemma {:induction false} TranslateIdentity(j: Json, substitute: string -> string, platform: string)
    requires forall s :: substitute(s) == s
    requires NoPlatformKey(j, platform)
    ensures Translate(j, substitute, platform) == j
    decreases j
  {
    match j
    case JList(elems) =>
      forall i | 0 <= i < |elems|
        ensures Translate(elems[i], substitute, platform) == elems[i]
      {
        TranslateIdentity(elems[i], substitute, platform);
      }
      assert TranslateList(j, substitute, platform).elems == elems;
    case JObj(members) =>
      forall i | 0 <= i < |members|
        ensures Translate(members[i].1, substitute, platform) == members[i].1
      {
        assert members[i] in members;
        TranslateIdentity(members[i].1, substitute, platform);
      }
      assert Get(members, platform).None?;
      assert TranslateDict(j, substitute, platform).members == members;
    case _ =>
  }

  // ---------------------------------------------------------------------------
  // _check_paramiko

  /** `s.upper()` on ASCII letters: no lower-case letter is left, and every other character stays. */
  function Upper(s: string): (r: string)
    ensures |r| == |s|
    ensures forall i :: 0 <= i < |s| ==> !('a' <= r[i] <= 'z')
    ensures forall i :: 0 <= i < |s| && !('a' <= s[i] <= 'z') ==> r[i] == s[i]
  {
    seq(|s|, i requires 0 <= i < |s| => if 'a' <= s[i] <= 'z' then (s[i] as int - 32) as char else s[i])
  }

  const ParamikoType: string := "SSH_PARAMIKO"

  /**
   * The type test of `_check_paramiko`: `type.upper() == 'SSH_PARAMIKO'`
   * holds exactly for the twelve-character names that spell it with each
   * letter in either case.
   */
  lemma ParamikoTypeAnyCase(typ: string)
    ensures Upper(typ) == ParamikoType <==>
      |typ| == |ParamikoType| &&
      forall i :: 0 <= i < |typ| ==>
        typ[i] == ParamikoType[i] || ('A' <= ParamikoType[i] <= 'Z' && typ[i] as int == ParamikoType[i] as int + 32)
  {
    ParamikoTypeIsUpper();
  }

  /** The type name is already upper-case. */
  lemma ParamikoTypeIsUpper()
    ensures forall i :: 0 <= i < |ParamikoType| ==> !('a' <= ParamikoType[i] <= 'z')
  {
  }

  /** `ssh_paramiko` and `Ssh_Paramiko` both name the Paramiko REPL; `ssh` does not. */
  lemma ParamikoTypeExamples()
    ensures Upper("ssh_paramiko") == ParamikoType && Upper("Ssh_Paramiko") == ParamikoType
    ensures Upper("ssh") != ParamikoType
  {
    ParamikoTypeAnyCase("ssh_paramiko");
    ParamikoTypeAnyCase("Ssh_Paramiko");
  }

  /** `str(v)` as an f-string renders a JSON-loaded scalar. */
  function Formatted(v: Json): string {
    match v
    case JStr(s) => s
    case JNum(n) => if n < 0 then "-" + DecimalString(-n) else DecimalString(n)
    case JBool(b) => if b then "True" else "False"
    case JNull => "None"
    case _ => ""
  }

  /** The command line of the `ssh` fallback: `["ssh", "-tt", "-i", key, f"{user}@{ip}"]`. */
  function SshCommand(user: Json, ip: Json, key: Json): Json {
    JList([JStr("ssh"), JStr("-tt"), JStr("-i"), key, JStr(Formatted(user) + "@" + Formatted(ip))])
  }

  /**
   * `_check_paramiko(type, kwds)`: any type but `ssh_paramiko` (in any case)
   * and a usable Paramiko leave both unchanged; otherwise the REPL becomes
   * `ssh`, `user`, `ip` and `key` are popped (KeyError when one is missing)
   * and `cmd` is the ssh command line built from them.
   * `paramikoUsable` is the `use_paramiko` setting and `CAN_USE_PARAMIKO`.
   */
  function CheckParamiko(typ: string, kwds: map<string, Json>, paramikoUsable: bool): (r: Result<(string, map<string, Json>)>)
    ensures Upper(typ) != ParamikoType || paramikoUsable ==> r == Ok((typ, kwds))
    ensures Upper(typ) == ParamikoType && !paramikoUsable ==>
      (r.Raise? <==> !("user" in kwds && "ip" in kwds && "key" in kwds)) &&
      (r.Raise? ==> r.error == KeyError)
    ensures Upper(typ) == ParamikoType && !paramikoUsable && r.Ok? ==>
      r.value.0 == "ssh" &&
      r.value.1.Keys == kwds.Keys - {"user", "ip", "key"} + {"cmd"} &&
      r.value.1["cmd"] == SshCommand(kwds["user"], kwds["ip"], kwds["key"]) &&
      (forall k :: k in kwds && k !in {"user", "ip", "key", "cmd"} ==> r.value.1[k] == kwds[k])
  {
    if Upper(typ) != ParamikoType || paramikoUsable then Ok((typ, kwds))
    else if "user" !in kwds then Raise(KeyError)
    else
      var user := kwds["user"];
      var k1 := kwds - {"user"};
      if "ip" !in k1 then Raise(KeyError)
      else
        var ip := k1["ip"];
        var k2 := k1 - {"ip"};
        if "key" !in k2 then Raise(KeyError)
        else
          var key := k2["key"];
          var k3 := k2 - {"key"};
          Ok(("ssh", k3["cmd" := SshCommand(user, ip, key)]))
  }

  // ---------------------------------------------------------------------------
  // The table of REPL views

  /** What the manager looks at in a `ReplView`: its REPL's id, external id, liveness and extra scopes. */
  datatype ViewEntry = ViewEntry(replId: string, externalId: string, alive: bool, additionalScopes: seq<string>)

  /** `find_repl`'s test: a live REPL whose external id is `externalId` or lists it among its extra scopes. */
  predicate Serves(rv: ViewEntry, externalId: string) {
    rv.alive && (rv.externalId == externalId || externalId in rv.additionalScopes)
  }

  /** The views in `order` that serve `externalId`, in that order. */
  function Serving(order: seq<string>, views: map<string, ViewEntry>, externalId: string): (r: seq<ViewEntry>)
    requires forall i :: 0 <= i < |order| ==> order[i] in views
    ensures |r| <= |order|
    decreases |order|
  {
    if order == [] then []
    else
      var last := views[order[|order| - 1]];
      Serving(order[..|order| - 1], views, externalId) + (if Serves(last, externalId) then [last] else [])
  }

  /** A view is served exactly when it is registered and serves the external id. */
  lemma {:induction false} ServingExactly(order: seq<string>, views: map<string, ViewEntry>, externalId: string, rv: ViewEntry)
    requires forall i :: 0 <= i < |order| ==> order[i] in views
    ensures rv in Serving(order, views, externalId) <==>
      (exists i :: 0 <= i < |order| && views[order[i]] == rv) && Serves(rv, externalId)
    decreases |order|
  {
    if order != [] {
      var init := order[..|order| - 1];
      ServingExactly(init, views, externalId, rv);
      assert forall i :: 0 <= i < |init| ==> init[i] == order[i];
      if exists i :: 0 <= i < |order| && views[order[i]] == rv {
        var i :| 0 <= i < |order| && views[order[i]] == rv;
        if i < |init| {
          assert views[init[i]] == rv;
        }
      }
    }
  }

  /** Taking the `i`-th of distinct ids out keeps the others distinct and drops only that id. */
  lemma RemovedFromOrder(order: seq<string>, i: nat)
    requires i < |order|
    requires forall a, b :: 0 <= a < b < |order| ==> order[a] != order[b]
    ensures var rest := order[..i] + order[i + 1..];
      (forall a, b :: 0 <= a < b < |rest| ==> rest[a] != rest[b]) &&
      (forall id :: id in rest <==> id in order && id != order[i])
  {
    var rest := order[..i] + order[i + 1..];
    assert forall a :: 0 <= a < |rest| ==> rest[a] == if a < i then order[a] else order[a + 1];
    forall id | id in order && id != order[i]
      ensures id in rest
    {
      var k :| 0 <= k < |order| && order[k] == id;
      if k < i {
        assert rest[k] == id;
      } else {
        assert rest[k - 1] == id;
      }
    }
  }

  /** `ReplManager`: `repl_views`, a dictionary from REPL id to view, kept in insertion order. */
  class Manager {
    /** the keys of `repl_views` in insertion order */
    var order: seq<string>
    var views: map<string, ViewEntry>

    ghost predicate Valid()
      reads this
    {
      (forall i :: 0 <= i < |order| ==> order[i] in views) &&
      (forall id :: id in views ==> id in order) &&
      (forall i, j :: 0 <= i < j < |order| ==> order[i] != order[j])
    }

    constructor ()
      ensures order == [] && views == map[] && Valid()
    {
      order := [];
      views := map[];
    }

    /** `self.repl_views[r.id] = rv` in `open`: a new id goes last, a known one keeps its place. */
    method Register(rv: ViewEntry)
      requires Valid()
      modifies this
      ensures Valid() && views == old(views)[rv.replId := rv]
      ensures order == if rv.replId in old(views) then old(order) else old(order) + [rv.replId]
    {
      if rv.replId !in views {
        order := order + [rv.replId];
      }
      views := views[rv.replId := rv];
    }

    /** `repl_view(view)`: the view registered under the view's `repl_id` setting, `None` for an unknown id. */
    function ReplView(replId: Option<string>): (r: Option<ViewEntry>)
      reads this
      ensures r.None? <==> replId.None? || replId.value !in views
      ensures r.Some? ==> r.value == views[replId.value]
    {
      if replId.None? || replId.value !in views then None else Some(views[replId.value])
    }

    /** `_delete_repl(repl_view)`: forget that REPL's id, if it is known; nothing else changes. */
    method DeleteRepl(replId: string)
      requires Valid()
      modifies this
      ensures Valid()
      ensures views == old(views) - {replId}
      ensures replId !in old(views) ==> order == old(order)
      ensures forall id :: id in order <==> id in old(order) && id != replId
    {
      if replId !in views {
        return;
      }
      var i := IndexOf(order, replId);
      RemovedFromOrder(order, i);
      order := order[..i] + order[i + 1..];
      views := views - {replId};
    }

    /** `find_repl(external_id)`: the live views serving `externalId`, in insertion order. */
    method FindRepl(externalId: string) returns (found: seq<ViewEntry>)
      requires Valid()
      ensures found == Serving(order, views, externalId)
    {
      found := [];
      for k := 0 to |order|
        invariant found == Serving(order[..k], views, externalId)
      {
        assert order[..k + 1][..k] == order[..k];
        var rv := views[order[k]];
        if !rv.alive {
          continue;
        }
        if rv.externalId == externalId || externalId in rv.additionalScopes {
          found := found + [rv];
        }
      }
      assert order[..|order|] == order;
    }
  }
}
