/**
 * Configuration read by the component protocol: the list of extra hostnames
 * to bind after authentication, and the outbound connections scheduled for
 * the repository's components.
 */
module Config {
  import opened Wrappers
  import opened Sessions

  /** The text between commas, every field kept (empty ones included). */
  function Fields(s: string): (r: seq<string>)
    ensures |r| >= 1
    decreases |s|
  {
    if s == [] then [""]
    else if s[0] == ',' then [""] + Fields(s[1..])
    else
      var r := Fields(s[1..]);
      [[s[0]] + r[0]] + r[1..]
  }

  /** The fields written back with a comma between each two. */
  function Join(xs: seq<string>): (r: string)
    decreases |xs|
  {
    if |xs| == 0 then ""
    else if |xs| == 1 then xs[0]
    else xs[0] + "," + Join(xs[1..])
  }

  /** Splitting at commas loses nothing: joining the fields gives the text back. */
  lemma {:induction false} FieldsJoin(s: string)
    ensures Join(Fields(s)) == s
    ensures forall i :: 0 <= i < |Fields(s)| ==> ',' !in Fields(s)[i]
    decreases |s|
  {
    if s != [] {
      var r := Fields(s[1..]);
      FieldsJoin(s[1..]);
      assert s == [s[0]] + s[1..];
      if s[0] == ',' {
        assert Fields(s)[1..] == r;
      } else {
        var f := Fields(s);
        assert f[0] == [s[0]] + r[0] && f[1..] == r[1..];
        if |r| > 1 {
          assert Join(r) == r[0] + "," + Join(r[1..]);
        }
        forall i | 0 <= i < |f| ensures ',' !in f[i] {
          if i > 0 {
            assert f[i] == r[i];
          }
        }
      }
    }
  }

  /** The list with its trailing empty strings removed. */
  function DropTrailingEmpty(xs: seq<string>): (r: seq<string>)
    decreases |xs|
  {
    if xs != [] && xs[|xs| - 1] == "" then DropTrailingEmpty(xs[..|xs| - 1]) else xs
  }

  /**
   * What is dropped is a run of empty strings at the end, and what is kept
   * is empty or ends with a non-empty string.
   */
  lemma {:induction false} DropTrailingEmptyShape(xs: seq<string>)
    ensures DropTrailingEmpty(xs) <= xs
    ensures forall i :: |DropTrailingEmpty(xs)| <= i < |xs| ==> xs[i] == ""
    ensures DropTrailingEmpty(xs) == [] || DropTrailingEmpty(xs)[|DropTrailingEmpty(xs)| - 1] != ""
    decreases |xs|
  {
    if xs != [] && xs[|xs| - 1] == "" {
      DropTrailingEmptyShape(xs[..|xs| - 1]);
    }
  }

  /**
   * Java's `String.split(",")`: the text itself when it holds no comma,
   * otherwise its fields with the trailing empty ones removed.
   */
  function JavaSplit(s: string): (r: seq<string>)
    ensures ',' !in s ==> r == [s]
    ensures forall i :: 0 <= i < |r| ==> ',' !in r[i]
    ensures r <= Fields(s)
    ensures ',' in s ==> forall i :: |r| <= i < |Fields(s)| ==> Fields(s)[i] == ""
    ensures ',' in s ==> r == [] || r[|r| - 1] != ""
  {
    FieldsJoin(s);
    DropTrailingEmptyShape(Fields(s));
    if ',' !in s then [s] else DropTrailingEmpty(Fields(s))
  }

  /** The bind-hostnames default: the parameter split at its commas, or `[""]` when it is absent. */
  function BindHostnamesDefault(param: Option<string>): (r: seq<string>)
    ensures param.None? ==> r == [""]
    ensures param.Some? ==> r <= Fields(param.value) && forall i :: 0 <= i < |r| ==> ',' !in r[i]
    ensures param.Some? && ',' !in param.value ==> r == [param.value]
  {
    match param
    case None => [""]
    case Some(s) => JavaSplit(s)
  }

  /** `hostnamesToBind` as `setProperties` derives it: null for exactly `[""]`. */
  function HostnamesToBind(configured: seq<string>): (r: Option<seq<string>>) {
    if |configured| == 1 && configured[0] == "" then None else Some(configured)
  }

  /** No extra hostname is bound iff the parameter is absent or empty. */
  lemma NoExtraHostnamesIff(param: Option<string>)
    ensures HostnamesToBind(BindHostnamesDefault(param)).None? <==> param.None? || param.value == ""
  {
  }

  /** A lone comma splits into an empty, non-null list of hostnames. */
  lemma LoneCommaBindsEmptyList()
    ensures HostnamesToBind(BindHostnamesDefault(Some(","))) == Some([])
  {
    assert ',' in ",";
    assert ","[1..] == "";
    assert Fields(",") == ["", ""];
    assert ["", ""][..1] == [""];
    assert [""][..0] == [];
  }

  /** The port properties of the outbound connection scheduled for a repository item. */
  datatype PortProps = PortProps(
    port: int,
    localHost: Option<string>,
    remoteHost: Option<string>,
    connectionType: ConnectionType,
    repoItem: CompRepoItem)

  function PortPropsOf(item: CompRepoItem): (r: PortProps) {
    PortProps(item.port, item.domain, item.remoteHost, item.connectionType, item)
  }

  /**
   * A task handed to the connection manager's `addWaitingTask`: open the
   * connection of a repository item, or reconnect a stopped outbound session.
   */
  datatype WaitingTask = ConnectTask(props: PortProps) | ReconnectTask(sessionData: SessionData)

  /** The tasks queued for the repository's items with a positive port, in order. */
  function ConnectTasks(items: seq<CompRepoItem>): (r: seq<WaitingTask>)
    decreases |items|
  {
    if items == [] then []
    else
      var item := items[|items| - 1];
      ConnectTasks(items[..|items| - 1]) + (if item.port > 0 then [ConnectTask(PortPropsOf(item))] else [])
  }

  /** One task per item with a positive port. */
  lemma {:induction false} ConnectTasksCount(items: seq<CompRepoItem>)
    ensures |ConnectTasks(items)| == |set i | 0 <= i < |items| && items[i].port > 0|
    decreases |items|
  {
    if items != [] {
      var n := |items| - 1;
      var items0 := items[..n];
      ConnectTasksCount(items0);
      var s0 := set i | 0 <= i < n && items0[i].port > 0;
      var s := set i | 0 <= i < |items| && items[i].port > 0;
      assert forall i :: 0 <= i < n ==> items0[i] == items[i];
      if items[n].port > 0 {
        assert s == s0 + {n};
      } else {
        assert s == s0;
      }
    }
  }

  /** A task is queued exactly for the items with a positive port. */
  lemma {:induction false} ConnectTasksMembership(items: seq<CompRepoItem>, t: WaitingTask)
    ensures t in ConnectTasks(items) <==> exists i :: 0 <= i < |items| && items[i].port > 0 && t == ConnectTask(PortPropsOf(items[i]))
    decreases |items|
  {
    if items != [] {
      var n := |items| - 1;
      var items0 := items[..n];
      ConnectTasksMembership(items0, t);
      if t in ConnectTasks(items0) {
        var i :| 0 <= i < n && items0[i].port > 0 && t == ConnectTask(PortPropsOf(items0[i]));
        assert items[i] == items0[i];
      }
      if exists i :: 0 <= i < |items| && items[i].port > 0 && t == ConnectTask(PortPropsOf(items[i])) {
        var i :| 0 <= i < |items| && items[i].port > 0 && t == ConnectTask(PortPropsOf(items[i]));
        if i < n {
          assert items0[i] == items[i];
        }
      }
    }
  }
}
