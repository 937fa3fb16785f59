/**
 * The deterministic parts of `chainlit_app.py`: the text rendering of a
 * project's file tree, the values carried by navigation actions and their
 * parsing in the callbacks, the action lists of the two navigation screens,
 * and the loop that polls a job until it ends.
 */
module Frontend {

  import opened Common
  import opened Strings
  import opened JsonValue

  // ---------------------------------------------------------------------------
  // format_file_tree

  /**
   * A node of the tree `get_file_tree` builds. An empty `name` stands for a
   * missing or empty name (both falsy); an empty `kind` for a missing `type`.
   */
  datatype Node = Node(name: string, kind: string, children: seq<Node>)

  const FolderIcon := "\U{1F4C1}"
  const FileIcon := "\U{1F4C4}"

  function Icon(kind: string): string
  {
    if kind == "directory" then FolderIcon else FileIcon
  }

  /** The node's own line. */
  function Line(n: Node, prefix: string): string
  {
    prefix + Icon(n.kind) + " " + n.name + "\n"
  }

  /** The text `format_file_tree(node, prefix)` returns. */
  function Render(n: Node, prefix: string): string
    decreases n, 1
  {
    if n.name == "" then "" else Line(n, prefix) + RenderAll(n.children, prefix + "  ")
  }

  /** The children's renderings, in order. */
  function RenderAll(cs: seq<Node>, prefix: string): string
    decreases cs, 0
  {
    if |cs| == 0 then "" else Render(cs[0], prefix) + RenderAll(cs[1..], prefix)
  }

  lemma {:induction false} RenderAllAppend(cs: seq<Node>, c: Node, prefix: string)
    ensures RenderAll(cs + [c], prefix) == RenderAll(cs, prefix) + Render(c, prefix)
  {
    if |cs| == 0 {
      assert ([] + [c])[1..] == [];
      assert [] + [c] == [c];
    } else {
      assert (cs + [c])[0] == cs[0];
      assert (cs + [c])[1..] == cs[1..] + [c];
      RenderAllAppend(cs[1..], c, prefix);
    }
  }

  /** `format_file_tree` on a present node: its line, then a loop over the children. */
  method FormatNode(n: Node, prefix: string) returns (result: string)
    ensures result == Render(n, prefix)
    decreases n
  {
    if n.name == "" {
      return "";
    }
    result := Line(n, prefix);
    var i := 0;
    while i < |n.children|
      invariant 0 <= i <= |n.children|
      invariant result == Line(n, prefix) + RenderAll(n.children[..i], prefix + "  ")
    {
      var child := n.children[i];
      var text := FormatNode(child, prefix + "  ");
      RenderAllAppend(n.children[..i], child, prefix + "  ");
      assert n.children[..i + 1] == n.children[..i] + [child];
      result := result + text;
      i := i + 1;
    }
    assert n.children[..i] == n.children;
  }

  /** `format_file_tree(node)`: a null node renders as the empty string. */
  method FormatFileTree(node: Option<Node>) returns (result: string)
    ensures node.None? ==> result == ""
    ensures node.Some? ==> result == Render(node.value, "")
  {
    if node.None? {
      return "";
    }
    result := FormatNode(node.value, "");
  }

  /** The number of `c` in `s`. */
  function Count(s: string, c: char): nat
  {
    if |s| == 0 then 0 else (if s[0] == c then 1 else 0) + Count(s[1..], c)
  }

  lemma {:induction false} CountAppend(a: string, b: string, c: char)
    ensures Count(a + b, c) == Count(a, c) + Count(b, c)
  {
    if |a| == 0 {
      assert a + b == b;
    } else {
      assert (a + b)[0] == a[0];
      assert (a + b)[1..] == a[1..] + b;
      CountAppend(a[1..], b, c);
    }
  }

  lemma {:induction false} CountAbsent(s: string, c: char)
    requires c !in s
    ensures Count(s, c) == 0
  {
    if |s| > 0 {
      assert s[0] != c;
      assert forall x :: x in s[1..] ==> x in s;
      CountAbsent(s[1..], c);
    }
  }

  /** The nodes that get a line: named nodes all of whose ancestors are named. */
  function Shown(n: Node): nat
    decreases n, 1
  {
    if n.name == "" then 0 else 1 + ShownAll(n.children)
  }

  function ShownAll(cs: seq<Node>): nat
    decreases cs, 0
  {
    if |cs| == 0 then 0 else Shown(cs[0]) + ShownAll(cs[1..])
  }

  /** No name in the tree contains a line break. */
  predicate FlatNames(n: Node)
    decreases n, 1
  {
    '\n' !in n.name && FlatNamesAll(n.children)
  }

  predicate FlatNamesAll(cs: seq<Node>)
    decreases cs, 0
  {
    |cs| == 0 || (FlatNames(cs[0]) && FlatNamesAll(cs[1..]))
  }

  /** The output has one line per shown node. */
  lemma {:induction false} RenderLineCount(n: Node, prefix: string)
    requires FlatNames(n) && '\n' !in prefix
    ensures Count(Render(n, prefix), '\n') == Shown(n)
    decreases n, 1
  {
    if n.name != "" {
      var head := prefix + Icon(n.kind) + " " + n.name;
      assert '\n' !in Icon(n.kind);
      assert forall x :: x in head ==> x in prefix || x in Icon(n.kind) || x == ' ' || x in n.name;
      CountAbsent(head, '\n');
      CountAppend(head, "\n", '\n');
      assert Line(n, prefix) == head + "\n";
      RenderAllLineCount(n.children, prefix + "  ");
      CountAppend(Line(n, prefix), RenderAll(n.children, prefix + "  "), '\n');
    }
  }

  lemma {:induction false} RenderAllLineCount(cs: seq<Node>, prefix: string)
    requires FlatNamesAll(cs) && '\n' !in prefix
    ensures Count(RenderAll(cs, prefix), '\n') == ShownAll(cs)
    decreases cs, 0
  {
    if |cs| > 0 {
      RenderLineCount(cs[0], prefix);
      RenderAllLineCount(cs[1..], prefix);
      CountAppend(Render(cs[0], prefix), RenderAll(cs[1..], prefix), '\n');
    }
  }

  /** A shown node's output starts with its own line; a nameless node prints nothing, children included. */
  lemma RenderShape(n: Node, prefix: string)
    ensures n.name == "" ==> Render(n, prefix) == ""
    ensures n.name != "" ==>
      var line := Line(n, prefix);
      |line| <= |Render(n, prefix)| && Render(n, prefix)[..|line|] == line
  {
    if n.name != "" {
      var line := Line(n, prefix);
      assert Render(n, prefix)[..|line|] == line;
    }
  }

  // ---------------------------------------------------------------------------
  // Action values

  /** `action.value.split(":", 1)[1]`, or `None` where Python raises IndexError. */
  function AfterFirstColon(value: string): (r: Option<string>)
  {
    var parts := SplitMax(value, ":", 1);
    if |parts| < 2 then None else Some(parts[1])
  }

  /** `action.value.split(":", 2)` read as `(parts[1], parts[2])`. */
  function ThreadSelection(value: string): (r: Option<(string, string)>)
  {
    var parts := SplitMax(value, ":", 2);
    if |parts| < 3 then None else Some((parts[1], parts[2]))
  }

  /** A tag without a colon, followed by a colon: the split happens right after the tag. */
  lemma SplitAfterTag(tag: string, rest: string)
    requires ':' !in tag
    ensures Find(tag + ":" + rest, ":") == Some(|tag|)
    ensures (tag + ":" + rest)[..|tag|] == tag && (tag + ":" + rest)[|tag| + 1..] == rest
  {
    var s := tag + ":" + rest;
    assert s[|tag|..|tag| + 1] == ":";
    forall j | 0 <= j < |tag| ensures !OccursAt(s, ":", j) {
      assert s[j..j + 1] == [tag[j]];
      assert tag[j] in tag;
    }
    FindFirst(s, ":", |tag|);
    assert s[..|tag|] == tag;
    assert s[|tag| + 1..] == rest;
  }

  /** `f"{tag}:{p}"` parses back to `p` for every `p`, colons included. */
  lemma TaggedRoundTrip(tag: string, p: string)
    requires ':' !in tag
    ensures AfterFirstColon(tag + ":" + p) == Some(p)
  {
    SplitAfterTag(tag, p);
  }

  function SelectProjectValue(p: string): string { "select:" + p }
  function CreateThreadValue(p: string): string { "create_thread:" + p }
  function ViewFilesValue(p: string): string { "view_files:" + p }
  function SelectThreadValue(p: string, t: string): string { "select_thread:" + p + ":" + t }

  /** The project-carrying action values decode to exactly their project. */
  lemma ProjectValuesRoundTrip(p: string)
    ensures AfterFirstColon(SelectProjectValue(p)) == Some(p)
    ensures AfterFirstColon(CreateThreadValue(p)) == Some(p)
    ensures AfterFirstColon(ViewFilesValue(p)) == Some(p)
  {
    TaggedRoundTrip("select", p);
    assert SelectProjectValue(p) == "select" + ":" + p;
    TaggedRoundTrip("create_thread", p);
    assert CreateThreadValue(p) == "create_thread" + ":" + p;
    TaggedRoundTrip("view_files", p);
    assert ViewFilesValue(p) == "view_files" + ":" + p;
  }

  /** `select_thread:{p}:{t}` decodes to `(p, t)` exactly when `p` has no colon. */
  lemma ThreadValueRoundTrip(p: string, t: string)
    ensures ThreadSelection(SelectThreadValue(p, t)) == Some((p, t)) <==> ':' !in p
  {
    var v := SelectThreadValue(p, t);
    var tag := "select_thread";
    assert v == tag + ":" + (p + ":" + t);
    SplitAfterTag(tag, p + ":" + t);
    var rest := p + ":" + t;
    assert v[|tag| + 1..] == rest;
    if ':' !in p {
      SplitAfterTag(p, t);
      assert SplitMax(v, ":", 2) == [tag] + SplitMax(rest, ":", 1);
      assert SplitMax(rest, ":", 1) == [p, t];
    } else {
      var k :| 0 <= k < |p| && p[k] == ':';
      assert rest[k..k + 1] == ":";
      assert OccursAt(rest, ":", k);
      var f := Find(rest, ":");
      assert f.Some? && f.value <= k;
      assert SplitMax(v, ":", 2) == [tag] + SplitMax(rest, ":", 1);
      assert SplitMax(rest, ":", 1)[0] == rest[..f.value];
      assert |rest[..f.value]| < |p|;
    }
  }

  // ---------------------------------------------------------------------------
  // Navigation screens

  datatype Action = Action(name: string, value: string, caption: string)

  /** A project as the projects listing reports it. */
  datatype ProjectEntry = ProjectEntry(name: string, sanitized: string)

  /** A thread as the thread listing reports it: the stored `id`, `name` and `message_count`, whatever their types. */
  datatype ThreadEntry = ThreadEntry(id: Json, name: Json, messageCount: Json)

  const ShownEntries := 5

  const ProjectScreenFixed: seq<Action> := [
    Action("create_project", "create", "\U{2795} Create New Project"),
    Action("list_projects", "list", "\U{1F4CB} List All Projects"),
    Action("help", "help", "\U{2753} Help")
  ]

  function ThreadScreenFixed(project: string): seq<Action>
  {
    [ Action("create_thread", CreateThreadValue(project), "\U{2795} Create New Thread"),
      Action("view_files", ViewFilesValue(project), "\U{1F4C1} View Files"),
      Action("back_to_projects", "back", "\U{2B05}\U{FE0F} Back to Projects") ]
  }

  function ProjectAction(i: nat, p: ProjectEntry): Action
  {
    Action("select_project_" + NatToString(i), SelectProjectValue(p.sanitized), "\U{1F4C2} " + p.name)
  }

  /** One thread's action; the f-strings show each field with `str()`, lists and dicts through `show`. */
  function ThreadAction(i: nat, project: string, t: ThreadEntry, show: Json -> string): Action
  {
    Action("select_thread_" + NatToString(i), SelectThreadValue(project, PyStr(t.id, show)),
           "\U{1F4AC} " + PyStr(t.name, show) + " (" + PyStr(t.messageCount, show) + " msgs)")
  }

  /** The actions of `display_project_navigation`. */
  method ProjectNavigation(projects: seq<ProjectEntry>) returns (actions: seq<Action>)
    ensures |actions| == 3 + (if |projects| < ShownEntries then |projects| else ShownEntries)
    ensures actions[..3] == ProjectScreenFixed
    ensures forall i :: 3 <= i < |actions| ==> actions[i] == ProjectAction(i - 3, projects[i - 3])
    ensures forall i :: 3 <= i < |actions| ==> AfterFirstColon(actions[i].value) == Some(projects[i - 3].sanitized)
  {
    actions := ProjectScreenFixed;
    var n := if |projects| < ShownEntries then |projects| else ShownEntries;
    for i := 0 to n
      invariant |actions| == 3 + i
      invariant actions[..3] == ProjectScreenFixed
      invariant forall j :: 3 <= j < |actions| ==> actions[j] == ProjectAction(j - 3, projects[j - 3])
    {
      actions := actions + [ProjectAction(i, projects[i])];
    }
    ProjectActionsDecode(projects, actions);
  }

  lemma ProjectActionsDecode(projects: seq<ProjectEntry>, actions: seq<Action>)
    requires 3 <= |actions| <= 3 + |projects|
    requires forall i :: 3 <= i < |actions| ==> actions[i] == ProjectAction(i - 3, projects[i - 3])
    ensures forall i :: 3 <= i < |actions| ==> AfterFirstColon(actions[i].value) == Some(projects[i - 3].sanitized)
  {
    forall i | 3 <= i < |actions|
      ensures AfterFirstColon(actions[i].value) == Some(projects[i - 3].sanitized)
    {
      ProjectValuesRoundTrip(projects[i - 3].sanitized);
    }
  }

  lemma ThreadActionDecodes(i: nat, project: string, t: ThreadEntry, show: Json -> string)
    ensures ':' !in project ==>
      ThreadSelection(ThreadAction(i, project, t, show).value) == Some((project, PyStr(t.id, show)))
  {
    ThreadValueRoundTrip(project, PyStr(t.id, show));
  }

  lemma ThreadActionsDecode(project: string, threads: seq<ThreadEntry>, show: Json -> string, actions: seq<Action>)
    requires 3 <= |actions| <= 3 + |threads|
    requires forall i :: 3 <= i < |actions| ==> actions[i] == ThreadAction(i - 3, project, threads[i - 3], show)
    ensures ':' !in project ==>
      forall i :: 3 <= i < |actions| ==>
        ThreadSelection(actions[i].value) == Some((project, PyStr(threads[i - 3].id, show)))
  {
    forall i | 3 <= i < |actions|
      ensures ':' !in project ==> ThreadSelection(actions[i].value) == Some((project, PyStr(threads[i - 3].id, show)))
    {
      ThreadActionDecodes(i - 3, project, threads[i - 3], show);
    }
  }

  /** The thread screen's create and view-files actions carry the project. */
  lemma ThreadScreenDecodes(project: string)
    ensures AfterFirstColon(ThreadScreenFixed(project)[0].value) == Some(project)
    ensures AfterFirstColon(ThreadScreenFixed(project)[1].value) == Some(project)
  {
    ProjectValuesRoundTrip(project);
  }

  /** The actions of `display_thread_navigation`. */
  method ThreadNavigation(project: string, threads: seq<ThreadEntry>, show: Json -> string) returns (actions: seq<Action>)
    ensures |actions| == 3 + (if |threads| < ShownEntries then |threads| else ShownEntries)
    ensures actions[..3] == ThreadScreenFixed(project)
    ensures forall i :: 3 <= i < |actions| ==> actions[i] == ThreadAction(i - 3, project, threads[i - 3], show)
    ensures ':' !in project ==>
      forall i :: 3 <= i < |actions| ==>
        ThreadSelection(actions[i].value) == Some((project, PyStr(threads[i - 3].id, show)))
    ensures ':' !in project ==>
      forall i :: 3 <= i < |actions| && threads[i - 3].id.JStr? ==>
        ThreadSelection(actions[i].value) == Some((project, threads[i - 3].id.s))
  {
    actions := ThreadScreenFixed(project);
    var n := if |threads| < ShownEntries then |threads| else ShownEntries;
    for i := 0 to n
      invariant |actions| == 3 + i
      invariant actions[..3] == ThreadScreenFixed(project)
      invariant forall j :: 3 <= j < |actions| ==> actions[j] == ThreadAction(j - 3, project, threads[j - 3], show)
    {
      actions := actions + [ThreadAction(i, project, threads[i], show)];
    }
    ThreadActionsDecode(project, threads, show, actions);
  }

  // ---------------------------------------------------------------------------
  // wait_for_claude_response

  /** How the wait ends; all but `Answered` return `None`. */
  datatype WaitEnd =
    | Answered(response: Json)
    | NoStatus            // "Failed to get job status"
    | JobFailed(error: Json)
    | WaitTimedOut        // "Request timed out"

  const MaxWait := 300
  const PollInterval := 2

  /** The polls there is time for: `max_wait / 2`. */
  const MaxPolls := 150

  /**
   * How the wait ends when polling starts at poll `k`; `poll(k)` is the
   * `k`-th answer of `get_job_status` (`None` when it reported no success).
   * `if not status_result` also stops on an empty dict, which a reply that
   * reported success never is.
   */
  function Outcome(poll: nat -> Option<map<string, Json>>, k: nat): WaitEnd
    decreases MaxPolls - k
  {
    if k >= MaxPolls then WaitTimedOut
    else match poll(k)
      case None => NoStatus
      case Some(r) =>
        if r == map[] then NoStatus else
        var status := Get(r, "status", JNull);
        if status == JStr("done") then Answered(Get(r, "response", JStr("")))
        else if status == JStr("failed") then JobFailed(Get(r, "error", JStr("Unknown error")))
        else Outcome(poll, k + 1)
  }

  /** The poll answer that keeps the loop going. */
  predicate Pending(a: Option<map<string, Json>>)
  {
    a.Some? && a.value != map[] && Get(a.value, "status", JNull) != JStr("done") && Get(a.value, "status", JNull) != JStr("failed")
  }

  /** The loop: poll, stop on a missing or empty answer, `done` or `failed`, otherwise sleep 2 s. */
  method WaitForClaudeResponse(poll: nat -> Option<map<string, Json>>) returns (result: WaitEnd, polls: nat)
    ensures result == Outcome(poll, 0)
    ensures 1 <= polls <= MaxPolls
    ensures forall j :: 0 <= j < polls - 1 ==> Pending(poll(j))
    ensures result.WaitTimedOut? <==> polls == MaxPolls && Pending(poll(MaxPolls - 1))
  {
    var waitTime := 0;
    polls := 0;
    while waitTime < MaxWait
      invariant waitTime == PollInterval * polls && polls <= MaxPolls
      invariant Outcome(poll, polls) == Outcome(poll, 0)
      invariant forall j :: 0 <= j < polls ==> Pending(poll(j))
    {
      var answer := poll(polls);
      polls := polls + 1;
      if answer.None? || answer.value == map[] {
        return NoStatus, polls;
      }
      var status := Get(answer.value, "status", JNull);
      if status == JStr("done") {
        return Answered(Get(answer.value, "response", JStr(""))), polls;
      } else if status == JStr("failed") {
        return JobFailed(Get(answer.value, "error", JStr("Unknown error"))), polls;
      }
      waitTime := waitTime + PollInterval;
    }
    return WaitTimedOut, polls;
  }

  /** The response is returned exactly when some poll says `done` and every earlier one was pending. */
  lemma {:induction false} AnsweredIff(poll: nat -> Option<map<string, Json>>, k: nat)
    ensures Outcome(poll, k).Answered? <==>
      exists d :: k <= d < MaxPolls && poll(d).Some? && Get(poll(d).value, "status", JNull) == JStr("done")
                  && forall j :: k <= j < d ==> Pending(poll(j))
    decreases MaxPolls - k
  {
    if k < MaxPolls {
      AnsweredIff(poll, k + 1);
      if Pending(poll(k)) {
        if Outcome(poll, k + 1).Answered? {
          var d :| k + 1 <= d < MaxPolls && poll(d).Some? && Get(poll(d).value, "status", JNull) == JStr("done")
                   && forall j :: k + 1 <= j < d ==> Pending(poll(j));
          assert forall j :: k <= j < d ==> Pending(poll(j));
        }
      }
    }
  }

  /** Pending answers all the way make the wait time out after 150 polls. */
  lemma {:induction false} PendingTimesOut(poll: nat -> Option<map<string, Json>>, k: nat)
    requires forall j :: k <= j < MaxPolls ==> Pending(poll(j))
    ensures Outcome(poll, k) == WaitTimedOut
    decreases MaxPolls - k
  {
    if k < MaxPolls {
      PendingTimesOut(poll, k + 1);
    }
  }
}
