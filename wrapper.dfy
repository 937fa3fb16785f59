/**
 * The project/thread layer of `src/claude_wrapper.py`: project-name
 * sanitisation and de-conflicting, the command line handed to the `claude`
 * CLI, the reading of its output, the thread-metadata update after a
 * successful exchange, the message history and status views, thread
 * deletion, and the thread listing.
 *
 * The projects directory is modelled as a map from project name to the
 * files of that project's `.threads` directory (file name to content);
 * running the CLI, `json.loads` and `str.isalnum` are parameters.
 */
module ClaudeWrapper {

  import opened Common
  import opened Strings
  import opened JsonValue

  /** The wrapper's `(success, response, metadata)` triple, as the job worker receives it. */
  datatype SendResult =
    | Sent(response: Json, data: map<string, Json>)
    | NotSent(error: string)

  /** A file of a `.threads` directory: either text `json.load` rejects, or a JSON object. */
  datatype FileContent = Corrupt | Object(fields: map<string, Json>)

  const IndexFile := "threads.json"

  /** `f"{thread_id}.json"`. */
  function ThreadFile(thread: string): string
  {
    thread + ".json"
  }

  /** The name Python's `type(v).__name__` gives a JSON value. */
  function PyTypeName(v: Json): string
  {
    match v
    case JNull => "NoneType"
    case JBool(_) => "bool"
    case JNum(_) => "int"
    case JStr(_) => "str"
    case JArr(_) => "list"
    case JObj(_) => "dict"
  }

  // ---------------------------------------------------------------------------
  // create_project: sanitise and de-conflict

  /** A character the sanitiser keeps: `c.isalnum() or c in (' ', '-', '_')`. */
  predicate Kept(c: char, isAlnum: char -> bool)
  {
    isAlnum(c) || c == ' ' || c == '-' || c == '_'
  }

  /** `"".join(c for c in name if ...)`: the kept characters in order. */
  function KeepChars(name: string, isAlnum: char -> bool): (r: string)
    ensures |r| <= |name|
    ensures forall c :: c in r ==> c in name && Kept(c, isAlnum)
    ensures (forall c :: c in name ==> Kept(c, isAlnum)) ==> r == name
    ensures (forall c :: c in name ==> !Kept(c, isAlnum)) ==> r == ""
  {
    if |name| == 0 then ""
    else
      assert forall c :: c in name[1..] ==> c in name;
      assert name == [name[0]] + name[1..];
      (if Kept(name[0], isAlnum) then [name[0]] else "") + KeepChars(name[1..], isAlnum)
  }

  /** Filtering works piece by piece, so kept characters keep their order. */
  lemma {:induction false} KeepCharsAppend(a: string, b: string, isAlnum: char -> bool)
    ensures KeepChars(a + b, isAlnum) == KeepChars(a, isAlnum) + KeepChars(b, isAlnum)
  {
    if |a| > 0 {
      assert (a + b)[0] == a[0];
      assert (a + b)[1..] == a[1..] + b;
      KeepCharsAppend(a[1..], b, isAlnum);
    } else {
      assert a + b == b;
    }
  }

  /** The sanitised name before the empty-name fallback: kept characters, stripped, spaces as dashes. */
  function Cleaned(name: string, isAlnum: char -> bool): (r: string)
    ensures ' ' !in r
    ensures forall c :: c in r ==> Kept(c, isAlnum)
    ensures |r| > 0 ==> !IsSpace(r[0]) && !IsSpace(r[|r| - 1])
    ensures DashedCore(KeepChars(name, isAlnum), r)
  {
    var stripped := Strip(KeepChars(name, isAlnum));
    StripBounds(KeepChars(name, isAlnum));
    ReplaceCharPointwise(stripped, ' ', '-');
    DashesKept(stripped, isAlnum);
    DashedSlice(KeepChars(name, isAlnum));
    ReplaceAll(stripped, " ", "-")
  }

  /** `kept[i..j]` is `kept` with all white space cut from its two ends. */
  predicate Cut(kept: string, i: nat, j: nat)
  {
    i <= j <= |kept|
    && (forall k :: 0 <= k < i ==> IsSpace(kept[k]))
    && (forall k :: j <= k < |kept| ==> IsSpace(kept[k]))
    && (i < j ==> !IsSpace(kept[i]) && !IsSpace(kept[j - 1]))
  }

  /** `r` is `kept` with white space cut from the two ends only, and the remaining spaces turned into dashes. */
  ghost predicate DashedCore(kept: string, r: string)
  {
    exists i: nat, j: nat :: Cut(kept, i, j) && r == SwapChar(kept[i..j], ' ', '-')
  }

  lemma DashedSlice(kept: string)
    ensures DashedCore(kept, ReplaceAll(Strip(kept), " ", "-"))
  {
    var i, j := StripEnds(kept);
    assert Cut(kept, i, j);
    ReplaceCharPointwise(Strip(kept), ' ', '-');
  }

  /** The cut is forced: it keeps every non-space character and starts and ends at one. */
  lemma CutUnique(kept: string, i1: nat, j1: nat, i2: nat, j2: nat)
    requires Cut(kept, i1, j1) && Cut(kept, i2, j2)
    ensures kept[i1..j1] == kept[i2..j2]
  {
    if exists k :: 0 <= k < |kept| && !IsSpace(kept[k]) {
      var k :| 0 <= k < |kept| && !IsSpace(kept[k]);
      assert i1 <= k < j1 && i2 <= k < j2;
      assert i1 == i2 && j1 == j2;
    } else {
      assert i1 == j1 && i2 == j2;
    }
  }

  /** At most one result meets `DashedCore`, so the contract of `Cleaned` fixes its value. */
  lemma DashedCoreUnique(kept: string, r1: string, r2: string)
    requires DashedCore(kept, r1) && DashedCore(kept, r2)
    ensures r1 == r2
  {
    var i1: nat, j1: nat :| Cut(kept, i1, j1) && r1 == SwapChar(kept[i1..j1], ' ', '-');
    var i2: nat, j2: nat :| Cut(kept, i2, j2) && r2 == SwapChar(kept[i2..j2], ' ', '-');
    CutUnique(kept, i1, j1, i2, j2);
  }

  /** Turning spaces into dashes keeps a kept, stripped name kept and stripped, and removes its spaces. */
  lemma DashesKept(s: string, isAlnum: char -> bool)
    requires forall c :: c in s ==> Kept(c, isAlnum)
    requires |s| > 0 ==> !IsSpace(s[0]) && !IsSpace(s[|s| - 1])
    ensures var r := SwapChar(s, ' ', '-');
      && ' ' !in r
      && (forall c :: c in r ==> Kept(c, isAlnum))
      && (|r| > 0 ==> !IsSpace(r[0]) && !IsSpace(r[|r| - 1]))
  {
    var r := SwapChar(s, ' ', '-');
    forall c | c in r ensures c != ' ' && Kept(c, isAlnum) {
      var i :| 0 <= i < |r| && r[i] == c;
      assert s[i] in s;
    }
    if |r| > 0 {
      assert r[0] == s[0] && r[|r| - 1] == s[|s| - 1];
    }
  }

  /**
   * The name `create_project` starts from: the cleaned name, or
   * `project-` and the first 8 characters of the UUID text when that is empty.
   */
  function Sanitize(name: string, isAlnum: char -> bool, uuid: string): (r: string)
    ensures Cleaned(name, isAlnum) != "" ==> r == Cleaned(name, isAlnum)
    ensures Cleaned(name, isAlnum) == "" ==> r == "project-" + uuid[..if |uuid| < 8 then |uuid| else 8]
    ensures |uuid| >= 8 && Cleaned(name, isAlnum) == "" ==> |r| == 16
  {
    var cleaned := Cleaned(name, isAlnum);
    if cleaned == "" then "project-" + uuid[..if |uuid| < 8 then |uuid| else 8] else cleaned
  }

  /** `f"{original_name}-{counter}"`. */
  function Suffixed(base: string, k: nat): string
  {
    base + "-" + NatToString(k)
  }

  lemma SuffixedInjective(base: string, a: nat, b: nat)
    requires Suffixed(base, a) == Suffixed(base, b)
    ensures a == b
  {
    var n := |base| + 1;
    assert Suffixed(base, a)[n..] == NatToString(a);
    assert Suffixed(base, b)[n..] == NatToString(b);
    NatToStringInjective(a, b);
  }

  /** `name` is what the conflict loop ends with: free, and the base or its least free numbered variant. */
  ghost predicate Resolved(base: string, existing: set<string>, name: string)
  {
    name !in existing
    && (base !in existing ==> name == base)
    && (base in existing ==>
          exists k: nat :: 1 <= k && name == Suffixed(base, k)
                           && forall j: nat :: 1 <= j < k ==> Suffixed(base, j) in existing)
  }

  /** The specification determines the name. */
  lemma ResolvedUnique(base: string, existing: set<string>, n1: string, n2: string)
    requires Resolved(base, existing, n1) && Resolved(base, existing, n2)
    ensures n1 == n2
  {
    if base in existing {
      var k1: nat :| 1 <= k1 && n1 == Suffixed(base, k1)
                     && forall j: nat :: 1 <= j < k1 ==> Suffixed(base, j) in existing;
      var k2: nat :| 1 <= k2 && n2 == Suffixed(base, k2)
                     && forall j: nat :: 1 <= j < k2 ==> Suffixed(base, j) in existing;
    }
  }

  /** The names the conflict loop has looked at before reaching counter value `counter`. */
  ghost function Tried(base: string, counter: nat): set<string>
    requires counter >= 1
  {
    if counter == 1 then {} else {base} + set j: nat | 1 <= j < counter - 1 :: Suffixed(base, j)
  }

  /** The candidate names are pairwise distinct, so each round looks at a new one. */
  lemma TriedGrows(base: string, counter: nat)
    requires counter >= 1
    ensures var name := if counter == 1 then base else Suffixed(base, counter - 1);
      && name !in Tried(base, counter)
      && Tried(base, counter + 1) == Tried(base, counter) + {name}
      && |Tried(base, counter + 1)| == |Tried(base, counter)| + 1
  {
    if counter > 1 {
      TriedFresh(base, counter);
      TriedNext(base, counter);
    }
  }

  lemma TriedFresh(base: string, counter: nat)
    requires counter > 1
    ensures Suffixed(base, counter - 1) !in Tried(base, counter)
  {
    var name := Suffixed(base, counter - 1);
    assert |name| > |base|;
    forall j: nat | 1 <= j < counter - 1 ensures Suffixed(base, j) != name {
      if Suffixed(base, j) == name {
        SuffixedInjective(base, j, counter - 1);
      }
    }
  }

  lemma TriedNext(base: string, counter: nat)
    requires counter > 1
    ensures Tried(base, counter + 1) == Tried(base, counter) + {Suffixed(base, counter - 1)}
  {
    var a := set j: nat | 1 <= j < counter - 1 :: Suffixed(base, j);
    var b := set j: nat | 1 <= j < counter :: Suffixed(base, j);
    assert b == a + {Suffixed(base, counter - 1)};
  }

  lemma SubsetSize(a: set<string>, b: set<string>)
    requires a <= b
    ensures |a| <= |b|
  {
    assert b == a + (b - a);
    assert a * (b - a) == {};
  }

  /** The `while project_dir.exists()` loop of `create_project`. */
  method ResolveName(base: string, existing: set<string>) returns (name: string)
    ensures Resolved(base, existing, name)
  {
    name := base;
    var counter: nat := 1;
    while name in existing
      invariant 1 <= counter
      invariant name == (if counter == 1 then base else Suffixed(base, counter - 1))
      invariant counter > 1 ==> base in existing
      invariant Tried(base, counter) <= existing
      invariant |Tried(base, counter)| == counter - 1 <= |existing|
      decreases |existing| - (counter - 1)
    {
      ResolveStep(base, existing, counter);
      name := Suffixed(base, counter);
      counter := counter + 1;
    }
    ResolvedAt(base, existing, counter, name);
  }

  /** One round of the conflict loop keeps its invariants and shrinks the names left to try. */
  lemma ResolveStep(base: string, existing: set<string>, counter: nat)
    requires 1 <= counter
    requires (if counter == 1 then base else Suffixed(base, counter - 1)) in existing
    requires Tried(base, counter) <= existing
    requires |Tried(base, counter)| == counter - 1
    ensures Tried(base, counter + 1) <= existing
    ensures |Tried(base, counter + 1)| == counter <= |existing|
  {
    TriedGrows(base, counter);
    SubsetSize(Tried(base, counter + 1), existing);
  }

  /** The name the loop stops at is the resolved one. */
  lemma ResolvedAt(base: string, existing: set<string>, counter: nat, name: string)
    requires 1 <= counter
    requires name == (if counter == 1 then base else Suffixed(base, counter - 1))
    requires name !in existing
    requires counter > 1 ==> base in existing
    requires Tried(base, counter) <= existing
    ensures Resolved(base, existing, name)
  {
    if counter > 1 {
      forall j: nat | 1 <= j < counter - 1 ensures Suffixed(base, j) in existing {
        assert Suffixed(base, j) in Tried(base, counter);
      }
      assert 1 <= counter - 1 && name == Suffixed(base, counter - 1);
    }
  }

  /** The `threads.json` that `create_project` writes. */
  function NewIndex(name: string, sanitized: string, now: string): (index: map<string, Json>)
    ensures index.Keys == {"name", "sanitized_name", "created", "threads"}
    ensures index["threads"] == JObj(map[])
  {
    map["name" := JStr(name), "sanitized_name" := JStr(sanitized), "created" := JStr(now),
        "threads" := JObj(map[])]
  }

  // ---------------------------------------------------------------------------
  // send_message: the command line

  /** How the stored `session_id` steers the call. */
  datatype SessionMode =
    | Fresh
    | Resume(session: string)
      /** a truthy non-string: `subprocess.run` rejects it */
    | Unusable(value: Json)

  /** `if session_id:` with `session_id = metadata.get("session_id")`. */
  function ModeOf(sessionId: Json): (m: SessionMode)
    ensures m.Fresh? <==> !Truthy(sessionId)
    ensures m.Resume? <==> Truthy(sessionId) && sessionId.JStr?
    ensures m.Resume? ==> m.session == sessionId.s && m.session != ""
  {
    if !Truthy(sessionId) then Fresh
    else if sessionId.JStr? then Resume(sessionId.s)
    else Unusable(sessionId)
  }

  const SkipPermissions := "--dangerously-skip-permissions"

  /** The argument vector handed to `subprocess.run`. */
  function BuildCommand(exe: string, mode: SessionMode, message: string): (cmd: seq<string>)
    requires !mode.Unusable?
    ensures |cmd| == if mode.Resume? then 8 else 6
    ensures cmd[..2] == [exe, SkipPermissions]
    ensures cmd[|cmd| - 4..] == ["-p", message, "--output-format", "json"]
  {
    var base := [exe, SkipPermissions];
    if mode.Resume? then base + ["--resume", mode.session, "-p", message, "--output-format", "json"]
    else base + ["-p", message, "--output-format", "json"]
  }

  /** What a command line asks for. */
  datatype Invocation = Invocation(exe: string, mode: SessionMode, message: string)

  /** Reads a command line back; the inverse of `BuildCommand`. */
  function ParseCommand(cmd: seq<string>): Option<Invocation>
  {
    if |cmd| == 6 && cmd[1] == SkipPermissions && cmd[2] == "-p" && cmd[4..] == ["--output-format", "json"] then
      Some(Invocation(cmd[0], Fresh, cmd[3]))
    else if |cmd| == 8 && cmd[1] == SkipPermissions && cmd[2] == "--resume" && cmd[3] != ""
            && cmd[4] == "-p" && cmd[6..] == ["--output-format", "json"] then
      Some(Invocation(cmd[0], Resume(cmd[3]), cmd[5]))
    else None
  }

  /**
   * Every message and session id reach the CLI as single arguments, whatever
   * they contain, and every well-formed command line is one `BuildCommand` makes.
   */
  lemma CommandRoundTrip(exe: string, mode: SessionMode, message: string, cmd: seq<string>)
    requires !mode.Unusable? && (mode.Resume? ==> mode.session != "")
    ensures ParseCommand(BuildCommand(exe, mode, message)) == Some(Invocation(exe, mode, message))
    ensures ParseCommand(cmd).Some? ==>
      var i := ParseCommand(cmd).value;
      !i.mode.Unusable? && BuildCommand(i.exe, i.mode, i.message) == cmd
  {
    var c := BuildCommand(exe, mode, message);
    assert c[1] == SkipPermissions;
    if ParseCommand(cmd).Some? {
      var i := ParseCommand(cmd).value;
      var b := BuildCommand(i.exe, i.mode, i.message);
      assert |b| == |cmd|;
      forall k | 0 <= k < |cmd| ensures b[k] == cmd[k] {
        if |cmd| == 8 && k >= 6 {
          assert cmd[6..][k - 6] == cmd[k];
        } else if |cmd| == 6 && k >= 4 {
          assert cmd[4..][k - 4] == cmd[k];
        }
      }
    }
  }

  // ---------------------------------------------------------------------------
  // send_message: reading the CLI's output

  /** What `subprocess.run` gave back. */
  datatype ProcessResult =
    | Completed(returnCode: int, stdout: string, stderr: string)
    | TimedOut
      /** any other exception, with its text (for example a missing executable) */
    | LaunchFailed(reason: string)

  /** The decoded output: response text, response data and the returned session id. */
  datatype Parsed =
    | Parsed(response: Json, data: map<string, Json>, newSession: Json)
      /** valid JSON that is not an object: `.get` raises AttributeError */
    | NotAnObject(typeName: string)

  /** `response_data.get("result", response_data.get("content", result.stdout))` and the `session_id`. */
  function ParseOutput(stdout: string, decode: string -> Option<Json>): (p: Parsed)
    ensures decode(stdout).None? ==> p == Parsed(JStr(stdout), map["content" := JStr(stdout)], JNull)
    ensures decode(stdout).Some? && !decode(stdout).value.JObj? ==>
      p == NotAnObject(PyTypeName(decode(stdout).value))
    ensures decode(stdout).Some? && decode(stdout).value.JObj? ==>
      var d := decode(stdout).value.fields;
      && p.Parsed? && p.data == d && p.newSession == Get(d, "session_id", JNull)
      && ("result" in d ==> p.response == d["result"])
      && ("result" !in d && "content" in d ==> p.response == d["content"])
      && ("result" !in d && "content" !in d ==> p.response == JStr(stdout))
  {
    match decode(stdout)
    case None => Parsed(JStr(stdout), map["content" := JStr(stdout)], JNull)
    case Some(v) =>
      if v.JObj? then
        var d := v.fields;
        Parsed(Get(d, "result", Get(d, "content", JStr(stdout))), d, Get(d, "session_id", JNull))
      else NotAnObject(PyTypeName(v))
  }

  /** Output that is not JSON comes back verbatim and never changes the session. */
  lemma RawOutputFallback(stdout: string, decode: string -> Option<Json>)
    requires decode(stdout).None?
    ensures ParseOutput(stdout, decode).response == JStr(stdout)
    ensures !Truthy(ParseOutput(stdout, decode).newSession)
  {
  }

  // ---------------------------------------------------------------------------
  // send_message: the metadata update

  /** One entry of the `messages` list. */
  function Entry(role: string, content: Json, timestamp: string): Json
  {
    JObj(map["role" := JStr(role), "content" := content, "timestamp" := JStr(timestamp)])
  }

  /** `metadata.get("message_count", 0) + 1`, with Python's `bool` counting as an `int`. */
  function AddOne(v: Json): (r: Option<Json>)
    ensures r.Some? <==> v.JNum? || v.JBool?
    ensures v.JNum? ==> r == Some(JNum(v.n + 1))
  {
    match v
    case JNum(n) => Some(JNum(n + 1))
    case JBool(b) => Some(JNum(if b then 2 else 1))
    case _ => None
  }

  /** The TypeError text of `v + 1` for a value `AddOne` refuses. */
  function AddOneError(v: Json): string
  {
    match v
    case JStr(_) => "can only concatenate str (not \"int\") to str"
    case JArr(_) => "can only concatenate list (not \"int\") to list"
    case _ => "unsupported operand type(s) for +: '" + PyTypeName(v) + "' and 'int'"
  }

  /** The stored history the new entries are appended to (`[]` when the key is missing). */
  function History(meta: map<string, Json>): Json
  {
    if "messages" in meta then meta["messages"] else JArr([])
  }

  datatype Update = Updated(metadata: map<string, Json>) | UpdateFailed(error: string)

  /** Lines 265-290: the in-place update of the thread's metadata dict after exit code 0. */
  function UpdateMetadata(meta: map<string, Json>, message: string, response: Json, newSession: Json, now: string): (u: Update)
    ensures u.Updated? <==> History(meta).JArr? && AddOne(Get(meta, "message_count", JNum(0))).Some?
    ensures u.Updated? ==>
      var m := u.metadata;
      && m.Keys == meta.Keys + {"messages", "message_count", "last_activity"}
                 + (if Truthy(newSession) then {"session_id"} else {})
      && m["messages"] == JArr(History(meta).items + [Entry("user", JStr(message), now), Entry("assistant", response, now)])
      && m["message_count"] == AddOne(Get(meta, "message_count", JNum(0))).value
      && m["last_activity"] == JStr(now)
      && (Truthy(newSession) ==> m["session_id"] == newSession)
      && (!Truthy(newSession) && "session_id" in meta ==> m["session_id"] == meta["session_id"])
      && (forall k ::
            (k in meta && k != "messages" && k != "message_count" && k != "last_activity" && k != "session_id")
            ==> m[k] == meta[k])
    ensures !History(meta).JArr? ==>
      u == UpdateFailed("'" + PyTypeName(History(meta)) + "' object has no attribute 'append'")
  {
    var m1 := if Truthy(newSession) then meta["session_id" := newSession] else meta;
    var history := History(m1);
    if !history.JArr? then UpdateFailed("'" + PyTypeName(history) + "' object has no attribute 'append'")
    else
      var m2 := m1["messages" := JArr(history.items + [Entry("user", JStr(message), now), Entry("assistant", response, now)])];
      var count := Get(m2, "message_count", JNum(0));
      match AddOne(count)
      case None => UpdateFailed(AddOneError(count))
      case Some(c) => Updated(m2["message_count" := c]["last_activity" := JStr(now)])
  }

  /** Over successive exchanges the history only grows, by two entries each time. */
  lemma HistoryGrowsByTwo(meta: map<string, Json>, message: string, response: Json, newSession: Json, now: string)
    requires UpdateMetadata(meta, message, response, newSession, now).Updated?
    ensures var m := UpdateMetadata(meta, message, response, newSession, now).metadata;
      && History(m).JArr?
      && |History(m).items| == |History(meta).items| + 2
      && History(m).items[..|History(meta).items|] == History(meta).items
      && History(m).items[|History(meta).items|] == Entry("user", JStr(message), now)
      && History(m).items[|History(meta).items| + 1] == Entry("assistant", response, now)
  {
    var m := UpdateMetadata(meta, message, response, newSession, now).metadata;
    var old_ := History(meta).items;
    assert History(m).items == old_ + [Entry("user", JStr(message), now), Entry("assistant", response, now)];
    assert History(m).items[..|old_|] == old_;
  }

  const CliNotFound := "Claude CLI not found. Please ensure Claude CLI is installed and in PATH."

  /** The result of one exchange, and the thread metadata to write back when it succeeded. */
  datatype Exchanged =
    | Failure(error: string)
    | Success(response: Json, data: map<string, Json>, metadata: map<string, Json>)

  /** The `TypeError` text `subprocess.run` gives for an argument that is not a string, as `send_message` reports it. */
  function ArgTypeError(v: Json): string
  {
    "Unexpected error: expected str, bytes or os.PathLike object, not " + PyTypeName(v)
  }

  /**
   * Lines 216-310 once the thread's metadata is loaded: locate the CLI, build
   * the command, run it, read its output and update the metadata. `exe` is
   * what `_find_claude_executable` found; `run` stands for `subprocess.run`.
   * The message is the JSON value the request carried; `subprocess.run`
   * rejects the first argument that is not a string, and the session id comes
   * before the message on the command line.
   */
  function Exchange(meta: map<string, Json>, message: Json, exe: Option<string>,
                    run: seq<string> -> ProcessResult, decode: string -> Option<Json>, now: string): (x: Exchanged)
    ensures exe.None? ==> x == Failure("Unexpected error: " + CliNotFound)
    ensures x.Success? ==>
      var mode := ModeOf(Get(meta, "session_id", JNull));
      && exe.Some? && !mode.Unusable? && message.JStr?
      && var res := run(BuildCommand(exe.value, mode, message.s));
      && res.Completed? && res.returnCode == 0
      && var p := ParseOutput(res.stdout, decode);
      && p.Parsed? && x.response == p.response && x.data == p.data
      && UpdateMetadata(meta, message.s, p.response, p.newSession, now) == Updated(x.metadata)
    ensures exe.Some? && !ModeOf(Get(meta, "session_id", JNull)).Unusable? && message.JStr? ==>
      var res := run(BuildCommand(exe.value, ModeOf(Get(meta, "session_id", JNull)), message.s));
      && (res.TimedOut? ==> x == Failure("Claude CLI command timed out"))
      && (res.Completed? && res.returnCode != 0 ==>
            x == Failure(if res.stderr != "" then res.stderr else "Claude CLI command failed"))
      && (res.LaunchFailed? ==> x == Failure("Unexpected error: " + res.reason))
      && (res.Completed? && res.returnCode == 0 ==>
            match ParseOutput(res.stdout, decode)
            case NotAnObject(t) => x == Failure("Unexpected error: '" + t + "' object has no attribute 'get'")
            case Parsed(response, data, newSession) =>
              match UpdateMetadata(meta, message.s, response, newSession, now)
              case UpdateFailed(e) => x == Failure("Unexpected error: " + e)
              case Updated(m) => x == Success(response, data, m))
    ensures exe.Some? && ModeOf(Get(meta, "session_id", JNull)).Unusable? ==>
      x == Failure(ArgTypeError(ModeOf(Get(meta, "session_id", JNull)).value))
    ensures exe.Some? && !ModeOf(Get(meta, "session_id", JNull)).Unusable? && !message.JStr? ==>
      x == Failure(ArgTypeError(message))
  {
    if exe.None? then Failure("Unexpected error: " + CliNotFound)
    else
      match ModeOf(Get(meta, "session_id", JNull))
      case Unusable(v) => Failure(ArgTypeError(v))
      case mode =>
        if !message.JStr? then Failure(ArgTypeError(message))
        else
        match run(BuildCommand(exe.value, mode, message.s))
        case TimedOut => Failure("Claude CLI command timed out")
        case LaunchFailed(reason) => Failure("Unexpected error: " + reason)
        case Completed(code, stdout, stderr) =>
          if code != 0 then Failure(if stderr != "" then stderr else "Claude CLI command failed")
          else
            match ParseOutput(stdout, decode)
            case NotAnObject(t) => Failure("Unexpected error: '" + t + "' object has no attribute 'get'")
            case Parsed(response, data, newSession) =>
              match UpdateMetadata(meta, message.s, response, newSession, now)
              case UpdateFailed(e) => Failure("Unexpected error: " + e)
              case Updated(m) => Success(response, data, m)
  }

  /** Reading a thread's metadata: the checks every thread operation starts with. */
  datatype Loaded = NoProject | NoThread | Invalid | Loaded(metadata: map<string, Json>)

  function LoadThread(projects: map<string, map<string, FileContent>>, project: string, thread: string): (l: Loaded)
    ensures l.NoProject? <==> project !in projects
    ensures l.NoThread? <==> project in projects && ThreadFile(thread) !in projects[project]
    ensures l.Invalid? <==> project in projects && ThreadFile(thread) in projects[project]
                            && projects[project][ThreadFile(thread)].Corrupt?
    ensures l.Loaded? ==> projects[project][ThreadFile(thread)] == Object(l.metadata)
  {
    if project !in projects then NoProject
    else if ThreadFile(thread) !in projects[project] then NoThread
    else match projects[project][ThreadFile(thread)]
      case Corrupt => Invalid
      case Object(m) => Loaded(m)
  }

  /** `send_message`'s reply, and the metadata it writes back (only on success). */
  function Send(projects: map<string, map<string, FileContent>>, project: string, thread: string, message: Json,
                exe: Option<string>, run: seq<string> -> ProcessResult, decode: string -> Option<Json>,
                now: string): (r: (SendResult, Option<map<string, Json>>))
    ensures r.0.NotSent? <==> r.1.None?
    ensures project !in projects ==> r.0 == NotSent("Project " + project + " not found")
    ensures LoadThread(projects, project, thread).NoThread? ==>
      r.0 == NotSent("Thread " + thread + " not found in project " + project)
    ensures LoadThread(projects, project, thread).Invalid? ==>
      r.0 == NotSent("Invalid thread metadata for " + thread)
    ensures r.0.Sent? ==>
      var meta := LoadThread(projects, project, thread).metadata;
      && LoadThread(projects, project, thread).Loaded?
      && Exchange(meta, message, exe, run, decode, now) == Success(r.0.response, r.0.data, r.1.value)
    ensures LoadThread(projects, project, thread).Loaded? ==>
      match Exchange(LoadThread(projects, project, thread).metadata, message, exe, run, decode, now)
      case Success(response, data, m) => r == (Sent(response, data), Some(m))
      case Failure(e) => r == (NotSent(e), None)
  {
    match LoadThread(projects, project, thread)
    case NoProject => (NotSent("Project " + project + " not found"), None)
    case NoThread => (NotSent("Thread " + thread + " not found in project " + project), None)
    case Invalid => (NotSent("Invalid thread metadata for " + thread), None)
    case Loaded(meta) =>
      match Exchange(meta, message, exe, run, decode, now)
      case Failure(e) => (NotSent(e), None)
      case Success(response, data, m) => (Sent(response, data), Some(m))
  }

  // ---------------------------------------------------------------------------
  // get_messages and get_thread_status

  /** The single system message shown for a thread that has a session but no stored history. */
  function SessionNotice(meta: map<string, Json>, show: Json -> string): Json
  {
    JObj(map["role" := JStr("system"),
             "content" := JStr("Thread has " + PyStr(Get(meta, "message_count", JNum(0)), show)
                               + " messages but history not stored in this format. Future messages will be saved."),
             "timestamp" := Get(meta, "created", JStr(""))])
  }

  /** `get_messages`: `None` when the project, the file or its JSON is missing. */
  function GetMessages(projects: map<string, map<string, FileContent>>, project: string, thread: string,
                       show: Json -> string): (r: Option<Json>)
    ensures r.None? <==> !LoadThread(projects, project, thread).Loaded?
    ensures r.Some? ==>
      var meta := LoadThread(projects, project, thread).metadata;
      var stored := Get(meta, "messages", JArr([]));
      && (r.value == JArr([SessionNotice(meta, show)]) || r.value == stored)
      && (r.value != stored <==> !Truthy(stored) && Truthy(Get(meta, "session_id", JNull)))
  {
    match LoadThread(projects, project, thread)
    case Loaded(meta) =>
      var stored := Get(meta, "messages", JArr([]));
      if !Truthy(stored) && Truthy(Get(meta, "session_id", JNull)) then Some(JArr([SessionNotice(meta, show)]))
      else Some(stored)
    case _ => None
  }

  /** `get_thread_status`. */
  function ThreadStatus(projects: map<string, map<string, FileContent>>, project: string, thread: string): (r: map<string, Json>)
    ensures "status" in r && "project_name" in r && "thread_id" in r
    ensures r["project_name"] == JStr(project) && r["thread_id"] == JStr(thread)
    ensures r["status"] == JStr(match LoadThread(projects, project, thread)
                                case NoProject => "project_not_found"
                                case NoThread => "thread_not_found"
                                case Invalid => "error"
                                case Loaded(_) => "ready")
    ensures LoadThread(projects, project, thread).NoProject? || LoadThread(projects, project, thread).NoThread? ==>
      r.Keys == {"status", "project_name", "thread_id"}
    ensures LoadThread(projects, project, thread).Invalid? ==>
      r.Keys == {"status", "project_name", "thread_id", "error"} && r["error"] == JStr("Invalid thread metadata")
    ensures LoadThread(projects, project, thread).Loaded? ==>
      var meta := LoadThread(projects, project, thread).metadata;
      && r.Keys == {"status", "project_name", "thread_id", "name", "created", "session_id", "message_count", "last_activity"}
      && ("session_id" in meta ==> r["session_id"] == meta["session_id"])
      && ("session_id" !in meta ==> r["session_id"] == JStr("No session started"))
      && r["name"] == Get(meta, "name", JStr(thread))
      && r["created"] == Get(meta, "created", JStr(""))
      && r["message_count"] == Get(meta, "message_count", JNum(0))
      && r["last_activity"] == Get(meta, "last_activity", JStr("Never"))
  {
    var ids := map["project_name" := JStr(project), "thread_id" := JStr(thread)];
    match LoadThread(projects, project, thread)
    case NoProject => ids["status" := JStr("project_not_found")]
    case NoThread => ids["status" := JStr("thread_not_found")]
    case Invalid => ids["status" := JStr("error")]["error" := JStr("Invalid thread metadata")]
    case Loaded(meta) =>
      ids["status" := JStr("ready")]
         ["name" := Get(meta, "name", JStr(thread))]
         ["created" := Get(meta, "created", JStr(""))]
         ["session_id" := Get(meta, "session_id", JStr("No session started"))]
         ["message_count" := Get(meta, "message_count", JNum(0))]
         ["last_activity" := Get(meta, "last_activity", JStr("Never"))]
  }

  /**
   * A thread file written with `"session_id": None` (as `create_thread` does)
   * reports `None`, not the "No session started" default.
   */
  lemma NullSessionReported(projects: map<string, map<string, FileContent>>, project: string, thread: string)
    requires project in projects && ThreadFile(thread) in projects[project]
    requires projects[project][ThreadFile(thread)].Object?
    requires "session_id" in projects[project][ThreadFile(thread)].fields
    requires projects[project][ThreadFile(thread)].fields["session_id"] == JNull
    ensures ThreadStatus(projects, project, thread)["session_id"] == JNull
  {
  }

  // ---------------------------------------------------------------------------
  // delete_thread

  datatype IndexEdit = Edited(index: map<string, Json>) | EditFailed(error: string)

  /**
   * `if thread_id in project_metadata.get("threads", {}): del project_metadata["threads"][thread_id]`,
   * with Python's `in` and `del` on each kind of value.
   */
  function RemoveThread(index: map<string, Json>, thread: string): (e: IndexEdit)
    ensures Get(index, "threads", JObj(map[])).JObj? ==>
      var m := Get(index, "threads", JObj(map[])).fields;
      && e.Edited?
      && (thread in m ==> e.index == index["threads" := JObj(m - {thread})])
      && (thread !in m ==> e.index == index)
    ensures e.Edited? ==> forall k :: k in index && k != "threads" ==> k in e.index && e.index[k] == index[k]
    ensures e.Edited? ==> e.index.Keys == index.Keys
  {
    var threads := Get(index, "threads", JObj(map[]));
    match threads
    case JObj(m) => Edited(if thread in m then index["threads" := JObj(m - {thread})] else index)
    case JArr(items) =>
      if JStr(thread) in items then EditFailed("list indices must be integers or slices, not str") else Edited(index)
    case JStr(s) =>
      if Contains(s, thread) then EditFailed("'str' object doesn't support item deletion") else Edited(index)
    case _ => EditFailed("argument of type '" + PyTypeName(threads) + "' is not iterable")
  }

  datatype Deletion = Deletion(ok: bool, message: string, projects: map<string, map<string, FileContent>>)

  /** `delete_thread`: the reply and the directory contents afterwards. */
  function Delete(projects: map<string, map<string, FileContent>>, project: string, thread: string): (d: Deletion)
    ensures project !in projects ==> d == Deletion(false, "Project " + project + " not found", projects)
    ensures project in projects && ThreadFile(thread) !in projects[project] ==>
      d == Deletion(false, "Thread " + thread + " not found in project " + project, projects)
    ensures project in projects && ThreadFile(thread) in projects[project] ==>
      && d.projects.Keys == projects.Keys
      && (forall p :: p in projects && p != project ==> d.projects[p] == projects[p])
      && ThreadFile(thread) !in d.projects[project]
      && (forall f :: f in projects[project] && f != ThreadFile(thread) && f != IndexFile ==>
            f in d.projects[project] && d.projects[project][f] == projects[project][f])
      && (IndexFile in d.projects[project] <==> IndexFile in projects[project] && IndexFile != ThreadFile(thread))
    ensures d.ok ==> d.message == "Thread " + thread + " deleted successfully"
    ensures project in projects && ThreadFile(thread) in projects[project] ==>
      var rest := projects[project] - {ThreadFile(thread)};
      && (IndexFile !in rest || rest[IndexFile].Corrupt? ==>
            d == Deletion(true, "Thread " + thread + " deleted successfully", projects[project := rest]))
      && (IndexFile in rest && rest[IndexFile].Object? ==>
            match RemoveThread(rest[IndexFile].fields, thread)
            case Edited(index) =>
              d == Deletion(true, "Thread " + thread + " deleted successfully",
                            projects[project := rest[IndexFile := Object(index)]])
            case EditFailed(e) =>
              d == Deletion(false, "Error deleting thread " + thread + ": " + e, projects[project := rest]))
    ensures d.ok <==>
      && project in projects && ThreadFile(thread) in projects[project]
      && var rest := projects[project] - {ThreadFile(thread)};
      !(IndexFile in rest && rest[IndexFile].Object? && RemoveThread(rest[IndexFile].fields, thread).EditFailed?)
  {
    if project !in projects then Deletion(false, "Project " + project + " not found", projects)
    else
      var files := projects[project];
      if ThreadFile(thread) !in files then Deletion(false, "Thread " + thread + " not found in project " + project, projects)
      else
        var rest := files - {ThreadFile(thread)};
        if IndexFile !in rest || rest[IndexFile].Corrupt? then
          Deletion(true, "Thread " + thread + " deleted successfully", projects[project := rest])
        else
          match RemoveThread(rest[IndexFile].fields, thread)
          case Edited(index) =>
            Deletion(true, "Thread " + thread + " deleted successfully", projects[project := rest[IndexFile := Object(index)]])
          case EditFailed(e) =>
            Deletion(false, "Error deleting thread " + thread + ": " + e, projects[project := rest])
  }

  /** Deleting a listed thread removes exactly its key from the index's `threads` dict. */
  lemma DeleteUnlistsThread(projects: map<string, map<string, FileContent>>, project: string, thread: string)
    requires project in projects && ThreadFile(thread) in projects[project] && ThreadFile(thread) != IndexFile
    requires IndexFile in projects[project] && projects[project][IndexFile].Object?
    requires "threads" in projects[project][IndexFile].fields
    requires projects[project][IndexFile].fields["threads"].JObj?
    ensures var d := Delete(projects, project, thread);
      var index := projects[project][IndexFile].fields;
      var threads := index["threads"].fields;
      && d.ok
      && d.projects[project][IndexFile] == Object(index["threads" := JObj(threads - {thread})])
      && thread !in (threads - {thread})
      && (forall t :: t in threads && t != thread ==> t in threads - {thread})
  {
    var files := projects[project];
    var rest := files - {ThreadFile(thread)};
    assert rest[IndexFile] == files[IndexFile];
    var index := files[IndexFile].fields;
    assert Get(index, "threads", JObj(map[])) == index["threads"];
    var threads := index["threads"].fields;
    if thread !in threads {
      assert threads - {thread} == threads;
      assert index["threads" := JObj(threads - {thread})] == index;
    }
  }

  // ---------------------------------------------------------------------------
  // list_threads

  /** The summary dict `list_threads` builds for one thread file. */
  datatype Summary = Summary(id: Json, name: Json, created: Json, messageCount: Json)

  /** Matched by `glob("*.json")` and not skipped as the index. */
  predicate IsThreadFileName(name: string)
  {
    |name| >= 5 && name[|name| - 5..] == ".json" && name != IndexFile
  }

  /** `Path.stem` of a `.json` file name (a bare `.json` is its own stem). */
  function Stem(name: string): string
    requires |name| >= 5 && name[|name| - 5..] == ".json"
  {
    if name == ".json" then name else name[..|name| - 5]
  }

  function Summarize(stem: string, meta: map<string, Json>): Summary
  {
    Summary(Get(meta, "id", JStr(stem)), Get(meta, "name", JStr(stem)), Get(meta, "created", JStr("")),
            Get(meta, "message_count", JNum(0)))
  }

  /** The loop of `list_threads`, over the directory entries in the order `glob` yields them. */
  function Summaries(entries: seq<(string, FileContent)>): (r: seq<Summary>)
    ensures |r| <= |entries|
  {
    if |entries| == 0 then [] else SummaryOf(entries[0]) + Summaries(entries[1..])
  }

  /** The summary of one directory entry, if it is a readable thread file. */
  function SummaryOf(entry: (string, FileContent)): (r: seq<Summary>)
    ensures |r| <= 1
  {
    if IsThreadFileName(entry.0) && entry.1.Object? then [Summarize(Stem(entry.0), entry.1.fields)] else []
  }

  /** The listing keeps the directory order of the files it keeps. */
  lemma {:induction false} SummariesAppend(a: seq<(string, FileContent)>, b: seq<(string, FileContent)>)
    ensures Summaries(a + b) == Summaries(a) + Summaries(b)
  {
    if |a| > 0 {
      assert (a + b)[0] == a[0];
      assert (a + b)[1..] == a[1..] + b;
      SummariesAppend(a[1..], b);
      calc {
        Summaries(a + b);
        SummaryOf(a[0]) + Summaries(a[1..] + b);
        SummaryOf(a[0]) + (Summaries(a[1..]) + Summaries(b));
        (SummaryOf(a[0]) + Summaries(a[1..])) + Summaries(b);
      }
    } else {
      assert a + b == b;
    }
  }

  /** The sort key of a summary whose `created` is a string. */
  function Key(s: Summary): string
  {
    if s.created.JStr? then s.created.s else ""
  }

  /** No element's key is greater than an earlier one's. */
  ghost predicate SortedDesc(xs: seq<Summary>)
  {
    forall i, j :: 0 <= i < j < |xs| ==> !LexLess(Key(xs[i]), Key(xs[j]))
  }

  /** Puts `x` before the first element whose key is not greater than its own. */
  function Insert(x: Summary, ys: seq<Summary>): (r: seq<Summary>)
    ensures multiset(r) == multiset([x] + ys)
  {
    if |ys| == 0 || !LexLess(Key(x), Key(ys[0])) then [x] + ys
    else
      assert multiset([x] + ys) == multiset([ys[0]] + ([x] + ys[1..])) by { assert ys == [ys[0]] + ys[1..]; }
      [ys[0]] + Insert(x, ys[1..])
  }

  /** `sorted(threads, key=lambda x: x.get("created", ""), reverse=True)`, by stable insertion. */
  function SortDesc(xs: seq<Summary>): (r: seq<Summary>)
    ensures multiset(r) == multiset(xs)
  {
    if |xs| == 0 then []
    else
      assert xs == [xs[0]] + xs[1..];
      Insert(xs[0], SortDesc(xs[1..]))
  }

  lemma {:induction false} InsertSorted(x: Summary, ys: seq<Summary>)
    requires SortedDesc(ys)
    ensures SortedDesc(Insert(x, ys))
  {
    if |ys| > 0 && LexLess(Key(x), Key(ys[0])) {
      InsertSorted(x, ys[1..]);
      InsertBehind(x, ys);
    } else if |ys| > 0 {
      InsertInFront(x, ys);
    }
  }

  /** `x` passes the head: the head stays first and the rest is the sorted insertion. */
  lemma InsertBehind(x: Summary, ys: seq<Summary>)
    requires SortedDesc(ys) && |ys| > 0 && LexLess(Key(x), Key(ys[0]))
    requires SortedDesc(Insert(x, ys[1..]))
    ensures SortedDesc(Insert(x, ys))
  {
    var tail := Insert(x, ys[1..]);
    forall e | e in tail ensures !LexLess(Key(ys[0]), Key(e)) {
      assert e in multiset(tail);
      HeadDominates(x, ys, e);
    }
    ConsSorted(ys[0], tail);
  }

  /** A head not below any element of a sorted tail keeps the whole sorted. */
  lemma ConsSorted(h: Summary, t: seq<Summary>)
    requires SortedDesc(t)
    requires forall e :: e in t ==> !LexLess(Key(h), Key(e))
    ensures SortedDesc([h] + t)
  {
    var r := [h] + t;
    forall i, j | 0 <= i < j < |r| ensures !LexLess(Key(r[i]), Key(r[j])) {
      assert r[j] == t[j - 1];
      if i > 0 {
        assert r[i] == t[i - 1];
      } else {
        assert t[j - 1] in t;
      }
    }
  }

  /** The head of a sorted sequence is not below `x` (which is below it) nor below the rest. */
  lemma HeadDominates(x: Summary, ys: seq<Summary>, e: Summary)
    requires SortedDesc(ys) && |ys| > 0 && LexLess(Key(x), Key(ys[0]))
    requires e in multiset([x] + ys[1..])
    ensures !LexLess(Key(ys[0]), Key(e))
  {
    if e == x {
      LexLessAsymmetric(Key(x), Key(ys[0]));
    } else {
      assert e in ys[1..];
      var k :| 0 <= k < |ys[1..]| && ys[1..][k] == e;
      assert ys[k + 1] == e;
    }
  }

  /** `x` stops at the front: its key is not below the head's, hence not below any. */
  lemma InsertInFront(x: Summary, ys: seq<Summary>)
    requires SortedDesc(ys) && |ys| > 0 && !LexLess(Key(x), Key(ys[0]))
    ensures SortedDesc(Insert(x, ys))
  {
    assert Insert(x, ys) == [x] + ys;
    forall e | e in ys ensures !LexLess(Key(x), Key(e)) {
      var k :| 0 <= k < |ys| && ys[k] == e;
      NotBelowHead(x, ys, k);
    }
    ConsSorted(x, ys);
  }

  lemma NotBelowHead(x: Summary, ys: seq<Summary>, k: nat)
    requires SortedDesc(ys) && k < |ys| && !LexLess(Key(x), Key(ys[0]))
    ensures !LexLess(Key(x), Key(ys[k]))
  {
    if k > 0 {
      assert !LexLess(Key(ys[0]), Key(ys[k]));
      LexLessTotal(Key(ys[0]), Key(ys[k]));
      LexLessTotal(Key(x), Key(ys[0]));
      if LexLess(Key(x), Key(ys[k])) && LexLess(Key(ys[k]), Key(ys[0])) {
        LexLessTransitive(Key(x), Key(ys[k]), Key(ys[0]));
      }
    }
  }

  /** The sort orders by `created`, newest (greatest) first. */
  lemma {:induction false} SortDescSorted(xs: seq<Summary>)
    ensures SortedDesc(SortDesc(xs))
  {
    if |xs| > 0 {
      SortDescSorted(xs[1..]);
      InsertSorted(xs[0], SortDesc(xs[1..]));
    }
  }

  /** The summaries with key `k`, in order. */
  function WithKey(xs: seq<Summary>, k: string): seq<Summary>
  {
    if |xs| == 0 then [] else (if Key(xs[0]) == k then [xs[0]] else []) + WithKey(xs[1..], k)
  }

  lemma {:induction false} WithKeyAppend(a: seq<Summary>, b: seq<Summary>, k: string)
    ensures WithKey(a + b, k) == WithKey(a, k) + WithKey(b, k)
  {
    if |a| > 0 {
      assert (a + b)[0] == a[0];
      assert (a + b)[1..] == a[1..] + b;
      WithKeyAppend(a[1..], b, k);
    } else {
      assert a + b == b;
    }
  }

  /** Two elements with different keys can change places without changing any key's subsequence. */
  lemma SwapStable(x: Summary, y: Summary, rest: seq<Summary>, tail: seq<Summary>, k: string)
    requires Key(x) != Key(y)
    requires WithKey(tail, k) == WithKey([x] + rest, k)
    ensures WithKey([y] + tail, k) == WithKey([x] + ([y] + rest), k)
  {
    var wx, wy, wr := WithKey([x], k), WithKey([y], k), WithKey(rest, k);
    WithKeyAppend([y], tail, k);
    WithKeyAppend([x], rest, k);
    WithKeyAppend([y], rest, k);
    WithKeyAppend([x], [y] + rest, k);
    WithKeySingle(x, k);
    WithKeySingle(y, k);
    assert WithKey([y] + tail, k) == wy + (wx + wr);
    assert WithKey([x] + ([y] + rest), k) == wx + (wy + wr);
    if Key(x) == k {
      assert wy == [];
    } else {
      assert wx == [];
    }
  }

  lemma WithKeySingle(x: Summary, k: string)
    ensures WithKey([x], k) == if Key(x) == k then [x] else []
  {
    assert [x][1..] == [];
  }

  lemma {:induction false} InsertStable(x: Summary, ys: seq<Summary>, k: string)
    ensures WithKey(Insert(x, ys), k) == WithKey([x] + ys, k)
  {
    if |ys| > 0 && LexLess(Key(x), Key(ys[0])) {
      InsertStable(x, ys[1..], k);
      LexLessIrreflexive(Key(x));
      SwapStable(x, ys[0], ys[1..], Insert(x, ys[1..]), k);
      assert ys == [ys[0]] + ys[1..];
    }
  }

  /** The sort is stable: threads with equal `created` keep their directory order. */
  lemma {:induction false} SortDescStable(xs: seq<Summary>, k: string)
    ensures WithKey(SortDesc(xs), k) == WithKey(xs, k)
  {
    if |xs| > 0 {
      SortDescStable(xs[1..], k);
      InsertStable(xs[0], SortDesc(xs[1..]), k);
      var s := SortDesc(xs[1..]);
      assert ([xs[0]] + s)[1..] == s;
    }
  }

  datatype Listing = Listed(threads: seq<Summary>) | SortError

  /**
   * `list_threads`, with `dir` the project's `.threads` entries (`None` when the
   * project does not exist). Two or more summaries whose `created` values are
   * not all strings make `sorted` raise.
   */
  function ListThreads(dir: Option<seq<(string, FileContent)>>): (l: Listing)
    ensures dir.None? ==> l == Listed([])
    ensures l.SortError? <==> dir.Some? && |Summaries(dir.value)| >= 2
                              && exists i :: 0 <= i < |Summaries(dir.value)| && !Summaries(dir.value)[i].created.JStr?
    ensures l.Listed? && dir.Some? ==>
      && multiset(l.threads) == multiset(Summaries(dir.value))
      && SortedDesc(l.threads)
      && forall k :: WithKey(l.threads, k) == WithKey(Summaries(dir.value), k)
  {
    match dir
    case None => Listed([])
    case Some(entries) =>
      var xs := Summaries(entries);
      if |xs| >= 2 && exists i :: 0 <= i < |xs| && !xs[i].created.JStr? then SortError
      else
        SortDescSorted(xs);
        forall k ensures WithKey(SortDesc(xs), k) == WithKey(xs, k) { SortDescStable(xs, k); }
        Listed(SortDesc(xs))
  }

  // ---------------------------------------------------------------------------
  // The projects directory

  /** The projects directory: each project's `.threads` files by name. */
  class ProjectsDir {
    var projects: map<string, map<string, FileContent>>

    constructor (initial: map<string, map<string, FileContent>>)
      ensures projects == initial
    {
      projects := initial;
    }

    /** `create_project`: sanitise, de-conflict against existing names, write the index. */
    method CreateProject(name: string, isAlnum: char -> bool, uuid: string, now: string) returns (sanitized: string)
      modifies this
      ensures Resolved(Sanitize(name, isAlnum, uuid), old(projects).Keys, sanitized)
      ensures sanitized !in old(projects)
      ensures projects == old(projects)[sanitized := map[IndexFile := Object(NewIndex(name, sanitized, now))]]
    {
      var base := Sanitize(name, isAlnum, uuid);
      sanitized := ResolveName(base, projects.Keys);
      projects := projects[sanitized := map[IndexFile := Object(NewIndex(name, sanitized, now))]];
    }

    /** `send_message`: the thread file is rewritten only after a successful exchange. */
    method SendMessage(project: string, thread: string, message: Json, exe: Option<string>,
                       run: seq<string> -> ProcessResult, decode: string -> Option<Json>, now: string)
      returns (r: SendResult)
      modifies this
      ensures var s := Send(old(projects), project, thread, message, exe, run, decode, now);
        && r == s.0
        && (r.NotSent? ==> projects == old(projects))
        && (r.Sent? ==>
              project in old(projects)
              && projects == old(projects)[project := old(projects)[project][ThreadFile(thread) := Object(s.1.value)]])
    {
      var s := Send(projects, project, thread, message, exe, run, decode, now);
      r := s.0;
      if s.1.Some? {
        projects := projects[project := projects[project][ThreadFile(thread) := Object(s.1.value)]];
      }
    }

    /** `delete_thread`. */
    method DeleteThread(project: string, thread: string) returns (ok: bool, message: string)
      modifies this
      ensures Delete(old(projects), project, thread) == Deletion(ok, message, projects)
    {
      var d := Delete(projects, project, thread);
      ok, message := d.ok, d.message;
      projects := d.projects;
    }
  }
}
