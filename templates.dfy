/**
 * `src/template_manager.py`: the template variables of a new project, the
 * placeholder replacement in the three template files, the custom
 * instructions appended to `CLAUDE.md`, and the deep merge of
 * `.claude/settings.json`.
 *
 * A project directory is modelled as a map from relative path to file text;
 * `json.loads` and `json.dumps` are parameters.
 */
module Templates {

  import opened Common
  import opened Strings
  import opened JsonValue

  // ---------------------------------------------------------------------------
  // Placeholder replacement

  const ReadmeFile := "README.md"
  const SettingsFile := ".claude/settings.json"
  const InstructionsFile := "CLAUDE.md"

  /** The files whose placeholders are replaced, in the order they are visited. */
  const TemplateFiles: seq<string> := [ReadmeFile, SettingsFile, InstructionsFile]

  /** `for var, value in variables.items(): content = content.replace(var, value)`. */
  function Substitute(content: string, vars: seq<(string, string)>): string
    decreases |vars|
  {
    if |vars| == 0 then content else Substitute(ReplaceAll(content, vars[0].0, vars[0].1), vars[1..])
  }

  /**
   * What one `replace` does: the text splits into pieces free of the
   * placeholder, joined by it before and by the value after.
   */
  lemma ReplaceEveryOccurrence(s: string, pat: string, rep: string)
    requires |pat| > 0
    ensures var pieces := Split(s, pat);
      && s == Join(pieces, pat)
      && ReplaceAll(s, pat, rep) == Join(pieces, rep)
      && forall k :: 0 <= k < |pieces| ==> !Contains(pieces[k], pat)
  {
    JoinSplit(s, pat);
    SplitPiecesFree(s, pat);
  }

  /** A text in which no placeholder occurs is left as it is. */
  lemma {:induction false} SubstituteAbsent(content: string, vars: seq<(string, string)>)
    requires forall i :: 0 <= i < |vars| ==> |vars[i].0| > 0 && !Contains(content, vars[i].0)
    ensures Substitute(content, vars) == content
  {
    if |vars| > 0 {
      ReplaceAbsent(content, vars[0].0, vars[0].1);
      SubstituteAbsent(content, vars[1..]);
    }
  }

  /** Substituting a sequence of variables is substituting a prefix and then the rest. */
  lemma {:induction false} SubstituteSplit(content: string, vars: seq<(string, string)>, i: nat)
    requires i <= |vars|
    ensures Substitute(content, vars) == Substitute(Substitute(content, vars[..i]), vars[i..])
    decreases |vars|
  {
    if i > 0 {
      assert vars[..i][0] == vars[0];
      assert vars[..i][1..] == vars[1..][..i - 1];
      assert vars[i..] == vars[1..][i - 1..];
      SubstituteSplit(ReplaceAll(content, vars[0].0, vars[0].1), vars[1..], i - 1);
    } else {
      assert vars[i..] == vars;
    }
  }

  /** The inner loop of `_replace_template_variables`, reassigning `content`. */
  method ApplyVariables(content: string, vars: seq<(string, string)>) returns (r: string)
    ensures r == Substitute(content, vars)
  {
    r := content;
    for i := 0 to |vars|
      invariant r == Substitute(content, vars[..i])
    {
      assert vars[..i + 1] == vars[..i] + [vars[i]];
      SubstituteSplit(content, vars[..i + 1], i);
      assert vars[..i + 1][..i] == vars[..i];
      assert vars[..i + 1][i..] == [vars[i]];
      r := ReplaceAll(r, vars[i].0, vars[i].1);
    }
    assert vars[..|vars|] == vars;
  }

  /** The project files after `_replace_template_variables`. */
  function ReplaceInFiles(files: map<string, string>, vars: seq<(string, string)>): (r: map<string, string>)
    ensures r.Keys == files.Keys
    ensures forall f :: f in files && f in TemplateFiles ==> r[f] == Substitute(files[f], vars)
    ensures forall f :: f in files && f !in TemplateFiles ==> r[f] == files[f]
  {
    map f | f in files :: if f in TemplateFiles then Substitute(files[f], vars) else files[f]
  }

  /**
   * `template_vars` of `initialize_claude_project`, in dict order; an absent
   * or empty description falls back to the default text.
   */
  function TemplateVariables(name: string, description: Option<string>, now: string): (vars: seq<(string, string)>)
    ensures |vars| == 3
    ensures vars[0] == ("{{PROJECT_NAME}}", name) && vars[2] == ("{{CREATION_DATE}}", now)
    ensures vars[1].0 == "{{PROJECT_DESCRIPTION}}"
    ensures description.None? || description.value == "" ==> vars[1].1 == "A project created with Claude Code"
    ensures description.Some? && description.value != "" ==> vars[1].1 == description.value
  {
    var desc := if description.Some? && description.value != "" then description.value
                else "A project created with Claude Code";
    [("{{PROJECT_NAME}}", name), ("{{PROJECT_DESCRIPTION}}", desc), ("{{CREATION_DATE}}", now)]
  }

  // ---------------------------------------------------------------------------
  // Custom instructions

  /** `existing_content + f"\n\n## Custom Instructions\n\n{instructions}\n"`. */
  function WithInstructions(existing: string, instructions: string): (r: string)
    ensures |r| == |existing| + |instructions| + 27
    ensures r[..|existing|] == existing
    ensures r[|existing|..] == "\n\n## Custom Instructions\n\n" + instructions + "\n"
  {
    existing + "\n\n## Custom Instructions\n\n" + instructions + "\n"
  }

  /** Appending twice keeps both sections, in order, after the original text. */
  lemma InstructionsAccumulate(existing: string, first: string, second: string)
    ensures var twice := WithInstructions(WithInstructions(existing, first), second);
      && twice[..|existing|] == existing
      && twice[|existing|..] == "\n\n## Custom Instructions\n\n" + first + "\n"
                                + "\n\n## Custom Instructions\n\n" + second + "\n"
  {
    var once := WithInstructions(existing, first);
    var twice := WithInstructions(once, second);
    assert twice[..|once|] == once;
    assert twice[..|existing|] == once[..|existing|];
  }

  // ---------------------------------------------------------------------------
  // Settings: deep_update

  /**
   * The dict `deep_update(base, update)` leaves in `base`: a key of the update
   * recurses where both sides hold dicts and overwrites otherwise; other keys of
   * the base stay.
   */
  function Merge(base: map<string, Json>, update: map<string, Json>): (r: map<string, Json>)
    ensures r.Keys == base.Keys + update.Keys
    decreases JObj(update)
  {
    map k | k in base.Keys + update.Keys ::
      if k !in update then base[k]
      else if k in base && base[k].JObj? && update[k].JObj? then JObj(Merge(base[k].fields, update[k].fields))
      else update[k]
  }

  /** How each key of the merge is decided. */
  lemma MergeAt(base: map<string, Json>, update: map<string, Json>, k: string)
    ensures k in base && k !in update ==> Merge(base, update)[k] == base[k]
    ensures k in update && k in base && base[k].JObj? && update[k].JObj? ==>
      Merge(base, update)[k] == JObj(Merge(base[k].fields, update[k].fields))
    ensures k in update && !(k in base && base[k].JObj? && update[k].JObj?) ==>
      Merge(base, update)[k] == update[k]
  {
  }

  /** The value at a key path, if every step but the last is a dict. */
  function Lookup(v: Json, path: seq<string>): Option<Json>
  {
    if |path| == 0 then Some(v)
    else if v.JObj? && path[0] in v.fields then Lookup(v.fields[path[0]], path[1..])
    else None
  }

  /** Every non-dict leaf of the update is found at the same key path after the merge. */
  lemma {:induction false} MergeKeepsLeaves(base: map<string, Json>, update: map<string, Json>, path: seq<string>, v: Json)
    requires Lookup(JObj(update), path) == Some(v) && !v.JObj?
    ensures Lookup(JObj(Merge(base, update)), path) == Some(v)
    decreases |path|
  {
    var k := path[0];
    var u := update[k];
    var m := Merge(base, update);
    assert k in m;
    if k in base && base[k].JObj? && u.JObj? {
      assert m[k] == JObj(Merge(base[k].fields, u.fields));
      MergeKeepsLeaves(base[k].fields, u.fields, path[1..], v);
    } else {
      assert m[k] == u;
    }
  }

  /** The update stops naming keys somewhere along `path`, before its end. */
  predicate Untouched(update: map<string, Json>, path: seq<string>)
    decreases |path|
  {
    |path| > 0
    && (path[0] !in update || (update[path[0]].JObj? && Untouched(update[path[0]].fields, path[1..])))
  }

  /** A key path the update does not reach keeps its value. */
  lemma {:induction false} MergeKeepsUntouched(base: map<string, Json>, update: map<string, Json>, path: seq<string>, v: Json)
    requires Untouched(update, path) && Lookup(JObj(base), path) == Some(v)
    ensures Lookup(JObj(Merge(base, update)), path) == Some(v)
    decreases |path|
  {
    var k := path[0];
    var m := Merge(base, update);
    assert k in base;
    if k in update {
      assert |path| > 1;
      assert base[k].JObj?;
      assert m[k] == JObj(Merge(base[k].fields, update[k].fields));
      MergeKeepsUntouched(base[k].fields, update[k].fields, path[1..], v);
    } else {
      assert m[k] == base[k];
    }
  }

  /** Applying the same update a second time changes nothing more. */
  lemma {:induction false} MergeIdempotent(base: map<string, Json>, update: map<string, Json>)
    ensures Merge(Merge(base, update), update) == Merge(base, update)
    decreases JObj(update)
  {
    var once := Merge(base, update);
    var twice := Merge(once, update);
    forall k | k in twice ensures twice[k] == once[k] {
      if k in update {
        if once[k].JObj? && update[k].JObj? {
          if k in base && base[k].JObj? {
            MergeIdempotent(base[k].fields, update[k].fields);
          } else {
            assert once[k] == update[k];
            MergeSelf(update[k].fields);
          }
        }
      }
    }
  }

  /** Merging a dict into itself gives it back. */
  lemma {:induction false} MergeSelf(m: map<string, Json>)
    ensures Merge(m, m) == m
    decreases JObj(m)
  {
    forall k | k in m ensures Merge(m, m)[k] == m[k] {
      if m[k].JObj? {
        MergeSelf(m[k].fields);
      }
    }
  }

  /** The state of `deep_update`'s loop with the keys `todo` still to visit. */
  ghost predicate Partial(base: map<string, Json>, update: map<string, Json>, todo: set<string>, r: map<string, Json>)
  {
    && todo <= update.Keys
    && r.Keys == base.Keys + (update.Keys - todo)
    && forall k :: k in r ==> r[k] == (if k in update && k !in todo then Merge(base, update)[k] else base[k])
  }

  lemma PartialStep(base: map<string, Json>, update: map<string, Json>, todo: set<string>, r: map<string, Json>,
                    k: string, value: Json)
    requires Partial(base, update, todo, r) && k in todo && value == Merge(base, update)[k]
    ensures Partial(base, update, todo - {k}, r[k := value])
  {
  }

  lemma PartialDone(base: map<string, Json>, update: map<string, Json>, r: map<string, Json>)
    requires Partial(base, update, {}, r)
    ensures r == Merge(base, update)
  {
  }

  /** The key chosen next is still as in the base. */
  lemma PartialUnvisited(base: map<string, Json>, update: map<string, Json>, todo: set<string>, r: map<string, Json>, k: string)
    requires Partial(base, update, todo, r) && k in todo
    ensures k in r <==> k in base
    ensures k in r ==> r[k] == base[k]
  {
  }

  /** `deep_update`: a loop over the update's keys, recursing into nested dicts. */
  method DeepUpdate(base: map<string, Json>, update: map<string, Json>) returns (r: map<string, Json>)
    ensures r == Merge(base, update)
    decreases JObj(update)
  {
    r := base;
    var todo := update.Keys;
    while todo != {}
      invariant Partial(base, update, todo, r)
      decreases |todo|
    {
      var k :| k in todo;
      var value := update[k];
      MergeAt(base, update, k);
      PartialUnvisited(base, update, todo, r, k);
      var next: Json;
      if k in r && r[k].JObj? && value.JObj? {
        var sub := DeepUpdate(r[k].fields, value.fields);
        next := JObj(sub);
      } else {
        next := value;
      }
      PartialStep(base, update, todo, r, k, next);
      r := r[k := next];
      todo := todo - {k};
    }
    PartialDone(base, update, r);
  }

  /**
   * The new text of `.claude/settings.json`, or `None` when
   * `update_project_settings` returns False (file missing, invalid JSON, or a
   * non-dict top level that a non-empty update cannot be written into).
   */
  function SettingsAfter(files: map<string, string>, settings: map<string, Json>,
                         decode: string -> Option<Json>, encode: Json -> string): (r: Option<string>)
    ensures SettingsFile !in files ==> r.None?
    ensures SettingsFile in files && decode(files[SettingsFile]).Some? && decode(files[SettingsFile]).value.JObj? ==>
      r == Some(encode(JObj(Merge(decode(files[SettingsFile]).value.fields, settings))))
    ensures r.Some? ==> SettingsFile in files && decode(files[SettingsFile]).Some?
    ensures SettingsFile in files && decode(files[SettingsFile]).Some? && !decode(files[SettingsFile]).value.JObj? ==>
      (r.Some? <==> |settings| == 0)
  {
    if SettingsFile !in files then None
    else match decode(files[SettingsFile])
      case None => None
      case Some(v) =>
        if v.JObj? then Some(encode(JObj(Merge(v.fields, settings))))
        else if |settings| == 0 then Some(encode(v))
        else None
  }

  // ---------------------------------------------------------------------------
  // A project directory

  /** The text files of one project directory, by relative path. */
  class ProjectFiles {
    var files: map<string, string>

    constructor (initial: map<string, string>)
      ensures files == initial
    {
      files := initial;
    }

    /** `_replace_template_variables`: the three template files, where they exist. */
    method ReplaceTemplateVariables(vars: seq<(string, string)>) returns (ok: bool)
      modifies this
      ensures ok
      ensures files == ReplaceInFiles(old(files), vars)
    {
      ghost var before := files;
      for i := 0 to |TemplateFiles|
        invariant files.Keys == before.Keys
        invariant forall f :: f in files && f in TemplateFiles[..i] ==> files[f] == Substitute(before[f], vars)
        invariant forall f :: f in files && f !in TemplateFiles[..i] ==> files[f] == before[f]
      {
        var path := TemplateFiles[i];
        assert TemplateFiles[..i + 1] == TemplateFiles[..i] + [path];
        if path in files {
          var content := ApplyVariables(files[path], vars);
          files := files[path := content];
        }
      }
      assert TemplateFiles[..|TemplateFiles|] == TemplateFiles;
      ok := true;
    }

    /**
     * `initialize_claude_project` after the directory exists: copy the
     * template files (`None` when the template directory is missing), then
     * replace the variables.
     */
    method InitializeClaudeProject(templates: Option<map<string, string>>, name: string,
                                   description: Option<string>, now: string) returns (ok: bool)
      modifies this
      ensures ok <==> templates.Some?
      ensures ok ==> files == ReplaceInFiles(old(files) + templates.value, TemplateVariables(name, description, now))
      ensures !ok ==> files == old(files)
    {
      if templates.None? {
        return false;
      }
      files := files + templates.value;
      ok := ReplaceTemplateVariables(TemplateVariables(name, description, now));
    }

    /** `add_custom_instructions`. */
    method AddCustomInstructions(instructions: string) returns (ok: bool)
      modifies this
      ensures ok <==> InstructionsFile in old(files)
      ensures ok ==> files == old(files)[InstructionsFile := WithInstructions(old(files)[InstructionsFile], instructions)]
      ensures !ok ==> files == old(files)
    {
      if InstructionsFile !in files {
        return false;
      }
      files := files[InstructionsFile := WithInstructions(files[InstructionsFile], instructions)];
      ok := true;
    }

    /** `update_project_settings`: read, deep-merge, write back. */
    method UpdateProjectSettings(settings: map<string, Json>, decode: string -> Option<Json>, encode: Json -> string)
      returns (ok: bool)
      modifies this
      ensures ok <==> SettingsAfter(old(files), settings, decode, encode).Some?
      ensures ok ==> files == old(files)[SettingsFile := SettingsAfter(old(files), settings, decode, encode).value]
      ensures !ok ==> files == old(files)
    {
      if SettingsFile !in files {
        return false;
      }
      var existing := decode(files[SettingsFile]);
      if existing.None? {
        return false;
      }
      var merged: Json;
      if existing.value.JObj? {
        var m := DeepUpdate(existing.value.fields, settings);
        merged := JObj(m);
      } else if |settings| == 0 {
        merged := existing.value;
      } else {
        return false;
      }
      files := files[SettingsFile := encode(merged)];
      ok := true;
    }
  }
}
