/**
 * `minerva.tools.runplan_env`: the shell text `minerva-run` evaluates before
 * running one unit of a loaded run plan.  Each setting of the plan becomes an
 * `apply_if_unset NAME VALUE` line (the shell helper keeps a value already in
 * the environment), followed by `export` lines naming the selected actions,
 * mode and unit.
 */
module RunPlanEnv {
  import opened Wrappers
  import opened Seqs
  import opened Text
  import opened Assoc
  import opened Doc
  import opened RunPlan

  // ---------------------------------------------------------------------
  // sanitize_key

  predicate NotAlnum(c: char) { !IsAlnumAscii(c) }

  predicate IsUnderscore(c: char) { c == '_' }

  /** No two `_` side by side. */
  predicate NoDoubleUnderscore(s: string) {
    forall k :: 0 <= k < |s| - 1 ==> !(IsUnderscore(s[k]) && IsUnderscore(s[k + 1]))
  }

  /** Only ASCII letters, digits and `_`, never two `_` in a row. */
  predicate IsCollapsed(s: string) {
    (forall k :: 0 <= k < |s| ==> IsAlnumAscii(s[k]) || s[k] == '_') && NoDoubleUnderscore(s)
  }

  /**
   * What `sanitize_key` returns: upper-case ASCII letters, digits and `_`,
   * no `_` at either end and never two in a row.
   */
  predicate IsEnvName(s: string) {
    && (forall k :: 0 <= k < |s| ==> IsUpperAscii(s[k]) || IsDigit(s[k]) || s[k] == '_')
    && NoDoubleUnderscore(s)
    && EndsKept(s, IsUnderscore)
  }

  /** `re.sub(r"[^A-Za-z0-9]+", "_", s)`: every maximal run of other characters becomes one `_`. */
  function CollapseRuns(s: string): (r: string)
    ensures IsCollapsed(r)
    ensures r == [] <==> s == []
    ensures r != [] ==> r[0] == if IsAlnumAscii(s[0]) then s[0] else '_'
    decreases |s|
  {
    if s == [] then []
    else if IsAlnumAscii(s[0]) then [s[0]] + CollapseRuns(s[1..])
    else
      var rest := TrimLeft(s, NotAlnum);
      assert rest != [] ==> IsAlnumAscii(rest[0]);
      "_" + CollapseRuns(rest)
  }

  /** `sanitize_key(value)`: runs of other characters become `_`, then edge `_` go, then upper case. */
  function SanitizeKey(value: string): string {
    Upper(Trim(CollapseRuns(value), IsUnderscore))
  }

  lemma CollapsedTail(s: string)
    requires s != [] && IsCollapsed(s)
    ensures IsCollapsed(s[1..]) && IsCollapsed(s[..|s| - 1])
  {
    assert forall k :: 0 <= k < |s| - 1 ==> s[1..][k] == s[k + 1];
  }

  /** Stripping `_` from the ends of a collapsed string leaves it collapsed. */
  lemma {:induction false} TrimCollapsed(s: string)
    requires IsCollapsed(s)
    ensures IsCollapsed(Trim(s, IsUnderscore))
    decreases |s|
  {
    if s != [] && IsUnderscore(s[0]) {
      CollapsedTail(s);
      TrimCollapsed(s[1..]);
    } else if s != [] && IsUnderscore(s[|s| - 1]) {
      CollapsedTail(s);
      TrimCollapsed(s[..|s| - 1]);
    }
  }

  /** Upper-casing a collapsed string whose ends are not `_` gives an environment name. */
  lemma UpperCollapsed(s: string)
    requires IsCollapsed(s) && EndsKept(s, IsUnderscore)
    ensures IsEnvName(Upper(s))
  {
    var u := Upper(s);
    assert forall k :: 0 <= k < |s| ==> (u[k] == '_' <==> s[k] == '_');
  }

  /** The result uses only `A-Z`, `0-9` and `_`, never starts or ends with `_`, and never holds `__`. */
  lemma SanitizeKeyShape(value: string)
    ensures IsEnvName(SanitizeKey(value))
  {
    TrimCollapsed(CollapseRuns(value));
    UpperCollapsed(Trim(CollapseRuns(value), IsUnderscore));
  }

  /** A collapsed string is its own collapse: each `_` is a run of one. */
  lemma {:induction false} CollapseRunsOfCollapsed(s: string)
    requires IsCollapsed(s)
    ensures CollapseRuns(s) == s
    decreases |s|
  {
    if s != [] {
      var tail := s[1..];
      CollapsedTail(s);
      CollapseRunsOfCollapsed(tail);
      if !IsAlnumAscii(s[0]) {
        SingleUnderscore(s);
      }
      assert s == [s[0]] + tail;
    }
  }

  /** In a collapsed string an `_` is followed by a letter, a digit or nothing, so it is a run of one. */
  lemma SingleUnderscore(s: string)
    requires s != [] && !IsAlnumAscii(s[0]) && IsCollapsed(s)
    ensures s[0] == '_' && TrimLeft(s, NotAlnum) == s[1..]
  {
    var tail := s[1..];
    assert s[0] == '_';
    assert NotAlnum(s[0]);
    assert TrimLeft(s, NotAlnum) == TrimLeft(tail, NotAlnum);
    if tail != [] {
      assert !(IsUnderscore(s[0]) && IsUnderscore(s[1]));
      assert !NotAlnum(tail[0]);
    }
  }

  /** An environment name is left exactly as it is. */
  lemma SanitizeKeyOfEnvName(s: string)
    requires IsEnvName(s)
    ensures SanitizeKey(s) == s
  {
    assert IsCollapsed(s);
    CollapseRunsOfCollapsed(s);
    TrimOfKept(s, IsUnderscore);
  }

  /** Sanitising twice is sanitising once. */
  lemma SanitizeKeyIdempotent(value: string)
    ensures SanitizeKey(SanitizeKey(value)) == SanitizeKey(value)
  {
    SanitizeKeyShape(value);
    SanitizeKeyOfEnvName(SanitizeKey(value));
  }

  /** The ASCII letters and digits of `s`, in order. */
  function Alnums(s: string): (r: string)
    ensures |r| <= |s|
  {
    if s == [] then [] else (if IsAlnumAscii(s[0]) then [s[0]] else []) + Alnums(s[1..])
  }

  lemma {:induction false} AlnumsConcat(a: string, b: string)
    ensures Alnums(a + b) == Alnums(a) + Alnums(b)
  {
    if a != [] {
      var head: string := if IsAlnumAscii(a[0]) then [a[0]] else [];
      assert (a + b)[0] == a[0] && (a + b)[1..] == a[1..] + b;
      assert Alnums(a + b) == head + Alnums(a[1..] + b);
      AlnumsConcat(a[1..], b);
      ConcatAssoc(head, Alnums(a[1..]), Alnums(b));
    } else {
      assert a + b == b;
    }
  }

  lemma {:induction false} AlnumsTrimLeft(s: string)
    ensures Alnums(TrimLeft(s, NotAlnum)) == Alnums(s)
  {
    if s != [] && NotAlnum(s[0]) {
      AlnumsTrimLeft(s[1..]);
    }
  }

  lemma {:induction false} AlnumsCollapse(s: string)
    ensures Alnums(CollapseRuns(s)) == Alnums(s)
    decreases |s|
  {
    if s != [] {
      if IsAlnumAscii(s[0]) {
        AlnumsCollapse(s[1..]);
        assert ([s[0]] + CollapseRuns(s[1..]))[1..] == CollapseRuns(s[1..]);
      } else {
        var rest := TrimLeft(s, NotAlnum);
        AlnumsCollapse(rest);
        AlnumsTrimLeft(s);
        assert ("_" + CollapseRuns(rest))[1..] == CollapseRuns(rest);
      }
    }
  }

  lemma {:induction false} AlnumsTrim(s: string)
    ensures Alnums(Trim(s, IsUnderscore)) == Alnums(s)
    decreases |s|
  {
    if s != [] && IsUnderscore(s[0]) {
      AlnumsTrim(s[1..]);
    } else if s != [] && IsUnderscore(s[|s| - 1]) {
      var init := s[..|s| - 1];
      AlnumsTrim(init);
      assert s == init + [s[|s| - 1]];
      AlnumsConcat(init, [s[|s| - 1]]);
      assert Alnums([s[|s| - 1]]) == [];
    }
  }

  lemma {:induction false} AlnumsUpper(s: string)
    ensures Alnums(Upper(s)) == Upper(Alnums(s))
  {
    if s != [] {
      AlnumsUpper(s[1..]);
      assert Upper(s)[1..] == Upper(s[1..]);
      var head := if IsAlnumAscii(s[0]) then [s[0]] else [];
      assert Upper(head + Alnums(s[1..])) == Upper(head) + Upper(Alnums(s[1..]));
    }
  }

  /** The letters and digits of the key all survive, in order, upper-cased; nothing else but `_` is added. */
  lemma SanitizeKeyKeepsAlnums(value: string)
    ensures Alnums(SanitizeKey(value)) == Upper(Alnums(value))
  {
    var c := CollapseRuns(value);
    AlnumsCollapse(value);
    AlnumsTrim(c);
    AlnumsUpper(Trim(c, IsUnderscore));
  }

  // ---------------------------------------------------------------------
  // Tables and their merges

  /** `_table(cfg, key)`: the table under `key`, or `{}` when it is missing or not a table. */
  function TableOf(cfg: Dict<string, Value>, key: string): (r: Dict<string, Value>)
    ensures Get(cfg, key).Some? && Get(cfg, key).value.Table? ==> r == Get(cfg, key).value.entries
    ensures !(Get(cfg, key).Some? && Get(cfg, key).value.Table?) ==> r == []
  {
    EntriesOf(Get(cfg, key))
  }

  /** `_merge_dicts(a, b)`: a copy of `a`, updated entry by entry from `b`. */
  method MergeDicts(a: Dict<string, Value>, b: Dict<string, Value>) returns (result: Dict<string, Value>)
    ensures result == Update(a, b)
  {
    result := a;
    for i := 0 to |b|
      invariant Update(result, b[i..]) == Update(a, b)
    {
      assert b[i..][1..] == b[i + 1..];
      result := Put(result, b[i].0, b[i].1);
    }
    assert b[|b|..] == [];
  }

  /** The `args` of an action entry, trimmed, blanks dropped; none unless it is a table holding a list. */
  function EntryArgs(entry: Option<Value>): (r: seq<string>)
    ensures AllClean(r)
  {
    if entry.Some? && entry.value.Table? then StringListOf(Get(entry.value.entries, "args")) else []
  }

  /** The merged entry `{"args": args}`. */
  function ArgsEntry(args: seq<string>): Value {
    Table([("args", List(StrValues(args)))])
  }

  /** Reading the arguments of a merged entry gives them back. */
  lemma EntryArgsOfArgsEntry(args: seq<string>)
    requires AllClean(args)
    ensures EntryArgs(Some(ArgsEntry(args))) == args
  {
    CleanStringsOfClean(args);
  }

  /** One pass of `_merge_action_tables`' loop. */
  function ActionTableStep(acc: Dict<string, Value>, e: (string, Value)): Dict<string, Value> {
    var key := Strip(e.0);
    if key == [] then acc
    else Put(acc, key, ArgsEntry(EntryArgs(Get(acc, key)) + EntryArgs(Some(e.1))))
  }

  /** What `_merge_action_tables(a, b)` builds: `b`'s entries applied in order to a copy of `a`. */
  function ActionTables(a: Dict<string, Value>, b: Dict<string, Value>): Dict<string, Value>
    decreases |b|
  {
    if b == [] then a else ActionTableStep(ActionTables(a, b[..|b| - 1]), b[|b| - 1])
  }

  lemma ActionTablesSnoc(a: Dict<string, Value>, b: Dict<string, Value>, i: nat)
    requires i < |b|
    ensures ActionTables(a, b[..i + 1]) == ActionTableStep(ActionTables(a, b[..i]), b[i])
  {
    assert b[..i + 1][..i] == b[..i];
  }

  /** `_merge_action_tables`, updating a copy of the global table entry by entry. */
  method MergeActionTables(a: Dict<string, Value>, b: Dict<string, Value>) returns (mergedTable: Dict<string, Value>)
    ensures mergedTable == ActionTables(a, b)
  {
    mergedTable := a;
    for i := 0 to |b|
      invariant mergedTable == ActionTables(a, b[..i])
    {
      var (key, value) := b[i];
      ActionTablesSnoc(a, b, i);
      var keyText := Strip(key);
      if keyText == [] {
        continue;
      }
      var globalArgs := EntryArgs(Get(mergedTable, keyText));
      var unitArgs := EntryArgs(Some(value));
      mergedTable := Put(mergedTable, keyText, ArgsEntry(globalArgs + unitArgs));
    }
    assert b[..|b|] == b;
  }

  /** The arguments every entry of `b` whose trimmed key is `k` brings, in order. */
  function UnitArgsFor(b: Dict<string, Value>, k: string): (r: seq<string>)
    ensures AllClean(r)
    decreases |b|
  {
    if b == [] then []
    else
      var e := b[|b| - 1];
      var before := UnitArgsFor(b[..|b| - 1], k);
      var more := if Strip(e.0) == k then EntryArgs(Some(e.1)) else [];
      assert forall j :: |before| <= j < |before| + |more| ==> (before + more)[j] == more[j - |before|];
      before + more
  }

  /** Some entry of `b` has trimmed key `k`. */
  predicate Names(b: Dict<string, Value>, k: string) {
    exists i :: 0 <= i < |b| && Strip(b[i].0) == k
  }

  lemma NamesSnoc(b: Dict<string, Value>, k: string)
    requires b != []
    ensures Names(b, k) <==> Names(b[..|b| - 1], k) || Strip(b[|b| - 1].0) == k
  {
    var init := b[..|b| - 1];
    if Names(init, k) {
      var i :| 0 <= i < |init| && Strip(init[i].0) == k;
      assert b[i] == init[i];
    }
    if Names(b, k) {
      var i :| 0 <= i < |b| && Strip(b[i].0) == k;
      if i < |init| {
        assert init[i] == b[i];
      }
    }
  }

  lemma AllCleanConcat(x: seq<string>, y: seq<string>)
    requires AllClean(x) && AllClean(y)
    ensures AllClean(x + y)
  {
    assert forall j :: |x| <= j < |x| + |y| ==> (x + y)[j] == y[j - |x|];
  }

  /**
   * A non-blank key some entry of `b` names holds `{"args": ...}`: the trimmed,
   * non-blank arguments `a` had for it, then those of each such entry of `b`
   * in order.  Any other key, blank ones included, keeps `a`'s entry as it was.
   */
  lemma {:induction false} ActionTablesGet(a: Dict<string, Value>, b: Dict<string, Value>, k: string)
    ensures k != [] && Names(b, k) ==>
      Get(ActionTables(a, b), k) == Some(ArgsEntry(EntryArgs(Get(a, k)) + UnitArgsFor(b, k)))
    ensures !(k != [] && Names(b, k)) ==> Get(ActionTables(a, b), k) == Get(a, k)
    decreases |b|
  {
    if b != [] {
      var init, e := b[..|b| - 1], b[|b| - 1];
      var acc := ActionTables(a, init);
      var key := Strip(e.0);
      ActionTablesGet(a, init, k);
      NamesSnoc(b, k);
      if key != k {
        assert Get(ActionTables(a, b), k) == Get(acc, k);
        assert UnitArgsFor(b, k) == UnitArgsFor(init, k) + [];
        assert UnitArgsFor(init, k) + [] == UnitArgsFor(init, k);
      } else if k == [] {
        assert ActionTables(a, b) == acc;
      } else {
        ActionTablesGetAt(a, b, k);
      }
    }
  }

  /** The step of `ActionTablesGet` where the last entry of `b` names `k`. */
  lemma ActionTablesGetAt(a: Dict<string, Value>, b: Dict<string, Value>, k: string)
    requires b != [] && k != [] && Strip(b[|b| - 1].0) == k
    requires var init := b[..|b| - 1];
      && (k != [] && Names(init, k) ==>
            Get(ActionTables(a, init), k) == Some(ArgsEntry(EntryArgs(Get(a, k)) + UnitArgsFor(init, k))))
      && (!(k != [] && Names(init, k)) ==> Get(ActionTables(a, init), k) == Get(a, k))
    ensures Get(ActionTables(a, b), k) == Some(ArgsEntry(EntryArgs(Get(a, k)) + UnitArgsFor(b, k)))
  {
    var init, e := b[..|b| - 1], b[|b| - 1];
    var acc := ActionTables(a, init);
    var global := EntryArgs(Get(a, k));
    var unitArgs := EntryArgs(Some(e.1));
    assert Get(ActionTables(a, b), k) == Some(ArgsEntry(EntryArgs(Get(acc, k)) + unitArgs));
    assert UnitArgsFor(b, k) == UnitArgsFor(init, k) + unitArgs;
    if Names(init, k) {
      AllCleanConcat(global, UnitArgsFor(init, k));
      EntryArgsOfArgsEntry(global + UnitArgsFor(init, k));
    } else {
      UnitArgsForNone(init, k);
      assert global + UnitArgsFor(init, k) == global;
    }
    assert EntryArgs(Get(acc, k)) == global + UnitArgsFor(init, k);
    ConcatAssoc(global, UnitArgsFor(init, k), unitArgs);
  }

  lemma {:induction false} UnitArgsForNone(b: Dict<string, Value>, k: string)
    requires !Names(b, k)
    ensures UnitArgsFor(b, k) == []
    decreases |b|
  {
    if b != [] {
      NamesSnoc(b, k);
      UnitArgsForNone(b[..|b| - 1], k);
    }
  }

  // ---------------------------------------------------------------------
  // The raw table of the selected unit

  /** A raw unit entry whose `name`, printed and trimmed, is `unitName`. */
  predicate IsNamedUnit(item: Value, unitName: string) {
    item.Table? && Strip(ToStr(Lookup(item.entries, "name", Str("")))) == unitName
  }

  /** The position of the first raw unit named `unitName`, or `|items|` when there is none. */
  function FirstNamed(items: seq<Value>, unitName: string): (i: nat)
    ensures i <= |items|
    ensures i < |items| ==> IsNamedUnit(items[i], unitName)
    ensures forall j :: 0 <= j < i ==> !IsNamedUnit(items[j], unitName)
  {
    if items == [] then 0
    else if IsNamedUnit(items[0], unitName) then 0
    else 1 + FirstNamed(items[1..], unitName)
  }

  /** What `_selected_raw_unit` returns: the first matching raw unit table, or `{}`. */
  function SelectedRawUnitOf(rawPlan: Dict<string, Value>, unitName: string): Dict<string, Value> {
    var unitsRaw := Get(rawPlan, "unit");
    if !(unitsRaw.Some? && unitsRaw.value.List?) then []
    else
      var items := unitsRaw.value.items;
      var i := FirstNamed(items, unitName);
      if i < |items| then items[i].entries else []
  }

  /** `_selected_raw_unit`, returning from inside its loop at the first match. */
  method SelectedRawUnit(rawPlan: Dict<string, Value>, unitName: string) returns (r: Dict<string, Value>)
    ensures r == SelectedRawUnitOf(rawPlan, unitName)
  {
    var unitsRaw := Get(rawPlan, "unit");
    if !(unitsRaw.Some? && unitsRaw.value.List?) {
      return [];
    }
    var items := unitsRaw.value.items;
    for i := 0 to |items|
      invariant forall j :: 0 <= j < i ==> !IsNamedUnit(items[j], unitName)
    {
      var item := items[i];
      if item.Table? && Strip(ToStr(Lookup(item.entries, "name", Str("")))) == unitName {
        FirstNamedIs(items, unitName, i);
        return item.entries;
      }
    }
    FirstNamedIs(items, unitName, |items|);
    return [];
  }

  /** The first match is the one no earlier entry beats. */
  lemma {:induction false} FirstNamedIs(items: seq<Value>, unitName: string, i: nat)
    requires i <= |items|
    requires i < |items| ==> IsNamedUnit(items[i], unitName)
    requires forall j :: 0 <= j < i ==> !IsNamedUnit(items[j], unitName)
    ensures FirstNamed(items, unitName) == i
  {
    if items != [] && i > 0 {
      FirstNamedIs(items[1..], unitName, i - 1);
    }
  }

  // ---------------------------------------------------------------------
  // Lines and variable names

  /** `_emit(name, value)`: the shell helper call that sets `name` unless it is already set. */
  function Emit(name: string, value: Value): string {
    ApplyPrefix + (ShellQuote(name) + " " + ShellQuote(ToStr(value)))
  }

  const ApplyPrefix := "apply_if_unset "

  /** A call of the `apply_if_unset` helper. */
  predicate IsApplyLine(line: string) {
    StartsWith(line, ApplyPrefix)
  }

  predicate AllApply(lines: seq<string>) {
    forall k :: 0 <= k < |lines| ==> IsApplyLine(lines[k])
  }

  lemma EmitApply(name: string, value: Value)
    ensures IsApplyLine(Emit(name, value))
  {
    PrefixOf(ApplyPrefix, ShellQuote(name) + " " + ShellQuote(ToStr(value)));
  }

  const MinervaPrefix := "MINERVA_"

  /** `_PATHS_MAP`: the variables of the known path settings. */
  const PathsMap: Dict<string, string> := [
    ("data_dir", MinervaPrefix + "DATA_DIR"),
    ("state_dir", MinervaPrefix + "STATE_DIR"),
    ("unit_state_dir", MinervaPrefix + "UNIT_STATE_DIR"),
    ("prompts_dir", MinervaPrefix + "PROMPTS_DIR"),
    ("run_cache_file", MinervaPrefix + "RUN_CACHE_FILE"),
    ("todo_dump_file", MinervaPrefix + "TODO_DUMP_FILE"),
    ("summary_file", MinervaPrefix + "SUMMARY_FILE"),
    ("speech_file", MinervaPrefix + "SPEECH_FILE"),
    ("podcast_text_file", MinervaPrefix + "PODCAST_TEXT_FILE"),
    ("podcast_audio_file", MinervaPrefix + "PODCAST_AUDIO_FILE"),
    ("podcast_topic_file", MinervaPrefix + "PODCAST_TOPIC_FILE"),
    ("podcast_prompt_template_file", MinervaPrefix + "PODCAST_PROMPT_TEMPLATE_FILE"),
    ("daily_podcast_prompt_template_file", MinervaPrefix + "DAILY_PODCAST_PROMPT_TEMPLATE_FILE"),
    ("config_path", MinervaPrefix + "CONFIG_PATH")]

  /** `_OPTIONS_MAP`: the variables of the known option settings. */
  const OptionsMap: Dict<string, string> := [
    ("fetch_args", MinervaPrefix + "FETCH_ARGS"),
    ("summary_args", MinervaPrefix + "SUMMARY_ARGS"),
    ("publish_args", MinervaPrefix + "PUBLISH_ARGS"),
    ("shared_args", MinervaPrefix + "SHARED_ARGS"),
    ("hourly_fetch_args", MinervaPrefix + "HOURLY_FETCH_ARGS"),
    ("hourly_summary_args", MinervaPrefix + "HOURLY_SUMMARY_ARGS"),
    ("hourly_publish_args", MinervaPrefix + "HOURLY_PUBLISH_ARGS"),
    ("daily_fetch_args", MinervaPrefix + "DAILY_FETCH_ARGS"),
    ("daily_summary_args", MinervaPrefix + "DAILY_SUMMARY_ARGS"),
    ("daily_publish_args", MinervaPrefix + "DAILY_PUBLISH_ARGS"),
    ("podcast_args", MinervaPrefix + "PODCAST_ARGS"),
    ("daily_podcast_args", MinervaPrefix + "DAILY_PODCAST_ARGS"),
    ("podcast_telegram_args", MinervaPrefix + "PODCAST_TELEGRAM_ARGS"),
    ("podcast_language", MinervaPrefix + "PODCAST_LANGUAGE")]

  /** The five kinds of plain settings, in the order their lines are written. */
  datatype Section = EnvSection | PathsSection | OptionsSection | ProvidersSection | TokensSection

  /** The variable a setting of the section is written to. */
  function VarName(section: Section, key: string): string {
    match section
    case EnvSection => if IsUpperText(key) then key else SanitizeKey(key)
    case PathsSection => GetOr(PathsMap, key, MinervaPrefix + SanitizeKey(key))
    case OptionsSection =>
      GetOr(OptionsMap, key, if StartsWith(key, MinervaPrefix) then key else MinervaPrefix + SanitizeKey(key))
    case ProvidersSection => "MINERVA_PROVIDER_" + SanitizeKey(key)
    case TokensSection => "MINERVA_TOKEN_" + SanitizeKey(key)
  }

  /** The variable the merged arguments of an action are written to. */
  function ActionArgsVarName(actionName: string): string {
    "MINERVA_ACTION_" + SanitizeKey(actionName) + "_ARGS"
  }

  /** A portable shell variable name in capitals: `[A-Z_][A-Z0-9_]*`. */
  predicate IsShellName(s: string) {
    && s != []
    && !IsDigit(s[0])
    && forall k :: 0 <= k < |s| ==> IsUpperAscii(s[k]) || IsDigit(s[k]) || s[k] == '_'
  }

  /** A capitalised prefix followed by a sanitised key is still a shell name. */
  lemma PrefixedShellName(prefix: string, key: string)
    requires IsShellName(prefix)
    ensures IsShellName(prefix + SanitizeKey(key)) && StartsWith(prefix + SanitizeKey(key), prefix)
  {
    var s := SanitizeKey(key);
    SanitizeKeyShape(key);
    var r := prefix + s;
    assert r[..|prefix|] == prefix;
    forall k | 0 <= k < |r|
      ensures IsUpperAscii(r[k]) || IsDigit(r[k]) || r[k] == '_'
    {
      if k >= |prefix| {
        assert r[k] == s[k - |prefix|];
      }
    }
  }

  /** `shlex.quote` leaves a shell name as it is. */
  lemma ShellNameUnquoted(s: string)
    requires IsShellName(s)
    ensures ShellQuote(s) == s
  {
    assert forall k :: 0 <= k < |s| ==> IsSafeShellChar(s[k]);
  }

  /** Every variable `_PATHS_MAP` names is under `MINERVA_`. */
  lemma PathsMapNames(i: nat)
    requires i < |PathsMap|
    ensures StartsWith(PathsMap[i].1, MinervaPrefix)
  {    if i == 0 {
      PrefixOf(MinervaPrefix, "DATA_DIR");
    } else if i == 1 {
      PrefixOf(MinervaPrefix, "STATE_DIR");
    } else if i == 2 {
      PrefixOf(MinervaPrefix, "UNIT_STATE_DIR");
    } else if i == 3 {
      PrefixOf(MinervaPrefix, "PROMPTS_DIR");
    } else if i == 4 {
      PrefixOf(MinervaPrefix, "RUN_CACHE_FILE");
    } else if i == 5 {
      PrefixOf(MinervaPrefix, "TODO_DUMP_FILE");
    } else if i == 6 {
      PrefixOf(MinervaPrefix, "SUMMARY_FILE");
    } else if i == 7 {
      PrefixOf(MinervaPrefix, "SPEECH_FILE");
    } else if i == 8 {
      PrefixOf(MinervaPrefix, "PODCAST_TEXT_FILE");
    } else if i == 9 {
      PrefixOf(MinervaPrefix, "PODCAST_AUDIO_FILE");
    } else if i == 10 {
      PrefixOf(MinervaPrefix, "PODCAST_TOPIC_FILE");
    } else if i == 11 {
      PrefixOf(MinervaPrefix, "PODCAST_PROMPT_TEMPLATE_FILE");
    } else if i == 12 {
      PrefixOf(MinervaPrefix, "DAILY_PODCAST_PROMPT_TEMPLATE_FILE");
    } else {
      PrefixOf(MinervaPrefix, "CONFIG_PATH");
    }
  }

  /** Every variable `_OPTIONS_MAP` names is under `MINERVA_`. */
  lemma OptionsMapNames(i: nat)
    requires i < |OptionsMap|
    ensures StartsWith(OptionsMap[i].1, MinervaPrefix)
  {    if i == 0 {
      PrefixOf(MinervaPrefix, "FETCH_ARGS");
    } else if i == 1 {
      PrefixOf(MinervaPrefix, "SUMMARY_ARGS");
    } else if i == 2 {
      PrefixOf(MinervaPrefix, "PUBLISH_ARGS");
    } else if i == 3 {
      PrefixOf(MinervaPrefix, "SHARED_ARGS");
    } else if i == 4 {
      PrefixOf(MinervaPrefix, "HOURLY_FETCH_ARGS");
    } else if i == 5 {
      PrefixOf(MinervaPrefix, "HOURLY_SUMMARY_ARGS");
    } else if i == 6 {
      PrefixOf(MinervaPrefix, "HOURLY_PUBLISH_ARGS");
    } else if i == 7 {
      PrefixOf(MinervaPrefix, "DAILY_FETCH_ARGS");
    } else if i == 8 {
      PrefixOf(MinervaPrefix, "DAILY_SUMMARY_ARGS");
    } else if i == 9 {
      PrefixOf(MinervaPrefix, "DAILY_PUBLISH_ARGS");
    } else if i == 10 {
      PrefixOf(MinervaPrefix, "PODCAST_ARGS");
    } else if i == 11 {
      PrefixOf(MinervaPrefix, "DAILY_PODCAST_ARGS");
    } else if i == 12 {
      PrefixOf(MinervaPrefix, "PODCAST_TELEGRAM_ARGS");
    } else {
      PrefixOf(MinervaPrefix, "PODCAST_LANGUAGE");
    }
  }

  lemma PrefixOf(prefix: string, rest: string)
    ensures StartsWith(prefix + rest, prefix)
  {
    assert (prefix + rest)[..|prefix|] == prefix;
  }

  lemma StartsWithLonger(s: string, prefix: string, shorter: string)
    requires StartsWith(s, prefix) && StartsWith(prefix, shorter)
    ensures StartsWith(s, shorter)
  {
    assert s[..|shorter|] == prefix[..|shorter|];
  }

  lemma ShellSuffix(name: string, suffix: string)
    requires IsShellName(name)
    requires forall k :: 0 <= k < |suffix| ==> IsUpperAscii(suffix[k]) || suffix[k] == '_'
    ensures IsShellName(name + suffix)
  {
    var r := name + suffix;
    forall k | 0 <= k < |r|
      ensures IsUpperAscii(r[k]) || IsDigit(r[k]) || r[k] == '_'
    {
      if k >= |name| {
        assert r[k] == suffix[k - |name|];
      }
    }
  }

  /**
   * Every variable outside `[env]` is under `MINERVA_`; those of the
   * providers and tokens are shell names, emitted unquoted.
   */
  lemma VarNameShape(section: Section, key: string)
    ensures section != EnvSection ==> StartsWith(VarName(section, key), MinervaPrefix)
    ensures section in {ProvidersSection, TokensSection} ==>
      IsShellName(VarName(section, key)) && ShellQuote(VarName(section, key)) == VarName(section, key)
  {
    match section
    case EnvSection =>
    case PathsSection => PathVarName(key);
    case OptionsSection => OptionVarName(key);
    case ProvidersSection => PrefixedVarName("MINERVA_PROVIDER_", key);
    case TokensSection => PrefixedVarName("MINERVA_TOKEN_", key);
  }

  lemma PathVarName(key: string)
    ensures StartsWith(GetOr(PathsMap, key, MinervaPrefix + SanitizeKey(key)), MinervaPrefix)
  {
    var i := IndexOfKey(PathsMap, key);
    if i < |PathsMap| {
      PathsMapNames(i);
    } else {
      PrefixOf(MinervaPrefix, SanitizeKey(key));
    }
  }

  lemma OptionVarName(key: string)
    ensures StartsWith(GetOr(OptionsMap, key, if StartsWith(key, MinervaPrefix) then key else MinervaPrefix + SanitizeKey(key)),
      MinervaPrefix)
  {
    var i := IndexOfKey(OptionsMap, key);
    if i < |OptionsMap| {
      OptionsMapNames(i);
    } else if !StartsWith(key, MinervaPrefix) {
      PrefixOf(MinervaPrefix, SanitizeKey(key));
    }
  }

  lemma PrefixedVarName(prefix: string, key: string)
    requires IsShellName(prefix) && StartsWith(prefix, MinervaPrefix)
    ensures IsShellName(prefix + SanitizeKey(key)) && StartsWith(prefix + SanitizeKey(key), MinervaPrefix)
    ensures ShellQuote(prefix + SanitizeKey(key)) == prefix + SanitizeKey(key)
  {
    PrefixedShellName(prefix, key);
    StartsWithLonger(prefix + SanitizeKey(key), prefix, MinervaPrefix);
    ShellNameUnquoted(prefix + SanitizeKey(key));
  }

  /** The variable of an action's arguments is a shell name under `MINERVA_ACTION_`, emitted unquoted. */
  lemma ActionArgsShape(key: string)
    ensures IsShellName(ActionArgsVarName(key)) && StartsWith(ActionArgsVarName(key), "MINERVA_ACTION_")
    ensures ShellQuote(ActionArgsVarName(key)) == ActionArgsVarName(key)
  {
    var head := "MINERVA_ACTION_" + SanitizeKey(key);
    PrefixedShellName("MINERVA_ACTION_", key);
    ShellSuffix(head, "_ARGS");
    StartsWithLonger(head + "_ARGS", head, "MINERVA_ACTION_");
    ShellNameUnquoted(ActionArgsVarName(key));
  }

  // ---------------------------------------------------------------------
  // derive_unit_exports

  /** The merged settings of the selected unit: five plain tables and the action table. */
  datatype Settings = Settings(
    env: Dict<string, Value>,
    paths: Dict<string, Value>,
    options: Dict<string, Value>,
    providers: Dict<string, Value>,
    tokens: Dict<string, Value>,
    action: Dict<string, Value>)

  /** Each table of the unit's raw entry merged over the same table of `[global]`. */
  function MergedSettings(globalCfg: Dict<string, Value>, selectedRaw: Dict<string, Value>): Settings {
    Settings(
      Update(TableOf(globalCfg, "env"), TableOf(selectedRaw, "env")),
      Update(TableOf(globalCfg, "paths"), TableOf(selectedRaw, "paths")),
      Update(TableOf(globalCfg, "options"), TableOf(selectedRaw, "options")),
      Update(TableOf(globalCfg, "providers"), TableOf(selectedRaw, "providers")),
      Update(TableOf(globalCfg, "tokens"), TableOf(selectedRaw, "tokens")),
      ActionTables(TableOf(globalCfg, "action"), TableOf(selectedRaw, "action")))
  }

  const ConfigPathKey := "config_path"

  /**
   * `merged_paths["config_path"] = merged_options.pop("config_path")`, when the
   * options hold it: afterwards no option is `config_path`; the paths hold its
   * value, in place of an earlier one or appended last; every other path and
   * option is untouched.
   */
  function MoveConfigPath(st: Settings): (r: Settings)
    ensures UniqueKeys(st.options) ==> !HasKey(r.options, ConfigPathKey)
    ensures HasKey(st.options, ConfigPathKey) ==> Get(r.paths, ConfigPathKey) == Get(st.options, ConfigPathKey)
    ensures HasKey(st.options, ConfigPathKey) && !HasKey(st.paths, ConfigPathKey) ==>
      Keys(r.paths) == Keys(st.paths) + [ConfigPathKey]
    ensures !HasKey(st.options, ConfigPathKey) || HasKey(st.paths, ConfigPathKey) ==> Keys(r.paths) == Keys(st.paths)
    ensures forall k :: k != ConfigPathKey ==> Get(r.paths, k) == Get(st.paths, k) && Get(r.options, k) == Get(st.options, k)
    ensures r.env == st.env && r.providers == st.providers && r.tokens == st.tokens && r.action == st.action
  {
    match Get(st.options, ConfigPathKey)
    case Some(v) => st.(paths := Put(st.paths, ConfigPathKey, v), options := Remove(st.options, ConfigPathKey))
    case None => st
  }

  /** The line a setting `(key, value)` of the section is written as. */
  function AssignmentLine(section: Section, e: (string, Value)): string {
    Emit(VarName(section, e.0), e.1)
  }

  /** One `apply_if_unset` line per setting of a table, in its order. */
  function Assignments(d: Dict<string, Value>, section: Section): (lines: seq<string>)
    ensures |lines| == |d|
  {
    Map(d, e => AssignmentLine(section, e))
  }

  /** The lines of the five plain sections, in the order env, paths, options, providers, tokens. */
  function SettingLines(st: Settings): seq<string> {
    Assignments(st.env, EnvSection) + Assignments(st.paths, PathsSection) + Assignments(st.options, OptionsSection)
    + Assignments(st.providers, ProvidersSection) + Assignments(st.tokens, TokensSection)
  }

  /** The `_ARGS` line of each action whose entry holds some non-blank argument, in table order. */
  function ActionArgsLines(action: Dict<string, Value>): seq<string>
    decreases |action|
  {
    if action == [] then []
    else
      var (name, cfg) := action[|action| - 1];
      var normalized := EntryArgs(Some(cfg));
      ActionArgsLines(action[..|action| - 1])
      + (if normalized != [] then [Emit(ActionArgsVarName(name), Str(Join(" ", normalized)))] else [])
  }

  /** `merged.mode or merged.name`. */
  function SelectedMode(merged: UnitConfig): string {
    if merged.mode.Some? && merged.mode.value != [] then merged.mode.value else merged.name
  }

  /** The merged actions, or the fallback list for the mode when there are none. */
  function SelectedActions(merged: UnitConfig, mode: string): seq<string> {
    if merged.actions != [] then merged.actions
    else if mode == "daily" then ["fetch", "summarize", "publish", "podcast"]
    else ["fetch", "summarize", "publish"]
  }

  function ActionsLine(actions: seq<string>): string {
    "export MINERVA_SELECTED_ACTIONS=" + ShellQuote(Join(" ", CleanStrings(StrValues(actions))))
  }

  function ModeLine(mode: string): string {
    "export MINERVA_SELECTED_MODE=" + ShellQuote(mode)
  }

  function UnitLine(unitName: string): string {
    "export MINERVA_SELECTED_UNIT=" + ShellQuote(unitName)
  }

  /** The position of the first unit of the plan named exactly `unitName`, or `|units|`. */
  function FirstUnitNamed(units: seq<UnitConfig>, unitName: string): (i: nat)
    ensures i <= |units|
    ensures i < |units| ==> units[i].name == unitName
    ensures forall j :: 0 <= j < i ==> units[j].name != unitName
  {
    if units == [] then 0
    else if units[0].name == unitName then 0
    else 1 + FirstUnitNamed(units[1..], unitName)
  }

  /** The text of `UnitLookupError`. */
  function LookupError(unitName: string, planFile: string): string {
    "Run unit " + Repr(Str(unitName)) + " not found in plan " + Repr(Str(planFile))
  }

  /**
   * What `derive_unit_exports` returns for unit `unitName` of the loaded plan
   * `p`, `rawPlan` being the document it was loaded from; `Err` is the
   * `UnitLookupError` it raises.
   */
  function ExportLines(p: Plan, rawPlan: Dict<string, Value>, unitName: string, planFile: string): Result<seq<string>, string> {
    ExportsFor(p, UnitSettings(rawPlan, unitName), unitName, planFile)
  }

  /** The lookup of the unit in the plan, then its lines from the merged settings `st`. */
  function ExportsFor(p: Plan, st: Settings, unitName: string, planFile: string): Result<seq<string>, string> {
    var i := FirstUnitNamed(p.units, unitName);
    if i == |p.units| then Err(LookupError(unitName, planFile))
    else Ok(UnitExports(MergedUnit(p.globalConfig, p.units[i]), st, unitName))
  }

  /** The settings of the selected unit once every table is merged and `config_path` has moved. */
  function UnitSettings(rawPlan: Dict<string, Value>, unitName: string): Settings {
    MoveConfigPath(MergedSettings(TableOf(rawPlan, "global"), SelectedRawUnitOf(rawPlan, unitName)))
  }

  /** The lines for the unit found in the plan, its global defaults merged in as `merged`. */
  function UnitExports(merged: UnitConfig, st: Settings, unitName: string): seq<string> {
    var mode := SelectedMode(merged);
    ExportsOf(st, mode, SelectedActions(merged, mode), unitName)
  }

  /** The lines written from the unit's merged settings `st` and its selection, in the order the script reads them. */
  function ExportsOf(st: Settings, mode: string, actions: seq<string>, unitName: string): seq<string> {
    SettingLines(st) + [ActionsLine(actions)] + ActionArgsLines(st.action) + [ModeLine(mode), UnitLine(unitName)]
  }

  lemma AssignmentsSnoc(d: Dict<string, Value>, section: Section, i: nat)
    requires i < |d|
    ensures Assignments(d[..i + 1], section) == Assignments(d[..i], section) + [AssignmentLine(section, d[i])]
  {
    MapSnoc(d, e => AssignmentLine(section, e), i);
  }

  /** One of the five `for key, value in ....items()` loops: a line per setting, appended in order. */
  method AppendAssignments(lines: seq<string>, d: Dict<string, Value>, section: Section) returns (r: seq<string>)
    ensures r == lines + Assignments(d, section)
  {
    r := lines;
    for i := 0 to |d|
      invariant r == lines + Assignments(d[..i], section)
    {
      var (key, value) := d[i];
      AssignmentsSnoc(d, section, i);
      ConcatAssoc(lines, Assignments(d[..i], section), [AssignmentLine(section, d[i])]);
      r := r + [Emit(VarName(section, key), value)];
    }
    assert d[..|d|] == d;
  }

  lemma ActionArgsLinesSnoc(action: Dict<string, Value>, i: nat)
    requires i < |action|
    ensures var (name, cfg) := action[i];
      var normalized := EntryArgs(Some(cfg));
      ActionArgsLines(action[..i + 1]) == ActionArgsLines(action[..i])
        + (if normalized != [] then [Emit(ActionArgsVarName(name), Str(Join(" ", normalized)))] else [])
  {
    assert action[..i + 1][..i] == action[..i];
  }

  /** The last loop over the merged action table: skip entries that are not tables or whose `args` is not a list. */
  method AppendActionArgs(lines: seq<string>, action: Dict<string, Value>) returns (r: seq<string>)
    ensures r == lines + ActionArgsLines(action)
  {
    r := lines;
    for i := 0 to |action|
      invariant r == lines + ActionArgsLines(action[..i])
    {
      var (actionName, actionCfg) := action[i];
      ActionArgsLinesSnoc(action, i);
      ghost var before := ActionArgsLines(action[..i]);
      if !actionCfg.Table? {
        assert before + [] == before;
        continue;
      }
      var argsRaw := Lookup(actionCfg.entries, "args", List([]));
      if !argsRaw.List? {
        assert before + [] == before;
        continue;
      }
      var normalized := CleanStrings(argsRaw.items);
      assert normalized == EntryArgs(Some(actionCfg));
      if normalized != [] {
        var line := Emit(ActionArgsVarName(actionName), Str(Join(" ", normalized)));
        ConcatAssoc(lines, before, [line]);
        r := r + [line];
      } else {
        assert before + [] == before;
      }
    }
    assert action[..|action|] == action;
  }

  /** Why `derive_unit_exports` raises: the plan fails validation, or has no unit of that name. */
  datatype ExportFailure = PlanInvalid(issues: seq<Issue>) | UnitNotFound(message: string)

  /**
   * `derive_unit_exports` on the decoded plan document: it loads and validates
   * the plan, then derives the lines of the named unit.
   */
  function DeriveExports(rawPlan: Dict<string, Value>, unitName: string, planFile: string): Result<seq<string>, ExportFailure> {
    match Load(rawPlan, planFile)
    case Err(issues) => Err(PlanInvalid(issues))
    case Ok(p) =>
      match ExportLines(p, rawPlan, unitName, planFile)
      case Err(message) => Err(UnitNotFound(message))
      case Ok(lines) => Ok(lines)
  }

  /** `derive_unit_exports`: load the plan, find the unit, write its lines. */
  method DeriveUnitExports(rawPlan: Dict<string, Value>, unitName: string, planFile: string)
    returns (r: Result<seq<string>, ExportFailure>)
    ensures r == DeriveExports(rawPlan, unitName, planFile)
  {
    var loaded := Load(rawPlan, planFile);
    if loaded.Err? {
      return Err(PlanInvalid(loaded.error));
    }
    var p := loaded.value;
    var i := FirstUnitNamed(p.units, unitName);
    if i == |p.units| {
      return Err(UnitNotFound(LookupError(unitName, planFile)));
    }
    var selected := p.units[i];
    var merged := MergedUnit(p.globalConfig, selected);
    var lines := WriteUnitExports(merged, rawPlan, unitName);
    return Ok(lines);
  }

  /** The first half of `derive_unit_exports` once the unit is found: merge each table, then move `config_path`. */
  method MergeUnitTables(rawPlan: Dict<string, Value>, unitName: string)
    returns (mergedEnv: Dict<string, Value>, mergedPaths: Dict<string, Value>, mergedOptions: Dict<string, Value>,
             mergedProviders: Dict<string, Value>, mergedTokens: Dict<string, Value>, mergedActionCfg: Dict<string, Value>)
    ensures Settings(mergedEnv, mergedPaths, mergedOptions, mergedProviders, mergedTokens, mergedActionCfg)
      == UnitSettings(rawPlan, unitName)
  {
    var globalCfg := TableOf(rawPlan, "global");
    var selectedRaw := SelectedRawUnit(rawPlan, unitName);
    mergedEnv := MergeDicts(TableOf(globalCfg, "env"), TableOf(selectedRaw, "env"));
    mergedPaths := MergeDicts(TableOf(globalCfg, "paths"), TableOf(selectedRaw, "paths"));
    mergedOptions := MergeDicts(TableOf(globalCfg, "options"), TableOf(selectedRaw, "options"));
    mergedProviders := MergeDicts(TableOf(globalCfg, "providers"), TableOf(selectedRaw, "providers"));
    mergedTokens := MergeDicts(TableOf(globalCfg, "tokens"), TableOf(selectedRaw, "tokens"));
    mergedActionCfg := MergeActionTables(TableOf(globalCfg, "action"), TableOf(selectedRaw, "action"));
    ghost var st0 := Settings(mergedEnv, mergedPaths, mergedOptions, mergedProviders, mergedTokens, mergedActionCfg);
    assert st0 == MergedSettings(globalCfg, selectedRaw);

    var configPath := Get(mergedOptions, ConfigPathKey);
    if configPath.Some? {
      mergedOptions := Remove(mergedOptions, ConfigPathKey);
      mergedPaths := Put(mergedPaths, ConfigPathKey, configPath.value);
    }
  }

  /** The five loops over the plain sections, each appending one line per setting. */
  method AppendSettings(lines: seq<string>, st: Settings) returns (r: seq<string>)
    ensures r == lines + SettingLines(st)
  {
    r := AppendAssignments(lines, st.env, EnvSection);
    r := AppendAssignments(r, st.paths, PathsSection);
    r := AppendAssignments(r, st.options, OptionsSection);
    r := AppendAssignments(r, st.providers, ProvidersSection);
    r := AppendAssignments(r, st.tokens, TokensSection);
    SettingLinesOf(st, lines, r);
  }

  /** The body of `derive_unit_exports` once the unit is found: merge the tables, then write the lines. */
  method WriteUnitExports(merged: UnitConfig, rawPlan: Dict<string, Value>, unitName: string) returns (lines: seq<string>)
    ensures lines == UnitExports(merged, UnitSettings(rawPlan, unitName), unitName)
  {
    var mergedEnv, mergedPaths, mergedOptions, mergedProviders, mergedTokens, mergedActionCfg :=
      MergeUnitTables(rawPlan, unitName);
    var st := Settings(mergedEnv, mergedPaths, mergedOptions, mergedProviders, mergedTokens, mergedActionCfg);
    var mode := SelectedMode(merged);
    var actions := SelectActions(merged, mode);
    lines := WriteExports(st, mode, actions, unitName);
  }

  /** The second half: the setting lines, the selected actions, each action's arguments, the mode and the unit. */
  method WriteExports(st: Settings, mode: string, actions: seq<string>, unitName: string) returns (lines: seq<string>)
    ensures lines == ExportsOf(st, mode, actions, unitName)
  {
    lines := AppendSettings([], st);
    ghost var settingLines := SettingLines(st);
    assert lines == settingLines;
    lines := lines + [ActionsLine(actions)];
    lines := AppendActionArgs(lines, st.action);
    lines := lines + [ModeLine(mode)];
    lines := lines + [UnitLine(unitName)];
    ClosingLines(settingLines, ActionsLine(actions), ActionArgsLines(st.action), ModeLine(mode), UnitLine(unitName));
  }

  /** `merged.actions or [...]`: the fallback list only when the unit has no actions. */
  method SelectActions(merged: UnitConfig, mode: string) returns (actions: seq<string>)
    ensures actions == SelectedActions(merged, mode)
  {
    actions := merged.actions;
    if actions == [] {
      actions := if mode == "daily" then ["fetch", "summarize", "publish", "podcast"] else ["fetch", "summarize", "publish"];
    }
  }

  lemma SettingLinesOf(st: Settings, lines: seq<string>, r: seq<string>)
    requires r == lines + Assignments(st.env, EnvSection) + Assignments(st.paths, PathsSection)
      + Assignments(st.options, OptionsSection) + Assignments(st.providers, ProvidersSection)
      + Assignments(st.tokens, TokensSection)
    ensures r == lines + SettingLines(st)
  {
    ConcatFive(lines, Assignments(st.env, EnvSection), Assignments(st.paths, PathsSection),
      Assignments(st.options, OptionsSection), Assignments(st.providers, ProvidersSection),
      Assignments(st.tokens, TokensSection));
  }

  lemma ConcatFive<T>(s: seq<T>, a: seq<T>, b: seq<T>, c: seq<T>, d: seq<T>, e: seq<T>)
    ensures s + a + b + c + d + e == s + (a + b + c + d + e)
  {
  }

  lemma ClosingLines(head: seq<string>, actionsLine: string, argLines: seq<string>, modeLine: string, unitLine: string)
    ensures head + [actionsLine] + argLines + [modeLine] + [unitLine] == head + [actionsLine] + argLines + [modeLine, unitLine]
  {
  }

  // ---------------------------------------------------------------------
  // What derive_unit_exports promises

  lemma AllApplyConcat(a: seq<string>, b: seq<string>)
    requires AllApply(a) && AllApply(b)
    ensures AllApply(a + b)
  {
    forall k | 0 <= k < |a + b|
      ensures IsApplyLine((a + b)[k])
    {
      if k >= |a| {
        assert (a + b)[k] == b[k - |a|];
      }
    }
  }

  /** Every line of a section calls `apply_if_unset`. */
  lemma AssignmentsApply(d: Dict<string, Value>, section: Section)
    ensures AllApply(Assignments(d, section))
  {
    forall k | 0 <= k < |d|
      ensures IsApplyLine(Assignments(d, section)[k])
    {
      EmitApply(VarName(section, d[k].0), d[k].1);
    }
  }

  /** So does every line of the five sections together. */
  lemma SettingLinesApply(st: Settings)
    ensures AllApply(SettingLines(st))
    ensures |SettingLines(st)| == |st.env| + |st.paths| + |st.options| + |st.providers| + |st.tokens|
  {
    AssignmentsApply(st.env, EnvSection);
    AssignmentsApply(st.paths, PathsSection);
    AssignmentsApply(st.options, OptionsSection);
    AssignmentsApply(st.providers, ProvidersSection);
    AssignmentsApply(st.tokens, TokensSection);
    var a := Assignments(st.env, EnvSection) + Assignments(st.paths, PathsSection);
    AllApplyConcat(Assignments(st.env, EnvSection), Assignments(st.paths, PathsSection));
    var b := a + Assignments(st.options, OptionsSection);
    AllApplyConcat(a, Assignments(st.options, OptionsSection));
    var c := b + Assignments(st.providers, ProvidersSection);
    AllApplyConcat(b, Assignments(st.providers, ProvidersSection));
    AllApplyConcat(c, Assignments(st.tokens, TokensSection));
  }

  /** Every `_ARGS` line calls `apply_if_unset`, and there is at most one per action. */
  lemma {:induction false} ActionArgsApply(action: Dict<string, Value>)
    ensures AllApply(ActionArgsLines(action)) && |ActionArgsLines(action)| <= |action|
    decreases |action|
  {
    if action != [] {
      var (name, cfg) := action[|action| - 1];
      var normalized := EntryArgs(Some(cfg));
      ActionArgsApply(action[..|action| - 1]);
      if normalized != [] {
        EmitApply(ActionArgsVarName(name), Str(Join(" ", normalized)));
      }
      AllApplyConcat(ActionArgsLines(action[..|action| - 1]),
        if normalized != [] then [Emit(ActionArgsVarName(name), Str(Join(" ", normalized)))] else []);
    }
  }

  lemma LayoutOf(head: seq<string>, a: string, args: seq<string>, m: string, u: string)
    requires AllApply(head) && AllApply(args)
    ensures var lines := head + [a] + args + [m, u];
      && |lines| == |head| + |args| + 3
      && (forall k :: 0 <= k < |head| ==> IsApplyLine(lines[k]))
      && lines[|head|] == a
      && (forall k :: |head| < k <= |head| + |args| ==> IsApplyLine(lines[k]))
      && lines[|head| + |args| + 1] == m && lines[|head| + |args| + 2] == u
  {
    var lines := head + [a] + args + [m, u];
    forall k | 0 <= k < |head|
      ensures IsApplyLine(lines[k])
    {
      assert lines[k] == head[k];
    }
    forall k | |head| < k <= |head| + |args|
      ensures IsApplyLine(lines[k])
    {
      assert lines[k] == args[k - |head| - 1];
    }
  }

  /**
   * The order of the lines: the `apply_if_unset` lines of the five sections,
   * one line per setting; the selected actions; an `apply_if_unset` line per
   * action with arguments; the mode; the unit, last.
   */
  lemma ExportsLayout(st: Settings, mode: string, actions: seq<string>, unitName: string)
    ensures var lines := ExportsOf(st, mode, actions, unitName);
      var n := |st.env| + |st.paths| + |st.options| + |st.providers| + |st.tokens|;
      var m := |ActionArgsLines(st.action)|;
      && m <= |st.action|
      && |lines| == n + m + 3
      && (forall k :: 0 <= k < n ==> IsApplyLine(lines[k]))
      && lines[n] == ActionsLine(actions)
      && (forall k :: n < k <= n + m ==> IsApplyLine(lines[k]))
      && lines[n + m + 1] == ModeLine(mode)
      && lines[n + m + 2] == UnitLine(unitName)
  {
    SettingLinesApply(st);
    ActionArgsApply(st.action);
    LayoutOf(SettingLines(st), ActionsLine(actions), ActionArgsLines(st.action),
      ModeLine(mode), UnitLine(unitName));
  }

  /**
   * `derive_unit_exports` raises `UnitLookupError` exactly when no unit of the
   * plan has the requested name; otherwise it writes the lines of the first
   * unit with that name.
   */
  lemma ExportLinesFails(p: Plan, rawPlan: Dict<string, Value>, unitName: string, planFile: string)
    ensures var r := ExportLines(p, rawPlan, unitName, planFile);
      && (r.Err? <==> forall i :: 0 <= i < |p.units| ==> p.units[i].name != unitName)
      && (r.Err? ==> r.error == LookupError(unitName, planFile))
      && (r.Ok? ==> exists i ::
            && 0 <= i < |p.units| && p.units[i].name == unitName
            && (forall j :: 0 <= j < i ==> p.units[j].name != unitName)
            && r.value == UnitExports(MergedUnit(p.globalConfig, p.units[i]), UnitSettings(rawPlan, unitName), unitName))
  {
    ExportsForFails(p, UnitSettings(rawPlan, unitName), unitName, planFile);
  }

  /**
   * `derive_unit_exports` raises `RunPlanValidationError` with the plan's
   * issues exactly when the document's plan breaks the invariants; otherwise
   * it gives what the lookup and derivation give for the loaded plan.
   */
  lemma DeriveExportsCases(rawPlan: Dict<string, Value>, unitName: string, planFile: string)
    ensures var r := DeriveExports(rawPlan, unitName, planFile);
      var p := PlanOf(rawPlan, planFile);
      && (r.Err? && r.error.PlanInvalid? <==> !ValidPlan(p))
      && (r.Err? && r.error.PlanInvalid? ==> r.error.issues == PlanIssues(p) && r.error.issues != [])
      && (ValidPlan(p) ==> match ExportLines(p, rawPlan, unitName, planFile)
            case Ok(lines) => r == Ok(lines)
            case Err(message) => r == Err(UnitNotFound(message)))
  {
    LoadValidates(rawPlan, planFile);
  }

  /** The lookup of `ExportsFor` fails exactly when no unit has the name; otherwise it takes the first. */
  lemma ExportsForFails(p: Plan, st: Settings, unitName: string, planFile: string)
    ensures var r := ExportsFor(p, st, unitName, planFile);
      && (r.Err? <==> forall i :: 0 <= i < |p.units| ==> p.units[i].name != unitName)
      && (r.Err? ==> r.error == LookupError(unitName, planFile))
      && (r.Ok? ==> exists i ::
            && 0 <= i < |p.units| && p.units[i].name == unitName
            && (forall j :: 0 <= j < i ==> p.units[j].name != unitName)
            && r.value == UnitExports(MergedUnit(p.globalConfig, p.units[i]), st, unitName))
  {
    var i := FirstUnitNamed(p.units, unitName);
    if i < |p.units| {
      assert p.units[i].name == unitName;
    }
  }

  /** `p'` is `p` with, at most, other secrets in its global defaults and its units. */
  predicate SameButSecrets(p: Plan, p': Plan) {
    && p'.globalConfig == p.globalConfig.(secrets := p'.globalConfig.secrets)
    && |p'.units| == |p.units|
    && forall i :: 0 <= i < |p.units| ==> p'.units[i] == p.units[i].(secrets := p'.units[i].secrets)
  }

  lemma {:induction false} FirstUnitNamedOfNames(us: seq<UnitConfig>, us': seq<UnitConfig>, unitName: string)
    requires |us| == |us'| && forall i :: 0 <= i < |us| ==> us'[i].name == us[i].name
    ensures FirstUnitNamed(us', unitName) == FirstUnitNamed(us, unitName)
  {
    if us != [] {
      FirstUnitNamedOfNames(us[1..], us'[1..], unitName);
    }
  }

  lemma TableOfSecrets(d: Dict<string, Value>, secrets: Value, key: string)
    requires key != "secrets"
    ensures TableOf(Put(d, "secrets", secrets), key) == TableOf(d, key)
  {
  }

  /** The merged tables do not read the `secrets` table of `[global]` or of the unit. */
  lemma UnitSettingsSecrets(rawPlan: Dict<string, Value>, rawPlan': Dict<string, Value>, unitName: string,
                            globalSecrets: Value, unitSecrets: Value)
    requires TableOf(rawPlan', "global") == Put(TableOf(rawPlan, "global"), "secrets", globalSecrets)
    requires SelectedRawUnitOf(rawPlan', unitName) == Put(SelectedRawUnitOf(rawPlan, unitName), "secrets", unitSecrets)
    ensures UnitSettings(rawPlan', unitName) == UnitSettings(rawPlan, unitName)
  {
    var g, raw := TableOf(rawPlan, "global"), SelectedRawUnitOf(rawPlan, unitName);
    TableOfSecrets(g, globalSecrets, "env");
    TableOfSecrets(g, globalSecrets, "paths");
    TableOfSecrets(g, globalSecrets, "options");
    TableOfSecrets(g, globalSecrets, "providers");
    TableOfSecrets(g, globalSecrets, "tokens");
    TableOfSecrets(g, globalSecrets, "action");
    TableOfSecrets(raw, unitSecrets, "env");
    TableOfSecrets(raw, unitSecrets, "paths");
    TableOfSecrets(raw, unitSecrets, "options");
    TableOfSecrets(raw, unitSecrets, "providers");
    TableOfSecrets(raw, unitSecrets, "tokens");
    TableOfSecrets(raw, unitSecrets, "action");
    assert MergedSettings(TableOf(rawPlan', "global"), SelectedRawUnitOf(rawPlan', unitName)) == MergedSettings(g, raw);
  }

  lemma UnitExportsSame(merged: UnitConfig, merged': UnitConfig, st: Settings, unitName: string)
    requires merged'.name == merged.name && merged'.mode == merged.mode && merged'.actions == merged.actions
    ensures UnitExports(merged', st, unitName) == UnitExports(merged, st, unitName)
  {
    var mode := SelectedMode(merged);
    assert SelectedMode(merged') == mode;
    assert SelectedActions(merged', mode) == SelectedActions(merged, mode);
  }

  /** Secrets do not reach the merged name, mode and actions. */
  lemma MergedUnitSelection(g: GlobalConfig, u: UnitConfig, g': GlobalConfig, u': UnitConfig)
    requires g' == g.(secrets := g'.secrets) && u' == u.(secrets := u'.secrets)
    ensures var merged, merged' := MergedUnit(g, u), MergedUnit(g', u');
      merged'.name == merged.name && merged'.mode == merged.mode && merged'.actions == merged.actions
  {
  }

  /** The lines depend on the plan's secrets not at all. */
  lemma ExportsForSecrets(p: Plan, p': Plan, st: Settings, unitName: string, planFile: string)
    requires SameButSecrets(p, p')
    ensures ExportsFor(p', st, unitName, planFile) == ExportsFor(p, st, unitName, planFile)
  {
    FirstUnitNamedOfNames(p.units, p'.units, unitName);
    var i := FirstUnitNamed(p.units, unitName);
    if i < |p.units| {
      MergedUnitSelection(p.globalConfig, p.units[i], p'.globalConfig, p'.units[i]);
      UnitExportsSame(MergedUnit(p.globalConfig, p.units[i]), MergedUnit(p'.globalConfig, p'.units[i]), st, unitName);
    }
  }

  /**
   * Secrets are never written: changing the secrets of the plan, of its
   * `[global]` table or of the selected unit's table leaves every line as it was.
   */
  lemma SecretsNotEmitted(p: Plan, p': Plan, rawPlan: Dict<string, Value>, rawPlan': Dict<string, Value>,
                          unitName: string, planFile: string, globalSecrets: Value, unitSecrets: Value)
    requires SameButSecrets(p, p')
    requires TableOf(rawPlan', "global") == Put(TableOf(rawPlan, "global"), "secrets", globalSecrets)
    requires SelectedRawUnitOf(rawPlan', unitName) == Put(SelectedRawUnitOf(rawPlan, unitName), "secrets", unitSecrets)
    ensures ExportLines(p', rawPlan', unitName, planFile) == ExportLines(p, rawPlan, unitName, planFile)
  {
    UnitSettingsSecrets(rawPlan, rawPlan', unitName, globalSecrets, unitSecrets);
    ExportsForSecrets(p, p', UnitSettings(rawPlan, unitName), unitName, planFile);
  }

  /**
   * After loading, the fallback list is unreachable: the selected actions are
   * the merged actions, written space-joined, and the mode is the merged mode,
   * or the unit's name when it has none.
   */
  lemma LoadedSelection(raw: Dict<string, Value>, filePath: string, unitName: string)
    requires Load(raw, filePath).Ok?
    ensures var p := Load(raw, filePath).value;
      var i := FirstUnitNamed(p.units, unitName);
      i < |p.units| ==>
        var merged := MergedUnit(p.globalConfig, p.units[i]);
        && merged.actions != []
        && SelectedActions(merged, SelectedMode(merged)) == merged.actions
        && ActionsLine(merged.actions) == "export MINERVA_SELECTED_ACTIONS=" + ShellQuote(Join(" ", merged.actions))
        && SelectedMode(merged) == (if merged.mode.Some? then merged.mode.value else unitName)
  {
    LoadValidates(raw, filePath);
    var p := PlanOf(raw, filePath);
    var i := FirstUnitNamed(p.units, unitName);
    if i < |p.units| {
      assert UnitPasses(p, i);
      SelectionOfPassing(p.globalConfig, p.units[i]);
    }
  }

  /** The selection of a unit that passed validation, its fields coerced. */
  lemma SelectionOfPassing(g: GlobalConfig, u: UnitConfig)
    requires CoercedGlobal(g) && CoercedUnit(u) && MergedUnit(g, u).actions != []
    ensures var merged := MergedUnit(g, u);
      && SelectedActions(merged, SelectedMode(merged)) == merged.actions
      && ActionsLine(merged.actions) == "export MINERVA_SELECTED_ACTIONS=" + ShellQuote(Join(" ", merged.actions))
      && SelectedMode(merged) == (if merged.mode.Some? then merged.mode.value else u.name)
  {
    var merged := MergedUnit(g, u);
    MergedUnitCoerced(g, u);
    assert forall k :: 0 <= k < |merged.actions| ==> IsClean(merged.actions[k]);
    CleanStringsOfClean(merged.actions);
  }
}
