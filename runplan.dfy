/**
 * The run plan: scheduled units read leniently from a decoded document,
 * global defaults merged into each unit, exhaustive validation, and the
 * crontab rendered from a plan.
 */
module RunPlan {
  import opened Wrappers
  import opened Seqs
  import opened Text
  import opened Assoc
  import opened Doc

  // ---------------------------------------------------------------------
  // Action tokens

  /** `_ACTION_ALIASES`: the British spelling is accepted for `summarize`. */
  const ActionAliases: Dict<string, string> := [("summarise", "summarize")]

  /** Trimmed and non-empty: what every coerced list entry, key and value is. */
  predicate IsClean(s: string) {
    s != [] && IsTrimmed(s)
  }

  /** A canonical action token: trimmed, no ASCII capitals, never the alias. */
  predicate IsActionToken(t: string) {
    IsTrimmed(t) && NoneOf(t, IsUpperAscii) && t != "summarise"
  }

  /** `normalize_action_token` applied to the text of a token. */
  function NormalizeToken(text: string): string {
    var token := Lower(Strip(text));
    GetOr(ActionAliases, token, token)
  }

  /** `normalize_action_token(action)`. */
  function NormalizeActionToken(action: Value): string {
    NormalizeToken(ToStr(action))
  }

  /** Looking a token up in the alias table replaces the one alias and nothing else. */
  lemma AliasLookup(t: string)
    ensures GetOr(ActionAliases, t, t) == if t == "summarise" then "summarize" else t
  {
    if t != "summarise" {
      assert Get(ActionAliases, t) == None by {
        GetCons(ActionAliases, t);
      }
    }
  }

  /** Lower-casing a stripped string leaves it stripped. */
  lemma LowerOfTrimmed(s: string)
    requires IsTrimmed(s)
    ensures IsTrimmed(Lower(s))
  {
    LowerKeepsSpace(s);
  }

  /** The token is trimmed and lower-cased; `summarise` becomes `summarize`, all else passes through. */
  lemma NormalizeTokenAliases(text: string)
    ensures Lower(Strip(text)) == "summarise" ==> NormalizeToken(text) == "summarize"
    ensures Lower(Strip(text)) != "summarise" ==> NormalizeToken(text) == Lower(Strip(text))
    ensures IsActionToken(NormalizeToken(text))
    ensures NormalizeToken(text) == [] <==> Strip(text) == []
  {
    var stripped := Strip(text);
    var token := Lower(stripped);
    AliasLookup(token);
    LowerOfTrimmed(stripped);
    LowerNoCapitals(stripped);
  }

  /** A canonical token normalises to itself. */
  lemma NormalizeTokenOfToken(t: string)
    requires IsActionToken(t)
    ensures NormalizeToken(t) == t
  {
    StripOfTrimmed(t);
    LowerOfCapitalFree(t);
    AliasLookup(t);
  }

  /** Normalising a normalised token changes nothing. */
  lemma NormalizeTokenIdempotent(text: string)
    ensures NormalizeToken(NormalizeToken(text)) == NormalizeToken(text)
  {
    NormalizeTokenAliases(text);
    NormalizeTokenOfToken(NormalizeToken(text));
  }

  lemma LowerOfCapitalFree(s: string)
    requires NoneOf(s, IsUpperAscii)
    ensures Lower(s) == s
  {
  }

  // ---------------------------------------------------------------------
  // Lenient coercion

  /** One list entry, printed and trimmed: kept as a one-entry list unless it is blank. */
  function CleanEntry(v: Value): (r: seq<string>)
    ensures |r| <= 1
    ensures r != [] ==> IsClean(r[0])
  {
    var text := Strip(ToStr(v));
    if text != [] then [text] else []
  }

  /** The entries of a list that are not blank once printed and trimmed, trimmed. */
  function CleanStrings(items: seq<Value>): (r: seq<string>)
    ensures |r| <= |items|
    ensures forall k :: 0 <= k < |r| ==> IsClean(r[k])
  {
    if items == [] then [] else CleanEntry(items[0]) + CleanStrings(items[1..])
  }

  /** Coercion works entry by entry, so it distributes over concatenation. */
  lemma {:induction false} CleanStringsConcat(a: seq<Value>, b: seq<Value>)
    ensures CleanStrings(a + b) == CleanStrings(a) + CleanStrings(b)
  {
    if a == [] {
      assert a + b == b;
    } else {
      assert (a + b)[1..] == a[1..] + b;
      CleanStringsConcat(a[1..], b);
      ConcatAssoc(CleanEntry(a[0]), CleanStrings(a[1..]), CleanStrings(b));
    }
  }

  /** The strings as list entries of a document. */
  function StrValues(xs: seq<string>): (vs: seq<Value>)
    ensures |vs| == |xs|
    ensures forall k :: 0 <= k < |xs| ==> vs[k] == Str(xs[k])
  {
    seq(|xs|, k requires 0 <= k < |xs| => Str(xs[k]))
  }

  /** Coercing an already coerced list gives it back unchanged. */
  lemma {:induction false} CleanStringsOfClean(xs: seq<string>)
    requires forall k :: 0 <= k < |xs| ==> IsClean(xs[k])
    ensures CleanStrings(StrValues(xs)) == xs
  {
    if xs != [] {
      var ys := StrValues(xs);
      assert ys[1..] == StrValues(xs[1..]);
      assert ys[0] == Str(xs[0]);
      CleanEntryOfClean(xs[0]);
      CleanStringsOfClean(xs[1..]);
      assert xs == [xs[0]] + xs[1..];
    }
  }

  /** A clean string entry is kept as it is. */
  lemma CleanEntryOfClean(x: string)
    requires IsClean(x)
    ensures CleanEntry(Str(x)) == [x]
  {
    StripOfTrimmed(x);
  }

  /** `_as_string_list(value)`: a missing key or a non-list gives `[]`. */
  function StringListOf(v: Option<Value>): (r: seq<string>)
    ensures !(v.Some? && v.value.List?) ==> r == []
    ensures forall k :: 0 <= k < |r| ==> IsClean(r[k])
  {
    if v.Some? && v.value.List? then CleanStrings(v.value.items) else []
  }

  /** `_as_action_list(value)`: the string list, every entry normalised. */
  function ActionListOf(v: Option<Value>): (r: seq<string>)
    ensures |r| == |StringListOf(v)|
    ensures forall k :: 0 <= k < |r| ==> r[k] != [] && IsActionToken(r[k])
  {
    var xs := StringListOf(v);
    assert forall k :: 0 <= k < |xs| ==> NormalizeToken(xs[k]) != [] && IsActionToken(NormalizeToken(xs[k])) by {
      forall k | 0 <= k < |xs| ensures NormalizeToken(xs[k]) != [] && IsActionToken(NormalizeToken(xs[k])) {
        NormalizeTokenAliases(xs[k]);
      }
    }
    seq(|xs|, k requires 0 <= k < |xs| => NormalizeToken(xs[k]))
  }

  /** A list of canonical tokens reads back as itself. */
  lemma ActionListOfTokens(xs: seq<string>)
    requires forall k :: 0 <= k < |xs| ==> IsClean(xs[k]) && IsActionToken(xs[k])
    ensures ActionListOf(Some(List(StrValues(xs)))) == xs
  {
    CleanStringsOfClean(xs);
    forall k | 0 <= k < |xs| ensures NormalizeToken(xs[k]) == xs[k] {
      NormalizeTokenOfToken(xs[k]);
    }
  }

  /** `_as_optional_str(value)`: absent or blank gives `None`, otherwise the trimmed text. */
  function OptionalStrOf(v: Option<Value>): (r: Option<string>)
    ensures r.Some? ==> IsClean(r.value)
    ensures r.None? <==> v.None? || Strip(ToStr(v.value)) == []
  {
    if v.None? then None
    else
      var text := Strip(ToStr(v.value));
      if text == [] then None else Some(text)
  }

  /** Every key and value trimmed and non-empty, no key twice. */
  predicate IsCleanMap(d: Dict<string, string>) {
    UniqueKeys(d) && forall e :: e in d ==> IsClean(e.0) && IsClean(e.1)
  }

  /** One step of `_as_string_map`'s loop. */
  function StringMapStep(acc: Dict<string, string>, e: (string, Value)): Dict<string, string> {
    var key := Strip(e.0);
    var item := Strip(ToStr(e.1));
    if key != [] && item != [] then Put(acc, key, item) else acc
  }

  /** What `_as_string_map` builds from a table's entries. */
  function StringMapEntries(es: Dict<string, Value>): (r: Dict<string, string>)
    ensures IsCleanMap(r)
    decreases |es|
  {
    if es == [] then []
    else
      var acc := StringMapEntries(es[..|es| - 1]);
      StringMapStep(acc, es[|es| - 1])
  }

  /** The value of the last entry whose trimmed key is `k` and whose trimmed value is not blank. */
  function LastCleanValue(es: Dict<string, Value>, k: string): Option<string>
    decreases |es|
  {
    if es == [] then None
    else
      var e := es[|es| - 1];
      if Strip(e.0) == k && k != [] && Strip(ToStr(e.1)) != [] then Some(Strip(ToStr(e.1)))
      else LastCleanValue(es[..|es| - 1], k)
  }

  /** Looking a key up in the coerced map finds the last usable entry for it; blank ones are dropped. */
  lemma {:induction false} StringMapLookup(es: Dict<string, Value>, k: string)
    ensures Get(StringMapEntries(es), k) == LastCleanValue(es, k)
    decreases |es|
  {
    if es != [] {
      StringMapLookup(es[..|es| - 1], k);
    }
  }

  /** Extending the entries by one applies one more step. */
  lemma StringMapEntriesSnoc(es: Dict<string, Value>, i: nat)
    requires i < |es|
    ensures StringMapEntries(es[..i + 1]) == StringMapStep(StringMapEntries(es[..i]), es[i])
  {
    assert es[..i + 1][..i] == es[..i];
  }

  /** `_as_string_map(value)`: a missing key or a non-table gives `{}`. */
  function StringMapOf(v: Option<Value>): (r: Dict<string, string>)
    ensures IsCleanMap(r)
    ensures !(v.Some? && v.value.Table?) ==> r == []
  {
    if v.Some? && v.value.Table? then StringMapEntries(v.value.entries) else []
  }

  /** `_as_string_map`, filling its result entry by entry. */
  method AsStringMap(v: Option<Value>) returns (r: Dict<string, string>)
    ensures r == StringMapOf(v)
  {
    if !(v.Some? && v.value.Table?) {
      return [];
    }
    var es := v.value.entries;
    r := [];
    for i := 0 to |es|
      invariant r == StringMapEntries(es[..i])
    {
      var key := Strip(es[i].0);
      var item := Strip(ToStr(es[i].1));
      StringMapEntriesSnoc(es, i);
      if key != [] && item != [] {
        r := Put(r, key, item);
      }
    }
    assert es[..|es|] == es;
  }

  /** Action keys are canonical tokens and every argument list is clean. */
  predicate IsActionArgsMap(d: Dict<string, seq<string>>) {
    && UniqueKeys(d)
    && (forall e :: e in d ==> e.0 != [] && IsActionToken(e.0))
    && (forall e :: e in d ==> forall k :: 0 <= k < |e.1| ==> IsClean(e.1[k]))
  }

  /** One step of `_as_action_args_map`'s loop: blank keys and non-table entries are skipped. */
  function ActionArgsStep(acc: Dict<string, seq<string>>, e: (string, Value)): Dict<string, seq<string>> {
    var key := NormalizeToken(e.0);
    if key != [] && e.1.Table? then Put(acc, key, StringListOf(Get(e.1.entries, "args"))) else acc
  }

  /** What `_as_action_args_map` builds from a table's entries. */
  function ActionArgsEntries(es: Dict<string, Value>): (r: Dict<string, seq<string>>)
    ensures IsActionArgsMap(r)
    decreases |es|
  {
    if es == [] then []
    else
      var acc := ActionArgsEntries(es[..|es| - 1]);
      NormalizeTokenAliases(es[|es| - 1].0);
      ActionArgsStep(acc, es[|es| - 1])
  }

  /** Extending the entries by one applies one more step. */
  lemma ActionArgsEntriesSnoc(es: Dict<string, Value>, i: nat)
    requires i < |es|
    ensures ActionArgsEntries(es[..i + 1]) == ActionArgsStep(ActionArgsEntries(es[..i]), es[i])
  {
    assert es[..i + 1][..i] == es[..i];
  }

  /** The argument list of the last table entry whose normalised key is `k`. */
  function LastTableArgs(es: Dict<string, Value>, k: string): Option<seq<string>>
    decreases |es|
  {
    if es == [] then None
    else
      var e := es[|es| - 1];
      if NormalizeToken(e.0) == k && k != [] && e.1.Table? then Some(StringListOf(Get(e.1.entries, "args")))
      else LastTableArgs(es[..|es| - 1], k)
  }

  /** Looking an action up finds the arguments of its last table entry; other entries are skipped. */
  lemma {:induction false} ActionArgsLookup(es: Dict<string, Value>, k: string)
    ensures Get(ActionArgsEntries(es), k) == LastTableArgs(es, k)
    decreases |es|
  {
    if es != [] {
      ActionArgsLookup(es[..|es| - 1], k);
    }
  }

  /** `_as_action_args_map(value)`: a missing key or a non-table gives `{}`. */
  function ActionArgsOf(v: Option<Value>): (r: Dict<string, seq<string>>)
    ensures IsActionArgsMap(r)
    ensures !(v.Some? && v.value.Table?) ==> r == []
  {
    if v.Some? && v.value.Table? then ActionArgsEntries(v.value.entries) else []
  }

  /** `_as_action_args_map`, filling its result entry by entry. */
  method AsActionArgsMap(v: Option<Value>) returns (r: Dict<string, seq<string>>)
    ensures r == ActionArgsOf(v)
  {
    if !(v.Some? && v.value.Table?) {
      return [];
    }
    var es := v.value.entries;
    r := [];
    for i := 0 to |es|
      invariant r == ActionArgsEntries(es[..i])
    {
      var key := NormalizeToken(es[i].0);
      ActionArgsEntriesSnoc(es, i);
      if key != [] && es[i].1.Table? {
        r := Put(r, key, StringListOf(Get(es[i].1.entries, "args")));
      }
    }
    assert es[..|es|] == es;
  }

  // ---------------------------------------------------------------------
  // Configuration records

  /** `GlobalConfig`: defaults applied to every unit. */
  datatype GlobalConfig = GlobalConfig(
    mode: Option<string>,
    args: seq<string>,
    actions: seq<string>,
    tokens: Dict<string, string>,
    secrets: Dict<string, string>,
    actionArgs: Dict<string, seq<string>>)

  /** `UnitConfig`: one scheduled unit. */
  datatype UnitConfig = UnitConfig(
    name: string,
    schedule: string,
    mode: Option<string>,
    enabled: bool,
    args: seq<string>,
    actions: seq<string>,
    tokens: Dict<string, string>,
    secrets: Dict<string, string>,
    actionArgs: Dict<string, seq<string>>)

  /** `RunPlan`: the global defaults, the units in document order and the file they came from. */
  datatype Plan = Plan(globalConfig: GlobalConfig, units: seq<UnitConfig>, filePath: string)

  /** `ValidationIssue`. */
  datatype Issue = Issue(filePath: string, unitName: string, key: string, message: string)

  predicate AllClean(xs: seq<string>) {
    forall k :: 0 <= k < |xs| ==> IsClean(xs[k])
  }

  predicate AllActionTokens(xs: seq<string>) {
    forall k :: 0 <= k < |xs| ==> xs[k] != [] && IsActionToken(xs[k])
  }

  /** What lenient coercion guarantees about every global field. */
  predicate CoercedGlobal(g: GlobalConfig) {
    && (g.mode.Some? ==> IsClean(g.mode.value))
    && AllClean(g.args)
    && AllActionTokens(g.actions)
    && IsCleanMap(g.tokens)
    && IsCleanMap(g.secrets)
    && IsActionArgsMap(g.actionArgs)
  }

  /** What lenient coercion guarantees about every unit field. */
  predicate CoercedUnit(u: UnitConfig) {
    && IsTrimmed(u.name)
    && IsTrimmed(u.schedule)
    && (u.mode.Some? ==> IsClean(u.mode.value))
    && AllClean(u.args)
    && AllActionTokens(u.actions)
    && IsCleanMap(u.tokens)
    && IsCleanMap(u.secrets)
  }

  /** `_build_global_config(raw)`: every field coerced from its key, absent keys giving the empty default. */
  function BuildGlobalConfig(raw: Dict<string, Value>): (g: GlobalConfig)
    ensures CoercedGlobal(g)
    ensures raw == [] ==> g == GlobalConfig(None, [], [], [], [], [])
  {
    GlobalConfig(
      OptionalStrOf(Get(raw, "mode")),
      StringListOf(Get(raw, "args")),
      ActionListOf(Get(raw, "actions")),
      StringMapOf(Get(raw, "tokens")),
      StringMapOf(Get(raw, "secrets")),
      ActionArgsOf(Get(raw, "action")))
  }

  /** `_build_unit_config(raw)`: a missing name or schedule is `""`, a missing `enabled` is true. */
  function BuildUnitConfig(raw: Dict<string, Value>): (u: UnitConfig)
    ensures CoercedUnit(u) && IsActionArgsMap(u.actionArgs)
    ensures !HasKey(raw, "name") ==> u.name == ""
    ensures !HasKey(raw, "schedule") ==> u.schedule == ""
    ensures !HasKey(raw, "enabled") ==> u.enabled
  {
    UnitConfig(
      Strip(ToStr(Lookup(raw, "name", Str("")))),
      Strip(ToStr(Lookup(raw, "schedule", Str("")))),
      OptionalStrOf(Get(raw, "mode")),
      Truthy(Lookup(raw, "enabled", Bool(true))),
      StringListOf(Get(raw, "args")),
      ActionListOf(Get(raw, "actions")),
      StringMapOf(Get(raw, "tokens")),
      StringMapOf(Get(raw, "secrets")),
      ActionArgsOf(Get(raw, "action")))
  }

  // ---------------------------------------------------------------------
  // Merging a unit with the global defaults

  /** The argument lists of every entry of `b` whose key is `k`, joined in order. */
  function ArgsFor(b: Dict<string, seq<string>>, k: string): seq<string> {
    if b == [] then [] else (if b[0].0 == k then b[0].1 else []) + ArgsFor(b[1..], k)
  }

  /**
   * `_merge_action_args` from a partly merged table `acc`: each entry of `b`
   * appends its list to what `acc` holds for its key.
   */
  function MergeArgs(acc: Dict<string, seq<string>>, b: Dict<string, seq<string>>): Dict<string, seq<string>>
    decreases |b|
  {
    if b == [] then acc
    else
      var k := b[0].0;
      MergeArgs(Put(acc, k, GetOr(acc, k, []) + b[0].1), b[1..])
  }

  /** `_merge_action_args`, appending to a copy of the global table. */
  method MergeActionArgs(g: Dict<string, seq<string>>, u: Dict<string, seq<string>>) returns (merged: Dict<string, seq<string>>)
    ensures merged == MergeArgs(g, u)
  {
    merged := g;
    for i := 0 to |u|
      invariant MergeArgs(merged, u[i..]) == MergeArgs(g, u)
    {
      var key := u[i].0;
      assert u[i..][1..] == u[i + 1..];
      merged := Put(merged, key, GetOr(merged, key, []) + u[i].1);
    }
  }

  lemma {:induction false} ArgsForAbsent(b: Dict<string, seq<string>>, k: string)
    requires !HasKey(b, k)
    ensures ArgsFor(b, k) == []
  {
    if b != [] {
      GetCons(b, k);
      ArgsForAbsent(b[1..], k);
    }
  }

  /**
   * A key of `b` maps to what `acc` held for it followed by every list `b`
   * gives it; any other key keeps its entry.
   */
  lemma {:induction false} MergeArgsGet(acc: Dict<string, seq<string>>, b: Dict<string, seq<string>>, k: string)
    ensures HasKey(b, k) ==> Get(MergeArgs(acc, b), k) == Some(GetOr(acc, k, []) + ArgsFor(b, k))
    ensures !HasKey(b, k) ==> Get(MergeArgs(acc, b), k) == Get(acc, k)
    decreases |b|
  {
    if b != [] {
      var k0 := b[0].0;
      var acc' := Put(acc, k0, GetOr(acc, k0, []) + b[0].1);
      var rest := b[1..];
      assert MergeArgs(acc, b) == MergeArgs(acc', rest);
      MergeArgsGet(acc', rest, k);
      GetCons(b, k);
      if k0 == k {
        var old_ := GetOr(acc, k, []);
        assert GetOr(acc', k, []) == old_ + b[0].1;
        assert ArgsFor(b, k) == b[0].1 + ArgsFor(rest, k);
        if !HasKey(rest, k) {
          ArgsForAbsent(rest, k);
          assert b[0].1 + ArgsFor(rest, k) == b[0].1;
        } else {
          ConcatAssoc(old_, b[0].1, ArgsFor(rest, k));
        }
      } else {
        assert Get(acc', k) == Get(acc, k);
        assert ArgsFor(b, k) == ArgsFor(rest, k);
      }
    }
  }

  /** With each key once in `b`, a key of `b` maps to the global list followed by the unit list. */
  lemma {:induction false} ArgsForUnique(b: Dict<string, seq<string>>, k: string)
    requires UniqueKeys(b)
    ensures ArgsFor(b, k) == GetOr(b, k, [])
  {
    if b != [] {
      UniqueTail(b);
      GetCons(b, k);
      ArgsForUnique(b[1..], k);
      if b[0].0 == k {
        ArgsForAbsent(b[1..], k);
      }
    }
  }

  /** Merging appends lists but places keys exactly as a dict update does. */
  lemma {:induction false} MergeArgsKeys(acc: Dict<string, seq<string>>, acc': Dict<string, seq<string>>, b: Dict<string, seq<string>>)
    requires Keys(acc) == Keys(acc')
    ensures Keys(MergeArgs(acc, b)) == Keys(Update(acc', b))
    decreases |b|
  {
    if b != [] {
      var k := b[0].0;
      HasKeyIffInKeys(acc, k);
      HasKeyIffInKeys(acc', k);
      MergeArgsKeys(Put(acc, k, GetOr(acc, k, []) + b[0].1), Put(acc', k, b[0].1), b[1..]);
    }
  }

  /** `RunPlan.merged_unit(unit)`. */
  function MergedUnit(g: GlobalConfig, u: UnitConfig): UnitConfig {
    UnitConfig(
      u.name,
      u.schedule,
      if u.mode.Some? then u.mode else g.mode,
      u.enabled,
      g.args + u.args,
      g.actions + u.actions,
      Update(g.tokens, u.tokens),
      Update(g.secrets, u.secrets),
      MergeArgs(g.actionArgs, u.actionArgs))
  }

  /**
   * `merged_unit` on the maps: a key the unit sets takes the unit's value, any
   * other key keeps the global one; action lists are the global list followed
   * by the unit's.
   */
  lemma MergedUnitLookup(g: GlobalConfig, u: UnitConfig, k: string)
    requires IsCleanMap(u.tokens) && IsCleanMap(u.secrets) && IsActionArgsMap(u.actionArgs)
    ensures Get(MergedUnit(g, u).tokens, k) == if HasKey(u.tokens, k) then Get(u.tokens, k) else Get(g.tokens, k)
    ensures Get(MergedUnit(g, u).secrets, k) == if HasKey(u.secrets, k) then Get(u.secrets, k) else Get(g.secrets, k)
    ensures HasKey(u.actionArgs, k) ==>
      Get(MergedUnit(g, u).actionArgs, k) == Some(GetOr(g.actionArgs, k, []) + GetOr(u.actionArgs, k, []))
    ensures !HasKey(u.actionArgs, k) ==> Get(MergedUnit(g, u).actionArgs, k) == Get(g.actionArgs, k)
  {
    UpdateGet(g.tokens, u.tokens, k);
    UpdateGet(g.secrets, u.secrets, k);
    MergeArgsGet(g.actionArgs, u.actionArgs, k);
    ArgsForUnique(u.actionArgs, k);
  }

  /** `merged_unit` on key order: global keys where they were, then the unit's new keys. */
  lemma MergedUnitKeyOrder(g: GlobalConfig, u: UnitConfig)
    requires IsCleanMap(u.tokens) && IsCleanMap(u.secrets) && IsActionArgsMap(u.actionArgs)
    ensures Keys(MergedUnit(g, u).tokens) == Keys(g.tokens) + NewKeys(g.tokens, u.tokens)
    ensures Keys(MergedUnit(g, u).secrets) == Keys(g.secrets) + NewKeys(g.secrets, u.secrets)
    ensures Keys(MergedUnit(g, u).actionArgs) == Keys(g.actionArgs) + NewKeys(g.actionArgs, u.actionArgs)
  {
    UpdateKeyOrder(g.tokens, u.tokens);
    UpdateKeyOrder(g.secrets, u.secrets);
    MergeArgsKeys(g.actionArgs, g.actionArgs, u.actionArgs);
    UpdateKeyOrder(g.actionArgs, u.actionArgs);
  }

  /** Merging keeps every coercion guarantee. */
  lemma MergedUnitCoerced(g: GlobalConfig, u: UnitConfig)
    requires CoercedGlobal(g) && CoercedUnit(u)
    ensures CoercedUnit(MergedUnit(g, u))
  {
    var m := MergedUnit(g, u);
    assert AllClean(m.args) by {
      forall k | 0 <= k < |m.args| ensures IsClean(m.args[k]) {
        if k >= |g.args| {
          assert m.args[k] == u.args[k - |g.args|];
        }
      }
    }
    assert AllActionTokens(m.actions) by {
      forall k | 0 <= k < |m.actions| ensures m.actions[k] != [] && IsActionToken(m.actions[k]) {
        if k >= |g.actions| {
          assert m.actions[k] == u.actions[k - |g.actions|];
        }
      }
    }
    UpdateClean(g.tokens, u.tokens);
    UpdateClean(g.secrets, u.secrets);
  }

  /** A dict update of clean maps is clean. */
  lemma {:induction false} UpdateClean(a: Dict<string, string>, b: Dict<string, string>)
    requires IsCleanMap(a) && IsCleanMap(b)
    ensures IsCleanMap(Update(a, b))
    decreases |b|
  {
    if b != [] {
      UniqueTail(b);
      assert b[0] in b;
      UpdateClean(Put(a, b[0].0, b[0].1), b[1..]);
    }
  }

  // ---------------------------------------------------------------------
  // The five-field cron check

  /** `\d+`. */
  predicate IsNumber(s: string) {
    s != [] && forall k :: 0 <= k < |s| ==> IsDigit(s[k])
  }

  /** `_CRON_FIELD`: `*`, `N`, `N-M`, `*\/N`, or a comma list of two or more numbers. */
  predicate IsCronField(f: string) {
    || f == "*"
    || IsNumber(f)
    || (var i := IndexOf(f, '-'); i < |f| && IsNumber(f[..i]) && IsNumber(f[i + 1..]))
    || (|f| >= 2 && f[..2] == "*/" && IsNumber(f[2..]))
    || (var parts := Split(f, ','); |parts| >= 2 && forall k :: 0 <= k < |parts| ==> IsNumber(parts[k]))
  }

  /** `_is_valid_five_field_cron(expr)`. */
  predicate IsValidCron(expr: string) {
    var fields := SplitWs(expr);
    |fields| == 5 && forall k :: 0 <= k < 5 ==> IsCronField(fields[k])
  }

  predicate AllNumbers(ns: seq<string>) {
    forall k :: 0 <= k < |ns| ==> IsNumber(ns[k])
  }

  /** The regular expression `^(\*|\d+|\d+-\d+|\*\/\d+|\d+(,\d+)+)$` read as a grammar. */
  ghost predicate CronFieldGrammar(f: string) {
    || f == "*"
    || IsNumber(f)
    || (exists a, b :: IsNumber(a) && IsNumber(b) && f == a + "-" + b)
    || (exists n :: IsNumber(n) && f == "*/" + n)
    || (exists ns :: |ns| >= 2 && AllNumbers(ns) && f == Join(",", ns))
  }

  /** The field check accepts exactly the words of the grammar. */
  lemma CronFieldMatchesGrammar(f: string)
    ensures IsCronField(f) <==> CronFieldGrammar(f)
  {
    if IsCronField(f) {
      CronFieldSound(f);
    }
    if CronFieldGrammar(f) {
      CronFieldComplete(f);
    }
  }

  lemma CronFieldSound(f: string)
    requires IsCronField(f)
    ensures CronFieldGrammar(f)
  {
    var i := IndexOf(f, '-');
    var parts := Split(f, ',');
    if f == "*" || IsNumber(f) {
    } else if i < |f| && IsNumber(f[..i]) && IsNumber(f[i + 1..]) {
      assert f == f[..i] + "-" + f[i + 1..];
    } else if |f| >= 2 && f[..2] == "*/" && IsNumber(f[2..]) {
      assert f == "*/" + f[2..];
    } else {
      assert |parts| >= 2 && AllNumbers(parts);
      assert f == Join(",", parts);
    }
  }

  lemma CronFieldComplete(f: string)
    requires CronFieldGrammar(f)
    ensures IsCronField(f)
  {
    if f == "*" || IsNumber(f) {
    } else if exists a, b :: IsNumber(a) && IsNumber(b) && f == a + "-" + b {
      var a, b :| IsNumber(a) && IsNumber(b) && f == a + "-" + b;
      RangeField(a, b);
    } else if exists n :: IsNumber(n) && f == "*/" + n {
      var n :| IsNumber(n) && f == "*/" + n;
      assert f[..2] == "*/" && f[2..] == n;
    } else {
      var ns :| |ns| >= 2 && AllNumbers(ns) && f == Join(",", ns);
      ListField(ns);
    }
  }

  lemma RangeField(a: string, b: string)
    requires IsNumber(a) && IsNumber(b)
    ensures IsCronField(a + "-" + b)
  {
    var f := a + "-" + b;
    IndexOfFirst(a, '-', b);
    assert f == a + ['-'] + b;
    assert f[..|a|] == a && f[|a| + 1..] == b;
  }

  lemma ListField(ns: seq<string>)
    requires |ns| >= 2 && AllNumbers(ns)
    ensures IsCronField(Join(",", ns))
  {
    forall k | 0 <= k < |ns| ensures ',' !in ns[k] {
      assert IsNumber(ns[k]);
    }
    SplitOfJoin(ns, ',');
  }

  /** A schedule written as words separated by single spaces passes iff it has five words, each a field. */
  lemma ValidCronOfWords(fields: seq<string>)
    requires forall k :: 0 <= k < |fields| ==> IsWord(fields[k])
    ensures IsValidCron(Join(" ", fields)) <==> |fields| == 5 && forall k :: 0 <= k < 5 ==> IsCronField(fields[k])
  {
    SplitWsOfJoin(fields);
  }

  /** Five fields separated by single spaces make a valid schedule. */
  lemma FiveFieldSchedule(a: string, b: string, c: string, d: string, e: string)
    requires IsWord(a) && IsWord(b) && IsWord(c) && IsWord(d) && IsWord(e)
    requires IsCronField(a) && IsCronField(b) && IsCronField(c) && IsCronField(d) && IsCronField(e)
    ensures IsValidCron(a + (" " + (b + (" " + (c + (" " + (d + (" " + e))))))))
  {
    var fields := [a, b, c, d, e];
    JoinFive(" ", a, b, c, d, e);
    assert forall k :: 0 <= k < 5 ==> IsWord(fields[k]) && IsCronField(fields[k]) by {
      assert fields[0] == a && fields[1] == b && fields[2] == c && fields[3] == d && fields[4] == e;
    }
    ValidCronOfWords(fields);
  }

  /** The hourly schedule of the built-in plan passes. */
  lemma HourlyScheduleValid()
    ensures IsValidCron("0 * * * *")
  {
    assert "0 * * * *" == "0" + (" " + ("*" + (" " + ("*" + (" " + ("*" + (" " + "*")))))));
    assert IsNumber("0");
    FiveFieldSchedule("0", "*", "*", "*", "*");
  }

  /** The daily schedule of the built-in plan passes. */
  lemma DailyScheduleValid()
    ensures IsValidCron("0 6 * * *")
  {
    assert "0 6 * * *" == "0" + (" " + ("6" + (" " + ("*" + (" " + ("*" + (" " + "*")))))));
    assert IsNumber("0") && IsNumber("6");
    FiveFieldSchedule("0", "6", "*", "*", "*");
  }

  /** A schedule of three fields fails. */
  lemma ShortScheduleInvalid()
    ensures !IsValidCron("* * *")
  {
    var fields := ["*", "*", "*"];
    assert Join(" ", fields) == "* * *";
    ValidCronOfWords(fields);
  }

  // ---------------------------------------------------------------------
  // Validation

  const DuplicateName := "duplicate unit name"
  const BadSchedule := "invalid cron expression; expected 5 fields (minute hour day month weekday)"
  const NoActions := "must include at least one action"

  /** `unit.name.strip() or f"<unit[{idx}]>"`: how issues name a unit. */
  function DisplayName(u: UnitConfig, idx: nat): (r: string)
    ensures r != []
  {
    var n := Strip(u.name);
    if n != [] then n else "<unit[" + NatToString(idx) + "]>"
  }

  /** The display names of the first `n` units: `seen_names` after `n` rounds. */
  function SeenNames(p: Plan, n: nat): set<string>
    requires n <= |p.units|
  {
    set j | 0 <= j < n :: DisplayName(p.units[j], j)
  }

  /** What `validate` finds about one unit: the name it reports and which of the three checks fail. */
  datatype Verdict = Verdict(name: string, duplicate: bool, badSchedule: bool, noActions: bool)

  /** The checks `validate` runs on unit `i`, `seen_names` holding the names of the units before it. */
  function CheckUnit(p: Plan, i: nat): (v: Verdict)
    requires i < |p.units|
    ensures v.name == DisplayName(p.units[i], i)
  {
    var u := p.units[i];
    var name := DisplayName(u, i);
    Verdict(name, name in SeenNames(p, i), !IsValidCron(u.schedule), MergedUnit(p.globalConfig, u).actions == [])
  }

  /** The verdict on every unit, in document order. */
  function Verdicts(p: Plan): (vs: seq<Verdict>)
    ensures |vs| == |p.units|
    ensures forall i :: 0 <= i < |vs| ==> vs[i] == CheckUnit(p, i)
  {
    seq(|p.units|, i requires 0 <= i < |p.units| => CheckUnit(p, i))
  }

  /** Order of the three checks within one unit. */
  function KeyRank(key: string): nat {
    if key == "name" then 0 else if key == "schedule" then 1 else 2
  }

  /** The issues one verdict adds: at most one per check, in the order name, schedule, actions. */
  function VerdictIssues(filePath: string, v: Verdict): (r: seq<Issue>)
    ensures forall a :: 0 <= a < |r| ==> r[a].filePath == filePath && r[a].unitName == v.name
    ensures forall a, b :: 0 <= a < b < |r| ==> KeyRank(r[a].key) < KeyRank(r[b].key)
    ensures r == [] <==> !v.duplicate && !v.badSchedule && !v.noActions
  {
    (if v.duplicate then [Issue(filePath, v.name, "name", DuplicateName)] else [])
    + (if v.badSchedule then [Issue(filePath, v.name, "schedule", BadSchedule)] else [])
    + (if v.noActions then [Issue(filePath, v.name, "actions", NoActions)] else [])
  }

  /** The issues of a run of verdicts, in unit order. */
  function IssuesOf(filePath: string, vs: seq<Verdict>): seq<Issue> {
    if vs == [] then [] else IssuesOf(filePath, vs[..|vs| - 1]) + VerdictIssues(filePath, vs[|vs| - 1])
  }

  /** Every issue `validate` collects. */
  function PlanIssues(p: Plan): seq<Issue> {
    IssuesOf(p.filePath, Verdicts(p))
  }

  /** The issues `validate` appends for one unit, given the outcome of its three checks. */
  method UnitIssues(filePath: string, name: string, duplicate: bool, badSchedule: bool, noActions: bool)
    returns (found: seq<Issue>)
    ensures found == VerdictIssues(filePath, Verdict(name, duplicate, badSchedule, noActions))
  {
    found := [];
    if duplicate {
      found := found + [Issue(filePath, name, "name", DuplicateName)];
    }
    if badSchedule {
      found := found + [Issue(filePath, name, "schedule", BadSchedule)];
    }
    if noActions {
      found := found + [Issue(filePath, name, "actions", NoActions)];
    }
  }

  /** One more round of the loop in `validate` adds the next unit's display name. */
  lemma SeenNamesSnoc(p: Plan, n: nat)
    requires n < |p.units|
    ensures SeenNames(p, n + 1) == SeenNames(p, n) + {DisplayName(p.units[n], n)}
  {
  }

  /** One more verdict appends its issues. */
  lemma IssuesOfSnoc(filePath: string, vs: seq<Verdict>, n: nat)
    requires n < |vs|
    ensures IssuesOf(filePath, vs[..n + 1]) == IssuesOf(filePath, vs[..n]) + VerdictIssues(filePath, vs[n])
  {
    assert vs[..n + 1][..n] == vs[..n];
  }

  /** `RunPlan.validate`: the issues it would raise with, `[]` when it returns normally. */
  method Validate(p: Plan) returns (issues: seq<Issue>)
    ensures issues == PlanIssues(p)
  {
    issues := [];
    var seen: set<string> := {};
    ghost var vs := Verdicts(p);
    for idx := 0 to |p.units|
      invariant issues == IssuesOf(p.filePath, vs[..idx])
      invariant seen == SeenNames(p, idx)
    {
      var unit := p.units[idx];
      var name := DisplayName(unit, idx);
      var duplicate := name in seen;
      SeenNamesSnoc(p, idx);
      seen := seen + {name};
      var badSchedule := !IsValidCron(unit.schedule);
      var merged := MergedUnit(p.globalConfig, unit);
      var found := UnitIssues(p.filePath, name, duplicate, badSchedule, merged.actions == []);
      IssuesOfSnoc(p.filePath, vs, idx);
      issues := issues + found;
    }
    assert vs[..|p.units|] == vs;
  }

  /** A unit with a valid schedule and at least one merged action. */
  predicate UnitPasses(p: Plan, i: nat)
    requires i < |p.units|
  {
    IsValidCron(p.units[i].schedule) && MergedUnit(p.globalConfig, p.units[i]).actions != []
  }

  /** The plan's invariants, stated directly: distinct display names, valid schedules, some action each. */
  predicate ValidPlan(p: Plan) {
    && (forall i :: 0 <= i < |p.units| ==> UnitPasses(p, i))
    && (forall i, j :: 0 <= j < i < |p.units| ==> DisplayName(p.units[j], j) != DisplayName(p.units[i], i))
  }

  /** Issues of a later run of units follow those of an earlier one. */
  lemma {:induction false} IssuesOfConcat(filePath: string, a: seq<Verdict>, b: seq<Verdict>)
    ensures IssuesOf(filePath, a + b) == IssuesOf(filePath, a) + IssuesOf(filePath, b)
    decreases |b|
  {
    if b == [] {
      assert a + b == a;
    } else {
      var b' := b[..|b| - 1];
      assert (a + b)[..|a + b| - 1] == a + b';
      IssuesOfConcat(filePath, a, b');
      ConcatAssoc(IssuesOf(filePath, a), IssuesOf(filePath, b'), VerdictIssues(filePath, b[|b| - 1]));
    }
  }

  /** A verdict with no defect. */
  predicate Clean(v: Verdict) {
    !v.duplicate && !v.badSchedule && !v.noActions
  }

  /** No issue at all exactly when no verdict has a defect. */
  lemma {:induction false} IssuesOfEmpty(filePath: string, vs: seq<Verdict>)
    ensures IssuesOf(filePath, vs) == [] <==> forall i :: 0 <= i < |vs| ==> Clean(vs[i])
  {
    if vs != [] {
      var init := vs[..|vs| - 1];
      IssuesOfEmpty(filePath, init);
      assert IssuesOf(filePath, vs) == IssuesOf(filePath, init) + VerdictIssues(filePath, vs[|vs| - 1]);
      assert forall i :: 0 <= i < |init| ==> init[i] == vs[i];
    }
  }

  /** No earlier unit shares unit `i`'s display name. */
  predicate DistinctBefore(p: Plan, i: nat)
    requires i < |p.units|
  {
    forall j :: 0 <= j < i ==> DisplayName(p.units[j], j) != DisplayName(p.units[i], i)
  }

  /** The checks on one unit pass exactly when it passes on its own and its name is new. */
  lemma CheckUnitClean(p: Plan, i: nat)
    requires i < |p.units|
    ensures Clean(CheckUnit(p, i)) <==> UnitPasses(p, i) && DistinctBefore(p, i)
  {
    var name := DisplayName(p.units[i], i);
    if DistinctBefore(p, i) {
      assert name !in SeenNames(p, i);
    }
  }

  /**
   * A unit whose display name is new, whose schedule is not a five-field cron
   * expression and which has no action after merging gets exactly two
   * issues: the schedule one, then the actions one.
   */
  lemma UnseenBadUnitIssues(p: Plan, i: nat)
    requires i < |p.units| && DistinctBefore(p, i)
    requires !IsValidCron(p.units[i].schedule) && MergedUnit(p.globalConfig, p.units[i]).actions == []
    ensures var name := DisplayName(p.units[i], i);
      VerdictIssues(p.filePath, CheckUnit(p, i))
        == [Issue(p.filePath, name, "schedule", BadSchedule), Issue(p.filePath, name, "actions", NoActions)]
  {
    assert DisplayName(p.units[i], i) !in SeenNames(p, i);
  }

  /** `validate` passes iff the plan satisfies the invariants. */
  lemma ValidateIffValid(p: Plan)
    ensures PlanIssues(p) == [] <==> ValidPlan(p)
  {
    var vs := Verdicts(p);
    IssuesOfEmpty(p.filePath, vs);
    if PlanIssues(p) == [] {
      forall i | 0 <= i < |p.units|
        ensures UnitPasses(p, i) && DistinctBefore(p, i)
      {
        CheckUnitClean(p, i);
      }
      forall i, j | 0 <= j < i < |p.units|
        ensures DisplayName(p.units[j], j) != DisplayName(p.units[i], i)
      {
        assert DistinctBefore(p, i);
      }
    }
    if ValidPlan(p) {
      forall i | 0 <= i < |vs|
        ensures Clean(vs[i])
      {
        assert DistinctBefore(p, i);
        CheckUnitClean(p, i);
      }
    }
  }

  // ---------------------------------------------------------------------
  // Loading a plan from a decoded document

  /** The tables in the `unit` list, in document order; other entries are skipped. */
  function UnitTables(items: seq<Value>): (ts: seq<Dict<string, Value>>)
    ensures |ts| <= |items|
  {
    if items == [] then []
    else
      var last := items[|items| - 1];
      UnitTables(items[..|items| - 1]) + (if last.Table? then [last.entries] else [])
  }

  /** Tables are picked entry by entry, so picking distributes over concatenation. */
  lemma {:induction false} UnitTablesConcat(a: seq<Value>, b: seq<Value>)
    ensures UnitTables(a + b) == UnitTables(a) + UnitTables(b)
    decreases |b|
  {
    if b == [] {
      assert a + b == a;
    } else {
      var b' := b[..|b| - 1];
      var last := if b[|b| - 1].Table? then [b[|b| - 1].entries] else [];
      assert (a + b)[..|a + b| - 1] == a + b';
      UnitTablesConcat(a, b');
      ConcatAssoc(UnitTables(a), UnitTables(b'), last);
    }
  }

  /** An entry of the `unit` list that is not a table contributes nothing. */
  lemma UnitTablesSkip(a: seq<Value>, x: Value, b: seq<Value>)
    requires !x.Table?
    ensures UnitTables(a + [x] + b) == UnitTables(a + b)
  {
    UnitTablesConcat(a + [x], b);
    UnitTablesConcat(a, b);
    UnitTablesConcat(a, [x]);
    assert UnitTables([x]) == [] by {
      assert [x][..0] == [];
    }
  }

  /** A list made only of tables keeps every one of them, in order. */
  lemma {:induction false} UnitTablesAll(items: seq<Value>)
    requires forall k :: 0 <= k < |items| ==> items[k].Table?
    ensures |UnitTables(items)| == |items|
    ensures forall k :: 0 <= k < |items| ==> UnitTables(items)[k] == items[k].entries
  {
    if items != [] {
      UnitTablesAll(items[..|items| - 1]);
    }
  }

  /** One unit per table, built by `_build_unit_config`. */
  function BuildUnits(ts: seq<Dict<string, Value>>): (us: seq<UnitConfig>)
    ensures |us| == |ts|
    ensures forall k :: 0 <= k < |us| ==> us[k] == BuildUnitConfig(ts[k]) && CoercedUnit(us[k])
  {
    Map(ts, BuildUnitConfig)
  }

  /** `units_raw = raw.get("unit", [])` read as units; anything but a list gives none. */
  function UnitsOf(v: Option<Value>): (us: seq<UnitConfig>)
    ensures !(v.Some? && v.value.List?) ==> us == []
  {
    if v.Some? && v.value.List? then BuildUnits(UnitTables(v.value.items)) else []
  }

  /** The plan `from_mapping` builds before validating it. */
  function PlanOf(raw: Dict<string, Value>, filePath: string): (p: Plan)
    ensures p.filePath == filePath && CoercedGlobal(p.globalConfig)
    ensures forall k :: 0 <= k < |p.units| ==> CoercedUnit(p.units[k])
  {
    Plan(BuildGlobalConfig(EntriesOf(Get(raw, "global"))), UnitsOf(Get(raw, "unit")), filePath)
  }

  /** `RunPlan.from_mapping`: the plan, or the issues it raises `RunPlanValidationError` with. */
  function Load(raw: Dict<string, Value>, filePath: string): Result<Plan, seq<Issue>> {
    var p := PlanOf(raw, filePath);
    var issues := PlanIssues(p);
    if issues == [] then Ok(p) else Err(issues)
  }

  /** `from_mapping` never hands back a plan that breaks the invariants, and fails only with issues. */
  lemma LoadValidates(raw: Dict<string, Value>, filePath: string)
    ensures Load(raw, filePath).Ok? <==> ValidPlan(PlanOf(raw, filePath))
    ensures Load(raw, filePath).Ok? ==> Load(raw, filePath).value == PlanOf(raw, filePath)
    ensures Load(raw, filePath).Err? ==> Load(raw, filePath).error != []
  {
    ValidateIffValid(PlanOf(raw, filePath));
  }

  /** Reading one more entry of the `unit` list appends its unit when it is a table. */
  lemma UnitsSnoc(items: seq<Value>, i: nat)
    requires i < |items|
    ensures BuildUnits(UnitTables(items[..i + 1]))
      == BuildUnits(UnitTables(items[..i])) + (if items[i].Table? then [BuildUnitConfig(items[i].entries)] else [])
  {
    assert items[..i + 1][..i] == items[..i];
    var ts := UnitTables(items[..i]);
    if items[i].Table? {
      var t := items[i].entries;
      assert UnitTables(items[..i + 1]) == ts + [t];
      MapAppend(ts, t, BuildUnitConfig);
    }
  }

  /** The loop of `from_mapping` over the `unit` list. */
  method ReadUnits(items: seq<Value>) returns (units: seq<UnitConfig>)
    ensures units == BuildUnits(UnitTables(items))
  {
    units := [];
    for i := 0 to |items|
      invariant units == BuildUnits(UnitTables(items[..i]))
    {
      UnitsSnoc(items, i);
      if items[i].Table? {
        units := units + [BuildUnitConfig(items[i].entries)];
      }
    }
    assert items[..|items|] == items;
  }

  /** `RunPlan.from_mapping`: build the global defaults and the units, then validate. */
  method FromMapping(raw: Dict<string, Value>, filePath: string) returns (r: Result<Plan, seq<Issue>>)
    ensures r == Load(raw, filePath)
  {
    var globalCfg := BuildGlobalConfig(EntriesOf(Get(raw, "global")));
    var unitsRaw := GetOr(raw, "unit", List([]));
    var units: seq<UnitConfig> := [];
    if unitsRaw.List? {
      units := ReadUnits(unitsRaw.items);
    }
    var plan := Plan(globalCfg, units, filePath);
    var issues := Validate(plan);
    if issues != [] {
      return Err(issues);
    }
    return Ok(plan);
  }

  // ---------------------------------------------------------------------
  // The built-in plan

  /** A unit table as `default_plan` writes it: enabled, with a mode and a list of actions. */
  function UnitDocument(name: string, schedule: string, mode: string, actions: seq<string>): Dict<string, Value> {
    [("name", Str(name)), ("schedule", Str(schedule)), ("enabled", Bool(true)),
     ("mode", Str(mode)), ("actions", List(StrValues(actions)))]
  }

  /** A document with an empty `global` table and the given `unit` list. */
  function PlanDocument(units: seq<Value>): Dict<string, Value> {
    [("global", Table([])), ("unit", List(units))]
  }

  /** `default_plan()`: an hourly and a daily unit, no global defaults. */
  const DefaultPlanDocument: Dict<string, Value> := PlanDocument([
    Table(UnitDocument("hourly", "0 * * * *", "hourly", ["fetch", "summarize", "publish"])),
    Table(UnitDocument("daily", "0 6 * * *", "daily", ["fetch", "summarize", "publish", "podcast"]))])

  /** An empty `global` table gives the empty defaults; the units come from the `unit` list. */
  lemma PlanDocumentRead(units: seq<Value>, filePath: string)
    ensures PlanOf(PlanDocument(units), filePath)
      == Plan(GlobalConfig(None, [], [], [], [], []), BuildUnits(UnitTables(units)), filePath)
  {
    var d := PlanDocument(units);
    IndexOfKeyIs(d, "global", 0);
    IndexOfKeyIs(d, "unit", 1);
  }

  /** Two tables in the `unit` list are both picked, in order. */
  lemma TwoTables(a: Dict<string, Value>, b: Dict<string, Value>)
    ensures UnitTables([Table(a), Table(b)]) == [a, b]
  {
    var items := [Table(a), Table(b)];
    assert items[..1] == [Table(a)];
    assert UnitTables([Table(a)]) == [a] by {
      assert [Table(a)][..0] == [];
    }
  }

  lemma BuildTwoUnits(a: Dict<string, Value>, b: Dict<string, Value>)
    ensures BuildUnits([a, b]) == [BuildUnitConfig(a), BuildUnitConfig(b)]
  {
    assert [a, b] == [a] + [b];
    MapAppend([a], b, BuildUnitConfig);
    assert [a] == [] + [a];
    MapAppend([], a, BuildUnitConfig);
  }

  /** Where each key of a unit table written by `default_plan` is found. */
  lemma UnitDocumentGet(name: string, schedule: string, mode: string, actions: seq<string>)
    ensures var d := UnitDocument(name, schedule, mode, actions);
      && Get(d, "name") == Some(Str(name)) && Get(d, "schedule") == Some(Str(schedule))
      && Get(d, "enabled") == Some(Bool(true)) && Get(d, "mode") == Some(Str(mode))
      && Get(d, "actions") == Some(List(StrValues(actions)))
      && Get(d, "args") == None && Get(d, "tokens") == None && Get(d, "secrets") == None
      && Get(d, "action") == None
  {
    var d := UnitDocument(name, schedule, mode, actions);
    IndexOfKeyIs(d, "name", 0);
    IndexOfKeyIs(d, "schedule", 1);
    IndexOfKeyIs(d, "enabled", 2);
    IndexOfKeyIs(d, "mode", 3);
    IndexOfKeyIs(d, "actions", 4);
    IndexOfKeyIs(d, "args", 5);
    IndexOfKeyIs(d, "tokens", 5);
    IndexOfKeyIs(d, "secrets", 5);
    IndexOfKeyIs(d, "action", 5);
  }

  /** A unit table of clean values is read back field for field. */
  lemma UnitDocumentBuilt(name: string, schedule: string, mode: string, actions: seq<string>)
    requires IsClean(name) && IsTrimmed(schedule) && IsClean(mode)
    requires forall k :: 0 <= k < |actions| ==> IsClean(actions[k]) && IsActionToken(actions[k])
    ensures BuildUnitConfig(UnitDocument(name, schedule, mode, actions))
      == UnitConfig(name, schedule, Some(mode), true, [], actions, [], [], [])
  {
    var d := UnitDocument(name, schedule, mode, actions);
    UnitDocumentGet(name, schedule, mode, actions);
    assert Strip(ToStr(Lookup(d, "name", Str("")))) == name by {
      StripOfTrimmed(name);
    }
    assert Strip(ToStr(Lookup(d, "schedule", Str("")))) == schedule by {
      StripOfTrimmed(schedule);
    }
    assert OptionalStrOf(Get(d, "mode")) == Some(mode) by {
      StripOfTrimmed(mode);
    }
    assert ActionListOf(Get(d, "actions")) == actions by {
      ActionListOfTokens(actions);
    }
  }

  /** The units of the built-in plan once read. */
  const HourlyUnit := UnitConfig("hourly", "0 * * * *", Some("hourly"), true, [], ["fetch", "summarize", "publish"], [], [], [])
  const DailyUnit := UnitConfig("daily", "0 6 * * *", Some("daily"), true, [], ["fetch", "summarize", "publish", "podcast"], [], [], [])

  lemma HourlyUnitRead()
    ensures BuildUnitConfig(UnitDocument("hourly", "0 * * * *", "hourly", ["fetch", "summarize", "publish"])) == HourlyUnit
  {
    var actions := ["fetch", "summarize", "publish"];
    assert IsClean("hourly") && IsTrimmed("0 * * * *");
    TokensReady(actions);
    UnitDocumentBuilt("hourly", "0 * * * *", "hourly", actions);
  }

  lemma DailyUnitRead()
    ensures BuildUnitConfig(UnitDocument("daily", "0 6 * * *", "daily", ["fetch", "summarize", "publish", "podcast"])) == DailyUnit
  {
    var actions := ["fetch", "summarize", "publish", "podcast"];
    assert IsClean("daily") && IsTrimmed("0 6 * * *");
    TokensReady(actions);
    UnitDocumentBuilt("daily", "0 6 * * *", "daily", actions);
  }

  /** The actions of the built-in units are canonical tokens already. */
  lemma TokensReady(actions: seq<string>)
    requires actions == ["fetch", "summarize", "publish"] || actions == ["fetch", "summarize", "publish", "podcast"]
    ensures forall k :: 0 <= k < |actions| ==> IsClean(actions[k]) && IsActionToken(actions[k])
  {
    forall k | 0 <= k < |actions| ensures IsClean(actions[k]) && IsActionToken(actions[k]) {
      assert actions[k] in {"fetch", "summarize", "publish", "podcast"};
    }
  }

  /** The empty global defaults of the built-in plan. */
  const NoDefaults := GlobalConfig(None, [], [], [], [], [])

  /** Reading the built-in plan gives no global defaults and the two units, in order. */
  lemma DefaultPlanRead(filePath: string)
    ensures PlanOf(DefaultPlanDocument, filePath) == Plan(NoDefaults, [HourlyUnit, DailyUnit], filePath)
  {
    var hourly := UnitDocument("hourly", "0 * * * *", "hourly", ["fetch", "summarize", "publish"]);
    var daily := UnitDocument("daily", "0 6 * * *", "daily", ["fetch", "summarize", "publish", "podcast"]);
    PlanDocumentRead([Table(hourly), Table(daily)], filePath);
    TwoTables(hourly, daily);
    BuildTwoUnits(hourly, daily);
    HourlyUnitRead();
    DailyUnitRead();
  }

  /** Two units with distinct clean names, valid schedules and some actions of their own make a valid plan. */
  lemma TwoUnitPlanValid(g: GlobalConfig, u0: UnitConfig, u1: UnitConfig, filePath: string)
    requires IsClean(u0.name) && IsClean(u1.name) && u0.name != u1.name
    requires IsValidCron(u0.schedule) && IsValidCron(u1.schedule)
    requires u0.actions != [] && u1.actions != []
    ensures ValidPlan(Plan(g, [u0, u1], filePath))
  {
    var p := Plan(g, [u0, u1], filePath);
    assert p.units[0] == u0 && p.units[1] == u1;
    DisplayNameOfClean(u0, 0);
    DisplayNameOfClean(u1, 1);
    forall i | 0 <= i < |p.units| ensures UnitPasses(p, i) {
      UnitPassesOwn(p, i);
    }
    forall i, j | 0 <= j < i < |p.units| ensures DisplayName(p.units[j], j) != DisplayName(p.units[i], i) {
      assert j == 0 && i == 1;
    }
  }

  /** A clean name is its own display name. */
  lemma DisplayNameOfClean(u: UnitConfig, idx: nat)
    requires IsClean(u.name)
    ensures DisplayName(u, idx) == u.name
  {
    StripOfTrimmed(u.name);
  }

  /** A unit with a valid schedule and actions of its own passes whatever the defaults. */
  lemma UnitPassesOwn(p: Plan, i: nat)
    requires i < |p.units|
    requires IsValidCron(p.units[i].schedule) && p.units[i].actions != []
    ensures UnitPasses(p, i)
  {
    assert |MergedUnit(p.globalConfig, p.units[i]).actions| >= |p.units[i].actions|;
  }

  /** A document that reads as a valid plan loads as that plan. */
  lemma LoadOfValid(raw: Dict<string, Value>, filePath: string, p: Plan)
    requires PlanOf(raw, filePath) == p && ValidPlan(p)
    ensures Load(raw, filePath) == Ok(p)
  {
    LoadValidates(raw, filePath);
  }

  /** The unit names of the built-in plan are clean. */
  lemma DefaultUnitNames()
    ensures IsClean(HourlyUnit.name) && IsClean(DailyUnit.name)
  {
  }

  /** The hourly unit has a clean name, a valid schedule and actions of its own. */
  lemma HourlyUnitPasses()
    ensures IsClean(HourlyUnit.name) && IsValidCron(HourlyUnit.schedule) && HourlyUnit.actions != []
  {
    HourlyUnitSchedule();
    DefaultUnitNames();
  }

  lemma HourlyUnitSchedule()
    ensures IsValidCron(HourlyUnit.schedule)
  {
    HourlyScheduleValid();
  }

  /** The daily unit has a clean name, a valid schedule and actions of its own. */
  lemma DailyUnitPasses()
    ensures IsClean(DailyUnit.name) && IsValidCron(DailyUnit.schedule) && DailyUnit.actions != []
  {
    DailyUnitSchedule();
    DefaultUnitNames();
  }

  lemma DailyUnitSchedule()
    ensures IsValidCron(DailyUnit.schedule)
  {
    DailyScheduleValid();
  }

  /** The two units of the built-in plan satisfy the plan invariants. */
  lemma DefaultUnitsValid(filePath: string)
    ensures ValidPlan(Plan(NoDefaults, [HourlyUnit, DailyUnit], filePath))
  {
    HourlyUnitPasses();
    DailyUnitPasses();
    TwoUnitPlanValid(NoDefaults, HourlyUnit, DailyUnit, filePath);
  }

  /** The built-in plan passes validation. */
  lemma DefaultPlanLoads(filePath: string)
    ensures Load(DefaultPlanDocument, filePath) == Ok(Plan(NoDefaults, [HourlyUnit, DailyUnit], filePath))
  {
    DefaultPlanRead(filePath);
    DefaultUnitsValid(filePath);
    LoadOfValid(DefaultPlanDocument, filePath, Plan(NoDefaults, [HourlyUnit, DailyUnit], filePath));
  }

  // ---------------------------------------------------------------------
  // Rendering the crontab

  /** The search path cron jobs run with (written in two pieces, as are the other long lines here). */
  const PathLine: string := "PATH=/usr/local/sbin:/usr/local/bin:" + "/usr/sbin:/usr/bin:/sbin:/bin"
  const ShellLine: string := "SHELL=/bin/bash"
  const RedirectNote: string := "# Redirect job output " + "to the container log stream."

  /** The fixed lines every rendered crontab starts with. */
  const CronHeader: seq<string> := [PathLine, ShellLine, "", RedirectNote]

  const UnitCommentPrefix := "# unit: "
  const NoEnabledUnits := "# No enabled units found in run plan."
  const RunnerPath := "/usr/local/bin/minerva-run"

  /** What follows the runner on a unit's cron line: the unit, the plan, and the redirection to the container's log stream. */
  function RunnerArgs(name: string, planPath: string): string {
    "unit " + ShellQuote(name) + " --plan " + ShellQuote(planPath) + " >> /proc/1/fd/1 2>&1"
  }

  /** The command of a unit's cron line. */
  function UnitCommand(name: string, planPath: string): string {
    RunnerPath + " " + RunnerArgs(name, planPath)
  }

  /** The cron line of one unit; a system crontab has the user field `root` between schedule and command. */
  function ScheduleLine(u: UnitConfig, planPath: string, systemCron: bool): string {
    if systemCron then u.schedule + " root " + UnitCommand(u.name, planPath)
    else u.schedule + " " + UnitCommand(u.name, planPath)
  }

  /** The enabled units, in document order. */
  function EnabledUnits(units: seq<UnitConfig>): (r: seq<UnitConfig>)
    ensures |r| <= |units|
    ensures forall u :: u in r ==> u.enabled && u in units
    decreases |units|
  {
    if units == [] then []
    else
      var init, last := units[..|units| - 1], units[|units| - 1];
      var r := EnabledUnits(init) + (if last.enabled then [last] else []);
      assert forall u :: u in init ==> u in units;
      r
  }

  /** Every unit of a list made only of enabled units is kept; a disabled one is dropped. */
  lemma {:induction false} EnabledUnitsConcat(a: seq<UnitConfig>, b: seq<UnitConfig>)
    ensures EnabledUnits(a + b) == EnabledUnits(a) + EnabledUnits(b)
    decreases |b|
  {
    if b == [] {
      assert a + b == a;
    } else {
      var b' := b[..|b| - 1];
      var last := if b[|b| - 1].enabled then [b[|b| - 1]] else [];
      assert (a + b)[..|a + b| - 1] == a + b';
      EnabledUnitsConcat(a, b');
      ConcatAssoc(EnabledUnits(a), EnabledUnits(b'), last);
    }
  }

  lemma EnabledUnitsSingle(u: UnitConfig)
    ensures EnabledUnits([u]) == if u.enabled then [u] else []
  {
    assert [u][..0] == [];
  }

  /** The names of a list of units, in order. */
  function UnitNames(us: seq<UnitConfig>): (names: seq<string>)
    ensures |names| == |us|
    ensures forall k :: 0 <= k < |names| ==> names[k] == us[k].name
    decreases |us|
  {
    if us == [] then [] else UnitNames(us[..|us| - 1]) + [us[|us| - 1].name]
  }

  /** The names of the enabled units, in document order. */
  function EnabledNames(units: seq<UnitConfig>): seq<string> {
    UnitNames(EnabledUnits(units))
  }

  /** The comment line and the cron line of each unit in turn. */
  function UnitBlocks(us: seq<UnitConfig>, planPath: string, systemCron: bool): seq<string>
    decreases |us|
  {
    if us == [] then []
    else
      var u := us[|us| - 1];
      UnitBlocks(us[..|us| - 1], planPath, systemCron) + [UnitCommentPrefix + u.name, ScheduleLine(u, planPath, systemCron)]
  }

  /** Every line of the crontab `render_cron` writes for plan `p`, before they are joined with newlines. */
  function CronLines(p: Plan, systemCron: bool): seq<string> {
    var us := EnabledUnits(p.units);
    CronHeader + UnitBlocks(us, p.filePath, systemCron) + (if us == [] then [NoEnabledUnits] else [])
  }

  lemma EnabledUnitsSnoc(units: seq<UnitConfig>, i: nat)
    requires i < |units|
    ensures EnabledUnits(units[..i + 1]) == EnabledUnits(units[..i]) + (if units[i].enabled then [units[i]] else [])
  {
    assert units[..i + 1][..i] == units[..i];
  }

  lemma UnitBlocksSnoc(us: seq<UnitConfig>, u: UnitConfig, planPath: string, systemCron: bool)
    ensures UnitBlocks(us + [u], planPath, systemCron)
      == UnitBlocks(us, planPath, systemCron) + [UnitCommentPrefix + u.name, ScheduleLine(u, planPath, systemCron)]
  {
    assert (us + [u])[..|us|] == us;
  }

  /** The two lines `render_cron` appends for one enabled unit. */
  method AppendUnitLines(lines: seq<string>, unit: UnitConfig, planPathText: string, systemCron: bool)
    returns (r: seq<string>)
    ensures r == lines + [UnitCommentPrefix + unit.name, ScheduleLine(unit, planPathText, systemCron)]
  {
    var command := UnitCommand(unit.name, planPathText);
    r := lines + [UnitCommentPrefix + unit.name];
    if systemCron {
      r := r + [unit.schedule + " root " + command];
    } else {
      r := r + [unit.schedule + " " + command];
    }
  }

  /** The loop of `render_cron`: the two lines of each enabled unit appended in turn, and how many there were. */
  method AppendEnabledUnits(lines: seq<string>, units: seq<UnitConfig>, planPathText: string, systemCron: bool)
    returns (r: seq<string>, enabledCount: nat)
    ensures r == lines + UnitBlocks(EnabledUnits(units), planPathText, systemCron)
    ensures enabledCount == |EnabledUnits(units)|
  {
    r := lines;
    enabledCount := 0;
    for i := 0 to |units|
      invariant r == lines + UnitBlocks(EnabledUnits(units[..i]), planPathText, systemCron)
      invariant enabledCount == |EnabledUnits(units[..i])|
    {
      var unit := units[i];
      ghost var kept := EnabledUnits(units[..i]);
      EnabledUnitsSnoc(units, i);
      if !unit.enabled {
        assert kept + [] == kept;
        continue;
      }
      assert EnabledUnits(units[..i + 1]) == kept + [unit];
      ghost var before := UnitBlocks(kept, planPathText, systemCron);
      UnitBlocksSnoc(EnabledUnits(units[..i]), unit, planPathText, systemCron);
      r := AppendUnitLines(r, unit, planPathText, systemCron);
      ConcatAssoc(lines, before, [UnitCommentPrefix + unit.name, ScheduleLine(unit, planPathText, systemCron)]);
      enabledCount := enabledCount + 1;
    }
    assert units[..|units|] == units;
  }

  /** `render_cron`, given the loaded plan: the header, two lines per enabled unit, and a note when there is none. */
  method RenderCron(p: Plan, systemCron: bool) returns (text: string)
    ensures text == Join("\n", CronLines(p, systemCron))
  {
    var lines, enabledCount := AppendEnabledUnits(CronHeader, p.units, p.filePath, systemCron);
    ghost var us := EnabledUnits(p.units);
    if enabledCount == 0 {
      lines := lines + [NoEnabledUnits];
    } else {
      assert us != [];
      assert lines + [] == lines;
    }
    assert lines == CronLines(p, systemCron);
    text := Join("\n", lines);
  }

  /** Unit `k`'s comment is block line `2k`, its cron line block line `2k + 1`. */
  lemma {:induction false} UnitBlocksAt(us: seq<UnitConfig>, planPath: string, systemCron: bool)
    ensures |UnitBlocks(us, planPath, systemCron)| == 2 * |us|
    ensures forall k :: 0 <= k < |us| ==>
      && UnitBlocks(us, planPath, systemCron)[2 * k] == UnitCommentPrefix + us[k].name
      && UnitBlocks(us, planPath, systemCron)[2 * k + 1] == ScheduleLine(us[k], planPath, systemCron)
    decreases |us|
  {
    if us != [] {
      var init, u := us[..|us| - 1], us[|us| - 1];
      var prev := UnitBlocks(init, planPath, systemCron);
      var last := [UnitCommentPrefix + u.name, ScheduleLine(u, planPath, systemCron)];
      UnitBlocksAt(init, planPath, systemCron);
      assert UnitBlocks(us, planPath, systemCron) == prev + last;
      var comment := (x: UnitConfig) => UnitCommentPrefix + x.name;
      var cron := (x: UnitConfig) => ScheduleLine(x, planPath, systemCron);
      forall k | 0 <= k < |init|
        ensures prev[2 * k] == comment(us[k]) && prev[2 * k + 1] == cron(us[k])
      {
        assert us[k] == init[k];
      }
      PairsSnocAt(us, prev, comment, cron);
    }
  }

  /** Appending the pair of the last element extends a sequence of pairs, one per element. */
  lemma PairsSnocAt<U, T>(us: seq<U>, prev: seq<T>, f: U -> T, g: U -> T)
    requires us != [] && |prev| == 2 * (|us| - 1)
    requires forall k :: 0 <= k < |us| - 1 ==> prev[2 * k] == f(us[k]) && prev[2 * k + 1] == g(us[k])
    ensures var all := prev + [f(us[|us| - 1]), g(us[|us| - 1])];
      forall k :: 0 <= k < |us| ==> all[2 * k] == f(us[k]) && all[2 * k + 1] == g(us[k])
  {
  }

  /** Where the parts of `h + b + t` sit. */
  lemma ConcatParts<T>(h: seq<T>, b: seq<T>, t: seq<T>)
    ensures |h + b + t| == |h| + |b| + |t|
    ensures (h + b + t)[..|h|] == h
    ensures forall k :: 0 <= k < |b| ==> (h + b + t)[|h| + k] == b[k]
    ensures forall k :: 0 <= k < |t| ==> (h + b + t)[|h| + |b| + k] == t[k]
  {
  }

  /**
   * The layout of the crontab: the four header lines, then for each enabled
   * unit in document order its `# unit:` comment and its cron line, and the
   * closing note exactly when no unit is enabled.
   */
  lemma CronLayout(p: Plan, systemCron: bool)
    ensures var lines, us := CronLines(p, systemCron), EnabledUnits(p.units);
      && |lines| == 4 + 2 * |us| + (if us == [] then 1 else 0)
      && lines[..4] == CronHeader
      && (forall k :: 0 <= k < |us| ==>
            lines[4 + 2 * k] == UnitCommentPrefix + us[k].name
            && lines[4 + 2 * k + 1] == ScheduleLine(us[k], p.filePath, systemCron))
      && (us == [] ==> lines[4] == NoEnabledUnits)
  {
    var us := EnabledUnits(p.units);
    var blocks := UnitBlocks(us, p.filePath, systemCron);
    var tail := if us == [] then [NoEnabledUnits] else [];
    var lines := CronHeader + blocks + tail;
    assert CronLines(p, systemCron) == lines;
    assert |CronHeader| == 4;
    UnitBlocksAt(us, p.filePath, systemCron);
    ConcatParts(CronHeader, blocks, tail);
    var comment := (x: UnitConfig) => UnitCommentPrefix + x.name;
    var cron := (x: UnitConfig) => ScheduleLine(x, p.filePath, systemCron);
    PairsShifted(us, CronHeader, blocks, tail, comment, cron);
  }

  /** Pairs laid out after a header sit at the same places, shifted by the header's length. */
  lemma PairsShifted<U, T>(us: seq<U>, h: seq<T>, blocks: seq<T>, t: seq<T>, f: U -> T, g: U -> T)
    requires |blocks| == 2 * |us|
    requires forall k :: 0 <= k < |us| ==> blocks[2 * k] == f(us[k]) && blocks[2 * k + 1] == g(us[k])
    ensures forall k :: 0 <= k < |us| ==>
      (h + blocks + t)[|h| + 2 * k] == f(us[k]) && (h + blocks + t)[|h| + 2 * k + 1] == g(us[k])
  {
    ConcatParts(h, blocks, t);
  }

  /** The first character of a cron field is `*` or a digit. */
  lemma CronFieldStart(f: string)
    requires IsCronField(f)
    ensures f != [] && (f[0] == '*' || IsDigit(f[0]))
  {
    var i := IndexOf(f, '-');
    if f == "*" || IsNumber(f) {
    } else if i < |f| && IsNumber(f[..i]) && IsNumber(f[i + 1..]) {
      assert f[..i][0] == f[0];
    } else if |f| >= 2 && f[..2] == "*/" && IsNumber(f[2..]) {
      assert f[..2][0] == f[0];
    } else {
      var parts := Split(f, ',');
      assert IsNumber(parts[0]);
      JoinCons([','], parts[0], parts[1..]);
      assert parts == [parts[0]] + parts[1..];
      assert f == parts[0] + ([','] + Join([','], parts[1..]));
    }
  }

  /** A valid schedule does not start with `#`, so its cron line is never read as a comment. */
  lemma ValidCronStart(s: string)
    requires IsValidCron(s)
    ensures s != [] && s[0] != '#'
  {
    assert s != [];
    if !IsSpace(s[0]) {
      var i := FindFirst(s, IsSpace);
      assert SplitWs(s)[0] == s[..i];
      CronFieldStart(s[..i]);
    }
  }

  /** The unit names the `# unit:` comment lines carry, in line order. */
  function CommentedNames(lines: seq<string>): seq<string>
    decreases |lines|
  {
    if lines == [] then []
    else
      var l := lines[|lines| - 1];
      CommentedNames(lines[..|lines| - 1])
      + (if StartsWith(l, UnitCommentPrefix) then [l[|UnitCommentPrefix|..]] else [])
  }

  lemma {:induction false} CommentedNamesConcat(a: seq<string>, b: seq<string>)
    ensures CommentedNames(a + b) == CommentedNames(a) + CommentedNames(b)
    decreases |b|
  {
    if b == [] {
      assert a + b == a;
    } else {
      var b' := b[..|b| - 1];
      var l := b[|b| - 1];
      assert (a + b)[..|a + b| - 1] == a + b';
      CommentedNamesConcat(a, b');
      ConcatAssoc(CommentedNames(a), CommentedNames(b'),
        if StartsWith(l, UnitCommentPrefix) then [l[|UnitCommentPrefix|..]] else []);
    }
  }

  /** No enabled unit has a schedule that fails the cron check. */
  predicate EnabledSchedulesValid(us: seq<UnitConfig>) {
    forall u :: u in us ==> IsValidCron(u.schedule)
  }

  /** A unit's two lines give back exactly its name. */
  lemma BlockNames(u: UnitConfig, planPath: string, systemCron: bool)
    requires IsValidCron(u.schedule)
    ensures CommentedNames([UnitCommentPrefix + u.name, ScheduleLine(u, planPath, systemCron)]) == [u.name]
  {
    var c: string := UnitCommentPrefix + u.name;
    var l: string := ScheduleLine(u, planPath, systemCron);
    ValidCronStart(u.schedule);
    assert l[0] == u.schedule[0];
    NotStartsWithAt(l, UnitCommentPrefix, 0);
    assert StartsWith(c, UnitCommentPrefix) && c[|UnitCommentPrefix|..] == u.name;
    assert [c, l][..1] == [c];
    var none: seq<string> := [];
    assert [c][..0] == none;
    assert CommentedNames([c]) == [u.name];
    assert CommentedNames([c, l]) == CommentedNames([c]) + [];
  }

  lemma {:induction false} UnitBlocksNames(us: seq<UnitConfig>, planPath: string, systemCron: bool)
    requires EnabledSchedulesValid(us)
    ensures CommentedNames(UnitBlocks(us, planPath, systemCron)) == UnitNames(us)
    decreases |us|
  {
    if us != [] {
      var init, u := us[..|us| - 1], us[|us| - 1];
      var pair := [UnitCommentPrefix + u.name, ScheduleLine(u, planPath, systemCron)];
      var before := UnitBlocks(init, planPath, systemCron);
      assert UnitBlocks(us, planPath, systemCron) == before + pair;
      assert forall v :: v in init ==> v in us;
      UnitBlocksNames(init, planPath, systemCron);
      CommentedNamesConcat(before, pair);
      BlockNames(u, planPath, systemCron);
    }
  }

  /** A line that differs from the prefix at some position before the prefix's end does not start with it. */
  lemma NotStartsWithAt(s: string, prefix: string, i: nat)
    requires i < |prefix| && (i < |s| ==> s[i] != prefix[i])
    ensures !StartsWith(s, prefix)
  {
    if |prefix| <= |s| {
      assert s[..|prefix|][i] != prefix[i];
    }
  }

  /** No line of a run of lines that are not unit comments contributes a name. */
  lemma {:induction false} NoCommentedNames(lines: seq<string>)
    requires forall k :: 0 <= k < |lines| ==> !StartsWith(lines[k], UnitCommentPrefix)
    ensures CommentedNames(lines) == []
    decreases |lines|
  {
    if lines != [] {
      NoCommentedNames(lines[..|lines| - 1]);
    }
  }

  lemma HeaderNames()
    ensures CommentedNames(CronHeader) == []
  {
    var h := CronHeader;
    assert h[0][0] == 'P' && h[1][0] == 'S' && h[3][2] == 'R';
    NotStartsWithAt(h[0], UnitCommentPrefix, 0);
    NotStartsWithAt(h[1], UnitCommentPrefix, 0);
    NotStartsWithAt(h[2], UnitCommentPrefix, 0);
    NotStartsWithAt(h[3], UnitCommentPrefix, 2);
    NoCommentedNames(h);
  }

  lemma ClosingNoteNames()
    ensures CommentedNames([NoEnabledUnits]) == []
  {
    NotStartsWithAt(NoEnabledUnits, UnitCommentPrefix, 2);
    NoCommentedNames([NoEnabledUnits]);
  }

  /**
   * Reading the unit names back from the `# unit:` comments of the crontab's
   * lines, before they are joined, gives the enabled units' names in
   * document order.
   */
  lemma CronNamesRoundTrip(p: Plan, systemCron: bool)
    requires forall i :: 0 <= i < |p.units| ==> IsValidCron(p.units[i].schedule)
    ensures CommentedNames(CronLines(p, systemCron)) == EnabledNames(p.units)
  {
    var us := EnabledUnits(p.units);
    EnabledKeepValid(p.units);
    CronLinesNames(p, systemCron);
    UnitBlocksNames(us, p.filePath, systemCron);
  }

  /** No unit name or schedule of the plan, and not its path, holds a line break. */
  predicate OneLineFields(p: Plan) {
    && NoneOf(p.filePath, IsLineBreak)
    && forall i :: 0 <= i < |p.units| ==>
         NoneOf(p.units[i].name, IsLineBreak) && NoneOf(p.units[i].schedule, IsLineBreak)
  }

  /** A unit's cron line is one line when its name, its schedule and the plan path are. */
  lemma ScheduleLineOneLine(u: UnitConfig, planPath: string, systemCron: bool)
    requires NoneOf(u.name, IsLineBreak) && NoneOf(u.schedule, IsLineBreak) && NoneOf(planPath, IsLineBreak)
    ensures NoneOf(ScheduleLine(u, planPath, systemCron), IsLineBreak)
  {
    var command := UnitCommand(u.name, planPath);
    CommandOneLine(u.name, planPath);
    var sep := if systemCron then " root " else " ";
    CommandLiteralsOneLine();
    NoneOfConcat(u.schedule, sep, IsLineBreak);
    NoneOfConcat(u.schedule + sep, command, IsLineBreak);
    assert ScheduleLine(u, planPath, systemCron) == u.schedule + sep + command;
  }

  /** The runner's command line is one line when the unit name and the plan path are. */
  lemma CommandOneLine(name: string, planPath: string)
    requires NoneOf(name, IsLineBreak) && NoneOf(planPath, IsLineBreak)
    ensures NoneOf(UnitCommand(name, planPath), IsLineBreak)
  {
    var q1, q2 := ShellQuote(name), ShellQuote(planPath);
    ShellQuoteOneLine(name);
    ShellQuoteOneLine(planPath);
    CommandLiteralsOneLine();
    var a := "unit " + q1;
    NoneOfConcat("unit ", q1, IsLineBreak);
    NoneOfConcat(a, " --plan ", IsLineBreak);
    NoneOfConcat(a + " --plan ", q2, IsLineBreak);
    NoneOfConcat(a + " --plan " + q2, " >> /proc/1/fd/1 2>&1", IsLineBreak);
    var args := RunnerArgs(name, planPath);
    assert args == a + " --plan " + q2 + " >> /proc/1/fd/1 2>&1";
    NoneOfConcat(RunnerPath, " ", IsLineBreak);
    NoneOfConcat(RunnerPath + " ", args, IsLineBreak);
  }

  /** The fixed words of a cron line hold no line break. */
  lemma CommandLiteralsOneLine()
    ensures NoneOf("unit ", IsLineBreak) && NoneOf(" --plan ", IsLineBreak)
    ensures NoneOf(" >> /proc/1/fd/1 2>&1", IsLineBreak) && NoneOf(RunnerPath, IsLineBreak)
    ensures NoneOf(" ", IsLineBreak) && NoneOf(" root ", IsLineBreak)
  {
    PrintableOneLine("unit ");
    PrintableOneLine(" --plan ");
    PrintableOneLine(" >> /proc/1/fd/1 2>&1");
    PrintableOneLine(RunnerPath);
    PrintableOneLine(" ");
    PrintableOneLine(" root ");
  }

  /** The fixed lines of the crontab hold no line break. */
  lemma FixedLinesOneLine()
    ensures AllOneLine(CronHeader) && AllOneLine([NoEnabledUnits]) && AllOneLine([])
  {
    PathLineOneLine();
    ShellLineOneLine();
    RedirectNoteOneLine();
    NoteOneLine();
    assert CronHeader[2] == [];
  }

  lemma PathLineOneLine()
    ensures NoneOf(PathLine, IsLineBreak)
  {
    PrintableOneLine("PATH=/usr/local/sbin:/usr/local/bin:");
    PrintableOneLine("/usr/sbin:/usr/bin:/sbin:/bin");
    NoneOfConcat("PATH=/usr/local/sbin:/usr/local/bin:", "/usr/sbin:/usr/bin:/sbin:/bin", IsLineBreak);
  }

  lemma ShellLineOneLine()
    ensures NoneOf(ShellLine, IsLineBreak)
  {
    PrintableOneLine(ShellLine);
  }

  lemma RedirectNoteOneLine()
    ensures NoneOf(RedirectNote, IsLineBreak)
  {
    PrintableOneLine("# Redirect job output ");
    PrintableOneLine("to the container log stream.");
    NoneOfConcat("# Redirect job output ", "to the container log stream.", IsLineBreak);
  }

  lemma NoteOneLine()
    ensures NoneOf(NoEnabledUnits, IsLineBreak)
  {
    PrintableOneLine(NoEnabledUnits);
  }

  /**
   * The crontab text splits back into exactly the lines `render_cron` joined,
   * as long as no unit name or schedule and not the plan path breaks a line.
   */
  lemma CronTextLines(p: Plan, systemCron: bool)
    requires OneLineFields(p)
    ensures SplitLines(Join("\n", CronLines(p, systemCron))) == CronLines(p, systemCron)
  {
    var us := EnabledUnits(p.units);
    var blocks := UnitBlocks(us, p.filePath, systemCron);
    var tail := if us == [] then [NoEnabledUnits] else [];
    var lines := CronLines(p, systemCron);
    assert lines == CronHeader + blocks + tail;
    FixedLinesOneLine();
    BlocksOneLine(p, systemCron);
    AllOneLineConcat(CronHeader, blocks);
    AllOneLineConcat(CronHeader + blocks, tail);
    LastCronLine(p, systemCron);
    SplitLinesOfJoin(lines);
  }

  /** The unit blocks of a plan whose fields are one line each hold no line break. */
  lemma BlocksOneLine(p: Plan, systemCron: bool)
    requires OneLineFields(p)
    ensures AllOneLine(UnitBlocks(EnabledUnits(p.units), p.filePath, systemCron))
  {
    var us := EnabledUnits(p.units);
    forall u | u in us ensures NoneOf(u.name, IsLineBreak) && NoneOf(u.schedule, IsLineBreak) {
      var i :| 0 <= i < |p.units| && p.units[i] == u;
    }
    UnitBlocksOneLine(us, p.filePath, systemCron);
  }

  lemma {:induction false} UnitBlocksOneLine(us: seq<UnitConfig>, planPath: string, systemCron: bool)
    requires NoneOf(planPath, IsLineBreak)
    requires forall u :: u in us ==> NoneOf(u.name, IsLineBreak) && NoneOf(u.schedule, IsLineBreak)
    ensures AllOneLine(UnitBlocks(us, planPath, systemCron))
    decreases |us|
  {
    if us != [] {
      var init, u := us[..|us| - 1], us[|us| - 1];
      assert forall v :: v in init ==> v in us;
      UnitBlocksOneLine(init, planPath, systemCron);
      CommentOneLine(u.name);
      ScheduleLineOneLine(u, planPath, systemCron);
      var last := [UnitCommentPrefix + u.name, ScheduleLine(u, planPath, systemCron)];
      assert AllOneLine(last);
      AllOneLineConcat(UnitBlocks(init, planPath, systemCron), last);
    }
  }

  lemma CommentOneLine(name: string)
    requires NoneOf(name, IsLineBreak)
    ensures NoneOf(UnitCommentPrefix + name, IsLineBreak)
  {
    PrintableOneLine(UnitCommentPrefix);
    NoneOfConcat(UnitCommentPrefix, name, IsLineBreak);
  }

  /** The last line of a crontab is a unit's cron line or the closing note, never empty. */
  lemma LastCronLine(p: Plan, systemCron: bool)
    ensures var lines := CronLines(p, systemCron); lines != [] && lines[|lines| - 1] != []
  {
    var us := EnabledUnits(p.units);
    var blocks := UnitBlocks(us, p.filePath, systemCron);
    var lines := CronLines(p, systemCron);
    if us != [] {
      var u := us[|us| - 1];
      assert lines[|lines| - 1] == ScheduleLine(u, p.filePath, systemCron);
      assert |RunnerPath| <= |ScheduleLine(u, p.filePath, systemCron)|;
    } else {
      assert lines[|lines| - 1] == NoEnabledUnits;
    }
  }

  /**
   * Reading the unit names back from the `# unit:` comments of the rendered
   * crontab text gives the enabled units' names in document order.
   */
  lemma CronTextNamesRoundTrip(p: Plan, systemCron: bool)
    requires forall i :: 0 <= i < |p.units| ==> IsValidCron(p.units[i].schedule)
    requires OneLineFields(p)
    ensures CommentedNames(SplitLines(Join("\n", CronLines(p, systemCron)))) == EnabledNames(p.units)
  {
    CronTextLines(p, systemCron);
    CronNamesRoundTrip(p, systemCron);
  }

  /** Every enabled unit comes from the plan, so its schedule is valid too. */
  lemma EnabledKeepValid(units: seq<UnitConfig>)
    requires forall i :: 0 <= i < |units| ==> IsValidCron(units[i].schedule)
    ensures EnabledSchedulesValid(EnabledUnits(units))
  {
    var us := EnabledUnits(units);
    forall u | u in us ensures IsValidCron(u.schedule) {
      var i :| 0 <= i < |units| && units[i] == u;
    }
  }

  /** Only the unit blocks of a rendered plan carry `# unit:` comments. */
  lemma CronLinesNames(p: Plan, systemCron: bool)
    ensures CommentedNames(CronLines(p, systemCron))
      == CommentedNames(UnitBlocks(EnabledUnits(p.units), p.filePath, systemCron))
  {
    var us := EnabledUnits(p.units);
    var blocks := UnitBlocks(us, p.filePath, systemCron);
    var tail := if us == [] then [NoEnabledUnits] else [];
    var none: seq<string> := [];
    assert CommentedNames(tail) == none by {
      ClosingNoteNames();
    }
    assert CronLines(p, systemCron) == CronHeader + blocks + tail;
    CommentedNamesConcat(CronHeader + blocks, tail);
    CommentedNamesConcat(CronHeader, blocks);
    HeaderNames();
    assert none + CommentedNames(blocks) + none == CommentedNames(blocks);
  }

  /** A single word splits to itself. */
  lemma SplitWsOneWord(w: string)
    requires IsWord(w)
    ensures SplitWs(w) == [w]
  {
    SplitWsWord(w, "");
    assert w + "" == w;
  }

  /** The runner is the first field of a unit's command. */
  lemma UnitCommandFields(name: string, planPath: string)
    ensures var fields := SplitWs(UnitCommand(name, planPath));
      |fields| >= 1 && fields[0] == RunnerPath
  {
    var w, rest := RunnerPath, RunnerArgs(name, planPath);
    assert IsWord(w) by {
      assert forall k :: 0 <= k < |w| ==> ' ' < w[k] <= '~';
    }
    FirstWord(w, rest);
  }

  /** A word followed by a space is the first field, whatever comes after. */
  lemma FirstWord(w: string, rest: string)
    requires IsWord(w)
    ensures var fields := SplitWs(w + " " + rest);
      |fields| >= 1 && fields[0] == w
  {
    SplitWsAroundSpace(w, rest);
    SplitWsOneWord(w);
  }

  /**
   * The whitespace-separated fields of a cron line: the schedule's five, then
   * `root` exactly in a system crontab, then the runner.
   */
  lemma ScheduleLineFields(u: UnitConfig, planPath: string, systemCron: bool)
    requires IsValidCron(u.schedule)
    ensures var fields := SplitWs(ScheduleLine(u, planPath, systemCron));
      && |fields| >= (if systemCron then 7 else 6)
      && fields[..5] == SplitWs(u.schedule)
      && (fields[5] == "root" <==> systemCron)
      && fields[if systemCron then 6 else 5] == RunnerPath
  {
    UnitCommandFields(u.name, planPath);
    assert |SplitWs(u.schedule)| == 5;
    LineFields(u.schedule, UnitCommand(u.name, planPath), systemCron);
  }

  /** The fields of a cron line built from a five-field schedule and a command whose first field is the runner. */
  lemma LineFields(schedule: string, cmd: string, systemCron: bool)
    requires |SplitWs(schedule)| == 5
    requires |SplitWs(cmd)| >= 1 && SplitWs(cmd)[0] == RunnerPath
    ensures var fields := SplitWs(if systemCron then schedule + " root " + cmd else schedule + " " + cmd);
      && |fields| >= (if systemCron then 7 else 6)
      && fields[..5] == SplitWs(schedule)
      && (fields[5] == "root" <==> systemCron)
      && fields[if systemCron then 6 else 5] == RunnerPath
  {
    var head, tail := SplitWs(schedule), SplitWs(cmd);
    if systemCron {
      assert schedule + " root " + cmd == schedule + (" " + "root" + " ") + cmd;
      assert IsWord("root");
      WordsAroundUser(schedule, "root", cmd);
    } else {
      SplitWsAroundSpace(schedule, cmd);
      assert RunnerPath != "root";
    }
  }

  /** The fields of `s user cmd`: those of `s`, then the user word, then those of `cmd`. */
  lemma WordsAroundUser(s: string, user: string, cmd: string)
    requires IsWord(user)
    ensures SplitWs(s + (" " + user + " ") + cmd) == SplitWs(s) + [user] + SplitWs(cmd)
  {
    var rest := user + " " + cmd;
    UserRegrouped(s, user, cmd);
    SplitWsAroundSpace(s, rest);
    SplitWsAroundSpace(user, cmd);
    SplitWsOneWord(user);
    var left, words := SplitWs(s), SplitWs(cmd);
    assert SplitWs(rest) == [user] + words;
    ConcatAssoc(left, [user], words);
  }

  /** `s root cmd` regrouped as `s`, a space, and `root cmd`. */
  lemma UserRegrouped(s: string, user: string, cmd: string)
    ensures s + (" " + user + " ") + cmd == s + " " + (user + " " + cmd)
  {
    ConcatAssoc(s, " " + user + " ", cmd);
    ConcatAssoc(" " + user, " ", cmd);
    ConcatAssoc(" ", user, " " + cmd);
    ConcatAssoc(user, " ", cmd);
    ConcatAssoc(s, " ", user + " " + cmd);
  }
}
