/**
 * Rule registration: how the declarative rule list becomes one scope record
 * per command. These functions are the meaning of the registration steps
 * of `__commander` (`createRuleItem`, `getRule`, `addRule` and the rule
 * loop); the class in commander.dfy performs them step by step.
 */
module Rules {
  import opened Types

  /** `add_(o)`: `-o` for a one-character name, `--o` otherwise. */
  function Dashed(o: string): string
  {
    if |o| == 1 then "-" + o else "--" + o
  }

  /** Two different (non-empty) names never share a spelling. */
  lemma DashedInjective(a: string, b: string)
    requires a != "" && b != "" && Dashed(a) == Dashed(b)
    ensures a == b
  {
    if |a| == 1 && |b| == 1 {
      assert a == Dashed(a)[1..];
    } else if |a| != 1 && |b| != 1 {
      assert a == Dashed(a)[2..];
    }
  }

  /** Only the option name `h` is spelled `-h`, and only `help` is spelled `--help`. */
  lemma DashedHelpFlags(o: string)
    ensures Dashed(o) == "-h" <==> o == "h"
    ensures Dashed(o) == "--help" <==> o == "help"
  {
    if Dashed(o) == "-h" {
      assert Dashed(o)[1] == 'h';
      assert |o| == 1;
      assert o == Dashed(o)[1..];
    }
    if Dashed(o) == "--help" {
      assert |o| == 4;
      assert o == Dashed(o)[2..];
    }
  }

  /** `reg_o(o.option, o.alias).test(token)`: the token is the option's spelling or its alias's. */
  predicate MatchesFlag(o: FieldSpec, token: string)
  {
    token == Dashed(o.option) || (o.alias != "" && token == Dashed(o.alias))
  }

  /** `getChar(o, a)`: the one-character alias, else the one-character option name, else `''`. */
  function ShortFlag(option: string, alias: string): (r: string)
    ensures |r| <= 1
    ensures r != "" <==> |alias| == 1 || |option| == 1
    ensures |alias| == 1 ==> r == alias
    ensures |alias| != 1 && |option| == 1 ==> r == option
  {
    if |alias| == 1 then alias
    else if |option| == 1 then option
    else ""
  }

  /**
   * The letter `getChar` shows for an option is one of the keys that option
   * files in the flag table, and it shows one exactly when the option files
   * any.
   */
  lemma ShortFlagIsTableKey(option: string, alias: string)
    ensures ShortFlag(option, alias) != "" <==> ShortKeys(option, alias) != {}
    ensures ShortFlag(option, alias) != "" ==> ShortFlag(option, alias)[0] in ShortKeys(option, alias)
  {
    if |option| == 1 {
      assert option[0] in ShortKeys(option, alias);
    }
    if |alias| == 1 {
      assert alias[0] in ShortKeys(option, alias);
    }
  }

  /** `list.indexOf(x)`. */
  function IndexOf(list: seq<string>, x: string): (i: int)
    ensures -1 <= i < |list|
    ensures i == -1 <==> x !in list
    ensures i >= 0 ==> list[i] == x && x !in list[..i]
    decreases |list|
  {
    if |list| == 0 then -1
    else if list[0] == x then 0
    else
      var j := IndexOf(list[1..], x);
      assert j >= 0 ==> list[1..][..j] == list[1..j + 1];
      if j < 0 then -1 else j + 1
  }

  /** `hi = list.indexOf(x); hi >= 0 && list.splice(hi, 1)`: drops the first `x`, if any. */
  function RemoveFirst(list: seq<string>, x: string): (r: seq<string>)
    ensures x !in list ==> r == list
    ensures x in list ==> |r| == |list| - 1 && multiset(r) == multiset(list) - multiset{x}
  {
    var hi := IndexOf(list, x);
    if hi >= 0 then
      assert list == list[..hi] + [x] + list[hi + 1..];
      list[..hi] + list[hi + 1..]
    else list
  }

  /** `createRuleItem({cmd, description})`: a scope with the default help flags and nothing declared. */
  function NewScope(cmd: string, description: string): Scope
  {
    Scope(cmd, description, [], [], map[], ["-h", "--help"], map[])
  }

  /** `getRule(cmd)`: the registry, with a fresh scope for `cmd` if it had none. */
  function EnsureScope(hash: map<string, Scope>, cmd: string): (h: map<string, Scope>)
    ensures h.Keys == hash.Keys + {cmd}
    ensures forall k :: k in hash ==> h[k] == hash[k]
    ensures cmd !in hash ==> h[cmd] == NewScope(cmd, "")
  {
    if cmd in hash then hash else hash[cmd := NewScope(cmd, "")]
  }

  /** A bare name: a required positional whose result field starts out as `''`. */
  function AddBare(s: Scope, name: string): (r: Scope)
    ensures r.params == s.params + [FieldSpec(name, true, "", "", NoFormat, None, None)]
    ensures r.result.Keys == s.result.Keys + {name} && r.result[name] == Str("")
    ensures r.(params := s.params, result := s.result) == s
  {
    s.(params := s.params + [FieldSpec(name, true, "", "", NoFormat, None, None)],
       result := s.result[name := Str("")])
  }

  /** The single-character table keys an option's name and alias contribute. */
  function ShortKeys(option: string, alias: string): set<char>
  {
    (if |option| == 1 then {option[0]} else {}) + (if |alias| == 1 then {alias[0]} else {})
  }

  /** The help flags an option withdraws: its own spelling, then its alias's. */
  function WithdrawFlags(help: seq<string>, option: string, alias: string): seq<string>
  {
    var help' := RemoveFirst(help, Dashed(option));
    if alias != "" then RemoveFirst(help', Dashed(alias)) else help'
  }

  /** `addRule(ruleObj, rule)`: file an object rule under its scope. */
  function AddRule(s: Scope, d: Decl): Scope
  {
    if d.name == "" then s
    else if d.option == "" then
      s.(params := s.params + [FieldSpec(d.name, d.required != Some(false), "", "", d.format, d.test, d.values)])
    else
      var spec := FieldSpec(d.name, false, d.option, d.alias, d.format, d.test, d.values);
      var s' := s.(options := s.options + [spec], helpOptionList := WithdrawFlags(s.helpOptionList, d.option, d.alias));
      if d.format == BoolFormat then
        var g := if |d.option| == 1 then s.groupOptionHash[d.option[0] := d.name] else s.groupOptionHash;
        var g' := if |d.alias| == 1 then g[d.alias[0] := d.name] else g;
        s'.(result := s.result[d.name := Bool(false)], groupOptionHash := g')
      else s'
  }

  /**
   * What filing one object rule does: a rule without a name is ignored; a
   * positional is appended and is required unless the rule says otherwise;
   * an option is appended, is never required and keeps its alias; a boolean
   * option starts out `false` and files its one-character spellings in the
   * flag table, and nothing else in the scope changes.
   */
  lemma AddRuleEffect(s: Scope, d: Decl)
    ensures d.name == "" ==> AddRule(s, d) == s
    ensures d.name != "" && d.option == "" ==>
      var r := AddRule(s, d);
      && r.(params := s.params) == s
      && r.params == s.params + [FieldSpec(d.name, d.required != Some(false), "", "", d.format, d.test, d.values)]
    ensures d.name != "" && d.option != "" ==>
      var r := AddRule(s, d);
      && r.params == s.params
      && r.options == s.options + [FieldSpec(d.name, false, d.option, d.alias, d.format, d.test, d.values)]
      && r.cmd == s.cmd && r.description == s.description
    ensures d.name != "" && d.option != "" && d.format != BoolFormat ==>
      var r := AddRule(s, d);
      r.result == s.result && r.groupOptionHash == s.groupOptionHash
    ensures d.name != "" && d.option != "" && d.format == BoolFormat ==>
      AddRule(s, d).result == s.result[d.name := Bool(false)]
  {
  }

  /**
   * A boolean option files its one-character spelling and its
   * one-character alias in the flag table, under its name; every other
   * entry stays.
   */
  lemma AddRuleFilesFlags(s: Scope, d: Decl)
    requires d.name != "" && d.option != "" && d.format == BoolFormat
    ensures var r := AddRule(s, d);
      && r.groupOptionHash.Keys == s.groupOptionHash.Keys + ShortKeys(d.option, d.alias)
      && (forall c :: c in ShortKeys(d.option, d.alias) ==> r.groupOptionHash[c] == d.name)
      && (forall c :: c in s.groupOptionHash && c !in ShortKeys(d.option, d.alias) ==>
            r.groupOptionHash[c] == s.groupOptionHash[c])
  {
    var keys := ShortKeys(d.option, d.alias);
    var g := if |d.option| == 1 then s.groupOptionHash[d.option[0] := d.name] else s.groupOptionHash;
    var g' := if |d.alias| == 1 then g[d.alias[0] := d.name] else g;
    assert AddRule(s, d).groupOptionHash == g';
    assert g.Keys == s.groupOptionHash.Keys + (if |d.option| == 1 then {d.option[0]} else {});
    assert g'.Keys == g.Keys + (if |d.alias| == 1 then {d.alias[0]} else {});
    forall c | c in keys
      ensures g'[c] == d.name
    {
    }
    forall c | c in s.groupOptionHash && c !in keys
      ensures g'[c] == s.groupOptionHash[c]
    {
    }
  }

  /** One element of a subcommand's `rules`: a bare name or an object; a nested `cmd` object has no name and is ignored. */
  function AddItem(s: Scope, item: Rule): Scope
  {
    match item
    case Bare(name) => AddBare(s, name)
    case Param(d) => AddRule(s, d)
    case Cmd(_, _, _) => s
  }

  /** A subcommand's `rules`, filed in order. */
  function AddItems(s: Scope, items: seq<Rule>): Scope
    decreases |items|
  {
    if |items| == 0 then s else AddItem(AddItems(s, items[..|items| - 1]), items[|items| - 1])
  }

  /** One element of the top-level rule list. */
  function RegisterRule(hash: map<string, Scope>, rule: Rule): (h: map<string, Scope>)
    requires "$" in hash
    ensures h.Keys == hash.Keys + (if rule.Cmd? && rule.cmd != "" then {rule.cmd} else {})
  {
    match rule
    case Bare(name) => hash["$" := AddBare(hash["$"], name)]
    case Param(d) => hash["$" := AddRule(hash["$"], d)]
    case Cmd(cmd, items, description) =>
      // `{cmd: ''}` is not a subcommand: it goes to `addRule` on the root, which ignores it for want of a name.
      if cmd == "" then hash
      else
        var h := EnsureScope(hash, cmd);
        h[cmd := AddItems(h[cmd].(description := description), items)]
  }

  /** The rule loop: every element of `rules`, in order. */
  function RegisterAll(hash: map<string, Scope>, rules: seq<Rule>): (h: map<string, Scope>)
    requires "$" in hash
    ensures "$" in h && hash.Keys <= h.Keys
    decreases |rules|
  {
    if |rules| == 0 then hash
    else RegisterRule(RegisterAll(hash, rules[..|rules| - 1]), rules[|rules| - 1])
  }

  /** The registry `__commander(description, rules)` builds before it looks at argv. */
  function Registry(description: string, rules: seq<Rule>): map<string, Scope>
  {
    RegisterAll(map["$" := NewScope("$", description)], rules)
  }

  /*
   * What a registered scope looks like.
   */

  /** Some declared option is spelled `flag` (so `flag` no longer asks for help). */
  predicate Claims(options: seq<FieldSpec>, flag: string)
  {
    exists o :: o in options && MatchesFlag(o, flag)
  }

  /** The default help flags, less those claimed by an option. */
  function HelpFlags(claimsShort: bool, claimsLong: bool): seq<string>
  {
    (if claimsShort then [] else ["-h"]) + (if claimsLong then [] else ["--help"])
  }

  function PrunedHelp(options: seq<FieldSpec>): seq<string>
  {
    HelpFlags(Claims(options, "-h"), Claims(options, "--help"))
  }

  /** The flag-table entry for `c` names a boolean option spelled `-c`. */
  predicate GroupEntry(options: seq<FieldSpec>, c: char, name: string)
  {
    exists o :: o in options && o.format == BoolFormat && o.name == name && c in ShortKeys(o.option, o.alias)
  }

  /** Every flag-table entry names a boolean option with that one-character spelling. */
  predicate TableSound(s: Scope)
  {
    forall c :: c in s.groupOptionHash ==> GroupEntry(s.options, c, s.groupOptionHash[c])
  }

  /** Every boolean option has its one-character spellings in the table and a field in the skeleton. */
  predicate BoolsFiled(s: Scope)
  {
    forall o :: o in s.options && o.format == BoolFormat ==>
      ShortKeys(o.option, o.alias) <= s.groupOptionHash.Keys && o.name in s.result
  }

  /** The invariant of every scope the registry holds, under its key. */
  predicate WellFormed(key: string, s: Scope)
  {
    && s.cmd == key
    && (forall p :: p in s.params ==> p.option == "" && p.alias == "")
    && (forall o :: o in s.options ==> o.name != "" && o.option != "" && !o.required)
    && s.helpOptionList == PrunedHelp(s.options)
    && TableSound(s)
    && BoolsFiled(s)
    && SeedsKnown(s)
  }

  /** The skeleton holds only `false` and `''`, and `''` only under the name of a positional. */
  predicate SeedsKnown(s: Scope)
  {
    forall n :: n in s.result ==>
      s.result[n] == Bool(false) || (s.result[n] == Str("") && exists p :: p in s.params && p.name == n)
  }

  /** Every scope is well formed under its own key. */
  predicate AllWellFormed(hash: map<string, Scope>)
  {
    forall k :: k in hash ==> WellFormed(k, hash[k])
  }

  lemma RemoveFromHelpFlags(a: bool, b: bool, x: string)
    ensures RemoveFirst(HelpFlags(a, b), x) == HelpFlags(a || x == "-h", b || x == "--help")
  {
  }

  lemma ClaimsAppend(options: seq<FieldSpec>, o: FieldSpec, flag: string)
    ensures Claims(options + [o], flag) == (Claims(options, flag) || MatchesFlag(o, flag))
  {
    if MatchesFlag(o, flag) {
      assert o in options + [o];
    }
    if Claims(options, flag) {
      var p :| p in options && MatchesFlag(p, flag);
      assert p in options + [o];
    }
  }

  /** Declaring an option withdraws exactly the help flags it is spelled as. */
  lemma {:induction false} WithdrawPrunes(options: seq<FieldSpec>, spec: FieldSpec)
    ensures WithdrawFlags(PrunedHelp(options), spec.option, spec.alias) == PrunedHelp(options + [spec])
  {
    var x, y := Dashed(spec.option), Dashed(spec.alias);
    var a0, b0 := Claims(options, "-h"), Claims(options, "--help");
    var a1, b1 := a0 || x == "-h", b0 || x == "--help";
    RemoveFromHelpFlags(a0, b0, x);
    var h1 := RemoveFirst(HelpFlags(a0, b0), x);
    assert h1 == HelpFlags(a1, b1);
    ClaimsAppend(options, spec, "-h");
    ClaimsAppend(options, spec, "--help");
    if spec.alias != "" {
      RemoveFromHelpFlags(a1, b1, y);
      assert WithdrawFlags(PrunedHelp(options), spec.option, spec.alias) == RemoveFirst(h1, y);
      assert RemoveFirst(h1, y) == HelpFlags(a1 || y == "-h", b1 || y == "--help");
    } else {
      assert WithdrawFlags(PrunedHelp(options), spec.option, spec.alias) == h1;
    }
  }

  lemma {:induction false} AddOptionPrunesHelp(s: Scope, d: Decl)
    requires d.name != "" && d.option != ""
    requires s.helpOptionList == PrunedHelp(s.options)
    ensures AddRule(s, d).helpOptionList == PrunedHelp(AddRule(s, d).options)
  {
    var spec := FieldSpec(d.name, false, d.option, d.alias, d.format, d.test, d.values);
    assert AddRule(s, d).helpOptionList == WithdrawFlags(s.helpOptionList, d.option, d.alias);
    WithdrawPrunes(s.options, spec);
  }

  lemma {:induction false} AddOptionKeepsTable(s: Scope, d: Decl)
    requires d.name != "" && d.option != ""
    requires TableSound(s)
    ensures TableSound(AddRule(s, d))
  {
    var r := AddRule(s, d);
    var spec := FieldSpec(d.name, false, d.option, d.alias, d.format, d.test, d.values);
    forall c | c in r.groupOptionHash
      ensures GroupEntry(r.options, c, r.groupOptionHash[c])
    {
      if d.format == BoolFormat && c in ShortKeys(d.option, d.alias) {
        assert spec in r.options && spec.name == r.groupOptionHash[c];
      } else {
        assert c in s.groupOptionHash && r.groupOptionHash[c] == s.groupOptionHash[c];
        var o :| o in s.options && o.format == BoolFormat && o.name == s.groupOptionHash[c] && c in ShortKeys(o.option, o.alias);
        assert o in r.options;
      }
    }
  }

  lemma {:induction false} AddOptionKeepsBools(s: Scope, d: Decl)
    requires d.name != "" && d.option != ""
    requires BoolsFiled(s)
    ensures BoolsFiled(AddRule(s, d))
  {
    var r := AddRule(s, d);
    forall o | o in r.options && o.format == BoolFormat
      ensures ShortKeys(o.option, o.alias) <= r.groupOptionHash.Keys && o.name in r.result
    {
      if o !in s.options {
        assert o == FieldSpec(d.name, false, d.option, d.alias, d.format, d.test, d.values);
      }
    }
  }

  lemma {:induction false} AddRuleKeepsSeeds(s: Scope, d: Decl)
    requires SeedsKnown(s)
    ensures SeedsKnown(AddRule(s, d))
  {
    var r := AddRule(s, d);
    AddRuleEffect(s, d);
    forall n | n in r.result && r.result[n] != Bool(false)
      ensures r.result[n] == Str("") && exists p :: p in r.params && p.name == n
    {
      assert n in s.result && r.result[n] == s.result[n];
      var p :| p in s.params && p.name == n;
      assert p in r.params;
    }
  }

  lemma {:induction false} AddRuleKeepsWellFormed(key: string, s: Scope, d: Decl)
    requires WellFormed(key, s)
    ensures WellFormed(key, AddRule(s, d))
  {
    AddRuleKeepsSeeds(s, d);
    if d.name != "" && d.option != "" {
      AddOptionPrunesHelp(s, d);
      AddOptionKeepsTable(s, d);
      AddOptionKeepsBools(s, d);
    }
  }

  lemma AddBareKeepsWellFormed(key: string, s: Scope, name: string)
    requires WellFormed(key, s)
    ensures WellFormed(key, AddBare(s, name))
  {
    var r := AddBare(s, name);
    forall n | n in r.result && r.result[n] != Bool(false)
      ensures r.result[n] == Str("") && exists p :: p in r.params && p.name == n
    {
      if n == name {
        assert r.params[|s.params|].name == n;
      } else {
        var p :| p in s.params && p.name == n;
        assert p in r.params;
      }
    }
  }

  /**
   * A boolean option that no positional shares its name with starts out
   * `false` in the skeleton.
   */
  lemma BoolStartsFalse(key: string, s: Scope, o: FieldSpec)
    requires WellFormed(key, s)
    requires o in s.options && o.format == BoolFormat
    requires forall p :: p in s.params ==> p.name != o.name
    ensures o.name in s.result && s.result[o.name] == Bool(false)
  {
  }

  lemma {:induction false} AddItemsKeepWellFormed(key: string, s: Scope, items: seq<Rule>)
    requires WellFormed(key, s)
    ensures WellFormed(key, AddItems(s, items))
    decreases |items|
  {
    if |items| > 0 {
      var s' := AddItems(s, items[..|items| - 1]);
      AddItemsKeepWellFormed(key, s, items[..|items| - 1]);
      match items[|items| - 1]
      case Bare(name) => AddBareKeepsWellFormed(key, s', name);
      case Param(d) => AddRuleKeepsWellFormed(key, s', d);
      case Cmd(_, _, _) =>
    }
  }

  lemma {:induction false} RegisterRuleKeepsWellFormed(hash: map<string, Scope>, rule: Rule)
    requires "$" in hash
    requires AllWellFormed(hash)
    ensures AllWellFormed(RegisterRule(hash, rule))
  {
    assert WellFormed("$", hash["$"]);
    match rule
    case Bare(name) => AddBareKeepsWellFormed("$", hash["$"], name);
    case Param(d) => AddRuleKeepsWellFormed("$", hash["$"], d);
    case Cmd(cmd, items, description) =>
      if cmd != "" {
        var h := EnsureScope(hash, cmd);
        assert WellFormed(cmd, h[cmd]);
        AddItemsKeepWellFormed(cmd, h[cmd].(description := description), items);
      }
  }

  /** Every scope of the registry satisfies `WellFormed` under its own key. */
  lemma {:induction false} RegisterAllKeepsWellFormed(hash: map<string, Scope>, rules: seq<Rule>)
    requires "$" in hash
    requires AllWellFormed(hash)
    ensures AllWellFormed(RegisterAll(hash, rules))
    decreases |rules|
  {
    if |rules| > 0 {
      RegisterAllKeepsWellFormed(hash, rules[..|rules| - 1]);
      RegisterRuleKeepsWellFormed(RegisterAll(hash, rules[..|rules| - 1]), rules[|rules| - 1]);
    }
  }

  /**
   * After registration every scope is filed under its own `cmd`; options are
   * never required; `-h`/`--help` remain help flags exactly when no option of
   * that scope is spelled so; the flag table holds the one-character
   * spellings of boolean options; every boolean option starts out in the
   * result skeleton, and the skeleton holds only `''` and `false`.
   */
  lemma RegistryWellFormed(description: string, rules: seq<Rule>)
    ensures "$" in Registry(description, rules)
    ensures AllWellFormed(Registry(description, rules))
  {
    RegisterAllKeepsWellFormed(map["$" := NewScope("$", description)], rules);
  }

  lemma {:induction false} AddItemsKeepSkeleton(s: Scope, items: seq<Rule>)
    ensures s.result.Keys <= AddItems(s, items).result.Keys
    decreases |items|
  {
    if |items| > 0 {
      AddItemsKeepSkeleton(s, items[..|items| - 1]);
    }
  }

  /** Registration never removes a field from a scope's result skeleton. */
  lemma {:induction false} RegisterAllKeepsSkeleton(hash: map<string, Scope>, rules: seq<Rule>, k: string)
    requires "$" in hash && k in hash
    ensures k in RegisterAll(hash, rules) && hash[k].result.Keys <= RegisterAll(hash, rules)[k].result.Keys
    decreases |rules|
  {
    if |rules| > 0 {
      var h := RegisterAll(hash, rules[..|rules| - 1]);
      RegisterAllKeepsSkeleton(hash, rules[..|rules| - 1], k);
      match rules[|rules| - 1]
      case Cmd(cmd, items, description) =>
        if cmd == k {
          AddItemsKeepSkeleton(EnsureScope(h, cmd)[cmd].(description := description), items);
        }
      case _ =>
    }
  }

  /** A bare name in the top-level list is a field of the root skeleton, seeded before any token is read. */
  lemma BareSeeded(description: string, rules: seq<Rule>, i: nat)
    requires i < |rules| && rules[i].Bare?
    ensures rules[i].name in Registry(description, rules)["$"].result
  {
    var init := map["$" := NewScope("$", description)];
    var upto := RegisterAll(init, rules[..i + 1]);
    assert rules[..i + 1][..i] == rules[..i];
    assert rules[i].name in upto["$"].result;
    assert rules == rules[..i + 1] + rules[i + 1..];
    RegisterAllSplit(init, rules[..i + 1], rules[i + 1..]);
    RegisterAllKeepsSkeleton(upto, rules[i + 1..], "$");
  }

  /** A bare name among a subcommand's own rules ends up in that scope's skeleton. */
  lemma {:induction false} AddItemsSeedBare(s: Scope, items: seq<Rule>, j: nat)
    requires j < |items| && items[j].Bare?
    ensures items[j].name in AddItems(s, items).result
    decreases |items|
  {
    var init := items[..|items| - 1];
    var last := items[|items| - 1];
    if j < |items| - 1 {
      assert init[j] == items[j];
      AddItemsSeedBare(s, init, j);
      assert [last][..0] == [];
      AddItemsKeepSkeleton(AddItems(s, init), [last]);
      assert AddItems(AddItems(s, init), [last]) == AddItem(AddItems(s, init), last);
    }
  }

  /** Every bare name of a subcommand's `rules` has a field in that subcommand's skeleton once registration ends. */
  lemma CommandBareSeeded(description: string, rules: seq<Rule>, i: nat, j: nat)
    requires i < |rules| && rules[i].Cmd? && rules[i].cmd != ""
    requires j < |rules[i].rules| && rules[i].rules[j].Bare?
    ensures rules[i].cmd in Registry(description, rules)
    ensures rules[i].rules[j].name in Registry(description, rules)[rules[i].cmd].result
  {
    var init := map["$" := NewScope("$", description)];
    var c := rules[i].cmd;
    var before := RegisterAll(init, rules[..i]);
    var upto := RegisterAll(init, rules[..i + 1]);
    assert rules[..i + 1][..i] == rules[..i];
    var h := EnsureScope(before, c);
    assert upto == h[c := AddItems(h[c].(description := rules[i].description), rules[i].rules)];
    AddItemsSeedBare(h[c].(description := rules[i].description), rules[i].rules, j);
    assert rules == rules[..i + 1] + rules[i + 1..];
    RegisterAllSplit(init, rules[..i + 1], rules[i + 1..]);
    RegisterAllKeepsSkeleton(upto, rules[i + 1..], c);
  }

  lemma {:induction false} RegisterAllSplit(hash: map<string, Scope>, a: seq<Rule>, b: seq<Rule>)
    requires "$" in hash
    ensures RegisterAll(hash, a + b) == RegisterAll(RegisterAll(hash, a), b)
    decreases |b|
  {
    if |b| == 0 {
      assert a + b == a;
    } else {
      var init := b[..|b| - 1];
      assert (a + b)[..|a + b| - 1] == a + init;
      assert (a + b)[|a + b| - 1] == b[|b| - 1];
      RegisterAllSplit(hash, a, init);
      calc {
        RegisterAll(hash, a + b);
        RegisterRule(RegisterAll(hash, a + init), b[|b| - 1]);
        RegisterRule(RegisterAll(RegisterAll(hash, a), init), b[|b| - 1]);
        RegisterAll(RegisterAll(hash, a), b);
      }
    }
  }

  /** Scopes exist for the root and for exactly the non-empty `cmd` names the rule list mentions. */
  lemma {:induction false} RegistryKeys(description: string, rules: seq<Rule>, k: string)
    ensures k in Registry(description, rules) <==>
      k == "$" || exists i :: 0 <= i < |rules| && rules[i].Cmd? && rules[i].cmd == k && k != ""
    decreases |rules|
  {
    if |rules| > 0 {
      var init := rules[..|rules| - 1];
      RegistryKeys(description, init, k);
      if exists i :: 0 <= i < |init| && init[i].Cmd? && init[i].cmd == k && k != "" {
        var i :| 0 <= i < |init| && init[i].Cmd? && init[i].cmd == k && k != "";
        assert rules[i] == init[i];
      }
      if exists i :: 0 <= i < |rules| && rules[i].Cmd? && rules[i].cmd == k && k != "" {
        var i :| 0 <= i < |rules| && rules[i].Cmd? && rules[i].cmd == k && k != "";
        if i < |init| {
          assert init[i] == rules[i];
        }
      }
    }
  }
}
