/**
 * `__commander(description, rules)`: the parser as a whole. The closure
 * state of the original becomes the fields of `Commander`, and each stage
 * (registration, command resolution, the help decision, the token loop and
 * validation) a method that changes that state step by step and is proved
 * against the functions of the earlier modules. `Parse` runs the stages in
 * order; `ParseSpec` is what it computes, and the lemmas at the end state
 * what a caller can rely on.
 */
module Commander {
  import opened Types
  import opened Rules
  import Scanner
  import Validation
  import Utils

  /** How a run ends: the result object, the usage screen (exit 0), or an error for one field (exit 1). */
  datatype Outcome =
    | Ok(result: ParseResult)
    | Help
    | Fail(kind: Validation.FailKind, field: string)

  /**
   * Command resolution: the first token names the active scope and is
   * dropped, or the root is active and the tokens are left alone. Without a
   * token the lookup key is the string `undefined`.
   */
  function Resolve(hash: map<string, Scope>, argv: seq<string>): (r: (string, seq<string>))
    requires "$" in hash
    ensures r.0 in hash
    ensures |argv| > 0 && argv[0] in hash ==> r == (argv[0], argv[1..])
    ensures |argv| > 0 && argv[0] !in hash ==> r == ("$", argv)
    ensures |argv| == 0 ==> r.1 == [] && (r.0 == "$" || r.0 == "undefined")
  {
    var childCmd := if |argv| > 0 then argv[0] else "undefined";
    if childCmd in hash then (childCmd, if |argv| > 0 then argv[1..] else []) else ("$", argv)
  }

  /** The help condition as written: three disjuncts, the second of which implies the first. */
  predicate HelpRequested(scope: Scope, args: seq<string>, scopeCount: nat)
  {
    || (|args| == 0 && |scope.params| > 0 && (exists p :: p in scope.params && p.required))
    || (|args| == 0 && |scope.params| > 0 && (exists p :: p in scope.params && p.required) && scopeCount > 1)
    || (|args| == 1 && args[0] in ["-h", "--help"] &&
        !(exists o :: o in scope.options && o.option in ["help", "h"] && o.format == BoolFormat))
  }

  /**
   * Help is shown exactly when no arguments are left and some positional is
   * required, or when the only argument is `-h`/`--help` and no boolean
   * option is named `h` or `help` (aliases are not consulted).
   */
  lemma HelpIff(scope: Scope, args: seq<string>, scopeCount: nat)
    ensures HelpRequested(scope, args, scopeCount) <==>
      || (|args| == 0 && exists i :: 0 <= i < |scope.params| && scope.params[i].required)
      || (|args| == 1 && (args[0] == "-h" || args[0] == "--help") &&
          forall i :: 0 <= i < |scope.options| ==>
            !(scope.options[i].format == BoolFormat && (scope.options[i].option == "h" || scope.options[i].option == "help")))
  {
    if |args| == 0 && (exists i :: 0 <= i < |scope.params| && scope.params[i].required) {
      var i :| 0 <= i < |scope.params| && scope.params[i].required;
      assert scope.params[i] in scope.params;
    }
  }

  /** The token loop and the validation pass over the active scope. */
  function Finish(scope: Scope, args: seq<string>, host: Host): (Outcome, seq<Scanner.Warning>)
  {
    var st := Scanner.Scan(scope, args, host);
    var partial := ParseResult(scope.cmd, st.fields, st.params);
    match Validation.FirstFailure(scope.params + scope.options, partial, host)
    case Some(f) => (Fail(f.kind, f.name), st.warnings)
    case None => (Ok(partial), st.warnings)
  }

  /** What a run of the parser computes: the outcome and the replacement warnings printed on the way. */
  function ParseSpec(description: string, rules: seq<Rule>, argv: seq<string>, host: Host): (Outcome, seq<Scanner.Warning>)
  {
    var hash := Registry(description, rules);
    var (key, args) := Resolve(hash, argv);
    if HelpRequested(hash[key], args, |hash.Keys|) then (Help, [])
    else Finish(hash[key], args, host)
  }

  /**
   * A completed run: `$params` holds the plain tokens in order, every
   * positional and option passed every check, and no field of the skeleton
   * went missing.
   */
  lemma FinishOk(scope: Scope, args: seq<string>, host: Host)
    requires Finish(scope, args, host).0.Ok?
    ensures var r := Finish(scope, args, host).0.result;
      && r.cmd == scope.cmd
      && r.params == Scanner.PlainTokens(Scanner.Classify(scope, args))
      && scope.result.Keys <= r.fields.Keys
      && forall i :: 0 <= i < |scope.params + scope.options| ==>
           Validation.CheckField((scope.params + scope.options)[i], r, host).None?
  {
    var steps := Scanner.Classify(scope, args);
    var st := Scanner.Scan(scope, args, host);
    assert st == Scanner.Run(Scanner.Start(scope), steps, host);
    var partial := ParseResult(scope.cmd, st.fields, st.params);
    assert Validation.FirstFailure(scope.params + scope.options, partial, host).None?;
    assert Finish(scope, args, host).0.result == partial;
    Scanner.RunPositionals(Scanner.Start(scope), steps, host);
    Scanner.RunKeepsFields(Scanner.Start(scope), steps, host);
    Validation.FirstFailureNone(scope.params + scope.options, partial, host);
  }

  /** A failed run names the first spec, positionals first, that fails a check, and the check it fails. */
  lemma FinishFail(scope: Scope, args: seq<string>, host: Host)
    requires Finish(scope, args, host).0.Fail?
    ensures var st := Scanner.Scan(scope, args, host);
      var partial := ParseResult(scope.cmd, st.fields, st.params);
      var specs := scope.params + scope.options;
      var out := Finish(scope, args, host).0;
      exists i :: 0 <= i < |specs| && specs[i].name == out.field &&
        Validation.CheckField(specs[i], partial, host) == Some(out.kind) &&
        forall j :: 0 <= j < i ==> Validation.CheckField(specs[j], partial, host).None?
  {
    var st := Scanner.Scan(scope, args, host);
    Validation.FirstFailureIsFirst(scope.params + scope.options, ParseResult(scope.cmd, st.fields, st.params), host);
  }

  /**
   * The outcome is the usage screen exactly when no arguments are left and
   * the active scope has a required positional, or when the only argument is
   * `-h`/`--help` and no boolean option of that scope is named `h` or `help`.
   * Nothing is scanned first, so no warning is printed.
   */
  lemma ParseHelp(description: string, rules: seq<Rule>, argv: seq<string>, host: Host)
    ensures var hash := Registry(description, rules);
      var (key, args) := Resolve(hash, argv);
      var scope := hash[key];
      (ParseSpec(description, rules, argv, host).0.Help? <==>
        || (|args| == 0 && exists i :: 0 <= i < |scope.params| && scope.params[i].required)
        || (|args| == 1 && (args[0] == "-h" || args[0] == "--help") &&
            forall i :: 0 <= i < |scope.options| ==>
              !(scope.options[i].format == BoolFormat && (scope.options[i].option == "h" || scope.options[i].option == "help"))))
    ensures ParseSpec(description, rules, argv, host).0.Help? ==> ParseSpec(description, rules, argv, host).1 == []
  {
    var hash := Registry(description, rules);
    var (key, args) := Resolve(hash, argv);
    HelpIff(hash[key], args, |hash.Keys|);
  }

  /**
   * A completed run reports the scope the first token selected as `$cmd`
   * (`$` for the root), and every boolean option of that scope is present in
   * the result. It is still `false` when no token wrote it and no positional
   * shares its name.
   */
  lemma ParseOk(description: string, rules: seq<Rule>, argv: seq<string>, host: Host)
    requires ParseSpec(description, rules, argv, host).0.Ok?
    ensures var hash := Registry(description, rules);
      var r := ParseSpec(description, rules, argv, host).0.result;
      && r.cmd == Resolve(hash, argv).0
      && (|argv| > 0 && argv[0] in hash ==> r.cmd == argv[0])
      && (|argv| > 0 && argv[0] !in hash ==> r.cmd == "$")
    ensures var hash := Registry(description, rules);
      var scope := hash[Resolve(hash, argv).0];
      var r := ParseSpec(description, rules, argv, host).0.result;
      forall o :: o in scope.options && o.format == BoolFormat ==> o.name in r.fields
    ensures var hash := Registry(description, rules);
      var (key, args) := Resolve(hash, argv);
      var scope := hash[key];
      var r := ParseSpec(description, rules, argv, host).0.result;
      forall o ::
        (&& o in scope.options && o.format == BoolFormat
         && (forall p :: p in scope.params ==> p.name != o.name)
         && (forall step :: step in Scanner.Classify(scope, args) ==> !Scanner.Writes(step, o.name)))
        ==> o.name in r.fields && r.fields[o.name] == Bool(false)
  {
    var hash := Registry(description, rules);
    RegistryWellFormed(description, rules);
    var (key, args) := Resolve(hash, argv);
    var scope := hash[key];
    assert WellFormed(key, scope);
    assert ParseSpec(description, rules, argv, host) == Finish(scope, args, host);
    FinishActive(key, scope, args, host);
  }

  /**
   * An accepted run over the scope filed under `key` reports that key as its
   * command, has a field for every boolean option, and leaves a boolean option
   * no token wrote and no positional shares at its `false` seed.
   */
  lemma FinishActive(key: string, scope: Scope, args: seq<string>, host: Host)
    requires WellFormed(key, scope) && Finish(scope, args, host).0.Ok?
    ensures Finish(scope, args, host).0.result.cmd == key
    ensures var r := Finish(scope, args, host).0.result;
      forall o :: o in scope.options && o.format == BoolFormat ==> o.name in r.fields
    ensures var r := Finish(scope, args, host).0.result;
      forall o ::
        (&& o in scope.options && o.format == BoolFormat
         && (forall p :: p in scope.params ==> p.name != o.name)
         && (forall step :: step in Scanner.Classify(scope, args) ==> !Scanner.Writes(step, o.name)))
        ==> o.name in r.fields && r.fields[o.name] == Bool(false)
  {
    FinishOk(scope, args, host);
    var r := Finish(scope, args, host).0.result;
    var steps := Scanner.Classify(scope, args);
    assert r.fields == Scanner.Run(Scanner.Start(scope), steps, host).fields;
    forall o | o in scope.options && o.format == BoolFormat &&
        (forall p :: p in scope.params ==> p.name != o.name) &&
        (forall step :: step in steps ==> !Scanner.Writes(step, o.name))
      ensures o.name in r.fields && r.fields[o.name] == Bool(false)
    {
      BoolStartsFalse(key, scope, o);
      Scanner.UnwrittenKept(Scanner.Start(scope), steps, o.name, host);
    }
  }

  /** A field seeded in the active scope's skeleton never fails the required check. */
  lemma SeededNeverMissing(description: string, rules: seq<Rule>, argv: seq<string>, host: Host, n: string)
    requires var hash := Registry(description, rules); n in hash[Resolve(hash, argv).0].result
    ensures ParseSpec(description, rules, argv, host).0 != Fail(Validation.MissingRequired, n)
  {
    var hash := Registry(description, rules);
    var (key, args) := Resolve(hash, argv);
    var scope := hash[key];
    if ParseSpec(description, rules, argv, host).0 == Fail(Validation.MissingRequired, n) {
      FinishFail(scope, args, host);
      Scanner.RunKeepsFields(Scanner.Start(scope), Scanner.Classify(scope, args), host);
    }
  }

  /**
   * A bare name in the top-level rule list never fails the required check
   * when the root scope is active: its field is seeded before any token is
   * read.
   */
  lemma BareNeverMissing(description: string, rules: seq<Rule>, argv: seq<string>, host: Host, i: nat)
    requires i < |rules| && rules[i].Bare?
    requires var hash := Registry(description, rules); Resolve(hash, argv).0 == "$"
    ensures ParseSpec(description, rules, argv, host).0 != Fail(Validation.MissingRequired, rules[i].name)
  {
    BareSeeded(description, rules, i);
    SeededNeverMissing(description, rules, argv, host, rules[i].name);
  }

  /** The same holds for a bare name among a subcommand's `rules` when that subcommand is active. */
  lemma CommandBareNeverMissing(description: string, rules: seq<Rule>, argv: seq<string>, host: Host, i: nat, j: nat)
    requires i < |rules| && rules[i].Cmd? && rules[i].cmd != ""
    requires j < |rules[i].rules| && rules[i].rules[j].Bare?
    requires var hash := Registry(description, rules); Resolve(hash, argv).0 == rules[i].cmd
    ensures ParseSpec(description, rules, argv, host).0 != Fail(Validation.MissingRequired, rules[i].rules[j].name)
  {
    CommandBareSeeded(description, rules, i, j);
    SeededNeverMissing(description, rules, argv, host, rules[i].rules[j].name);
  }

  /** The tokens from index `i` on; the loop index may step one past the end. */
  function Unread(args: seq<string>, i: nat): seq<string>
  {
    if i <= |args| then args[i..] else []
  }

  lemma Advance(scope: Scope, args: seq<string>, done: seq<Scanner.Step>, i: nat, next: nat, step: Scanner.Step)
    requires i < |args|
    requires Scanner.Classify(scope, args) == done + Scanner.Classify(scope, Unread(args, i))
    requires Scanner.Classify(scope, args[i..]) == [step] + Scanner.Classify(scope, Unread(args, next))
    ensures Scanner.Classify(scope, args) == (done + [step]) + Scanner.Classify(scope, Unread(args, next))
  {
    assert Unread(args, i) == args[i..];
  }

  /** The closure state of one `__commander` call. */
  class Commander {
    var ruleHash: map<string, Scope>
    // The active scope, spread over the closure variables by `setRule`.
    var result: map<string, Value>
    var cmd: string
    var params: seq<FieldSpec>
    var options: seq<FieldSpec>
    var groupOptionHash: map<char, string>
    var helpOptionList: seq<string>
    var description: string
    var currCmd: string
    /** `groupOptionRegExp != null`. */
    var grouped: bool

    /** The active scope as one record. */
    function Active(): Scope
      reads this
    {
      Scope(cmd, description, params, options, groupOptionHash, helpOptionList, result)
    }

    /** The state on entry: a registry holding only the root scope. */
    constructor (description: string)
      ensures ruleHash == map["$" := NewScope("$", description)]
      ensures result == map[] && params == [] && options == [] && groupOptionHash == map[]
      ensures helpOptionList == ["-h", "--help"] && this.description == description
      ensures currCmd == "$" && !grouped
    {
      ruleHash := map["$" := NewScope("$", description)];
      result := map[];
      cmd := "";
      params := [];
      options := [];
      groupOptionHash := map[];
      helpOptionList := ["-h", "--help"];
      this.description := description;
      currCmd := "$";
      grouped := false;
    }

    /** `getRule(cmd)`. */
    method GetRule(c: string)
      modifies this`ruleHash
      ensures ruleHash == EnsureScope(old(ruleHash), c)
    {
      if c !in ruleHash {
        ruleHash := ruleHash[c := NewScope(c, "")];
      }
    }

    /** A bare name: push a required positional and seed its field with `''`. */
    method AddBare(key: string, name: string)
      requires key in ruleHash
      modifies this`ruleHash
      ensures ruleHash == old(ruleHash)[key := Rules.AddBare(old(ruleHash)[key], name)]
    {
      var s := ruleHash[key];
      s := s.(params := s.params + [FieldSpec(name, true, "", "", NoFormat, None, None)]);
      s := s.(result := s.result[name := Str("")]);
      ruleHash := ruleHash[key := s];
    }

    /** The option branch of `addRule`: push the spec, withdraw its help flags, and file a boolean option. */
    static method FileOption(s: Scope, d: Decl) returns (r: Scope)
      requires d.name != "" && d.option != ""
      ensures r == Rules.AddRule(s, d)
    {
      r := s.(options := s.options + [FieldSpec(d.name, false, d.option, d.alias, d.format, d.test, d.values)]);
      var help := RemoveFirst(r.helpOptionList, Dashed(d.option));
      if d.alias != "" {
        help := RemoveFirst(help, Dashed(d.alias));
      }
      r := r.(helpOptionList := help);
      if d.format == BoolFormat {
        r := r.(result := r.result[d.name := Bool(false)]);
        if |d.option| == 1 {
          r := r.(groupOptionHash := r.groupOptionHash[d.option[0] := d.name]);
        }
        if |d.alias| == 1 {
          r := r.(groupOptionHash := r.groupOptionHash[d.alias[0] := d.name]);
        }
      }
    }

    /** `addRule(ruleHash[key], d)`. */
    method AddRule(key: string, d: Decl)
      requires key in ruleHash
      modifies this`ruleHash
      ensures ruleHash == old(ruleHash)[key := Rules.AddRule(old(ruleHash)[key], d)]
    {
      var s := ruleHash[key];
      if d.name == "" {
        assert ruleHash[key := s] == ruleHash;
        return;
      }
      if d.option == "" {
        s := s.(params := s.params + [FieldSpec(d.name, d.required != Some(false), "", "", d.format, d.test, d.values)]);
      } else {
        s := FileOption(s, d);
      }
      ruleHash := ruleHash[key := s];
    }

    /** The elements of a subcommand's `rules`, filed under `key` in order. */
    method AddItems(key: string, items: seq<Rule>)
      requires key in ruleHash
      modifies this`ruleHash
      ensures ruleHash == old(ruleHash)[key := Rules.AddItems(old(ruleHash)[key], items)]
    {
      for j := 0 to |items|
        invariant key in ruleHash
        invariant ruleHash == old(ruleHash)[key := Rules.AddItems(old(ruleHash)[key], items[..j])]
      {
        assert items[..j + 1][..j] == items[..j];
        match items[j]
        case Bare(name) => AddBare(key, name);
        case Param(d) => AddRule(key, d);
        case Cmd(_, _, _) =>
      }
      assert items[..|items|] == items;
    }

    /** The rule loop. */
    method Register(rules: seq<Rule>)
      requires "$" in ruleHash
      modifies this`ruleHash
      ensures ruleHash == RegisterAll(old(ruleHash), rules)
    {
      for i := 0 to |rules|
        invariant "$" in ruleHash
        invariant ruleHash == RegisterAll(old(ruleHash), rules[..i])
      {
        assert rules[..i + 1][..i] == rules[..i];
        match rules[i]
        case Bare(name) => AddBare("$", name);
        case Param(d) => AddRule("$", d);
        case Cmd(c, items, desc) => FileCommand(c, items, desc);
      }
      assert rules[..|rules|] == rules;
    }

    /** One subcommand object of the rule loop: its scope, its description, then its own rules. */
    method FileCommand(c: string, items: seq<Rule>, desc: string)
      requires "$" in ruleHash
      modifies this`ruleHash
      ensures ruleHash == RegisterRule(old(ruleHash), Cmd(c, items, desc))
    {
      // An object without `cmd` goes to `addRule` on the root, which ignores it for want of a name.
      if c != "" {
        GetRule(c);
        ruleHash := ruleHash[c := ruleHash[c].(description := desc)];
        AddItems(c, items);
      }
    }

    /** `setRule(ruleHash[key])`: make `key` the active scope. */
    method SetRule(key: string)
      requires key in ruleHash
      modifies this
      ensures ruleHash == old(ruleHash) && currCmd == old(currCmd) && grouped == old(grouped)
      ensures Active() == ruleHash[key]
    {
      var s := ruleHash[key];
      result := s.result;
      cmd := s.cmd;
      params := s.params;
      options := s.options;
      groupOptionHash := s.groupOptionHash;
      helpOptionList := s.helpOptionList;
      description := s.description;
    }

    /** Pick the active scope from the first token; answer the tokens left for it. */
    method ResolveCommand(argv: seq<string>) returns (args: seq<string>)
      requires "$" in ruleHash
      modifies this
      ensures ruleHash == old(ruleHash) && grouped == old(grouped)
      ensures (currCmd, args) == Resolve(ruleHash, argv)
      ensures Active() == ruleHash[currCmd]
    {
      var childCmd := if |argv| > 0 then argv[0] else "undefined";
      args := argv;
      currCmd := "$";
      if childCmd in ruleHash {
        currCmd := childCmd;
        if |args| > 0 {
          args := args[1..];
        }
      }
      SetRule(currCmd);
    }

    /** The cluster pattern is built only for a flag table with two or more keys. */
    method BuildGroupPattern()
      modifies this`grouped
      ensures grouped == (|groupOptionHash.Keys| > 1)
    {
      grouped := |groupOptionHash.Keys| > 1;
    }

    /** `result[groupOptionHash[v]] = true` for each character `v` after the dash. */
    method SetGroupFlags(item: string)
      requires Scanner.IsCluster(groupOptionHash, item)
      modifies this`result
      ensures result == Scanner.SetFlags(old(result), Scanner.ClusterNames(groupOptionHash, item))
    {
      ghost var names := Scanner.ClusterNames(groupOptionHash, item);
      for k := 1 to |item|
        invariant result == Scanner.SetFlags(old(result), names[..k - 1])
      {
        assert names[..k][..k - 1] == names[..k - 1];
        result := result[groupOptionHash[item[k]] := Bool(true)];
      }
      assert names[..|item| - 1] == names;
    }

    /** The `if (name)` block: assign the field, warning first when an option overwrites a truthy value. */
    method StoreField(spec: FieldSpec, item: Value, host: Host, warnings: seq<Scanner.Warning>)
      returns (warnings': seq<Scanner.Warning>)
      modifies this`result
      ensures var st := Scanner.Store(Scanner.ScanState(old(result), [], [], warnings), spec, item, host);
        result == st.fields && warnings' == st.warnings
    {
      warnings' := warnings;
      if spec.name != "" {
        if spec.name in result && Truthy(result[spec.name]) && spec.option != "" {
          warnings' := warnings' + [Scanner.Warning(spec.option, item)];
        }
        result := result[spec.name := item];
        if spec.format == NumFormat {
          result := result[spec.name := Coerce(result[spec.name], host)];
        }
      }
    }

    /**
     * One iteration of the token loop at `args[i]`: answers the index of the
     * next unread token and the updated loop variables; `step` is what the
     * iteration did, in terms of the active scope `scope`.
     */
    method ScanToken(ghost scope: Scope, args: seq<string>, i: nat, host: Host, tempParams: seq<FieldSpec>,
                     allParams: seq<string>, warnings: seq<Scanner.Warning>)
      returns (next: nat, tempParams': seq<FieldSpec>, allParams': seq<string>, warnings': seq<Scanner.Warning>,
               ghost step: Scanner.Step)
      requires i < |args|
      requires scope.options == options && scope.helpOptionList == helpOptionList
      requires scope.groupOptionHash == groupOptionHash && grouped == (|groupOptionHash.Keys| > 1)
      modifies this`result
      ensures next == i + 1 || next == i + 2
      ensures Scanner.Classify(scope, args[i..]) == [step] + Scanner.Classify(scope, Unread(args, next))
      ensures Scanner.ScanState(result, tempParams', allParams', warnings') ==
        Scanner.Apply(Scanner.ScanState(old(result), tempParams, allParams, warnings), step, host)
    {
      tempParams', allParams', warnings' := tempParams, allParams, warnings;
      var item := args[i];
      next := i + 1;
      assert args[i..][0] == item && args[i..][1..] == args[i + 1..];
      if item in helpOptionList {
        step := Scanner.HelpFlag(item);
        return;
      }
      var optionMatch: Option<FieldSpec>;
      ghost var calls: nat;
      optionMatch, calls := Utils.Match(options, Scanner.Probe(item), Scanner.Found, None);
      if optionMatch.Some? {
        var o := optionMatch.value;
        var value: Value;
        if o.format == BoolFormat {
          value := Bool(true);
          step := Scanner.OptionHit(item, o, None);
        } else if i + 1 < |args| {
          // The following token is taken whatever it is.
          value := Str(args[i + 1]);
          step := Scanner.OptionHit(item, o, Some(args[i + 1]));
          assert args[i..][1] == args[i + 1] && args[i..][2..] == args[i + 2..];
          next := i + 2;
        } else {
          // Past the end it is `undefined`.
          value := Undefined;
          step := Scanner.OptionHit(item, o, None);
          next := i + 2;
        }
        warnings' := StoreField(o, value, host, warnings');
      } else if grouped && Scanner.ClusterShape(groupOptionHash, item) {
        SetGroupFlags(item);
        step := Scanner.Cluster(item, Scanner.ClusterNames(groupOptionHash, item));
      } else {
        allParams' := allParams' + [item];
        step := Scanner.Plain(item);
        if |tempParams'| > 0 {
          var spec := tempParams'[0];
          tempParams' := tempParams'[1..];
          warnings' := StoreField(spec, Str(item), host, warnings');
        }
      }
    }

    /** The token loop over the active scope: fills `result`, answers `$params` and the warnings. */
    method Scan(ghost scope: Scope, args: seq<string>, host: Host) returns (allParams: seq<string>, warnings: seq<Scanner.Warning>)
      requires scope == Active()
      requires grouped == (|groupOptionHash.Keys| > 1)
      modifies this`result
      ensures var st := Scanner.Scan(scope, args, host);
        result == st.fields && allParams == st.params && warnings == st.warnings
    {
      var tempParams := params;
      allParams, warnings := [], [];
      ghost var done: seq<Scanner.Step> := [];
      var i: nat := 0;
      while i < |args|
        invariant i <= |args| + 1
        invariant Scanner.Classify(scope, args) == done + Scanner.Classify(scope, Unread(args, i))
        invariant Scanner.Run(Scanner.Start(scope), done, host) == Scanner.ScanState(result, tempParams, allParams, warnings)
        decreases |args| + 1 - i
      {
        ghost var step: Scanner.Step;
        var next: nat;
        next, tempParams, allParams, warnings, step := ScanToken(scope, args, i, host, tempParams, allParams, warnings);
        Advance(scope, args, done, i, next, step);
        Scanner.RunSnoc(Scanner.Start(scope), done, step, host);
        done, i := done + [step], next;
      }
      assert Unread(args, i) == [];
      assert Scanner.Classify(scope, args) == done;
    }

    /** The validation pass over the active scope, positionals first; the first failure ends it. */
    method Validate(allParams: seq<string>, host: Host) returns (failure: Option<Validation.Failure>)
      ensures failure == Validation.FirstFailure(params + options, ParseResult(cmd, result, allParams), host)
    {
      var specs := params + options;
      var partial := ParseResult(cmd, result, allParams);
      for i := 0 to |specs|
        invariant Validation.FirstFailure(specs, partial, host) == Validation.FirstFailure(specs[i..], partial, host)
      {
        assert specs[i..][0] == specs[i] && specs[i..][1..] == specs[i + 1..];
        var spec := specs[i];
        if spec.required && spec.name !in result {
          return Some(Validation.Failure(Validation.MissingRequired, spec.name));
        }
        if spec.name in result {
          var val := result[spec.name];
          var verdict := Validation.FormatVerdict(spec.format, val, host);
          if verdict == Validation.Throw {
            return Some(Validation.Failure(Validation.Threw, spec.name));
          }
          if verdict == Validation.Reject {
            return Some(Validation.Failure(Validation.WrongFormat, spec.name));
          }
          if spec.test.Some? && !host.runTest(spec.test.value, val, partial) {
            return Some(Validation.Failure(Validation.InvalidInput, spec.name));
          }
          if spec.values.Some? && !Validation.Listed(spec.values.value, val, host) {
            return Some(Validation.Failure(Validation.NotAllowedValue, spec.name));
          }
        }
      }
      return None;
    }
  }

  /** One call of `__commander(description, rules)` on the arguments `argv`. */
  method Parse(description: string, rules: seq<Rule>, argv: seq<string>, host: Host)
    returns (outcome: Outcome, warnings: seq<Scanner.Warning>)
    ensures (outcome, warnings) == ParseSpec(description, rules, argv, host)
  {
    var c := new Commander(description);
    c.Register(rules);
    var args := c.ResolveCommand(argv);
    c.BuildGroupPattern();
    if HelpRequested(c.Active(), args, |c.ruleHash.Keys|) {
      return Help, [];
    }
    var allParams;
    allParams, warnings := c.Scan(c.Active(), args, host);
    var failure := c.Validate(allParams, host);
    if failure.Some? {
      outcome := Fail(failure.value.kind, failure.value.name);
    } else {
      outcome := Ok(ParseResult(c.cmd, c.result, allParams));
    }
  }
}
