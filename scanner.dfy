/**
 * The token matcher of `__commander`: a single left-to-right pass over the
 * arguments left after command resolution. Its meaning is given in two
 * parts: `Classify` says what each token is (a help flag, an option with
 * its value, a cluster of one-character flags, or a plain token) and
 * `Run` folds the effect of each step into the result under construction.
 * The class in commander.dfy runs the same pass as one loop.
 */
module Scanner {
  import opened Types
  import opened Rules
  import Utils

  /*
   * Option lookup
   */

  /** The callback the option lookup hands to `match`: the option itself when the token spells it, else a falsy value. */
  function Probe(token: string): FieldSpec -> Option<FieldSpec>
  {
    (o: FieldSpec) => if MatchesFlag(o, token) then Some(o) else None
  }

  predicate Found(r: Option<FieldSpec>)
  {
    r.Some?
  }

  /** `utils.match(options, v => reg_o(v.option, v.alias).test(item) && v)`. */
  function FindOption(options: seq<FieldSpec>, token: string): Option<FieldSpec>
  {
    Utils.Matched(options, Probe(token), Found, None)
  }

  /** The lookup finds the first declared option the token spells, and finds nothing when no option is spelled so. */
  lemma {:induction false} FindOptionFirst(options: seq<FieldSpec>, token: string)
    ensures FindOption(options, token).None? <==>
      forall i :: 0 <= i < |options| ==> !MatchesFlag(options[i], token)
    ensures FindOption(options, token).Some? ==>
      exists i :: 0 <= i < |options| && options[i] == FindOption(options, token).value &&
        MatchesFlag(options[i], token) && forall j :: 0 <= j < i ==> !MatchesFlag(options[j], token)
    decreases |options|
  {
    if |options| > 0 && !MatchesFlag(options[0], token) {
      var rest := options[1..];
      assert FindOption(options, token) == FindOption(rest, token);
      FindOptionFirst(rest, token);
      if FindOption(rest, token).Some? {
        var i :| 0 <= i < |rest| && rest[i] == FindOption(rest, token).value &&
          MatchesFlag(rest[i], token) && forall j :: 0 <= j < i ==> !MatchesFlag(rest[j], token);
        assert options[i + 1] == rest[i];
      }
    }
  }

  /*
   * Classification
   */

  /** The pattern `^-([keys]{2,})$`: a dash followed by two or more table characters, repeats allowed. */
  predicate ClusterShape(table: map<char, string>, token: string)
  {
    |token| >= 3 && token[0] == '-' && forall k :: 1 <= k < |token| ==> token[k] in table
  }

  /** `groupOptionRegExp` matches the token; the pattern exists only for a table with at least two keys. */
  predicate IsCluster(table: map<char, string>, token: string)
  {
    |table.Keys| > 1 && ClusterShape(table, token)
  }

  /** The fields a cluster sets, one per character after the dash. */
  function ClusterNames(table: map<char, string>, token: string): seq<string>
    requires IsCluster(table, token)
  {
    seq(|token| - 1, k requires 0 <= k < |token| - 1 => table[token[k + 1]])
  }

  /** What one iteration of the token loop makes of the tokens in front of it. */
  datatype Step =
    | HelpFlag(token: string)
    | OptionHit(token: string, spec: FieldSpec, next: Option<string>)
    | Cluster(token: string, names: seq<string>)
    | Plain(token: string)

  /** The value an option hit stores: `true` for a boolean option, else the following token or `undefined`. */
  function OptionItem(spec: FieldSpec, next: Option<string>): Value
  {
    if spec.format == BoolFormat then Bool(true)
    else if next.Some? then Str(next.value)
    else Undefined
  }

  /** The steps the token loop takes over `args` in the active scope. */
  function Classify(scope: Scope, args: seq<string>): seq<Step>
    decreases |args|
  {
    if |args| == 0 then []
    else
      var t := args[0];
      if t in scope.helpOptionList then [HelpFlag(t)] + Classify(scope, args[1..])
      else
        match FindOption(scope.options, t) {
          case Some(o) =>
            if o.format == BoolFormat then [OptionHit(t, o, None)] + Classify(scope, args[1..])
            else if |args| == 1 then [OptionHit(t, o, None)]
            else [OptionHit(t, o, Some(args[1]))] + Classify(scope, args[2..])
          case None =>
            if IsCluster(scope.groupOptionHash, t) then
              [Cluster(t, ClusterNames(scope.groupOptionHash, t))] + Classify(scope, args[1..])
            else [Plain(t)] + Classify(scope, args[1..])
        }
  }

  /** The tokens a step accounts for. */
  function Consumed(step: Step): seq<string>
  {
    match step
    case OptionHit(t, _, next) => [t] + (if next.Some? then [next.value] else [])
    case _ => [step.token]
  }

  function Flatten(steps: seq<Step>): seq<string>
    decreases |steps|
  {
    if |steps| == 0 then [] else Consumed(steps[0]) + Flatten(steps[1..])
  }

  /** Every token is accounted for exactly once and in order: the pass neither skips nor repeats input. */
  lemma {:induction false} ClassifyConsumesAll(scope: Scope, args: seq<string>)
    ensures Flatten(Classify(scope, args)) == args
    decreases |args|
  {
    if |args| > 0 {
      var steps := Classify(scope, args);
      var t := args[0];
      if t !in scope.helpOptionList && FindOption(scope.options, t).Some? &&
         FindOption(scope.options, t).value.format != BoolFormat && |args| > 1 {
        ClassifyConsumesAll(scope, args[2..]);
        assert steps[1..] == Classify(scope, args[2..]);
        assert args == [t, args[1]] + args[2..];
      } else if |args| == 1 && t !in scope.helpOptionList && FindOption(scope.options, t).Some? {
        assert steps[1..] == [];
      } else {
        ClassifyConsumesAll(scope, args[1..]);
        assert steps[1..] == Classify(scope, args[1..]);
        assert args == [t] + args[1..];
      }
    }
  }

  /** The condition under which the loop takes a step. */
  predicate Fits(scope: Scope, step: Step)
  {
    match step
    case HelpFlag(t) => t in scope.helpOptionList
    case OptionHit(t, spec, next) =>
      && t !in scope.helpOptionList
      && FindOption(scope.options, t) == Some(spec)
      && (spec.format == BoolFormat ==> next.None?)
    case Cluster(t, names) =>
      && t !in scope.helpOptionList
      && FindOption(scope.options, t).None?
      && IsCluster(scope.groupOptionHash, t)
      && names == ClusterNames(scope.groupOptionHash, t)
    case Plain(t) =>
      && t !in scope.helpOptionList
      && FindOption(scope.options, t).None?
      && !IsCluster(scope.groupOptionHash, t)
  }

  /**
   * Help flags are skipped before anything else; an option is tried before a
   * cluster, and a cluster before a plain token; a boolean option takes no
   * value, and any other option takes the following token whatever it is.
   */
  lemma {:induction false} ClassifyFits(scope: Scope, args: seq<string>)
    ensures forall step :: step in Classify(scope, args) ==> Fits(scope, step)
    ensures forall i :: (0 <= i < |Classify(scope, args)| - 1 && Classify(scope, args)[i].OptionHit? &&
      Classify(scope, args)[i].spec.format != BoolFormat) ==> Classify(scope, args)[i].next.Some?
    decreases |args|
  {
    if |args| > 0 {
      var t := args[0];
      if t !in scope.helpOptionList && FindOption(scope.options, t).Some? &&
         FindOption(scope.options, t).value.format != BoolFormat && |args| > 1 {
        ClassifyFits(scope, args[2..]);
      } else if !(|args| == 1 && t !in scope.helpOptionList && FindOption(scope.options, t).Some?) {
        ClassifyFits(scope, args[1..]);
      }
    }
  }

  /*
   * The effect of the steps
   */

  /** A replaced value reported on the console: `-option item`. */
  datatype Warning = Warning(option: string, value: Value)

  /** The loop state: the result fields, the positionals still unfilled (`tempParams`), `allParams`, and the warnings so far. */
  datatype ScanState = ScanState(
    fields: map<string, Value>,
    pending: seq<FieldSpec>,
    params: seq<string>,
    warnings: seq<Warning>)

  /** What a field is set to: the item itself, or its numeric coercion for `num`. */
  function Stored(spec: FieldSpec, item: Value, host: Host): Value
  {
    if spec.format == NumFormat then Coerce(item, host) else item
  }

  /** The `if (name)` block: assign the field, warning first when an option overwrites a truthy value. */
  function Store(st: ScanState, spec: FieldSpec, item: Value, host: Host): (r: ScanState)
    // A field is written under its name only; a nameless spec changes nothing.
    ensures spec.name == "" ==> r == st
    ensures spec.name != "" ==> r.fields == st.fields[spec.name := Stored(spec, item, host)]
    ensures r.pending == st.pending && r.params == st.params
    // One warning is added, carrying the option's spelling and the new item, exactly when an option overwrites a truthy value.
    ensures |st.warnings| <= |r.warnings| <= |st.warnings| + 1 && r.warnings[..|st.warnings|] == st.warnings
    ensures |r.warnings| == |st.warnings| + 1 <==>
      spec.name != "" && spec.option != "" && spec.name in st.fields && Truthy(st.fields[spec.name])
    ensures |r.warnings| > |st.warnings| ==> r.warnings[|st.warnings|] == Warning(spec.option, item)
  {
    if spec.name == "" then st
    else
      var replaced := spec.name in st.fields && Truthy(st.fields[spec.name]) && spec.option != "";
      st.(fields := st.fields[spec.name := Stored(spec, item, host)],
          warnings := st.warnings + (if replaced then [Warning(spec.option, item)] else []))
  }

  /** `result[groupOptionHash[v]] = true` for each character of a cluster. */
  function SetFlags(fields: map<string, Value>, names: seq<string>): (r: map<string, Value>)
    ensures r.Keys == fields.Keys + set n | n in names
    ensures forall n :: n in names ==> r[n] == Bool(true)
    ensures forall n :: n in fields && n !in names ==> r[n] == fields[n]
    decreases |names|
  {
    if |names| == 0 then fields
    else
      var init := names[..|names| - 1];
      assert forall n :: n in names <==> n in init || n == names[|names| - 1];
      SetFlags(fields, init)[names[|names| - 1] := Bool(true)]
  }

  function Apply(st: ScanState, step: Step, host: Host): ScanState
  {
    match step
    case HelpFlag(_) => st
    case OptionHit(_, spec, next) => Store(st, spec, OptionItem(spec, next), host)
    case Cluster(_, names) => st.(fields := SetFlags(st.fields, names))
    case Plain(t) =>
      var st' := st.(params := st.params + [t]);
      if |st.pending| > 0 then Store(st'.(pending := st.pending[1..]), st.pending[0], Str(t), host)
      else st'
  }

  function Run(st: ScanState, steps: seq<Step>, host: Host): ScanState
    decreases |steps|
  {
    if |steps| == 0 then st
    else Apply(Run(st, steps[..|steps| - 1], host), steps[|steps| - 1], host)
  }

  /** The state before the first token: the scope's result skeleton and all of its positionals. */
  function Start(scope: Scope): ScanState
  {
    ScanState(scope.result, scope.params, [], [])
  }

  /** The token loop over `args` in the active scope. */
  function Scan(scope: Scope, args: seq<string>, host: Host): ScanState
  {
    Run(Start(scope), Classify(scope, args), host)
  }

  /*
   * Properties of the pass
   */

  lemma {:induction false} RunAppend(st: ScanState, a: seq<Step>, b: seq<Step>, host: Host)
    ensures Run(st, a + b, host) == Run(Run(st, a, host), b, host)
    decreases |b|
  {
    if |b| == 0 {
      assert a + b == a;
    } else {
      assert (a + b)[..|a + b| - 1] == a + b[..|b| - 1];
      RunAppend(st, a, b[..|b| - 1], host);
    }
  }

  lemma RunSnoc(st: ScanState, steps: seq<Step>, step: Step, host: Host)
    ensures Run(st, steps + [step], host) == Apply(Run(st, steps, host), step, host)
  {
    assert (steps + [step])[..|steps|] == steps;
  }

  /** Fields are only ever assigned, never removed: every field of the skeleton is still there at the end. */
  lemma {:induction false} RunKeepsFields(st: ScanState, steps: seq<Step>, host: Host)
    ensures st.fields.Keys <= Run(st, steps, host).fields.Keys
    decreases |steps|
  {
    if |steps| > 0 {
      RunKeepsFields(st, steps[..|steps| - 1], host);
    }
  }

  /** The plain tokens among the steps, in order. */
  function PlainTokens(steps: seq<Step>): seq<string>
    decreases |steps|
  {
    if |steps| == 0 then []
    else PlainTokens(steps[..|steps| - 1]) + (if steps[|steps| - 1].Plain? then [steps[|steps| - 1].token] else [])
  }

  function Min(a: nat, b: nat): nat
  {
    if a <= b then a else b
  }

  /**
   * `$params` receives exactly the plain tokens, in order; positionals are
   * used up one per plain token, in declaration order, and the surplus
   * tokens use none.
   */
  lemma {:induction false} RunPositionals(st: ScanState, steps: seq<Step>, host: Host)
    ensures Run(st, steps, host).params == st.params + PlainTokens(steps)
    ensures Run(st, steps, host).pending == st.pending[Min(|PlainTokens(steps)|, |st.pending|)..]
    decreases |steps|
  {
    if |steps| > 0 {
      RunPositionals(st, steps[..|steps| - 1], host);
    }
  }

  /** The steps that assign field `n` whatever the state: an option hit for `n` and a cluster naming `n`. */
  predicate Writes(step: Step, n: string)
  {
    (step.OptionHit? && step.spec.name == n) || (step.Cluster? && n in step.names)
  }

  /** A field that no step writes, and no pending positional is named after, keeps its value (or its absence). */
  lemma {:induction false} UnwrittenKept(st: ScanState, steps: seq<Step>, n: string, host: Host)
    requires forall p :: p in st.pending ==> p.name != n
    requires forall step :: step in steps ==> !Writes(step, n)
    ensures var r := Run(st, steps, host);
      (n in st.fields <==> n in r.fields) && (n in st.fields ==> r.fields[n] == st.fields[n])
    decreases |steps|
  {
    if |steps| > 0 {
      var init := steps[..|steps| - 1];
      assert forall step :: step in init ==> step in steps;
      UnwrittenKept(st, init, n, host);
      RunPositionals(st, init, host);
      var mid := Run(st, init, host);
      var last := steps[|steps| - 1];
      assert last in steps;
      assert Run(st, steps, host) == Apply(mid, last, host);
      assert forall p :: p in mid.pending ==> p in st.pending;
      match last
      case OptionHit(_, spec, _) =>
        assert spec.name != n;
      case Cluster(_, names) =>
        assert n !in names;
      case Plain(_) =>
        if |mid.pending| > 0 {
          assert mid.pending[0] in st.pending;
        }
      case HelpFlag(_) =>
    }
  }

  /**
   * The last assignment wins: after an option hit, the field holds what that
   * hit stored as long as no later step writes it.
   */
  lemma LastOptionWins(st: ScanState, pre: seq<Step>, t: string, spec: FieldSpec, next: Option<string>,
                       post: seq<Step>, host: Host)
    requires spec.name != ""
    requires forall p :: p in st.pending ==> p.name != spec.name
    requires forall step :: step in post ==> !Writes(step, spec.name)
    ensures var r := Run(st, pre + [OptionHit(t, spec, next)] + post, host);
      spec.name in r.fields && r.fields[spec.name] == Stored(spec, OptionItem(spec, next), host)
  {
    var mid := Run(st, pre + [OptionHit(t, spec, next)], host);
    assert (pre + [OptionHit(t, spec, next)])[..|pre|] == pre;
    RunAppend(st, pre + [OptionHit(t, spec, next)], post, host);
    RunPositionals(st, pre + [OptionHit(t, spec, next)], host);
    assert forall p :: p in mid.pending ==> p in st.pending;
    UnwrittenKept(mid, post, spec.name, host);
  }

  /** A cluster sets each field it names to `true`, and no later step but a write to that field undoes it. */
  lemma ClusterSetsFlags(st: ScanState, pre: seq<Step>, t: string, names: seq<string>, post: seq<Step>,
                         n: string, host: Host)
    requires n in names
    requires forall p :: p in st.pending ==> p.name != n
    requires forall step :: step in post ==> !Writes(step, n)
    ensures var r := Run(st, pre + [Cluster(t, names)] + post, host); n in r.fields && r.fields[n] == Bool(true)
    ensures Run(st, pre + [Cluster(t, names)] + post, host).params == st.params + PlainTokens(pre) + PlainTokens(post)
  {
    var s := pre + [Cluster(t, names)];
    var mid := Run(st, s, host);
    assert s[..|pre|] == pre;
    RunAppend(st, s, post, host);
    RunPositionals(st, s, host);
    RunPositionals(mid, post, host);
    assert forall p :: p in mid.pending ==> p in st.pending;
    UnwrittenKept(mid, post, n, host);
  }

  /**
   * The k-th plain token fills the k-th positional still pending, and is
   * appended to `$params` after the plain tokens before it.
   */
  lemma PlainFillsPositional(st: ScanState, pre: seq<Step>, t: string, host: Host)
    requires |PlainTokens(pre)| < |st.pending| && st.pending[|PlainTokens(pre)|].name != ""
    ensures var spec := st.pending[|PlainTokens(pre)|];
      var r := Run(st, pre + [Plain(t)], host); spec.name in r.fields && r.fields[spec.name] == Stored(spec, Str(t), host)
    ensures Run(st, pre + [Plain(t)], host).params == st.params + PlainTokens(pre) + [t]
  {
    assert (pre + [Plain(t)])[..|pre|] == pre;
    RunPositionals(st, pre, host);
  }

  /** Only option hits warn, and only with the option's own name. */
  lemma {:induction false} WarningsFromOptions(st: ScanState, steps: seq<Step>, host: Host)
    requires forall p :: p in st.pending ==> p.option == ""
    ensures forall w :: w in Run(st, steps, host).warnings ==>
      w in st.warnings || exists step :: step in steps && step.OptionHit? && w.option == step.spec.option
    decreases |steps|
  {
    if |steps| > 0 {
      var init := steps[..|steps| - 1];
      WarningsFromOptions(st, init, host);
      RunPositionals(st, init, host);
      var mid := Run(st, init, host);
      assert forall p :: p in mid.pending ==> p in st.pending;
      forall w | w in Run(st, steps, host).warnings
        ensures w in st.warnings || exists step :: step in steps && step.OptionHit? && w.option == step.spec.option
      {
        if w !in mid.warnings {
          assert steps[|steps| - 1].OptionHit?;
        } else if w !in st.warnings {
          var step :| step in init && step.OptionHit? && w.option == step.spec.option;
          assert step in steps;
        }
      }
    }
  }
}
