/**
 * The values and records the command-line parser works on: JavaScript
 * values as they end up in a result object, the declarative rules a caller
 * passes in, the per-command scope records built from them, and the
 * collaborators outside the parser (URL parsing, number parsing, the file
 * system and user validators), which are passed in as plain functions.
 */
module Types {

  datatype Option<+T> = None | Some(value: T)

  /** A JavaScript number: NaN, a finite value or one of the two infinities. */
  datatype Number = NaN | Finite(x: real) | Infinity(negative: bool)

  /** A value stored under a field of the result object. */
  datatype Value = Undefined | Str(s: string) | Num(n: Number) | Bool(b: bool)

  /** JavaScript truthiness: `undefined`, `''`, `0`, `NaN` and `false` are falsy. */
  predicate Truthy(v: Value)
  {
    match v
    case Undefined => false
    case Str(s) => s != ""
    case Num(n) => !(n.NaN? || (n.Finite? && n.x == 0.0))
    case Bool(b) => b
  }

  /** The format tags a rule may carry (`url`, `path`, `bool`, `num`, `dir`, `file`), or none. */
  datatype Format = NoFormat | UrlFormat | PathFormat | BoolFormat | NumFormat | DirFormat | FileFormat

  /** A user `test` (a RegExp or a predicate function), known only by an identifier. */
  type TestId = nat

  /**
   * A rule object as the caller writes it (`CmdParam`). The empty string
   * stands for an absent `name`, `option` or `alias` (all three are falsy
   * when empty); `required` is `None` when the caller leaves it out.
   */
  datatype Decl = Decl(
    name: string,
    option: string,
    alias: string,
    format: Format,
    test: Option<TestId>,
    required: Option<bool>,
    values: Option<map<string, string>>)

  /**
   * One element of the declarative rule list: a bare name, a rule object, or
   * a subcommand descriptor `{cmd, rules, description}`.
   */
  datatype Rule =
    | Bare(name: string)
    | Param(decl: Decl)
    | Cmd(cmd: string, rules: seq<Rule>, description: string)

  /**
   * A stored positional or option spec. Positionals have `option == ""`;
   * `alias` is only ever kept for options.
   */
  datatype FieldSpec = FieldSpec(
    name: string,
    required: bool,
    option: string,
    alias: string,
    format: Format,
    test: Option<TestId>,
    values: Option<map<string, string>>)

  /**
   * One command scope (`'$'` for the root): its positionals and options in
   * declaration order, the single-character boolean-flag table, the help
   * flags still in force, and the result skeleton.
   */
  datatype Scope = Scope(
    cmd: string,
    description: string,
    params: seq<FieldSpec>,
    options: seq<FieldSpec>,
    groupOptionHash: map<char, string>,
    helpOptionList: seq<string>,
    result: map<string, Value>)

  /** The object handed back to the caller: `$cmd`, the fields, and `$params`. */
  datatype ParseResult = ParseResult(cmd: string, fields: map<string, Value>, params: seq<string>)

  /** What `fs.statSync` reports about an existing path. */
  datatype Stats = Stats(isDirectory: bool, isFile: bool)

  datatype Platform = Win32 | Posix

  /**
   * The parser's collaborators. `stat` answers `None` where `fs.statSync`
   * throws (the path does not exist or cannot be read).
   */
  datatype Host = Host(
    platform: Platform,
    canParseUrl: string -> bool,
    toNumber: string -> Number,
    numberToString: Number -> string,
    stat: string -> Option<Stats>,
    runTest: (TestId, Value, ParseResult) -> bool)

  /** `String(v)`: the property key or URL text a value converts to. */
  function ToJsString(v: Value, host: Host): string
  {
    match v
    case Undefined => "undefined"
    case Str(s) => s
    case Num(n) => host.numberToString(n)
    case Bool(b) => if b then "true" else "false"
  }

  /** `v - 0`: the numeric coercion applied to fields whose format is `num`. */
  function Coerce(v: Value, host: Host): (r: Value)
    ensures r.Num?
    ensures v.Num? ==> r == v
    ensures v.Str? ==> r.n == host.toNumber(v.s)
    ensures v.Undefined? ==> r.n.NaN?
  {
    match v
    case Undefined => Num(NaN)
    case Str(s) => Num(host.toNumber(s))
    case Num(n) => v
    case Bool(b) => Num(Finite(if b then 1.0 else 0.0))
  }
}
