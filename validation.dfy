/**
 * The validation pass of `__commander`: every positional, then every
 * option, in declaration order, is checked against the result; the first
 * failing check ends the run. `FirstFailure` is its meaning; the class in
 * commander.dfy runs the pass as a loop with early exits.
 */
module Validation {
  import opened Types
  import Utils

  /** What a format predicate does with a value: accept it, reject it, or throw. */
  datatype Verdict = Accept | Reject | Throw

  /** `fs.statSync(v).isDirectory()` / `.isFile()`: a non-string or a path that cannot be stat'ed throws. */
  function StatVerdict(v: Value, host: Host, wantDirectory: bool): Verdict
  {
    if !v.Str? then Throw
    else match host.stat(v.s)
      case None => Throw
      case Some(st) => if (if wantDirectory then st.isDirectory else st.isFile) then Accept else Reject
  }

  /**
   * `format && format != 'bool' && !commandFormat[format](val)`: no format
   * and `bool` are not checked; `url` parses the string form of the value;
   * `path` needs a string (anything else has no `replace` and throws).
   */
  function FormatVerdict(format: Format, v: Value, host: Host): (r: Verdict)
    ensures format == NoFormat || format == BoolFormat ==> r == Accept
    ensures r == Throw ==> format in {PathFormat, DirFormat, FileFormat} && (!v.Str? || format != PathFormat)
  {
    match format
    case NoFormat => Accept
    case BoolFormat => Accept
    case UrlFormat => if host.canParseUrl(ToJsString(v, host)) then Accept else Reject
    case PathFormat => if !v.Str? then Throw else if Utils.IsPathAsWritten(v.s, host.platform) then Accept else Reject
    case NumFormat => if Utils.IsNum(v, host) then Accept else Reject
    case DirFormat => StatVerdict(v, host, true)
    case FileFormat => StatVerdict(v, host, false)
  }

  /** The `num` check cannot fail once the token loop has coerced the field. */
  lemma CoercedNumAccepted(v: Value, host: Host)
    ensures FormatVerdict(NumFormat, Coerce(v, host), host) == Accept
  {
    Utils.CoercedIsNum(v, host);
  }

  /** On win32 a `path` field holding an ordinary drive path such as `C:\Users` is rejected, as the pattern is written. */
  lemma DrivePathFieldRejected(host: Host)
    requires host.platform == Win32
    ensures FormatVerdict(PathFormat, Str("C:\\Users"), host) == Reject
  {
    Utils.DrivePathRejectedAsWritten();
  }

  /** Why the run stops: the four checks in the order they run, and a format predicate that threw. */
  datatype FailKind = MissingRequired | WrongFormat | InvalidInput | NotAllowedValue | Threw

  datatype Failure = Failure(kind: FailKind, name: string)

  /** `values[val]` is truthy: the value's string form is a key whose description is not empty. */
  predicate Listed(values: map<string, string>, v: Value, host: Host)
  {
    ToJsString(v, host) in values && values[ToJsString(v, host)] != ""
  }

  /** The checks for one spec, in source order, against the result `partial` (which user tests also see). */
  function CheckField(spec: FieldSpec, partial: ParseResult, host: Host): (r: Option<FailKind>)
    // Absent fields fail only when required; nothing else is checked for them.
    ensures spec.name !in partial.fields ==> (r.Some? <==> spec.required) && (r.Some? ==> r.value == MissingRequired)
    ensures r == Some(MissingRequired) ==> spec.name !in partial.fields
    // A present field passes iff the format, the test and the value list all accept it.
    ensures spec.name in partial.fields ==>
      var v := partial.fields[spec.name];
      (r.None? <==>
        && FormatVerdict(spec.format, v, host) == Accept
        && (spec.test.Some? ==> host.runTest(spec.test.value, v, partial))
        && (spec.values.Some? ==> Listed(spec.values.value, v, host)))
    // Each check runs only once the earlier ones have passed.
    ensures r == Some(InvalidInput) || r == Some(NotAllowedValue) ==>
      FormatVerdict(spec.format, partial.fields[spec.name], host) == Accept
    ensures r == Some(NotAllowedValue) ==>
      spec.test.Some? ==> host.runTest(spec.test.value, partial.fields[spec.name], partial)
  {
    if spec.name !in partial.fields then
      if spec.required then Some(MissingRequired) else None
    else
      var v := partial.fields[spec.name];
      match FormatVerdict(spec.format, v, host)
      case Throw => Some(Threw)
      case Reject => Some(WrongFormat)
      case Accept =>
        if spec.test.Some? && !host.runTest(spec.test.value, v, partial) then Some(InvalidInput)
        else if spec.values.Some? && !Listed(spec.values.value, v, host) then Some(NotAllowedValue)
        else None
  }

  /** The first spec, in order, that fails a check. */
  function FirstFailure(specs: seq<FieldSpec>, partial: ParseResult, host: Host): Option<Failure>
    decreases |specs|
  {
    if |specs| == 0 then None
    else match CheckField(specs[0], partial, host)
      case Some(kind) => Some(Failure(kind, specs[0].name))
      case None => FirstFailure(specs[1..], partial, host)
  }

  /** The pass completes exactly when every spec passes every check. */
  lemma {:induction false} FirstFailureNone(specs: seq<FieldSpec>, partial: ParseResult, host: Host)
    ensures FirstFailure(specs, partial, host).None? <==>
      forall i :: 0 <= i < |specs| ==> CheckField(specs[i], partial, host).None?
    decreases |specs|
  {
    if |specs| > 0 {
      FirstFailureNone(specs[1..], partial, host);
      assert forall i :: 1 <= i < |specs| ==> specs[i] == specs[1..][i - 1];
    }
  }

  /** A failure names the first failing spec and the first check it fails; every spec before it passed. */
  lemma {:induction false} FirstFailureIsFirst(specs: seq<FieldSpec>, partial: ParseResult, host: Host)
    requires FirstFailure(specs, partial, host).Some?
    ensures var f := FirstFailure(specs, partial, host).value;
      exists i :: 0 <= i < |specs| && specs[i].name == f.name &&
        CheckField(specs[i], partial, host) == Some(f.kind) &&
        forall j :: 0 <= j < i ==> CheckField(specs[j], partial, host).None?
    decreases |specs|
  {
    if CheckField(specs[0], partial, host).None? {
      var rest := specs[1..];
      FirstFailureIsFirst(rest, partial, host);
      var f := FirstFailure(specs, partial, host).value;
      var i :| 0 <= i < |rest| && rest[i].name == f.name &&
        CheckField(rest[i], partial, host) == Some(f.kind) &&
        forall j :: 0 <= j < i ==> CheckField(rest[j], partial, host).None?;
      assert specs[i + 1] == rest[i];
      assert forall j :: 1 <= j < i + 1 ==> specs[j] == rest[j - 1];
    }
  }
}
