/** The `git_status` prompt module (src/modules/git_status.rs): how the counts
    of a repository's status are turned into segments through the user's
    format strings. The template engine (`StringFormatter`, src/formatter) is
    not part of this model; it is passed in as a pair of functions. */
module GitStatusModule {
  import opened Wrappers
  import opened GitStatusParser
  import Strings
  import GitRepository

  /** A piece of rendered output: its text and the style it is drawn in (a
      style is a name here; resolving it to colours is not modelled). */
  datatype Segment = Segment(text: string, style: Option<string>)

  /** The template engine's error, opaque here. */
  datatype FormatError = FormatError(message: string)

  /** What a variable stands for: plain text, or segments already rendered. */
  datatype VariableValue = Text(text: string) | Segments(segments: seq<Segment>)

  /** The three lookups the engine makes while rendering: a meta-variable to
      the format string it expands to, a style key to a style, a variable to
      its value. `None` means "not known to this module". */
  datatype Mappers = Mappers(
    meta: string -> Option<string>,
    style: string -> Option<string>,
    variable: string -> Option<VariableValue>)

  /** The template engine: `parse` is `StringFormatter::new` (format string to
      template), `render` is the final `.parse(None)` with the mappers set. */
  datatype FormatEngine<!Ast> = FormatEngine(
    parse: string -> Result<Ast, FormatError>,
    render: (Ast, Mappers) -> Result<seq<Segment>, FormatError>)

  /** The parts of `GitStatusConfig` the module reads. */
  datatype GitStatusConfig = GitStatusConfig(
    format: string, style: string,
    stashed: string, ahead: string, behind: string, conflicted: string, deleted: string,
    renamed: string, modified: string, staged: string, untracked: string)

  // ---------------------------------------------------------------------------
  // Decimal rendering of a count: `usize::to_string`

  function DigitChar(d: nat): (c: char)
    requires d < 10
    ensures '0' <= c <= '9' && c as int - '0' as int == d
  {
    ('0' as int + d) as char
  }

  predicate AllDigits(s: string)
  {
    forall i :: 0 <= i < |s| ==> '0' <= s[i] <= '9'
  }

  /** The decimal digits of `n`, most significant first, with no leading zero. */
  function DecimalString(n: nat): (s: string)
    ensures |s| >= 1 && AllDigits(s)
    ensures s[0] == '0' <==> n == 0
    ensures n == 0 ==> s == "0"
    decreases n
  {
    if n < 10 then [DigitChar(n)] else DecimalString(n / 10) + [DigitChar(n % 10)]
  }

  /** The number a string of decimal digits denotes. */
  function DecimalValue(s: string): (n: nat)
    requires AllDigits(s)
  {
    if s == [] then 0 else DecimalValue(s[..|s| - 1]) * 10 + (s[|s| - 1] as int - '0' as int)
  }

  /** Reading the rendered count back gives the count. */
  lemma {:induction false} DecimalRoundTrip(n: nat)
    ensures DecimalValue(DecimalString(n)) == n
    decreases n
  {
    if n >= 10 {
      DecimalRoundTrip(n / 10);
      var s := DecimalString(n);
      assert s[..|s| - 1] == DecimalString(n / 10);
    }
  }

  // ---------------------------------------------------------------------------
  // format_text and format_count

  /** The mappers `format_text` gives the engine: no meta-variables, no styles,
      and each variable the text `mapper` gives for it. */
  function TextMappers(mapper: string -> Option<string>): (m: Mappers)
    ensures forall name :: m.meta(name) == None && m.style(name) == None
    ensures forall name :: m.variable(name).Some? <==> mapper(name).Some?
    ensures forall name :: mapper(name).Some? ==> m.variable(name) == Some(Text(mapper(name).value))
  {
    Mappers(
      _ => None,
      _ => None,
      variable => match mapper(variable) case Some(text) => Some(Text(text)) case None => None)
  }

  /** `format_text`: render `formatStr` with text variables; nothing when the
      format string does not parse or does not render (`configPath` is only
      used in the log message, which is not modelled). */
  function FormatText<Ast>(engine: FormatEngine<Ast>, formatStr: string, configPath: string,
                           mapper: string -> Option<string>): (r: Option<seq<Segment>>)
    ensures engine.parse(formatStr).Err? ==> r.None?
    ensures engine.parse(formatStr).Ok? ==>
              r == engine.render(engine.parse(formatStr).value, TextMappers(mapper)).ToOption()
  {
    match engine.parse(formatStr)
    case Ok(formatter) => engine.render(formatter, TextMappers(mapper)).ToOption()
    case Err(_) => None
  }

  /** The variable mapper of `format_count`: `count` is the only variable, and
      its text is the decimal digits of the count, which read back as the count. */
  function CountMapper(count: nat): (mapper: string -> Option<string>)
    ensures forall name :: mapper(name).Some? <==> name == "count"
    ensures mapper("count").Some? ==> AllDigits(mapper("count").value) && DecimalValue(mapper("count").value) == count
  {
    DecimalRoundTrip(count);
    variable => if variable == "count" then Some(DecimalString(count)) else None
  }

  /** `format_count`: nothing for a zero count, whatever the format string;
      otherwise the format string rendered with `count` bound. */
  function FormatCount<Ast>(engine: FormatEngine<Ast>, formatStr: string, configPath: string,
                            count: nat): (r: Option<seq<Segment>>)
    ensures count == 0 ==> r.None?
    ensures r.Some? ==> engine.parse(formatStr).Ok?
  {
    if count == 0 then None
    else FormatText(engine, formatStr, configPath, CountMapper(count))
  }

  /** A positive count is rendered with exactly one variable bound, `count`, to
      the decimal digits of the count; every other name is unknown, and there
      are no meta-variables or styles. */
  lemma FormatCountBindings<Ast>(engine: FormatEngine<Ast>, formatStr: string, configPath: string, count: nat)
    requires count > 0
    ensures FormatCount(engine, formatStr, configPath, count) == FormatText(engine, formatStr, configPath, CountMapper(count))
    ensures var m := TextMappers(CountMapper(count));
      && m.variable("count") == Some(Text(DecimalString(count)))
      && DecimalValue(DecimalString(count)) == count
      && (forall name :: name != "count" ==> m.variable(name) == None)
      && (forall name :: m.meta(name) == None && m.style(name) == None)
  {
    DecimalRoundTrip(count);
  }

  // ---------------------------------------------------------------------------
  // The mappers of `module`

  /** `ALL_STATUS_FORMAT`, written as one piece per category. */
  const AllStatusFormat: string :=
    "$conflicted" + "$stashed" + "$deleted" + "$renamed" + "$modified" + "$staged" + "$untracked"

  /** The order in which `all_status` lists the categories. */
  const AllStatusNames: seq<string> := ["conflicted", "stashed", "deleted", "renamed", "modified", "staged", "untracked"]

  /** A format string that references each of `names` in turn. */
  function VariableRefs(names: seq<string>): (r: string)
  {
    if names == [] then "" else "$" + names[0] + VariableRefs(names[1..])
  }

  /** The meta mapper: `all_status` is the only meta-variable. */
  function MapMeta(variable: string): (r: Option<string>)
    ensures r.Some? <==> variable == "all_status"
  {
    if variable == "all_status" then Some(AllStatusFormat) else None
  }

  /** The style mapper: `style` is the only style key, and it names the
      configured style. */
  function MapStyle(config: GitStatusConfig, variable: string): (r: Option<string>)
    ensures r.Some? <==> variable == "style"
    ensures r.Some? ==> r.value == config.style
  {
    if variable == "style" then Some(config.style) else None
  }

  /** The variables the module knows. */
  const DispatchedNames: set<string> :=
    {"stashed", "ahead", "behind", "conflicted", "deleted", "renamed", "modified", "staged", "untracked"}

  /** The variable mapper: each known variable renders its own format string
      with a count, as written (so `behind` counts `status.ahead`). */
  function MapVariable<Ast>(config: GitStatusConfig, status: GitStatus, engine: FormatEngine<Ast>,
                            variable: string): (r: Option<seq<Segment>>)
    ensures r.Some? ==> variable in DispatchedNames
  {
    match variable
    case "stashed" => FormatCount(engine, config.stashed, "git_status.stashed", status.stashed)
    case "ahead" => FormatCount(engine, config.ahead, "git_status.ahead", status.ahead)
    case "behind" => FormatCount(engine, config.behind, "git_status.behind", status.ahead)
    case "conflicted" => FormatCount(engine, config.conflicted, "git_status.conflicted", status.conflicted)
    case "deleted" => FormatCount(engine, config.deleted, "git_status.deleted", status.deleted)
    case "renamed" => FormatCount(engine, config.renamed, "git_status.renamed", status.renamed)
    case "modified" => FormatCount(engine, config.modified, "git_status.modified", status.modified)
    case "staged" => FormatCount(engine, config.staged, "git_status.staged", status.staged)
    case "untracked" => FormatCount(engine, config.untracked, "git_status.untracked", status.untracked)
    case _ => None
  }

  /** All mappers `module` hands to the engine: the meta and style mappers
      above, and the variable mapper, whose values are always segments. */
  function ModuleMappers<Ast>(config: GitStatusConfig, status: GitStatus, engine: FormatEngine<Ast>): (m: Mappers)
    ensures forall name :: m.meta(name) == MapMeta(name)
    ensures forall name :: m.style(name) == MapStyle(config, name)
    ensures forall name :: m.variable(name).Some? <==> MapVariable(config, status, engine, name).Some?
    ensures forall name :: m.variable(name).Some? ==>
              m.variable(name) == Some(Segments(MapVariable(config, status, engine, name).value))
  {
    Mappers(
      MapMeta,
      variable => MapStyle(config, variable),
      variable => match MapVariable(config, status, engine, variable)
                  case Some(segments) => Some(Segments(segments))
                  case None => None)
  }

  /** `module`: nothing without a repository, when the format string fails to
      parse or render, or when it renders to no segments at all. */
  function Module<Ast>(repoStatus: Option<GitStatus>, config: GitStatusConfig, engine: FormatEngine<Ast>)
    : (r: Option<seq<Segment>>)
    ensures repoStatus.None? ==> r.None?
    ensures r.Some? ==> r.value != []
  {
    match repoStatus
    case None => None
    case Some(status) =>
      var parsed := match engine.parse(config.format)
                    case Ok(formatter) => engine.render(formatter, ModuleMappers(config, status, engine))
                    case Err(e) => Err(e);
      match parsed
      case Ok(segments) => if segments == [] then None else Some(segments)
      case Err(_) => None
  }

  // ---------------------------------------------------------------------------
  // Properties

  /** With a repository, the module shows exactly the segments the master
      format renders to, and shows nothing otherwise. */
  lemma ModuleResult<Ast>(status: GitStatus, config: GitStatusConfig, engine: FormatEngine<Ast>)
    ensures var rendered := match engine.parse(config.format)
                            case Ok(formatter) => engine.render(formatter, ModuleMappers(config, status, engine))
                            case Err(e) => Err(e);
      Module(Some(status), config, engine)
        == if rendered.Ok? && rendered.value != [] then Some(rendered.value) else None
  {
  }

  /** `stashed`, `ahead` and `behind`, three at a time to keep proofs small. */
  lemma DispatchRemote<Ast>(config: GitStatusConfig, status: GitStatus, engine: FormatEngine<Ast>)
    ensures MapVariable(config, status, engine, "stashed") == FormatCount(engine, config.stashed, "git_status.stashed", status.stashed)
    ensures MapVariable(config, status, engine, "ahead") == FormatCount(engine, config.ahead, "git_status.ahead", status.ahead)
    ensures MapVariable(config, status, engine, "behind") == FormatCount(engine, config.behind, "git_status.behind", status.ahead)
  {
  }

  lemma DispatchIndex<Ast>(config: GitStatusConfig, status: GitStatus, engine: FormatEngine<Ast>)
    ensures MapVariable(config, status, engine, "conflicted") == FormatCount(engine, config.conflicted, "git_status.conflicted", status.conflicted)
    ensures MapVariable(config, status, engine, "deleted") == FormatCount(engine, config.deleted, "git_status.deleted", status.deleted)
    ensures MapVariable(config, status, engine, "renamed") == FormatCount(engine, config.renamed, "git_status.renamed", status.renamed)
  {
  }

  lemma DispatchTree<Ast>(config: GitStatusConfig, status: GitStatus, engine: FormatEngine<Ast>)
    ensures MapVariable(config, status, engine, "modified") == FormatCount(engine, config.modified, "git_status.modified", status.modified)
    ensures MapVariable(config, status, engine, "staged") == FormatCount(engine, config.staged, "git_status.staged", status.staged)
    ensures MapVariable(config, status, engine, "untracked") == FormatCount(engine, config.untracked, "git_status.untracked", status.untracked)
    ensures MapVariable(config, status, engine, "diverged") == None
  {
  }

  /** Which counter and which format string each variable name uses. */
  lemma VariableDispatch<Ast>(config: GitStatusConfig, status: GitStatus, engine: FormatEngine<Ast>)
    ensures MapVariable(config, status, engine, "stashed") == FormatCount(engine, config.stashed, "git_status.stashed", status.stashed)
    ensures MapVariable(config, status, engine, "ahead") == FormatCount(engine, config.ahead, "git_status.ahead", status.ahead)
    ensures MapVariable(config, status, engine, "behind") == FormatCount(engine, config.behind, "git_status.behind", status.ahead)
    ensures MapVariable(config, status, engine, "conflicted") == FormatCount(engine, config.conflicted, "git_status.conflicted", status.conflicted)
    ensures MapVariable(config, status, engine, "deleted") == FormatCount(engine, config.deleted, "git_status.deleted", status.deleted)
    ensures MapVariable(config, status, engine, "renamed") == FormatCount(engine, config.renamed, "git_status.renamed", status.renamed)
    ensures MapVariable(config, status, engine, "modified") == FormatCount(engine, config.modified, "git_status.modified", status.modified)
    ensures MapVariable(config, status, engine, "staged") == FormatCount(engine, config.staged, "git_status.staged", status.staged)
    ensures MapVariable(config, status, engine, "untracked") == FormatCount(engine, config.untracked, "git_status.untracked", status.untracked)
    ensures MapVariable(config, status, engine, "diverged") == None
  {
    DispatchRemote(config, status, engine);
    DispatchIndex(config, status, engine);
    DispatchTree(config, status, engine);
  }

  /** `behind` shows the number of commits ahead: its own counter is never
      read, and it shows nothing when the branch is not ahead. */
  lemma BehindReadsAhead<Ast>(config: GitStatusConfig, status: GitStatus, engine: FormatEngine<Ast>, behind: nat)
    ensures MapVariable(config, status.(behind := behind), engine, "behind") == MapVariable(config, status, engine, "behind")
    ensures status.ahead == 0 ==> MapVariable(config, status, engine, "behind") == None
  {
  }

  /** A clean working tree (all counts zero) gives no segments for any variable. */
  lemma CleanStatusShowsNothing<Ast>(config: GitStatusConfig, engine: FormatEngine<Ast>, variable: string)
    ensures MapVariable(config, Zero, engine, variable) == None
  {
  }

  /** Whatever `git status --porcelain` prints, the parser leaves `stashed`,
      `ahead` and `staged` at zero, so the variables `stashed`, `ahead`,
      `behind` and `staged` never show anything. */
  lemma UnparsedCountersNeverShow<Ast>(config: GitStatusConfig, engine: FormatEngine<Ast>, output: Option<string>)
    ensures var status := GitRepository.StatusOf(output);
      && MapVariable(config, status, engine, "stashed") == None
      && MapVariable(config, status, engine, "ahead") == None
      && MapVariable(config, status, engine, "behind") == None
      && MapVariable(config, status, engine, "staged") == None
  {
    var status := GitRepository.StatusOf(output);
    assert status.stashed == 0 && status.ahead == 0 && status.staged == 0;
  }

  /** Splitting a reference list at '$' recovers the names, in order. */
  lemma {:induction false} SplitVariableRefs(prefix: string, names: seq<string>)
    requires '$' !in prefix
    requires forall i :: 0 <= i < |names| ==> '$' !in names[i]
    ensures Strings.Split(prefix + VariableRefs(names), '$') == [prefix] + names
    decreases |names|
  {
    if names == [] {
      assert prefix + VariableRefs(names) == prefix;
      Strings.SplitWithout(prefix, '$');
    } else {
      SplitVariableRefs(names[0], names[1..]);
      assert prefix + VariableRefs(names) == prefix + "$" + (names[0] + VariableRefs(names[1..]));
      Strings.SplitAfter(prefix, '$', names[0] + VariableRefs(names[1..]));
      assert [prefix] + ([names[0]] + names[1..]) == [prefix] + names;
    }
  }

  /** `ALL_STATUS_FORMAT` references the seven names, one after another. */
  lemma AllStatusFormatIsRefs()
    ensures VariableRefs(AllStatusNames) == AllStatusFormat
  {
    var n := AllStatusNames;
    assert VariableRefs(n[6..]) == "$untracked" by {
      assert n[6..][1..] == [];
      assert "$" + "untracked" == "$untracked";
    }
    assert VariableRefs(n[5..]) == "$staged" + "$untracked" by {
      assert n[5..][1..] == n[6..];
      assert "$" + "staged" == "$staged";
    }
    assert VariableRefs(n[4..]) == "$modified" + ("$staged" + "$untracked") by {
      assert n[4..][1..] == n[5..];
      assert "$" + "modified" == "$modified";
    }
    assert VariableRefs(n[3..]) == "$renamed" + ("$modified" + ("$staged" + "$untracked")) by {
      assert n[3..][1..] == n[4..];
      assert "$" + "renamed" == "$renamed";
    }
    assert VariableRefs(n[2..]) == "$deleted" + ("$renamed" + ("$modified" + ("$staged" + "$untracked"))) by {
      assert n[2..][1..] == n[3..];
      assert "$" + "deleted" == "$deleted";
    }
    assert VariableRefs(n[1..]) == "$stashed" + ("$deleted" + ("$renamed" + ("$modified" + ("$staged" + "$untracked")))) by {
      assert n[1..][1..] == n[2..];
      assert "$" + "stashed" == "$stashed";
    }
    assert "$" + "conflicted" == "$conflicted";
    assert VariableRefs(n) == AllStatusFormat;
  }

  /** `all_status` expands to references to conflicted, stashed, deleted,
      renamed, modified, staged and untracked, in that order, and to nothing else. */
  lemma AllStatusExpansion()
    ensures MapMeta("all_status") == Some(VariableRefs(AllStatusNames))
    ensures Strings.Split(MapMeta("all_status").value, '$') == [""] + AllStatusNames
    ensures forall i :: 0 <= i < |AllStatusNames| ==> AllStatusNames[i] in DispatchedNames
  {
    AllStatusFormatIsRefs();
    var n := AllStatusNames;
    assert forall i :: 0 <= i < |n| ==> '$' !in n[i];
    SplitVariableRefs("", n);
    assert "" + VariableRefs(n) == VariableRefs(n);
  }
}
