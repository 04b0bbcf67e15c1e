/**
 * The project records read from `bleep extract-info` and the filter that
 * picks the JSON line out of the command's standard output.
 *
 * A cross-project name looks like `typo@jvm3`: the base project name `typo`
 * followed by `@` and the cross-build id `jvm3`.
 */
module ProjectData {
  import opened KotlinStd

  datatype ProjectInfo = ProjectInfo(name: string, dependsOn: seq<string>, isTest: bool)

  datatype GroupInfo = GroupInfo(name: string, projects: seq<string>)

  /** The full names of a project list, in order (`map { it.name }`). */
  function Names(projects: seq<ProjectInfo>): (r: seq<string>)
    ensures |r| == |projects|
    ensures forall i | 0 <= i < |r| :: r[i] == projects[i].name
  {
    seq(|projects|, i requires 0 <= i < |projects| => projects[i].name)
  }

  /** The base names, in order (`map { it.projectName }`). */
  function BaseNames(projects: seq<ProjectInfo>): (r: seq<string>)
    ensures |r| == |projects|
    ensures forall i | 0 <= i < |r| :: r[i] == ProjectName(projects[i])
  {
    seq(|projects|, i requires 0 <= i < |projects| => ProjectName(projects[i]))
  }

  // ---------------------------------------------------------------------------
  // Cross-project names
  // ---------------------------------------------------------------------------

  /** `ProjectInfo.projectName`: the base name, the text before the first `@`. */
  function ProjectName(p: ProjectInfo): (r: string)
    ensures '@' !in r
    ensures StartsWith(p.name, r)
    ensures r == p.name <==> '@' !in p.name
  {
    SubstringBefore(p.name, '@')
  }

  /** `ProjectInfo.crossId`: the text after the first `@`, or null without one. */
  function CrossId(p: ProjectInfo): (r: Option<string>)
    ensures r.Some? <==> '@' in p.name
    ensures r.Some? ==> EndsWith(p.name, r.value) && |r.value| < |p.name|
  {
    if '@' in p.name then Some(SubstringAfter(p.name, '@')) else None
  }

  /** The name is put back together from its base name and cross id. */
  lemma NameReassembles(p: ProjectInfo)
    ensures CrossId(p).Some? ==> p.name == ProjectName(p) + "@" + CrossId(p).value
    ensures CrossId(p).None? ==> p.name == ProjectName(p)
  {
    if '@' in p.name {
      var k := IndexOfChar(p.name, '@');
      assert p.name == p.name[..k] + "@" + p.name[k + 1..];
    }
  }

  /** The first `@` splits `base@tag` at the end of `base` when `base` has none. */
  lemma SplitAtFirstAt(base: string, tag: string)
    requires '@' !in base
    ensures IndexOfChar(base + "@" + tag, '@') == |base|
  {
    var s := base + "@" + tag;
    assert s[|base|] == '@';
    assert s[..|base|] == base;
    assert forall i | 0 <= i < |base| :: s[i] == base[i];
  }

  /**
   * Two variants of one project: the same base name, different cross ids,
   * distinct full names.
   */
  lemma CrossVariants(base: string, t1: string, t2: string, d1: seq<string>, d2: seq<string>, b1: bool, b2: bool)
    requires '@' !in base && t1 != t2
    ensures var p := ProjectInfo(base + "@" + t1, d1, b1);
            var q := ProjectInfo(base + "@" + t2, d2, b2);
            ProjectName(p) == ProjectName(q) == base
            && CrossId(p) == Some(t1) && CrossId(q) == Some(t2)
            && p.name != q.name
  {
    var s1, s2 := base + "@" + t1, base + "@" + t2;
    SplitAtFirstAt(base, t1);
    SplitAtFirstAt(base, t2);
    assert s1[..|base|] == base && s2[..|base|] == base;
    assert s1[|base| + 1..] == t1 && s2[|base| + 1..] == t2;
    assert s1[|base|] == '@';
    assert s2[|base|] == '@';
  }

  // ---------------------------------------------------------------------------
  // The JSON-line filter of `runBleepCommand`
  // ---------------------------------------------------------------------------

  /** A line is kept when, after leading whitespace, it starts with `{`. */
  predicate IsJsonLine(line: string) {
    StartsWith(TrimStart(line), "{")
  }

  /** The kept lines, in order. */
  function JsonLines(lines: seq<string>): (r: seq<string>)
    ensures |r| <= |lines|
    ensures forall l | l in r :: l in lines && IsJsonLine(l)
    ensures forall l | l in lines && IsJsonLine(l) :: l in r
  {
    if lines == [] then []
    else if IsJsonLine(lines[0]) then [lines[0]] + JsonLines(lines[1..])
    else JsonLines(lines[1..])
  }

  /** The filter keeps the order of the output: the kept lines of two parts are those of the first part, then those of the second. */
  lemma {:induction false} JsonLinesAppend(a: seq<string>, b: seq<string>)
    ensures JsonLines(a + b) == JsonLines(a) + JsonLines(b)
  {
    if a == [] {
      assert a + b == b;
    } else {
      assert (a + b)[0] == a[0] && (a + b)[1..] == a[1..] + b;
      JsonLinesAppend(a[1..], b);
    }
  }

  /** Kept exactly when the first character that is not whitespace is `{`. */
  lemma IsJsonLineMeans(line: string)
    ensures IsJsonLine(line) <==>
      exists i | 0 <= i < |line| :: line[i] == '{' && forall j | 0 <= j < i :: IsWhitespace(line[j])
  {
    var t := TrimStart(line);
    var k := |line| - |t|;
    if IsJsonLine(line) {
      assert t[0] == line[k];
    } else {
      forall i | 0 <= i < |line| && line[i] == '{'
        ensures exists j | 0 <= j < i :: !IsWhitespace(line[j])
      {
        assert k <= i;
        assert t[0] == line[k];
        assert k < i;
      }
    }
  }

  /** Appending the kept lines with no separator, as the read loop does. */
  method CollectJsonOutput(lines: seq<string>) returns (output: string)
    ensures output == Flatten(JsonLines(lines))
  {
    output := "";
    var i := 0;
    while i < |lines|
      invariant 0 <= i <= |lines|
      invariant output + Flatten(JsonLines(lines[i..])) == Flatten(JsonLines(lines))
    {
      assert lines[i..][1..] == lines[i + 1..];
      if IsJsonLine(lines[i]) {
        output := output + lines[i];
      }
      i := i + 1;
    }
    assert lines[i..] == [];
  }

  /** The concatenation is empty exactly when no line was kept. */
  lemma {:induction false} OutputEmptyIffNoJsonLine(lines: seq<string>)
    ensures Flatten(JsonLines(lines)) == "" <==> forall l | l in lines :: !IsJsonLine(l)
  {
    if lines != [] {
      OutputEmptyIffNoJsonLine(lines[1..]);
      assert forall l | l in lines :: l == lines[0] || l in lines[1..];
      if IsJsonLine(lines[0]) {
        assert |TrimStart(lines[0])| > 0;
      }
    }
  }

  /** How the `bleep` subprocess went. */
  datatype ProcessRun =
    | Threw                                         // starting or reading failed
    | Exited(stdout: seq<string>, exitCode: int)

  /**
   * `runBleepCommand`: null when the binary is missing, the run failed, the
   * exit code is non-zero or no JSON line was printed; otherwise the JSON text.
   */
  method RunBleepCommand(binaryExists: bool, run: ProcessRun) returns (r: Option<string>)
    ensures r.None? <==>
      !binaryExists || run.Threw? || run.exitCode != 0
      || forall l | l in run.stdout :: !IsJsonLine(l)
    ensures r.Some? ==> r.value == Flatten(JsonLines(run.stdout)) && r.value != ""
  {
    if !binaryExists {
      return None;
    }
    match run
    case Threw =>
      r := None;
    case Exited(stdout, exitCode) =>
      var output := CollectJsonOutput(stdout);
      OutputEmptyIffNoJsonLine(stdout);
      if exitCode != 0 {
        r := None;
      } else if output == "" {
        r := None;
      } else {
        r := Some(output);
      }
  }
}
