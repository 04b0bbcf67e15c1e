/**
 * The per-project service of the plugin: the set of selected cross-project
 * names, its persisted (sorted) form, the stale-selection filter run before
 * `bleep setup-ide`, and the small pure helpers around it.
 */
module Service {
  import opened KotlinStd
  import opened ProjectData

  // ---------------------------------------------------------------------------
  // Names offered to commands
  // ---------------------------------------------------------------------------

  /** `getCrossProjectNames`: every full name, sorted; duplicates stay. */
  function CrossProjectNames(graph: Option<seq<ProjectInfo>>): (r: seq<string>)
    ensures Ascending(r)
    ensures graph.None? ==> r == []
    ensures graph.Some? ==> multiset(r) == multiset(Names(graph.value))
  {
    if graph.None? then [] else Sorted(Names(graph.value))
  }

  /** `getProjectNames`: the distinct base names, sorted. */
  function ProjectNames(graph: Option<seq<ProjectInfo>>): (r: seq<string>)
    ensures Ascending(r) && NoDuplicates(r)
    ensures graph.None? ==> r == []
    ensures graph.Some? ==> forall n :: n in r <==> exists p | p in graph.value :: ProjectName(p) == n
  {
    if graph.None? then [] else
      var d := Distinct(BaseNames(graph.value));
      var r := Sorted(d);
      assert forall n :: n in r <==> n in d by {
        forall n ensures n in r <==> n in d {
          assert n in r <==> n in multiset(r);
          assert n in d <==> n in multiset(d);
        }
      }
      assert forall n :: n in BaseNames(graph.value) <==> exists p | p in graph.value :: ProjectName(p) == n by {
        forall n ensures n in BaseNames(graph.value) ==> exists p | p in graph.value :: ProjectName(p) == n {
          if n in BaseNames(graph.value) {
            var i :| 0 <= i < |graph.value| && BaseNames(graph.value)[i] == n;
            assert graph.value[i] in graph.value;
          }
        }
        forall p | p in graph.value ensures ProjectName(p) in BaseNames(graph.value) {
          var i :| 0 <= i < |graph.value| && graph.value[i] == p;
          assert BaseNames(graph.value)[i] == ProjectName(p);
        }
      }
      NoDuplicatesOfMultiset(d, r);
      r
  }

  /** `listOf(flag, t)` for each target `t`. */
  function FlagPairs(flag: string, targets: seq<string>): seq<seq<string>> {
    seq(|targets|, i requires 0 <= i < |targets| => [flag, targets[i]])
  }

  /** `flag + sep + t` for each target `t`. */
  function FlagWords(flag: string, sep: string, targets: seq<string>): seq<string> {
    seq(|targets|, i requires 0 <= i < |targets| => flag + sep + targets[i])
  }

  /** `targetProjects.flatMap { listOf("-p", it) }.joinToString(" ")`. */
  function SourceGenArgs(targets: seq<string>): string {
    Join(Flatten(FlagPairs("-p", targets)), " ")
  }

  lemma FlagsCons(flag: string, sep: string, targets: seq<string>)
    requires targets != []
    ensures Flatten(FlagPairs(flag, targets)) == [flag, targets[0]] + Flatten(FlagPairs(flag, targets[1..]))
    ensures FlagWords(flag, sep, targets) == [flag + sep + targets[0]] + FlagWords(flag, sep, targets[1..])
    ensures Flatten(FlagPairs(flag, targets[1..])) == [] <==> targets[1..] == []
  {
    assert FlagPairs(flag, targets) == [[flag, targets[0]]] + FlagPairs(flag, targets[1..]);
    var rest := targets[1..];
    if rest != [] {
      assert FlagPairs(flag, rest) == [[flag, rest[0]]] + FlagPairs(flag, rest[1..]);
    }
  }

  lemma JoinCons(x: string, xs: seq<string>, sep: string)
    requires xs != []
    ensures Join([x] + xs, sep) == x + sep + Join(xs, sep)
  {
    assert ([x] + xs)[1..] == xs;
  }

  /** Joining the flag-and-target pairs equals joining one `flag sep t` word per target. */
  lemma {:induction false} FlagPairsJoin(flag: string, sep: string, targets: seq<string>)
    ensures Join(Flatten(FlagPairs(flag, targets)), sep) == Join(FlagWords(flag, sep, targets), sep)
    decreases |targets|
  {
    if targets != [] {
      var t, rest := targets[0], targets[1..];
      var f := Flatten(FlagPairs(flag, rest));
      FlagsCons(flag, sep, targets);
      FlagPairsJoin(flag, sep, rest);
      assert [flag, t] + f == [flag] + ([t] + f);
      JoinCons(flag, [t] + f, sep);
      if rest == [] {
        assert [t] + f == [t];
      } else {
        JoinCons(t, f, sep);
        JoinCons(flag + sep + t, FlagWords(flag, sep, rest), sep);
      }
    }
  }

  /** The same text, read per target: `-p t` for each target, joined by single spaces. */
  lemma SourceGenArgsPerTarget(targets: seq<string>)
    ensures SourceGenArgs(targets) == Join(seq(|targets|, i requires 0 <= i < |targets| => "-p " + targets[i]), " ")
  {
    FlagPairsJoin("-p", " ", targets);
    assert "-p" + " " == "-p ";
    assert FlagWords("-p", " ", targets) == seq(|targets|, i requires 0 <= i < |targets| => "-p " + targets[i]);
  }

  // ---------------------------------------------------------------------------
  // The download-error text of ensureBleep
  // ---------------------------------------------------------------------------

  function NotFoundText(version: string): string {
    "Bleep version " + version + " not found. This version may not be released yet."
  }

  function NetworkErrorText(version: string, message: string): string {
    "Failed to download bleep " + version + ": Network error (" + message + ")"
  }

  /** The generic text; Kotlin prints a null message as "null". */
  function GenericErrorText(version: string, message: Option<string>): string {
    "Failed to download bleep " + version + ": " + (if message.Some? then message.value else "null")
  }

  predicate MentionsNotFound(message: Option<string>) {
    message.Some? && (Contains(message.value, "404") || Contains(message.value, "Not Found"))
  }

  predicate MentionsNetwork(message: Option<string>) {
    message.Some? && (Contains(message.value, "connect") || Contains(message.value, "timeout"))
  }

  /** The text `ensureBleep` reports when downloading threw with `message`. */
  function DownloadErrorMessage(version: string, message: Option<string>): (r: string)
    ensures (r == NotFoundText(version)) <==> MentionsNotFound(message)
    ensures !MentionsNotFound(message) && MentionsNetwork(message) ==> r == NetworkErrorText(version, message.value)
    ensures !MentionsNotFound(message) && !MentionsNetwork(message) ==> r == GenericErrorText(version, message)
  {
    if MentionsNotFound(message) then NotFoundText(version)
    else if MentionsNetwork(message) then
      assert NetworkErrorText(version, message.value)[0] == 'F';
      NetworkErrorText(version, message.value)
    else
      assert GenericErrorText(version, message)[0] == 'F';
      GenericErrorText(version, message)
  }

  /** "404" takes precedence over a network word in the same message. */
  lemma NotFoundBeatsNetwork(version: string, message: string)
    requires Contains(message, "404") && Contains(message, "timeout")
    ensures DownloadErrorMessage(version, Some(message)) == NotFoundText(version)
  {
  }

  /** A null message matches neither test and is reported generically. */
  lemma NullMessageIsGeneric(version: string)
    ensures DownloadErrorMessage(version, None) == "Failed to download bleep " + version + ": null"
  {
  }

  // ---------------------------------------------------------------------------
  // The service object
  // ---------------------------------------------------------------------------

  datatype BspStatus = NOT_CONFIGURED | CONFIGURED | CONNECTED | ERROR

  /** What `ensureBleep` gave: the executable, or the message to report. */
  datatype BleepResult = Success | Error(message: string)

  /** The outcome of running `bleep setup-ide`. */
  datatype CommandResult = CommandResult(success: bool, errorMessage: Option<string>)

  /**
   * How `refreshBsp` went once the base path is known: `.bsp/bleep.json`
   * was missing (its path as shown), one of the BSP actions was found and
   * run, the import fallback succeeded or failed (its message and details),
   * or an exception was thrown before the status was written.
   */
  datatype BspRefresh =
    | BspFileMissing(bspFile: string)
    | ActionInvoked
    | ImportSucceeded
    | ImportFailed(errorMessage: string, errorDetails: Option<string>)
    | RefreshThrew(message: Option<string>)

  /** A refresh that connected the BSP project. */
  predicate Connected(r: BspRefresh) {
    r.ActionInvoked? || r.ImportSucceeded?
  }

  /** The message `refreshBsp` reports for a refresh that did not connect. */
  function RefreshError(r: BspRefresh): string
    requires !Connected(r)
  {
    match r
    case BspFileMissing(f) => "BSP file not found at " + f + " - run setup-ide first"
    case ImportFailed(m, d) => "BSP import failed: " + (if d.Some? then m + ": " + d.value else m)
    case RefreshThrew(m) => "BSP refresh exception: " + (if m.Some? then m.value else "null")
  }

  /** The arguments `setupIde` hands to its completion callback. */
  datatype Completion = Completion(success: bool, message: Option<string>)

  /** The selection `setupIde` keeps: the valid part, when both sets are non-empty. */
  function StaleFiltered(selected: set<string>, valid: set<string>): (r: set<string>)
    ensures r <= selected
    ensures selected != {} && valid != {} ==> r == selected * valid
    ensures selected == {} || valid == {} ==> r == selected
  {
    if selected != {} && valid != {} then selected * valid else selected
  }

  class BleepService {
    /** `selectedProjects`. */
    var selected: set<string>
    /** The list last written to `bsp-project-selection.yaml`. */
    var persisted: seq<string>
    var bspStatus: BspStatus
    /** Whether the IDE project has a base path (where the selection file lives). */
    const hasBasePath: bool

    constructor (hasBasePath: bool)
      ensures this.hasBasePath == hasBasePath
      ensures selected == {} && persisted == [] && bspStatus == NOT_CONFIGURED
    {
      this.hasBasePath := hasBasePath;
      selected := {};
      persisted := [];
      bspStatus := NOT_CONFIGURED;
    }

    method GetSelectedProjects() returns (s: set<string>)
      ensures s == selected
    {
      s := selected;
    }

    /** Replaces the selection; earlier contents are discarded. */
    method SetSelectedProjects(projects: set<string>)
      modifies this`selected
      ensures selected == projects
    {
      selected := projects;
    }

    method ToggleProjectSelection(name: string)
      modifies this`selected
      ensures selected == Toggled(old(selected), name)
    {
      if name in selected {
        selected := selected - {name};
      } else {
        selected := selected + {name};
      }
    }

    method SelectGroup(group: seq<string>)
      modifies this`selected
      ensures selected == old(selected) + set x | x in group
    {
      selected := selected + set x | x in group;
    }

    method DeselectGroup(group: seq<string>)
      modifies this`selected
      ensures selected == old(selected) - set x | x in group
    {
      selected := selected - set x | x in group;
    }

    /** `saveProjectSelection`: the selection as a sorted list; nothing without a base path. */
    method SaveProjectSelection()
      modifies this`persisted
      ensures hasBasePath ==> Ascending(persisted) && ListsExactly(persisted, selected)
      ensures !hasBasePath ==> persisted == old(persisted)
    {
      if hasBasePath {
        var xs := ListOf(selected);
        DistinctMultiset(xs, selected);
        persisted := Sorted(xs);
        assert forall x :: x in persisted <==> x in multiset(xs);
        NoDuplicatesOfMultiset(xs, persisted);
      }
    }

    /**
     * The stale-selection step of `setupIde`: a selection naming projects
     * that are not in the graph is cut down to the valid ones and saved
     * again. Nothing is dropped when either set is empty.
     */
    method DropStaleSelection(validNames: set<string>) returns (validated: seq<string>)
      modifies this`selected, this`persisted
      ensures selected == StaleFiltered(old(selected), validNames)
      ensures ListsExactly(validated, selected)
      ensures !hasBasePath ==> persisted == old(persisted)
      ensures hasBasePath ==>
        (selected == old(selected) && persisted == old(persisted))
        || (Ascending(persisted) && ListsExactly(persisted, selected))
    {
      if selected != {} && validNames != {} {
        var current := ListOf(selected);
        var valid := FilterIn(current, validNames);
        var invalid := FilterOut(current, validNames);
        if invalid != [] {
          SetSelectedProjects(set x | x in valid);
          SaveProjectSelection();
        } else {
          assert selected == selected * validNames by {
            forall x | x in selected ensures x in validNames {
              assert x in current;
              assert x !in invalid;
            }
          }
        }
        validated := valid;
      } else {
        validated := ListOf(selected);
      }
    }

    /**
     * `refreshBsp`: without a base path, only the error. Otherwise the
     * status becomes CONNECTED when the project connected and ERROR when
     * the file was missing or the import failed; an exception leaves it as
     * it was.
     */
    method RefreshBsp(r: BspRefresh) returns (done: Completion)
      modifies this`bspStatus
      ensures done.success <==> hasBasePath && Connected(r)
      ensures done.success ==> done.message.None? && bspStatus == CONNECTED
      ensures !hasBasePath ==> done == Completion(false, Some("Project base path not found")) && bspStatus == old(bspStatus)
      ensures hasBasePath && !Connected(r) ==> done == Completion(false, Some(RefreshError(r)))
      ensures hasBasePath && (r.BspFileMissing? || r.ImportFailed?) ==> bspStatus == ERROR
      ensures hasBasePath && r.RefreshThrew? ==> bspStatus == old(bspStatus)
      ensures hasBasePath && !r.RefreshThrew? ==> (bspStatus == CONNECTED <==> done.success)
    {
      if !hasBasePath {
        return Completion(false, Some("Project base path not found"));
      }
      match r {
        case BspFileMissing(_) =>
          bspStatus := ERROR;
          done := Completion(false, Some(RefreshError(r)));
        case ActionInvoked =>
          bspStatus := CONNECTED;
          done := Completion(true, None);
        case ImportSucceeded =>
          bspStatus := CONNECTED;
          done := Completion(true, None);
        case ImportFailed(_, _) =>
          bspStatus := ERROR;
          done := Completion(false, Some(RefreshError(r)));
        case RefreshThrew(_) =>
          done := Completion(false, Some(RefreshError(r)));
      }
    }

    /**
     * `setupIde` with the background steps as inputs: what `ensureBleep`
     * gave, the project graph behind `getCrossProjectNames`, the result of
     * the setup-ide command and of the BSP refresh that follows it. `projectArgs` are the
     * projects passed to the command, or None when it was not run.
     */
    method SetupIde(bleep: BleepResult, graph: Option<seq<ProjectInfo>>, command: CommandResult, bsp: BspRefresh)
      returns (done: Completion, projectArgs: Option<seq<string>>)
      modifies this`selected, this`persisted, this`bspStatus
      ensures bleep.Error? ==>
        && done == Completion(false, Some(bleep.message)) && projectArgs.None?
        && selected == old(selected) && bspStatus == old(bspStatus)
      ensures bleep.Success? ==>
        var valid := set n | n in CrossProjectNames(graph);
        selected == StaleFiltered(old(selected), valid)
      ensures hasBasePath ==> Ascending(persisted) && ListsExactly(persisted, selected)
      ensures !hasBasePath ==> persisted == old(persisted)
      ensures bleep.Success? && !hasBasePath ==>
        done == Completion(false, Some("Project base path not found"))
        && projectArgs.None? && bspStatus == old(bspStatus)
      ensures bleep.Success? && hasBasePath ==>
        && projectArgs.Some? && ListsExactly(projectArgs.value, selected)
        && (command.success ==>
              && bspStatus == (if Connected(bsp) then CONNECTED else if bsp.RefreshThrew? then CONFIGURED else ERROR)
              && done == (if Connected(bsp) then Completion(true, None)
                          else Completion(false, Some(RefreshError(bsp)))))
        && (!command.success ==>
              && bspStatus == ERROR
              && done == Completion(false, Some(if command.errorMessage.Some? then command.errorMessage.value
                                                else "bleep setup-ide failed")))
    {
      SaveProjectSelection();
      if bleep.Error? {
        return Completion(false, Some(bleep.message)), None;
      }
      var validated := DropStaleSelection(set n | n in CrossProjectNames(graph));
      if !hasBasePath {
        return Completion(false, Some("Project base path not found")), None;
      }
      projectArgs := Some(validated);
      if command.success {
        bspStatus := CONFIGURED;
        var refreshed := RefreshBsp(bsp);
        if refreshed.success {
          done := Completion(true, None);
        } else {
          done := Completion(false, Some(if refreshed.message.Some? then refreshed.message.value else "BSP import failed"));
        }
      } else {
        bspStatus := ERROR;
        done := Completion(false, Some(if command.errorMessage.Some? then command.errorMessage.value
                                       else "bleep setup-ide failed"));
      }
    }
  }

  /** `n` flipped in or out of `s`. */
  function Toggled(s: set<string>, n: string): (r: set<string>)
    ensures n in r <==> n !in s
    ensures forall x | x != n :: x in r <==> x in s
  {
    if n in s then s - {n} else s + {n}
  }

  /** Toggling twice restores the selection. */
  lemma ToggleTwice(s: set<string>, n: string)
    ensures Toggled(Toggled(s, n), n) == s
  {
  }
}
