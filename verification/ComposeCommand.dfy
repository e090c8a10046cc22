/** The worker's Compose command line: the admission check of
    services/worker-manager/src/compose_validator.py and the three scanners of
    compose_runner.py that re-read the same arguments afterwards. */
module ComposeCommand {

  type Arg = string

  // ------------------------------------------------------------------- lexicon

  const ALLOWED_COMMANDS: set<Arg> := {"up", "down", "build", "run", "ps", "logs", "stop"}
  const CONTAINER_CREATING_COMMANDS: set<Arg> := {"up", "build", "run"}
  const FILE_FLAGS: set<Arg> := {"-f", "--file"}
  const VALUE_FLAGS: set<Arg> :=
    {"-f", "--file", "--project-directory", "--project-name", "--env-file", "-p", "--profile"}

  function SafeFlags(sub: Arg): set<Arg> {
    match sub
    case "up" => {"-d", "--detach", "--wait", "--build", "--no-build"}
    case "build" => {"--no-cache", "--pull"}
    case "down" => {"-v", "--volumes", "--remove-orphans"}
    case "ps" => {"-a", "--all", "--quiet", "-q"}
    case "logs" => {"-f", "--follow", "--no-color", "--timestamps"}
    case _ => {}
  }

  function SafeValueFlags(sub: Arg): set<Arg> {
    match sub
    case "up" => {"--wait-timeout"}
    case "logs" => {"--tail", "--since", "--until"}
    case _ => {}
  }

  predicate Dashed(a: Arg) {
    a != [] && a[0] == '-'
  }

  /** `--flag=value` for one of the given flags. */
  predicate Joined(a: Arg, flags: set<Arg>) {
    exists f :: f in flags && f + "=" <= a
  }

  /** What each subcommand may be given besides arguments: nothing that names
      another file, project or directory, and volumes are removed by `down` only. */
  lemma FlagsAllowed(sub: Arg, flag: Arg)
    ensures flag in SafeFlags(sub) <==>
              || (sub == "up" && flag in {"-d", "--detach", "--wait", "--build", "--no-build"})
              || (sub == "build" && flag in {"--no-cache", "--pull"})
              || (sub == "down" && flag in {"-v", "--volumes", "--remove-orphans"})
              || (sub == "ps" && flag in {"-a", "--all", "--quiet", "-q"})
              || (sub == "logs" && flag in {"-f", "--follow", "--no-color", "--timestamps"})
    ensures flag in SafeValueFlags(sub) <==>
              (sub == "up" && flag == "--wait-timeout") || (sub == "logs" && flag in {"--tail", "--since", "--until"})
  {
  }

  lemma FlagsAreDashed(sub: Arg)
    ensures forall f :: f in FILE_FLAGS + VALUE_FLAGS + SafeFlags(sub) + SafeValueFlags(sub) ==> Dashed(f)
  {
  }

  // ------------------------------------------------------------------- grammar

  /** The options and arguments a subcommand may be followed by. */
  datatype Word =
    | Positional(text: Arg)
    | Flag(flag: Arg)
    | ValueFlag(flag: Arg, value: Arg)
    | JoinedFlag(text: Arg)

  /** How one Compose source is selected, and which. */
  datatype FileChoice = FileChoice(flag: Arg, path: Arg)

  datatype CommandLine = CommandLine(files: seq<FileChoice>, sub: Arg, words: seq<Word>)

  predicate WordOk(sub: Arg, w: Word) {
    match w
    case Positional(text) => !Dashed(text)
    case Flag(flag) => flag in SafeFlags(sub)
    case ValueFlag(flag, value) => flag in SafeValueFlags(sub) && !Dashed(value)
    case JoinedFlag(text) => Dashed(text) && Joined(text, SafeValueFlags(sub))
  }

  predicate LineOk(line: CommandLine) {
    && line.sub in ALLOWED_COMMANDS
    && (forall i :: 0 <= i < |line.files| ==> line.files[i].flag in FILE_FLAGS && !Dashed(line.files[i].path))
    && (forall i :: 0 <= i < |line.words| ==> WordOk(line.sub, line.words[i]))
  }

  function FileArgs(files: seq<FileChoice>): seq<Arg> {
    if files == [] then [] else [files[0].flag, files[0].path] + FileArgs(files[1..])
  }

  function OneWord(w: Word): seq<Arg> {
    match w
    case Positional(text) => [text]
    case Flag(flag) => [flag]
    case ValueFlag(flag, value) => [flag, value]
    case JoinedFlag(text) => [text]
  }

  function WordArgs(words: seq<Word>): seq<Arg> {
    if words == [] then [] else OneWord(words[0]) + WordArgs(words[1..])
  }

  function Suffix(line: CommandLine): seq<Arg> {
    [line.sub] + WordArgs(line.words)
  }

  function Args(line: CommandLine): seq<Arg> {
    FileArgs(line.files) + Suffix(line)
  }

  // --------------------------------------------- the validator, as two recursions

  /** The part of `validate_command` before the subcommand. */
  datatype Head = Head(errors: nat, sub: seq<Arg>, rest: seq<Arg>)

  function ScanHead(args: seq<Arg>): (h: Head)
    ensures |h.sub| <= 1 && |h.rest| <= |args|
    decreases |args|
  {
    if args == [] then Head(0, [], [])
    else if args[0] in FILE_FLAGS then
      if |args| == 1 || Dashed(args[1]) then Head(1, [], []) else ScanHead(args[2..])
    else if Dashed(args[0]) then
      var h := ScanHead(args[1..]);
      h.(errors := h.errors + 1)
    else Head(0, [args[0]], args[1..])
  }

  /** The number of errors in what follows the subcommand. */
  function TailErrors(sub: Arg, args: seq<Arg>): nat
    decreases |args|
  {
    if args == [] then 0
    else if !Dashed(args[0]) || args[0] in SafeFlags(sub) then TailErrors(sub, args[1..])
    else if args[0] in SafeValueFlags(sub) then
      (if |args| == 1 || Dashed(args[1]) then 1 else 0) + (if |args| == 1 then 0 else TailErrors(sub, args[2..]))
    else if Joined(args[0], SafeValueFlags(sub)) then TailErrors(sub, args[1..])
    else 1 + TailErrors(sub, args[1..])
  }

  function CommandErrors(args: seq<Arg>): nat {
    var h := ScanHead(args);
    if h.sub == [] || h.sub[0] !in ALLOWED_COMMANDS then h.errors + 1
    else h.errors + TailErrors(h.sub[0], h.rest)
  }

  predicate Admitted(args: seq<Arg>) {
    CommandErrors(args) == 0
  }

  // --------------------------------------- admitted arguments are the grammar's

  lemma {:induction false} WordsAdmitted(sub: Arg, words: seq<Word>)
    requires forall i :: 0 <= i < |words| ==> WordOk(sub, words[i])
    ensures TailErrors(sub, WordArgs(words)) == 0
  {
    if words != [] {
      FlagsAreDashed(sub);
      var w, rest := words[0], WordArgs(words[1..]);
      WordsAdmitted(sub, words[1..]);
      match w {
        case Positional(text) => assert ([text] + rest)[1..] == rest;
        case Flag(flag) => assert ([flag] + rest)[1..] == rest;
        case ValueFlag(flag, value) =>
          ValueFlagsAreNotFlags(sub);
          assert ([flag, value] + rest)[2..] == rest;
        case JoinedFlag(text) =>
          JoinedIsNoFlag(sub, text);
          assert ([text] + rest)[1..] == rest;
      }
    }
  }

  lemma ValueFlagsAreNotFlags(sub: Arg)
    ensures SafeFlags(sub) !! SafeValueFlags(sub)
    ensures forall f :: f in SafeFlags(sub) + SafeValueFlags(sub) ==> '=' !in f
  {
  }

  lemma JoinedIsNoFlag(sub: Arg, text: Arg)
    requires Joined(text, SafeValueFlags(sub))
    ensures text !in SafeFlags(sub) && text !in SafeValueFlags(sub)
  {
    var f :| f in SafeValueFlags(sub) && f + "=" <= text;
    assert text[|f|] == (f + "=")[|f|] == '=';
    ValueFlagsAreNotFlags(sub);
  }

  /** Reading the words back from admitted arguments. */
  function Words(sub: Arg, args: seq<Arg>): (words: seq<Word>)
    requires TailErrors(sub, args) == 0
    ensures WordArgs(words) == args
    ensures forall i :: 0 <= i < |words| ==> WordOk(sub, words[i])
    decreases |args|
  {
    if args == [] then []
    else if !Dashed(args[0]) then [Positional(args[0])] + Words(sub, args[1..])
    else if args[0] in SafeFlags(sub) then [Flag(args[0])] + Words(sub, args[1..])
    else if args[0] in SafeValueFlags(sub) then
      assert args == [args[0], args[1]] + args[2..];
      [ValueFlag(args[0], args[1])] + Words(sub, args[2..])
    else [JoinedFlag(args[0])] + Words(sub, args[1..])
  }

  /** Two words of one subcommand that begin with the same argument are of the
      same kind. */
  lemma FirstArgumentDecides(sub: Arg, v: Word, w: Word)
    requires WordOk(sub, v) && WordOk(sub, w) && OneWord(v)[0] == OneWord(w)[0]
    ensures v.ValueFlag? <==> w.ValueFlag?
    ensures !v.ValueFlag? ==> v == w
  {
    FlagsAreDashed(sub);
    ValueFlagsAreNotFlags(sub);
    if v.JoinedFlag? { JoinedIsNoFlag(sub, v.text); }
    if w.JoinedFlag? { JoinedIsNoFlag(sub, w.text); }
  }

  lemma SameFirstWord(sub: Arg, a: seq<Word>, b: seq<Word>)
    requires a != [] && b != [] && WordOk(sub, a[0]) && WordOk(sub, b[0]) && WordArgs(a) == WordArgs(b)
    ensures a[0] == b[0] && WordArgs(a[1..]) == WordArgs(b[1..])
  {
    var args := WordArgs(a);
    var m, n := |OneWord(a[0])|, |OneWord(b[0])|;
    assert args == OneWord(a[0]) + WordArgs(a[1..]) && args == OneWord(b[0]) + WordArgs(b[1..]);
    assert OneWord(a[0])[0] == args[0] == OneWord(b[0])[0];
    FirstArgumentDecides(sub, a[0], b[0]);
    assert m == n && OneWord(a[0]) == args[..m] == OneWord(b[0]);
    assert WordArgs(a[1..]) == args[m..] == WordArgs(b[1..]);
  }

  lemma {:induction false} WordsUnique(sub: Arg, a: seq<Word>, b: seq<Word>)
    requires forall i :: 0 <= i < |a| ==> WordOk(sub, a[i])
    requires forall i :: 0 <= i < |b| ==> WordOk(sub, b[i])
    requires WordArgs(a) == WordArgs(b)
    ensures a == b
    decreases |a|
  {
    if a != [] && b != [] {
      SameFirstWord(sub, a, b);
      WordsUnique(sub, a[1..], b[1..]);
      assert a == [a[0]] + a[1..] && b == [b[0]] + b[1..];
    }
  }

  lemma {:induction false} LineAdmittedHead(files: seq<FileChoice>, sub: Arg, rest: seq<Arg>)
    requires !Dashed(sub)
    requires forall i :: 0 <= i < |files| ==> files[i].flag in FILE_FLAGS && !Dashed(files[i].path)
    ensures ScanHead(FileArgs(files) + [sub] + rest) == Head(0, [sub], rest)
  {
    var args := FileArgs(files) + [sub] + rest;
    if files == [] {
      assert args[1..] == rest;
    } else {
      LineAdmittedHead(files[1..], sub, rest);
      assert args[0] == files[0].flag && args[1] == files[0].path;
      assert args[2..] == FileArgs(files[1..]) + [sub] + rest;
    }
  }

  lemma AllowedAreBare()
    ensures forall sub :: sub in ALLOWED_COMMANDS ==> !Dashed(sub) && sub !in VALUE_FLAGS
  {
  }

  lemma LineAdmitted(line: CommandLine)
    requires LineOk(line)
    ensures Admitted(Args(line))
  {
    AllowedAreBare();
    assert Args(line) == FileArgs(line.files) + [line.sub] + WordArgs(line.words);
    LineAdmittedHead(line.files, line.sub, WordArgs(line.words));
    WordsAdmitted(line.sub, line.words);
  }

  function Files(args: seq<Arg>): (files: seq<FileChoice>)
    requires ScanHead(args).errors == 0 && ScanHead(args).sub != []
    ensures forall i :: 0 <= i < |files| ==> files[i].flag in FILE_FLAGS && !Dashed(files[i].path)
    decreases |args|
  {
    if args[0] in FILE_FLAGS then [FileChoice(args[0], args[1])] + Files(args[2..]) else []
  }

  lemma FileArgsCons(file: FileChoice, files: seq<FileChoice>)
    ensures FileArgs([file] + files) == [file.flag, file.path] + FileArgs(files)
  {
    assert ([file] + files)[1..] == files;
  }

  lemma {:induction false} FilesAreRead(args: seq<Arg>)
    requires ScanHead(args).errors == 0 && ScanHead(args).sub != []
    ensures args == FileArgs(Files(args)) + ScanHead(args).sub + ScanHead(args).rest
    decreases |args|
  {
    if args[0] in FILE_FLAGS {
      FilesAreRead(args[2..]);
      var pair, files, h := [args[0], args[1]], Files(args[2..]), ScanHead(args);
      FileArgsCons(FileChoice(args[0], args[1]), files);
      assert pair + (FileArgs(files) + h.sub + h.rest) == pair + FileArgs(files) + h.sub + h.rest;
      assert args == pair + args[2..];
    } else {
      assert args == [args[0]] + args[1..];
    }
  }

  lemma LineArgs(line: CommandLine)
    ensures Args(line) == FileArgs(line.files) + [line.sub] + WordArgs(line.words)
    ensures line.files == [] ==> Args(line)[0] == line.sub && Args(line)[1..] == WordArgs(line.words)
    ensures line.files != [] ==>
              && |Args(line)| > 2
              && Args(line)[0] == line.files[0].flag && Args(line)[1] == line.files[0].path
              && Args(line)[2..] == Args(line.(files := line.files[1..]))
  {
  }

  lemma AdmittedHead(args: seq<Arg>)
    requires Admitted(args)
    ensures
      var h := ScanHead(args);
      && h.errors == 0 && |h.sub| == 1 && h.sub == [h.sub[0]]
      && h.sub[0] in ALLOWED_COMMANDS && TailErrors(h.sub[0], h.rest) == 0
  {
  }

  /** Every admitted argument list is a command line of the grammar. */
  function Reading(args: seq<Arg>): (line: CommandLine)
    requires Admitted(args)
    ensures LineOk(line) && Args(line) == args
  {
    AdmittedHead(args);
    FilesAreRead(args);
    var h := ScanHead(args);
    var line := CommandLine(Files(args), h.sub[0], Words(h.sub[0], h.rest));
    LineArgs(line);
    line
  }

  lemma FirstArgument(line: CommandLine)
    requires LineOk(line)
    ensures line.files == [] <==> !Dashed(Args(line)[0])
  {
    AllowedAreBare();
    FlagsAreDashed(line.sub);
    LineArgs(line);
  }

  lemma {:induction false} LineUnique(a: CommandLine, b: CommandLine)
    requires LineOk(a) && LineOk(b) && Args(a) == Args(b)
    ensures a == b
    decreases |a.files|
  {
    FirstArgument(a);
    FirstArgument(b);
    LineArgs(a);
    LineArgs(b);
    if a.files == [] {
      WordsUnique(a.sub, a.words, b.words);
    } else {
      LineUnique(a.(files := a.files[1..]), b.(files := b.files[1..]));
      assert a.files == [a.files[0]] + a.files[1..] && b.files == [b.files[0]] + b.files[1..];
    }
  }

  /** The validator admits exactly the grammar, and each admitted argument list
      has exactly one reading. */
  lemma GrammarExact(args: seq<Arg>)
    ensures Admitted(args) <==> exists line :: LineOk(line) && Args(line) == args
    ensures forall a, b :: LineOk(a) && LineOk(b) && Args(a) == args && Args(b) == args ==> a == b
  {
    if Admitted(args) {
      var line := Reading(args);
      assert LineOk(line) && Args(line) == args;
    }
    forall line | LineOk(line) && Args(line) == args ensures Admitted(args) {
      LineAdmitted(line);
    }
    forall a, b | LineOk(a) && LineOk(b) && Args(a) == args && Args(b) == args ensures a == b {
      LineUnique(a, b);
    }
  }

  // ------------------------------------------------------------- the scanners

  /** `_subcommand`: the first argument that is neither a flag nor a value. */
  function SubcommandOf(args: seq<Arg>): seq<Arg>
    decreases |args|
  {
    if args == [] then []
    else if args[0] in VALUE_FLAGS then (if |args| == 1 then [] else SubcommandOf(args[2..]))
    else if !Dashed(args[0]) then [args[0]]
    else SubcommandOf(args[1..])
  }

  function WithoutFileFlags(args: seq<Arg>): seq<Arg>
    decreases |args|
  {
    if args == [] then []
    else if args[0] in FILE_FLAGS then (if |args| == 1 then [] else WithoutFileFlags(args[2..]))
    else [args[0]] + WithoutFileFlags(args[1..])
  }

  function FileFlagArgs(args: seq<Arg>): seq<Arg>
    decreases |args|
  {
    if args == [] then []
    else if args[0] in FILE_FLAGS then
      (if |args| == 1 then [] else [args[0], args[1]] + FileFlagArgs(args[2..]))
    else FileFlagArgs(args[1..])
  }

  /** Every file flag the strippers meet is followed by a path. */
  predicate FlagsComplete(args: seq<Arg>)
    decreases |args|
  {
    if args == [] then true
    else if args[0] in FILE_FLAGS then |args| > 1 && FlagsComplete(args[2..])
    else FlagsComplete(args[1..])
  }

  predicate HasFileSelection(args: seq<Arg>)
    decreases |args|
  {
    if args == [] then false
    else if args[0] in FILE_FLAGS then true
    else if args[0] in VALUE_FLAGS then |args| > 1 && HasFileSelection(args[2..])
    else if Dashed(args[0]) then HasFileSelection(args[1..])
    else false
  }

  /** How the scanners move on any list: over a flag and its value together, over
      other flags one by one, and no further than the first argument. */
  lemma ScannersMove(flag: Arg, value: Arg, word: Arg, rest: seq<Arg>)
    requires !Dashed(word)
    ensures flag in {"-f", "--file"} ==>
              && FileFlagArgs([flag, value] + rest) == [flag, value] + FileFlagArgs(rest)
              && WithoutFileFlags([flag, value] + rest) == WithoutFileFlags(rest)
              && (FlagsComplete([flag, value] + rest) <==> FlagsComplete(rest))
              && !FlagsComplete([flag]) && HasFileSelection([flag] + rest)
    ensures flag in {"--project-directory", "--project-name", "--env-file", "-p", "--profile"} ==>
              && SubcommandOf([flag, value] + rest) == SubcommandOf(rest)
              && (HasFileSelection([flag, value] + rest) <==> HasFileSelection(rest))
              && WithoutFileFlags([flag] + rest) == [flag] + WithoutFileFlags(rest)
    ensures Dashed(flag) && flag !in VALUE_FLAGS ==>
              && SubcommandOf([flag] + rest) == SubcommandOf(rest)
              && (HasFileSelection([flag] + rest) <==> HasFileSelection(rest))
              && (FlagsComplete([flag] + rest) <==> FlagsComplete(rest))
    ensures SubcommandOf([word] + rest) == [word] && !HasFileSelection([word] + rest)
    ensures WithoutFileFlags([word] + rest) == [word] + WithoutFileFlags(rest)
    ensures SubcommandOf([]) == [] && !HasFileSelection([]) && FlagsComplete([]) && WithoutFileFlags([]) == []
  {
    assert ([flag, value] + rest)[2..] == rest && ([flag, value] + rest)[0] == flag;
    assert ([flag] + rest)[1..] == rest && ([word] + rest)[1..] == rest;
  }

  lemma {:induction false} SubcommandAgrees(line: CommandLine)
    requires LineOk(line)
    ensures SubcommandOf(Args(line)) == [line.sub]
    decreases |line.files|
  {
    AllowedAreBare();
    if line.files != [] {
      var shorter := line.(files := line.files[1..]);
      SubcommandAgrees(shorter);
      assert Args(line)[2..] == Args(shorter);
    }
  }

  lemma FileSelectionAgrees(line: CommandLine)
    requires LineOk(line)
    ensures HasFileSelection(Args(line)) <==> line.files != []
  {
    AllowedAreBare();
  }

  /** Nothing a container-creating subcommand may be followed by looks like a
      file flag; `logs`, whose follow flag is "-f", is the exception. */
  lemma {:induction false} WordsHaveNoFileFlags(sub: Arg, words: seq<Word>)
    requires sub in CONTAINER_CREATING_COMMANDS
    requires forall i :: 0 <= i < |words| ==> WordOk(sub, words[i])
    ensures forall i :: 0 <= i < |WordArgs(words)| ==> WordArgs(words)[i] !in FILE_FLAGS
  {
    if words != [] {
      WordsHaveNoFileFlags(sub, words[1..]);
      if words[0].JoinedFlag? {
        var text := words[0].text;
        var f :| f in SafeValueFlags(sub) && f + "=" <= text;
        assert f == "--wait-timeout" && |text| > 6;
      }
    }
  }

  lemma {:induction false} NothingToStrip(args: seq<Arg>)
    requires forall i :: 0 <= i < |args| ==> args[i] !in FILE_FLAGS
    ensures WithoutFileFlags(args) == args && FileFlagArgs(args) == [] && FlagsComplete(args)
  {
    if args != [] {
      NothingToStrip(args[1..]);
      assert args == [args[0]] + args[1..];
    }
  }

  lemma {:induction false} StrippingAgrees(line: CommandLine)
    requires LineOk(line) && line.sub in CONTAINER_CREATING_COMMANDS
    ensures WithoutFileFlags(Args(line)) == Suffix(line)
    ensures FileFlagArgs(Args(line)) == FileArgs(line.files)
    ensures FlagsComplete(Args(line))
    decreases |line.files|
  {
    AllowedAreBare();
    if line.files == [] {
      WordsHaveNoFileFlags(line.sub, line.words);
      assert Args(line) == Suffix(line);
      NothingToStrip(Suffix(line));
    } else {
      var shorter := line.(files := line.files[1..]);
      StrippingAgrees(shorter);
      assert Args(line)[2..] == Args(shorter);
      assert Suffix(shorter) == Suffix(line);
    }
  }

  /** All four readers of one admitted argument list agree, and the command that
      is finally executed selects one source only, the persisted snapshot. */
  lemma ScannersAgree(args: seq<Arg>)
    requires Admitted(args)
    ensures
      var line := Reading(args);
      && SubcommandOf(args) == [line.sub]
      && (HasFileSelection(args) <==> line.files != [])
      && (line.sub in CONTAINER_CREATING_COMMANDS ==>
            && WithoutFileFlags(args) == Suffix(line)
            && FileFlagArgs(args) == FileArgs(line.files) && FlagsComplete(args)
            && forall i :: 0 <= i < |Suffix(line)| ==> Suffix(line)[i] !in FILE_FLAGS)
  {
    var line := Reading(args);
    SubcommandAgrees(line);
    FileSelectionAgrees(line);
    if line.sub in CONTAINER_CREATING_COMMANDS {
      StrippingAgrees(line);
      WordsHaveNoFileFlags(line.sub, line.words);
      AllowedAreBare();
    }
  }

  /** What `_write_snapshot` finally executes. */
  function Executed(docker: Arg, project: Arg, directory: Arg, snapshot: Arg, args: seq<Arg>): seq<Arg> {
    [docker, "compose", "--project-name", project, "--project-directory", directory]
    + ["-f", snapshot] + WithoutFileFlags(args)
  }

  /** Whatever sources the worker selected, the executed command reads exactly
      one, the manager's snapshot, and runs the worker's subcommand on it. */
  lemma OneSourceExecuted(docker: Arg, project: Arg, directory: Arg, snapshot: Arg, args: seq<Arg>)
    requires Admitted(args) && Reading(args).sub in CONTAINER_CREATING_COMMANDS
    requires !Dashed(docker) && !Dashed(project) && !Dashed(directory) && !Dashed(snapshot)
    ensures
      var command := Executed(docker, project, directory, snapshot, args);
      && command == [docker, "compose", "--project-name", project, "--project-directory", directory, "-f", snapshot]
                    + [Reading(args).sub] + WordArgs(Reading(args).words)
      && FileFlagArgs(command) == ["-f", snapshot]
      && SubcommandOf(command[2..]) == [Reading(args).sub]
  {
    ScannersAgree(args);
    ExecutedSources(docker, project, directory, snapshot, Suffix(Reading(args)));
    ExecutedSubcommand(docker, project, directory, snapshot, Reading(args));
  }

  lemma NoFileFlag(a: Arg)
    requires |a| > 6 || !Dashed(a)
    ensures a !in FILE_FLAGS
  {
  }

  lemma ExecutedSources(docker: Arg, project: Arg, directory: Arg, snapshot: Arg, rest: seq<Arg>)
    requires forall i :: 0 <= i < |rest| ==> rest[i] !in FILE_FLAGS
    requires !Dashed(docker) && !Dashed(project) && !Dashed(directory) && !Dashed(snapshot)
    ensures
      var fixed := [docker, "compose", "--project-name", project, "--project-directory", directory];
      FileFlagArgs(fixed + ["-f", snapshot] + rest) == ["-f", snapshot]
  {
    var fixed := [docker, "compose", "--project-name", project, "--project-directory", directory];
    FixedIsPlain(docker, project, directory);
    SnapshotAfter(fixed, snapshot, rest);
  }

  lemma SnapshotAfter(fixed: seq<Arg>, snapshot: Arg, rest: seq<Arg>)
    requires forall i :: 0 <= i < |fixed| ==> |fixed[i]| > 6 || !Dashed(fixed[i])
    requires forall i :: 0 <= i < |rest| ==> rest[i] !in FILE_FLAGS
    ensures FileFlagArgs(fixed + ["-f", snapshot] + rest) == ["-f", snapshot]
  {
    SnapshotOnly(snapshot, rest);
    SkipPlain(fixed, ["-f", snapshot] + rest);
    assert fixed + ["-f", snapshot] + rest == fixed + (["-f", snapshot] + rest);
  }

  lemma FixedIsPlain(docker: Arg, project: Arg, directory: Arg)
    requires !Dashed(docker) && !Dashed(project) && !Dashed(directory)
    ensures
      var fixed := [docker, "compose", "--project-name", project, "--project-directory", directory];
      forall i :: 0 <= i < |fixed| ==> |fixed[i]| > 6 || !Dashed(fixed[i])
  {
  }

  lemma SnapshotOnly(snapshot: Arg, rest: seq<Arg>)
    requires forall i :: 0 <= i < |rest| ==> rest[i] !in FILE_FLAGS
    ensures FileFlagArgs(["-f", snapshot] + rest) == ["-f", snapshot]
  {
    NothingToStrip(rest);
    assert (["-f", snapshot] + rest)[2..] == rest;
  }

  lemma ExecutedSubcommand(docker: Arg, project: Arg, directory: Arg, snapshot: Arg, line: CommandLine)
    requires LineOk(line)
    ensures
      var fixed := [docker, "compose", "--project-name", project, "--project-directory", directory];
      SubcommandOf((fixed + ["-f", snapshot] + Suffix(line))[2..]) == [line.sub]
  {
    var fixed := [docker, "compose", "--project-name", project, "--project-directory", directory];
    var rest := Suffix(line);
    var tail1 := ["-f", snapshot] + rest;
    var tail2 := ["--project-directory", directory] + tail1;
    assert (fixed + ["-f", snapshot] + rest)[2..] == ["--project-name", project] + tail2;
    SkipPair("--project-name", project, tail2);
    SkipPair("--project-directory", directory, tail1);
    SkipPair("-f", snapshot, rest);
    AllowedAreBare();
  }

  lemma {:induction false} SkipPlain(fixed: seq<Arg>, rest: seq<Arg>)
    requires forall i :: 0 <= i < |fixed| ==> |fixed[i]| > 6 || !Dashed(fixed[i])
    ensures FileFlagArgs(fixed + rest) == FileFlagArgs(rest)
  {
    if fixed == [] {
      assert fixed + rest == rest;
    } else {
      assert (fixed + rest)[1..] == fixed[1..] + rest;
      SkipPlain(fixed[1..], rest);
      NoFileFlag(fixed[0]);
    }
  }

  lemma SkipPair(flag: Arg, value: Arg, rest: seq<Arg>)
    requires flag in VALUE_FLAGS
    ensures SubcommandOf([flag, value] + rest) == SubcommandOf(rest)
  {
    assert ([flag, value] + rest)[2..] == rest;
  }

  ghost predicate MeetsFileFlag(args: seq<Arg>) {
    exists a :: a in args && a in FILE_FLAGS
  }

  /** The one word that looks like a file flag is the follow flag. */
  lemma FollowFlagOnly(sub: Arg, w: Word)
    requires sub in ALLOWED_COMMANDS && WordOk(sub, w)
    ensures MeetsFileFlag(OneWord(w)) <==> w == Flag("-f")
  {
    if w.JoinedFlag? {
      var f :| f in SafeValueFlags(sub) && f + "=" <= w.text;
      assert |f| >= 6 && |w.text| > 6;
    }
    if w == Flag("-f") {
      assert OneWord(w)[0] in FILE_FLAGS;
    }
  }

  lemma {:induction false} FollowFlagAmong(sub: Arg, words: seq<Word>)
    requires sub in ALLOWED_COMMANDS && forall i :: 0 <= i < |words| ==> WordOk(sub, words[i])
    ensures MeetsFileFlag(WordArgs(words)) <==> Flag("-f") in words
  {
    if words != [] {
      FollowFlagOnly(sub, words[0]);
      FollowFlagAmong(sub, words[1..]);
      assert forall a :: a in WordArgs(words) <==> a in OneWord(words[0]) || a in WordArgs(words[1..]);
    }
  }

  lemma {:induction false} StripperLeavesNoFileFlag(args: seq<Arg>)
    ensures |WithoutFileFlags(args)| <= |args|
    ensures WithoutFileFlags(args) == args <==> !MeetsFileFlag(args)
    decreases |args|
  {
    if args == [] {
    } else if args[0] in FILE_FLAGS {
      if |args| > 1 {
        StripperLeavesNoFileFlag(args[2..]);
      }
      assert args[0] in args;
    } else {
      StripperLeavesNoFileFlag(args[1..]);
      assert args == [args[0]] + args[1..];
      assert WithoutFileFlags(args)[1..] == WithoutFileFlags(args[1..]);
    }
  }

  lemma {:induction false} FilesAreStripped(line: CommandLine)
    requires LineOk(line)
    ensures WithoutFileFlags(Args(line)) == WithoutFileFlags(Suffix(line))
    decreases |line.files|
  {
    if line.files == [] {
      assert Args(line) == Suffix(line);
    } else {
      var shorter := line.(files := line.files[1..]);
      FilesAreStripped(shorter);
      assert Args(line)[0] in FILE_FLAGS && Args(line)[2..] == Args(shorter);
      assert Suffix(shorter) == Suffix(line);
    }
  }

  /** On an admitted list the strippers leave exactly what was meant for Compose
      after the file flags, if and only if the follow flag "-f" is not among it. */
  lemma SuffixIsKept(line: CommandLine)
    requires LineOk(line)
    ensures WithoutFileFlags(Args(line)) == Suffix(line) <==> Flag("-f") !in line.words
  {
    FilesAreStripped(line);
    StripperLeavesNoFileFlag(Suffix(line));
    FollowFlagAmong(line.sub, line.words);
    AllowedAreBare();
    assert forall a :: a in Suffix(line) <==> a == line.sub || a in WordArgs(line.words);
  }

  /** For `logs` the strippers would take the follow flag for a file flag; they
      are never asked to, because `logs` creates no container. */
  lemma LogsWouldBeMangled()
    ensures
      var args := ["logs", "-f", "web"];
      && Admitted(args)
      && WithoutFileFlags(args) == ["logs"]
      && !HasFileSelection(args)
  {
    var line := CommandLine([], "logs", [Flag("-f"), Positional("web")]);
    assert WordArgs([Positional("web")]) == ["web"];
    assert WordArgs(line.words) == ["-f", "web"];
    assert Args(line) == ["logs", "-f", "web"];
    LineAdmitted(line);
    var args := ["logs", "-f", "web"];
    assert args[1..] == ["-f", "web"] && ["-f", "web"][2..] == [];
    assert WithoutFileFlags(["-f", "web"]) == [];
  }

  // -------------------------------------------------------------------- the code

  /** The first loop of `validate_command`: up to and including the subcommand. */
  method ScanGlobalFlags(args: seq<Arg>) returns (errors: nat, subcommand: seq<Arg>, index: nat)
    ensures index <= |args|
    ensures var h := ScanHead(args);
      errors == h.errors && subcommand == h.sub && (subcommand != [] ==> h.rest == args[index..])
  {
    errors, subcommand, index := 0, [], 0;
    while index < |args|
      invariant index <= |args|
      invariant subcommand == []
      invariant var rest := ScanHead(args[index..]);
        ScanHead(args) == rest.(errors := errors + rest.errors)
    {
      var arg := args[index];
      ghost var here := args[index..];
      assert here[0] == arg && here[1..] == args[index + 1..];
      if arg in FILE_FLAGS {
        if index + 1 >= |args| || Dashed(args[index + 1]) {
          errors := errors + 1;
          return;
        }
        assert here[2..] == args[index + 2..];
        index := index + 2;
      } else if Dashed(arg) {
        errors := errors + 1;
        index := index + 1;
      } else {
        subcommand := [arg];
        index := index + 1;
        return;
      }
    }
    assert args[index..] == [];
  }

  /** The second loop: what follows the subcommand. */
  method CheckWords(sub: Arg, args: seq<Arg>, start: nat) returns (errors: nat)
    requires start <= |args|
    ensures errors == TailErrors(sub, args[start..])
  {
    errors := 0;
    var index := start;
    while index < |args|
      invariant start <= index
      invariant TailErrors(sub, args[start..])
                == errors + if index <= |args| then TailErrors(sub, args[index..]) else 0
    {
      var arg := args[index];
      ghost var here := args[index..];
      assert here[0] == arg && here[1..] == args[index + 1..];
      if !Dashed(arg) || arg in SafeFlags(sub) {
        index := index + 1;
      } else if arg in SafeValueFlags(sub) {
        if index + 1 >= |args| || Dashed(args[index + 1]) {
          errors := errors + 1;
        }
        assert index + 1 < |args| ==> here[2..] == args[index + 2..];
        index := index + 2;
      } else if Joined(arg, SafeValueFlags(sub)) {
        index := index + 1;
      } else {
        errors := errors + 1;
        index := index + 1;
      }
    }
  }

  method ValidateCommand(args: seq<Arg>) returns (valid: bool, errors: nat)
    ensures errors == CommandErrors(args) && (valid <==> Admitted(args))
  {
    var subcommand, index;
    errors, subcommand, index := ScanGlobalFlags(args);
    if subcommand == [] || subcommand[0] !in ALLOWED_COMMANDS {
      errors := errors + 1;
      return false, errors;
    }
    var more := CheckWords(subcommand[0], args, index);
    errors := errors + more;
    valid := errors == 0;
  }

  method Subcommand(args: seq<Arg>) returns (sub: seq<Arg>)
    ensures sub == SubcommandOf(args)
  {
    var skipNext := false;
    for i := 0 to |args|
      invariant SubcommandOf(args) ==
                if skipNext then (if i == |args| then [] else SubcommandOf(args[i + 1..]))
                else SubcommandOf(args[i..])
    {
      ghost var here := args[i..];
      assert here[0] == args[i] && here[1..] == args[i + 1..];
      assert i + 1 < |args| ==> here[2..] == args[i + 2..];
      if skipNext {
        skipNext := false;
      } else if args[i] in VALUE_FLAGS {
        skipNext := true;
      } else if !Dashed(args[i]) {
        return [args[i]];
      }
    }
    sub := [];
  }

  /** What is left of the list from `i` on. */
  function StrippedFrom(args: seq<Arg>, i: nat): seq<Arg> {
    if i < |args| then WithoutFileFlags(args[i..]) else []
  }

  lemma StripNext(args: seq<Arg>, i: nat)
    requires i < |args|
    ensures args[i] in FILE_FLAGS ==> StrippedFrom(args, i) == StrippedFrom(args, i + 2)
    ensures args[i] !in FILE_FLAGS ==> StrippedFrom(args, i) == [args[i]] + StrippedFrom(args, i + 1)
  {
    var here := args[i..];
    assert here[0] == args[i];
    var skipped := if args[i] in FILE_FLAGS then 2 else 1;
    var none: seq<Arg> := [];
    assert WithoutFileFlags(none) == [];
    if i + skipped < |args| {
      assert here[skipped..] == args[i + skipped..];
    } else if skipped <= |here| {
      assert here[skipped..] == none;
    }
  }

  lemma StripStart(args: seq<Arg>)
    ensures StrippedFrom(args, 0) == WithoutFileFlags(args)
  {
    assert args[0..] == args;
  }

  method StripFileFlags(args: seq<Arg>) returns (result: seq<Arg>)
    ensures result == WithoutFileFlags(args)
  {
    result := [];
    var index := 0;
    StripStart(args);
    while index < |args|
      invariant 0 <= index
      invariant WithoutFileFlags(args) == result + StrippedFrom(args, index)
    {
      StripNext(args, index);
      if args[index] in FILE_FLAGS {
        index := index + 2;
      } else {
        assert result + ([args[index]] + StrippedFrom(args, index + 1)) ==
               (result + [args[index]]) + StrippedFrom(args, index + 1);
        result := result + [args[index]];
        index := index + 1;
      }
    }
  }

  method GlobalFileSelection(args: seq<Arg>) returns (selected: bool)
    ensures selected == HasFileSelection(args)
  {
    var index := 0;
    while index < |args|
      invariant 0 <= index
      invariant HasFileSelection(args) == (index <= |args| && HasFileSelection(args[index..]))
    {
      var arg := args[index];
      ghost var here := args[index..];
      assert here[0] == arg && here[1..] == args[index + 1..];
      assert index + 1 < |args| ==> here[2..] == args[index + 2..];
      if arg in FILE_FLAGS {
        return true;
      }
      if arg in VALUE_FLAGS {
        index := index + 2;
      } else if Dashed(arg) {
        index := index + 1;
      } else {
        return false;
      }
    }
    return false;
  }

  /** The loop of `_prepare_invocation` that cuts file flags out of the list it
      is walking over; it raises if a file flag has no path. */
  method SplitFileArgs(args: seq<Arg>) returns (ok: bool, fileArgs: seq<Arg>, commandArgs: seq<Arg>)
    ensures ok ==> fileArgs == FileFlagArgs(args) && commandArgs == WithoutFileFlags(args)
    ensures ok <==> FlagsComplete(args)
  {
    fileArgs, commandArgs := [], args;
    var i := 0;
    while i < |commandArgs|
      invariant 0 <= i <= |commandArgs|
      invariant FileFlagArgs(args) == fileArgs + FileFlagArgs(commandArgs[i..])
      invariant WithoutFileFlags(args) == commandArgs[..i] + WithoutFileFlags(commandArgs[i..])
      invariant FlagsComplete(args) == FlagsComplete(commandArgs[i..])
      decreases |commandArgs| - i
    {
      ghost var here := commandArgs[i..];
      assert here[0] == commandArgs[i] && here[1..] == commandArgs[i + 1..];
      if commandArgs[i] in FILE_FLAGS {
        if i + 1 >= |commandArgs| {
          return false, fileArgs, commandArgs;
        }
        assert here[2..] == commandArgs[i + 2..];
        fileArgs := fileArgs + commandArgs[i..i + 2];
        assert (commandArgs[..i] + commandArgs[i + 2..])[..i] == commandArgs[..i];
        assert (commandArgs[..i] + commandArgs[i + 2..])[i..] == commandArgs[i + 2..];
        commandArgs := commandArgs[..i] + commandArgs[i + 2..];
      } else {
        i := i + 1;
      }
    }
    ok := true;
  }
}
