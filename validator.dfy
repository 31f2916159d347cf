/** main: validates the toasts, then the rules, then every ticket file in
    sorted order with one shared ticket-id set; collects every error in
    order, records PASS or FAIL per file and exits with 0 exactly when no
    error was found. */
module Validator {
  import opened Content
  import opened Toasts
  import opened Rules
  import opened Tickets

  /** What `load_json` gave for one file: the parsed document, a missing
      file, or text that is not JSON. */
  datatype Loaded = Parsed(doc: Value) | Missing | Invalid

  /** One file matched by `shift*.json`: its name, its full path and what
      loading it gave. */
  datatype TicketFile = TicketFile(name: string, path: string, load: Loaded)

  datatype Status = Pass | Fail

  /** What main produces: `all_errors` in order, `file_results` and the
      exit code. */
  datatype Report = Report(errors: seq<Error>, results: map<string, Status>, exitCode: int)

  const ToastsName: string := "toasts.json"
  const RulesName: string := "rules.json"

  predicate IsNoTicketFiles(e: Error) { e.NoTicketFiles? }

  /** A ticket file that parsed can be walked without raising. */
  predicate FileOk(f: TicketFile)
  {
    f.load.Parsed? ==> TicketsDocOk(f.load.doc)
  }

  /** The ticket files main can process: the shape of a parsed one is part
      of its type. */
  type ShapedFile = f: TicketFile | FileOk(f) witness TicketFile("", "", Missing)

  /** Every parsed document has the shape the validators walk without
      raising. */
  predicate InputsOk(toasts: Loaded, rules: Loaded)
  {
    (toasts.Parsed? ==> IsRecordList(toasts.doc, "toasts"))
    && (rules.Parsed? ==> RulesDocOk(rules.doc))
  }

  predicate DistinctNames(files: seq<ShapedFile>)
  {
    forall i, j :: 0 <= i < j < |files| ==> files[i].name != files[j].name
  }

  /** The ticket files as the sorted glob of the tickets directory yields them: names
      that differ from each other and from the toasts and rules files. */
  predicate NamesOk(files: seq<ShapedFile>)
  {
    DistinctNames(files)
    && forall i :: 0 <= i < |files| ==> files[i].name != ToastsName && files[i].name != RulesName
  }

  /** The error a failed load appends; none for a parsed file. */
  function LoadErrors(load: Loaded, path: string): seq<Error>
  {
    match load
    case Parsed(_) => []
    case Missing => [FileMissing(path)]
    case Invalid => [InvalidJson(path)]
  }

  /** PASS when no error was found, FAIL otherwise; a failed load has its one error. */
  function StatusOf(errs: seq<Error>): Status
  {
    if errs == [] then Pass else Fail
  }

  function ToastEntries(toasts: Loaded): seq<Record>
    requires toasts.Parsed? ==> IsRecordList(toasts.doc, "toasts")
  {
    if toasts.Parsed? then Entries(toasts.doc, "toasts") else []
  }

  /** The errors of the toasts step. */
  function ToastPhaseErrors(toasts: Loaded, path: string): seq<Error>
    requires toasts.Parsed? ==> IsRecordList(toasts.doc, "toasts")
  {
    if toasts.Parsed? then ToastErrors(ToastEntries(toasts)) else LoadErrors(toasts, path)
  }

  /** `toast_ids`: the ids of the loaded toasts, empty when loading failed. */
  function LoadedToastIds(toasts: Loaded): set<Value>
    requires toasts.Parsed? ==> IsRecordList(toasts.doc, "toasts")
  {
    IdsOf(ToastEntries(toasts))
  }

  function RuleEntries(rules: Loaded): seq<Record>
    requires rules.Parsed? ==> RulesDocOk(rules.doc)
  {
    if rules.Parsed? then Entries(rules.doc, "rules") else []
  }

  /** The errors of the rules step. */
  function RulePhaseErrors(rules: Loaded, path: string): seq<Error>
    requires rules.Parsed? ==> RulesDocOk(rules.doc)
  {
    if rules.Parsed? then RuleErrors(RuleEntries(rules)) else LoadErrors(rules, path)
  }

  /** The tickets of one file; none when it did not load. */
  function FileTickets(f: ShapedFile): seq<Record>
  {
    if f.load.Parsed? then Entries(f.load.doc, "tickets") else []
  }

  /** The tickets of all files, in the order they are checked. */
  function AllTickets(files: seq<ShapedFile>): seq<Record>
    decreases |files|
  {
    if files == [] then []
    else
      var n := |files| - 1;
      AllTickets(files[..n]) + FileTickets(files[n])
  }

  /** The errors for one ticket file, given the ticket ids of the files
      before it. */
  function TicketFileErrors(f: ShapedFile, toastIds: set<Value>, seen: set<Value>): seq<Error>
  {
    if f.load.Parsed? then TicketErrors(FileTickets(f), toastIds, f.name, seen) else LoadErrors(f.load, f.path)
  }

  /** The errors of each ticket file, in order: file `i` is checked
      against the ticket ids of the files before it. */
  function FileErrorLists(files: seq<ShapedFile>, toastIds: set<Value>): (lists: seq<seq<Error>>)
    ensures |lists| == |files|
    decreases |files|
  {
    if files == [] then []
    else
      var n := |files| - 1;
      FileErrorLists(files[..n], toastIds) + [TicketFileErrors(files[n], toastIds, IdsOf(AllTickets(files[..n])))]
  }

  /** The lists of errors one after the other. */
  function Flatten(lists: seq<seq<Error>>): seq<Error>
    decreases |lists|
  {
    if lists == [] then []
    else
      var n := |lists| - 1;
      Flatten(lists[..n]) + lists[n]
  }

  function Names(files: seq<ShapedFile>): seq<string>
  {
    seq(|files|, i requires 0 <= i < |files| => files[i].name)
  }

  /** `file_results` after recording, in order, the status of each list of
      errors under its file name, starting from `base`. */
  function Assign(names: seq<string>, lists: seq<seq<Error>>, base: map<string, Status>): map<string, Status>
    requires |names| == |lists|
    decreases |names|
  {
    if names == [] then base
    else
      var n := |names| - 1;
      Assign(names[..n], lists[..n], base)[names[n] := StatusOf(lists[n])]
  }

  /** The errors of the ticket step, in order. */
  function TicketPhaseErrors(files: seq<ShapedFile>, toastIds: set<Value>): seq<Error>
  {
    Flatten(FileErrorLists(files, toastIds))
  }

  /** `file_results` after the ticket step, starting from `base`. */
  function TicketResults(files: seq<ShapedFile>, toastIds: set<Value>, base: map<string, Status>): map<string, Status>
  {
    Assign(Names(files), FileErrorLists(files, toastIds), base)
  }

  /** `[FILE] No ticket files found` when the glob matched nothing. */
  function NoFilesErrors(files: seq<ShapedFile>): seq<Error>
  {
    if files == [] then [NoTicketFiles] else []
  }

  /** What main reports from the errors of the toasts step, of the rules
      step and of each ticket file: all errors in that order, the
      `file_results` map, and the exit code. */
  function Collect(toastErrors: seq<Error>, ruleErrors: seq<Error>, files: seq<ShapedFile>, lists: seq<seq<Error>>): Report
    requires |lists| == |files|
  {
    var errors := toastErrors + ruleErrors + NoFilesErrors(files) + Flatten(lists);
    var results := Assign(Names(files), lists, map[ToastsName := StatusOf(toastErrors)][RulesName := StatusOf(ruleErrors)]);
    Report(errors, results, if errors == [] then 0 else 1)
  }

  /** The whole run of main. */
  function Run(toasts: Loaded, toastsPath: string, rules: Loaded, rulesPath: string, files: seq<ShapedFile>): Report
    requires InputsOk(toasts, rules)
  {
    Collect(ToastPhaseErrors(toasts, toastsPath), RulePhaseErrors(rules, rulesPath),
            files, FileErrorLists(files, LoadedToastIds(toasts)))
  }

  lemma FlattenSnoc(lists: seq<seq<Error>>, last: seq<Error>)
    ensures Flatten(lists + [last]) == Flatten(lists) + last
  {
    assert (lists + [last])[..|lists|] == lists;
  }

  lemma AssignSnoc(names: seq<string>, lists: seq<seq<Error>>, base: map<string, Status>, name: string, last: seq<Error>)
    requires |names| == |lists|
    ensures Assign(names + [name], lists + [last], base) == Assign(names, lists, base)[name := StatusOf(last)]
  {
    assert (names + [name])[..|names|] == names;
    assert (lists + [last])[..|lists|] == lists;
  }

  lemma FileErrorListsSnoc(files: seq<ShapedFile>, toastIds: set<Value>)
    requires files != []
    ensures FileErrorLists(files, toastIds)
         == FileErrorLists(files[..|files| - 1], toastIds)
            + [TicketFileErrors(files[|files| - 1], toastIds, IdsOf(AllTickets(files[..|files| - 1])))]
  {
  }

  lemma NamesSnoc(files: seq<ShapedFile>)
    requires files != []
    ensures Names(files) == Names(files[..|files| - 1]) + [files[|files| - 1].name]
  {
  }

  /** One more ticket file: its errors follow, its status is recorded under
      its name, and its ticket ids join the shared set. */
  lemma TicketPhaseStep(files: seq<ShapedFile>, toastIds: set<Value>, base: map<string, Status>, i: nat)
    requires i < |files|
    ensures TicketPhaseErrors(files[..i + 1], toastIds)
         == TicketPhaseErrors(files[..i], toastIds) + TicketFileErrors(files[i], toastIds, IdsOf(AllTickets(files[..i])))
    ensures TicketResults(files[..i + 1], toastIds, base)
         == TicketResults(files[..i], toastIds, base)[files[i].name := StatusOf(TicketFileErrors(files[i], toastIds, IdsOf(AllTickets(files[..i]))))]
    ensures IdsOf(AllTickets(files[..i + 1])) == IdsOf(AllTickets(files[..i])) + IdsOf(FileTickets(files[i]))
  {
    var prior := files[..i];
    var errs := TicketFileErrors(files[i], toastIds, IdsOf(AllTickets(prior)));
    assert files[..i + 1][..i] == prior;
    FileErrorListsSnoc(files[..i + 1], toastIds);
    NamesSnoc(files[..i + 1]);
    FlattenSnoc(FileErrorLists(prior, toastIds), errs);
    AssignSnoc(Names(prior), FileErrorLists(prior, toastIds), base, files[i].name, errs);
    IdsOfAppend(AllTickets(prior), FileTickets(files[i]));
  }

  /** The toasts step of main. */
  method LoadToasts(toasts: Loaded, toastsPath: string) returns (errors: seq<Error>, toastIds: set<Value>, status: Status)
    requires toasts.Parsed? ==> IsRecordList(toasts.doc, "toasts")
    ensures errors == ToastPhaseErrors(toasts, toastsPath)
    ensures toastIds == LoadedToastIds(toasts)
    ensures status == StatusOf(errors)
  {
    match toasts {
      case Parsed(doc) =>
        errors, toastIds := ValidateToasts(doc);
        status := if errors == [] then Pass else Fail;
      case Missing =>
        errors, toastIds, status := [FileMissing(toastsPath)], {}, Fail;
      case Invalid =>
        errors, toastIds, status := [InvalidJson(toastsPath)], {}, Fail;
    }
  }

  /** The rules step of main. */
  method LoadRules(rules: Loaded, rulesPath: string) returns (errors: seq<Error>, status: Status)
    requires rules.Parsed? ==> RulesDocOk(rules.doc)
    ensures errors == RulePhaseErrors(rules, rulesPath)
    ensures status == StatusOf(errors)
  {
    match rules {
      case Parsed(doc) =>
        errors := ValidateRules(doc);
        status := if errors == [] then Pass else Fail;
      case Missing =>
        errors, status := [FileMissing(rulesPath)], Fail;
      case Invalid =>
        errors, status := [InvalidJson(rulesPath)], Fail;
    }
  }

  /** One iteration of the ticket-file loop of main: validates a parsed
      file against the shared id set, or reports its load failure. */
  method CheckTicketFile(ticketFile: ShapedFile, toastIds: set<Value>, globalTicketIds: TicketIdSet)
    returns (errs: seq<Error>, status: Status)
    modifies globalTicketIds
    ensures errs == TicketFileErrors(ticketFile, toastIds, old(globalTicketIds.ids))
    ensures status == StatusOf(errs)
    ensures globalTicketIds.ids == old(globalTicketIds.ids) + IdsOf(FileTickets(ticketFile))
  {
    match ticketFile.load {
      case Parsed(doc) =>
        errs := ValidateTickets(doc, toastIds, ticketFile.name, globalTicketIds);
        status := if errs == [] then Pass else Fail;
      case Missing =>
        errs, status := [FileMissing(ticketFile.path)], Fail;
      case Invalid =>
        errs, status := [InvalidJson(ticketFile.path)], Fail;
    }
  }

  /** The ticket-file loop of main, from the results `base` of the toasts
      and rules steps and a fresh shared id set. */
  method CheckTicketFiles(files: seq<ShapedFile>, toastIds: set<Value>, base: map<string, Status>)
    returns (ticketErrors: seq<Error>, fileResults: map<string, Status>)
    ensures ticketErrors == TicketPhaseErrors(files, toastIds)
    ensures fileResults == TicketResults(files, toastIds, base)
  {
    var globalTicketIds := new TicketIdSet();
    ticketErrors, fileResults := [], base;
    for i := 0 to |files|
      invariant ticketErrors == TicketPhaseErrors(files[..i], toastIds)
      invariant fileResults == TicketResults(files[..i], toastIds, base)
      invariant globalTicketIds.ids == IdsOf(AllTickets(files[..i]))
    {
      TicketPhaseStep(files, toastIds, base, i);
      var errs, status := CheckTicketFile(files[i], toastIds, globalTicketIds);
      ticketErrors := ticketErrors + errs;
      fileResults := fileResults[files[i].name := status];
    }
    assert files[..|files|] == files;
  }

  /** main, with the loaded files as inputs: computes exactly `Run`. */
  method Validate(toasts: Loaded, toastsPath: string, rules: Loaded, rulesPath: string, files: seq<ShapedFile>)
    returns (report: Report)
    requires InputsOk(toasts, rules)
    ensures report == Run(toasts, toastsPath, rules, rulesPath, files)
  {
    var toastErrors, toastIds, toastStatus := LoadToasts(toasts, toastsPath);
    var allErrors := toastErrors;
    var fileResults := map[ToastsName := toastStatus];

    var ruleErrors, ruleStatus := LoadRules(rules, rulesPath);
    allErrors := allErrors + ruleErrors;
    fileResults := fileResults[RulesName := ruleStatus];

    if files == [] {
      allErrors := allErrors + [NoTicketFiles];
    } else {
      assert allErrors == allErrors + NoFilesErrors(files);
    }
    var ticketErrors;
    ticketErrors, fileResults := CheckTicketFiles(files, toastIds, fileResults);
    allErrors := allErrors + ticketErrors;

    report := Report(allErrors, fileResults, if allErrors == [] then 0 else 1);
  }

  /** The list recorded for file `files[i]` is its errors against the
      ticket ids of the files before it. */
  lemma {:induction false} FileErrorListsAt(files: seq<ShapedFile>, toastIds: set<Value>, i: nat)
    requires i < |files|
    ensures FileErrorLists(files, toastIds)[i] == TicketFileErrors(files[i], toastIds, IdsOf(AllTickets(files[..i])))
    decreases |files|
  {
    var n := |files| - 1;
    if i < n {
      var prior := files[..n];
      assert prior[i] == files[i];
      assert prior[..i] == files[..i];
      FileErrorListsAt(prior, toastIds, i);
    } else {
      assert i == n && files[..i] == files[..n];
    }
  }

  /** The flattened errors are empty exactly when every list is. */
  lemma {:induction false} FlattenEmpty(lists: seq<seq<Error>>)
    ensures Flatten(lists) == [] <==> forall i :: 0 <= i < |lists| ==> lists[i] == []
    decreases |lists|
  {
    if lists != [] {
      var n := |lists| - 1;
      var a, b := Flatten(lists[..n]), lists[n];
      FlattenEmpty(lists[..n]);
      assert Flatten(lists) == a + b;
      assert |a + b| == |a| + |b|;
      assert forall i :: 0 <= i < n ==> lists[..n][i] == lists[i];
    }
  }

  /** An error of one list is among the flattened errors, and every
      flattened error comes from one of the lists. */
  lemma {:induction false} FlattenMembers(lists: seq<seq<Error>>, e: Error)
    ensures e in Flatten(lists) <==> exists i :: 0 <= i < |lists| && e in lists[i]
    decreases |lists|
  {
    if lists != [] {
      var n := |lists| - 1;
      FlattenMembers(lists[..n], e);
      if exists i :: 0 <= i < |lists| && e in lists[i] {
        var i :| 0 <= i < |lists| && e in lists[i];
        if i < n {
          assert lists[..n][i] == lists[i];
        }
      }
      if e in Flatten(lists[..n]) {
        var i :| 0 <= i < n && e in lists[..n][i];
        assert lists[..n][i] == lists[i];
      }
    }
  }

  /** The status recorded under `names[i]` is that of `lists[i]`, when the
      names are distinct. */
  lemma {:induction false} AssignAt(names: seq<string>, lists: seq<seq<Error>>, base: map<string, Status>, i: nat)
    requires |names| == |lists| && i < |names|
    requires forall a, b :: 0 <= a < b < |names| ==> names[a] != names[b]
    ensures names[i] in Assign(names, lists, base) && Assign(names, lists, base)[names[i]] == StatusOf(lists[i])
    decreases |names|
  {
    var n := |names| - 1;
    if i < n {
      assert names[..n][i] == names[i];
      assert lists[..n][i] == lists[i];
      AssignAt(names[..n], lists[..n], base, i);
    }
  }

  /** An entry of `base` under a name not assigned is kept. */
  lemma {:induction false} AssignKeep(names: seq<string>, lists: seq<seq<Error>>, base: map<string, Status>, k: string)
    requires |names| == |lists| && k in base && k !in names
    ensures k in Assign(names, lists, base) && Assign(names, lists, base)[k] == base[k]
    decreases |names|
  {
    if names != [] {
      var n := |names| - 1;
      assert names == names[..n] + [names[n]];
      AssignKeep(names[..n], lists[..n], base, k);
    }
  }

  /** Every file in a results map is PASS. */
  predicate AllPass(m: map<string, Status>)
  {
    forall k :: k in m ==> m[k] == Pass
  }

  /** Every entry of `base` that `names` does not reassign is PASS. */
  predicate KeptPass(base: map<string, Status>, names: seq<string>)
  {
    forall k :: k in base && k !in names ==> base[k] == Pass
  }

  /** No file produced an error. */
  predicate AllEmpty(lists: seq<seq<Error>>)
  {
    forall i :: 0 <= i < |lists| ==> lists[i] == []
  }

  /** Every entry of the assigned map is PASS exactly when every entry of
      `base` not reassigned is PASS and every list is empty. */
  lemma AssignAllPass(names: seq<string>, lists: seq<seq<Error>>, base: map<string, Status>)
    requires |names| == |lists|
    requires forall a, b :: 0 <= a < b < |names| ==> names[a] != names[b]
    ensures AllPass(Assign(names, lists, base)) <==> KeptPass(base, names) && AllEmpty(lists)
  {
    var m := Assign(names, lists, base);
    forall i | 0 <= i < |names| ensures names[i] in m && m[names[i]] == StatusOf(lists[i]) {
      AssignAt(names, lists, base, i);
    }
    forall k | k in base && k !in names ensures k in m && m[k] == base[k] {
      AssignKeep(names, lists, base, k);
    }
    forall k | k in m ensures k in base || k in names {
      AssignKeys(names, lists, base, k);
    }
    if AllPass(m) {
      forall i | 0 <= i < |lists| ensures lists[i] == [] {
        assert m[names[i]] == Pass;
      }
      forall k | k in base && k !in names ensures base[k] == Pass {
        assert m[k] == base[k];
      }
    }
    if KeptPass(base, names) && AllEmpty(lists) {
      forall k | k in m ensures m[k] == Pass {
        if k in names {
          var i :| 0 <= i < |names| && names[i] == k;
          assert m[k] == StatusOf(lists[i]);
        } else {
          assert m[k] == base[k];
        }
      }
    }
  }

  /** The assigned map holds the entries of `base` and the names. */
  lemma {:induction false} AssignKeys(names: seq<string>, lists: seq<seq<Error>>, base: map<string, Status>, k: string)
    requires |names| == |lists|
    ensures k in Assign(names, lists, base) <==> k in base || k in names
    decreases |names|
  {
    if names != [] {
      var n := |names| - 1;
      AssignKeys(names[..n], lists[..n], base, k);
      assert names == names[..n] + [names[n]];
    }
  }

  /** One ticket file passes exactly when it loaded, its tickets are clean,
      their ids are distinct and none was seen in an earlier file. */
  lemma TicketFileEmpty(f: ShapedFile, toastIds: set<Value>, seen: set<Value>)
    ensures TicketFileErrors(f, toastIds, seen) == []
        <==> f.load.Parsed? && AllTicketsClean(FileTickets(f), toastIds) && DistinctIds(FileTickets(f)) && seen !! IdsOf(FileTickets(f))
  {
    TicketErrorsEmpty(FileTickets(f), toastIds, f.name, seen);
  }

  /** Every ticket file loaded and all its tickets are clean. */
  predicate AllFilesClean(files: seq<ShapedFile>, toastIds: set<Value>)
  {
    forall i :: 0 <= i < |files| ==> files[i].load.Parsed? && AllTicketsClean(FileTickets(files[i]), toastIds)
  }

  lemma AllFilesCleanSnoc(files: seq<ShapedFile>, toastIds: set<Value>)
    requires files != []
    ensures AllFilesClean(files, toastIds)
        <==> AllFilesClean(files[..|files| - 1], toastIds)
             && files[|files| - 1].load.Parsed? && AllTicketsClean(FileTickets(files[|files| - 1]), toastIds)
  {
    assert forall i :: 0 <= i < |files| - 1 ==> files[..|files| - 1][i] == files[i];
  }

  /** The ticket step yields no error exactly when every file loaded with
      clean tickets and ticket ids are distinct across all files. */
  lemma {:induction false} TicketPhaseClean(files: seq<ShapedFile>, toastIds: set<Value>)
    ensures TicketPhaseErrors(files, toastIds) == [] <==> AllFilesClean(files, toastIds) && DistinctIds(AllTickets(files))
    decreases |files|
  {
    if files != [] {
      var n := |files| - 1;
      var prior := files[..n];
      var b := TicketFileErrors(files[n], toastIds, IdsOf(AllTickets(prior)));
      TicketPhaseClean(prior, toastIds);
      FlattenSnoc(FileErrorLists(prior, toastIds), b);
      TicketFileEmpty(files[n], toastIds, IdsOf(AllTickets(prior)));
      AllFilesCleanSnoc(files, toastIds);
      DistinctIdsAppend(AllTickets(prior), FileTickets(files[n]));
      assert |Flatten(FileErrorLists(prior, toastIds)) + b| == |Flatten(FileErrorLists(prior, toastIds))| + |b|;
    }
  }

  /** Every error of one ticket file names that file or is its load
      failure. */
  lemma TicketFileKinds(f: ShapedFile, toastIds: set<Value>, seen: set<Value>)
    ensures forall e :: e in TicketFileErrors(f, toastIds, seen) ==> OfFile(e, f.name) || e in LoadErrors(f.load, f.path)
  {
    if f.load.Parsed? {
      TicketErrorsKinds(FileTickets(f), toastIds, f.name, seen);
    }
  }

  /** Every error of the ticket step belongs to one ticket file. */
  lemma TicketPhaseKinds(files: seq<ShapedFile>, toastIds: set<Value>, e: Error)
    requires e in TicketPhaseErrors(files, toastIds)
    ensures exists i :: 0 <= i < |files| && (OfFile(e, files[i].name) || e in LoadErrors(files[i].load, files[i].path))
  {
    FlattenMembers(FileErrorLists(files, toastIds), e);
    var i :| 0 <= i < |files| && e in FileErrorLists(files, toastIds)[i];
    FileErrorListsAt(files, toastIds, i);
    TicketFileKinds(files[i], toastIds, IdsOf(AllTickets(files[..i])));
  }

  /** The toasts step never reports "No ticket files found". */
  lemma ToastPhaseWithoutNoFiles(toasts: Loaded, toastsPath: string)
    requires toasts.Parsed? ==> IsRecordList(toasts.doc, "toasts")
    ensures Count(ToastPhaseErrors(toasts, toastsPath), IsNoTicketFiles) == 0
  {
    if toasts.Parsed? {
      ToastErrorsKinds(ToastEntries(toasts));
    }
    CountNone(ToastPhaseErrors(toasts, toastsPath), IsNoTicketFiles);
  }

  /** The rules step never reports "No ticket files found". */
  lemma RulePhaseWithoutNoFiles(rules: Loaded, rulesPath: string)
    requires rules.Parsed? ==> RulesDocOk(rules.doc)
    ensures Count(RulePhaseErrors(rules, rulesPath), IsNoTicketFiles) == 0
  {
    if rules.Parsed? {
      RuleErrorsKinds(RuleEntries(rules));
    }
    CountNone(RulePhaseErrors(rules, rulesPath), IsNoTicketFiles);
  }

  /** The ticket step never reports "No ticket files found". */
  lemma TicketPhaseWithoutNoFiles(files: seq<ShapedFile>, toastIds: set<Value>)
    ensures Count(TicketPhaseErrors(files, toastIds), IsNoTicketFiles) == 0
  {
    forall e | e in TicketPhaseErrors(files, toastIds) ensures !IsNoTicketFiles(e) {
      TicketPhaseKinds(files, toastIds, e);
    }
    CountNone(TicketPhaseErrors(files, toastIds), IsNoTicketFiles);
  }

  /** "No ticket files found" is reported exactly once when the glob
      matched nothing, and never otherwise. */
  lemma NoTicketFilesOnce(toasts: Loaded, toastsPath: string, rules: Loaded, rulesPath: string, files: seq<ShapedFile>)
    requires InputsOk(toasts, rules)
    ensures Count(Run(toasts, toastsPath, rules, rulesPath, files).errors, IsNoTicketFiles) == if files == [] then 1 else 0
  {
    var te := ToastPhaseErrors(toasts, toastsPath);
    var re := RulePhaseErrors(rules, rulesPath);
    var nf := NoFilesErrors(files);
    var tp := TicketPhaseErrors(files, LoadedToastIds(toasts));
    assert Run(toasts, toastsPath, rules, rulesPath, files).errors == te + re + nf + tp;
    ToastPhaseWithoutNoFiles(toasts, toastsPath);
    RulePhaseWithoutNoFiles(rules, rulesPath);
    TicketPhaseWithoutNoFiles(files, LoadedToastIds(toasts));
    CountOptional(files == [], NoTicketFiles, IsNoTicketFiles);
    CountAppend(te, re, IsNoTicketFiles);
    CountAppend(te + re, nf, IsNoTicketFiles);
    CountAppend(te + re + nf, tp, IsNoTicketFiles);
  }

  lemma NamesFacts(files: seq<ShapedFile>)
    requires NamesOk(files)
    ensures |Names(files)| == |files|
    ensures forall i :: 0 <= i < |files| ==> Names(files)[i] == files[i].name
    ensures forall a, b :: 0 <= a < b < |files| ==> Names(files)[a] != Names(files)[b]
    ensures ToastsName !in Names(files) && RulesName !in Names(files)
  {
  }

  /** The shape of main's verdict, whatever the errors of each step: exit
      code 0 or 1, 0 exactly when no error was collected, and equivalently
      when a ticket file was found and every entry of `file_results` is
      PASS. */
  lemma VerdictAllPass(te: seq<Error>, re: seq<Error>, files: seq<ShapedFile>, lists: seq<seq<Error>>)
    requires NamesOk(files) && |lists| == |files|
    ensures var r := Collect(te, re, files, lists);
      (r.exitCode == 0 || r.exitCode == 1)
      && (r.exitCode == 0 <==> r.errors == [])
      && (r.exitCode == 0 <==> files != [] && forall k :: k in r.results ==> r.results[k] == Pass)
  {
    var names := Names(files);
    var base := map[ToastsName := StatusOf(te)][RulesName := StatusOf(re)];
    var nf := NoFilesErrors(files);
    assert |te + re + nf + Flatten(lists)| == |te| + |re| + |nf| + |Flatten(lists)|;
    var r := Collect(te, re, files, lists);
    assert r.errors == te + re + nf + Flatten(lists);
    assert r.results == Assign(names, lists, base);
    NamesFacts(files);
    FlattenEmpty(lists);
    AssignAllPass(names, lists, base);
    assert AllPass(Assign(names, lists, base)) <==> KeptPass(base, names) && AllEmpty(lists);
    assert ToastsName != RulesName;
    assert KeptPass(base, names) <==> te == [] && re == [] by {
      assert forall k :: k in base ==> k == ToastsName || k == RulesName;
      assert ToastsName in base && base[ToastsName] == StatusOf(te);
      assert RulesName in base && base[RulesName] == StatusOf(re);
    }
    assert r.errors == [] <==> te == [] && re == [] && files != [] && Flatten(lists) == [];
    var m := Assign(names, lists, base);
    assert (forall k :: k in r.results ==> r.results[k] == Pass) <==> (forall k :: k in m ==> m[k] == Pass);
    assert AllPass(m) <==> te == [] && re == [] && AllEmpty(lists);
  }

  /** main exits with 0 exactly when no error was collected, and with 1
      otherwise; equivalently, when at least one ticket file was found and
      every file in `file_results` is PASS. */
  lemma ExitCodeAllPass(toasts: Loaded, toastsPath: string, rules: Loaded, rulesPath: string, files: seq<ShapedFile>)
    requires InputsOk(toasts, rules) && NamesOk(files)
    ensures var r := Run(toasts, toastsPath, rules, rulesPath, files);
      (r.exitCode == 0 || r.exitCode == 1)
      && (r.exitCode == 0 <==> r.errors == [])
      && (r.exitCode == 0 <==> files != [] && forall k :: k in r.results ==> r.results[k] == Pass)
  {
    VerdictAllPass(ToastPhaseErrors(toasts, toastsPath), RulePhaseErrors(rules, rulesPath),
                   files, FileErrorLists(files, LoadedToastIds(toasts)));
  }

  /** Where each step's errors end up in main's report: toasts.json and
      rules.json get their step's status, ticket file `files[i]` the status
      of its own errors, and every error of a ticket file is in the
      collected errors. */
  lemma CollectEntries(te: seq<Error>, re: seq<Error>, files: seq<ShapedFile>, lists: seq<seq<Error>>)
    requires NamesOk(files) && |lists| == |files|
    ensures var r := Collect(te, re, files, lists);
      ToastsName in r.results && r.results[ToastsName] == StatusOf(te)
      && RulesName in r.results && r.results[RulesName] == StatusOf(re)
      && (forall i :: 0 <= i < |files| ==> files[i].name in r.results && r.results[files[i].name] == StatusOf(lists[i]))
      && (forall i, e :: 0 <= i < |lists| && e in lists[i] ==> e in r.errors)
  {
    var r := Collect(te, re, files, lists);
    var names := Names(files);
    var base := map[ToastsName := StatusOf(te)][RulesName := StatusOf(re)];
    assert r.results == Assign(names, lists, base);
    assert r.errors == (te + re + NoFilesErrors(files)) + Flatten(lists);
    NamesFacts(files);
    AssignKeep(names, lists, base, ToastsName);
    AssignKeep(names, lists, base, RulesName);
    forall i | 0 <= i < |files| ensures files[i].name in r.results && r.results[files[i].name] == StatusOf(lists[i]) {
      AssignAt(names, lists, base, i);
    }
    forall i, e | 0 <= i < |lists| && e in lists[i] ensures e in r.errors {
      FlattenMembers(lists, e);
    }
  }

  /** The status of toasts.json: PASS exactly when it loaded, every toast
      has its keys and the toast ids are distinct. */
  lemma ToastsResult(toasts: Loaded, toastsPath: string, rules: Loaded, rulesPath: string, files: seq<ShapedFile>)
    requires InputsOk(toasts, rules) && NamesOk(files)
    ensures var r := Run(toasts, toastsPath, rules, rulesPath, files);
      ToastsName in r.results
      && (r.results[ToastsName] == Pass
          <==> toasts.Parsed? && AllHaveKeys(ToastEntries(toasts), ToastKeys) && DistinctIds(ToastEntries(toasts)))
  {
    CollectEntries(ToastPhaseErrors(toasts, toastsPath), RulePhaseErrors(rules, rulesPath),
                   files, FileErrorLists(files, LoadedToastIds(toasts)));
    ToastErrorsEmpty(ToastEntries(toasts));
  }

  /** The status of rules.json: PASS exactly when it loaded, every rule has
      its keys and a text within the limit, and the rule ids are distinct. */
  lemma RulesResult(toasts: Loaded, toastsPath: string, rules: Loaded, rulesPath: string, files: seq<ShapedFile>)
    requires InputsOk(toasts, rules) && NamesOk(files)
    ensures var r := Run(toasts, toastsPath, rules, rulesPath, files);
      RulesName in r.results
      && (r.results[RulesName] == Pass
          <==> rules.Parsed? && AllRulesClean(RuleEntries(rules)) && DistinctIds(RuleEntries(rules)))
  {
    CollectEntries(ToastPhaseErrors(toasts, toastsPath), RulePhaseErrors(rules, rulesPath),
                   files, FileErrorLists(files, LoadedToastIds(toasts)));
    RuleErrorsEmpty(RuleEntries(rules));
  }

  /** The status of ticket file `files[i]`: PASS exactly when it loaded, its
      tickets are clean against the loaded toasts, and its ticket ids are
      distinct and new to the files before it. */
  lemma TicketFileResult(toasts: Loaded, toastsPath: string, rules: Loaded, rulesPath: string, files: seq<ShapedFile>, i: nat)
    requires InputsOk(toasts, rules) && NamesOk(files) && i < |files|
    ensures var r := Run(toasts, toastsPath, rules, rulesPath, files);
      files[i].name in r.results
      && (r.results[files[i].name] == Pass
          <==> files[i].load.Parsed? && AllTicketsClean(FileTickets(files[i]), LoadedToastIds(toasts))
               && DistinctIds(FileTickets(files[i])) && IdsOf(AllTickets(files[..i])) !! IdsOf(FileTickets(files[i])))
  {
    CollectEntries(ToastPhaseErrors(toasts, toastsPath), RulePhaseErrors(rules, rulesPath),
                   files, FileErrorLists(files, LoadedToastIds(toasts)));
    FileErrorListsAt(files, LoadedToastIds(toasts), i);
    TicketFileEmpty(files[i], LoadedToastIds(toasts), IdsOf(AllTickets(files[..i])));
  }

  /** main exits with 0 exactly when all content is clean: toasts and rules
      loaded and clean, at least one ticket file, every ticket file loaded
      with clean tickets, and ticket ids distinct across all files. */
  lemma ExitCodeClean(toasts: Loaded, toastsPath: string, rules: Loaded, rulesPath: string, files: seq<ShapedFile>)
    requires InputsOk(toasts, rules)
    ensures Run(toasts, toastsPath, rules, rulesPath, files).exitCode == 0
        <==> toasts.Parsed? && AllHaveKeys(ToastEntries(toasts), ToastKeys) && DistinctIds(ToastEntries(toasts))
             && rules.Parsed? && AllRulesClean(RuleEntries(rules)) && DistinctIds(RuleEntries(rules))
             && files != [] && AllFilesClean(files, LoadedToastIds(toasts)) && DistinctIds(AllTickets(files))
  {
    var r := Run(toasts, toastsPath, rules, rulesPath, files);
    var te := ToastPhaseErrors(toasts, toastsPath);
    var re := RulePhaseErrors(rules, rulesPath);
    var tp := TicketPhaseErrors(files, LoadedToastIds(toasts));
    assert r.errors == te + re + NoFilesErrors(files) + tp;
    assert |r.errors| == |te| + |re| + |NoFilesErrors(files)| + |tp|;
    ToastErrorsEmpty(ToastEntries(toasts));
    RuleErrorsEmpty(RuleEntries(rules));
    TicketPhaseClean(files, LoadedToastIds(toasts));
  }

  /** When toasts.json fails to load, `toast_ids` is empty: every outcome
      with a non-empty toast_id in a loaded ticket file is reported as an
      unknown toast, toasts.json is FAIL and main exits with 1. */
  lemma ToastLoadFailureCascades(toasts: Loaded, toastsPath: string, rules: Loaded, rulesPath: string, files: seq<ShapedFile>,
                                 i: nat, j: nat, k: nat)
    requires InputsOk(toasts, rules) && NamesOk(files) && !toasts.Parsed?
    requires i < |files| && j < |FileTickets(files[i])|
    requires k < |OutcomesOf(FileTickets(files[i])[j]).keys|
    requires Truthy(ToastIdOf(OutcomeAt(OutcomesOf(FileTickets(files[i])[j]), OutcomesOf(FileTickets(files[i])[j]).keys[k])))
    ensures var r := Run(toasts, toastsPath, rules, rulesPath, files);
      var t := FileTickets(files[i])[j];
      UnknownToast(files[i].name, IdOf(t), ToastIdOf(OutcomeAt(OutcomesOf(t), OutcomesOf(t).keys[k]))) in r.errors
      && ToastsName in r.results && r.results[ToastsName] == Fail && r.exitCode == 1
  {
    var t := FileTickets(files[i])[j];
    var ids := LoadedToastIds(toasts);
    var te := ToastPhaseErrors(toasts, toastsPath);
    assert ids == {} && te != [];
    TicketUnknownToastReported(FileTickets(files[i]), ids, files[i].name, IdsOf(AllTickets(files[..i])), j, k);
    FileErrorListsAt(files, ids, i);
    CollectEntries(te, RulePhaseErrors(rules, rulesPath), files, FileErrorLists(files, ids));
  }

  /** One duplicate-id error per ticket of the file whose id was seen in an
      earlier file or earlier in this one. */
  lemma TicketFileDuplicates(f: ShapedFile, toastIds: set<Value>, seen: set<Value>)
    ensures Count(TicketFileErrors(f, toastIds, seen), IsDuplicate) == DupCount(FileTickets(f), seen)
  {
    if f.load.Parsed? {
      TicketDuplicateCount(FileTickets(f), toastIds, f.name, seen);
    } else {
      CountNone(TicketFileErrors(f, toastIds, seen), IsDuplicate);
    }
  }

  /** Across ticket files, one duplicate-id error per ticket whose id is
      that of an earlier ticket of the same or an earlier file. */
  lemma {:induction false} TicketPhaseDuplicates(files: seq<ShapedFile>, toastIds: set<Value>)
    ensures Count(TicketPhaseErrors(files, toastIds), IsDuplicate) == DupCount(AllTickets(files), {})
    decreases |files|
  {
    if files != [] {
      var n := |files| - 1;
      var prior := files[..n];
      var before := AllTickets(prior);
      var a := TicketPhaseErrors(prior, toastIds);
      var b := TicketFileErrors(files[n], toastIds, IdsOf(before));
      FlattenSnoc(FileErrorLists(prior, toastIds), b);
      TicketPhaseDuplicates(prior, toastIds);
      CountAppend(a, b, IsDuplicate);
      TicketFileDuplicates(files[n], toastIds, IdsOf(before));
      DupCountAppend(before, FileTickets(files[n]), {});
      assert {} + IdsOf(before) == IdsOf(before);
    }
  }

  /** The cross-file duplicate count is the number of tickets beyond the
      number of distinct ticket ids. */
  lemma TicketPhaseDuplicatesCard(files: seq<ShapedFile>, toastIds: set<Value>)
    ensures Count(TicketPhaseErrors(files, toastIds), IsDuplicate) == |AllTickets(files)| - |IdsOf(AllTickets(files))|
  {
    TicketPhaseDuplicates(files, toastIds);
    DupCountCard(AllTickets(files), {});
    assert {} + IdsOf(AllTickets(files)) == IdsOf(AllTickets(files));
  }

  /** Duplicate-id errors: one per toast or rule repeating an id of its own
      file, and one per ticket whose id appeared in any earlier ticket of
      any ticket file, since the ticket-id set is shared across files. */
  lemma DuplicateCount(toasts: Loaded, toastsPath: string, rules: Loaded, rulesPath: string, files: seq<ShapedFile>)
    requires InputsOk(toasts, rules)
    ensures Count(Run(toasts, toastsPath, rules, rulesPath, files).errors, IsDuplicate)
         == DupCount(ToastEntries(toasts), {}) + DupCount(RuleEntries(rules), {}) + DupCount(AllTickets(files), {})
  {
    var te := ToastPhaseErrors(toasts, toastsPath);
    var re := RulePhaseErrors(rules, rulesPath);
    var nf := NoFilesErrors(files);
    var tp := TicketPhaseErrors(files, LoadedToastIds(toasts));
    assert Run(toasts, toastsPath, rules, rulesPath, files).errors == te + re + nf + tp;
    ToastDuplicateCount(ToastEntries(toasts));
    RuleDuplicateCount(RuleEntries(rules));
    TicketPhaseDuplicates(files, LoadedToastIds(toasts));
    CountNone(LoadErrors(toasts, toastsPath), IsDuplicate);
    CountNone(LoadErrors(rules, rulesPath), IsDuplicate);
    CountNone(nf, IsDuplicate);
    CountAppend(te, re, IsDuplicate);
    CountAppend(te + re, nf, IsDuplicate);
    CountAppend(te + re + nf, tp, IsDuplicate);
  }
}
