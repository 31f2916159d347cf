/** validate_tickets: required keys of tickets and of their outcomes, ticket
    id uniqueness against an id set shared by all ticket files, the word
    limits of text and attachment, and outcome references to known toasts. */
module Tickets {
  import opened Words
  import opened Content

  /** The ticket's stamp-to-outcome object, empty when absent. */
  function OutcomesOf(t: Record): (outs: Value)
    ensures outs.Obj?
  {
    if "outcomes" in t && t["outcomes"].Obj? then t["outcomes"] else Obj([], map[])
  }

  /** The outcome recorded for `stamp`. */
  function OutcomeAt(outs: Value, stamp: string): Record
    requires outs.Obj?
  {
    if stamp in outs.fields && outs.fields[stamp].Obj? then outs.fields[stamp].fields else map[]
  }

  /** The outcome's toast reference, the empty string when absent. */
  function ToastIdOf(o: Record): Value
  {
    if "toast_id" in o then o["toast_id"] else Str("")
  }

  /** A truthy (non-empty) reference to a toast that was not loaded. */
  predicate UnknownReference(o: Record, toastIds: set<Value>)
  {
    Truthy(ToastIdOf(o)) && ToastIdOf(o) !in toastIds
  }

  /** A ticket the validator can check without raising: its text and
      attachment, when present, are strings; its outcomes, when present, are
      an object of objects whose non-empty toast_id can be looked up in a set. */
  predicate TicketOk(t: Record)
  {
    StrOrAbsent(t, "text") && StrOrAbsent(t, "attachment")
    && ("outcomes" in t ==>
          OrderedObj(t["outcomes"])
          && forall i :: 0 <= i < |t["outcomes"].keys| ==>
               var o := t["outcomes"].fields[t["outcomes"].keys[i]];
               o.Obj? && (Truthy(ToastIdOf(o.fields)) ==> Hashable(ToastIdOf(o.fields))))
  }

  /** A ticket file the validator can walk without raising. */
  predicate TicketsDocOk(doc: Value)
  {
    IsRecordList(doc, "tickets")
    && forall i :: 0 <= i < |Entries(doc, "tickets")| ==> TicketOk(Entries(doc, "tickets")[i])
  }

  /** The errors for the outcome of one stamp of ticket `id`. */
  function OutcomeRecordErrors(file: string, id: Value, stamp: string, o: Record, toastIds: set<Value>): seq<Error>
  {
    MissingKeys(InOutcome(file, stamp), id, o, OutcomeKeys)
    + (if UnknownReference(o, toastIds) then [UnknownToast(file, id, ToastIdOf(o))] else [])
  }

  /** The errors for the outcomes of the stamps `stamps`, in that order. */
  function OutcomeErrors(file: string, id: Value, outs: Value, stamps: seq<string>, toastIds: set<Value>): seq<Error>
    requires outs.Obj?
    decreases |stamps|
  {
    if stamps == [] then []
    else
      var n := |stamps| - 1;
      OutcomeErrors(file, id, outs, stamps[..n], toastIds)
      + OutcomeRecordErrors(file, id, stamps[n], OutcomeAt(outs, stamps[n]), toastIds)
  }

  /** The errors for one ticket of `file`, given the ticket ids seen so far
      (in this file and in the files before it). */
  function TicketRecordErrors(t: Record, toastIds: set<Value>, file: string, seen: set<Value>): seq<Error>
  {
    var id := IdOf(t);
    MissingKeys(InTickets(file), id, t, TicketKeys)
    + (if id in seen then [DuplicateId(InTickets(file), id)] else [])
    + WordLimitErrors(t, file)
    + OutcomeErrors(file, id, OutcomesOf(t), OutcomesOf(t).keys, toastIds)
  }

  /** The word-limit errors of one ticket: its text, then its attachment. */
  function WordLimitErrors(t: Record, file: string): seq<Error>
  {
    var text := StrField(t, "text");
    var attachment := StrField(t, "attachment");
    (if ValidateWordCount(text) then [] else [TextTooLong(InTickets(file), IdOf(t), text)])
    + (if ValidateWordCount(attachment) then [] else [AttachmentTooLong(file, IdOf(t), attachment)])
  }

  /** All errors for the tickets of `file`, in the order the loop emits
      them, starting from the shared id set `seen`. */
  function TicketErrors(ts: seq<Record>, toastIds: set<Value>, file: string, seen: set<Value>): seq<Error>
    decreases |ts|
  {
    if ts == [] then []
    else
      var n := |ts| - 1;
      TicketErrors(ts[..n], toastIds, file, seen) + TicketRecordErrors(ts[n], toastIds, file, seen + IdsOf(ts[..n]))
  }

  /** The set of ticket ids shared by the calls for successive ticket files
      (`global_ticket_ids`), updated in place. */
  class TicketIdSet {
    var ids: set<Value>

    constructor ()
      ensures ids == {}
    {
      ids := {};
    }

    method Add(id: Value)
      modifies this
      ensures ids == old(ids) + {id}
    {
      ids := ids + {id};
    }
  }

  lemma OutcomeErrorsStep(file: string, id: Value, outs: Value, stamps: seq<string>, toastIds: set<Value>, i: nat)
    requires outs.Obj? && i < |stamps|
    ensures OutcomeErrors(file, id, outs, stamps[..i + 1], toastIds)
         == OutcomeErrors(file, id, outs, stamps[..i], toastIds) + OutcomeRecordErrors(file, id, stamps[i], OutcomeAt(outs, stamps[i]), toastIds)
  {
    assert stamps[..i + 1][..i] == stamps[..i];
  }

  /** The loop over the outcomes of one ticket, in the object's key order. */
  method CheckOutcomes(file: string, id: Value, outs: Value, toastIds: set<Value>) returns (errs: seq<Error>)
    requires outs.Obj?
    ensures errs == OutcomeErrors(file, id, outs, outs.keys, toastIds)
  {
    var stamps := outs.keys;
    errs := [];
    for i := 0 to |stamps|
      invariant errs == OutcomeErrors(file, id, outs, stamps[..i], toastIds)
    {
      OutcomeErrorsStep(file, id, outs, stamps, toastIds, i);
      var stamp := stamps[i];
      var outcome := OutcomeAt(outs, stamp);
      var found := CheckRequiredKeys(InOutcome(file, stamp), id, outcome, OutcomeKeys);
      var toastId := ToastIdOf(outcome);
      if Truthy(toastId) && toastId !in toastIds {
        found := found + [UnknownToast(file, id, toastId)];
      }
      errs := errs + found;
    }
    assert stamps[..|stamps|] == stamps;
  }

  lemma TicketErrorsStep(ts: seq<Record>, toastIds: set<Value>, file: string, seen: set<Value>, i: nat)
    requires i < |ts|
    ensures TicketErrors(ts[..i + 1], toastIds, file, seen)
         == TicketErrors(ts[..i], toastIds, file, seen) + TicketRecordErrors(ts[i], toastIds, file, seen + IdsOf(ts[..i]))
    ensures IdsOf(ts[..i + 1]) == IdsOf(ts[..i]) + {IdOf(ts[i])}
  {
    assert ts[..i + 1][..i] == ts[..i];
  }

  /** The word-limit checks of one ticket: its text, then its attachment. */
  method CheckWordLimits(ticket: Record, filename: string) returns (limits: seq<Error>)
    ensures limits == WordLimitErrors(ticket, filename)
  {
    var tid := IdOf(ticket);
    limits := [];
    var text := StrField(ticket, "text");
    if !ValidateWordCount(text) {
      limits := [TextTooLong(InTickets(filename), tid, text)];
    }
    var attachment := StrField(ticket, "attachment");
    if !ValidateWordCount(attachment) {
      limits := limits + [AttachmentTooLong(filename, tid, attachment)];
    }
  }

  /** The body of the loop of validate_tickets for one ticket, given the
      ticket ids seen before it. */
  method CheckTicket(ticket: Record, toastIds: set<Value>, filename: string, seen: set<Value>)
    returns (found: seq<Error>)
    ensures found == TicketRecordErrors(ticket, toastIds, filename, seen)
  {
    var tid := IdOf(ticket);
    found := CheckRequiredKeys(InTickets(filename), tid, ticket, TicketKeys);
    if tid in seen {
      found := found + [DuplicateId(InTickets(filename), tid)];
    }
    var limits := CheckWordLimits(ticket, filename);
    found := found + limits;
    var outcomeErrors := CheckOutcomes(filename, tid, OutcomesOf(ticket), toastIds);
    found := found + outcomeErrors;
  }

  /** validate_tickets: checks the tickets of one file and adds their ids to
      the shared set; `toastIds` is only read. */
  method ValidateTickets(ticketsData: Value, toastIds: set<Value>, filename: string, globalTicketIds: TicketIdSet)
    returns (errors: seq<Error>)
    requires TicketsDocOk(ticketsData)
    modifies globalTicketIds
    ensures errors == TicketErrors(Entries(ticketsData, "tickets"), toastIds, filename, old(globalTicketIds.ids))
    ensures globalTicketIds.ids == old(globalTicketIds.ids) + IdsOf(Entries(ticketsData, "tickets"))
  {
    var tickets := Entries(ticketsData, "tickets");
    ghost var seen0 := globalTicketIds.ids;
    errors := [];
    for i := 0 to |tickets|
      invariant errors == TicketErrors(tickets[..i], toastIds, filename, seen0)
      invariant globalTicketIds.ids == seen0 + IdsOf(tickets[..i])
    {
      TicketErrorsStep(tickets, toastIds, filename, seen0, i);
      var found := CheckTicket(tickets[i], toastIds, filename, globalTicketIds.ids);
      globalTicketIds.Add(IdOf(tickets[i]));
      errors := errors + found;
    }
    assert tickets[..|tickets|] == tickets;
  }

  /** Outcome errors are missing keys of that outcome and unknown toast
      references, all naming the ticket; a reported toast id is never empty
      and never one of the known toasts. */
  lemma {:induction false} OutcomeErrorsKinds(file: string, id: Value, outs: Value, stamps: seq<string>, toastIds: set<Value>)
    requires outs.Obj?
    ensures forall e :: e in OutcomeErrors(file, id, outs, stamps, toastIds) ==>
      (e.MissingKey? && e.at.InOutcome? && e.at.file == file && e.id == id)
      || (e.UnknownToast? && e.file == file && e.id == id && Truthy(e.toastId) && e.toastId !in toastIds)
    decreases |stamps|
  {
    if stamps != [] {
      var n := |stamps| - 1;
      OutcomeErrorsKinds(file, id, outs, stamps[..n], toastIds);
      MissingKeysKinds(InOutcome(file, stamps[n]), id, OutcomeAt(outs, stamps[n]), OutcomeKeys);
    }
  }

  /** The positions of `stamps` whose outcome refers to an unknown toast. */
  function UnknownStamps(outs: Value, stamps: seq<string>, toastIds: set<Value>): set<int>
    requires outs.Obj?
  {
    set i | 0 <= i < |stamps| && UnknownReference(OutcomeAt(outs, stamps[i]), toastIds)
  }

  lemma UnknownStampsSnoc(outs: Value, stamps: seq<string>, toastIds: set<Value>)
    requires outs.Obj? && stamps != []
    ensures |UnknownStamps(outs, stamps, toastIds)|
         == |UnknownStamps(outs, stamps[..|stamps| - 1], toastIds)|
            + if UnknownReference(OutcomeAt(outs, stamps[|stamps| - 1]), toastIds) then 1 else 0
  {
    var n := |stamps| - 1;
    var before := UnknownStamps(outs, stamps[..n], toastIds);
    var last: set<int> := if UnknownReference(OutcomeAt(outs, stamps[n]), toastIds) then {n} else {};
    forall i | 0 <= i < n ensures i in UnknownStamps(outs, stamps, toastIds) <==> i in before {
      assert stamps[..n][i] == stamps[i];
    }
    assert UnknownStamps(outs, stamps, toastIds) == before + last;
    assert n !in before;
  }

  lemma OutcomeRecordCounts(file: string, id: Value, stamp: string, o: Record, toastIds: set<Value>)
    ensures Count(OutcomeRecordErrors(file, id, stamp, o, toastIds), IsUnknownToast) == if UnknownReference(o, toastIds) then 1 else 0
    ensures Count(OutcomeRecordErrors(file, id, stamp, o, toastIds), IsDuplicate) == 0
  {
    var m := MissingKeys(InOutcome(file, stamp), id, o, OutcomeKeys);
    var u: seq<Error> := if UnknownReference(o, toastIds) then [UnknownToast(file, id, ToastIdOf(o))] else [];
    MissingKeysOnlyMissing(InOutcome(file, stamp), id, o, OutcomeKeys);
    CountAppend(m, u, IsUnknownToast);
    CountAppend(m, u, IsDuplicate);
    CountOptional(UnknownReference(o, toastIds), UnknownToast(file, id, ToastIdOf(o)), IsUnknownToast);
    CountOptional(UnknownReference(o, toastIds), UnknownToast(file, id, ToastIdOf(o)), IsDuplicate);
  }

  /** One "unknown toast_id" error per outcome whose non-empty toast_id is
      not a known toast, and no duplicate-id error. */
  lemma {:induction false} OutcomeUnknownCount(file: string, id: Value, outs: Value, stamps: seq<string>, toastIds: set<Value>)
    requires outs.Obj?
    ensures Count(OutcomeErrors(file, id, outs, stamps, toastIds), IsUnknownToast) == |UnknownStamps(outs, stamps, toastIds)|
    ensures Count(OutcomeErrors(file, id, outs, stamps, toastIds), IsDuplicate) == 0
    decreases |stamps|
  {
    if stamps != [] {
      var n := |stamps| - 1;
      var a := OutcomeErrors(file, id, outs, stamps[..n], toastIds);
      var b := OutcomeRecordErrors(file, id, stamps[n], OutcomeAt(outs, stamps[n]), toastIds);
      OutcomeUnknownCount(file, id, outs, stamps[..n], toastIds);
      OutcomeRecordCounts(file, id, stamps[n], OutcomeAt(outs, stamps[n]), toastIds);
      CountAppend(a, b, IsUnknownToast);
      CountAppend(a, b, IsDuplicate);
      UnknownStampsSnoc(outs, stamps, toastIds);
    }
  }

  /** The outcome of stamp `stamps[j]` with an unknown toast reference gets
      its error. */
  lemma {:induction false} OutcomeUnknownReported(file: string, id: Value, outs: Value, stamps: seq<string>, toastIds: set<Value>, j: nat)
    requires outs.Obj? && j < |stamps| && UnknownReference(OutcomeAt(outs, stamps[j]), toastIds)
    ensures UnknownToast(file, id, ToastIdOf(OutcomeAt(outs, stamps[j]))) in OutcomeErrors(file, id, outs, stamps, toastIds)
    decreases |stamps|
  {
    var n := |stamps| - 1;
    if j < n {
      assert stamps[..n][j] == stamps[j];
      OutcomeUnknownReported(file, id, outs, stamps[..n], toastIds, j);
    }
  }

  /** An outcome with its keys and no unknown toast reference. */
  predicate OutcomeClean(o: Record, toastIds: set<Value>)
  {
    HasKeys(o, OutcomeKeys) && !UnknownReference(o, toastIds)
  }

  predicate AllOutcomesClean(outs: Value, stamps: seq<string>, toastIds: set<Value>)
    requires outs.Obj?
  {
    forall i :: 0 <= i < |stamps| ==> OutcomeClean(OutcomeAt(outs, stamps[i]), toastIds)
  }

  lemma AllOutcomesCleanSnoc(outs: Value, stamps: seq<string>, toastIds: set<Value>)
    requires outs.Obj? && stamps != []
    ensures AllOutcomesClean(outs, stamps, toastIds)
        <==> AllOutcomesClean(outs, stamps[..|stamps| - 1], toastIds) && OutcomeClean(OutcomeAt(outs, stamps[|stamps| - 1]), toastIds)
  {
    assert forall i :: 0 <= i < |stamps| - 1 ==> stamps[..|stamps| - 1][i] == stamps[i];
  }

  /** The outcomes yield no error exactly when every one is clean. */
  lemma {:induction false} OutcomeErrorsEmpty(file: string, id: Value, outs: Value, stamps: seq<string>, toastIds: set<Value>)
    requires outs.Obj?
    ensures OutcomeErrors(file, id, outs, stamps, toastIds) == [] <==> AllOutcomesClean(outs, stamps, toastIds)
    decreases |stamps|
  {
    if stamps != [] {
      var n := |stamps| - 1;
      var a := OutcomeErrors(file, id, outs, stamps[..n], toastIds);
      var b := OutcomeRecordErrors(file, id, stamps[n], OutcomeAt(outs, stamps[n]), toastIds);
      OutcomeErrorsEmpty(file, id, outs, stamps[..n], toastIds);
      MissingKeysEmpty(InOutcome(file, stamps[n]), id, OutcomeAt(outs, stamps[n]), OutcomeKeys);
      AllOutcomesCleanSnoc(outs, stamps, toastIds);
      assert OutcomeErrors(file, id, outs, stamps, toastIds) == a + b;
      assert |a + b| == |a| + |b|;
    }
  }

  /** An error of ticket file `file`: every error it emits names that file. */
  predicate OfFile(e: Error, file: string)
  {
    match e
    case MissingKey(at, _, _) => at == InTickets(file) || (at.InOutcome? && at.file == file)
    case DuplicateId(at, _) => at == InTickets(file)
    case TextTooLong(at, _, _) => at == InTickets(file)
    case AttachmentTooLong(f, _, _) => f == file
    case UnknownToast(f, _, _) => f == file
    case _ => false
  }

  lemma TicketRecordKinds(t: Record, toastIds: set<Value>, file: string, seen: set<Value>)
    ensures forall e :: e in TicketRecordErrors(t, toastIds, file, seen) ==> OfFile(e, file)
  {
    var id := IdOf(t);
    var missing := MissingKeys(InTickets(file), id, t, TicketKeys);
    var dup := if id in seen then [DuplicateId(InTickets(file), id)] else [];
    var limits := WordLimitErrors(t, file);
    var outcomes := OutcomeErrors(file, id, OutcomesOf(t), OutcomesOf(t).keys, toastIds);
    assert TicketRecordErrors(t, toastIds, file, seen) == missing + dup + limits + outcomes;
    MissingKeysKinds(InTickets(file), id, t, TicketKeys);
    OutcomeErrorsKinds(file, id, OutcomesOf(t), OutcomesOf(t).keys, toastIds);
    assert forall e :: e in missing ==> OfFile(e, file);
    WordLimitKinds(t, file);
    assert forall e :: e in outcomes ==> OfFile(e, file);
  }

  /** Every error of a ticket file names that file (and no load failure or
      missing ticket list is reported from here). */
  lemma {:induction false} TicketErrorsKinds(ts: seq<Record>, toastIds: set<Value>, file: string, seen: set<Value>)
    ensures forall e :: e in TicketErrors(ts, toastIds, file, seen) ==> OfFile(e, file)
    decreases |ts|
  {
    if ts != [] {
      var n := |ts| - 1;
      TicketErrorsKinds(ts[..n], toastIds, file, seen);
      TicketRecordKinds(ts[n], toastIds, file, seen + IdsOf(ts[..n]));
    }
  }

  lemma WordLimitKinds(t: Record, file: string)
    ensures forall e :: e in WordLimitErrors(t, file) ==> OfFile(e, file)
  {
  }

  /** A ticket gets "text exceeds 8 words" exactly when its text has more
      than eight words, and "attachment exceeds 8 words" exactly when its
      attachment has. */
  lemma TicketWordLimitIff(t: Record, toastIds: set<Value>, file: string, seen: set<Value>)
    ensures var text := StrField(t, "text");
      TextTooLong(InTickets(file), IdOf(t), text) in TicketRecordErrors(t, toastIds, file, seen) <==> CountWords(text) > MaxWords
    ensures var attachment := StrField(t, "attachment");
      AttachmentTooLong(file, IdOf(t), attachment) in TicketRecordErrors(t, toastIds, file, seen) <==> CountWords(attachment) > MaxWords
  {
    var id := IdOf(t);
    var missing := MissingKeys(InTickets(file), id, t, TicketKeys);
    var dup := if id in seen then [DuplicateId(InTickets(file), id)] else [];
    var limits := WordLimitErrors(t, file);
    var outcomes := OutcomeErrors(file, id, OutcomesOf(t), OutcomesOf(t).keys, toastIds);
    assert TicketRecordErrors(t, toastIds, file, seen) == missing + dup + limits + outcomes;
    MissingKeysKinds(InTickets(file), id, t, TicketKeys);
    OutcomeErrorsKinds(file, id, OutcomesOf(t), OutcomesOf(t).keys, toastIds);
    WordLimitMembers(t, file);
  }

  lemma WordLimitMembers(t: Record, file: string)
    ensures var text := StrField(t, "text");
      TextTooLong(InTickets(file), IdOf(t), text) in WordLimitErrors(t, file) <==> CountWords(text) > MaxWords
    ensures var attachment := StrField(t, "attachment");
      AttachmentTooLong(file, IdOf(t), attachment) in WordLimitErrors(t, file) <==> CountWords(attachment) > MaxWords
  {
  }

  lemma WordLimitCounts(t: Record, file: string)
    ensures Count(WordLimitErrors(t, file), IsDuplicate) == 0
    ensures Count(WordLimitErrors(t, file), IsUnknownToast) == 0
  {
    var text := StrField(t, "text");
    var attachment := StrField(t, "attachment");
    var long := TextTooLong(InTickets(file), IdOf(t), text);
    var longAttachment := AttachmentTooLong(file, IdOf(t), attachment);
    var a := if !ValidateWordCount(text) then [long] else [];
    var b := if !ValidateWordCount(attachment) then [longAttachment] else [];
    assert WordLimitErrors(t, file) == a + b;
    CountOptional(!ValidateWordCount(text), long, IsDuplicate);
    CountOptional(!ValidateWordCount(attachment), longAttachment, IsDuplicate);
    CountOptional(!ValidateWordCount(text), long, IsUnknownToast);
    CountOptional(!ValidateWordCount(attachment), longAttachment, IsUnknownToast);
    CountAppend(a, b, IsDuplicate);
    CountAppend(a, b, IsUnknownToast);
  }

  /** A ticket gets one duplicate-id error iff its id is already in the
      shared set. */
  lemma TicketRecordDuplicates(t: Record, toastIds: set<Value>, file: string, seen: set<Value>)
    ensures Count(TicketRecordErrors(t, toastIds, file, seen), IsDuplicate) == if IdOf(t) in seen then 1 else 0
  {
    var id := IdOf(t);
    var m := MissingKeys(InTickets(file), id, t, TicketKeys);
    var md := m + (if id in seen then [DuplicateId(InTickets(file), id)] else []);
    var w := WordLimitErrors(t, file);
    var o := OutcomeErrors(file, id, OutcomesOf(t), OutcomesOf(t).keys, toastIds);
    MissingKeysOnlyMissing(InTickets(file), id, t, TicketKeys);
    DuplicateCheckCount(m, InTickets(file), id, seen);
    WordLimitCounts(t, file);
    OutcomeUnknownCount(file, id, OutcomesOf(t), OutcomesOf(t).keys, toastIds);
    CountAppend(md, w, IsDuplicate);
    CountAppend(md + w, o, IsDuplicate);
  }

  /** A ticket gets one unknown-toast error per outcome that refers to a
      toast not loaded. */
  lemma TicketRecordUnknownToasts(t: Record, toastIds: set<Value>, file: string, seen: set<Value>)
    ensures Count(TicketRecordErrors(t, toastIds, file, seen), IsUnknownToast)
         == |UnknownStamps(OutcomesOf(t), OutcomesOf(t).keys, toastIds)|
  {
    var id := IdOf(t);
    var m := MissingKeys(InTickets(file), id, t, TicketKeys);
    var d: seq<Error> := if id in seen then [DuplicateId(InTickets(file), id)] else [];
    var w := WordLimitErrors(t, file);
    var o := OutcomeErrors(file, id, OutcomesOf(t), OutcomesOf(t).keys, toastIds);
    MissingKeysOnlyMissing(InTickets(file), id, t, TicketKeys);
    CountOptional(id in seen, DuplicateId(InTickets(file), id), IsUnknownToast);
    WordLimitCounts(t, file);
    OutcomeUnknownCount(file, id, OutcomesOf(t), OutcomesOf(t).keys, toastIds);
    CountAppend(m, d, IsUnknownToast);
    CountAppend(m + d, w, IsUnknownToast);
    CountAppend(m + d + w, o, IsUnknownToast);
  }

  /** One duplicate-id error per ticket whose id was in the shared set when
      the file was started or belongs to an earlier ticket of the file. */
  lemma {:induction false} TicketDuplicateCount(ts: seq<Record>, toastIds: set<Value>, file: string, seen: set<Value>)
    ensures Count(TicketErrors(ts, toastIds, file, seen), IsDuplicate) == DupCount(ts, seen)
    decreases |ts|
  {
    if ts != [] {
      var n := |ts| - 1;
      TicketDuplicateCount(ts[..n], toastIds, file, seen);
      TicketRecordDuplicates(ts[n], toastIds, file, seen + IdsOf(ts[..n]));
      CountAppend(TicketErrors(ts[..n], toastIds, file, seen), TicketRecordErrors(ts[n], toastIds, file, seen + IdsOf(ts[..n])), IsDuplicate);
    }
  }

  /** The duplicate-id error of a ticket is reported iff its id was already
      in the shared set (from an earlier file or an earlier ticket). */
  lemma TicketDuplicateIff(t: Record, toastIds: set<Value>, file: string, seen: set<Value>)
    ensures DuplicateId(InTickets(file), IdOf(t)) in TicketRecordErrors(t, toastIds, file, seen) <==> IdOf(t) in seen
  {
    TicketRecordDuplicates(t, toastIds, file, seen);
    if IdOf(t) !in seen && DuplicateId(InTickets(file), IdOf(t)) in TicketRecordErrors(t, toastIds, file, seen) {
      CountPositive(TicketRecordErrors(t, toastIds, file, seen), DuplicateId(InTickets(file), IdOf(t)), IsDuplicate);
    }
  }

  /** The outcome `stamp` of ticket `ts[i]` referring to an unknown toast is
      reported among the file's errors. */
  lemma {:induction false} TicketUnknownToastReported(ts: seq<Record>, toastIds: set<Value>, file: string, seen: set<Value>, i: nat, j: nat)
    requires i < |ts| && j < |OutcomesOf(ts[i]).keys|
    requires UnknownReference(OutcomeAt(OutcomesOf(ts[i]), OutcomesOf(ts[i]).keys[j]), toastIds)
    ensures UnknownToast(file, IdOf(ts[i]), ToastIdOf(OutcomeAt(OutcomesOf(ts[i]), OutcomesOf(ts[i]).keys[j])))
            in TicketErrors(ts, toastIds, file, seen)
    decreases |ts|
  {
    var n := |ts| - 1;
    if i < n {
      assert ts[..n][i] == ts[i];
      TicketUnknownToastReported(ts[..n], toastIds, file, seen, i, j);
    } else {
      var t := ts[n];
      OutcomeUnknownReported(file, IdOf(t), OutcomesOf(t), OutcomesOf(t).keys, toastIds, j);
    }
  }

  /** A ticket with its keys, texts within the limit and clean outcomes. */
  predicate TicketClean(t: Record, toastIds: set<Value>)
  {
    HasKeys(t, TicketKeys) && ValidateWordCount(StrField(t, "text")) && ValidateWordCount(StrField(t, "attachment"))
    && AllOutcomesClean(OutcomesOf(t), OutcomesOf(t).keys, toastIds)
  }

  predicate AllTicketsClean(ts: seq<Record>, toastIds: set<Value>)
  {
    forall i :: 0 <= i < |ts| ==> TicketClean(ts[i], toastIds)
  }

  lemma AllTicketsCleanSnoc(ts: seq<Record>, toastIds: set<Value>)
    requires ts != []
    ensures AllTicketsClean(ts, toastIds) <==> AllTicketsClean(ts[..|ts| - 1], toastIds) && TicketClean(ts[|ts| - 1], toastIds)
  {
    assert forall i :: 0 <= i < |ts| - 1 ==> ts[..|ts| - 1][i] == ts[i];
  }

  lemma TicketRecordEmpty(t: Record, toastIds: set<Value>, file: string, seen: set<Value>)
    ensures TicketRecordErrors(t, toastIds, file, seen) == [] <==> TicketClean(t, toastIds) && IdOf(t) !in seen
  {
    MissingKeysEmpty(InTickets(file), IdOf(t), t, TicketKeys);
    OutcomeErrorsEmpty(file, IdOf(t), OutcomesOf(t), OutcomesOf(t).keys, toastIds);
  }

  /** A ticket file passes exactly when every ticket is clean, the ticket
      ids are pairwise distinct and none was already in the shared set. */
  lemma {:induction false} TicketErrorsEmpty(ts: seq<Record>, toastIds: set<Value>, file: string, seen: set<Value>)
    ensures TicketErrors(ts, toastIds, file, seen) == []
        <==> AllTicketsClean(ts, toastIds) && DistinctIds(ts) && seen !! IdsOf(ts)
    decreases |ts|
  {
    if ts != [] {
      var n := |ts| - 1;
      var a := TicketErrors(ts[..n], toastIds, file, seen);
      var b := TicketRecordErrors(ts[n], toastIds, file, seen + IdsOf(ts[..n]));
      TicketErrorsEmpty(ts[..n], toastIds, file, seen);
      TicketRecordEmpty(ts[n], toastIds, file, seen + IdsOf(ts[..n]));
      DistinctIdsSnoc(ts);
      AllTicketsCleanSnoc(ts, toastIds);
      assert IdsOf(ts) == IdsOf(ts[..n]) + {IdOf(ts[n])};
      assert TicketErrors(ts, toastIds, file, seen) == a + b;
      assert |a + b| == |a| + |b|;
    }
  }
}
