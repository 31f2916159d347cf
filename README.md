# The Stamp Office content validator, in Dafny

This project models the content validator of The Stamp Office
(`tools/validate_data.py`) and proves what it reports.

The validator reads three kinds of authored JSON content:

- the toast list;
- the rule list;
- one or more ticket files (`shift*.json`).

It checks every record for its required keys and for unique ids, and checks texts against an eight-word limit. It also checks that every ticket outcome's `toast_id` names a known toast. It collects all errors in order, records PASS or FAIL for each file, and exits with 0 exactly when nothing was found.

Modules:

- `Words` (`words.dfy`) covers `count_words` and `validate_word_count`.
  - `Split` is Python's argument-less `str.split()`, over the characters for which `str.isspace()` holds.
  - It is checked against an independent word-start count.
  - A round trip shows that splitting space-joined words gives the words back.
- `Content` (`content.dfy`) holds the shared vocabulary:
  - JSON values, with objects that keep key order as a Python dict does, and flat records as `map<string, Value>`;
  - the four `REQUIRED_*_KEYS` lists;
  - an `Error` datatype with one constructor per message kind of the validator;
  - the missing-key check;
  - the bookkeeping for seen ids and duplicates: `IdsOf`, `DupCount` and `DistinctIds`.
- `Toasts`, `Rules` and `Tickets` hold `validate_toasts`, `validate_rules` and `validate_tickets`.
  - Each is a method with the source's loop, proved equal to a fold-style specification function (`ToastErrors`, `RuleErrors`, `TicketErrors`).
  - Lemmas about these functions state what the validator promises.
  - `global_ticket_ids`, which `validate_tickets` updates in place, is the class `TicketIdSet`.
- `Validator` (`validator.dfy`) holds `main`.
  - The method `Validate` runs the toasts step, the rules step and the ticket-file loop with one shared id set. It builds `all_errors`, `file_results` and the exit code.
  - It is proved equal to the specification function `Run`.
  - `Run` is built from the errors of each step (`Collect`), and the verdict lemmas are stated about it.

Messages are modelled by kind, not as text:

| Error | message |
|---|---|
| `MissingKey(at, id, key)` | "missing required key" / "outcome … missing key" |
| `DuplicateId(at, id)` | "Duplicate ID" / "Duplicate ticket ID across files" |
| `TextTooLong` | "text exceeds 8 words" |
| `AttachmentTooLong` | "attachment exceeds 8 words" |
| `UnknownToast` | "unknown toast_id" |
| `FileMissing` | "[FILE] Missing" |
| `InvalidJson` | "[FILE] Invalid JSON" |
| `NoTicketFiles` | "[FILE] No ticket files found" |

The `at` tag says which category, file and outcome stamp the message names.

Points where the code's behaviour is easy to misread:

- The code has a single ticket-id set shared by all ticket files; there is no per-file mode. A ticket whose id repeats one of the same file or of an earlier file gets "Duplicate ticket ID across files".
- Messages are tagged with the ticket file's name, not with a `[TICKET]` tag.
- An unreadable toasts file leaves `toast_ids` empty. Every non-empty outcome `toast_id` is then reported as unknown (`ToastLoadFailureCascades`).

## Model

| member | source | states |
|---|---|---|
| Words.SplitWords | tools/validate_data.py:31-33 | every piece `split()` yields is a non-empty run of non-whitespace, and there are no pieces exactly when the text is all whitespace (the empty text included) |
| Words.SplitCountsWordStarts | tools/validate_data.py:31-33 | `count_words` equals an independent count of the positions where a word starts |
| Words.SplitJoinWords | tools/validate_data.py:31-33 | splitting words joined by single spaces gives the same words back |
| Words.ValidateWordCountMeaning | tools/validate_data.py:36-38 | `validate_word_count(text, max_words)` holds iff the text has at most `max_words` word starts; whitespace-only and empty texts (the `''` default of a missing field) pass any non-negative limit |
| Words.SevenWordsPass | tools/validate_data.py:36-38 | a seven-word text is within the default limit of 8 |
| Words.TenWordsFail | tools/validate_data.py:36-38 | a ten-word text is over the default limit of 8 |
| Content.NoEntries | tools/validate_data.py:119 | a missing key, an empty list, an empty object or an empty string under the key is walked zero times and gives no records |
| Content.CheckRequiredKeys | tools/validate_data.py:55-57 | the required-key loop appends exactly the missing-key errors of `MissingKeys`, in the order of the key list |
| Content.MissingKeyIff | tools/validate_data.py:41-44 | a record gets a missing-key error for `k` iff `k` is in its category's required list and absent from the record |
| Content.MissingKeyReportedOnce | tools/validate_data.py:41-44 | each absent required key is reported exactly once, and a present key never |
| Content.MissingKeysEmpty | tools/validate_data.py:55-57 | no missing-key error at all iff the record has every required key |
| Toasts.ValidateToasts | tools/validate_data.py:114-132 | returns the toast errors of `ToastErrors` and, as its id set, exactly the ids of all toasts (`'UNKNOWN'` for a toast without `id`) |
| Toasts.ToastErrorsKinds | tools/validate_data.py:119-130 | toast errors are missing keys and duplicate ids, all tagged as toasts |
| Toasts.ToastRecordDuplicates | tools/validate_data.py:127-129 | a toast gets one "Duplicate ID" iff its id was seen before, and none otherwise |
| Toasts.ToastDuplicateCount | tools/validate_data.py:127-130 | one "Duplicate ID" per toast whose id equals that of an earlier toast |
| Toasts.ToastDuplicates | tools/validate_data.py:127-130 | the number of duplicate errors is the number of toasts minus the number of distinct ids, and zero iff the ids are pairwise distinct |
| Toasts.ToastErrorsEmpty | tools/validate_data.py:114-132 | no toast error iff every toast has its keys and the ids are distinct |
| Toasts.ToastMissingKeyReported | tools/validate_data.py:122-125 | a toast lacking a required key gets that key's error |
| Toasts.ToastMissingKeySound | tools/validate_data.py:122-125 | every missing-key error names a toast that really lacks that required key |
| Rules.ValidateRules | tools/validate_data.py:88-111 | the loop, with a seen-set that starts empty, returns exactly `RuleErrors` of the rule list |
| Rules.RuleErrorsKinds | tools/validate_data.py:93-109 | rule errors are missing keys, duplicate ids and over-long texts, all tagged as rules |
| Rules.RuleRecordCounts | tools/validate_data.py:101-109 | one rule gets one duplicate error iff its id was seen, and one text error iff its text is over the limit |
| Rules.RuleDuplicateCount | tools/validate_data.py:101-104 | one "Duplicate ID" per rule repeating an earlier rule's id |
| Rules.RuleDuplicates | tools/validate_data.py:101-104 | the duplicate count is the number of rules minus the number of distinct rule ids, and zero iff the ids are distinct |
| Rules.RuleTextTooLongCount | tools/validate_data.py:106-109 | "text exceeds 8 words" is emitted once for each rule whose text has more than eight words and for no other rule |
| Rules.RuleTextTooLongSound | tools/validate_data.py:106-109 | every text error names a rule and its text, and that text has more than eight words |
| Rules.RuleRecordEmpty | tools/validate_data.py:93-109 | one rule adds no error iff it has its keys, a text within the limit and a new id |
| Rules.RuleErrorsEmpty | tools/validate_data.py:88-111 | no rule error iff every rule has its keys and a text within the limit, and the ids are distinct |
| Tickets.TicketIdSet.constructor | tools/validate_data.py:195 | the shared ticket-id set starts empty |
| Tickets.TicketIdSet.Add | tools/validate_data.py:62 | adding an id unites it with the set and changes nothing else |
| Tickets.CheckOutcomes | tools/validate_data.py:75-83 | the outcome loop emits exactly `OutcomeErrors` over the stamps in the order of the `outcomes` object |
| Tickets.CheckWordLimits | tools/validate_data.py:64-72 | the text check comes first, then the attachment check, each on the field or `''` |
| Tickets.CheckTicket | tools/validate_data.py:51-83 | one iteration of the ticket loop emits exactly `TicketRecordErrors` for the ticket, given the ids seen before it |
| Tickets.ValidateTickets | tools/validate_data.py:47-85 | returns `TicketErrors` checked against the old shared set, and afterwards the shared set is its old value united with every ticket id of the file; `toast_ids` is only read |
| Tickets.OutcomeErrorsKinds | tools/validate_data.py:74-83 | outcome errors are missing outcome keys tagged with the file and stamp, or unknown toasts with a truthy `toast_id` that is not a toast id |
| Tickets.OutcomeRecordCounts | tools/validate_data.py:81-83 | one outcome gets one "unknown toast_id" iff its `toast_id` is truthy and not in `toast_ids`, and never a duplicate |
| Tickets.OutcomeUnknownCount | tools/validate_data.py:75-83 | the number of unknown-toast errors of a ticket's outcomes is the number of offending outcomes |
| Tickets.OutcomeUnknownReported | tools/validate_data.py:81-83 | an outcome whose `toast_id` is truthy and unknown is reported with that id |
| Tickets.OutcomeErrorsEmpty | tools/validate_data.py:75-83 | no outcome error iff every outcome has its keys and a known or empty `toast_id` |
| Tickets.TicketRecordKinds | tools/validate_data.py:51-83 | every error of a ticket names the ticket file |
| Tickets.TicketErrorsKinds | tools/validate_data.py:47-85 | every error of a ticket file names that file |
| Tickets.TicketWordLimitIff | tools/validate_data.py:64-72 | a ticket gets "text exceeds 8 words" iff its text has more than eight words, and the attachment error iff its attachment has |
| Tickets.TicketRecordDuplicates | tools/validate_data.py:59-61 | a ticket gets one duplicate error iff its id was in the set before it, and none otherwise |
| Tickets.TicketDuplicateIff | tools/validate_data.py:59-61 | "Duplicate ticket ID across files" is emitted for a ticket iff its id was already in the shared set |
| Tickets.TicketRecordUnknownToasts | tools/validate_data.py:74-83 | a ticket's unknown-toast errors are exactly one per offending outcome |
| Tickets.TicketDuplicateCount | tools/validate_data.py:59-62 | one duplicate error per ticket whose id was in the set before it, the set growing with every ticket |
| Tickets.TicketUnknownToastReported | tools/validate_data.py:74-83 | every outcome of every ticket with a truthy, unknown `toast_id` is reported |
| Tickets.TicketRecordEmpty | tools/validate_data.py:51-83 | one ticket adds no error iff it is clean (keys, word limits, outcomes) and its id is new |
| Tickets.TicketErrorsEmpty | tools/validate_data.py:47-85 | a ticket file adds no error iff all its tickets are clean, their ids are distinct and none was in the shared set before |
| Validator.LoadToasts | tools/validate_data.py:156-174 | the toasts step yields the toast errors or the one load error, `toast_ids` (empty after a failed load) and the toasts.json status |
| Validator.LoadRules | tools/validate_data.py:176-192 | the rules step yields the rule errors or the one load error, and the rules.json status |
| Validator.CheckTicketFile | tools/validate_data.py:202-218 | one ticket file yields its ticket errors or its load error and its status, and the shared set gains its ticket ids |
| Validator.CheckTicketFiles | tools/validate_data.py:194-218 | the ticket-file loop, with a fresh shared set, yields the ticket errors in file order and records each file's status |
| Validator.Validate | tools/validate_data.py:135-244 | main computes exactly `Run`: all errors in order, `file_results` and the exit code |
| Validator.TicketPhaseStep | tools/validate_data.py:202-218 | one more ticket file appends its errors, records its status under its name and adds its ids to the shared set |
| Validator.FileErrorListsAt | tools/validate_data.py:202-210 | ticket file `i` is checked against the ticket ids of all files before it |
| Validator.TicketFileEmpty | tools/validate_data.py:204-218 | a ticket file adds no error iff it loaded, its tickets are clean and their ids are distinct and new |
| Validator.TicketPhaseClean | tools/validate_data.py:194-218 | the ticket step adds no error iff every file loaded with clean tickets and ticket ids are distinct across all files |
| Validator.TicketFileKinds | tools/validate_data.py:204-218 | every error of one ticket file names that file or is its load error |
| Validator.TicketPhaseKinds | tools/validate_data.py:202-218 | every error of the ticket step belongs to one of the ticket files |
| Validator.ToastPhaseWithoutNoFiles | tools/validate_data.py:156-174 | the toasts step never reports "No ticket files found" |
| Validator.RulePhaseWithoutNoFiles | tools/validate_data.py:176-192 | the rules step never reports "No ticket files found" |
| Validator.TicketPhaseWithoutNoFiles | tools/validate_data.py:202-218 | the ticket step never reports "No ticket files found" |
| Validator.NoTicketFilesOnce | tools/validate_data.py:198-200 | "No ticket files found" appears exactly once when no ticket file was found, and never otherwise |
| Validator.VerdictAllPass | tools/validate_data.py:233-244 | whatever each step found, the exit code is 0 or 1; it is 0 iff no error was collected, and iff a ticket file was found and every file is PASS |
| Validator.ExitCodeAllPass | tools/validate_data.py:233-244 | main exits with 0 iff `all_errors` is empty, and with 1 otherwise; equivalently, iff some ticket file was found and every entry of `file_results` is PASS |
| Validator.CollectEntries | tools/validate_data.py:164-218 | toasts.json and rules.json carry their step's status, each ticket file the status of its own errors, and every ticket-file error is among all errors |
| Validator.ToastsResult | tools/validate_data.py:164-174 | toasts.json is PASS iff it loaded, every toast has its keys and the toast ids are distinct |
| Validator.RulesResult | tools/validate_data.py:184-192 | rules.json is PASS iff it loaded, every rule is clean and the rule ids are distinct |
| Validator.TicketFileResult | tools/validate_data.py:210-218 | a ticket file is PASS iff it loaded, its tickets are clean against the loaded toasts, and its ids are distinct and new to the files before it |
| Validator.ExitCodeClean | tools/validate_data.py:233-244 | main exits with 0 iff the toasts and the rules loaded clean, some ticket file was found, every ticket file loaded with clean tickets, and ticket ids are distinct across all files |
| Validator.ToastLoadFailureCascades | tools/validate_data.py:165-174 | when toasts.json fails to load, every outcome with a non-empty `toast_id` in a loaded ticket file is reported as unknown, toasts.json is FAIL and main exits with 1 |
| Validator.TicketFileDuplicates | tools/validate_data.py:59-62 | the duplicate errors of one ticket file are one per ticket whose id was seen in an earlier file or earlier in this one |
| Validator.TicketPhaseDuplicates | tools/validate_data.py:195-206 | across ticket files, one duplicate error per ticket repeating the id of any earlier ticket of any file |
| Validator.TicketPhaseDuplicatesCard | tools/validate_data.py:195-206 | the cross-file duplicate count is the number of tickets minus the number of distinct ticket ids |
| Validator.DuplicateCount | tools/validate_data.py:160-206 | the duplicate errors of a run are those of the toasts, of the rules and of the tickets across all files, each counted as repeats of earlier ids |

## Left out

- Loading. `load_json` and the `FileNotFoundError` and `JSONDecodeError` handlers become an input per file: a parsed document (`Parsed`), `Missing` or `Invalid`.
- File discovery. Resolving the repository path, `glob('shift*.json')` and `sorted` are not modelled. The ticket files come as an ordered sequence whose names are distinct and differ from `toasts.json` and `rules.json` (`NamesOk`), as names matched by `shift*.json` in one directory are.
- Output. Every `print` is left out: the banner, the load progress, the toast and rule counts, the per-file summary in dict order and the itemised error list. So is the exact f-string text of each message; the `Error` constructors stand for the message kinds. `sys.exit` becomes the `exitCode` field of the report.
- Crashes on malformed documents. Such inputs raise `TypeError` or `AttributeError` in the source, which no handler catches. The model excludes them by preconditions on the document shapes:
  - `IsRecordList`, `RulesDocOk` and `TicketsDocOk`, with the last carried by the `ShapedFile` subset type. An empty object or empty string under `toasts`, `rules` or `tickets` is iterated zero times without raising, so it is admitted and gives no records; a number, a non-empty string or a non-empty object there raises, or hands `.get` a non-object;
  - ids and `toast_id`s that are hashable;
  - `text` and `attachment` that are strings when present;
  - `outcomes` that is an object of objects.
- JSON booleans, `null` and floating-point numbers are not part of `Value`. As a result, Python's `True == 1` for set membership is not modelled.
- Whitespace. `IsWhitespace` lists the characters for which Python's `str.isspace()` holds. Unicode data beyond that list, and `split()` on non-`str` values, are not part of this model.
- `tools/sync_game_data.py` is not part of this model. It only creates directories and copies files.
