/** What the validator reads and reports: parsed JSON values, flat records,
    the required-key lists, the error kinds, and the bookkeeping shared by
    the three category validators (missing keys, seen ids, duplicates). */
module Content {

  /** A parsed JSON value. An object keeps the order of its keys, as a
      Python dict does; `keys` lists every key of `fields` once. */
  datatype Value =
    | Str(s: string)
    | Num(n: int)
    | List(items: seq<Value>)
    | Obj(keys: seq<string>, fields: map<string, Value>)

  /** A toast, rule, ticket or outcome: a flat key/value map. */
  type Record = map<string, Value>

  /** Python truthiness of a value. */
  predicate Truthy(v: Value)
  {
    match v
    case Str(s) => s != ""
    case Num(n) => n != 0
    case List(items) => items != []
    case Obj(_, fields) => fields != map[]
  }

  /** Values Python can put in a set (lists and dicts raise a TypeError). */
  predicate Hashable(v: Value)
  {
    v.Str? || v.Num?
  }

  /** The record's id, or the string UNKNOWN when it has none. */
  function IdOf(r: Record): Value
  {
    if "id" in r then r["id"] else Str("UNKNOWN")
  }

  predicate StrOrAbsent(r: Record, key: string)
  {
    key in r ==> r[key].Str?
  }

  /** The string under `key`, or the empty string when the key is absent,
      for a field that holds a string when present (the validator raises on
      any other value before using it). */
  function StrField(r: Record, key: string): string
  {
    if key in r && r[key].Str? then r[key].s else ""
  }

  /** An object whose key order lists each of its keys exactly once. */
  predicate OrderedObj(v: Value)
  {
    v.Obj?
    && (forall i, j :: 0 <= i < j < |v.keys| ==> v.keys[i] != v.keys[j])
    && (forall k :: k in v.keys ==> k in v.fields)
    && (forall k :: k in v.fields ==> k in v.keys)
  }

  const TicketKeys: seq<string> := ["id", "shift", "type", "text", "attachment", "allowed_stamps", "rarity", "tags", "outcomes"]
  const OutcomeKeys: seq<string> := ["toast_id", "mood_delta", "contradiction_delta"]
  const RuleKeys: seq<string> := ["id", "shift", "text"]
  const ToastKeys: seq<string> := ["id", "text", "rarity", "tags"]

  /** Where an error was found: the toasts file, the rules file, a ticket
      file, or one stamp's outcome inside a ticket file. */
  datatype Where =
    | InToasts
    | InRules
    | InTickets(file: string)
    | InOutcome(file: string, stamp: string)

  /** The validator's error messages, by kind. `id` is the offending
      record's id (for an outcome, its ticket's id). */
  datatype Error =
    | MissingKey(at: Where, id: Value, key: string)
    | DuplicateId(at: Where, id: Value)
    | TextTooLong(at: Where, id: Value, text: string)
    | AttachmentTooLong(file: string, id: Value, attachment: string)
    | UnknownToast(file: string, id: Value, toastId: Value)
    | FileMissing(path: string)
    | InvalidJson(path: string)
    | NoTicketFiles

  predicate IsDuplicate(e: Error) { e.DuplicateId? }
  predicate IsTextTooLong(e: Error) { e.TextTooLong? }
  predicate IsUnknownToast(e: Error) { e.UnknownToast? }

  /** Number of errors satisfying `p`. */
  function Count(errs: seq<Error>, p: Error -> bool): nat
    decreases |errs|
  {
    if errs == [] then 0
    else Count(errs[..|errs| - 1], p) + (if p(errs[|errs| - 1]) then 1 else 0)
  }

  lemma {:induction false} CountAppend(a: seq<Error>, b: seq<Error>, p: Error -> bool)
    ensures Count(a + b, p) == Count(a, p) + Count(b, p)
    decreases |b|
  {
    if b == [] {
      assert a + b == a;
    } else {
      var n := |b| - 1;
      assert (a + b)[..|a + b| - 1] == a + b[..n];
      CountAppend(a, b[..n], p);
    }
  }

  lemma {:induction false} CountNone(errs: seq<Error>, p: Error -> bool)
    requires forall e :: e in errs ==> !p(e)
    ensures Count(errs, p) == 0
    decreases |errs|
  {
    if errs != [] {
      assert forall e :: e in errs[..|errs| - 1] ==> e in errs;
      CountNone(errs[..|errs| - 1], p);
    }
  }

  /** The record has every key of `required`. */
  predicate HasKeys(r: Record, required: seq<string>)
  {
    forall k :: k in required ==> k in r
  }

  /** Every record of `rs` has every key of `required`. */
  predicate AllHaveKeys(rs: seq<Record>, required: seq<string>)
  {
    forall i :: 0 <= i < |rs| ==> HasKeys(rs[i], required)
  }

  lemma AllHaveKeysSnoc(rs: seq<Record>, required: seq<string>)
    requires rs != []
    ensures AllHaveKeys(rs, required) <==> AllHaveKeys(rs[..|rs| - 1], required) && HasKeys(rs[|rs| - 1], required)
  {
    assert forall i :: 0 <= i < |rs| - 1 ==> rs[..|rs| - 1][i] == rs[i];
  }

  /** An error of the kind counted makes the count positive. */
  lemma {:induction false} CountPositive(errs: seq<Error>, e: Error, p: Error -> bool)
    requires e in errs && p(e)
    ensures Count(errs, p) > 0
    decreases |errs|
  {
    var n := |errs| - 1;
    if errs[n] != e {
      assert e in errs[..n] by {
        var k :| 0 <= k < |errs| && errs[k] == e;
        assert errs[..n][k] == e;
      }
      CountPositive(errs[..n], e, p);
    }
  }

  lemma CountOptional(c: bool, e: Error, p: Error -> bool)
    ensures Count(if c then [e] else [], p) == if c && p(e) then 1 else 0
  {
    if c { assert [e][..0] == []; }
  }

  /** The "missing required key" errors for record `r`: one per key of
      `required` absent from `r`, in the order of `required`. */
  function MissingKeys(at: Where, id: Value, r: Record, required: seq<string>): seq<Error>
    decreases |required|
  {
    if required == [] then []
    else
      var n := |required| - 1;
      MissingKeys(at, id, r, required[..n]) + (if required[n] in r then [] else [MissingKey(at, id, required[n])])
  }

  /** Every error MissingKeys reports is a missing-key error for this record. */
  lemma {:induction false} MissingKeysKinds(at: Where, id: Value, r: Record, required: seq<string>)
    ensures forall e :: e in MissingKeys(at, id, r, required) ==> e.MissingKey? && e == MissingKey(at, id, e.key)
    decreases |required|
  {
    if required != [] {
      MissingKeysKinds(at, id, r, required[..|required| - 1]);
    }
  }

  /** No missing-key error exactly when the record has every required key. */
  lemma {:induction false} MissingKeysEmpty(at: Where, id: Value, r: Record, required: seq<string>)
    ensures MissingKeys(at, id, r, required) == [] <==> HasKeys(r, required)
    decreases |required|
  {
    if required != [] {
      var n := |required| - 1;
      MissingKeysEmpty(at, id, r, required[..n]);
      assert forall k :: k in required <==> k in required[..n] || k == required[n];
    }
  }

  /** A missing-key error is reported for exactly the required keys the
      record lacks. */
  lemma {:induction false} MissingKeyIff(at: Where, id: Value, r: Record, required: seq<string>, k: string)
    ensures MissingKey(at, id, k) in MissingKeys(at, id, r, required) <==> k in required && k !in r
    decreases |required|
  {
    if required != [] {
      var n := |required| - 1;
      MissingKeyIff(at, id, r, required[..n], k);
      assert k in required <==> k in required[..n] || k == required[n];
    }
  }

  /** Missing-key errors are of no other kind. */
  lemma MissingKeysOnlyMissing(at: Where, id: Value, r: Record, required: seq<string>)
    ensures Count(MissingKeys(at, id, r, required), IsDuplicate) == 0
    ensures Count(MissingKeys(at, id, r, required), IsTextTooLong) == 0
    ensures Count(MissingKeys(at, id, r, required), IsUnknownToast) == 0
  {
    MissingKeysKinds(at, id, r, required);
    CountNone(MissingKeys(at, id, r, required), IsDuplicate);
    CountNone(MissingKeys(at, id, r, required), IsTextTooLong);
    CountNone(MissingKeys(at, id, r, required), IsUnknownToast);
  }

  /** The seen-set check for one record: one duplicate error iff its id was seen. */
  lemma DuplicateCheckCount(prefix: seq<Error>, at: Where, id: Value, seen: set<Value>)
    requires Count(prefix, IsDuplicate) == 0
    ensures Count(prefix + (if id in seen then [DuplicateId(at, id)] else []), IsDuplicate) == if id in seen then 1 else 0
  {
    var tail := if id in seen then [DuplicateId(at, id)] else [];
    CountAppend(prefix, tail, IsDuplicate);
    assert tail != [] ==> tail[..0] == [];
  }

  /** With the required keys listed once each (as all four lists are), each
      absent key is reported exactly once and a present key never. */
  lemma {:induction false} MissingKeyReportedOnce(at: Where, id: Value, r: Record, required: seq<string>, k: string)
    requires forall i, j :: 0 <= i < j < |required| ==> required[i] != required[j]
    ensures multiset(MissingKeys(at, id, r, required))[MissingKey(at, id, k)] == if k in required && k !in r then 1 else 0
    decreases |required|
  {
    if required != [] {
      var n := |required| - 1;
      MissingKeyReportedOnce(at, id, r, required[..n], k);
      assert k in required <==> k in required[..n] || k == required[n];
      assert k == required[n] ==> k !in required[..n];
    }
  }

  /** The required-key loop: one error per required key the record lacks, in list order. */
  method CheckRequiredKeys(at: Where, id: Value, r: Record, required: seq<string>) returns (errs: seq<Error>)
    ensures errs == MissingKeys(at, id, r, required)
  {
    errs := [];
    for i := 0 to |required|
      invariant errs == MissingKeys(at, id, r, required[..i])
    {
      assert required[..i + 1][..i] == required[..i];
      if required[i] !in r {
        errs := errs + [MissingKey(at, id, required[i])];
      }
    }
    assert required[..|required|] == required;
  }

  /** The ids of the records, with "UNKNOWN" for a record without one. */
  function IdsOf(rs: seq<Record>): set<Value>
    decreases |rs|
  {
    if rs == [] then {} else IdsOf(rs[..|rs| - 1]) + {IdOf(rs[|rs| - 1])}
  }

  /** The id set holds exactly the ids of the records. */
  lemma {:induction false} IdsOfMembers(rs: seq<Record>, v: Value)
    ensures v in IdsOf(rs) <==> exists i :: 0 <= i < |rs| && IdOf(rs[i]) == v
    decreases |rs|
  {
    if rs != [] {
      var n := |rs| - 1;
      IdsOfMembers(rs[..n], v);
      if v in IdsOf(rs[..n]) {
        var i :| 0 <= i < n && IdOf(rs[..n][i]) == v;
        assert IdOf(rs[i]) == v;
      }
      if exists i :: 0 <= i < |rs| && IdOf(rs[i]) == v {
        var i :| 0 <= i < |rs| && IdOf(rs[i]) == v;
        if i < n { assert IdOf(rs[..n][i]) == v; }
      }
    }
  }

  lemma {:induction false} IdsOfAppend(a: seq<Record>, b: seq<Record>)
    ensures IdsOf(a + b) == IdsOf(a) + IdsOf(b)
    decreases |b|
  {
    if b == [] {
      assert a + b == a;
    } else {
      var n := |b| - 1;
      assert (a + b)[..|a + b| - 1] == a + b[..n];
      IdsOfAppend(a, b[..n]);
    }
  }

  /** No two records share an id. */
  predicate DistinctIds(rs: seq<Record>)
  {
    forall i, j :: 0 <= i < j < |rs| ==> IdOf(rs[i]) != IdOf(rs[j])
  }

  /** Distinct ids, one record at a time: the last record's id is new. */
  lemma {:induction false} DistinctIdsSnoc(rs: seq<Record>)
    requires rs != []
    ensures DistinctIds(rs) <==> DistinctIds(rs[..|rs| - 1]) && IdOf(rs[|rs| - 1]) !in IdsOf(rs[..|rs| - 1])
  {
    var n := |rs| - 1;
    IdsOfMembers(rs[..n], IdOf(rs[n]));
    if DistinctIds(rs[..n]) && IdOf(rs[n]) !in IdsOf(rs[..n]) {
      forall i, j | 0 <= i < j < |rs| ensures IdOf(rs[i]) != IdOf(rs[j]) {
        assert rs[..n][i] == rs[i];
        if j < n { assert rs[..n][j] == rs[j]; }
      }
    }
  }

  /** Ids are distinct across two lists exactly when they are distinct
      within each and no id is in both. */
  lemma {:induction false} DistinctIdsAppend(a: seq<Record>, b: seq<Record>)
    ensures DistinctIds(a + b) <==> DistinctIds(a) && DistinctIds(b) && IdsOf(a) !! IdsOf(b)
    decreases |b|
  {
    if b == [] {
      assert a + b == a;
    } else {
      var n := |b| - 1;
      assert (a + b)[..|a + b| - 1] == a + b[..n];
      assert (a + b)[|a + b| - 1] == b[n];
      DistinctIdsAppend(a, b[..n]);
      DistinctIdsSnoc(a + b);
      DistinctIdsSnoc(b);
      IdsOfAppend(a, b[..n]);
      assert IdsOf(b) == IdsOf(b[..n]) + {IdOf(b[n])};
    }
  }

  /** Number of records whose id is in `seen` or is the id of an earlier
      record: the records a seen-set check reports as duplicates. */
  function DupCount(rs: seq<Record>, seen: set<Value>): nat
    decreases |rs|
  {
    if rs == [] then 0
    else
      var n := |rs| - 1;
      DupCount(rs[..n], seen) + (if IdOf(rs[n]) in seen + IdsOf(rs[..n]) then 1 else 0)
  }

  /** Every record either is a duplicate or adds one new id to the set:
      duplicates = records - new distinct ids. */
  lemma {:induction false} DupCountCard(rs: seq<Record>, seen: set<Value>)
    ensures DupCount(rs, seen) + |seen + IdsOf(rs)| == |seen| + |rs|
    decreases |rs|
  {
    if rs != [] {
      var n := |rs| - 1;
      DupCountCard(rs[..n], seen);
      var before := seen + IdsOf(rs[..n]);
      assert seen + IdsOf(rs) == before + {IdOf(rs[n])};
      if IdOf(rs[n]) in before {
        assert before + {IdOf(rs[n])} == before;
        assert DupCount(rs, seen) == DupCount(rs[..n], seen) + 1;
      } else {
        assert |before + {IdOf(rs[n])}| == |before| + 1;
        assert DupCount(rs, seen) == DupCount(rs[..n], seen);
      }
    }
  }

  /** Duplicates of a concatenation: those of the first part, then those of
      the second part checked against everything seen so far. */
  lemma {:induction false} DupCountAppend(a: seq<Record>, b: seq<Record>, seen: set<Value>)
    ensures DupCount(a + b, seen) == DupCount(a, seen) + DupCount(b, seen + IdsOf(a))
    decreases |b|
  {
    if b == [] {
      assert a + b == a;
    } else {
      var n := |b| - 1;
      assert (a + b)[..|a + b| - 1] == a + b[..n];
      DupCountAppend(a, b[..n], seen);
      IdsOfAppend(a, b[..n]);
    }
  }

  /** With an empty seen-set, no record is a duplicate iff the ids are
      pairwise distinct. */
  lemma {:induction false} NoDupIffDistinct(rs: seq<Record>)
    ensures DupCount(rs, {}) == 0 <==> DistinctIds(rs)
    decreases |rs|
  {
    if rs != [] {
      var n := |rs| - 1;
      NoDupIffDistinct(rs[..n]);
      assert {} + IdsOf(rs[..n]) == IdsOf(rs[..n]);
      if DistinctIds(rs) {
        assert DistinctIds(rs[..n]);
        IdsOfMembers(rs[..n], IdOf(rs[n]));
        assert IdOf(rs[n]) !in IdsOf(rs[..n]);
      }
      if DupCount(rs, {}) == 0 {
        forall i, j | 0 <= i < j < |rs| ensures IdOf(rs[i]) != IdOf(rs[j]) {
          if j < n {
            assert rs[..n][i] == rs[i] && rs[..n][j] == rs[j];
          } else {
            IdsOfMembers(rs[..n], IdOf(rs[i]));
            assert IdOf(rs[..n][i]) == IdOf(rs[i]);
          }
        }
      }
    }
  }

  /** A value the validator's loop walks zero times without raising: an
      empty object or an empty string (an empty list is a list of records). */
  predicate EmptyIterable(v: Value)
  {
    (v.Obj? && v.fields == map[]) || v == Str("")
  }

  /** A parsed file the validator walks without raising: an object whose
      `key`, when present, holds a list of objects with ids that can go into
      a set, or something iterated zero times. */
  predicate IsRecordList(doc: Value, key: string)
  {
    doc.Obj?
    && (key in doc.fields ==>
          EmptyIterable(doc.fields[key])
          || (doc.fields[key].List?
              && forall i :: 0 <= i < |doc.fields[key].items| ==>
                   doc.fields[key].items[i].Obj? && Hashable(IdOf(doc.fields[key].items[i].fields))))
  }

  /** The records listed under `key`, in order, as the validator iterates
      them; none when the key is absent or holds an empty object or string. */
  function Entries(doc: Value, key: string): seq<Record>
    requires IsRecordList(doc, key)
  {
    if key in doc.fields && doc.fields[key].List? then
      var items := doc.fields[key].items;
      seq(|items|, i requires 0 <= i < |items| => items[i].fields)
    else []
  }

  /** A missing key, an empty list, an empty object and an empty string all
      give no records: the loop runs zero times and raises nothing. */
  lemma NoEntries(doc: Value, key: string)
    requires doc.Obj?
    requires key !in doc.fields || doc.fields[key] == List([]) || EmptyIterable(doc.fields[key])
    ensures IsRecordList(doc, key) && Entries(doc, key) == []
  {
  }
}
