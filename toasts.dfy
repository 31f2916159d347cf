/** validate_toasts: required keys and duplicate ids of the toast list; the
    toast ids it collects are what ticket outcomes may refer to. */
module Toasts {
  import opened Content

  /** The errors for one toast, given the ids of the toasts before it. */
  function ToastRecordErrors(t: Record, seen: set<Value>): seq<Error>
  {
    MissingKeys(InToasts, IdOf(t), t, ToastKeys)
    + (if IdOf(t) in seen then [DuplicateId(InToasts, IdOf(t))] else [])
  }

  /** All errors for a toast list, in the order the loop emits them; the
      seen-set starts empty. */
  function ToastErrors(ts: seq<Record>): seq<Error>
    decreases |ts|
  {
    if ts == [] then []
    else
      var n := |ts| - 1;
      ToastErrors(ts[..n]) + ToastRecordErrors(ts[n], IdsOf(ts[..n]))
  }

  /** One more toast: its errors follow those of the toasts before it. */
  lemma ToastErrorsStep(ts: seq<Record>, i: nat)
    requires i < |ts|
    ensures ToastErrors(ts[..i + 1]) == ToastErrors(ts[..i]) + ToastRecordErrors(ts[i], IdsOf(ts[..i]))
    ensures IdsOf(ts[..i + 1]) == IdsOf(ts[..i]) + {IdOf(ts[i])}
  {
    assert ts[..i + 1][..i] == ts[..i];
  }

  /** validate_toasts: the errors and the set of toast ids. */
  method ValidateToasts(toastsData: Value) returns (errors: seq<Error>, toastIds: set<Value>)
    requires IsRecordList(toastsData, "toasts")
    ensures errors == ToastErrors(Entries(toastsData, "toasts"))
    ensures toastIds == IdsOf(Entries(toastsData, "toasts"))
  {
    var toasts := Entries(toastsData, "toasts");
    errors, toastIds := [], {};
    for i := 0 to |toasts|
      invariant errors == ToastErrors(toasts[..i])
      invariant toastIds == IdsOf(toasts[..i])
    {
      ToastErrorsStep(toasts, i);
      var toast := toasts[i];
      var tid := IdOf(toast);
      var found := CheckRequiredKeys(InToasts, tid, toast, ToastKeys);
      if tid in toastIds {
        found := found + [DuplicateId(InToasts, tid)];
      }
      toastIds := toastIds + {tid};
      errors := errors + found;
    }
    assert toasts[..|toasts|] == toasts;
  }

  /** Toast errors are missing keys and duplicate ids, all tagged as toasts. */
  lemma {:induction false} ToastErrorsKinds(ts: seq<Record>)
    ensures forall e :: e in ToastErrors(ts) ==> (e.MissingKey? || e.DuplicateId?) && e.at == InToasts
    decreases |ts|
  {
    if ts != [] {
      var n := |ts| - 1;
      ToastErrorsKinds(ts[..n]);
      MissingKeysKinds(InToasts, IdOf(ts[n]), ts[n], ToastKeys);
    }
  }

  /** A toast gets one "Duplicate ID" error iff its id was seen before. */
  lemma ToastRecordDuplicates(t: Record, seen: set<Value>)
    ensures Count(ToastRecordErrors(t, seen), IsDuplicate) == if IdOf(t) in seen then 1 else 0
  {
    MissingKeysOnlyMissing(InToasts, IdOf(t), t, ToastKeys);
    DuplicateCheckCount(MissingKeys(InToasts, IdOf(t), t, ToastKeys), InToasts, IdOf(t), seen);
  }

  /** One "Duplicate ID" error per toast whose id is that of an earlier toast. */
  lemma {:induction false} ToastDuplicateCount(ts: seq<Record>)
    ensures Count(ToastErrors(ts), IsDuplicate) == DupCount(ts, {})
    decreases |ts|
  {
    if ts != [] {
      var n := |ts| - 1;
      ToastDuplicateCount(ts[..n]);
      ToastRecordDuplicates(ts[n], IdsOf(ts[..n]));
      CountAppend(ToastErrors(ts[..n]), ToastRecordErrors(ts[n], IdsOf(ts[..n])), IsDuplicate);
      assert {} + IdsOf(ts[..n]) == IdsOf(ts[..n]);
    }
  }

  /** As many "Duplicate ID" errors as there are toasts beyond the distinct
      ids, and none exactly when the ids are pairwise distinct. */
  lemma ToastDuplicates(ts: seq<Record>)
    ensures Count(ToastErrors(ts), IsDuplicate) == |ts| - |IdsOf(ts)|
    ensures Count(ToastErrors(ts), IsDuplicate) == 0 <==> DistinctIds(ts)
  {
    ToastDuplicateCount(ts);
    DupCountCard(ts, {});
    assert {} + IdsOf(ts) == IdsOf(ts);
    NoDupIffDistinct(ts);
  }

  /** The toast list yields no error at all exactly when every toast has
      all required keys and the toast ids are pairwise distinct. */
  lemma {:induction false} ToastErrorsEmpty(ts: seq<Record>)
    ensures ToastErrors(ts) == [] <==> AllHaveKeys(ts, ToastKeys) && DistinctIds(ts)
    decreases |ts|
  {
    if ts != [] {
      var n := |ts| - 1;
      var a, b := ToastErrors(ts[..n]), ToastRecordErrors(ts[n], IdsOf(ts[..n]));
      ToastErrorsEmpty(ts[..n]);
      MissingKeysEmpty(InToasts, IdOf(ts[n]), ts[n], ToastKeys);
      DistinctIdsSnoc(ts);
      AllHaveKeysSnoc(ts, ToastKeys);
      assert ToastErrors(ts) == a + b;
      assert |a + b| == |a| + |b|;
    }
  }

  /** A toast lacking a required key gets that key's error. */
  lemma {:induction false} ToastMissingKeyReported(ts: seq<Record>, i: nat, k: string)
    requires i < |ts| && k in ToastKeys && k !in ts[i]
    ensures MissingKey(InToasts, IdOf(ts[i]), k) in ToastErrors(ts)
    decreases |ts|
  {
    var n := |ts| - 1;
    if i < n {
      assert ts[..n][i] == ts[i];
      ToastMissingKeyReported(ts[..n], i, k);
    } else {
      MissingKeyIff(InToasts, IdOf(ts[n]), ts[n], ToastKeys, k);
    }
  }

  /** Every missing-key error names a toast that lacks that required key. */
  lemma {:induction false} ToastMissingKeySound(ts: seq<Record>, e: Error)
    requires e in ToastErrors(ts) && e.MissingKey?
    ensures exists i :: 0 <= i < |ts| && IdOf(ts[i]) == e.id && e.key in ToastKeys && e.key !in ts[i]
    decreases |ts|
  {
    var n := |ts| - 1;
    if e in ToastErrors(ts[..n]) {
      ToastMissingKeySound(ts[..n], e);
      var i :| 0 <= i < n && IdOf(ts[..n][i]) == e.id && e.key in ToastKeys && e.key !in ts[..n][i];
      assert ts[..n][i] == ts[i];
    } else {
      MissingKeysKinds(InToasts, IdOf(ts[n]), ts[n], ToastKeys);
      assert e in MissingKeys(InToasts, IdOf(ts[n]), ts[n], ToastKeys);
      MissingKeyIff(InToasts, IdOf(ts[n]), ts[n], ToastKeys, e.key);
    }
  }
}
