/**
  `Model`: the accessors over a model handle and the one-cell state slot the
  host keeps for it (`TRITONBACKEND_ModelState` / `TRITONBACKEND_ModelSetState`).

  A `ModelObject` is what the host answers for one model pointer. The slot is
  kept abstract: `Some(v)` is a stored state object, `None` the null
  pointer. The stored type is the type parameter, so a run-time type
  mismatch cannot be expressed, which matches the check in `data`, which
  compares `D`'s type with itself and so always passes.
 */
module Models {
  import opened Native
  import Bridge
  import Decimal

  datatype ModelObject<V> = ModelObject(
    name: Native<string>,        // TRITONBACKEND_ModelName
    version: Native<u64>,        // TRITONBACKEND_ModelVersion
    repository: Native<string>,  // TRITONBACKEND_ModelRepository (the location; artifact type unused)
    getStatus: ErrorPtr,         // what TRITONBACKEND_ModelState returns
    clearStatus: ErrorPtr,       // what TRITONBACKEND_ModelSetState(ptr, null) returns
    storeStatus: ErrorPtr,       // what TRITONBACKEND_ModelSetState(ptr, data) returns
    slot: Option<V>)             // the state pointer the host holds

  /**
    The result of an operation on the slot, the host object after it, and
    the stored object the operation itself freed, if any (an object handed
    back to the caller is not freed yet).
   */
  datatype Step<T, V> = Step(result: Res<T>, model: ModelObject<V>, freed: Option<V>)

  /** Everything but the slot: the host calls never change these. */
  ghost predicate SameHost<V>(a: ModelObject<V>, b: ModelObject<V>) {
    a.(slot := b.slot) == b
  }

  function Name<V>(m: ModelObject<V>): (r: Res<string>)
    ensures r.Ok? <==> m.name.Returned?
    ensures r.Ok? ==> r.value == m.name.value
    ensures r.Err? ==> Err(r.error) == Bridge.CheckErr(m.name.Status())
  {
    Bridge.Checked(m.name)
  }

  function Version<V>(m: ModelObject<V>): (r: Res<u64>)
    ensures r.Ok? <==> m.version.Returned?
    ensures r.Ok? ==> r.value == m.version.value
    ensures r.Err? ==> Err(r.error) == Bridge.CheckErr(m.version.Status())
  {
    Bridge.Checked(m.version)
  }

  function Location<V>(m: ModelObject<V>): (r: Res<string>)
    ensures r.Ok? <==> m.repository.Returned?
    ensures r.Ok? ==> r.value == m.repository.value
    ensures r.Err? ==> Err(r.error) == Bridge.CheckErr(m.repository.Status())
  {
    Bridge.Checked(m.repository)
  }

  /**
    `path(filename)`: `"{location}/{version}/{filename}"`. The location is
    asked for first, so its failure wins over the version's.
   */
  function Path<V>(m: ModelObject<V>, filename: string): (r: Res<string>)
    ensures r.Ok? <==> m.repository.Returned? && m.version.Returned?
    ensures m.repository.Failed? ==> r == Bridge.CheckErr(m.repository.Status()).PropagateFailure()
    ensures m.repository.Returned? && m.version.Failed? ==>
      r == Bridge.CheckErr(m.version.Status()).PropagateFailure()
    ensures r.Ok? ==>
      && |r.value| > |m.repository.value| + 1 + |filename|
      && r.value[..|m.repository.value|] == m.repository.value
      && r.value[|r.value| - |filename| - 1..] == "/" + filename
  {
    var location :- Location(m);
    var version :- Version(m);
    Ok(location + "/" + Decimal.Show(version) + "/" + filename)
  }

  /** The version sits between the location and the file name, and reads back as the model's version. */
  lemma PathRecoversVersion<V>(m: ModelObject<V>, filename: string)
    requires Path(m, filename).Ok?
    ensures var p := Path(m, filename).value;
      var middle := p[|m.repository.value| + 1..|p| - |filename| - 1];
      p[|m.repository.value|] == '/' && Decimal.AllDigits(middle) && Decimal.Parse(middle) == m.version.value
  {
    var p := Path(m, filename).value;
    var loc := m.repository.value;
    var shown := Decimal.Show(m.version.value);
    assert p == loc + "/" + shown + "/" + filename;
    assert p[|loc| + 1..|p| - |filename| - 1] == shown;
    Decimal.ParseShow(m.version.value);
  }

  /**
    `drop_data`, corrected: read the slot; if it holds an object, clear the
    slot and hand the object back, but only once the host confirms the clear.
    On any failure nothing changes. The code as written is `DropDataAsWritten`.
   */
  function DropData<V>(m: ModelObject<V>): (s: Step<Option<V>, V>)
    ensures SameHost(m, s.model)
    ensures !s.result.Panic? && s.freed.None?
    ensures s.result.Ok? <==> m.getStatus.Null? && (m.slot.Some? ==> m.clearStatus.Null?)
    ensures s.result.Ok? ==> s.result.value == m.slot && s.model.slot.None?
    ensures !s.result.Ok? ==> s.model == m
    ensures s.result.Err? ==>
      Err(s.result.error) == Bridge.CheckErr(if m.getStatus.Ptr? then m.getStatus else m.clearStatus)
  {
    match Bridge.CheckErr(m.getStatus)
    case Err(e) => Step(Err(e), m, None)
    case _ =>
      if m.slot.None? then Step(Ok(None), m, None)
      else
        match Bridge.CheckErr(m.clearStatus)
        case Err(e) => Step(Err(e), m, None)
        case _ => Step(Ok(m.slot), m.(slot := None), None)
  }

  /**
    `drop_data` as written: the status of `ModelSetState(ptr, null)` is
    discarded, so when clearing fails the slot keeps the very same pointer
    while the object is handed back all the same.
   */
  function DropDataAsWritten<V>(m: ModelObject<V>): (s: Step<Option<V>, V>)
    ensures SameHost(m, s.model)
    ensures !s.result.Panic? && s.freed.None?
    ensures s.result.Ok? <==> m.getStatus.Null?
    ensures s.result.Ok? ==> s.result.value == m.slot
    ensures s.result.Err? ==> Err(s.result.error) == Bridge.CheckErr(m.getStatus) && s.model == m
    ensures s.model.slot.Some? ==> s.model.slot == m.slot
    ensures s.model.slot.Some? <==> m.slot.Some? && (s.result.Err? || m.clearStatus.Ptr?)
  {
    match Bridge.CheckErr(m.getStatus)
    case Err(e) => Step(Err(e), m, None)
    case _ =>
      if m.slot.None? then Step(Ok(None), m, None)
      else Step(Ok(m.slot), if m.clearStatus.Null? then m.(slot := None) else m, None)
  }

  /**
    The discrepancy: on a host whose `ModelSetState(ptr, null)` fails, two
    successive `drop_data` calls both hand back the same stored object, so
    its owner is reclaimed twice.
   */
  lemma DropDataAsWrittenReclaimsTwice<V>(m: ModelObject<V>)
    requires m.getStatus.Null? && m.clearStatus.Ptr? && m.slot.Some?
    ensures DropDataAsWritten(m).result == Ok(m.slot)
    ensures DropDataAsWritten(DropDataAsWritten(m).model).result == Ok(m.slot)
  {
  }

  /** Take-once: after a successful `drop_data`, the next one finds the slot empty and changes nothing. */
  lemma {:induction false} DropDataTakesOnce<V>(m: ModelObject<V>)
    requires DropData(m).result.Ok?
    ensures DropData(DropData(m).model) == Step(Ok(None), DropData(m).model, None)
  {
    var m1 := DropData(m).model;
    assert m1.getStatus == m.getStatus && m1.slot.None?;
  }

  /**
    `set_data(x)` as written: `drop_data` (as written) runs first and its
    failure is returned with nothing stored; the box it hands back is dropped
    at once, freeing the old object; then `x` is handed to `ModelSetState`.
    Whether the clear inside `drop_data` worked plays no part: a failed
    clear followed by a failed store leaves the freed object in the slot.
   */
  function SetDataAsWritten<V>(m: ModelObject<V>, x: V): (s: Step<(), V>)
    ensures SameHost(m, s.model)
    ensures !s.result.Panic?
    ensures s.result.Ok? <==> m.getStatus.Null? && m.storeStatus.Null?
    ensures s.result.Ok? ==> s.model.slot == Some(x)
    ensures s.freed == (if m.getStatus.Null? then m.slot else None)
    ensures m.getStatus.Ptr? ==> s.model == m && Err(s.result.error) == Bridge.CheckErr(m.getStatus)
    ensures m.getStatus.Null? && m.storeStatus.Ptr? ==>
      && Err(s.result.error) == Bridge.CheckErr(m.storeStatus)
      && s.model.slot == (if m.clearStatus.Ptr? then m.slot else None)
  {
    var dropped := DropDataAsWritten(m);
    match dropped.result
    case Err(e) => Step(Err(e), dropped.model, None)
    case Panic(k) => Step(Panic(k), dropped.model, None)
    case Ok(previous) =>
      var cleared := dropped.model;
      match Bridge.CheckErr(cleared.storeStatus)
      case Err(e) => Step(Err(e), cleared, previous)
      case _ => Step(Ok(()), cleared.(slot := Some(x)), previous)
  }

  /**
    `set_data(x)` over the corrected `drop_data`: the old object is freed
    only after the host confirmed the slot is clear, so a freed object never
    stays in the slot; if the drop fails, nothing changes and nothing is freed.
   */
  function SetData<V>(m: ModelObject<V>, x: V): (s: Step<(), V>)
    ensures SameHost(m, s.model)
    ensures !s.result.Panic?
    ensures s.result.Ok? <==>
      m.getStatus.Null? && (m.slot.Some? ==> m.clearStatus.Null?) && m.storeStatus.Null?
    ensures s.result.Ok? ==> s.model.slot == Some(x)
    ensures s.freed == (if DropData(m).result.Ok? then m.slot else None)
    ensures s.freed.Some? ==> s.model.slot.None? || (s.result.Ok? && s.model.slot == Some(x))
    ensures !DropData(m).result.Ok? ==> s.model == m && s.result == DropData(m).result.PropagateFailure()
    ensures DropData(m).result.Ok? && m.storeStatus.Ptr? ==>
      s.model.slot.None? && Err(s.result.error) == Bridge.CheckErr(m.storeStatus)
  {
    var dropped := DropData(m);
    match dropped.result
    case Err(e) => Step(Err(e), dropped.model, None)
    case Panic(k) => Step(Panic(k), dropped.model, None)
    case Ok(previous) =>
      var cleared := dropped.model;
      match Bridge.CheckErr(cleared.storeStatus)
      case Err(e) => Step(Err(e), cleared, previous)
      case _ => Step(Ok(()), cleared.(slot := Some(x)), previous)
  }

  /**
    When the clear and the store get the same answer from the host, the
    code and the corrected version return the same result and leave the
    same slot. They still differ in what they free (see
    `SetDataAsWrittenLeavesFreedInSlot`).
   */
  lemma SetDataAgreesWhenStatusesAgree<V>(m: ModelObject<V>, x: V)
    requires m.clearStatus == m.storeStatus
    ensures SetDataAsWritten(m, x).result == SetData(m, x).result
    ensures SetDataAsWritten(m, x).model == SetData(m, x).model
  {
  }

  /**
    The discrepancy seen through `set_data`: on a host whose clear and store
    both fail, the code frees the old object yet leaves the slot pointing at
    it, where the next `data` or `drop_data` finds it again. The corrected
    version frees nothing.
   */
  lemma SetDataAsWrittenLeavesFreedInSlot<V>(m: ModelObject<V>, x: V)
    requires m.getStatus.Null? && m.slot.Some? && m.clearStatus.Ptr? && m.storeStatus.Ptr?
    ensures var s := SetDataAsWritten(m, x);
      s.result.Err? && s.freed == m.slot && s.model.slot == m.slot
    ensures SetData(m, x).freed.None? && SetData(m, x).model == m
  {
  }

  /**
    With a failing clear but a working store, the code reports success
    (the store overwrites the slot) where the corrected version reports the
    clear's error and keeps the old object.
   */
  lemma SetDataAsWrittenIgnoresFailedClear<V>(m: ModelObject<V>, x: V)
    requires m.getStatus.Null? && m.slot.Some? && m.clearStatus.Ptr? && m.storeStatus.Null?
    ensures SetDataAsWritten(m, x).result == Ok(()) && SetDataAsWritten(m, x).freed == m.slot
    ensures SetData(m, x).result.Err? && SetData(m, x).model == m
  {
  }

  /**
    `data::<D>()`: read the slot without changing it. The run-time type check
    compares `D` with itself, so it never fails and is not modelled as a branch.
   */
  function Data<V>(m: ModelObject<V>): (r: Res<Option<V>>)
    ensures r.Ok? <==> m.getStatus.Null?
    ensures r.Ok? ==> r.value == m.slot
    ensures r.Err? ==> Err(r.error) == Bridge.CheckErr(m.getStatus)
  {
    var _ :- Bridge.CheckErr(m.getStatus);
    Ok(m.slot)
  }

  /** What `set_data` stored is what `data` reads back. */
  lemma SetThenData<V>(m: ModelObject<V>, x: V)
    requires SetDataAsWritten(m, x).result.Ok?
    ensures Data(SetDataAsWritten(m, x).model) == Ok(Some(x))
  {
  }

  /**
    With the corrected slot operations, `drop_data` after `set_data` returns
    the stored object exactly once; on a host that refuses the clear it
    returns the clear's error and the object stays stored.
   */
  lemma SetThenDropTwice<V>(m: ModelObject<V>, x: V)
    requires SetData(m, x).result.Ok?
    ensures var m1 := SetData(m, x).model;
      m.clearStatus.Null? ==>
        DropData(m1).result == Ok(Some(x)) && DropData(DropData(m1).model).result == Ok(None)
    ensures var m1 := SetData(m, x).model;
      m.clearStatus.Ptr? ==>
        DropData(m1).result == Bridge.CheckErr(m.clearStatus).PropagateFailure() && DropData(m1).model == m1
  {
    var m1 := SetData(m, x).model;
    if m.clearStatus.Null? {
      DropDataTakesOnce(m1);
    }
  }
}
