/**
  The `Backend` trait and the `declare_backend!` shim. A plugin is a record
  of hooks: six optional ones, where `None` stands for the trait's default
  body, and the mandatory batched execute hook. One generic function,
  `Enter`, plays the seven `extern "C"` entry points the macro generates,
  and `CallChecked` is `call_checked!`, the single place where a hook's
  outcome becomes the nullable error handle the host sees.
 */
module Backend {
  import opened Native
  import Bridge

  /** What `Model::from_ptr` builds: a wrapper holding the host's model pointer. */
  datatype ModelHandle = ModelHandle(ptr: nat)

  /** What `Request::from_ptr` builds: a wrapper holding one request pointer. */
  datatype RequestHandle = RequestHandle(ptr: nat)

  type Hook = () -> Res<()>
  type ModelHook = ModelHandle -> Res<()>
  type ExecuteHook = (ModelHandle, seq<RequestHandle>) -> Res<()>

  /** An implementation of the trait. A `None` hook is one the implementor did not override. */
  datatype Backend = Backend(
    initialize: Option<Hook>,
    finalize: Option<Hook>,
    modelInitialize: Option<ModelHook>,
    modelFinalize: Option<ModelHook>,
    instanceInitialize: Option<Hook>,
    instanceFinalize: Option<Hook>,
    execute: ExecuteHook)

  /** The trait's default body, shared by all six optional hooks. */
  function DefaultHook(): Res<()> {
    Ok(())
  }

  function RunHook(hook: Option<Hook>): Res<()> {
    match hook
    case Some(h) => h()
    case None => DefaultHook()
  }

  function RunModelHook(hook: Option<ModelHook>, model: ModelHandle): Res<()> {
    match hook
    case Some(h) => h(model)
    case None => DefaultHook()
  }

  /** A call the host makes into the plugin library, with the raw arguments it passes. */
  datatype EntryPoint =
    | BackendInitialize(backend: nat)
    | BackendFinalize(backend: nat)
    | ModelInitialize(model: nat)
    | ModelFinalize(model: nat)
    | ModelInstanceInitialize(instance: nat)
    | ModelInstanceFinalize(instance: nat)
    | ModelInstanceExecute(instance: nat, requests: seq<nat>, requestCount: u32)

  /** The host promises that the request array holds at least `request_count` pointers. */
  predicate ValidEntry(ep: EntryPoint) {
    ep.ModelInstanceExecute? ==> ep.requestCount <= |ep.requests|
  }

  /** The host's answer to `TRITONBACKEND_ModelInstanceModel` for each instance pointer. */
  datatype Host = Host(instanceModel: nat -> Native<nat>)

  /** How an entry point ends: a returned error pointer, or a panic unwinding out of it. */
  datatype Boundary = Returns(ptr: ErrorPtr) | Aborts(kind: PanicKind)

  /** The arguments a hook was invoked with. */
  datatype Invocation = Invocation(model: Option<ModelHandle>, requests: seq<RequestHandle>)

  /** What one entry-point call did: which hook invocation happened, if any, and what it returned. */
  datatype Entered = Entered(invoked: Option<Invocation>, returned: Boundary)

  /**
    `call_checked!`: success becomes the null pointer; an `Err` becomes a
    freshly created `TRITONSERVER_ERROR_INTERNAL` error carrying the error's
    text, unless that text holds a NUL byte, on which `CString::new(..)
    .expect(..)` panics. A panic in the hook itself unwinds through unchanged.
   */
  function CallChecked<T>(res: Res<T>): (b: Boundary)
    ensures b == Returns(Null) <==> res.Ok?
    ensures b.Returns? && b.ptr.Ptr? <==> res.Err? && !HasNul(res.error.message)
    ensures b.Returns? && b.ptr.Ptr? ==>
      b.ptr.error.code == ERROR_INTERNAL && b.ptr.error.message == res.error.message
    ensures res.Panic? ==> b == Aborts(res.kind)
    ensures res.Err? && HasNul(res.error.message) ==> b == Aborts(InteriorNul)
  {
    match res
    case Ok(_) => Returns(Null)
    case Err(e) => if HasNul(e.message) then Aborts(InteriorNul) else Returns(Ptr(NativeError(ERROR_INTERNAL, e.message)))
    case Panic(k) => Aborts(k)
  }

  /** The request wrappers built from the first `count` entries of the host's array, in array order. */
  function WrapRequests(ptrs: seq<nat>, count: nat): (r: seq<RequestHandle>)
    requires count <= |ptrs|
    ensures |r| == count
    ensures forall k :: 0 <= k < count ==> r[k].ptr == ptrs[k]
  {
    if count == 0 then [] else WrapRequests(ptrs, count - 1) + [RequestHandle(ptrs[count - 1])]
  }

  /**
    The entry points `declare_backend!` generates. The backend and instance
    pointers are ignored; the model entry points hand the hook a wrapper of
    the pointer they were given. Execute first asks the host for the
    instance's model; if that fails, the host's own error pointer is returned
    untouched and no hook runs.
   */
  function Enter(b: Backend, host: Host, ep: EntryPoint): (r: Entered)
    requires ValidEntry(ep)
    ensures r.invoked.None? <==>
      ep.ModelInstanceExecute? && host.instanceModel(ep.instance).Failed?
    ensures r.invoked.None? ==> r.returned == Returns(Ptr(host.instanceModel(ep.instance).error))
    ensures (ep.ModelInitialize? || ep.ModelFinalize?) ==>
      r.invoked == Some(Invocation(Some(ModelHandle(ep.model)), []))
    ensures ep.ModelInstanceExecute? && r.invoked.Some? ==>
      && r.invoked.value.model == Some(ModelHandle(host.instanceModel(ep.instance).value))
      && |r.invoked.value.requests| == ep.requestCount
      && forall k :: 0 <= k < ep.requestCount ==> r.invoked.value.requests[k].ptr == ep.requests[k]
  {
    match ep
    case BackendInitialize(_) => Entered(Some(Invocation(None, [])), CallChecked(RunHook(b.initialize)))
    case BackendFinalize(_) => Entered(Some(Invocation(None, [])), CallChecked(RunHook(b.finalize)))
    case ModelInitialize(m) =>
      var model := ModelHandle(m);
      Entered(Some(Invocation(Some(model), [])), CallChecked(RunModelHook(b.modelInitialize, model)))
    case ModelFinalize(m) =>
      var model := ModelHandle(m);
      Entered(Some(Invocation(Some(model), [])), CallChecked(RunModelHook(b.modelFinalize, model)))
    case ModelInstanceInitialize(_) =>
      Entered(Some(Invocation(None, [])), CallChecked(RunHook(b.instanceInitialize)))
    case ModelInstanceFinalize(_) =>
      Entered(Some(Invocation(None, [])), CallChecked(RunHook(b.instanceFinalize)))
    case ModelInstanceExecute(instance, ptrs, count) =>
      match host.instanceModel(instance)
      case Failed(err) => Entered(None, Returns(Ptr(err)))
      case Returned(m) =>
        var model := ModelHandle(m);
        var requests := WrapRequests(ptrs, count);
        Entered(Some(Invocation(Some(model), requests)), CallChecked(b.execute(model, requests)))
  }

  /** The outcome the hook an entry point dispatches to produced, given the arguments it received. */
  function HookOutcome(b: Backend, ep: EntryPoint, inv: Invocation): Res<()> {
    match ep
    case BackendInitialize(_) => RunHook(b.initialize)
    case BackendFinalize(_) => RunHook(b.finalize)
    case ModelInitialize(_) => RunModelHook(b.modelInitialize, inv.model.GetOr(ModelHandle(0)))
    case ModelFinalize(_) => RunModelHook(b.modelFinalize, inv.model.GetOr(ModelHandle(0)))
    case ModelInstanceInitialize(_) => RunHook(b.instanceInitialize)
    case ModelInstanceFinalize(_) => RunHook(b.instanceFinalize)
    case ModelInstanceExecute(_, _, _) => b.execute(inv.model.GetOr(ModelHandle(0)), inv.requests)
  }

  /** Whenever a hook runs, the entry point returns exactly `call_checked!` of that hook's outcome. */
  lemma EnterReturnsCheckedHook(b: Backend, host: Host, ep: EntryPoint)
    requires ValidEntry(ep)
    ensures Enter(b, host, ep).invoked.Some? ==>
      Enter(b, host, ep).returned == CallChecked(HookOutcome(b, ep, Enter(b, host, ep).invoked.value))
  {
  }

  /** Which hook implementations an entry point consults: the others cannot change what it does. */
  ghost predicate SameHookFor(b1: Backend, b2: Backend, ep: EntryPoint) {
    match ep
    case BackendInitialize(_) => b1.initialize == b2.initialize
    case BackendFinalize(_) => b1.finalize == b2.finalize
    case ModelInitialize(_) => b1.modelInitialize == b2.modelInitialize
    case ModelFinalize(_) => b1.modelFinalize == b2.modelFinalize
    case ModelInstanceInitialize(_) => b1.instanceInitialize == b2.instanceInitialize
    case ModelInstanceFinalize(_) => b1.instanceFinalize == b2.instanceFinalize
    case ModelInstanceExecute(_, _, _) => b1.execute == b2.execute
  }

  /**
    Each entry point depends on its own hook only, and an execute whose model
    lookup fails does not depend on the backend at all.
   */
  lemma EnterUsesOnlyItsHook(b1: Backend, b2: Backend, host: Host, ep: EntryPoint)
    requires ValidEntry(ep)
    requires SameHookFor(b1, b2, ep) ||
      (ep.ModelInstanceExecute? && host.instanceModel(ep.instance).Failed?)
    ensures Enter(b1, host, ep) == Enter(b2, host, ep)
  {
  }

  /** The backend and instance pointers the host passes are never looked at. */
  lemma EnterIgnoresBackendAndInstance(b: Backend, host: Host, x: nat, y: nat)
    ensures Enter(b, host, BackendInitialize(x)) == Enter(b, host, BackendInitialize(y))
    ensures Enter(b, host, BackendFinalize(x)) == Enter(b, host, BackendFinalize(y))
    ensures Enter(b, host, ModelInstanceInitialize(x)) == Enter(b, host, ModelInstanceInitialize(y))
    ensures Enter(b, host, ModelInstanceFinalize(x)) == Enter(b, host, ModelInstanceFinalize(y))
  {
  }

  /** An implementation that overrides only the mandatory execute hook. */
  function WithDefaults(execute: ExecuteHook): (b: Backend)
    ensures b.execute == execute
    ensures forall host: Host, ep: EntryPoint ::
      ValidEntry(ep) && !ep.ModelInstanceExecute? ==> Enter(b, host, ep).returned == Returns(Null)
  {
    Backend(None, None, None, None, None, None, execute)
  }

  /**
    The two halves of the bridge together: a hook's success is seen as
    success by `check_err`, and its failure as a failure carrying the
    internal code; the error object itself keeps the hook's message.
   */
  lemma CheckErrOfCallChecked<T>(res: Res<T>)
    requires !res.Panic?
    requires res.Err? ==> !HasNul(res.error.message)
    ensures CallChecked(res).Returns?
    ensures Bridge.CheckErr(CallChecked(res).ptr).Ok? <==> res.Ok?
    ensures res.Err? ==>
      Bridge.CheckErr(CallChecked(res).ptr) == Err(Error(Bridge.CodeMessage(ERROR_INTERNAL)))
  {
  }
}
