/**
 * `toGuard(...guardFns)(handler)` (src/decorators/to-guard.ts): a handler
 * that runs the guards one after another, answers 401 at the first one
 * that says no, answers with the error of the first one that throws, and
 * otherwise hands over to the wrapped handler.
 *
 * The wrapper is an `async` function: each `await guardFn()` hands control
 * back to whoever called the wrapper until the guard settles. The only
 * caller in the core, `processHandlers`, empties the context slot right
 * after that call returns (src/server.ts:108-110), which is why the wrapper
 * reinstalls the context it captured after every guard.
 */
module Guard {
  import opened Wrappers
  import opened Js
  import opened Host
  import opened Errors
  import opened Context
  import opened ReqRes
  import opened HttpResponse
  import opened Factory

  /**
   * What calling one guard comes to: it settles to true or false, it throws
   * before returning, or the promise it returns rejects.
   */
  datatype GuardOutcome = Allows | Denies | ThrowsNow(error: JsError) | Rejects(error: JsError)

  /** The guard the loop stops at: the first one that does not allow, or `|guards|` when all allow. */
  function FirstStop(guards: seq<GuardOutcome>): (k: nat)
    ensures k <= |guards|
    ensures forall j :: 0 <= j < k ==> guards[j].Allows?
    ensures k < |guards| ==> !guards[k].Allows?
  {
    if guards == [] || !guards[0].Allows? then 0 else 1 + FirstStop(guards[1..])
  }

  /** Guards after the one the loop stops at never run, so they make no difference. */
  lemma {:induction false} StopIgnoresLater(guards: seq<GuardOutcome>, more: seq<GuardOutcome>)
    requires FirstStop(guards) < |guards|
    ensures FirstStop(guards + more) == FirstStop(guards)
  {
    if guards[0].Allows? {
      assert (guards + more)[1..] == guards[1..] + more;
      StopIgnoresLater(guards[1..], more);
    }
  }

  /**
   * Whether the `catch` runs with the slot empty: the promise of the first
   * guard rejects, so no guard has reinstalled the context yet, and the
   * caller emptied the slot while the wrapper was waiting.
   */
  predicate LostContext(guards: seq<GuardOutcome>, cleared: bool) {
    cleared && |guards| > 0 && guards[0].Rejects?
  }

  /**
   * The wrapper answered with an error response whose body is `body`, or
   * with `null` when the request had already been answered.
   */
  predicate ErrorAnswer(r: Outcome, respondedBefore: bool, body: JsValue)
    reads if r.Returns? && r.value.ResponseValue? then {r.value.response} else {}
  {
    (respondedBefore ==> r == Returns(Plain(Null)))
    && (!respondedBefore ==>
          r.Returns? && r.value.ResponseValue?
          && r.value.response.renderer == HttpErrorRenderer && r.value.response.body == body
          && r.value.response.status == 0 && r.value.response.headers == [])
  }

  /** The body of the response a rejected request gets. */
  function UnauthorizedBody(h: Host): Props {
    ErrorBody(h, 401, Text(""))
  }

  /** The 401 body has exactly the fields `statusCode: 401`, `message: ''` and `error: 'Unauthorized'`. */
  lemma UnauthorizedBodyFields(h: Host)
    requires h.statusText(401) == Some("Unauthorized")
    ensures Keys(UnauthorizedBody(h)) == ["statusCode", "message", "error"]
    ensures Get(UnauthorizedBody(h), "statusCode") == Num(401)
    ensures Get(UnauthorizedBody(h), "message") == Str("")
    ensures Get(UnauthorizedBody(h), "error") == Str("Unauthorized")
  {
    ErrorBodyTextKeys(h, 401, "");
    ErrorBodyFields(h, 401, Text(""));
  }

  /**
   * The `for` loop over the guards up to the one it stops at, with the
   * `await` after each call and the reinstallation of the context after
   * each settled guard. The slot is left as the decisive step finds it.
   */
  method AwaitGuards(slot: HttpContextSlot, ctx: HttpContext, guards: seq<GuardOutcome>, cleared: bool)
    returns (k: nat)
    requires slot.current == Some(ctx)
    modifies slot
    ensures k == FirstStop(guards)
    ensures slot.current == if LostContext(guards, cleared) then None else Some(ctx)
  {
    k := 0;
    while k < |guards|
      invariant k <= |guards|
      invariant forall j :: 0 <= j < k ==> guards[j].Allows?
      invariant slot.current == Some(ctx)
    {
      var g := guards[k];
      if g.ThrowsNow? {
        return;
      }
      // the first `await` returns control to the caller, which may empty the slot
      if k == 0 && cleared {
        slot.Clear();
      }
      if g.Rejects? {
        return;
      }
      slot.RestoreCtx(ctx);
      if g.Denies? {
        return;
      }
      k := k + 1;
    }
  }

  /** `return createResponseFrom(new ProstoHttpError(401))`. */
  method Deny(slot: HttpContextSlot, h: Host) returns (r: Outcome)
    modifies if slot.current.Some? then {slot.current.value.custom} else {}
    ensures slot.current == old(slot.current)
    ensures slot.current.None? ==> r == Throws(Panic(OutsideRequest))
    ensures slot.current.Some? ==>
              var ctx := slot.current.value;
              ctx.custom.entries == UseIn(UseIn(old(ctx.custom.entries), Namespace.Response), Namespace.Status)
              && ErrorAnswer(r, old(HasResponded(ctx)), Obj(UnauthorizedBody(h)))
              && (!old(HasResponded(ctx)) ==> fresh(r.value.response))
  {
    var err := new ProstoHttpError(401);
    var x := CreateResponseFrom(slot, ErrorValue(HttpError(err)), h);
    r := OutcomeOf(x);
  }

  /**
   * The wrapped handler as written. Outside a request it throws the panic
   * of `useCurrentHttpContext`. Otherwise it stops at the first guard that
   * does not allow: a denial is answered 401, a throw with a response made
   * from the thrown error, and if every guard allows, the handler's own
   * outcome is passed on with the context reinstalled. When the first
   * guard's promise rejects after the caller emptied the slot, the `catch`
   * calls `createResponseFrom` outside any request, and the wrapper throws
   * that panic in place of answering with the guard's error.
   */
  method ToGuard(slot: HttpContextSlot, guards: seq<GuardOutcome>, handler: Outcome, cleared: bool, h: Host)
    returns (r: Outcome)
    modifies slot, if slot.current.Some? then {slot.current.value.custom} else {}
    ensures old(slot.current).None? ==> r == Throws(Panic(OutsideRequest)) && slot.current == None
    ensures old(slot.current).Some? && FirstStop(guards) == |guards| ==>
              var ctx := old(slot.current).value;
              r == handler && slot.current == Some(ctx) && ctx.custom.entries == old(ctx.custom.entries)
    ensures old(slot.current).Some? && FirstStop(guards) < |guards| && guards[FirstStop(guards)].Denies? ==>
              var ctx := old(slot.current).value;
              slot.current == Some(ctx)
              && ctx.custom.entries == UseIn(UseIn(old(ctx.custom.entries), Namespace.Response), Namespace.Status)
              && ErrorAnswer(r, old(HasResponded(ctx)), Obj(UnauthorizedBody(h)))
              && (!old(HasResponded(ctx)) ==> fresh(r.value.response))
    ensures old(slot.current).Some? && LostContext(guards, cleared) ==>
              var ctx := old(slot.current).value;
              r == Throws(Panic(OutsideRequest)) && slot.current == None
              && ctx.custom.entries == old(ctx.custom.entries)
    ensures old(slot.current).Some? && FirstStop(guards) < |guards| && !guards[FirstStop(guards)].Denies?
            && !LostContext(guards, cleared) ==>
              var ctx := old(slot.current).value;
              var e := guards[FirstStop(guards)].error;
              slot.current == Some(ctx)
              && ctx.custom.entries == UseIn(UseIn(old(ctx.custom.entries), Namespace.Response), Namespace.Status)
              && ErrorAnswer(r, old(HasResponded(ctx)), Obj(ErrorResponseBody(h, e)))
              && (!old(HasResponded(ctx)) ==> fresh(r.value.response))
  {
    var c := slot.UseCurrentHttpContext();
    if c.Failure? {
      return Throws(c.error);
    }
    var ctx := c.value;
    var k := AwaitGuards(slot, ctx, guards, cleared);
    if k == |guards| {
      slot.RestoreCtx(ctx);
      return handler;
    }
    if guards[k].Denies? {
      r := Deny(slot, h);
    } else {
      // the `catch`: the slot is as the guard left it
      var x := CreateResponseFrom(slot, ErrorValue(guards[k].error), h);
      r := OutcomeOf(x);
    }
  }

  /**
   * The wrapped handler with the context reinstalled at the head of the
   * `catch`, as it is after a settled guard: every guard that throws, early
   * or late, is answered with a response made from its error, whatever the
   * caller did to the slot meanwhile.
   */
  method ToGuardRestored(slot: HttpContextSlot, guards: seq<GuardOutcome>, handler: Outcome, cleared: bool, h: Host)
    returns (r: Outcome)
    modifies slot, if slot.current.Some? then {slot.current.value.custom} else {}
    ensures old(slot.current).None? ==> r == Throws(Panic(OutsideRequest)) && slot.current == None
    ensures old(slot.current).Some? && FirstStop(guards) == |guards| ==>
              var ctx := old(slot.current).value;
              r == handler && slot.current == Some(ctx) && ctx.custom.entries == old(ctx.custom.entries)
    ensures old(slot.current).Some? && FirstStop(guards) < |guards| && guards[FirstStop(guards)].Denies? ==>
              var ctx := old(slot.current).value;
              slot.current == Some(ctx)
              && ctx.custom.entries == UseIn(UseIn(old(ctx.custom.entries), Namespace.Response), Namespace.Status)
              && ErrorAnswer(r, old(HasResponded(ctx)), Obj(UnauthorizedBody(h)))
              && (!old(HasResponded(ctx)) ==> fresh(r.value.response))
    ensures old(slot.current).Some? && FirstStop(guards) < |guards| && !guards[FirstStop(guards)].Denies? ==>
              var ctx := old(slot.current).value;
              var e := guards[FirstStop(guards)].error;
              slot.current == Some(ctx)
              && ctx.custom.entries == UseIn(UseIn(old(ctx.custom.entries), Namespace.Response), Namespace.Status)
              && ErrorAnswer(r, old(HasResponded(ctx)), Obj(ErrorResponseBody(h, e)))
              && (!old(HasResponded(ctx)) ==> fresh(r.value.response))
  {
    var c := slot.UseCurrentHttpContext();
    if c.Failure? {
      return Throws(c.error);
    }
    var ctx := c.value;
    var k := AwaitGuards(slot, ctx, guards, cleared);
    if k == |guards| {
      slot.RestoreCtx(ctx);
      return handler;
    }
    if guards[k].Denies? {
      r := Deny(slot, h);
    } else {
      slot.RestoreCtx(ctx);
      var x := CreateResponseFrom(slot, ErrorValue(guards[k].error), h);
      r := OutcomeOf(x);
    }
  }
}
