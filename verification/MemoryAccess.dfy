/** Default-deny authorization of memory operations. */
module MemoryAccess {
  import opened JsText
  import opened ApprovalGate
  import opened Options

  datatype Role =
    | Director | TechWatchdog | IntegrationEngineer | BusinessAnalyst | MarketingStrategist | AiScout
    | PersonalAssistant | SecurityGuard

  datatype Access = Access(
    authenticated: bool, ownerId: Str, actorId: Str, correlationId: Str, role: Role, activeNamespace: Str,
    scope: Scope, channelId: Str, sessionId: Str)

  datatype Operation = QueryOp | ReadOp | WriteOp | DeleteOp

  datatype Denial =
    | MISSING_ACCESS_CONTEXT | INVALID_OPERATION_CONTEXT | OWNER_DENIED | NAMESPACE_ISOLATED
    | CROSS_PROJECT_NOT_PERMITTED | SECURITY_RESTRICTED | ROLE_NOT_PERMITTED

  datatype Authorization = Allowed | Denied(code: Denial)

  const RESTRICTED: Str := Ascii("security-restricted")
  const PERSONAL: Str := Ascii("personal")

  predicate MayWrite(r: Role) { r != AiScout }
  predicate MayDelete(r: Role) { r == Director || r == PersonalAssistant || r == SecurityGuard }

  predicate ContextIsComplete(a: Access) {
    a.ownerId != [] && a.actorId != [] && a.correlationId != [] && IsNamespace(a.activeNamespace)
    && IsNamespace(a.scope.primary) && a.scope.permitted != []
    && (forall i | 0 <= i < |a.scope.permitted| :: IsNamespace(a.scope.permitted[i]))
    && a.channelId != [] && a.sessionId != []
  }

  /** `live` is the verdict of validateOperationContext at the moment of the call. */
  function Authorize(a: Access, live: bool, op: Operation, ownerId: Str, namespace: Str): Authorization {
    if !a.authenticated then Denied(MISSING_ACCESS_CONTEXT)
    else if !ContextIsComplete(a) then Denied(MISSING_ACCESS_CONTEXT)
    else if !live then Denied(INVALID_OPERATION_CONTEXT)
    else if ownerId == [] || !IsNamespace(namespace) then Denied(MISSING_ACCESS_CONTEXT)
    else if ownerId != a.ownerId then Denied(OWNER_DENIED)
    else
      var isolated :=
        if namespace == RESTRICTED || a.activeNamespace == RESTRICTED then
          if a.role != SecurityGuard || namespace != RESTRICTED || a.activeNamespace != RESTRICTED
          then Some(SECURITY_RESTRICTED) else None
        else if namespace != a.activeNamespace then
          if namespace == PERSONAL || a.activeNamespace == PERSONAL then Some(NAMESPACE_ISOLATED)
          else if op == WriteOp || op == DeleteOp then Some(NAMESPACE_ISOLATED)
          else if !a.scope.crossProjectPermitted then Some(CROSS_PROJECT_NOT_PERMITTED)
          else if namespace !in a.scope.permitted then Some(CROSS_PROJECT_NOT_PERMITTED)
          else None
        else None;
      if isolated.Some? then Denied(isolated.value)
      else if op == WriteOp && !MayWrite(a.role) then Denied(ROLE_NOT_PERMITTED)
      else if op == DeleteOp && !MayDelete(a.role) then Denied(ROLE_NOT_PERMITTED)
      else Allowed
  }

  ghost predicate SoundRequest(a: Access, live: bool, ownerId: Str, namespace: Str) {
    a.authenticated && ContextIsComplete(a) && live && ownerId == a.ownerId && IsNamespace(namespace)
  }

  /** Mutations stay inside the active namespace, whatever the project scope permits. */
  lemma MutationAllowedExactly(a: Access, live: bool, op: Operation, ownerId: Str, namespace: Str)
    requires op == WriteOp || op == DeleteOp
    ensures Authorize(a, live, op, ownerId, namespace) == Allowed
       <==> SoundRequest(a, live, ownerId, namespace) && namespace == a.activeNamespace
            && (namespace == RESTRICTED ==> a.role == SecurityGuard)
            && (if op == WriteOp then MayWrite(a.role) else MayDelete(a.role))
  {
    hide IsNamespace, RESTRICTED, PERSONAL;
  }

  /** Reads cross namespaces only between non-isolated ones, with permission, inside the scope. */
  lemma ReadAllowedExactly(a: Access, live: bool, op: Operation, ownerId: Str, namespace: Str)
    requires op == QueryOp || op == ReadOp
    ensures Authorize(a, live, op, ownerId, namespace) == Allowed
       <==> SoundRequest(a, live, ownerId, namespace)
            && if namespace == a.activeNamespace then namespace == RESTRICTED ==> a.role == SecurityGuard
               else {namespace, a.activeNamespace} !! {RESTRICTED, PERSONAL}
                    && a.scope.crossProjectPermitted && namespace in a.scope.permitted
  {
    hide IsNamespace, RESTRICTED, PERSONAL;
  }

  /** Why a request is refused: each code with exactly the requests that get it. */
  lemma DeniedExactly(a: Access, live: bool, op: Operation, ownerId: Str, namespace: Str)
    ensures var r := Authorize(a, live, op, ownerId, namespace);
      var mutates := op == WriteOp || op == DeleteOp;
      var known := a.authenticated && ContextIsComplete(a) && live && ownerId != [] && IsNamespace(namespace);
      var owned := known && ownerId == a.ownerId;
      var restricted := namespace == Ascii("security-restricted") || a.activeNamespace == Ascii("security-restricted");
      var personal := namespace == Ascii("personal") || a.activeNamespace == Ascii("personal");
      var crosses := owned && !restricted && namespace != a.activeNamespace;
      (r == Denied(INVALID_OPERATION_CONTEXT) <==> a.authenticated && ContextIsComplete(a) && !live)
      && (r == Denied(MISSING_ACCESS_CONTEXT) <==>
            !a.authenticated || !ContextIsComplete(a) || (live && !(ownerId != [] && IsNamespace(namespace))))
      && (r == Denied(OWNER_DENIED) <==> known && !owned)
      && (r == Denied(SECURITY_RESTRICTED) <==>
            owned && restricted && (a.role != SecurityGuard || namespace != a.activeNamespace))
      && (r == Denied(NAMESPACE_ISOLATED) <==> crosses && (personal || mutates))
      && (r == Denied(CROSS_PROJECT_NOT_PERMITTED) <==>
            crosses && !personal && !mutates && !(a.scope.crossProjectPermitted && namespace in a.scope.permitted))
      && (r == Denied(ROLE_NOT_PERMITTED) <==>
            owned && namespace == a.activeNamespace && (restricted ==> a.role == SecurityGuard)
            && ((op == WriteOp && a.role == AiScout)
                || (op == DeleteOp && a.role != Director && a.role != PersonalAssistant && a.role != SecurityGuard)))
  {
    assert RESTRICTED == Ascii("security-restricted") && PERSONAL == Ascii("personal");
    hide IsNamespace, RESTRICTED, PERSONAL, ContextIsComplete, Ascii;
  }
}
