/** The inventory permission: an ordered chain of checks in which the first
    failing check chooses the denial message. */
module InventoryAccess {
  import opened Wrappers
  import opened Accounts

  datatype Requester = Anonymous | Authenticated(user: UserId)

  datatype Decision = Grant | Deny(message: string)

  /** The class-level message, left in place when the first check fails. */
  const DefaultMessage := "Your license does not include access to the Inventory App."
  const NoKeyMessage := "No license key found associated with this account."
  const PlanMessage := "Your current plan does not support Inventory features."
  const ExpiredMessage := "Your license key has expired."

  /** `HasInventoryAccess.has_permission`, with the key table and the clock
      reading passed in. */
  function HasInventoryAccess(req: Requester, store: KeyStore, now: Time): (d: Decision)
    requires OneKeyPerUser(store)
    ensures d.Deny? ==> d.message in {DefaultMessage, NoKeyMessage, PlanMessage, ExpiredMessage}
  {
    match req
    case Anonymous => Deny(DefaultMessage)
    case Authenticated(u) =>
      match KeyOf(store, u)
      case None => Deny(NoKeyMessage)
      case Some(k) =>
        if !store[k].allowInventory then Deny(PlanMessage)
        else if !IsValid(store[k], now) then Deny(ExpiredMessage)
        else Grant
  }

  /** One link of a check chain: whether it passes and what it says if not. */
  datatype Check = Check(passes: bool, message: string)

  /** A chain of checks run in order: the first failing one denies with its
      message, and access is granted when none fails. */
  function FirstFailure(checks: seq<Check>): (d: Decision)
    ensures d == Grant <==> forall i :: 0 <= i < |checks| ==> checks[i].passes
    ensures d.Deny? ==> exists i :: 0 <= i < |checks| && !checks[i].passes && d.message == checks[i].message
                                    && forall j :: 0 <= j < i ==> checks[j].passes
  {
    if |checks| == 0 then Grant
    else if !checks[0].passes then Deny(checks[0].message)
    else
      var rest := FirstFailure(checks[1..]);
      if rest.Deny? then
        assert forall i :: 0 < i < |checks| ==> checks[i] == checks[1..][i - 1];
        rest
      else rest
  }

  /** The four conditions of the permission in their fixed order, each read
      as it stands once the conditions before it hold. */
  function AccessChecks(req: Requester, store: KeyStore, now: Time): seq<Check>
    requires OneKeyPerUser(store)
  {
    var key := if req.Authenticated? then KeyOf(store, req.user) else None;
    [ Check(req.Authenticated?, DefaultMessage),
      Check(req.Anonymous? || key.Some?, NoKeyMessage),
      Check(key.None? || store[key.value].allowInventory, PlanMessage),
      Check(key.None? || IsValid(store[key.value], now), ExpiredMessage) ]
  }

  /** The permission is exactly the chain run in order: the denial message is
      always the one of the first failing check. */
  lemma PermissionIsFirstFailure(req: Requester, store: KeyStore, now: Time)
    requires OneKeyPerUser(store)
    ensures HasInventoryAccess(req, store, now) == FirstFailure(AccessChecks(req, store, now))
  {
    var c := AccessChecks(req, store, now);
    assert FirstFailure(c[4..]) == Grant;
    assert c[3..][1..] == c[4..];
    assert c[2..][1..] == c[3..];
    assert c[1..][1..] == c[2..];
    assert FirstFailure(c[3..]) == if c[3].passes then Grant else Deny(c[3].message);
    assert FirstFailure(c[2..]) == if c[2].passes then FirstFailure(c[3..]) else Deny(c[2].message);
    assert FirstFailure(c[1..]) == if c[1].passes then FirstFailure(c[2..]) else Deny(c[1].message);
  }

  /** A user is entitled to inventory features when signed in, holding a key
      that includes the inventory feature and is inside its validity window. */
  predicate Entitled(req: Requester, store: KeyStore, now: Time)
    requires OneKeyPerUser(store)
  {
    && req.Authenticated?
    && OwnsKey(store, req.user)
    && var k := KeyOf(store, req.user).value;
       store[k].allowInventory && IsValid(store[k], now)
  }

  /** Access is granted exactly to entitled users. */
  lemma GrantIffEntitled(req: Requester, store: KeyStore, now: Time)
    requires OneKeyPerUser(store)
    ensures HasInventoryAccess(req, store, now) == Grant <==> Entitled(req, store, now)
  {
  }

  /** A key without the inventory feature is refused with the plan message,
      whatever its validity: the plan is checked before expiry. */
  lemma PlanCheckedBeforeExpiry(u: UserId, store: KeyStore, now: Time)
    requires OneKeyPerUser(store)
    requires OwnsKey(store, u) && !store[KeyOf(store, u).value].allowInventory
    ensures HasInventoryAccess(Authenticated(u), store, now) == Deny(PlanMessage)
  {
  }
}
