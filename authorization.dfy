/**
 * The owner/admin gate in front of the edit-form and delete handlers. The
 * acting user comes from the per-request render context: `ownerID` is the
 * id of the restaurant the user owns (absent, `undefined`, for a user who
 * owns none) and `admin` marks administrators.
 */
module Authorization {
  import opened Optional
  import opened Decimal

  datatype SessionUser = SessionUser(ownerID: Option<nat>, admin: bool)

  /** The JavaScript values the gate compares: route parameters are strings,
      `parseInt` yields a number or NaN, a missing `ownerID` is undefined. */
  datatype JsValue = JsNumber(n: int) | JsString(s: string) | NaN | Undefined

  /** `a === b`: same type and same value; NaN equals nothing. */
  predicate StrictEquals(a: JsValue, b: JsValue) {
    !a.NaN? && a == b
  }

  /** `parseInt(s)` as a JavaScript value. */
  function ParseIntValue(s: string): JsValue {
    match ParseInt(s)
    case None => NaN
    case Some(n) => JsNumber(n)
  }

  /** The user's `ownerID` as a JavaScript value. */
  function OwnerValue(user: SessionUser): JsValue {
    match user.ownerID
    case None => Undefined
    case Some(id) => JsNumber(id)
  }

  /** The rule both handlers mean to enforce: the user owns the restaurant
      or is an administrator. */
  predicate MayMutate(restaurantId: nat, user: SessionUser) {
    user.ownerID == Some(restaurantId) || user.admin
  }

  /** The edit-form check as written: the raw string parameter is compared
      with `===` to `ownerID`, a number or undefined, which never holds, so
      only administrators get through. */
  function EditGateAsWritten(param: string, user: SessionUser): (allowed: bool)
    ensures allowed == user.admin
  {
    StrictEquals(JsString(param), OwnerValue(user)) || user.admin
  }

  /** What a guarded handler does: run its query, or redirect to the
      listing without touching the store. */
  datatype Decision = Proceed | RedirectToListing

  /** The delete check, which parses the parameter before comparing; the
      model uses it for the edit form too, as the corrected check. */
  function Guard(param: string, user: SessionUser): (d: Decision)
    ensures d == Proceed <==> user.admin || (user.ownerID.Some? && ParseInt(param) == user.ownerID)
    ensures d == RedirectToListing <==> !user.admin && (user.ownerID.None? || ParseInt(param) != user.ownerID)
  {
    if StrictEquals(ParseIntValue(param), OwnerValue(user)) || user.admin then Proceed
    else RedirectToListing
  }

  /** For a parameter that spells a restaurant id in decimal, with or
      without leading zeros, the guard lets the request through exactly
      when the user may mutate that restaurant. */
  lemma GuardMatchesOwnership(zeros: nat, id: nat, user: SessionUser)
    ensures Guard(Zeros(zeros) + Show(id), user) == Proceed <==> MayMutate(id, user)
  {
    ParseIntLeadingZeros(zeros, id, []);
    assert Zeros(zeros) + Show(id) + [] == Zeros(zeros) + Show(id);
  }

  /** An administrator always proceeds; a non-administrator whose `ownerID`
      is another id, or who owns no restaurant, is always redirected. */
  lemma AdminProceedsOthersRedirected(id: nat, user: SessionUser)
    ensures user.admin ==> Guard(Show(id), user) == Proceed
    ensures !user.admin && user.ownerID != Some(id) ==> Guard(Show(id), user) == RedirectToListing
  {
    ParseIntShow(id);
  }

  /** A user who owns no restaurant gets past the guard, whatever the
      parameter, exactly when they are an administrator. */
  lemma NoOwnerOnlyAdmin(param: string, user: SessionUser)
    requires user.ownerID.None?
    ensures Guard(param, user) == Proceed <==> user.admin
  {
  }

  /** The owner of restaurant 3, not an administrator, opens
      `/restaurants/3/edit`: the check as written redirects them, the
      corrected check lets them in. */
  lemma EditGateAsWrittenRejectsOwner()
    ensures !EditGateAsWritten("3", SessionUser(Some(3), false))
    ensures Guard("3", SessionUser(Some(3), false)) == Proceed
  {
    ParseIntShow(3);
    assert Show(3) == "3";
  }
}
