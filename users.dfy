/**
  Role-based tracking limits of a user account (models/user.py): how many
  ships a role may track and whether one more may be added. The number of
  ships the user already tracks is the result of a database count and is a
  parameter here.
*/
module Users {
  import opened Common
  import opened Text

  /** The tracking limit of the free plan. */
  const FreeLimit: nat := 5

  /** `get_tracking_limit`: `None` means unlimited. */
  function TrackingLimit(role: string): (r: Option<nat>)
    ensures r == None <==> role in {"company", "company_user", "admin"}
    ensures r == Some(FreeLimit) <==> role == "user"
    ensures r.Some? && role != "user" ==> r.value == 0
  {
    if role == "user" then Some(FreeLimit)
    else if role in ["company", "company_user"] then None
    else if role == "admin" then None
    else Some(0)
  }

  /** `can_track_ship`: the verdict and the message shown with it. */
  datatype Permission = Permission(allowed: bool, message: string)

  function CanTrackShip(role: string, currentCount: nat): (p: Permission)
    ensures role == "user" && p.allowed ==> p.message == "Can track " + IntToString(FreeLimit - currentCount) + " more ships"
  {
    if role == "admin" then Permission(true, "Admin has unlimited access")
    else if role == "company" then Permission(true, "Company has unlimited tracking")
    else if role == "company_user" then Permission(true, "Company user access")
    else if role == "user" then
      if currentCount >= FreeLimit then Permission(false, "Free users limited to 5 tracked ships")
      else Permission(true, "Can track " + IntToString(FreeLimit - currentCount) + " more ships")
    else Permission(false, "No tracking permission")
  }

  /** The two methods agree: one more ship may be tracked exactly when the
      role is unlimited or the count is below its limit. */
  lemma CanTrackAgreesWithLimit(role: string, currentCount: nat)
    ensures CanTrackShip(role, currentCount).allowed <==>
      match TrackingLimit(role)
      case None => true
      case Some(limit) => currentCount < limit
  {
  }

  /** A free user who may track one more has between 1 and 5 slots left,
      and the message names that number. */
  lemma RemainingSlots(currentCount: nat)
    requires CanTrackShip("user", currentCount).allowed
    ensures 1 <= FreeLimit - currentCount <= FreeLimit
    ensures ParseInt(CanTrackShip("user", currentCount).message[10..|CanTrackShip("user", currentCount).message| - 11])
      == Some(FreeLimit - currentCount)
  {
    var digits := IntToString(FreeLimit - currentCount);
    MiddleOf("Can track ", digits, " more ships");
    ParseIntToString(FreeLimit - currentCount);
  }

  /** The middle of a concatenation of three strings, cut by the lengths
      of the outer two. */
  lemma MiddleOf(prefix: string, middle: string, suffix: string)
    ensures (prefix + middle + suffix)[|prefix|..|prefix + middle + suffix| - |suffix|] == middle
  {
  }

  /** Any role outside the four known ones may track nothing. */
  lemma UnknownRoleTracksNothing(role: string, currentCount: nat)
    requires role !in {"user", "company", "company_user", "admin"}
    ensures TrackingLimit(role) == Some(0)
    ensures CanTrackShip(role, currentCount) == Permission(false, "No tracking permission")
  {
  }

  /** `can_track_ship` as written: for a free user it counts with
      `TrackedShip.query.filter_by(added_by_user_id=...)`, but the column of
      models/tracked_ship.py is `added_by_user`, so the query raises and no
      verdict comes back (`None`). Every other role answers without
      counting. */
  function CanTrackShipAsWritten(role: string, currentCount: nat): (r: Option<Permission>)
    ensures role != "user" ==> r == Some(CanTrackShip(role, currentCount))
  {
    if role == "user" then None else Some(CanTrackShip(role, currentCount))
  }

  /** As written, a free user never gets a verdict, though the tracking
      limit of the role is 5; counting by the user's own column, that user
      gets one, allowed exactly below the limit. */
  lemma FreeUserCountQuery(currentCount: nat)
    ensures CanTrackShipAsWritten("user", currentCount) == None
    ensures TrackingLimit("user") == Some(FreeLimit)
    ensures CanTrackShip("user", currentCount).allowed <==> currentCount < FreeLimit
  {
  }
}
