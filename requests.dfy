/** The guards the handlers run on the request before touching the store:
    reading the authenticated user from `c.Locals("userID")`, and the guard
    chain that the like and unlike handlers share. */
module Requests {
  import opened Http
  import opened Models
  import Strconv

  /** The outcome of `userIDInterface := c.Locals("userID")` followed by
      `userID, ok := userIDInterface.(uint)` and the check `!ok || userID == 0`. */
  datatype Caller = Anonymous | Malformed | Caller(id: nat)

  function CallerOf(l: Local): (c: Caller)
    ensures c.Anonymous? <==> l.Unset?
    ensures c.Caller? <==> l.UIntVal? && l.n > 0
    ensures c.Caller? ==> c.id == l.n
  {
    match l
    case Unset => Anonymous
    case UIntVal(n) => if n == 0 then Malformed else Caller(n)
    case StrVal(_) => Malformed
  }

  /** The status a handler answers when there is no usable caller: 401 for
      a missing one, 400 for one that is not a positive `uint`. */
  function CallerRefusal(c: Caller): (status: int)
    requires !c.Caller?
    ensures status == UNAUTHORIZED <==> c.Anonymous?
    ensures status == UNAUTHORIZED || status == BAD_REQUEST
  {
    if c.Anonymous? then UNAUTHORIZED else BAD_REQUEST
  }

  /** The first three guards of LikePost, UnlikePost, LikeComment and
      UnlikeComment: either the status they stop with, or the (user, target)
      pair the rest of the handler works on. */
  datatype LikeRequest = Refused(status: int) | Pair(like: Like)

  function LikeRequestOf(ctx: Local, idParam: string): (r: LikeRequest)
    ensures r.Refused? ==> r.status == UNAUTHORIZED || r.status == BAD_REQUEST
  {
    var caller := CallerOf(ctx);
    if !caller.Caller? then Refused(CallerRefusal(caller))
    else
      match Strconv.ParseUint32(idParam)
      case Parsed(t) => Pair(Like(caller.id, t))
      case Failed(_) => Refused(BAD_REQUEST)
  }

  /** The guards let a request through exactly when the caller is a positive
      `uint` and the path id is a decimal of at most 2^32 - 1; the pair is
      then that caller and that id. A missing caller is 401, every other
      refusal 400. */
  lemma LikeRequestMeaning(ctx: Local, idParam: string)
    ensures LikeRequestOf(ctx, idParam).Pair? <==>
            ctx.UIntVal? && ctx.n > 0 && idParam != [] && Strconv.AllDigits(idParam) &&
            Strconv.Decimal(idParam) <= Strconv.MaxUint32
    ensures LikeRequestOf(ctx, idParam).Pair? ==>
            LikeRequestOf(ctx, idParam).like == Like(ctx.n, Strconv.Decimal(idParam))
    ensures LikeRequestOf(ctx, idParam) == Refused(UNAUTHORIZED) <==> ctx.Unset?
  {
    Strconv.ParseUintMeaning(idParam, Strconv.MaxUint32);
  }
}
