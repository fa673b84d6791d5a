/**
 * The like button's client state. A status fetch copies the server's answer; a click sends a
 * toggle (unless one is still in flight) and then adjusts the shown count by one from the
 * server's `liked` answer instead of re-reading the count.
 */
module LikeButton {
  import opened Wrappers
  import opened Seqs
  import opened Http
  import opened Db
  import opened LikesRoute

  /**
   * What the toggle request yields on the client: the `{liked}` body, an error body (with no
   * `liked` field, which reads as `undefined`), or nothing at all (the fetch or the JSON
   * parse threw).
   */
  datatype ToggleAnswer = LikedBody(liked: bool) | ErrorBody | NoAnswer

  /** The body the client receives for a response of the toggle handler. */
  function AnswerOf(resp: Response<ToggleReply>): (r: ToggleAnswer)
    ensures r != NoAnswer
    ensures r.LikedBody? <==> resp.Reply?
    ensures r.LikedBody? ==> r.liked == resp.body.liked
  {
    match resp
    case Reply(_, body) => LikedBody(body.liked)
    case Failure(_) => ErrorBody
  }

  /** `setLiked(data.liked)`: an error body leaves `undefined`, which renders as not liked. */
  function NextLiked(liked: bool, answer: ToggleAnswer): (r: bool)
    ensures answer.LikedBody? ==> r == answer.liked
    ensures answer.ErrorBody? ==> !r
    ensures answer.NoAnswer? ==> r == liked
  {
    match answer
    case LikedBody(b) => b
    case ErrorBody => false
    case NoAnswer => liked
  }

  /** `setLikeCount(prev => data.liked ? prev + 1 : prev - 1)`, skipped when nothing arrived. */
  function NextCount(count: int, answer: ToggleAnswer): (r: int)
    ensures answer.LikedBody? && answer.liked ==> r == count + 1
    ensures answer.LikedBody? && !answer.liked ==> r == count - 1
    ensures answer.ErrorBody? ==> r == count - 1
    ensures answer.NoAnswer? ==> r == count
  {
    match answer
    case LikedBody(b) => if b then count + 1 else count - 1
    case ErrorBody => count - 1
    case NoAnswer => count
  }

  /**
   * The client mirror stays in step with the server: when the shown state matched the table
   * before a successful toggle, it matches the table after it.
   */
  lemma MirrorAfterToggle(rows: seq<LikeRow>, postId: int, ip: string)
    requires NoDuplicates(rows)
    ensures var answer := AnswerOf(Reply(OK, ToggleReply(!HasLiked(rows, postId, ip))));
            var after := Toggle(rows, postId, ip);
            && NextLiked(HasLiked(rows, postId, ip), answer) == HasLiked(after, postId, ip)
            && NextCount(LikeCount(rows, postId), answer) == LikeCount(after, postId)
  {
    ToggleFlips(rows, postId, ip);
    ToggleCount(rows, postId, ip);
  }

  /** A refused toggle (400 or 500) changes no row, yet the shown count drops by one. */
  lemma RefusedToggleLowersCount(count: int, status: nat)
    ensures NextCount(count, AnswerOf(Failure(status))) == count - 1
  {
  }

  class LikeButtonState {
    var liked: bool
    var likeCount: int
    var loading: bool

    constructor ()
      ensures !liked && likeCount == 0 && !loading
    {
      liked, likeCount, loading := false, 0, false;
    }

    /**
     * `fetchLikeStatus`: the answer's flag and count replace the shown ones; a failed fetch
     * (`None`) changes nothing.
     */
    method ReceiveStatus(status: Option<LikeStatus>)
      modifies this
      ensures status.Some? ==> liked == status.value.liked && likeCount == status.value.count
      ensures status.None? ==> liked == old(liked) && likeCount == old(likeCount)
      ensures loading == old(loading)
    {
      if status.Some? {
        liked := status.value.liked;
        likeCount := status.value.count;
      }
    }

    /** The start of `toggleLike`: a click while a toggle is in flight does nothing. */
    method BeginToggle() returns (sent: bool)
      modifies this
      ensures sent == !old(loading)
      ensures loading
      ensures liked == old(liked) && likeCount == old(likeCount)
    {
      if loading {
        return false;
      }
      loading := true;
      sent := true;
    }

    /** The end of `toggleLike`: apply the answer, then clear `loading` whatever happened. */
    method FinishToggle(answer: ToggleAnswer)
      requires loading
      modifies this
      ensures liked == NextLiked(old(liked), answer)
      ensures likeCount == NextCount(old(likeCount), answer)
      ensures !loading
    {
      if answer != NoAnswer {
        liked := answer.LikedBody? && answer.liked;
        likeCount := if answer.LikedBody? && answer.liked then likeCount + 1 else likeCount - 1;
      }
      loading := false;
    }
  }
}
