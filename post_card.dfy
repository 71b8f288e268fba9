/** The post card's own state: the liked flag and the like counter it shows,
    the comments list it has loaded, and the comment draft. The store's
    comments on the post are held in memory; each store call takes an
    explicit success flag, and a failed call leaves the card as it was from
    that point on. */
module Posts {
  import opened Common
  import opened JsText

  type PostId = string

  /** A row of the `comments` table, as far as the card is concerned. */
  datatype Comment = Comment(userId: UserId, postId: PostId, content: string)

  /** The liked flag together with the counter shown beside it. */
  datatype LikeState = LikeState(liked: bool, count: int)

  /** The count with this user's own like taken out. */
  function OthersLikes(s: LikeState): int
  {
    if s.liked then s.count - 1 else s.count
  }

  /** One successful like or unlike: the flag flips and the counter moves by
      one in the same direction, so the likes of everyone else are kept. */
  function Toggled(s: LikeState): (t: LikeState)
    ensures t.liked != s.liked
    ensures OthersLikes(t) == OthersLikes(s)
  {
    if s.liked then LikeState(false, s.count - 1) else LikeState(true, s.count + 1)
  }

  /** Two successful toggles restore both the flag and the counter. */
  lemma ToggleTwiceRestores(s: LikeState)
    ensures Toggled(Toggled(s)) == s
  {
  }

  /** What `loadComments` leaves in the list: a list that is already
      non-empty is kept; otherwise a successful fetch replaces it. */
  function AfterLoad(shown: seq<Comment>, stored: seq<Comment>, ok: bool): (r: seq<Comment>)
    ensures |shown| > 0 ==> r == shown
    ensures |shown| == 0 && ok ==> r == stored
    ensures |shown| == 0 && !ok ==> r == []
  {
    if |shown| > 0 then shown else if ok then stored else shown
  }

  /** handleComment reloads through `loadComments`, so when the list was
      already loaded the comment just posted is not shown, whatever the
      store holds and whether or not the fetch succeeds. */
  lemma PostedCommentHiddenWhenLoaded(shown: seq<Comment>, stored: seq<Comment>, posted: Comment, ok: bool)
    requires shown != [] && posted !in shown
    ensures posted !in AfterLoad(shown, stored + [posted], ok)
  {
  }

  /** A reload that ignores what is already shown. */
  function AfterRefresh(shown: seq<Comment>, stored: seq<Comment>, ok: bool): (r: seq<Comment>)
    ensures ok ==> r == stored
    ensures !ok ==> r == shown
  {
    if ok then stored else shown
  }

  /** With a refreshing reload the comment just posted is always shown. */
  lemma PostedCommentShownAfterRefresh(shown: seq<Comment>, stored: seq<Comment>, posted: Comment)
    ensures posted in AfterRefresh(shown, stored + [posted], true)
  {
  }

  class PostCard {
    const postId: PostId
    /** `post.likes_count` when the card was created. */
    const initialLikes: int
    var isLiked: bool
    var likesCount: int
    var showComments: bool
    var comments: seq<Comment>
    var newComment: string
    /** The store's comments on this post, oldest first. */
    var storedComments: seq<Comment>

    /** The counter is always the initial count plus this user's own like,
        and the stored comments all belong to this post. */
    ghost predicate Valid()
      reads this
    {
      OthersLikes(LikeState(isLiked, likesCount)) == initialLikes &&
      forall c :: c in storedComments ==> c.postId == postId
    }

    constructor (postId: PostId, likesCount: int, storedComments: seq<Comment>)
      requires forall c :: c in storedComments ==> c.postId == postId
      ensures Valid()
      ensures this.postId == postId && initialLikes == likesCount
      ensures !isLiked && this.likesCount == likesCount
      ensures !showComments && comments == [] && newComment == []
      ensures this.storedComments == storedComments
    {
      this.postId := postId;
      initialLikes := likesCount;
      isLiked := false;
      this.likesCount := likesCount;
      showComments := false;
      comments := [];
      newComment := [];
      this.storedComments := storedComments;
    }

    /** loadComments: skipped when the list is already non-empty. */
    method LoadComments(ok: bool)
      modifies this`comments
      ensures comments == AfterLoad(old(comments), storedComments, ok)
    {
      if |comments| > 0 {
        return;
      }
      if !ok {
        return;
      }
      comments := storedComments;
    }

    /** toggleComments: opening the panel loads the comments. */
    method ToggleComments(ok: bool)
      modifies this`comments, this`showComments
      ensures showComments == !old(showComments)
      ensures comments == if old(showComments) then old(comments) else AfterLoad(old(comments), storedComments, ok)
    {
      if !showComments {
        LoadComments(ok);
      }
      showComments := !showComments;
    }

    /** handleLike: delete or insert the like row; only on success do the
        flag and the counter change. */
    method HandleLike(user: Option<UserId>, ok: bool)
      requires Valid()
      modifies this`isLiked, this`likesCount
      ensures Valid()
      ensures LikeState(isLiked, likesCount) ==
        if user.Some? && ok then Toggled(old(LikeState(isLiked, likesCount)))
        else old(LikeState(isLiked, likesCount))
    {
      if user.None? {
        return;
      }
      if isLiked {
        if !ok {
          return;
        }
        isLiked := false;
        likesCount := likesCount - 1;
      } else {
        if !ok {
          return;
        }
        isLiked := true;
        likesCount := likesCount + 1;
      }
    }

    /** handleComment as the card does it: nothing without a user or with a
        blank draft; otherwise insert the trimmed draft, clear the draft and
        reload through `loadComments`. */
    method HandleComment(user: Option<UserId>, insertOk: bool, reloadOk: bool)
      requires Valid()
      modifies this`storedComments, this`newComment, this`comments
      ensures Valid()
      ensures var posted := user.Some? && Trim(old(newComment)) != [] && insertOk;
        storedComments == (if posted then old(storedComments) + [Comment(user.value, postId, Trim(old(newComment)))]
                           else old(storedComments)) &&
        newComment == (if posted then [] else old(newComment)) &&
        comments == (if posted then AfterLoad(old(comments), storedComments, reloadOk) else old(comments))
    {
      if user.None? || Trim(newComment) == [] {
        return;
      }
      if !insertOk {
        return;
      }
      storedComments := storedComments + [Comment(user.value, postId, Trim(newComment))];
      newComment := [];
      LoadComments(reloadOk);
    }

    /** handleComment with the reload forced, so that the posted comment
        appears in the list whether or not the list was loaded before. */
    method HandleCommentAndRefresh(user: Option<UserId>, insertOk: bool, reloadOk: bool)
      requires Valid()
      modifies this`storedComments, this`newComment, this`comments
      ensures Valid()
      ensures var posted := user.Some? && Trim(old(newComment)) != [] && insertOk;
        storedComments == (if posted then old(storedComments) + [Comment(user.value, postId, Trim(old(newComment)))]
                           else old(storedComments)) &&
        newComment == (if posted then [] else old(newComment)) &&
        comments == (if posted then AfterRefresh(old(comments), storedComments, reloadOk) else old(comments))
      ensures user.Some? && Trim(old(newComment)) != [] && insertOk && reloadOk ==>
        Comment(user.value, postId, Trim(old(newComment))) in comments
    {
      if user.None? || Trim(newComment) == [] {
        return;
      }
      if !insertOk {
        return;
      }
      var posted := Comment(user.value, postId, Trim(newComment));
      storedComments := storedComments + [posted];
      newComment := [];
      if reloadOk {
        comments := storedComments;
        PostedCommentShownAfterRefresh(old(comments), old(storedComments), posted);
      }
    }
  }
}
