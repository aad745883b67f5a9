/** The Mongo-backed post repository
    (06_databases/99_hw/redditclone/pkg/repo/post/repo.go): the collection is
    a map from ObjectIDs to posts, and each method is a pure transition. Post
    and comment IDs arrive as hex text and are parsed first. The driver's
    update operators are written out: `$push` appends, `$inc` adds, `$pull`
    removes every matching array element, and `$set` with an array filter
    rewrites every matching element. NewObjectID's fresh ID and the creation
    time are parameters. */
module MongoPostRepo {
  import opened Results
  import opened Hex
  import opened Sorting
  import opened Collections
  import opened Posts
  import MemoryPostRepo

  type Store = map<ObjectId, Post<ObjectId>>

  /** Every post sits under its own ID and keeps the post invariant. */
  predicate Valid(s: Store) {
    forall k :: k in s ==> s[k].id == k && PostInvariant(s[k])
  }

  /** `t` is `s` with the post `id` replaced by `p`. */
  predicate ReplacesPost(s: Store, t: Store, id: ObjectId, p: Post<ObjectId>) {
    id in s && t.Keys == s.Keys && t[id] == p && forall k :: k in s && k != id ==> t[k] == s[k]
  }

  // ---------------------------------------------------------------------------
  // findItemsOnCriterion, Add, DeletePostByID
  // ---------------------------------------------------------------------------

  /** findItemsOnCriterion: an unknown criterion name is ErrUndefinedCriterion;
      otherwise the posts the filter selects, sorted by score descending.
      `order` is the order the server scans the collection in. */
  function FindItemsOnCriterion(s: Store, order: seq<ObjectId>, c: CriteriaData)
    : (r: Result<seq<Post<ObjectId>>, PostError>)
    requires Enumerates(order, s)
    ensures r.Err? <==> ParseCriterion(c.name).None?
    ensures r.Err? ==> r.error == UndefinedCriterion
    ensures r.Ok? ==>
              && (forall p :: p in r.value <==> p in s.Values && Matches(ParseCriterion(c.name).value, c.data, p))
              && (Valid(s) ==> NoDuplicates(r.value))
              && SortedBy(r.value, ScoreDesc<ObjectId>)
  {
    match ParseCriterion(c.name)
    case None => Err(UndefinedCriterion)
    case Some(crit) => Ok(Listing(s, order, crit, c.data))
  }

  /** Add: the new post under the fresh ObjectID. Inserting an ID that is
      already in the collection fails with a duplicate-key error and changes
      nothing. */
  function Add(s: Store, data: DataPost, login: string, userId: string, newId: ObjectId, created: string)
    : (r: Result<(Store, Post<ObjectId>), PostError>)
    ensures r == Err(DuplicateKey) <==> newId in s
    ensures r.Ok? <==> newId !in s
    ensures r.Ok? ==>
              var p := r.value.1;
              && p.id == newId
              && p.score == 1 && p.votes == [Vote(userId, VoteUp)] && p.upvotePercentage == 100
              && p.comments == [] && p.author == Author(login, userId)
              && p.title == data.title && p.category == data.category
              && p.kind == data.kind && p.url == data.url && p.text == data.text
              && p.views == 0 && p.created == created
              && r.value.0.Keys == s.Keys + {newId} && r.value.0[newId] == p
              && forall k :: k in s ==> r.value.0[k] == s[k]
  {
    if newId in s then Err(DuplicateKey)
    else
      var p := NewPost(data, login, userId, newId, created);
      Ok((s[newId := p], p))
  }

  /** The ObjectID a hex argument names, or the parse error. */
  function ParseId(hex: string): (r: Result<ObjectId, PostError>)
    ensures r.Ok? <==> IsObjectIdHex(hex)
    ensures r.Ok? ==> ObjectIdFromHex(hex) == Ok(r.value)
    ensures r.Err? ==> r.error.InvalidHex?
  {
    match ObjectIdFromHex(hex)
    case Ok(id) => Ok(id)
    case Err(e) => Err(InvalidHex(e))
  }

  /** DeletePostByID: a malformed ID is the parse error, a missing post
      ErrSourceNotFound, another author's post ErrAccessDenied; success
      deletes that post only. */
  function DeletePostByID(s: Store, postId: string, username: string): (r: Result<Store, PostError>)
    ensures !IsObjectIdHex(postId) ==> r.Err? && r.error.InvalidHex?
    ensures IsObjectIdHex(postId) ==>
              var id := ObjectIdFromHex(postId).value;
              && (r == Err(SourceNotFound) <==> id !in s)
              && (r == Err(AccessDenied) <==> id in s && s[id].author.username != username)
              && (r.Ok? <==> id in s && s[id].author.username == username)
              && (r.Ok? ==> r.value.Keys == s.Keys - {id} && forall k :: k in r.value ==> r.value[k] == s[k])
  {
    match ParseId(postId)
    case Err(e) => Err(e)
    case Ok(id) =>
      if id !in s then Err(SourceNotFound)
      else if s[id].author.username != username then Err(AccessDenied)
      else Ok(s - {id})
  }

  // ---------------------------------------------------------------------------
  // Comments
  // ---------------------------------------------------------------------------

  /** AddComment: `$push` of the new comment; a post that is not there is
      ErrPostNotFound (not ErrSourceNotFound). */
  function AddComment(s: Store, postId: string, body: string, username: string, userId: string,
                      newId: ObjectId, created: string): (r: Result<(Store, Post<ObjectId>), PostError>)
    ensures !IsObjectIdHex(postId) ==> r.Err? && r.error.InvalidHex?
    ensures IsObjectIdHex(postId) ==>
              var id := ObjectIdFromHex(postId).value;
              && (r == Err(PostNotFound) <==> id !in s)
              && (r.Ok? <==> id in s)
              && (r.Ok? ==>
                    && ReplacesPost(s, r.value.0, id, r.value.1)
                    && r.value.1 == s[id].(comments := r.value.1.comments)
                    && r.value.1.comments == s[id].comments + [Comment(created, Author(username, userId), body, newId)])
  {
    match ParseId(postId)
    case Err(e) => Err(e)
    case Ok(id) =>
      if id !in s then Err(PostNotFound)
      else
        var p := s[id].(comments := s[id].comments + [Comment(created, Author(username, userId), body, newId)]);
        Ok((s[id := p], p))
  }

  /** `$pull` of the comments with ID `id`. */
  function PullComments(comments: seq<Comment<ObjectId>>, id: ObjectId): (r: seq<Comment<ObjectId>>)
    ensures forall i :: 0 <= i < |r| ==> r[i].id != id && r[i] in comments
    ensures forall i :: 0 <= i < |comments| && comments[i].id != id ==> comments[i] in r
  {
    Filter(comments, (c: Comment<ObjectId>) => c.id != id)
  }

  /** DeleteComment: both IDs are parsed; a missing post is
      ErrSourceNotFound; the first comment with the ID decides between
      ErrAccessDenied (another author) and deletion; no such comment is
      ErrSourceNotFound. Deletion pulls every comment with that ID. */
  function DeleteComment(s: Store, postId: string, commentId: string, username: string)
    : (r: Result<(Store, Post<ObjectId>), PostError>)
    ensures !IsObjectIdHex(postId) || !IsObjectIdHex(commentId) ==> r.Err? && r.error.InvalidHex?
    ensures IsObjectIdHex(postId) && IsObjectIdHex(commentId) ==>
              var id := ObjectIdFromHex(postId).value;
              var cid := ObjectIdFromHex(commentId).value;
              && (id !in s ==> r == Err(SourceNotFound))
              && (id in s ==>
                    var cs := s[id].comments;
                    var i := FindComment(cs, cid);
                    && (r == Err(SourceNotFound) <==> i == -1)
                    && (r == Err(AccessDenied) <==> i >= 0 && cs[i].author.username != username)
                    && (r.Ok? <==> i >= 0 && cs[i].author.username == username)
                    && (r.Ok? ==>
                          && ReplacesPost(s, r.value.0, id, r.value.1)
                          && r.value.1 == s[id].(comments := PullComments(cs, cid))))
  {
    match ParseId(postId)
    case Err(e) => Err(e)
    case Ok(id) =>
      match ParseId(commentId)
      case Err(e) => Err(e)
      case Ok(cid) =>
        if id !in s then Err(SourceNotFound)
        else
          var cs := s[id].comments;
          var i := FindComment(cs, cid);
          if i == -1 then Err(SourceNotFound)
          else if cs[i].author.username != username then Err(AccessDenied)
          else
            var p := s[id].(comments := PullComments(cs, cid));
            Ok((s[id := p], p))
  }

  /** When comment IDs are unique, pulling by ID removes exactly the comment
      the in-memory store removes by index. */
  lemma PullCommentsRemovesOne(comments: seq<Comment<ObjectId>>, i: nat)
    requires i < |comments|
    requires forall a, b :: 0 <= a < b < |comments| ==> comments[a].id != comments[b].id
    ensures PullComments(comments, comments[i].id) == RemoveAt(comments, i)
  {
    FilterDropsOne(comments, i, (c: Comment<ObjectId>) => c.id != comments[i].id);
  }

  // ---------------------------------------------------------------------------
  // VotePost
  // ---------------------------------------------------------------------------

  /** `$pull` of the votes by `user`. */
  function PullVotes(votes: seq<Vote>, user: string): (r: seq<Vote>)
    ensures forall i :: 0 <= i < |r| ==> r[i].user != user && r[i] in votes
    ensures forall i :: 0 <= i < |votes| && votes[i].user != user ==> votes[i] in r
  {
    Filter(votes, (v: Vote) => v.user != user)
  }

  /** `$set` of `votes.$[elem].vote` with the filter `elem._id == user`. */
  function SetVotes(votes: seq<Vote>, user: string, dir: int): (r: seq<Vote>)
    ensures |r| == |votes|
    ensures forall i :: 0 <= i < |r| ==> r[i].user == votes[i].user
    ensures forall i :: 0 <= i < |r| ==> r[i].vote == if votes[i].user == user then dir else votes[i].vote
  {
    seq(|votes|, i requires 0 <= i < |votes| =>
      if votes[i].user == user then votes[i].(vote := dir) else votes[i])
  }

  /** The post after VotePost's switch, its update and the stored percentage. */
  function ApplyVote(p: Post<ObjectId>, user: string, dir: int): (r: Result<Post<ObjectId>, PostError>)
    ensures var c := ClassifyVote(p.votes, user, dir);
            && (c == NoChange ==> r == Ok(p))
            && (r.Err? <==> c == SameVote)
            && (r.Err? ==> r.error == AlreadyVoted)
            && (r.Ok? && c != NoChange ==> r.value.upvotePercentage == UpvotePercentage(r.value.votes))
  {
    var prior := VoteOf(p.votes, user);
    match ClassifyVote(p.votes, user, dir)
    case NoChange => Ok(p)
    case SameVote => Err(AlreadyVoted)
    case NewVote => Ok(Recount(p.(votes := p.votes + [Vote(user, dir)], score := p.score + dir)))
    case Unvote => Ok(Recount(p.(votes := PullVotes(p.votes, user), score := p.score + -prior)))
    case ChangeVote => Ok(Recount(p.(votes := SetVotes(p.votes, user, dir), score := p.score + (dir - prior))))
  }

  /** The `$set` of upvotePercentage from the re-read votes. */
  function Recount(p: Post<ObjectId>): (r: Post<ObjectId>)
    ensures r.upvotePercentage == UpvotePercentage(p.votes)
    ensures r.(upvotePercentage := p.upvotePercentage) == p
  {
    p.(upvotePercentage := UpvotePercentage(p.votes))
  }

  /** VotePost: a malformed ID is the parse error, a missing post
      ErrSourceNotFound; otherwise the voted post replaces the stored one. */
  function VotePost(s: Store, postId: string, userId: string, dir: int)
    : (r: Result<(Store, Post<ObjectId>), PostError>)
    ensures !IsObjectIdHex(postId) ==> r.Err? && r.error.InvalidHex?
    ensures IsObjectIdHex(postId) ==>
              var id := ObjectIdFromHex(postId).value;
              && (id !in s ==> r == Err(SourceNotFound))
              && (id in s ==>
                    match ApplyVote(s[id], userId, dir)
                    case Err(e) => r == Err(e)
                    case Ok(p) => r.Ok? && r.value.1 == p && ReplacesPost(s, r.value.0, id, p))
  {
    match ParseId(postId)
    case Err(e) => Err(e)
    case Ok(id) =>
      if id !in s then Err(SourceNotFound)
      else
        match ApplyVote(s[id], userId, dir)
        case Err(e) => Err(e)
        case Ok(p) => Ok((s[id := p], p))
  }

  /** On a post where each user has voted at most once, the operator-based
      update gives exactly the in-memory store's index-based update. */
  lemma ApplyVoteAgreesWithMemory(p: Post<ObjectId>, user: string, dir: int)
    requires UniqueVoters(p.votes)
    ensures ApplyVote(p, user, dir) == MemoryPostRepo.ApplyVote(p, user, dir)
  {
    match ClassifyVote(p.votes, user, dir)
    case NoChange =>
    case SameVote =>
    case NewVote => NewVoteAgrees(p, user, dir);
    case Unvote => UnvoteAgrees(p, user, dir);
    case ChangeVote => ChangeVoteAgrees(p, user, dir);
  }

  lemma NewVoteAgrees(p: Post<ObjectId>, user: string, dir: int)
    requires ClassifyVote(p.votes, user, dir) == NewVote
    ensures ApplyVote(p, user, dir) == MemoryPostRepo.ApplyVote(p, user, dir)
  {
    var votes := p.votes + [Vote(user, dir)];
    assert ApplyVote(p, user, dir) == Ok(Recount(p.(votes := votes, score := p.score + dir)));
  }

  lemma UnvoteAgrees(p: Post<ObjectId>, user: string, dir: int)
    requires UniqueVoters(p.votes) && ClassifyVote(p.votes, user, dir) == Unvote
    ensures ApplyVote(p, user, dir) == MemoryPostRepo.ApplyVote(p, user, dir)
  {
    MemoryUnvote(p, user, dir);
    var i := FindVote(p.votes, user);
    assert ApplyVote(p, user, dir) == Ok(Recount(WithoutVote(p, i))) by {
      MongoUnvote(p, user, dir);
      PullVotesRemovesOnly(p.votes, user);
      assert p.(votes := PullVotes(p.votes, user), score := p.score + -VoteOf(p.votes, user)) == WithoutVote(p, i);
    }
  }

  /** The post without the vote at `i`: its entry gone and its score
      taken off, the percentage not yet recounted. */
  function WithoutVote(p: Post<ObjectId>, i: nat): Post<ObjectId>
    requires i < |p.votes|
  {
    p.(votes := RemoveAt(p.votes, i), score := p.score - p.votes[i].vote)
  }

  /** The `$pull` branch of the vote. */
  lemma MongoUnvote(p: Post<ObjectId>, user: string, dir: int)
    requires ClassifyVote(p.votes, user, dir) == Unvote
    ensures ApplyVote(p, user, dir)
            == Ok(Recount(p.(votes := PullVotes(p.votes, user), score := p.score + -VoteOf(p.votes, user))))
  {
  }

  /** The in-memory store's unvote is a recount of the post without the
      voter's entry. */
  lemma MemoryUnvote(p: Post<ObjectId>, user: string, dir: int)
    requires ClassifyVote(p.votes, user, dir) == Unvote
    ensures 0 <= FindVote(p.votes, user)
    ensures MemoryPostRepo.ApplyVote(p, user, dir) == Ok(Recount(WithoutVote(p, FindVote(p.votes, user))))
  {
    var i := FindVote(p.votes, user);
    var votes := RemoveAt(p.votes, i);
    var q := p.(votes := votes, score := p.score - p.votes[i].vote, upvotePercentage := UpvotePercentage(votes));
    assert MemoryPostRepo.ApplyVote(p, user, dir) == Ok(q);
    assert Recount(WithoutVote(p, i)) == q;
  }

  lemma ChangeVoteAgrees(p: Post<ObjectId>, user: string, dir: int)
    requires UniqueVoters(p.votes) && ClassifyVote(p.votes, user, dir) == ChangeVote
    ensures ApplyVote(p, user, dir) == MemoryPostRepo.ApplyVote(p, user, dir)
  {
    var i := FindVote(p.votes, user);
    var votes := p.votes[i := Vote(user, dir)];
    assert SetVotes(p.votes, user, dir) == votes by { SetVotesUpdatesOnly(p.votes, user, dir); }
    assert ApplyVote(p, user, dir) == Ok(Recount(p.(votes := votes, score := p.score + (dir - p.votes[i].vote))));
    assert p.votes[i].(vote := dir) == Vote(user, dir);
  }

  /** With unique voters the `$pull` removes exactly the voter's entry. */
  lemma PullVotesRemovesOnly(votes: seq<Vote>, user: string)
    requires UniqueVoters(votes) && FindVote(votes, user) >= 0
    ensures PullVotes(votes, user) == RemoveAt(votes, FindVote(votes, user))
  {
    var i := FindVote(votes, user);
    FilterDropsOne(votes, i, (v: Vote) => v.user != user);
  }

  /** With unique voters the filtered `$set` rewrites exactly the voter's entry. */
  lemma SetVotesUpdatesOnly(votes: seq<Vote>, user: string, dir: int)
    requires UniqueVoters(votes) && FindVote(votes, user) >= 0
    ensures SetVotes(votes, user, dir) == votes[FindVote(votes, user) := Vote(user, dir)]
  {
    var i := FindVote(votes, user);
    var r := SetVotes(votes, user, dir);
    forall j | 0 <= j < |votes|
      ensures r[j] == votes[i := Vote(user, dir)][j]
    {
      if j != i {
        assert votes[j].user != user;
      }
    }
  }

  /** Hence VotePost keeps every post's invariant, as the in-memory one does. */
  lemma VotePostPreservesValid(s: Store, postId: string, userId: string, dir: int)
    requires Valid(s)
    ensures VotePost(s, postId, userId, dir).Ok? ==> Valid(VotePost(s, postId, userId, dir).value.0)
  {
    if IsObjectIdHex(postId) {
      var id := ObjectIdFromHex(postId).value;
      if id in s && ApplyVote(s[id], userId, dir).Ok? {
        ApplyVoteAgreesWithMemory(s[id], userId, dir);
        MemoryPostRepo.ApplyVotePreservesInvariant(s[id], userId, dir);
      }
    }
  }
}
