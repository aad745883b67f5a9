/** The in-memory post repository (05_web_app/99_hw/redditclone/pkg/post/repo.go):
    a map from hex post IDs to posts, with each method a pure transition
    returning the new map alongside its result. The random bytes that
    `crypto/rand` supplies and the creation timestamp are parameters; a
    failed random read is `None`. */
module MemoryPostRepo {
  import opened Results
  import opened Hex
  import opened Sorting
  import opened Collections
  import opened Posts

  type Store = map<string, Post<string>>

  /** Every post sits under its own ID and keeps the post invariant. */
  predicate Valid(s: Store) {
    forall k :: k in s ==> s[k].id == k && PostInvariant(s[k])
  }

  // ---------------------------------------------------------------------------
  // FindItemsOnCriterion
  // ---------------------------------------------------------------------------

  /** FindItemsOnCriterion: every stored post matching the criterion, once
      each, highest score first. An unknown criterion name matches nothing
      (the switch has no default case), so the list is empty. `order` is the
      order the map happens to be ranged over. */
  function FindItemsOnCriterion(s: Store, order: seq<string>, c: CriteriaData): (r: seq<Post<string>>)
    requires Enumerates(order, s)
    ensures ParseCriterion(c.name).None? ==> r == []
    ensures ParseCriterion(c.name).Some? ==>
              forall p :: p in r <==> p in s.Values && Matches(ParseCriterion(c.name).value, c.data, p)
    ensures Valid(s) ==> NoDuplicates(r)
    ensures SortedBy(r, ScoreDesc<string>)
  {
    match ParseCriterion(c.name)
    case None => []
    case Some(crit) => Listing(s, order, crit, c.data)
  }

  /** The listing holds the same posts whatever order the map is ranged in. */
  lemma FindItemsOrderIrrelevant(s: Store, a: seq<string>, b: seq<string>, c: CriteriaData)
    requires Valid(s) && Enumerates(a, s) && Enumerates(b, s)
    ensures multiset(FindItemsOnCriterion(s, a, c)) == multiset(FindItemsOnCriterion(s, b, c))
  {
    if ParseCriterion(c.name).Some? {
      ListingOrderIrrelevant(s, a, b, ParseCriterion(c.name).value, c.data);
    }
  }

  // ---------------------------------------------------------------------------
  // Add, DeletePostByID
  // ---------------------------------------------------------------------------

  /** Add: a new post by `login` under the hex of the random bytes; nothing
      (a nil post) when the random read fails. An existing post with the
      same ID is replaced, as the map assignment does. */
  function Add(s: Store, data: DataPost, login: string, userId: string,
               random: Option<seq<byte>>, created: string): (r: (Store, Option<Post<string>>))
    ensures random.None? ==> r == (s, None)
    ensures random.Some? ==>
              && r.1.Some?
              && var p := r.1.value;
              && p.id == HexEncode(random.value)
              && p.score == 1 && p.votes == [Vote(userId, VoteUp)] && p.upvotePercentage == 100
              && p.comments == [] && p.author == Author(login, userId)
              && p.title == data.title && p.category == data.category
              && p.kind == data.kind && p.url == data.url && p.text == data.text
              && p.views == 0 && p.created == created
              && r.0.Keys == s.Keys + {p.id} && r.0[p.id] == p
              && forall k :: k in s && k != p.id ==> r.0[k] == s[k]
  {
    match random
    case None => (s, None)
    case Some(bytes) =>
      var p := NewPost(data, login, userId, HexEncode(bytes), created);
      (s[p.id := p], Some(p))
  }

  lemma AddPreservesValid(s: Store, data: DataPost, login: string, userId: string,
                          random: Option<seq<byte>>, created: string)
    requires Valid(s)
    ensures Valid(Add(s, data, login, userId, random, created).0)
  {
  }

  /** DeletePostByID: only the author may delete; a missing post is
      ErrSourceNotFound. Success removes that key and nothing else. */
  function DeletePostByID(s: Store, postId: string, username: string): (r: Result<Store, PostError>)
    ensures r == Err(SourceNotFound) <==> postId !in s
    ensures r == Err(AccessDenied) <==> postId in s && s[postId].author.username != username
    ensures r.Ok? <==> postId in s && s[postId].author.username == username
    ensures r.Ok? ==> r.value.Keys == s.Keys - {postId} && forall k :: k in r.value ==> r.value[k] == s[k]
  {
    if postId !in s then Err(SourceNotFound)
    else if s[postId].author.username != username then Err(AccessDenied)
    else Ok(s - {postId})
  }

  // ---------------------------------------------------------------------------
  // Comments
  // ---------------------------------------------------------------------------

  /** `t` is `s` with the post `postId` replaced by `p`. */
  predicate ReplacesPost(s: Store, t: Store, postId: string, p: Post<string>) {
    postId in s && t.Keys == s.Keys && t[postId] == p && forall k :: k in s && k != postId ==> t[k] == s[k]
  }

  /** AddComment: the random read comes first, then the post lookup; success
      appends one comment to the end of the post's list. */
  function AddComment(s: Store, postId: string, body: string, username: string, userId: string,
                      random: Option<seq<byte>>, created: string): (r: Result<(Store, Post<string>), PostError>)
    ensures random.None? ==> r == Err(CantGenerateId)
    ensures random.Some? && postId !in s ==> r == Err(PostNotFound)
    ensures r.Ok? <==> random.Some? && postId in s
    ensures r.Ok? ==>
              && ReplacesPost(s, r.value.0, postId, r.value.1)
              && r.value.1 == s[postId].(comments := r.value.1.comments)
              && r.value.1.comments ==
                 s[postId].comments + [Comment(created, Author(username, userId), body, HexEncode(random.value))]
  {
    match random
    case None => Err(CantGenerateId)
    case Some(bytes) =>
      var comment := Comment(created, Author(username, userId), body, HexEncode(bytes));
      if postId !in s then Err(PostNotFound)
      else
        var p := s[postId].(comments := s[postId].comments + [comment]);
        Ok((s[postId := p], p))
  }

  /** DeleteComment: the first comment with the ID decides. Another author's
      comment is ErrAccessDenied, no such comment (or no such post) is
      ErrSourceNotFound; success removes exactly that comment. */
  function DeleteComment(s: Store, postId: string, commentId: string, username: string)
    : (r: Result<(Store, Post<string>), PostError>)
    ensures postId !in s ==> r == Err(SourceNotFound)
    ensures postId in s ==>
              var cs := s[postId].comments;
              var i := FindComment(cs, commentId);
              && (r == Err(SourceNotFound) <==> i == -1)
              && (r == Err(AccessDenied) <==> i >= 0 && cs[i].author.username != username)
              && (r.Ok? <==> i >= 0 && cs[i].author.username == username)
              && (r.Ok? ==>
                    && ReplacesPost(s, r.value.0, postId, r.value.1)
                    && r.value.1 == s[postId].(comments := r.value.1.comments)
                    && |r.value.1.comments| == |cs| - 1
                    && r.value.1.comments[..i] == cs[..i]
                    && r.value.1.comments[i..] == cs[i + 1..])
  {
    if postId !in s then Err(SourceNotFound)
    else
      var cs := s[postId].comments;
      var i := FindComment(cs, commentId);
      if i == -1 then Err(SourceNotFound)
      else if cs[i].author.username != username then Err(AccessDenied)
      else
        var p := s[postId].(comments := RemoveAt(cs, i));
        assert RemoveAt(cs, i)[..i] == cs[..i];
        assert RemoveAt(cs, i)[i..] == cs[i + 1..];
        Ok((s[postId := p], p))
  }

  // ---------------------------------------------------------------------------
  // VotePost
  // ---------------------------------------------------------------------------

  /** The post after VotePost's switch and the percentage recount. The
      first vote by the user is the one updated or removed. */
  function ApplyVote<Id>(p: Post<Id>, user: string, dir: int): (r: Result<Post<Id>, PostError>)
    ensures var c := ClassifyVote(p.votes, user, dir);
            var i := FindVote(p.votes, user);
            && (c == NoChange ==> r == Ok(p))
            && (c == SameVote <==> r == Err(AlreadyVoted))
            && (r.Err? <==> c == SameVote)
            && (c == NewVote ==> r.Ok? && r.value.votes == p.votes + [Vote(user, dir)]
                                 && r.value.score == p.score + dir)
            && (c == Unvote ==> r.Ok? && r.value.votes == RemoveAt(p.votes, i)
                                && r.value.score == p.score - p.votes[i].vote)
            && (c == ChangeVote ==> r.Ok? && r.value.votes == p.votes[i := Vote(user, dir)]
                                    && r.value.score == p.score + (dir - p.votes[i].vote))
            && (r.Ok? && c != NoChange ==>
                  r.value == p.(votes := r.value.votes, score := r.value.score,
                                upvotePercentage := UpvotePercentage(r.value.votes)))
  {
    var i := FindVote(p.votes, user);
    match ClassifyVote(p.votes, user, dir)
    case NoChange => Ok(p)
    case NewVote =>
      var votes := p.votes + [Vote(user, dir)];
      Ok(p.(votes := votes, score := p.score + dir, upvotePercentage := UpvotePercentage(votes)))
    case Unvote =>
      var votes := RemoveAt(p.votes, i);
      Ok(p.(votes := votes, score := p.score - p.votes[i].vote, upvotePercentage := UpvotePercentage(votes)))
    case SameVote => Err(AlreadyVoted)
    case ChangeVote =>
      var votes := p.votes[i := p.votes[i].(vote := dir)];
      Ok(p.(votes := votes, score := p.score + (dir - p.votes[i].vote),
            upvotePercentage := UpvotePercentage(votes)))
  }

  /** VotePost: a missing post is ErrSourceNotFound; otherwise the post is
      replaced by the voted one (or left as it is on the no-op branch). */
  function VotePost(s: Store, postId: string, userId: string, dir: int)
    : (r: Result<(Store, Post<string>), PostError>)
    ensures postId !in s ==> r == Err(SourceNotFound)
    ensures postId in s ==>
              match ApplyVote(s[postId], userId, dir)
              case Err(e) => r == Err(e)
              case Ok(p) => r.Ok? && r.value.1 == p && ReplacesPost(s, r.value.0, postId, p)
  {
    if postId !in s then Err(SourceNotFound)
    else
      match ApplyVote(s[postId], userId, dir)
      case Err(e) => Err(e)
      case Ok(p) => Ok((s[postId := p], p))
  }

  // ---------------------------------------------------------------------------
  // What a vote does to the tallies
  // ---------------------------------------------------------------------------

  /** Index `k` is the first vote by `u`: FindVote returns it. */
  lemma FindVoteIs(votes: seq<Vote>, u: string, k: int)
    requires k == -1 ==> forall i :: 0 <= i < |votes| ==> votes[i].user != u
    requires k != -1 ==> 0 <= k < |votes| && votes[k].user == u && forall i :: 0 <= i < k ==> votes[i].user != u
    ensures FindVote(votes, u) == k
  {
  }

  /** Appending a vote by someone new keeps every other user's direction. */
  lemma VoteOfAppend(votes: seq<Vote>, v: Vote, u: string)
    requires v.user != u
    ensures VoteOf(votes + [v], u) == VoteOf(votes, u)
  {
    var k := FindVote(votes, u);
    var w := votes + [v];
    assert forall i :: 0 <= i < |votes| ==> w[i] == votes[i];
    FindVoteIs(w, u, k);
  }

  /** Removing `user`'s only vote keeps every other user's direction. */
  lemma VoteOfRemove(votes: seq<Vote>, i: nat, u: string)
    requires i < |votes| && votes[i].user != u
    ensures VoteOf(RemoveAt(votes, i), u) == VoteOf(votes, u)
  {
    var w := RemoveAt(votes, i);
    var k := FindVote(votes, u);
    if k == -1 {
      FindVoteIs(w, u, -1);
    } else if k < i {
      FindVoteIs(w, u, k);
    } else {
      assert k > i;
      assert w[k - 1] == votes[k];
      FindVoteIs(w, u, k - 1);
    }
  }

  /** Overwriting another user's vote keeps every other user's direction. */
  lemma VoteOfUpdate(votes: seq<Vote>, i: nat, v: Vote, u: string)
    requires i < |votes| && votes[i].user != u && v.user == votes[i].user
    ensures VoteOf(votes[i := v], u) == VoteOf(votes, u)
  {
    var k := FindVote(votes, u);
    FindVoteIs(votes[i := v], u, k);
  }

  /** No remaining vote belongs to the user whose only vote was removed. */
  lemma RemoveOnlyVote(votes: seq<Vote>, i: nat)
    requires UniqueVoters(votes) && i < |votes|
    ensures FindVote(RemoveAt(votes, i), votes[i].user) == -1
    ensures UniqueVoters(RemoveAt(votes, i))
  {
    var w := RemoveAt(votes, i);
    FindVoteIs(w, votes[i].user, -1);
  }

  /** A successful vote leaves the voter with exactly the requested
      direction and every other user's vote as it was. */
  lemma ApplyVoteRecordsDirection<Id>(p: Post<Id>, user: string, dir: int)
    requires UniqueVoters(p.votes)
    requires ApplyVote(p, user, dir).Ok?
    ensures VoteOf(ApplyVote(p, user, dir).value.votes, user) == dir
    ensures forall u :: u != user ==> VoteOf(ApplyVote(p, user, dir).value.votes, u) == VoteOf(p.votes, u)
  {
    var q := ApplyVote(p, user, dir).value;
    var i := FindVote(p.votes, user);
    match ClassifyVote(p.votes, user, dir)
    case NoChange =>
    case NewVote =>
      FindVoteIs(q.votes, user, |p.votes|);
      forall u | u != user ensures VoteOf(q.votes, u) == VoteOf(p.votes, u) {
        VoteOfAppend(p.votes, Vote(user, dir), u);
      }
    case Unvote =>
      RemoveOnlyVote(p.votes, i);
      forall u | u != user ensures VoteOf(q.votes, u) == VoteOf(p.votes, u) {
        VoteOfRemove(p.votes, i, u);
      }
    case ChangeVote =>
      FindVoteIs(q.votes, user, i);
      forall u | u != user ensures VoteOf(q.votes, u) == VoteOf(p.votes, u) {
        VoteOfUpdate(p.votes, i, Vote(user, dir), u);
      }
  }

  /** Voting again in the direction already recorded is the only rejection. */
  lemma AlreadyVotedExactly<Id>(p: Post<Id>, user: string, dir: int)
    ensures ApplyVote(p, user, dir) == Err(AlreadyVoted) <==> dir != VoteNone && VoteOf(p.votes, user) == dir
  {
  }

  /** VotePost keeps score = sum of votes, one vote per user, and the
      percentage in step with the votes, whatever the direction. */
  lemma ApplyVotePreservesInvariant<Id>(p: Post<Id>, user: string, dir: int)
    requires PostInvariant(p)
    requires ApplyVote(p, user, dir).Ok?
    ensures PostInvariant(ApplyVote(p, user, dir).value)
  {
    var i := FindVote(p.votes, user);
    match ClassifyVote(p.votes, user, dir)
    case NoChange =>
    case SameVote =>
    case NewVote =>
      var votes := p.votes + [Vote(user, dir)];
      assert VoteSum(votes) == p.score + dir by {
        TallyAppend(p.votes, [Vote(user, dir)]);
        assert VoteSum([Vote(user, dir)]) == dir;
      }
      assert UniqueVoters(votes) by {
        forall a, b | 0 <= a < b < |votes| ensures votes[a].user != votes[b].user {
          if b == |p.votes| {
            assert votes[a] == p.votes[a];
          }
        }
      }
    case Unvote =>
      var votes := RemoveAt(p.votes, i);
      assert VoteSum(votes) == p.score - p.votes[i].vote by { VoteSumRemove(p.votes, i); }
      assert UniqueVoters(votes) by { RemoveOnlyVote(p.votes, i); }
    case ChangeVote =>
      var votes := p.votes[i := p.votes[i].(vote := dir)];
      assert VoteSum(votes) == p.score + (dir - p.votes[i].vote) by {
        VoteSumUpdate(p.votes, i, p.votes[i].(vote := dir));
      }
      assert UniqueVoters(votes) by {
        forall a, b | 0 <= a < b < |votes| ensures votes[a].user != votes[b].user {
          assert votes[a].user == p.votes[a].user && votes[b].user == p.votes[b].user;
        }
      }
  }

  lemma VotePostPreservesValid(s: Store, postId: string, userId: string, dir: int)
    requires Valid(s)
    ensures VotePost(s, postId, userId, dir).Ok? ==> Valid(VotePost(s, postId, userId, dir).value.0)
  {
    if postId in s && ApplyVote(s[postId], userId, dir).Ok? {
      ApplyVotePreservesInvariant(s[postId], userId, dir);
    }
  }

  lemma CommentsPreserveValid(s: Store, postId: string, commentId: string, body: string, username: string,
                              userId: string, random: Option<seq<byte>>, created: string)
    requires Valid(s)
    ensures AddComment(s, postId, body, username, userId, random, created).Ok? ==>
              Valid(AddComment(s, postId, body, username, userId, random, created).value.0)
    ensures DeleteComment(s, postId, commentId, username).Ok? ==>
              Valid(DeleteComment(s, postId, commentId, username).value.0)
    ensures DeletePostByID(s, postId, username).Ok? ==> Valid(DeletePostByID(s, postId, username).value)
  {
    var added := AddComment(s, postId, body, username, userId, random, created);
    if added.Ok? {
      ReplaceKeepsValid(s, added.value.0, postId, added.value.1);
    }
    var deleted := DeleteComment(s, postId, commentId, username);
    if deleted.Ok? {
      ReplaceKeepsValid(s, deleted.value.0, postId, deleted.value.1);
    }
  }

  /** Swapping one post for a copy that differs only in its comments keeps
      the store consistent. */
  lemma ReplaceKeepsValid(s: Store, t: Store, postId: string, p: Post<string>)
    requires Valid(s) && ReplacesPost(s, t, postId, p)
    requires p == s[postId].(comments := p.comments)
    ensures Valid(t)
  {
    forall k | k in t
      ensures t[k].id == k && PostInvariant(t[k])
    {
      assert k in s;
    }
  }
}
