/** What the two reddit-clone post repositories share: the post records of
    the two `post/post.go` files, the vote constants and error values, the
    search criteria, and the vote bookkeeping both stores keep.

    The in-memory store identifies posts and comments by hex strings, the
    Mongo store by ObjectIDs, so the records are generic in the identifier
    type. */
module Posts {
  import opened Results
  import opened Hex
  import opened Sorting
  import opened Collections

  const VoteUp: int := 1
  const VoteDown: int := -1
  const VoteNone: int := 0

  datatype Author = Author(username: string, id: string)

  /** One user's vote; the direction is whatever the handler passed in. */
  datatype Vote = Vote(user: string, vote: int)

  datatype Comment<Id> = Comment(created: string, author: Author, body: string, id: Id)

  /** The fields a client supplies for a new post. */
  datatype DataPost = DataPost(category: string, kind: string, title: string, url: string, text: string)

  datatype Post<Id> = Post(
    score: int,
    views: int,
    kind: string,
    title: string,
    url: string,
    author: Author,
    category: string,
    text: string,
    votes: seq<Vote>,
    comments: seq<Comment<Id>>,
    created: string,
    upvotePercentage: int,
    id: Id)

  /** The repositories' error values. SourceNotFound (ErrSourceNotFound of
      post.go) and PostNotFound (ErrPostNotFound of repo.go) carry the same
      message but are different values, and the stores use them on
      different paths. InvalidHex is ObjectIDFromHex's error; DuplicateKey is
      the one InsertOne failure the model keeps. */
  datatype PostError =
    | AccessDenied
    | SourceNotFound
    | AlreadyVoted
    | PostNotFound
    | CantGenerateId
    | UndefinedCriterion
    | InvalidHex(cause: HexError)
    | DuplicateKey

  // ---------------------------------------------------------------------------
  // Search criteria
  // ---------------------------------------------------------------------------

  datatype Criterion = AllPosts | ByCategory | ByAuthor

  /** A criterion name as the repositories receive it, and its argument. */
  datatype CriteriaData = CriteriaData(name: string, data: string)

  /** The criterion names: "", "category" and "author". */
  function CriterionName(c: Criterion): string {
    match c
    case AllPosts => ""
    case ByCategory => "category"
    case ByAuthor => "author"
  }

  /** The criterion a name selects; any other name selects none. */
  function ParseCriterion(name: string): (r: Option<Criterion>)
    ensures r.Some? <==> name in {"", "category", "author"}
    ensures r.Some? ==> CriterionName(r.value) == name
  {
    if name == "" then Some(AllPosts)
    else if name == "category" then Some(ByCategory)
    else if name == "author" then Some(ByAuthor)
    else None
  }

  lemma CriterionNameRoundTrip(c: Criterion)
    ensures ParseCriterion(CriterionName(c)) == Some(c)
  {
  }

  /** The post satisfies the criterion with argument `data`. */
  predicate Matches<Id>(c: Criterion, data: string, p: Post<Id>) {
    match c
    case AllPosts => true
    case ByCategory => p.category == data
    case ByAuthor => p.author.username == data
  }

  /** The listing order: higher score first (comparator `b.Score - a.Score`). */
  predicate ScoreDesc<Id>(a: Post<Id>, b: Post<Id>) {
    a.score >= b.score
  }

  /** Every post is stored under its own ID. */
  predicate KeyedById<Id(!new)>(s: map<Id, Post<Id>>) {
    forall k :: k in s ==> s[k].id == k
  }

  /** The posts a loop over the store collects, visiting keys in `order`. */
  function Collect<Id(!new)>(s: map<Id, Post<Id>>, order: seq<Id>, crit: Criterion, data: string)
    : (r: seq<Post<Id>>)
    requires forall k :: k in order ==> k in s
    ensures forall p :: p in r <==> Matches(crit, data, p) && exists k :: k in order && s[k] == p
    ensures KeyedById(s) ==> forall i :: 0 <= i < |r| ==> r[i].id in order
    ensures KeyedById(s) && NoDuplicates(order) ==> NoDuplicates(r)
    decreases |order|
  {
    if |order| == 0 then []
    else
      var rest := Collect(s, order[1..], crit, data);
      var p := s[order[0]];
      assert forall k :: k in order <==> k == order[0] || k in order[1..];
      if Matches(crit, data, p) then
        var r := [p] + rest;
        assert forall i :: 1 <= i < |r| ==> r[i] == rest[i - 1];
        assert KeyedById(s) && NoDuplicates(order) ==> order[0] !in order[1..] by {
          if KeyedById(s) && NoDuplicates(order) {
            assert forall j :: 0 <= j < |order| - 1 ==> order[1..][j] == order[j + 1];
          }
        }
        r
      else rest
  }

  /** Collecting over a full enumeration gathers every matching stored post. */
  lemma CollectAll<Id(!new)>(s: map<Id, Post<Id>>, order: seq<Id>, crit: Criterion, data: string,
                            collected: seq<Post<Id>>)
    requires Enumerates(order, s)
    requires forall p :: p in collected <==> Matches(crit, data, p) && exists k :: k in order && s[k] == p
    ensures forall p :: p in collected <==> p in s.Values && Matches(crit, data, p)
  {
    forall p ensures p in collected <==> p in s.Values && Matches(crit, data, p) {
      if p in s.Values {
        var k :| k in s && s[k] == p;
        assert k in order;
      }
    }
  }

  lemma ScoreDescIsTotalPreorder<Id(!new)>()
    ensures TotalPreorder(ScoreDesc<Id>)
  {
  }

  /** A listing by criterion: every stored post that matches, once each,
      highest score first. `order` is the order the store yields its posts
      before sorting. */
  function Listing<Id(!new)>(s: map<Id, Post<Id>>, order: seq<Id>, crit: Criterion, data: string)
    : (r: seq<Post<Id>>)
    requires Enumerates(order, s)
    ensures forall p :: p in r <==> p in s.Values && Matches(crit, data, p)
    ensures KeyedById(s) ==> NoDuplicates(r)
    ensures SortedBy(r, ScoreDesc<Id>)
  {
    ScoreDescIsTotalPreorder<Id>();
    var collected := Collect(s, order, crit, data);
    var r := SortBy(collected, ScoreDesc<Id>);
    ListingFacts(s, order, crit, data, collected, r);
    r
  }

  lemma ListingFacts<Id(!new)>(s: map<Id, Post<Id>>, order: seq<Id>, crit: Criterion, data: string,
                               collected: seq<Post<Id>>, r: seq<Post<Id>>)
    requires Enumerates(order, s)
    requires collected == Collect(s, order, crit, data)
    requires multiset(r) == multiset(collected)
    ensures forall p :: p in r <==> p in s.Values && Matches(crit, data, p)
    ensures KeyedById(s) ==> NoDuplicates(r)
  {
    if KeyedById(s) {
      PermutationNoDuplicates(collected, r);
    }
    SameMembers(collected, r);
    CollectAll(s, order, crit, data, collected);
  }

  /** The listing holds the same posts whatever order the store yields them
      in; only posts of equal score may come out in a different order. */
  lemma ListingOrderIrrelevant<Id(!new)>(s: map<Id, Post<Id>>, a: seq<Id>, b: seq<Id>, crit: Criterion, data: string)
    requires KeyedById(s) && Enumerates(a, s) && Enumerates(b, s)
    ensures multiset(Listing(s, a, crit, data)) == multiset(Listing(s, b, crit, data))
  {
    DistinctSameMembers(Listing(s, a, crit, data), Listing(s, b, crit, data));
  }

  // ---------------------------------------------------------------------------
  // Vote bookkeeping
  // ---------------------------------------------------------------------------

  function VoteSum(votes: seq<Vote>): int {
    if |votes| == 0 then 0 else votes[0].vote + VoteSum(votes[1..])
  }

  /** The number of +1 votes. */
  function CountUps(votes: seq<Vote>): (r: nat)
    ensures r <= |votes|
  {
    if |votes| == 0 then 0
    else (if votes[0].vote == VoteUp then 1 else 0) + CountUps(votes[1..])
  }

  /** calculateUpvotePercentage (and the same computation inline in the
      in-memory VotePost): the share of +1 votes in whole percent, rounded
      down; 0 when there are no votes. */
  function UpvotePercentage(votes: seq<Vote>): (r: int)
    ensures 0 <= r <= 100
    ensures |votes| == 0 ==> r == 0
    ensures |votes| > 0 ==> r * |votes| <= CountUps(votes) * 100 < (r + 1) * |votes|
  {
    var total := |votes|;
    if total == 0 then 0
    else
      var ups := CountUps(votes);
      DivBounds(ups * 100, total, 100);
      ups * 100 / total
  }

  /** Integer division of a non-negative `a` by a positive `n`, when
      `a <= bound * n`, is a floor between 0 and `bound`. */
  lemma DivBounds(a: int, n: int, bound: int)
    requires n > 0 && 0 <= a <= bound * n
    ensures 0 <= a / n <= bound
    ensures (a / n) * n <= a < (a / n + 1) * n
  {
    var q := a / n;
    assert a == q * n + a % n && 0 <= a % n < n;
    assert (q + 1) * n == q * n + n;
    MulCancelStrict(0, q + 1, n);
    MulCancel(q, bound, n);
  }

  /** Unanimous votes give the extremes. */
  lemma UpvotePercentageExtremes(votes: seq<Vote>)
    ensures |votes| > 0 && CountUps(votes) == |votes| ==> UpvotePercentage(votes) == 100
    ensures CountUps(votes) == 0 ==> UpvotePercentage(votes) == 0
  {
    if |votes| > 0 {
      var n, ups := |votes|, CountUps(votes);
      assert UpvotePercentage(votes) == ups * 100 / n;
      if ups == n {
        assert ups * 100 == 100 * n;
        MulDiv(100, n);
      } else if ups == 0 {
        assert ups * 100 == 0 * n;
        MulDiv(0, n);
      }
    }
  }

  /** Dividing a multiple of a positive `n` by `n` gives the factor back. */
  lemma MulDiv(k: int, n: int)
    requires n > 0
    ensures (k * n) / n == k
  {
    var q := (k * n) / n;
    assert k * n == q * n + (k * n) % n && 0 <= (k * n) % n < n;
    assert (q + 1) * n == q * n + n;
    MulCancelStrict(q, k + 1, n);
    assert (k + 1) * n == k * n + n;
    MulCancelStrict(k, q + 1, n);
  }

  /** Multiplying by a positive number keeps the order. */
  lemma MulCancel(a: int, b: int, n: int)
    requires n > 0 && a * n <= b * n
    ensures a <= b
  {
  }

  lemma MulCancelStrict(a: int, b: int, n: int)
    requires n > 0 && a * n < b * n
    ensures a < b
  {
  }

  /** VoteSum and CountUps of a concatenation. */
  lemma {:induction false} TallyAppend(a: seq<Vote>, b: seq<Vote>)
    ensures VoteSum(a + b) == VoteSum(a) + VoteSum(b)
    ensures CountUps(a + b) == CountUps(a) + CountUps(b)
    decreases |a|
  {
    if |a| > 0 {
      assert (a + b)[1..] == a[1..] + b;
      TallyAppend(a[1..], b);
    } else {
      assert a + b == b;
    }
  }

  /** Replacing one vote changes the sum by the difference. */
  lemma VoteSumUpdate(votes: seq<Vote>, i: nat, v: Vote)
    requires i < |votes|
    ensures VoteSum(votes[i := v]) == VoteSum(votes) - votes[i].vote + v.vote
  {
    var pre := votes[..i];
    assert votes == pre + [votes[i]] + votes[i + 1..];
    assert votes[i := v] == pre + [v] + votes[i + 1..];
    TallyAppend(pre + [votes[i]], votes[i + 1..]);
    TallyAppend(pre, [votes[i]]);
    TallyAppend(pre + [v], votes[i + 1..]);
    TallyAppend(pre, [v]);
  }

  /** The sequence without its element at index `i`, the rest in order. */
  function RemoveAt<T>(s: seq<T>, i: nat): (r: seq<T>)
    requires i < |s|
    ensures |r| == |s| - 1
    ensures forall j :: 0 <= j < |r| ==> r[j] == if j < i then s[j] else s[j + 1]
    ensures multiset(r) == multiset(s) - multiset{s[i]}
  {
    assert s == s[..i] + [s[i]] + s[i + 1..];
    s[..i] + s[i + 1..]
  }

  /** Removing one vote takes its direction off the sum. */
  lemma VoteSumRemove(votes: seq<Vote>, i: nat)
    requires i < |votes|
    ensures VoteSum(RemoveAt(votes, i)) == VoteSum(votes) - votes[i].vote
  {
    VoteSumAround(votes, i);
    TallyAppend(votes[..i], votes[i + 1..]);
  }

  /** The sum splits around any one vote. */
  lemma VoteSumAround(votes: seq<Vote>, i: nat)
    requires i < |votes|
    ensures VoteSum(votes) == VoteSum(votes[..i]) + votes[i].vote + VoteSum(votes[i + 1..])
  {
    var pre, post := votes[..i], votes[i + 1..];
    assert votes == (pre + [votes[i]]) + post;
    TallyAppend(pre + [votes[i]], post);
    assert VoteSum(pre + [votes[i]]) == VoteSum(pre) + votes[i].vote by {
      TallyAppend(pre, [votes[i]]);
      assert VoteSum([votes[i]]) == votes[i].vote;
    }
  }

  /** The index of `user`'s first vote, or -1 (the loop both stores run). */
  function FindVote(votes: seq<Vote>, user: string): (r: int)
    ensures -1 <= r < |votes|
    ensures r == -1 <==> forall i :: 0 <= i < |votes| ==> votes[i].user != user
    ensures r >= 0 ==> votes[r].user == user && forall i :: 0 <= i < r ==> votes[i].user != user
    decreases |votes|
  {
    if |votes| == 0 then -1
    else if votes[0].user == user then 0
    else
      var k := FindVote(votes[1..], user);
      assert forall i :: 1 <= i < |votes| ==> votes[i] == votes[1..][i - 1];
      if k == -1 then -1 else k + 1
  }

  /** The user's recorded direction: VoteNone when they have not voted. */
  function VoteOf(votes: seq<Vote>, user: string): int {
    var i := FindVote(votes, user);
    if i == -1 then VoteNone else votes[i].vote
  }

  /** Each user votes at most once. */
  predicate UniqueVoters(votes: seq<Vote>) {
    forall i, j :: 0 <= i < j < |votes| ==> votes[i].user != votes[j].user
  }

  /** The five branches of VotePost's switch, tried in source order. */
  datatype VoteCase = NoChange | NewVote | Unvote | SameVote | ChangeVote

  /** Which branch a vote by `user` in direction `dir` takes. */
  function ClassifyVote(votes: seq<Vote>, user: string, dir: int): (r: VoteCase)
    ensures r == NoChange <==> VoteOf(votes, user) == VoteNone && FindVote(votes, user) == -1 && dir == VoteNone
    ensures r == NewVote <==> FindVote(votes, user) == -1 && dir != VoteNone
    ensures r == Unvote <==> FindVote(votes, user) >= 0 && dir == VoteNone
    ensures r == SameVote <==> FindVote(votes, user) >= 0 && dir != VoteNone && dir == VoteOf(votes, user)
    ensures r == ChangeVote <==> FindVote(votes, user) >= 0 && dir != VoteNone && dir != VoteOf(votes, user)
  {
    var i := FindVote(votes, user);
    if i == -1 && dir == VoteNone then NoChange
    else if i == -1 then NewVote
    else if dir == VoteNone then Unvote
    else if dir == votes[i].vote then SameVote
    else ChangeVote
  }

  /** What a stored post keeps true: its score is the sum of its votes, no
      user has two votes, and its percentage matches its votes. */
  predicate PostInvariant<Id>(p: Post<Id>) {
    && p.score == VoteSum(p.votes)
    && UniqueVoters(p.votes)
    && p.upvotePercentage == UpvotePercentage(p.votes)
  }

  /** The post both Add methods build: score 1, a single +1 vote by the
      author, 100 percent up, no comments, no views. */
  function NewPost<Id>(data: DataPost, login: string, userId: string, id: Id, created: string): (p: Post<Id>)
    ensures p.score == 1 && p.views == 0 && p.upvotePercentage == 100
    ensures p.votes == [Vote(userId, VoteUp)] && p.comments == []
    ensures p.author == Author(login, userId) && p.id == id
    ensures p.kind == data.kind && p.title == data.title && p.url == data.url
    ensures p.text == data.text && p.category == data.category
    ensures PostInvariant(p)
  {
    var votes := [Vote(userId, VoteUp)];
    assert votes[1..] == [];
    assert VoteSum(votes) == votes[0].vote + VoteSum(votes[1..]) == 1;
    assert CountUps(votes) == 1 + CountUps(votes[1..]) == 1;
    Post(1, 0, data.kind, data.title, data.url, Author(login, userId), data.category, data.text,
         votes, [], created, 100, id)
  }

  /** The index of the first comment with ID `id`, or -1. */
  function FindComment<Id(==)>(comments: seq<Comment<Id>>, id: Id): (r: int)
    ensures -1 <= r < |comments|
    ensures r == -1 <==> forall i :: 0 <= i < |comments| ==> comments[i].id != id
    ensures r >= 0 ==> comments[r].id == id && forall i :: 0 <= i < r ==> comments[i].id != id
  {
    FindFirst(comments, (c: Comment<Id>) => c.id == id)
  }
}
