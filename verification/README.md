# Go course exercises: a verified model of their cores

This project models the business logic of eight homework programs from a Go
course and proves properties of that model. Each program gets its own
module. A few shared modules hold what several of them use.

- **Game** (`game.dfy`) is a text adventure. Rooms are joined by doors that
  may be locked. Items lie in rooms, and a player carries an inventory plus a
  storage item (the backpack). The player types commands: look around, walk,
  take, put on, apply.
- **Spammer** (`spammer.dfy`) is a goroutine pipeline. It looks up users by
  e-mail and drops duplicate users. It fetches their message IDs in batches
  and asks a spam checker about each message. Its last stage writes a report,
  sorted spam-first and then by message ID, to its output channel.
- **UserSearch** (`search.dfy`) is the HTTP search server of the coverage
  exercise. It validates the query parameters, filters the XML dataset by a
  substring, orders the users and returns one page of them. The handler is
  modelled twice: as written, where an out-of-range offset or limit makes
  the slice expression panic, and corrected, with range checks that answer
  400 instead.
- **TaskBot** (`taskbot.dfy`) is a Telegram task tracker. Its commands
  create, assign, unassign and resolve tasks, and list them. Each command
  answers the sender and notifies the people concerned.
- **MemoryPostRepo** and **MongoPostRepo** (`memory_post_repo.dfy`,
  `mongo_post_repo.dfy`) are the two post stores of the Reddit clone: one is
  an in-memory map, the other a MongoDB collection. Both list posts by
  criterion, sorted by score. Both add and delete posts and comments, and
  record votes together with the score and upvote percentage. Their shared
  types and vote arithmetic are in **Posts** (`posts.dfy`).
- **UserRepo** (`user_repo.dfy`) is the clone's in-memory user store. It
  holds registration and login, and issues a signed token.
- **NoteStore** (`note_store.dfy`) is the note service's in-memory
  repository. Note IDs are consecutive, and listings can be sorted by a
  chosen field.
- **Acl** (`acl.dfy`) is the gRPC access check of the microservice. It checks
  the caller's consumer name against the ACL's method patterns, and it emits
  an audit event when access is granted.

The shared modules:

- **Results** holds `Option` and `Result`.
- **Text** holds prefixes, substrings, joining, splitting, `strconv.Itoa` and
  `strconv.Atoi`, and the byte order of `strings.Compare`.
- **Sorting** holds a stable insertion sort over any total preorder. Its
  contract promises only what `slices.SortFunc` promises: a sorted
  permutation. The user search's page is the one exception: it is stated
  as a window of this sort's output, which fixes the order of users with
  equal keys.
- **Collections** holds duplicate-freedom, `Filter`, and map iteration
  orders.
- **Hex** holds `%x` encoding and `primitive.ObjectIDFromHex`.

Everything the programs take from outside becomes a parameter of the model.
That covers random bytes, the clock, bcrypt, JWT signing, the user and
message services of the spammer, the dataset file, and the caller's gRPC
metadata. Go's unspecified map iteration order is a parameter `order`, which
can be any sequence listing each key once (`Collections.Enumerates`). Every
listing over a map comes with a lemma saying how far its result depends on
that order.

A few places where the code and its description differ; the model follows
the code:

- The access check denies a call whose `consumer` metadata list is empty. A
  present but empty consumer name is looked up in the ACL like any other name
  (authMiddleware.go:50-53).
- `getMyTasks` shows the sender after "by", not the task's creator
  (commands.go:206).
- The search server's names are compared with `strings.Compare`, which orders
  by bytes. On valid UTF-8 that equals the code-point order `Text.StrLe`.

## Model

| member | source | states |
|---|---|---|
| Sorting.SortBy | 05_web_app/99_hw/redditclone/pkg/post/repo.go:61-63 | the result of sorting is a permutation of the input that is ordered by the comparator, for any total preorder |
| Sorting.SortedUnique | 10_ci_cd/99_hw/notestore/pkg/note/repo.go:99-116 | two sorted permutations of one collection are equal when the comparator orders no two distinct members both ways, so an unstable sort's result is determined |
| Sorting.SortByPermutationInvariant | 10_ci_cd/99_hw/notestore/pkg/note/repo.go:99-116 | under such a comparator the sort's output does not depend on the input's order |
| Collections.EnumerationsArePermutations | 10_ci_cd/99_hw/notestore/pkg/note/repo.go:93-96 | any two iteration orders of one map visit the same keys, once each |
| Collections.EnumerationLength | 10_ci_cd/99_hw/notestore/pkg/note/repo.go:93-96 | an iteration order visits exactly as many keys as the map holds |
| Hex.HexEncode | 05_web_app/99_hw/redditclone/pkg/post/repo.go:104 | `%x` writes two lower-case hex digits per byte |
| Hex.HexRoundTrip | 05_web_app/99_hw/redditclone/pkg/post/repo.go:104 | decoding the `%x` text of any bytes gives back those bytes |
| Hex.ObjectIdFromHex | 06_databases/99_hw/redditclone/pkg/repo/post/repo.go:134-137 | an ID parses exactly when it is 24 hex digits; a string whose UTF-8 length is not 24 bytes is the length error, as Go's `len` counts bytes; a 24-byte string that is not hex gets the decoder's error, which names the first byte of the first bad character |
| Hex.Utf8LenAscii | 06_databases/99_hw/redditclone/pkg/repo/post/repo.go:134-137 | a string has as many UTF-8 bytes as characters exactly when it is ASCII, so byte and character counts agree on hex digits |
| Hex.NonAsciiPassesLengthTest | 06_databases/99_hw/redditclone/pkg/repo/post/repo.go:134-137 | twelve Cyrillic letters are 24 bytes, pass the length test and are rejected by the decoder at byte 0xD0 |
| Hex.DigitsThenNonAsciiFailLengthTest | 06_databases/99_hw/redditclone/pkg/repo/post/repo.go:134-137 | 23 hex digits and any non-ASCII character are 24 characters but more than 24 bytes, and get the length error |
| Hex.ObjectIdHexRoundTrip | 06_databases/99_hw/redditclone/pkg/repo/post/repo.go:134-137 | parsing the hex form of any 12-byte ObjectID gives back that ID |
| Posts.ParseCriterion | 05_web_app/99_hw/redditclone/pkg/post/repo.go:17-21 | exactly the three criterion names "", "category" and "author" select a criterion, and that criterion's name is the one given |
| Posts.CriterionNameRoundTrip | 05_web_app/99_hw/redditclone/pkg/post/repo.go:17-21 | each criterion's name parses back to that criterion |
| Posts.Listing | 05_web_app/99_hw/redditclone/pkg/post/repo.go:40-66 | a listing holds exactly the stored posts the criterion matches, each once, with the highest score first |
| Posts.ListingOrderIrrelevant | 05_web_app/99_hw/redditclone/pkg/post/repo.go:46-63 | listings built from two iteration orders of the store hold the same posts the same number of times |
| Posts.UpvotePercentage | 06_databases/99_hw/redditclone/pkg/repo/post/repo.go:346-360 | the percentage is the floor of 100 times the share of +1 votes, from 0 to 100, and 0 when nobody voted |
| Posts.UpvotePercentageExtremes | 05_web_app/99_hw/redditclone/pkg/post/repo.go:258-269 | all votes up gives 100, no vote up gives 0 |
| Posts.ClassifyVote | 05_web_app/99_hw/redditclone/pkg/post/repo.go:230-256 | a vote falls into exactly one of VotePost's five cases, decided by whether the user voted before, with which direction, and the new direction |
| Posts.NewPost | 05_web_app/99_hw/redditclone/pkg/post/repo.go:79-114 | a new post has score 1, one +1 vote by its author, 100 percent up, no comments and no views, and keeps the submitted fields; it satisfies the post invariant |
| Posts.TallyAppend | 06_databases/99_hw/redditclone/pkg/repo/post/repo.go:352-359 | the score sum and the up-count of two vote lists joined are the sums of each |
| Posts.RemoveAt | 05_web_app/99_hw/redditclone/pkg/post/repo.go:243-246 | removing the vote at an index keeps the other votes in order and removes exactly that one |
| Posts.FindComment | 05_web_app/99_hw/redditclone/pkg/post/repo.go:179-196 | the index of the first comment with the ID, or -1 when no comment has it |
| MemoryPostRepo.FindItemsOnCriterion | 05_web_app/99_hw/redditclone/pkg/post/repo.go:40-66 | an unknown criterion lists nothing; otherwise exactly the matching stored posts, once each, highest score first |
| MemoryPostRepo.FindItemsOrderIrrelevant | 05_web_app/99_hw/redditclone/pkg/post/repo.go:46-63 | the listing holds the same posts whatever order the map is ranged in |
| MemoryPostRepo.Add | 05_web_app/99_hw/redditclone/pkg/post/repo.go:79-114 | a failed random read adds nothing; otherwise the new post is stored under the hex of the random bytes, with the author's upvote, score 1, no views or comments, the creation time and every field of the submitted data, and the other posts are unchanged |
| MemoryPostRepo.AddPreservesValid | 05_web_app/99_hw/redditclone/pkg/post/repo.go:79-114 | adding keeps every post under its own ID with score, voters and percentage consistent |
| MemoryPostRepo.DeletePostByID | 05_web_app/99_hw/redditclone/pkg/post/repo.go:126-142 | a missing post is not-found, another user's post is access-denied, and only the author's own post is removed, with nothing else changed |
| MemoryPostRepo.AddComment | 05_web_app/99_hw/redditclone/pkg/post/repo.go:144-168 | the random read is checked before the post lookup; success appends exactly one comment to the post and changes nothing else |
| MemoryPostRepo.DeleteComment | 05_web_app/99_hw/redditclone/pkg/post/repo.go:170-204 | missing post or comment is not-found, another user's comment is access-denied, and success removes just that comment and keeps the others in order |
| MemoryPostRepo.ApplyVote | 05_web_app/99_hw/redditclone/pkg/post/repo.go:206-272 | per case: no change, a new vote appended, the old vote removed, the same vote rejected as already voted, or the vote replaced; score moves by the difference and the percentage is recomputed |
| MemoryPostRepo.VotePost | 05_web_app/99_hw/redditclone/pkg/post/repo.go:206-229 | a missing post is not-found; otherwise the vote's outcome replaces the post in the store and nothing else changes |
| MemoryPostRepo.ApplyVoteRecordsDirection | 05_web_app/99_hw/redditclone/pkg/post/repo.go:230-256 | after a successful vote the user's recorded vote is the new direction and every other user's vote is unchanged |
| MemoryPostRepo.AlreadyVotedExactly | 05_web_app/99_hw/redditclone/pkg/post/repo.go:248-249 | a vote is rejected exactly when it repeats the user's current non-zero vote |
| MemoryPostRepo.ApplyVotePreservesInvariant | 05_web_app/99_hw/redditclone/pkg/post/repo.go:230-269 | voting keeps score equal to the vote sum, one vote per user, and the percentage up to date |
| MemoryPostRepo.VotePostPreservesValid | 05_web_app/99_hw/redditclone/pkg/post/repo.go:206-272 | voting keeps the store consistent |
| MemoryPostRepo.CommentsPreserveValid | 05_web_app/99_hw/redditclone/pkg/post/repo.go:126-204 | adding or deleting a comment and deleting a post keep the store consistent |
| MongoPostRepo.FindItemsOnCriterion | 06_databases/99_hw/redditclone/pkg/repo/post/repo.go:38-67 | an unknown criterion is the undefined-criterion error; otherwise exactly the matching posts, once each, highest score first |
| MongoPostRepo.Add | 06_databases/99_hw/redditclone/pkg/repo/post/repo.go:90-121 | an ID already stored is a duplicate-key error; otherwise the new post is inserted with the author's upvote, score 1, no views or comments, the creation time and every field of the submitted data, and nothing else changes |
| MongoPostRepo.ParseId | 06_databases/99_hw/redditclone/pkg/repo/post/repo.go:134-137 | an ID is accepted exactly when it is 24 hex digits, and then it is the decoded ObjectID |
| MongoPostRepo.DeletePostByID | 06_databases/99_hw/redditclone/pkg/repo/post/repo.go:133-158 | a malformed ID is rejected; a missing post is not-found, another user's post access-denied, and the author's post is deleted alone |
| MongoPostRepo.AddComment | 06_databases/99_hw/redditclone/pkg/repo/post/repo.go:160-195 | a malformed ID is rejected, a missing post is not-found, and success appends one comment to that post only |
| MongoPostRepo.DeleteComment | 06_databases/99_hw/redditclone/pkg/repo/post/repo.go:197-254 | malformed IDs are rejected; the not-found and access-denied cases are decided by the first comment with the ID; success pulls the comment from that post only |
| MongoPostRepo.PullCommentsRemovesOne | 06_databases/99_hw/redditclone/pkg/repo/post/repo.go:235-247 | when comment IDs are distinct, `$pull` by a comment's ID removes exactly that comment |
| MongoPostRepo.PullVotes | 06_databases/99_hw/redditclone/pkg/repo/post/repo.go:296-299 | `$pull` keeps exactly the votes of the other users |
| MongoPostRepo.SetVotes | 06_databases/99_hw/redditclone/pkg/repo/post/repo.go:305-314 | the positional update rewrites the direction of the user's votes and leaves the rest |
| MongoPostRepo.PullVotesRemovesOnly | 06_databases/99_hw/redditclone/pkg/repo/post/repo.go:296-299 | while each user has voted at most once, `$pull` by the voter removes exactly that voter's entry and keeps the others in order |
| MongoPostRepo.SetVotesUpdatesOnly | 06_databases/99_hw/redditclone/pkg/repo/post/repo.go:305-314 | while each user has voted at most once, the filtered `$set` rewrites exactly that voter's entry |
| MongoPostRepo.ApplyVote | 06_databases/99_hw/redditclone/pkg/repo/post/repo.go:284-333 | a no-op vote changes nothing, repeating the current vote is already-voted, and every other vote recounts the percentage |
| MongoPostRepo.ApplyVoteAgreesWithMemory | 06_databases/99_hw/redditclone/pkg/repo/post/repo.go:256-344 | while each user has voted at most once, the database store votes exactly as the in-memory store does |
| MongoPostRepo.Recount | 06_databases/99_hw/redditclone/pkg/repo/post/repo.go:321-341 | recounting sets the percentage from the votes and changes nothing else |
| MongoPostRepo.VotePost | 06_databases/99_hw/redditclone/pkg/repo/post/repo.go:256-344 | a malformed ID is rejected, a missing post not-found, and otherwise the vote's outcome replaces that post only |
| MongoPostRepo.VotePostPreservesValid | 06_databases/99_hw/redditclone/pkg/repo/post/repo.go:256-344 | voting keeps the collection consistent |
| UserRepo.Authorize | 05_web_app/99_hw/redditclone/pkg/user/repo.go:32-51 | an unknown login and a wrong password both give the same not-found error; otherwise the token signed for the stored user's login and ID, and a signing failure is the signer's own error (`SigningFailed`), never the not-found error |
| UserRepo.Register | 06_databases/99_hw/redditclone/pkg/repo/user/repo.go:80-112 | the corrected registration, which signs the token for the stored ID as the SQL-backed registry does: an existing login is refused with nothing changed; a failed hash or random read stores nothing and gives its error; otherwise the user is stored with the hashed password under the hex of the random read, and the token, when signing succeeds, is signed for that user's ID, while a signing failure gives the signer's error `SigningFailed` |
| UserRepo.RegisterPreservesValid | 05_web_app/99_hw/redditclone/pkg/user/repo.go:66-75 | every user stays stored under its own login |
| UserRepo.RegisterThenAuthorize | 05_web_app/99_hw/redditclone/pkg/user/repo.go:32-88 | after a successful registration, logging in with the same password returns the same token |
| UserRepo.RegisterAsWritten | 05_web_app/99_hw/redditclone/pkg/user/repo.go:53-88 | an existing login is refused; a failed hash or first random read stores nothing and gives its error; otherwise the user is stored with the hashed password under the hex of the first read, and stays stored when the second read or the signing fails; a failed signing gives the signer's error `SigningFailed`; a token it returns is signed for the hex of the second read, not for the stored ID |
| UserRepo.RegisterAsWrittenStoresAsRegister | 05_web_app/99_hw/redditclone/pkg/user/repo.go:53-88 | the written and the corrected registration store the same users, and answer alike when the second random read repeats the first |
| UserRepo.RegisterAsWrittenSignsOtherId | 05_web_app/99_hw/redditclone/pkg/user/repo.go:77-82 | with 16-byte random reads of zeros and then zeros ending in 1, the user is stored under 32 zero digits, registration's token names 31 zero digits and a 1, and logging in gives a token for the 32 zero digits |
| NoteStore.GetNote | 10_ci_cd/99_hw/notestore/pkg/note/repo.go:31-38 | the note stored under the ID, or nothing when there is none |
| NoteStore.CreateNote | 10_ci_cd/99_hw/notestore/pkg/note/repo.go:40-59 | the new note takes the next ID, above every stored ID, with the first clock reading as creation time and the second as update time, and the other notes are kept |
| NoteStore.ClockKeepsTimesOrdered | 10_ci_cd/99_hw/notestore/pkg/note/repo.go:48-53 | with a clock that does not go back, creating and updating notes never leaves a note updated before it was created |
| NoteStore.UpdateNote | 10_ci_cd/99_hw/notestore/pkg/note/repo.go:61-74 | a missing note changes nothing; otherwise only the text and update time of that note change |
| NoteStore.DeleteNote | 10_ci_cd/99_hw/notestore/pkg/note/repo.go:76-88 | deleting fails with "no such note" exactly when the ID is missing; otherwise only that note goes and the ID counter is kept |
| NoteStore.RunIssuesConsecutive | 10_ci_cd/99_hw/notestore/pkg/note/repo.go:40-59 | over any mix of operations, the created notes get consecutive IDs and the store stays consistent |
| NoteStore.FreshIdsAreOneToN | 10_ci_cd/99_hw/notestore/pkg/note/repo_test.go:12-16 | from a fresh store, the notes created get IDs 1, 2, 3 and so on |
| NoteStore.GetNotes | 10_ci_cd/99_hw/notestore/pkg/note/repo.go:90-120 | every stored note once; sorted by ID (strictly), text, creation or update time as the parameter asks, and in iteration order for any other parameter |
| NoteStore.GetNotesByIdOrderIrrelevant | 10_ci_cd/99_hw/notestore/pkg/note/repo.go:90-103 | the listing by ID is the same whatever order the map is ranged in |
| TaskBot.CreateTask | 04_net2/99_hw/taskbot/commands.go:56-73 | the task takes the next counter value as ID, which is not in use, with the sender as creator and no assignee; nobody is notified |
| TaskBot.AssignTask | 04_net2/99_hw/taskbot/commands.go:75-127 | an unknown ID changes nothing; otherwise the sender becomes the assignee and the creator of a free task or the previous assignee (other than the sender) is told |
| TaskBot.UnassignTask | 04_net2/99_hw/taskbot/commands.go:129-157 | only the assignee may give a task up; then it is free again and its creator is told |
| TaskBot.ResolveTask | 04_net2/99_hw/taskbot/commands.go:159-186 | only the assignee may resolve a task; then exactly that task is removed and its creator is told |
| TaskBot.RunNumbersConsecutively | 04_net2/99_hw/taskbot/commands.go:56-73 | over any command sequence, new tasks get consecutive IDs and the board stays consistent |
| TaskBot.CreatedIdsAreOneToN | 04_net2/99_hw/taskbot/store.go:17-26 | from an empty board, the tasks created get IDs 1, 2, 3 and so on |
| TaskBot.TaskIds | 04_net2/99_hw/taskbot/commands.go:16-28 | the listing shows every task once, in ascending ID order |
| TaskBot.MyTaskIds | 04_net2/99_hw/taskbot/commands.go:188-199 | exactly the tasks assigned to the sender, in ascending ID order |
| TaskBot.OwnTaskIds | 04_net2/99_hw/taskbot/commands.go:214-225 | exactly the tasks the sender created, in ascending ID order |
| TaskBot.ListingIdsOrderIrrelevant | 04_net2/99_hw/taskbot/commands.go:16-238 | each of the three listings is the same whatever order the map is ranged in |
| TaskBot.GetTasks | 04_net2/99_hw/taskbot/commands.go:16-54 | an empty board answers "no tasks"; otherwise one block per task, ascending, separated by blank lines and with the trailing separator cut |
| TaskBot.GetMyTasks | 04_net2/99_hw/taskbot/commands.go:188-212 | one line pair per task assigned to the sender, with its unassign and resolve commands |
| TaskBot.GetOwnTasks | 04_net2/99_hw/taskbot/commands.go:214-238 | one line pair per task the sender created, with its assign command |
| Acl.AdmitsMeaning | 08_microservices/99_hw/microservice/authMiddleware.go:68 | an entry admits a method when it names it exactly, or ends in `*` and the method starts with the rest; `*` alone admits every method |
| Acl.AnyAdmits | 08_microservices/99_hw/microservice/authMiddleware.go:67-80 | true exactly when some entry of the consumer's list admits the method |
| Acl.CheckAccess | 08_microservices/99_hw/microservice/authMiddleware.go:44-81 | access is granted exactly when the context names a listed consumer whose entries admit the method; a grant emits one event with the consumer, method and peer, a denial emits nothing |
| Acl.UnknownCallerDenied | 08_microservices/99_hw/microservice/authMiddleware.go:45-60 | missing metadata, an empty consumer list or an unlisted consumer is denied |
| Acl.OnlyFirstConsumerCounts | 08_microservices/99_hw/microservice/authMiddleware.go:50-57 | only the first consumer value decides the verdict |
| Acl.UnaryIntercept | 08_microservices/99_hw/microservice/authMiddleware.go:20-30 | the handler runs exactly when the check passes, and its answer is returned; otherwise the check's error |
| Acl.StreamIntercept | 08_microservices/99_hw/microservice/authMiddleware.go:32-42 | the stream handler runs exactly when the check passes; otherwise the check's error |
| Game.ItemRoomIndex | 01_intro/99_hw/game/user.go:20-30 | the index of the first item of the room with the name, or -1 with "нет такого" exactly when there is none |
| Game.TakeItem | 01_intro/99_hw/game/user.go:32-43 | success moves exactly that item from the room into the inventory, keeping the rest in order; failure changes nothing |
| Game.HandleTakeItem | 01_intro/99_hw/game/user.go:108-146 | without the storage item only the storage item can be taken; otherwise the item is taken and the answer says it was put on or put away |
| Game.HandleApply | 01_intro/99_hw/game/user.go:83-106 | an item not carried, an item with no targets and an unknown target each answer without effect; otherwise the item's effect runs and the target's answer is given |
| Game.UseItem | 01_intro/99_hw/game/main.go:39-43 | the key's effect opens every door of the current room and changes nothing else |
| Game.HandleWalk | 01_intro/99_hw/game/user.go:164-181 | a room that is not next door or is behind a closed door leaves the player in place; otherwise the player moves and sees the room and its ways out |
| Game.PossibleMoves | 01_intro/99_hw/game/user.go:183-200 | the ways out are the neighbours in display order joined by commas, each read as "домой" outside the house |
| Game.HandleLookAround | 01_intro/99_hw/game/user.go:148-162 | the answer starts with the room's description, or "пустая комната" for an empty room, and ends with the ways out |
| Game.DoCommand | 01_intro/99_hw/game/user.go:49-81 | a known verb with too few arguments is the format error with no change; an unknown verb answers "неизвестная команда"; otherwise the verb's handler runs |
| Game.HandleCommand | 01_intro/99_hw/game/main.go:147-158 | the line split on spaces joins back to the line, and its first word is the verb given the rest as arguments |
| Game.InitGame | 01_intro/99_hw/game/main.go:22-145 | four rooms, each under its own name; the player starts in the kitchen with nothing and the backpack as storage |
| Game.InitialDoors | 01_intro/99_hw/game/main.go:62-133 | every door is open at the start except the two between corridor and street, and each room's neighbours are its doors |
| Game.KeyOpensDoors | 01_intro/99_hw/game/main.go:33-44 | applying the carried key to the door answers "дверь открыта" and opens every door of the room |
| Game.FirstLookAround | 01_intro/99_hw/game/main.go:22-145 | the first look around in the kitchen reads as the game's opening text |
| Spammer.RunPipeline | 02_async/99_hw/spammer/spammer.go:10-30 | each stage reads what the stage before it wrote; the first reads nothing |
| Spammer.SelectUsers | 02_async/99_hw/spammer/spammer.go:32-71 | every output is a user looked up from an input e-mail, no user ID is emitted twice, and every e-mail's user is emitted |
| Spammer.SelectUsersSkipsNonStrings | 02_async/99_hw/spammer/spammer.go:42-46 | a value that is not a string is ignored as if absent |
| Spammer.Batches | 02_async/99_hw/spammer/spammer.go:100-115 | the batches hold the users in order; every batch but the last is full, and none is empty |
| Spammer.BatchCount | 02_async/99_hw/spammer/spammer.go:100-115 | there are as many batches as the user count divided by the batch size, rounded up |
| Spammer.BatchFailureIsolated | 02_async/99_hw/spammer/spammer.go:83-87 | a batch whose fetch fails contributes nothing, and the other batches' messages are all kept |
| Spammer.SelectMessages | 02_async/99_hw/spammer/spammer.go:73-118 | every message of every batch that fetched successfully is emitted, and only message IDs are emitted |
| Spammer.FetchAllContents | 02_async/99_hw/spammer/spammer.go:73-118 | the batch workers write only message IDs, each from a batch whose fetch succeeded, and every message of such a batch is written |
| Spammer.CheckSpam | 02_async/99_hw/spammer/spammer.go:120-150 | one verdict per input message whose check succeeded, carrying that check's answer; failed checks are dropped |
| Spammer.CheckSpamOrderInsensitive | 02_async/99_hw/spammer/spammer.go:120-150 | the verdicts do not depend on the order the messages arrive in |
| Spammer.Report | 02_async/99_hw/spammer/spammer.go:167-179 | the verdicts rearranged with spam first, then by ascending message ID |
| Spammer.FormatLineInjective | 02_async/99_hw/spammer/spammer.go:182 | distinct verdicts are formatted as distinct lines |
| Spammer.CombineResults | 02_async/99_hw/spammer/spammer.go:152-184 | one formatted line written per verdict, in report order |
| Spammer.CombineResultsDeterministic | 02_async/99_hw/spammer/spammer.go:152-184 | the written report is the same for any arrival order of the verdicts |
| Spammer.SpamPipelineReport | 02_async/99_hw/spammer/spammer.go:10-184 | under the sequential semantics, the last stream of the five-stage pipeline is the combined report of the checked messages, one line per message when every check succeeds |
| UserSearch.ToJson | 03_net1/99_hw/coverage/server.go:46-56 | the JSON name is the first name, one space and the last name; the other fields are carried over |
| UserSearch.BeforeMeaning | 03_net1/99_hw/coverage/server.go:76-92 | ordering by Id or Age compares those numbers and any other field the full names, reversed for descending order |
| UserSearch.BeforeIsPreorder | 03_net1/99_hw/coverage/server.go:76-92 | every field and direction gives a total preorder |
| UserSearch.OrderUsers | 03_net1/99_hw/coverage/server.go:72-93 | as-is order keeps the users; otherwise the same users sorted by the field, ascending or descending |
| UserSearch.OrderByIdIgnoresInputOrder | 03_net1/99_hw/coverage/server.go:76-92 | with distinct IDs, ordering by ID gives one result whatever the input order |
| UserSearch.Selected | 03_net1/99_hw/coverage/server.go:98-106 | an empty query keeps every user; otherwise exactly the users whose full name or about text contains the query |
| UserSearch.Page | 03_net1/99_hw/coverage/server.go:108-122 | a page starts at the offset and holds at most limit elements, all the rest when the limit is unset, and nothing past the end |
| UserSearch.OnlyOnePage | 03_net1/99_hw/coverage/server.go:108-122 | the description of a page (empty past the end, exactly min(limit, rest) long, element by element from the offset) fits only one sequence |
| UserSearch.PagesTile | 03_net1/99_hw/coverage/server.go:108-122 | a page followed by everything after it is the rest of the list from the page's offset |
| UserSearch.PagingAtTheEnd | 03_net1/99_hw/coverage/server_test.go:297-307 | with 35 users and limit 40, offsets 33, 34 and 35 give two, one and no users |
| UserSearch.ApplyQueryToUsers | 03_net1/99_hw/coverage/server.go:95-123 | the result is the page of the filtered and ordered users: empty past the end, otherwise starting at the offset and as long as the limit or the rest, whichever is shorter; it holds only matching users, and offset 0 with no limit returns every match |
| UserSearch.IntParam | 03_net1/99_hw/coverage/server.go:173-202 | an absent parameter takes its default, and a present one must parse as an integer or gives its message |
| UserSearch.ProcessQueryParamsAsWritten | 03_net1/99_hw/coverage/server.go:141-215 | accepted exactly when the field is Name, Id, Age or absent, the order is absent or reads as one of the three constants, and limit and offset are absent or read as integers; the first failing check, in the order field, order, limit, offset, gives its own error; an accepted request carries the query, the field (Name when absent) and the values strconv.Atoi reads, with defaults as-is, unset and 0 |
| UserSearch.ProcessQueryParams | 03_net1/99_hw/coverage/server.go:141-215 | the written checks and their errors, plus a negative offset or a limit below -1 rejected with its message; an accepted request is the written one, and it can always be paged |
| UserSearch.AcceptedQueryIsCanonical | 03_net1/99_hw/coverage/server.go:141-215 | every accepted query yields the same request as the canonical query a client would send for it |
| UserSearch.OnlyParametersMatter | 03_net1/99_hw/coverage/server.go:141-215 | two queries that agree on the first values of the five parameters are validated alike |
| UserSearch.ProcessQueryOf | 03_net1/99_hw/coverage/server.go:141-215 | the query a client sends for a valid request is parsed back into that request |
| UserSearch.ApplyQueryAsWritten | 03_net1/99_hw/coverage/server.go:108-122 | the slice expression panics only for a negative offset, a limit below -1 or an int64 overflow of the end index |
| UserSearch.PageAsWritten | 03_net1/99_hw/coverage/server.go:108-122 | the unchecked window panics only for a negative offset, a limit below -1 or an int64 overflow of the end index |
| UserSearch.PageAsWrittenInRange | 03_net1/99_hw/coverage/server.go:108-122 | when the end index fits in int64 and the request is pageable, the unchecked window is exactly the checked page |
| UserSearch.AsWrittenAgreesInRange | 03_net1/99_hw/coverage/server.go:108-122 | when no index overflows and the request is pageable, the written paging equals the corrected one |
| UserSearch.NegativeOffsetPanics | 03_net1/99_hw/coverage/server.go:189-202 | offset -1 passes the written validation and makes the paging panic, while the corrected validation rejects it |
| UserSearch.LimitOverflowPanics | 03_net1/99_hw/coverage/server.go:114-122 | limit 9223372036854775807 with offset 1 overflows the end index and panics, where the corrected paging returns the one user after the offset |
| UserSearch.SearchServerAsWritten | 03_net1/99_hw/coverage/server.go:217-245 | an empty token is 401 before anything else; parameters the written validation refuses are 400 and an unreadable dataset 500; otherwise it panics exactly when the unchecked paging does, and answers 200 with that page serialised in order |
| UserSearch.SearchServerPanicsOnlyOutOfRange | 03_net1/99_hw/coverage/server.go:217-245 | the written handler panics only on an authorised, accepted request over a readable dataset whose offset is negative, limit below -1 or end index beyond int64 |
| UserSearch.SearchServer | 03_net1/99_hw/coverage/server.go:217-245 | the corrected handler, validating with the range checks: an empty token is 401 before anything else; bad parameters are 400 and an unreadable dataset 500; 200 exactly when the token is set, the parameters pass and the dataset is readable, with the page of the request serialised in order, and it never panics |
| UserSearch.SearchServerAgreesInRange | 03_net1/99_hw/coverage/server.go:217-245 | on every request whose written parameters are in range, the written handler gives the corrected handler's answer |
| UserSearch.NegativeOffsetCrashesHandler | 03_net1/99_hw/coverage/server.go:224-244 | an authorised request with offset -1 crashes the written handler even over an empty dataset, where the corrected one answers 400 with the offset message |

## Left out

- Goroutines, channels, mutexes and wait groups. The spammer's stages are
  functions from one input stream to one output stream, and each stream is
  one possible arrival order. The contracts are stated over multisets and
  sets, so they hold for every schedule.
- HTTP and JSON encoding, and the error paths for write failures
  (`SendResultToClient`, the encode errors in `ProccesQueryParams`). They are
  I/O.
- bcrypt, JWT signing, `crypto/rand` and the clock are parameters of the
  model. Their own correctness is outside it.
- What `net/http` does once a handler panics (it recovers and drops the
  connection). The written search handler's answer is then just `Panicked`.
- The dataset file and its XML decoding. They are a parameter holding the
  decoded users or the error.
- MongoDB driver errors other than a duplicate key. Database failures are
  I/O, so a filter or update is modelled as always reaching the server.
- The thin getters `GetAll`, `GetByID`, `GetByCategory` and
  `GetPostsByUsername` of both post stores. Each is one call of the
  criterion listing or one map or collection lookup.
- The bot's update loop and command dispatch (bot.go). Telegram chat IDs are
  also left out, and a notification names the recipient's username.
- The `order_by` constants come from the client, which is not part of this
  model. The model takes -1, 0 and 1 for ascending, as-is and descending.
- 64-bit integer overflow of counters and IDs in the task bot and the note
  store. They grow by one per created item.
- Game's error printing in `handleCommand`. The error is only written to
  standard output.
- Game: applying an item that has an answer table but no action is a nil
  function call in Go. Every such item in the game's world has an action, so
  the model gives such items no effect.
- MongoPostRepo.ApplyVote: its contract states the case split, the
  already-voted error and the recomputed percentage, not the new vote list.
  The vote list is given through `MongoPostRepo.ApplyVoteAgreesWithMemory`,
  which applies while each user has voted at most once.
- Spammer.RunPipeline: two blocking behaviours of the goroutine version are
  not represented. The last stage's output channel is unbuffered and has no
  reader, so CombineResults blocks on its first send and `wg.Wait()` never
  returns once there is a verdict to report. The first stage's input is a
  nil channel, so a first command that reads from it blocks forever. The
  sequential model gives the first stage an empty stream and treats each
  stage's output as fully written.
- Spammer.SelectMessages: its contract states completeness (every fetched
  message is emitted) and not which batch each message came from. That
  accounting is `Spammer.BatchFailureIsolated`.
- UserSearch.ApplyQueryToUsers: `slices.SortFunc` is not stable, so users
  with equal keys may come out of the source's sort in any order. The model
  sorts with a stable insertion sort, and the page, stated as a window of
  that particular order, keeps equal users in dataset order. The same holds
  for UserSearch.SearchServer. The other listings promise only a sorted
  permutation.

## Findings

| source | as written | input that shows it | evidently intended | confidence | as-written member | corrected member |
|---|---|---|---|---|---|---|
| 03_net1/99_hw/coverage/server.go:173-202 | limit and offset are only checked to parse as integers, so a negative offset or a limit below -1 is accepted and reaches the slice expression, which panics | query `offset=-1` on any dataset | a negative offset or a limit below -1 is answered with 400 and the offset or limit message | high, not executed | UserSearch.NegativeOffsetPanics | UserSearch.ProcessQueryParams |
| 03_net1/99_hw/coverage/server.go:114-122 | the end index `offset + limit` is computed in int64 and can wrap, and the wrapped index makes the slice expression panic | limit 9223372036854775807, offset 1, two users | the page holds every user after the offset | medium, not executed | UserSearch.LimitOverflowPanics | UserSearch.ApplyQueryToUsers |
| 05_web_app/99_hw/redditclone/pkg/user/repo.go:77-82 | after storing the user under the hex of one random read, a second random read is made and the token is signed for its hex, so the token names an ID no user has | registration with 16-byte random reads of all zeros and then zeros ending in 1: the user is stored under 32 zero digits, the token carries 31 zero digits and a 1 | the token is signed for the stored user's ID, as Authorize does | high, not executed | UserRepo.RegisterAsWrittenSignsOtherId | UserRepo.RegisterThenAuthorize |
