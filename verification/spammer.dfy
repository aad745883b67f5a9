/** The spam-report pipeline (02_async/99_hw/spammer/spammer.go) read as a
    composition of stream functions.

    Each Go stage runs goroutines whose outputs reach the next channel in an
    order the scheduler picks. A stage here is a function from the stream it
    reads to the stream it writes, computed for one arrival order; every
    contract is stated as a multiset or set property, so it holds whatever
    order the goroutines finish in. Channels carry `interface{}` values, so a
    stream element is a tagged `Value` and each stage skips the values of
    the wrong type, as the Go type assertions do.

    GetUser, GetMessages, HasSpam and GetMessagesMaxUsersBatch live in a
    file that is not part of this model; they are parameters here. */
module Spammer {
  import opened Results
  import opened Text
  import opened Sorting

  type MsgID = nat

  datatype User = User(id: nat, email: string)

  datatype MsgData = MsgData(id: MsgID, hasSpam: bool)

  /** A value travelling on an `interface{}` channel. */
  datatype Value =
    | VString(s: string)
    | VUser(user: User)
    | VMsgID(msg: MsgID)
    | VMsgData(data: MsgData)
    | VOther

  /** One pipeline command: reads its whole input stream, writes its output. */
  type Stage = seq<Value> -> seq<Value>

  // ---------------------------------------------------------------------------
  // RunPipeline
  // ---------------------------------------------------------------------------

  /** The streams written by `cmds` when the first one reads `input` and each
      later one reads what its predecessor wrote. */
  function RunFrom(cmds: seq<Stage>, input: seq<Value>): (r: seq<seq<Value>>)
    ensures |r| == |cmds|
    ensures |cmds| > 0 ==> r[0] == cmds[0](input)
    ensures forall i :: 0 < i < |cmds| ==> r[i] == cmds[i](r[i - 1])
    decreases |cmds|
  {
    if |cmds| == 0 then []
    else
      var out := cmds[0](input);
      [out] + RunFrom(cmds[1..], out)
  }

  /** RunPipeline: the first command's input is a nil channel (a command
      that read it would block, so here it reads an empty stream), and every
      later one reads its predecessor's output channel. The result lists what
      every stage wrote. */
  function RunPipeline(cmds: seq<Stage>): (r: seq<seq<Value>>)
    ensures |r| == |cmds|
    ensures |cmds| > 0 ==> r[0] == cmds[0]([])
    ensures forall i :: 0 < i < |cmds| ==> r[i] == cmds[i](r[i - 1])
  {
    RunFrom(cmds, [])
  }

  // ---------------------------------------------------------------------------
  // SelectUsers
  // ---------------------------------------------------------------------------

  /** `u` is the user some e-mail of `input` resolves to. */
  ghost predicate LookedUp(getUser: string -> User, input: seq<Value>, u: User) {
    exists k :: 0 <= k < |input| && input[k].VString? && getUser(input[k].s) == u
  }

  /** Every output is a user looked up from `input` whose ID was not yet claimed. */
  ghost predicate FreshLookups(getUser: string -> User, input: seq<Value>, seen: set<nat>, r: seq<Value>) {
    forall i :: 0 <= i < |r| ==> r[i].VUser? && r[i].user.id !in seen && LookedUp(getUser, input, r[i].user)
  }

  /** No user ID is emitted twice. */
  ghost predicate DistinctUserIds(r: seq<Value>) {
    forall i, j :: 0 <= i < j < |r| ==> r[i].VUser? && r[j].VUser? && r[i].user.id != r[j].user.id
  }

  /** Some output carries user ID `id`. */
  ghost predicate EmitsId(r: seq<Value>, id: nat) {
    exists i :: 0 <= i < |r| && r[i].VUser? && r[i].user.id == id
  }

  /** Every e-mail's user ID was claimed before or is emitted. */
  ghost predicate CoversInput(getUser: string -> User, input: seq<Value>, seen: set<nat>, r: seq<Value>) {
    forall k :: 0 <= k < |input| && input[k].VString? ==>
      getUser(input[k].s).id in seen || EmitsId(r, getUser(input[k].s).id)
  }

  /** SelectUsers' loop, with `seen` the IDs already claimed in the shared set. */
  function SelectUsersFrom(getUser: string -> User, input: seq<Value>, seen: set<nat>): (r: seq<Value>)
    ensures FreshLookups(getUser, input, seen, r)
    ensures DistinctUserIds(r)
    ensures CoversInput(getUser, input, seen, r)
    decreases |input|
  {
    if |input| == 0 then []
    else
      var rest := input[1..];
      match input[0]
      case VString(email) =>
        var user := getUser(email);
        if user.id in seen then
          var r := SelectUsersFrom(getUser, rest, seen);
          SkipStep(getUser, input, seen, r);
          r
        else
          var tail := SelectUsersFrom(getUser, rest, seen + {user.id});
          EmitStep(getUser, input, seen, tail);
          [VUser(user)] + tail
      case _ =>
        var r := SelectUsersFrom(getUser, rest, seen);
        SkipStep(getUser, input, seen, r);
        r
  }

  /** The loop step that emits nothing: a repeated ID or a non-string. */
  lemma SkipStep(getUser: string -> User, input: seq<Value>, seen: set<nat>, r: seq<Value>)
    requires |input| > 0
    requires !input[0].VString? || getUser(input[0].s).id in seen
    requires FreshLookups(getUser, input[1..], seen, r) && CoversInput(getUser, input[1..], seen, r)
    ensures FreshLookups(getUser, input, seen, r) && CoversInput(getUser, input, seen, r)
  {
    var rest := input[1..];
    forall i | 0 <= i < |r| ensures LookedUp(getUser, input, r[i].user) {
      assert LookedUp(getUser, rest, r[i].user);
      var k :| 0 <= k < |rest| && rest[k].VString? && getUser(rest[k].s) == r[i].user;
      assert input[k + 1] == rest[k];
    }
    forall k | 0 <= k < |input| && input[k].VString? && k > 0
      ensures getUser(input[k].s).id in seen || EmitsId(r, getUser(input[k].s).id)
    {
      assert rest[k - 1] == input[k];
    }
  }

  /** The loop step that claims and emits a new user ID. */
  lemma EmitStep(getUser: string -> User, input: seq<Value>, seen: set<nat>, tail: seq<Value>)
    requires |input| > 0 && input[0].VString? && getUser(input[0].s).id !in seen
    requires var claimed := seen + {getUser(input[0].s).id};
             FreshLookups(getUser, input[1..], claimed, tail) && DistinctUserIds(tail) &&
             CoversInput(getUser, input[1..], claimed, tail)
    ensures var r := [VUser(getUser(input[0].s))] + tail;
            FreshLookups(getUser, input, seen, r) && DistinctUserIds(r) && CoversInput(getUser, input, seen, r)
  {
    var user := getUser(input[0].s);
    EmitFresh(getUser, input, seen, tail);
    assert forall i :: 0 <= i < |tail| ==> tail[i].VUser? && tail[i].user.id != user.id;
    EmitDistinct(user, tail);
    EmitCovers(getUser, input, seen, tail);
  }

  lemma EmitDistinct(user: User, tail: seq<Value>)
    requires DistinctUserIds(tail)
    requires forall i :: 0 <= i < |tail| ==> tail[i].VUser? && tail[i].user.id != user.id
    ensures DistinctUserIds([VUser(user)] + tail)
  {
    var r := [VUser(user)] + tail;
    forall i, j | 0 <= i < j < |r| ensures r[i].VUser? && r[j].VUser? && r[i].user.id != r[j].user.id {
      assert r[j] == tail[j - 1];
      if i > 0 {
        assert r[i] == tail[i - 1];
      }
    }
  }

  lemma EmitFresh(getUser: string -> User, input: seq<Value>, seen: set<nat>, tail: seq<Value>)
    requires |input| > 0 && input[0].VString? && getUser(input[0].s).id !in seen
    requires FreshLookups(getUser, input[1..], seen + {getUser(input[0].s).id}, tail)
    ensures FreshLookups(getUser, input, seen, [VUser(getUser(input[0].s))] + tail)
  {
    var user := getUser(input[0].s);
    var rest := input[1..];
    var r := [VUser(user)] + tail;
    forall i | 0 <= i < |r| ensures r[i].VUser? && r[i].user.id !in seen && LookedUp(getUser, input, r[i].user) {
      if i == 0 {
        assert input[0].VString? && getUser(input[0].s) == user;
      } else {
        assert r[i] == tail[i - 1];
        assert LookedUp(getUser, rest, tail[i - 1].user);
        var k :| 0 <= k < |rest| && rest[k].VString? && getUser(rest[k].s) == tail[i - 1].user;
        assert input[k + 1] == rest[k];
      }
    }
  }

  lemma EmitCovers(getUser: string -> User, input: seq<Value>, seen: set<nat>, tail: seq<Value>)
    requires |input| > 0 && input[0].VString? && getUser(input[0].s).id !in seen
    requires CoversInput(getUser, input[1..], seen + {getUser(input[0].s).id}, tail)
    ensures CoversInput(getUser, input, seen, [VUser(getUser(input[0].s))] + tail)
  {
    var user := getUser(input[0].s);
    var rest := input[1..];
    var r := [VUser(user)] + tail;
    forall k | 0 <= k < |input| && input[k].VString?
      ensures getUser(input[k].s).id in seen || EmitsId(r, getUser(input[k].s).id)
    {
      var id := getUser(input[k].s).id;
      if id == user.id {
        assert r[0].VUser? && r[0].user.id == id;
      } else if id !in seen {
        assert k > 0;
        assert rest[k - 1] == input[k];
        assert EmitsId(tail, id);
        var i :| 0 <= i < |tail| && tail[i].VUser? && tail[i].user.id == id;
        assert r[i + 1] == tail[i];
      }
    }
  }

  /** SelectUsers: looks up every e-mail and emits each distinct user ID once. */
  function SelectUsers(getUser: string -> User, input: seq<Value>): (r: seq<Value>)
    ensures forall i :: 0 <= i < |r| ==> r[i].VUser? && LookedUp(getUser, input, r[i].user)
    ensures DistinctUserIds(r)
    ensures forall k :: 0 <= k < |input| && input[k].VString? ==> EmitsId(r, getUser(input[k].s).id)
  {
    SelectUsersFrom(getUser, input, {})
  }

  /** A value that is not a string is skipped wherever it appears. */
  lemma {:induction false} SelectUsersSkipsNonStrings(getUser: string -> User, a: seq<Value>, v: Value,
                                                      b: seq<Value>, seen: set<nat>)
    requires !v.VString?
    ensures SelectUsersFrom(getUser, a + [v] + b, seen) == SelectUsersFrom(getUser, a + b, seen)
    decreases |a|
  {
    if |a| == 0 {
      assert a + [v] + b == [v] + b;
      assert ([v] + b)[1..] == b;
      assert a + b == b;
    } else {
      assert (a + [v] + b)[0] == a[0] && (a + b)[0] == a[0];
      assert (a + [v] + b)[1..] == a[1..] + [v] + b;
      assert (a + b)[1..] == a[1..] + b;
      match a[0]
      case VString(email) =>
        var user := getUser(email);
        if user.id in seen {
          SelectUsersSkipsNonStrings(getUser, a[1..], v, b, seen);
        } else {
          SelectUsersSkipsNonStrings(getUser, a[1..], v, b, seen + {user.id});
        }
      case _ =>
        SelectUsersSkipsNonStrings(getUser, a[1..], v, b, seen);
    }
  }

  // ---------------------------------------------------------------------------
  // SelectMessages
  // ---------------------------------------------------------------------------

  /** The users of a stream in arrival order; other values are skipped. */
  function UsersIn(input: seq<Value>): (r: seq<User>)
    ensures |r| <= |input|
    ensures forall u :: u in r <==> VUser(u) in input
    decreases |input|
  {
    if |input| == 0 then []
    else
      assert input == [input[0]] + input[1..];
      if input[0].VUser? then [input[0].user] + UsersIn(input[1..]) else UsersIn(input[1..])
  }

  /** How many users a batch holds when it is sent: the batch constant, where
      a constant of 0 still sends every user on its own. */
  function Capacity(batchSize: nat): nat {
    if batchSize == 0 then 1 else batchSize
  }

  function Flatten<T>(parts: seq<seq<T>>): seq<T> {
    if |parts| == 0 then [] else parts[0] + Flatten(parts[1..])
  }

  /** SelectMessages' accumulation loop: `buffer` holds the users read since
      the last dispatch. Each full buffer becomes a batch; a non-empty
      remainder becomes the last batch. */
  function BatchFrom(users: seq<User>, buffer: seq<User>, batchSize: nat): (r: seq<seq<User>>)
    requires |buffer| < Capacity(batchSize)
    ensures Flatten(r) == buffer + users
    ensures forall i :: 0 <= i < |r| ==> 1 <= |r[i]| <= Capacity(batchSize)
    ensures forall i :: 0 <= i < |r| - 1 ==> |r[i]| == Capacity(batchSize)
    decreases |users|
  {
    if |users| == 0 then
      if |buffer| > 0 then [buffer] else []
    else
      var filled := buffer + [users[0]];
      assert buffer + users == filled + users[1..];
      if |filled| < batchSize then BatchFrom(users[1..], filled, batchSize)
      else [filled] + BatchFrom(users[1..], [], batchSize)
  }

  /** The batches SelectMessages hands to GetMessages, in dispatch order:
      they partition the users, each holds 1..Capacity users, and only the
      last may be short. */
  function Batches(users: seq<User>, batchSize: nat): (r: seq<seq<User>>)
    ensures Flatten(r) == users
    ensures forall i :: 0 <= i < |r| ==> 1 <= |r[i]| <= Capacity(batchSize)
    ensures forall i :: 0 <= i < |r| - 1 ==> |r[i]| == Capacity(batchSize)
  {
    BatchFrom(users, [], batchSize)
  }

  /** The batch sizes fix the number of GetMessages calls: n users in batches
      of c need ceil(n / c) calls (3, 3, 1 for seven users and c = 3). */
  lemma {:induction false} BatchCount(users: seq<User>, batchSize: nat)
    ensures |Batches(users, batchSize)| == CeilDiv(|users|, Capacity(batchSize))
  {
    var r := Batches(users, batchSize);
    var c := Capacity(batchSize);
    if |r| > 0 {
      var k, last := |r|, |r[|r| - 1]|;
      assert |users| == (k - 1) * c + last by { FlattenLength(r, c); }
      assert 1 <= last <= c;
      CeilOfBatches(|users|, c, k, last);
    } else {
      assert |users| == 0 by { FlattenLength(r, c); }
      CeilOfNothing(c);
    }
  }

  /** ceil(n / c) in integer arithmetic. */
  function CeilDiv(n: nat, c: nat): nat
    requires c >= 1
  {
    (n + c - 1) / c
  }

  /** k batches of c, the last holding between 1 and c, need ceil(n / c) calls. */
  lemma CeilOfBatches(n: nat, c: nat, k: nat, last: nat)
    requires c >= 1 && k >= 1 && 1 <= last <= c
    requires n == (k - 1) * c + last
    ensures CeilDiv(n, c) == k
  {
    assert k * c == (k - 1) * c + c;
    DivCeil(n, c, k);
  }

  lemma CeilOfNothing(c: nat)
    requires c >= 1
    ensures CeilDiv(0, c) == 0
  {
    assert c - 1 == 0 * c + (c - 1);
  }

  lemma {:induction false} FlattenLength(r: seq<seq<User>>, c: nat)
    requires forall i :: 0 <= i < |r| - 1 ==> |r[i]| == c
    ensures |r| > 0 ==> |Flatten(r)| == (|r| - 1) * c + |r[|r| - 1]|
    ensures |r| == 0 ==> |Flatten(r)| == 0
    decreases |r|
  {
    if |r| > 0 {
      assert |Flatten(r)| == |r[0]| + |Flatten(r[1..])|;
      if |r| == 1 {
        assert r[1..] == [];
      } else {
        FlattenLength(r[1..], c);
        assert r[1..][|r| - 2] == r[|r| - 1];
        assert |r[0]| == c;
        assert (|r| - 2) * c + c == (|r| - 1) * c;
      }
    }
  }

  lemma DivCeil(n: nat, c: nat, k: nat)
    requires c >= 1 && k >= 1
    requires (k - 1) * c < n <= k * c
    ensures (n + c - 1) / c == k
  {
    var q := (n + c - 1) / c;
    var m := (n + c - 1) % c;
    assert n + c - 1 == q * c + m && 0 <= m < c;
    assert (k - 1) * c == k * c - c;
    assert (k + 1) * c == k * c + c;
    assert (q + 1) * c == q * c + c;
    MulStrict(k, q + 1, c);
    MulStrict(q, k + 1, c);
  }

  lemma MulStrict(a: int, b: int, c: int)
    requires c >= 1 && a * c < b * c
    ensures a < b
  {
  }

  /** The message IDs the batch workers write, batch after batch. */
  function FetchAll(getMessages: seq<User> -> Option<seq<MsgID>>, batches: seq<seq<User>>): seq<Value>
    decreases |batches|
  {
    if |batches| == 0 then [] else Fetched(getMessages, batches[0]) + FetchAll(getMessages, batches[1..])
  }

  /** Only message IDs are written, each from a batch whose call succeeded,
      and every ID of every successful batch is written; a failed batch is
      only logged. */
  lemma {:induction false} FetchAllContents(getMessages: seq<User> -> Option<seq<MsgID>>, batches: seq<seq<User>>)
    ensures forall i :: 0 <= i < |FetchAll(getMessages, batches)| ==> FetchAll(getMessages, batches)[i].VMsgID?
    ensures forall v :: v in FetchAll(getMessages, batches) ==>
              exists b :: 0 <= b < |batches| && getMessages(batches[b]).Some? && v.msg in getMessages(batches[b]).value
    ensures forall b, m :: 0 <= b < |batches| && getMessages(batches[b]).Some? && m in getMessages(batches[b]).value ==>
              VMsgID(m) in FetchAll(getMessages, batches)
    decreases |batches|
  {
    if |batches| > 0 {
      var mine := Fetched(getMessages, batches[0]);
      var rest := FetchAll(getMessages, batches[1..]);
      var r := mine + rest;
      FetchAllContents(getMessages, batches[1..]);
      assert FetchAll(getMessages, batches) == r;
      forall i | 0 <= i < |r| ensures r[i].VMsgID? {
        if i < |mine| {
          assert r[i] == mine[i];
        } else {
          assert r[i] == rest[i - |mine|];
        }
      }
      forall v | v in r
        ensures exists b :: 0 <= b < |batches| && getMessages(batches[b]).Some? && v.msg in getMessages(batches[b]).value
      {
        if v in mine {
          var i :| 0 <= i < |mine| && mine[i] == v;
          assert getMessages(batches[0]).Some? && v.msg == getMessages(batches[0]).value[i];
        } else {
          assert v in rest;
          var b :| 0 <= b < |batches[1..]| && getMessages(batches[1..][b]).Some?
                   && v.msg in getMessages(batches[1..][b]).value;
          assert batches[1..][b] == batches[b + 1];
        }
      }
      forall b, m | 0 <= b < |batches| && getMessages(batches[b]).Some? && m in getMessages(batches[b]).value
        ensures VMsgID(m) in r
      {
        if b == 0 {
          var ids := getMessages(batches[0]).value;
          var i :| 0 <= i < |ids| && ids[i] == m;
          assert mine[i] == VMsgID(m);
        } else {
          assert batches[1..][b - 1] == batches[b];
          assert VMsgID(m) in rest;
        }
      }
    }
  }

  /** What one batch's worker writes: its message IDs, or nothing when the
      call fails. */
  function Fetched(getMessages: seq<User> -> Option<seq<MsgID>>, batch: seq<User>): (r: seq<Value>)
    ensures getMessages(batch).None? ==> r == []
    ensures getMessages(batch).Some? ==>
              |r| == |getMessages(batch).value| &&
              forall i :: 0 <= i < |r| ==> r[i] == VMsgID(getMessages(batch).value[i])
  {
    match getMessages(batch)
    case Some(ids) => seq(|ids|, i requires 0 <= i < |ids| => VMsgID(ids[i]))
    case None => []
  }

  lemma FetchOne(getMessages: seq<User> -> Option<seq<MsgID>>, batch: seq<User>)
    ensures FetchAll(getMessages, [batch]) == Fetched(getMessages, batch)
  {
    assert [batch][1..] == [];
    assert FetchAll(getMessages, [batch]) == Fetched(getMessages, [batch][0]) + FetchAll(getMessages, []);
  }

  /** Batches are independent: the output of a run of batches is the output
      of each part, one after the other. */
  lemma {:induction false} FetchAllAppend(getMessages: seq<User> -> Option<seq<MsgID>>, a: seq<seq<User>>, b: seq<seq<User>>)
    ensures FetchAll(getMessages, a + b) == FetchAll(getMessages, a) + FetchAll(getMessages, b)
    decreases |a|
  {
    if |a| > 0 {
      assert (a + b)[0] == a[0];
      assert (a + b)[1..] == a[1..] + b;
      FetchAllAppend(getMessages, a[1..], b);
    } else {
      assert a + b == b;
    }
  }

  /** A failed batch contributes no message IDs; a successful one exactly its IDs. */
  lemma BatchFailureIsolated(getMessages: seq<User> -> Option<seq<MsgID>>, a: seq<seq<User>>,
                             batch: seq<User>, b: seq<seq<User>>)
    ensures getMessages(batch).None? ==>
              FetchAll(getMessages, a + [batch] + b) == FetchAll(getMessages, a) + FetchAll(getMessages, b)
    ensures getMessages(batch).Some? ==>
              |FetchAll(getMessages, a + [batch] + b)| ==
              |FetchAll(getMessages, a)| + |getMessages(batch).value| + |FetchAll(getMessages, b)|
  {
    var x := FetchAll(getMessages, a);
    var f := Fetched(getMessages, batch);
    var y := FetchAll(getMessages, b);
    assert FetchAll(getMessages, a + [batch] + b) == x + f + y by {
      FetchAllAppend(getMessages, a + [batch], b);
      FetchAllAppend(getMessages, a, [batch]);
      FetchOne(getMessages, batch);
    }
    if getMessages(batch).None? {
      assert x + f + y == x + y;
    }
  }

  /** SelectMessages: batches the users in arrival order and fetches each batch. */
  function SelectMessages(getMessages: seq<User> -> Option<seq<MsgID>>, batchSize: nat, input: seq<Value>): (r: seq<Value>)
    ensures forall i :: 0 <= i < |r| ==> r[i].VMsgID?
    ensures forall b, m :: 0 <= b < |Batches(UsersIn(input), batchSize)| &&
                           getMessages(Batches(UsersIn(input), batchSize)[b]).Some? &&
                           m in getMessages(Batches(UsersIn(input), batchSize)[b]).value ==>
              VMsgID(m) in r
  {
    FetchAllContents(getMessages, Batches(UsersIn(input), batchSize));
    FetchAll(getMessages, Batches(UsersIn(input), batchSize))
  }

  // ---------------------------------------------------------------------------
  // CheckSpam
  // ---------------------------------------------------------------------------

  /** CheckSpam: one verdict per incoming message ID whose classification
      succeeds, carrying the classifier's answer; failures are dropped. */
  function CheckSpam(hasSpam: MsgID -> Option<bool>, input: seq<Value>): (r: seq<Value>)
    ensures |r| <= |input|
    ensures forall i :: 0 <= i < |r| ==> r[i].VMsgData?
    ensures forall d :: multiset(r)[VMsgData(d)] ==
              if hasSpam(d.id) == Some(d.hasSpam) then multiset(input)[VMsgID(d.id)] else 0
    decreases |input|
  {
    if |input| == 0 then []
    else
      assert input == [input[0]] + input[1..];
      var mine := match input[0]
        case VMsgID(id) =>
          (match hasSpam(id)
           case Some(isSpam) => [VMsgData(MsgData(id, isSpam))]
           case None => [])
        case _ => [];
      mine + CheckSpam(hasSpam, input[1..])
  }

  /** The verdicts do not depend on the order the message IDs arrive in. */
  lemma CheckSpamOrderInsensitive(hasSpam: MsgID -> Option<bool>, a: seq<Value>, b: seq<Value>)
    requires multiset(a) == multiset(b)
    ensures multiset(CheckSpam(hasSpam, a)) == multiset(CheckSpam(hasSpam, b))
  {
    var ra := CheckSpam(hasSpam, a);
    var rb := CheckSpam(hasSpam, b);
    forall v: Value ensures multiset(ra)[v] == multiset(rb)[v] {
      if !v.VMsgData? {
        assert v !in ra && v !in rb;
      }
    }
  }

  // ---------------------------------------------------------------------------
  // CombineResults
  // ---------------------------------------------------------------------------

  /** CombineResults' comparator: spam first, then ascending message ID. */
  predicate SpamFirst(a: MsgData, b: MsgData) {
    (a.hasSpam && !b.hasSpam) || (a.hasSpam == b.hasSpam && a.id <= b.id)
  }

  lemma SpamFirstIsTotalOrder()
    ensures TotalPreorder(SpamFirst) && Antisymmetric(SpamFirst)
  {
  }

  /** The verdicts of a stream in arrival order; other values are skipped. */
  function VerdictsIn(input: seq<Value>): (r: seq<MsgData>)
    ensures forall d :: multiset(r)[d] == multiset(input)[VMsgData(d)]
    decreases |input|
  {
    if |input| == 0 then []
    else
      assert input == [input[0]] + input[1..];
      if input[0].VMsgData? then [input[0].data] + VerdictsIn(input[1..]) else VerdictsIn(input[1..])
  }

  /** One report line: "%t %d". */
  function FormatLine(d: MsgData): string {
    BoolToString(d.hasSpam) + " " + NatToString(d.id)
  }

  /** Distinct verdicts give distinct lines, so the report loses nothing. */
  lemma FormatLineInjective(a: MsgData, b: MsgData)
    requires FormatLine(a) == FormatLine(b)
    ensures a == b
  {
    var la := FormatLine(a);
    assert la[0] == (if a.hasSpam then 't' else 'f');
    assert FormatLine(b)[0] == (if b.hasSpam then 't' else 'f');
    var k := |BoolToString(a.hasSpam)| + 1;
    assert la[k..] == NatToString(a.id);
    assert FormatLine(b)[k..] == NatToString(b.id);
    ParseNatToString(a.id);
    ParseNatToString(b.id);
  }

  /** The verdicts in report order: a permutation of the input verdicts,
      sorted spam first, then by ascending ID. */
  function Report(input: seq<Value>): (r: seq<MsgData>)
    ensures multiset(r) == multiset(VerdictsIn(input))
    ensures forall i, j :: 0 <= i < j < |r| ==>
              (r[i].hasSpam && !r[j].hasSpam) || (r[i].hasSpam == r[j].hasSpam && r[i].id <= r[j].id)
  {
    SpamFirstIsTotalOrder();
    SortBy(VerdictsIn(input), SpamFirst)
  }

  /** CombineResults: waits for every verdict, then writes one line per
      verdict in report order. */
  function CombineResults(input: seq<Value>): (r: seq<Value>)
    ensures |r| == |VerdictsIn(input)|
    ensures forall i :: 0 <= i < |r| ==> r[i] == VString(FormatLine(Report(input)[i]))
  {
    var report := Report(input);
    assert |report| == |multiset(report)| == |VerdictsIn(input)|;
    seq(|report|, i requires 0 <= i < |report| => VString(FormatLine(report[i])))
  }

  /** The report depends only on which verdicts arrived, not on the order the
      concurrent classifiers delivered them. */
  lemma CombineResultsDeterministic(a: seq<Value>, b: seq<Value>)
    requires forall d :: multiset(a)[VMsgData(d)] == multiset(b)[VMsgData(d)]
    ensures CombineResults(a) == CombineResults(b)
  {
    SpamFirstIsTotalOrder();
    var va := VerdictsIn(a);
    var vb := VerdictsIn(b);
    assert multiset(va) == multiset(vb) by {
      forall d ensures multiset(va)[d] == multiset(vb)[d] { }
    }
    SortByPermutationInvariant(va, vb, SpamFirst);
  }

  // ---------------------------------------------------------------------------
  // The assembled pipeline
  // ---------------------------------------------------------------------------

  /** The first command: writes the e-mails. */
  function Emit(emails: seq<string>): seq<Value> {
    seq(|emails|, i requires 0 <= i < |emails| => VString(emails[i]))
  }

  /** The five commands of the spam pipeline, in order. */
  function SpamCommands(emails: seq<string>, getUser: string -> User,
                        getMessages: seq<User> -> Option<seq<MsgID>>,
                        hasSpam: MsgID -> Option<bool>, batchSize: nat): seq<Stage>
  {
    [ (_: seq<Value>) => Emit(emails),
      (s: seq<Value>) => SelectUsers(getUser, s),
      (s: seq<Value>) => SelectMessages(getMessages, batchSize, s),
      (s: seq<Value>) => CheckSpam(hasSpam, s),
      (s: seq<Value>) => CombineResults(s) ]
  }

  /** Run end to end, the pipeline's last stream is the report of the
      classified messages of the batched, de-duplicated users. When every
      GetMessages and HasSpam call succeeds it has one line per message ID
      fetched. */
  lemma SpamPipelineReport(emails: seq<string>, getUser: string -> User,
                           getMessages: seq<User> -> Option<seq<MsgID>>,
                           hasSpam: MsgID -> Option<bool>, batchSize: nat)
    ensures var streams := RunPipeline(SpamCommands(emails, getUser, getMessages, hasSpam, batchSize));
            && |streams| == 5
            && streams[4] == CombineResults(CheckSpam(hasSpam,
                               SelectMessages(getMessages, batchSize, SelectUsers(getUser, Emit(emails)))))
            && ((forall m :: hasSpam(m).Some?) ==> |streams[4]| == |streams[2]|)
  {
    var streams := RunPipeline(SpamCommands(emails, getUser, getMessages, hasSpam, batchSize));
    if forall m :: hasSpam(m).Some? {
      var msgs := streams[2];
      var verdicts := streams[3];
      assert |verdicts| == |msgs| by {
        CheckSpamTotal(hasSpam, msgs);
      }
      assert |VerdictsIn(verdicts)| == |verdicts| by {
        VerdictsInAll(verdicts);
      }
    }
  }

  /** With a classifier that never fails, every message ID gets a verdict. */
  lemma {:induction false} CheckSpamTotal(hasSpam: MsgID -> Option<bool>, input: seq<Value>)
    requires forall m :: hasSpam(m).Some?
    requires forall i :: 0 <= i < |input| ==> input[i].VMsgID?
    ensures |CheckSpam(hasSpam, input)| == |input|
    decreases |input|
  {
    if |input| > 0 {
      CheckSpamTotal(hasSpam, input[1..]);
    }
  }

  lemma {:induction false} VerdictsInAll(input: seq<Value>)
    requires forall i :: 0 <= i < |input| ==> input[i].VMsgData?
    ensures |VerdictsIn(input)| == |input|
    decreases |input|
  {
    if |input| > 0 {
      VerdictsInAll(input[1..]);
    }
  }
}
