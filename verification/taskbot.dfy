/** The task tracker behind the Telegram bot (04_net2/99_hw/taskbot/commands.go,
    state in store.go): task names, creators and assignees keyed by task ID,
    and a counter for the last ID given out. Each command returns the new
    state, the reply to the sender and the messages sent to other users,
    each addressed to the user whose chat receives it. */
module TaskBot {
  import opened Text
  import opened Sorting
  import opened Collections

  /** The assignee of a task nobody has taken. */
  const NotAssigned := ""

  const NoTasks := "Нет задач"
  const NoSuchTask := "Нет такой задачи"
  const NotYours := "Задача не на вас"
  const Accepted := "Принято"

  datatype Board = Board(
    names: map<int, string>,
    assignee: map<int, string>,
    creators: map<int, string>,
    counter: int)

  const Empty := Board(map[], map[], map[], 0)

  /** The three maps hold the same IDs, each between 1 and the counter. */
  predicate Valid(b: Board) {
    && b.counter >= 0
    && b.names.Keys == b.assignee.Keys == b.creators.Keys
    && (forall id :: id in b.names ==> 1 <= id <= b.counter)
  }

  /** A Go map read: the zero value "" for a missing key. */
  function Lookup(m: map<int, string>, id: int): string {
    if id in m then m[id] else ""
  }

  datatype Notify = Notify(to: string, text: string)

  datatype Reply = Reply(board: Board, text: string, sent: seq<Notify>)

  function Quoted(name: string): string {
    "\"" + name + "\""
  }

  // ---------------------------------------------------------------------------
  // Commands that change the board
  // ---------------------------------------------------------------------------

  /** createTask: the task takes the next counter value as its ID, the
      sender as creator and no assignee; nobody else is told. */
  function CreateTask(b: Board, name: string, sender: string): (r: Reply)
    ensures r.board.counter == b.counter + 1
    ensures var id := r.board.counter;
            && r.board.names == b.names[id := name]
            && r.board.creators == b.creators[id := sender]
            && r.board.assignee == b.assignee[id := NotAssigned]
            && r.text == "Задача " + Quoted(name) + " создана, id=" + IntToString(id)
            && (Valid(b) ==> id !in b.names)
    ensures r.sent == []
    ensures Valid(b) ==> Valid(r.board)
  {
    var id := b.counter + 1;
    var board := Board(b.names[id := name], b.assignee[id := NotAssigned], b.creators[id := sender], id);
    Reply(board, "Задача " + Quoted(name) + " создана, id=" + IntToString(id), [])
  }

  /** assignTask: an unknown ID changes nothing. Otherwise the sender becomes
      the assignee whoever held the task; the creator is told if the task
      was free, the previous assignee if it was someone else, and nobody if
      the sender already held it. */
  function AssignTask(b: Board, id: int, sender: string): (r: Reply)
    ensures id !in b.names ==> r == Reply(b, NoSuchTask, [])
    ensures id in b.names ==>
              && r.board == b.(assignee := b.assignee[id := sender])
              && r.text == "Задача " + Quoted(b.names[id]) + " назначена на вас"
    ensures id in b.names ==>
              var prev := Lookup(b.assignee, id);
              var msg := "Задача " + Quoted(b.names[id]) + " назначена на " + sender;
              && (prev == NotAssigned ==> r.sent == [Notify(Lookup(b.creators, id), msg)])
              && (prev != NotAssigned && prev != sender ==> r.sent == [Notify(prev, msg)])
              && (prev != NotAssigned && prev == sender ==> r.sent == [])
    ensures Valid(b) ==> Valid(r.board)
  {
    if id !in b.names then Reply(b, NoSuchTask, [])
    else
      var name := b.names[id];
      var prev := Lookup(b.assignee, id);
      var board := b.(assignee := b.assignee[id := sender]);
      var msg := "Задача " + Quoted(name) + " назначена на " + sender;
      var sent :=
        if prev == NotAssigned then [Notify(Lookup(b.creators, id), msg)]
        else if prev != sender then [Notify(prev, msg)]
        else [];
      Reply(board, "Задача " + Quoted(name) + " назначена на вас", sent)
  }

  /** The sender holds the task (the guard of unassign and resolve). */
  predicate HeldBy(b: Board, id: int, sender: string) {
    id in b.assignee && b.assignee[id] == sender
  }

  /** unassignTask: only the assignee may give a task up; then the task is
      free again, everything else is kept, and the creator is told. */
  function UnassignTask(b: Board, id: int, sender: string): (r: Reply)
    ensures !HeldBy(b, id, sender) ==> r == Reply(b, NotYours, [])
    ensures HeldBy(b, id, sender) ==>
              && r.board == b.(assignee := b.assignee[id := NotAssigned])
              && r.text == Accepted
              && r.sent == [Notify(Lookup(b.creators, id),
                                   "Задача " + Quoted(Lookup(b.names, id)) + " осталась без исполнителя")]
    ensures Valid(b) ==> Valid(r.board)
  {
    if !HeldBy(b, id, sender) then Reply(b, NotYours, [])
    else
      var board := b.(assignee := b.assignee[id := NotAssigned]);
      var name := Lookup(b.names, id);
      Reply(board, Accepted,
            [Notify(Lookup(b.creators, id), "Задача " + Quoted(name) + " осталась без исполнителя")])
  }

  /** resolveTask: only the assignee may close a task; then it leaves all
      three maps, the counter stays, and the creator is told who closed it. */
  function ResolveTask(b: Board, id: int, sender: string): (r: Reply)
    ensures !HeldBy(b, id, sender) ==> r == Reply(b, NotYours, [])
    ensures HeldBy(b, id, sender) ==>
              var name := Lookup(b.names, id);
              && r.board == Board(b.names - {id}, b.assignee - {id}, b.creators - {id}, b.counter)
              && r.text == "Задача " + Quoted(name) + " выполнена"
              && r.sent == [Notify(Lookup(b.creators, id), "Задача " + Quoted(name) + " выполнена " + sender)]
    ensures Valid(b) ==> Valid(r.board)
    ensures Valid(b) && HeldBy(b, id, sender) ==> |r.board.names| == |b.names| - 1
  {
    if !HeldBy(b, id, sender) then Reply(b, NotYours, [])
    else
      var name := Lookup(b.names, id);
      var board := Board(b.names - {id}, b.assignee - {id}, b.creators - {id}, b.counter);
      Reply(board, "Задача " + Quoted(name) + " выполнена",
            [Notify(Lookup(b.creators, id), "Задача " + Quoted(name) + " выполнена " + sender)])
  }

  // ---------------------------------------------------------------------------
  // ID allocation over a history of commands
  // ---------------------------------------------------------------------------

  datatype Command =
    | New(name: string, sender: string)
    | Assign(id: int, sender: string)
    | Unassign(id: int, sender: string)
    | Resolve(id: int, sender: string)

  function Step(b: Board, c: Command): Reply {
    match c
    case New(name, sender) => CreateTask(b, name, sender)
    case Assign(id, sender) => AssignTask(b, id, sender)
    case Unassign(id, sender) => UnassignTask(b, id, sender)
    case Resolve(id, sender) => ResolveTask(b, id, sender)
  }

  /** Runs the commands in turn; also returns the IDs of the tasks created. */
  function Run(b: Board, cmds: seq<Command>): (Board, seq<int>)
    decreases |cmds|
  {
    if |cmds| == 0 then (b, [])
    else
      var r := Step(b, cmds[0]);
      var (b2, ids) := Run(r.board, cmds[1..]);
      if cmds[0].New? then (b2, [r.board.counter] + ids) else (b2, ids)
  }

  /** Only task creation moves the counter, so the tasks created after `b`
      are numbered on from its counter, one by one. */
  lemma {:induction false} RunNumbersConsecutively(b: Board, cmds: seq<Command>)
    ensures var (b2, ids) := Run(b, cmds);
            && (forall i :: 0 <= i < |ids| ==> ids[i] == b.counter + i + 1)
            && b2.counter == b.counter + |ids|
            && (Valid(b) ==> Valid(b2))
    decreases |cmds|
  {
    if |cmds| > 0 {
      RunNumbersConsecutively(Step(b, cmds[0]).board, cmds[1..]);
    }
  }

  /** From the empty board the k-th task created gets ID k, whatever
      assignments and resolutions come between. */
  lemma CreatedIdsAreOneToN(cmds: seq<Command>)
    ensures var (b, ids) := Run(Empty, cmds);
            && (forall i :: 0 <= i < |ids| ==> ids[i] == i + 1)
            && Valid(b)
  {
    RunNumbersConsecutively(Empty, cmds);
  }

  // ---------------------------------------------------------------------------
  // Listings
  // ---------------------------------------------------------------------------

  predicate IntLe(a: int, b: int) { a <= b }

  /** slices.Sort on distinct IDs: the same IDs in strictly ascending order. */
  function Ascending(ids: seq<int>): (r: seq<int>)
    requires NoDuplicates(ids)
    ensures multiset(r) == multiset(ids)
    ensures forall x :: x in r <==> x in ids
    ensures forall i, j :: 0 <= i < j < |r| ==> r[i] < r[j]
  {
    var r := SortBy(ids, IntLe);
    SameMembers(ids, r);
    PermutationNoDuplicates(ids, r);
    r
  }

  /** The IDs `range` collects from map `m` when `pick` holds for the value. */
  function Picked(m: map<int, string>, order: seq<int>, pick: string -> bool): (r: seq<int>)
    requires Enumerates(order, m)
    ensures NoDuplicates(r)
    ensures forall id :: id in r <==> id in m && pick(m[id])
  {
    var r := Filter(order, id => id in m && pick(m[id]));
    FilterNoDuplicates(order, id => id in m && pick(m[id]));
    assert forall id :: id in order ==> exists i :: 0 <= i < |order| && order[i] == id;
    r
  }

  /** The IDs getTasks lists: every task, ascending. */
  function TaskIds(b: Board, order: seq<int>): (r: seq<int>)
    requires Enumerates(order, b.names)
    ensures forall id :: id in r <==> id in b.names
    ensures forall i, j :: 0 <= i < j < |r| ==> r[i] < r[j]
  {
    Ascending(order)
  }

  /** The IDs getMyTasks lists: the tasks assigned to `sender`, ascending. */
  function MyTaskIds(b: Board, order: seq<int>, sender: string): (r: seq<int>)
    requires Enumerates(order, b.assignee)
    ensures forall id :: id in r <==> id in b.assignee && b.assignee[id] == sender
    ensures forall i, j :: 0 <= i < j < |r| ==> r[i] < r[j]
  {
    Ascending(Picked(b.assignee, order, a => a == sender))
  }

  /** The IDs getOwnTasks lists: the tasks created by `sender`, ascending. */
  function OwnTaskIds(b: Board, order: seq<int>, sender: string): (r: seq<int>)
    requires Enumerates(order, b.creators)
    ensures forall id :: id in r <==> id in b.creators && b.creators[id] == sender
    ensures forall i, j :: 0 <= i < j < |r| ==> r[i] < r[j]
  {
    Ascending(Picked(b.creators, order, c => c == sender))
  }

  /** A strictly ascending sequence is fixed by its members. */
  lemma {:induction false} AscendingUnique(a: seq<int>, b: seq<int>)
    requires forall i, j :: 0 <= i < j < |a| ==> a[i] < a[j]
    requires forall i, j :: 0 <= i < j < |b| ==> b[i] < b[j]
    requires forall x :: x in a <==> x in b
    ensures a == b
    decreases |a| + |b|
  {
    assert |a| > 0 ==> a[0] in a;
    assert |b| > 0 ==> b[0] in b;
    if |a| > 0 && |b| > 0 {
      assert a[0] == b[0] by {
        var i :| 0 <= i < |b| && b[i] == a[0];
        var j :| 0 <= j < |a| && a[j] == b[0];
        assert a[0] <= a[j] && b[0] <= b[i];
      }
      AscendingTail(a);
      AscendingTail(b);
      AscendingUnique(a[1..], b[1..]);
      assert a == [a[0]] + a[1..] && b == [b[0]] + b[1..];
    }
  }

  /** The tail of a strictly ascending sequence is the rest of its members,
      itself strictly ascending. */
  lemma AscendingTail(a: seq<int>)
    requires |a| > 0 && forall i, j :: 0 <= i < j < |a| ==> a[i] < a[j]
    ensures forall x :: x in a[1..] <==> x in a && x != a[0]
    ensures forall i, j :: 0 <= i < j < |a[1..]| ==> a[1..][i] < a[1..][j]
  {
    forall x
      ensures x in a[1..] <==> x in a && x != a[0]
    {
      if x in a && x != a[0] {
        var k :| 0 <= k < |a| && a[k] == x;
        assert a[1..][k - 1] == x;
      }
    }
  }

  /** The three listings do not depend on the order `range` visits a map. */
  lemma ListingIdsOrderIrrelevant(b: Board, o1: seq<int>, o2: seq<int>, sender: string)
    ensures Enumerates(o1, b.names) && Enumerates(o2, b.names) ==> TaskIds(b, o1) == TaskIds(b, o2)
    ensures Enumerates(o1, b.assignee) && Enumerates(o2, b.assignee) ==>
              MyTaskIds(b, o1, sender) == MyTaskIds(b, o2, sender)
    ensures Enumerates(o1, b.creators) && Enumerates(o2, b.creators) ==>
              OwnTaskIds(b, o1, sender) == OwnTaskIds(b, o2, sender)
  {
    if Enumerates(o1, b.names) && Enumerates(o2, b.names) {
      AscendingUnique(TaskIds(b, o1), TaskIds(b, o2));
    }
    if Enumerates(o1, b.assignee) && Enumerates(o2, b.assignee) {
      AscendingUnique(MyTaskIds(b, o1, sender), MyTaskIds(b, o2, sender));
    }
    if Enumerates(o1, b.creators) && Enumerates(o2, b.creators) {
      AscendingUnique(OwnTaskIds(b, o1, sender), OwnTaskIds(b, o2, sender));
    }
  }

  /** What the viewer sees under a task: how to take it, how to give it up
      or close it when they hold it, or who holds it. */
  function Suffix(b: Board, id: int, viewer: string): string {
    var a := Lookup(b.assignee, id);
    var n := IntToString(id);
    if a == NotAssigned then "/assign_" + n
    else if a == viewer then "assignee: я\n/unassign_" + n + " /resolve_" + n
    else "assignee: " + a
  }

  function TaskBlock(b: Board, id: int, viewer: string): string {
    IntToString(id) + ". " + Lookup(b.names, id) + " by " + Lookup(b.creators, id) + "\n" + Suffix(b, id, viewer)
  }

  function Blocks(b: Board, ids: seq<int>, viewer: string): (r: seq<string>)
    ensures |r| == |ids|
    ensures forall i :: 0 <= i < |ids| ==> r[i] == TaskBlock(b, ids[i], viewer)
  {
    seq(|ids|, i requires 0 <= i < |ids| => TaskBlock(b, ids[i], viewer))
  }

  /** The builder idiom: every part is written with `sep` after it and one
      trailing `sep` is cut off. */
  function Trimmed(parts: seq<string>, sep: string): (r: string)
    ensures |parts| > 0 ==> r == Join(parts, sep)
    ensures |parts| == 0 ==> r == ""
  {
    if |parts| > 0 then TerminatedThenTrimmed(parts, sep); TrimSuffix(Concat(Terminated(parts, sep)), sep)
    else TrimSuffix(Concat(Terminated(parts, sep)), sep)
  }

  /** getTasks: "Нет задач" for an empty board; otherwise one block per task
      in ascending ID, blocks separated by a blank line and none after the
      last. */
  function GetTasks(b: Board, order: seq<int>, sender: string): (r: string)
    requires Enumerates(order, b.names)
    ensures |b.names| == 0 ==> r == NoTasks
    ensures |b.names| > 0 ==> r == Join(Blocks(b, TaskIds(b, order), sender), "\n\n")
  {
    EnumerationLength(order, b.names);
    if |order| == 0 then NoTasks
    else Trimmed(Blocks(b, TaskIds(b, order), sender), "\n\n")
  }

  /** getMyTasks: a line pair per task assigned to the sender, ascending.
      The "by" column shows the sender, not the creator. */
  function GetMyTasks(b: Board, order: seq<int>, sender: string): (r: string)
    requires Enumerates(order, b.assignee)
    ensures var ids := MyTaskIds(b, order, sender);
            r == Join(seq(|ids|, i requires 0 <= i < |ids| =>
                          IntToString(ids[i]) + ". " + Lookup(b.names, ids[i]) + " by " + sender
                          + "\n/unassign_" + IntToString(ids[i]) + " /resolve_" + IntToString(ids[i])), "\n")
  {
    var ids := MyTaskIds(b, order, sender);
    Trimmed(seq(|ids|, i requires 0 <= i < |ids| =>
                IntToString(ids[i]) + ". " + Lookup(b.names, ids[i]) + " by " + sender
                + "\n/unassign_" + IntToString(ids[i]) + " /resolve_" + IntToString(ids[i])), "\n")
  }

  /** getOwnTasks: a line pair per task the sender created, ascending. */
  function GetOwnTasks(b: Board, order: seq<int>, sender: string): (r: string)
    requires Enumerates(order, b.creators)
    ensures var ids := OwnTaskIds(b, order, sender);
            r == Join(seq(|ids|, i requires 0 <= i < |ids| =>
                          IntToString(ids[i]) + ". " + Lookup(b.names, ids[i]) + " by " + sender
                          + "\n/assign_" + IntToString(ids[i])), "\n")
  {
    var ids := OwnTaskIds(b, order, sender);
    Trimmed(seq(|ids|, i requires 0 <= i < |ids| =>
                IntToString(ids[i]) + ". " + Lookup(b.names, ids[i]) + " by " + sender
                + "\n/assign_" + IntToString(ids[i])), "\n")
  }
}
