/** The text adventure (01_intro/99_hw/game): rooms joined by doors, items
    lying in rooms, a player with a position, an inventory and a storage
    item without which nothing else can be carried. Go shares rooms through
    pointers; the model keeps one map from room name to room, which is how
    the game map registers them, and the player's position is a name in it.
    The inventory is Go's set of item pointers, `map[*Item]struct{}`, over
    item values. */
module Game {
  import opened Results
  import opened Text
  import opened Collections

  // ---------------------------------------------------------------------------
  // World
  // ---------------------------------------------------------------------------

  /** What applying an item does besides answering: the key's effect opens
      every door of the room the player stands in. */
  datatype Effect = NoEffect | OpenDoors

  /** `canApply` maps a target to the answer; `None` is Go's nil map. */
  datatype Item = Item(
    name: string,
    canApply: Option<map<string, string>>,
    action: string,
    position: string,
    effect: Effect)

  /** An item in a room; `needed` marks a goal shown as "надо …" rather than
      an item lying there. */
  datatype Target = Target(item: Item, needed: bool)

  /** `connections` is the display order of the neighbouring rooms;
      `doors` says, per neighbour, whether the way is open. */
  datatype Room = Room(
    name: string,
    description: string,
    walkDescription: string,
    connections: seq<string>,
    doors: map<string, bool>,
    items: seq<Target>,
    outside: bool)

  datatype Game = Game(
    rooms: map<string, Room>,
    position: string,
    storage: Item,
    inventory: map<Item, ()>)

  /** The player stands in a registered room. */
  predicate Placed(g: Game) {
    g.position in g.rooms
  }

  function Here(g: Game): Room
    requires Placed(g)
  {
    g.rooms[g.position]
  }

  /** The game with the current room replaced. */
  function WithHere(g: Game, room: Room): (r: Game)
    requires Placed(g)
    ensures Placed(r) && Here(r) == room
    ensures r.rooms.Keys == g.rooms.Keys && r.position == g.position
    ensures r.storage == g.storage && r.inventory == g.inventory
    ensures forall n :: n in g.rooms && n != g.position ==> r.rooms[n] == g.rooms[n]
  {
    g.(rooms := g.rooms[g.position := room])
  }

  // ---------------------------------------------------------------------------
  // Commands and messages
  // ---------------------------------------------------------------------------

  const LookAround := "осмотреться"
  const Walk := "идти"
  const Wear := "надеть"
  const Take := "взять"
  const Apply := "применить"
  const UnknownCommand := "неизвестная команда"

  /** How many arguments each verb needs at least. */
  function Arity(verb: string): nat {
    if verb == Walk || verb == Wear || verb == Take then 1
    else if verb == Apply then 2
    else 0
  }

  const ErrInvalidCommand := "ошибка формата команды"
  const ErrItemNotInRoom := "нет такого"

  // ---------------------------------------------------------------------------
  // Items in rooms
  // ---------------------------------------------------------------------------

  /** ItemRoomIndex: the index of the first item of the current room with
      that name, or -1 with "нет такого". */
  function ItemRoomIndex(g: Game, what: string): (r: (int, Option<string>))
    requires Placed(g)
    ensures r.0 == -1 <==> forall j :: 0 <= j < |Here(g).items| ==> Here(g).items[j].item.name != what
    ensures r.0 == -1 ==> r.1 == Some(ErrItemNotInRoom)
    ensures r.0 != -1 ==>
              && r.1 == None
              && 0 <= r.0 < |Here(g).items|
              && Here(g).items[r.0].item.name == what
              && forall j :: 0 <= j < r.0 ==> Here(g).items[j].item.name != what
  {
    var i := IndexOfName(Here(g).items, what);
    if i == -1 then (i, Some(ErrItemNotInRoom)) else (i, None)
  }

  /** slices.IndexFunc by item name. */
  function IndexOfName(items: seq<Target>, what: string): (r: int)
    ensures -1 <= r < |items|
    ensures r == -1 <==> forall j :: 0 <= j < |items| ==> items[j].item.name != what
    ensures r != -1 ==> items[r].item.name == what && forall j :: 0 <= j < r ==> items[j].item.name != what
    decreases |items|
  {
    if |items| == 0 then -1
    else if items[0].item.name == what then 0
    else
      var r := IndexOfName(items[1..], what);
      if r == -1 then -1 else r + 1
  }

  /** TakeItem: on success the item joins the inventory and exactly that
      entry leaves the room, the rest in their order; otherwise the game
      is unchanged and the error is "нет такого". */
  function TakeItem(g: Game, what: string): (r: (Game, Option<string>))
    requires Placed(g)
    ensures Placed(r.0) && r.0.position == g.position && r.0.rooms.Keys == g.rooms.Keys
    ensures r.1.Some? <==> ItemRoomIndex(g, what).0 == -1
    ensures r.1.Some? ==> r.0 == g && r.1.value == ErrItemNotInRoom
    ensures r.1.None? ==>
              var i := ItemRoomIndex(g, what).0;
              var items := Here(g).items;
              && r.0.inventory == g.inventory[items[i].item := ()]
              && Here(r.0) == Here(g).(items := items[..i] + items[i + 1..])
              && r.0.storage == g.storage
              && (forall n :: n in g.rooms && n != g.position ==> r.0.rooms[n] == g.rooms[n])
  {
    var (i, err) := ItemRoomIndex(g, what);
    if err.Some? then (g, err)
    else
      var room := Here(g);
      var g2 := WithHere(g, room.(items := room.items[..i] + room.items[i + 1..]));
      (g2.(inventory := g.inventory[room.items[i].item := ()]), None)
  }

  // ---------------------------------------------------------------------------
  // Handlers
  // ---------------------------------------------------------------------------

  /** The player carries an item named like the storage item. */
  predicate HasStorage(g: Game) {
    exists it :: it in g.inventory && it.name == g.storage.name
  }

  /** HandleTakeItem: without the storage item only the storage item itself
      can be taken ("нет такого" when the item is not here, "некуда класть"
      when it is); otherwise the item is taken and the answer says whether
      it was put on or put away. */
  function HandleTakeItem(g: Game, verb: string, what: string): (r: (Game, string))
    requires Placed(g)
    ensures Placed(r.0)
    ensures !HasStorage(g) && what != g.storage.name ==>
              && r.0 == g
              && r.1 == (if ItemRoomIndex(g, what).0 == -1 then ErrItemNotInRoom else "некуда класть")
    ensures (HasStorage(g) || what == g.storage.name) ==>
              && r.0 == TakeItem(g, what).0
              && (ItemRoomIndex(g, what).0 == -1 ==> r.1 == ErrItemNotInRoom)
              && (ItemRoomIndex(g, what).0 != -1 && verb == Wear ==> r.1 == "вы надели: " + what)
              && (ItemRoomIndex(g, what).0 != -1 && verb == Take ==>
                    r.1 == "предмет добавлен в инвентарь: " + what)
  {
    if !HasStorage(g) && what != g.storage.name then
      var (i, err) := ItemRoomIndex(g, what);
      if err.Some? then (g, err.value) else (g, "некуда класть")
    else
      var (g2, err) := TakeItem(g, what);
      if err.Some? then (g2, err.value)
      else
        var head := if verb == Wear then "вы надели" else if verb == Take then "предмет добавлен в инвентарь" else "";
        (g2, head + ": " + what)
  }

  /** The first item in `order` (the inventory's iteration order) with the
      given name. */
  function FindHeld(order: seq<Item>, what: string): (r: Option<Item>)
    ensures r.None? <==> forall i :: 0 <= i < |order| ==> order[i].name != what
    ensures r.Some? ==> r.value in order && r.value.name == what
    decreases |order|
  {
    if |order| == 0 then None
    else if order[0].name == what then Some(order[0])
    else FindHeld(order[1..], what)
  }

  /** Runs an item's effect. */
  function UseItem(g: Game, e: Effect): (r: Game)
    requires Placed(g)
    ensures Placed(r)
    ensures e == OpenDoors ==>
              && r == WithHere(g, Here(g).(doors := Here(r).doors))
              && Here(r).doors.Keys == Here(g).doors.Keys
              && (forall n :: n in Here(r).doors ==> Here(r).doors[n])
    ensures e == NoEffect ==> r == g
  {
    match e
    case NoEffect => g
    case OpenDoors =>
      var room := Here(g);
      WithHere(g, room.(doors := map n | n in room.doors :: true))
  }

  /** HandleApply: an item not carried gives "нет предмета в инвентаре - X";
      an item with no apply table gives an empty answer; a target the table
      lacks gives "не к чему применить"; otherwise the item's effect runs and
      the table's answer is returned. */
  function HandleApply(g: Game, order: seq<Item>, what: string, toWhat: string): (r: (Game, string))
    requires Placed(g) && Enumerates(order, g.inventory)
    ensures Placed(r.0)
    ensures (forall it :: it in g.inventory ==> it.name != what) ==>
              r == (g, "нет предмета в инвентаре - " + what)
    ensures FindHeld(order, what).Some? ==>
              var it := FindHeld(order, what).value;
              && it in g.inventory
              && (it.canApply.None? ==> r == (g, ""))
              && (it.canApply.Some? && toWhat !in it.canApply.value ==> r == (g, "не к чему применить"))
              && (it.canApply.Some? && toWhat in it.canApply.value ==>
                    r == (UseItem(g, it.effect), it.canApply.value[toWhat]))
  {
    assert forall i :: 0 <= i < |order| ==> order[i] in g.inventory;
    match FindHeld(order, what)
    case None => (g, "нет предмета в инвентаре - " + what)
    case Some(it) =>
      match it.canApply
      case None => (g, "")
      case Some(table) =>
        if toWhat !in table then (g, "не к чему применить")
        else (UseItem(g, it.effect), table[toWhat])
  }

  /** HandleWalk: a room that is not a neighbour gives "нет пути в X", a
      closed door "дверь закрыта", and neither moves the player; otherwise
      the player is in X and sees its arrival text and ways out. */
  function HandleWalk(g: Game, where: string): (r: (Game, string))
    requires Placed(g)
    ensures Placed(r.0)
    ensures !(where in g.rooms && where in Here(g).doors) ==> r == (g, "нет пути в " + where)
    ensures where in g.rooms && where in Here(g).doors && !Here(g).doors[where] ==> r == (g, "дверь закрыта")
    ensures where in g.rooms && where in Here(g).doors && Here(g).doors[where] ==>
              && r.0 == g.(position := where)
              && r.1 == g.rooms[where].walkDescription + PossibleMoves(g.rooms[where])
  {
    if !(where in g.rooms && where in Here(g).doors) then (g, "нет пути в " + where)
    else if !Here(g).doors[where] then (g, "дверь закрыта")
    else
      var g2 := g.(position := where);
      (g2, Here(g2).walkDescription + PossibleMoves(Here(g2)))
  }

  // ---------------------------------------------------------------------------
  // What the player sees
  // ---------------------------------------------------------------------------

  /** How the neighbours read: by name, or "домой" from outside the house. */
  function Shown(names: seq<string>, outside: bool): (r: seq<string>)
    ensures |r| == |names|
    ensures forall i :: 0 <= i < |names| ==> r[i] == if outside then "домой" else names[i]
  {
    seq(|names|, i requires 0 <= i < |names| => if outside then "домой" else names[i])
  }

  /** DisplayPossibleMoves: the neighbours in display order, separated by
      commas; outside the house every way out reads "домой". */
  function PossibleMoves(room: Room): (r: string)
    ensures r == ". можно пройти - " + Join(Shown(room.connections, room.outside), ", ")
  {
    assert Shown(room.connections, room.outside)[0..] == Shown(room.connections, room.outside);
    ". можно пройти - " + Listed(room.connections, room.outside, 0)
  }

  /** The loop of DisplayPossibleMoves from position `i`: a comma after
      every neighbour but the last. */
  function Listed(names: seq<string>, outside: bool, i: nat): (r: string)
    requires i <= |names|
    ensures r == Join(Shown(names, outside)[i..], ", ")
    decreases |names| - i
  {
    if i == |names| then ""
    else
      var shown := if outside then "домой" else names[i];
      var rest := Listed(names, outside, i + 1);
      assert Shown(names, outside)[i..][1..] == Shown(names, outside)[i + 1..];
      if i < |names| - 1 then shown + ", " + rest else shown + rest
  }

  /** The items of a list of targets whose `needed` flag is as given, in
      list order. */
  function Pick(targets: seq<Target>, needed: bool): (r: seq<Item>)
    ensures forall it :: it in r <==> exists j :: 0 <= j < |targets| && targets[j].needed == needed
                                                 && targets[j].item == it
    decreases |targets|
  {
    if |targets| == 0 then []
    else
      var rest := Pick(targets[1..], needed);
      assert forall j :: 1 <= j < |targets| ==> targets[j] == targets[1..][j - 1];
      (if targets[0].needed == needed then [targets[0].item] else []) + rest
  }

  /** The items lying in the room (not the goals), in room order. */
  function Visible(room: Room): seq<Item> {
    Pick(room.items, false)
  }

  /** DisplayItems as written: the first item's place is printed before it,
      and any later item lying somewhere else gets its own place printed,
      compared always with the FIRST item's place. */
  function DisplayItems(room: Room): string {
    var items := Visible(room);
    if |items| == 0 then "" else items[0].position + ": " + ItemsFrom(items, items[0].position, 0)
  }

  function ItemsFrom(items: seq<Item>, place: string, i: nat): string
    requires i <= |items|
    decreases |items| - i
  {
    if i == |items| then ""
    else
      (if items[i].position != place then items[i].position + ": " else "")
      + items[i].name + (if i < |items| - 1 then ", " else "")
      + ItemsFrom(items, place, i + 1)
  }

  /** The goals of the room, in room order. */
  function Goals(room: Room): seq<Item> {
    Pick(room.items, true)
  }

  /** DisplayRoomTarget: ", надо " and the goals not yet carried, joined by
      " и "; a goal already carried is skipped together with the separator
      after it. */
  function DisplayGoals(room: Room, inventory: map<Item, ()>): string {
    var goals := Goals(room);
    if |goals| == 0 then "" else ", надо " + GoalsFrom(goals, inventory, 0)
  }

  function GoalsFrom(goals: seq<Item>, inventory: map<Item, ()>, i: nat): string
    requires i <= |goals|
    decreases |goals| - i
  {
    if i == |goals| then ""
    else if goals[i] in inventory then GoalsFrom(goals, inventory, i + 1)
    else
      goals[i].action + " " + goals[i].name + (if i < |goals| - 1 then " и " else "")
      + GoalsFrom(goals, inventory, i + 1)
  }

  /** HandleLookAround: the room's description when something is in it,
      "пустая комната" otherwise, then the items, the goals and the ways out. */
  function HandleLookAround(g: Game): (r: string)
    requires Placed(g)
    ensures |Here(g).items| > 0 ==> StartsWith(r, Here(g).description)
    ensures |Here(g).items| == 0 ==> StartsWith(r, "пустая комната")
    ensures EndsWith(r, PossibleMoves(Here(g)))
  {
    var room := Here(g);
    var head := if |room.items| > 0 then room.description else "пустая комната";
    var middle := DisplayItems(room) + DisplayGoals(room, g.inventory);
    Framed(head, middle, PossibleMoves(room));
    head + middle + PossibleMoves(room)
  }

  // ---------------------------------------------------------------------------
  // Dispatch
  // ---------------------------------------------------------------------------

  datatype Outcome = Outcome(game: Game, text: string, err: Option<string>)

  /** DoCommand: a known verb with too few arguments is
      "ошибка формата команды" with an empty answer and no change; an unknown
      verb answers "неизвестная команда" without an error; otherwise the
      verb's handler runs on the leading arguments. */
  function DoCommand(g: Game, order: seq<Item>, verb: string, args: seq<string>): (r: Outcome)
    requires Placed(g) && Enumerates(order, g.inventory)
    ensures Placed(r.game)
    ensures r.err.Some? <==> verb in {Walk, Take, Wear, Apply} && |args| < Arity(verb)
    ensures r.err.Some? ==> r == Outcome(g, "", Some(ErrInvalidCommand))
    ensures verb !in {LookAround, Walk, Take, Wear, Apply} ==> r == Outcome(g, UnknownCommand, None)
    ensures verb == LookAround ==> r == Outcome(g, HandleLookAround(g), None)
    ensures verb == Walk && |args| >= 1 ==> (r.game, r.text) == HandleWalk(g, args[0])
    ensures (verb == Take || verb == Wear) && |args| >= 1 ==> (r.game, r.text) == HandleTakeItem(g, verb, args[0])
    ensures verb == Apply && |args| >= 2 ==> (r.game, r.text) == HandleApply(g, order, args[0], args[1])
  {
    if verb == LookAround then Outcome(g, HandleLookAround(g), None)
    else if verb == Walk then
      if |args| < 1 then Outcome(g, "", Some(ErrInvalidCommand))
      else var (g2, t) := HandleWalk(g, args[0]); Outcome(g2, t, None)
    else if verb == Take || verb == Wear then
      if |args| < 1 then Outcome(g, "", Some(ErrInvalidCommand))
      else var (g2, t) := HandleTakeItem(g, verb, args[0]); Outcome(g2, t, None)
    else if verb == Apply then
      if |args| < 2 then Outcome(g, "", Some(ErrInvalidCommand))
      else var (g2, t) := HandleApply(g, order, args[0], args[1]); Outcome(g2, t, None)
    else Outcome(g, UnknownCommand, None)
  }

  /** handleCommand: the line split on single spaces; the first word is the
      verb, the rest its arguments, and the answer is DoCommand's (the error
      is only printed). */
  function HandleCommand(g: Game, order: seq<Item>, line: string): (r: (Game, string))
    requires Placed(g) && Enumerates(order, g.inventory)
    ensures Placed(r.0)
    ensures var words := Split(line, ' ');
            && Join(words, " ") == line
            && r == (DoCommand(g, order, words[0], words[1..]).game, DoCommand(g, order, words[0], words[1..]).text)
  {
    var words := Split(line, ' ');
    SplitJoin(line, ' ');
    var o := DoCommand(g, order, words[0], words[1..]);
    (o.game, o.text)
  }

  // ---------------------------------------------------------------------------
  // The world of initGame
  // ---------------------------------------------------------------------------

  const Kitchen := "кухня"
  const Corridor := "коридор"
  const Street := "улица"
  const Apartment := "комната"

  const Tea := Item("чай", None, "", "на столе", NoEffect)
  const Key := Item("ключи", Some(map["дверь" := "дверь открыта"]), "", "на столе", OpenDoors)
  const University := Item("универ", None, "идти в", "", NoEffect)
  const Notes := Item("конспекты", None, "", "на столе", NoEffect)
  const Backpack := Item("рюкзак", None, "собрать", "на стуле", NoEffect)

  const CorridorRoom := Room(Corridor, "", "ничего интересного", [Kitchen, Apartment, Street],
                             map[Kitchen := true, Apartment := true, Street := false], [], false)
  const StreetRoom := Room(Street, "", "на улице весна", [Corridor], map[Corridor := false], [], true)
  const ApartmentRoom := Room(Apartment, "", "ты в своей комнате", [Corridor], map[Corridor := true],
                              [Target(Key, false), Target(Notes, false), Target(Backpack, false)], false)
  const KitchenRoom := Room(Kitchen, "ты находишься на кухне, ", "кухня, ничего интересного", [Corridor],
                            map[Corridor := true],
                            [Target(Tea, false), Target(Backpack, true), Target(University, true)], false)

  /** initGame: the four rooms registered by name, the player in the kitchen
      with nothing carried and the backpack as the storage item. */
  function InitGame(): (g: Game)
    ensures Placed(g) && g.position == Kitchen
    ensures g.inventory == map[] && g.storage == Backpack
    ensures g.rooms.Keys == {Kitchen, Corridor, Street, Apartment}
    ensures forall n :: n in g.rooms ==> g.rooms[n].name == n
  {
    var rooms := map[Corridor := CorridorRoom, Kitchen := KitchenRoom, Apartment := ApartmentRoom, Street := StreetRoom];
    Game(rooms, Kitchen, Backpack, map[])
  }

  /** Every way between the rooms is open at the start except the two ways
      between the corridor and the street. */
  lemma InitialDoors()
    ensures var g := InitGame();
            forall a, b :: a in g.rooms && b in g.rooms[a].doors ==>
              (g.rooms[a].doors[b] <==> !((a == Corridor && b == Street) || (a == Street && b == Corridor)))
    ensures var g := InitGame();
            forall a :: a in g.rooms ==> forall b :: b in g.rooms[a].connections <==> b in g.rooms[a].doors
  {
  }

  /** Applying the carried key to "дверь" opens every door of the room the
      player is in and answers "дверь открыта". */
  lemma KeyOpensDoors(g: Game, order: seq<Item>)
    requires Placed(g) && Enumerates(order, g.inventory)
    requires Key in g.inventory
    requires forall it :: it in g.inventory && it.name == Key.name ==> it == Key
    ensures var r := HandleApply(g, order, Key.name, "дверь");
            && r.1 == "дверь открыта"
            && r.0.position == g.position
            && Here(r.0).doors.Keys == Here(g).doors.Keys
            && (forall n :: n in Here(r.0).doors ==> Here(r.0).doors[n])
  {
    var found := FindHeld(order, Key.name);
    assert Key in order;
    assert found.Some? && found.value == Key;
  }

  lemma KitchenItems()
    ensures DisplayItems(KitchenRoom) == "на столе: чай"
  {
    var items := KitchenRoom.items;
    assert items[1..] == [Target(Backpack, true), Target(University, true)];
    assert items[1..][1..] == [Target(University, true)];
    assert Pick(items[1..][1..], false) == [];
    assert Pick(items[1..], false) == [];
    assert Visible(KitchenRoom) == [Tea];
    assert ItemsFrom([Tea], Tea.position, 0) == "чай";
  }

  lemma KitchenGoalList()
    ensures Goals(KitchenRoom) == [Backpack, University]
  {
    var items := KitchenRoom.items;
    assert items[1..] == [Target(Backpack, true), Target(University, true)];
    assert items[1..][1..] == [Target(University, true)];
    assert Pick(items[1..][1..], true) == [University];
    assert Pick(items[1..], true) == [Backpack, University];
  }

  lemma KitchenGoalsText()
    ensures GoalsFrom([Backpack, University], map[], 0) == "собрать рюкзак и идти в универ"
  {
    var goals := [Backpack, University];
    var none: map<Item, ()> := map[];
    assert GoalsFrom(goals, none, 2) == "";
    var last := GoalsFrom(goals, none, 1);
    assert last == "идти в" + " " + "универ" + "" by {
      assert goals[1] !in none;
    }
    assert GoalsFrom(goals, none, 0) == "собрать" + " " + "рюкзак" + " и " + last by {
      assert goals[0] !in none;
    }
    GoalsText(last);
  }

  lemma GoalsText(last: string)
    requires last == "идти в" + " " + "универ" + ""
    ensures "собрать" + " " + "рюкзак" + " и " + last == "собрать рюкзак и идти в универ"
  {
    assert last == "идти в универ";
  }

  lemma KitchenGoals()
    ensures DisplayGoals(KitchenRoom, map[]) == ", надо собрать рюкзак и идти в универ"
  {
    assert DisplayGoals(KitchenRoom, map[]) == ", надо " + "собрать рюкзак и идти в универ" by {
      KitchenGoalList();
      KitchenGoalsText();
    }
    NeedText();
  }

  lemma NeedText()
    ensures ", надо " + "собрать рюкзак и идти в универ" == ", надо собрать рюкзак и идти в универ"
  {
  }

  lemma KitchenMoves()
    ensures PossibleMoves(KitchenRoom) == ". можно пройти - коридор"
  {
    assert Shown([Corridor], false) == [Corridor];
  }

  /** The opening look around in the kitchen. */
  lemma FirstLookAround()
    ensures HandleLookAround(InitGame())
            == "ты находишься на кухне, " + "на столе: чай" + ", надо собрать рюкзак и идти в универ"
               + ". можно пройти - коридор"
  {
    var g := InitGame();
    assert Here(g) == KitchenRoom && g.inventory == map[];
    var items, goals, moves := DisplayItems(KitchenRoom), DisplayGoals(KitchenRoom, map[]), PossibleMoves(KitchenRoom);
    LookAroundParts(g);
    KitchenItems();
    KitchenGoals();
    KitchenMoves();
  }

  /** A room with something in it is looked around as its description, its
      items, its goals and its ways out, in that order. */
  lemma LookAroundParts(g: Game)
    requires Placed(g) && |Here(g).items| > 0
    ensures HandleLookAround(g) == Here(g).description + DisplayItems(Here(g))
                                   + DisplayGoals(Here(g), g.inventory) + PossibleMoves(Here(g))
  {
  }
}
