/**
 The Abandoned Farm House Adventure (software/adventure/adventure.c): the state of the
 game, its commands, and what holds in every state a player can reach. Messages are
 left out.
 */
module Adventure {

  // ---------------------------------------------------------------------------
  // Text
  // ---------------------------------------------------------------------------

  function Lower(c: char): char { if 'A' <= c <= 'Z' then (c as int + 32) as char else c }

  /** !strcasecmp(a, b) */
  predicate Same(a: string, b: string) {
    |a| == |b| && forall i | 0 <= i < |a| :: Lower(a[i]) == Lower(b[i])
  }

  /** The first letter of a line in lower case; '!' stands for an empty line. */
  function Initial(line: string): char { if line == "" then '!' else Lower(line[0]) }

  /** A space in the line, and `r` is all that follows it. */
  predicate FollowsSpace(line: string, r: string) {
    |r| < |line| && line[|line| - |r|..] == r && line[|line| - |r| - 1] == ' '
  }

  /** What follows the first space, if there is one: strchr(buffer, ' ') + 1 */
  function Object(line: string): (r: (string, bool))
    ensures r.1 <==> ' ' in line
    ensures r.1 ==> FollowsSpace(line, r.0) && ' ' !in line[..|line| - |r.0| - 1]
    ensures !r.1 ==> r.0 == ""
  {
    if line == "" then ("", false) else if line[0] == ' ' then (line[1..], true) else Object(line[1..])
  }

  /** What follows the last space, or the whole line: strrchr(buffer, ' ') + 1 */
  function LastWord(line: string): string
    decreases |line|
  {
    var (rest, found) := Object(line);
    if found then LastWord(rest) else line
  }

  lemma {:induction false} LastWordIs(line: string)
    ensures var r := LastWord(line); ' ' !in r && (r == line || FollowsSpace(line, r))
    decreases |line|
  {
    var (rest, found) := Object(line);
    if found {
      assert |rest| < |line|;
      hide FollowsSpace;
      LastWordIs(rest);
      if LastWord(rest) != rest { SuffixOfSuffix(line, rest, LastWord(rest)); }
    }
  }

  lemma SuffixOfSuffix(line: string, rest: string, r: string)
    requires FollowsSpace(line, rest) && FollowsSpace(rest, r)
    ensures FollowsSpace(line, r)
  {
    var head := line[..|line| - |rest|];
    assert line == head + rest;
    assert line[|line| - |r| - 1] == rest[|rest| - |r| - 1];
  }

  // ---------------------------------------------------------------------------
  // Items and the map
  // ---------------------------------------------------------------------------

  const LAST_ITEM: int := 16
  const KEY: int := 1
  const PITCHFORK: int := 2
  const FLASHLIGHT: int := 3
  const LAMP: int := 4
  const OIL: int := 5
  const CANDYBAR: int := 6
  const BOTTLE: int := 7
  const TOY_CAR: int := 9
  const MATCHES: int := 10
  const GOLD_COIN: int := 11
  const SILVER_COIN: int := 12
  const STALE_MEAT: int := 13
  const CHEESE: int := 15

  const MASTER_BEDROOM: int := 17
  const SERVANTS_QUARTERS: int := 18
  const VACANT_ROOM: int := 21
  const CISTERN: int := 22
  const TUNNEL: int := 23
  const WOLF_TREE: int := 27
  const LAST_LOCATION: int := 31

  const ItemNames: seq<string> :=
    ["", "key", "pitchfork", "flashlight", "lamp", "oil", "candybar", "bottle", "doll", "toy car", "matches",
        "gold coin",
     "silver coin", "stale meat", "book", "cheese", "old radio"]

  /** DescriptionOfItem */
  function Name(i: int): string
    requires 0 <= i <= LAST_ITEM
  {
    ItemNames[i]
  }

  /** Where the items are at the start: 0 for carried. */
  const InitialLocations: seq<int> := [0, 1, 8, 0, 7, 6, 9, 2, 16, 15, 18, 25, 29, 10, 12, 19, 17]

  /** The map: north, south, east, west, up, down; 0 for no way. The two doors are closed. */
  const Map: seq<seq<int>> :=
    [[0, 0, 0, 0, 0, 0], [2, 0, 0, 0, 0, 0], [4, 1, 3, 5, 0, 0], [0, 0, 6, 2, 0, 0],
     [7, 2, 0, 0, 0, 0], [0, 0, 2, 9, 0, 0], [0, 0, 0, 3, 0, 0], [0, 4, 0, 0, 8, 0],
     [0, 0, 0, 0, 0, 7], [0, 10, 5, 0, 0, 19], [9, 0, 0, 11, 0, 0], [0, 0, 10, 12, 14, 0],
     [13, 0, 11, 0, 0, 0], [0, 12, 0, 0, 0, 0], [16, 0, 15, 17, 0, 11], [0, 0, 0, 14, 0, 0],
     [0, 14, 0, 0, 0, 0], [0, 0, 14, 0, 0, 0], [0, 0, 0, 0, 0, 13], [0, 0, 0, 20, 9, 0],
     [21, 0, 19, 0, 0, 0], [0, 20, 0, 22, 0, 0], [0, 0, 21, 0, 0, 0], [24, 21, 0, 0, 0, 0],
     [29, 23, 0, 26, 0, 0], [26, 0, 24, 0, 0, 0], [27, 25, 29, 0, 0, 0], [0, 26, 28, 0, 0, 0],
     [0, 29, 31, 27, 0, 0], [28, 24, 30, 26, 0, 0], [31, 0, 0, 29, 0, 0], [0, 30, 0, 29, 0, 0]]

  /** Nothing on the map leads into the secret room or, from before the tunnel, into it or beyond. */
  lemma MapFacts()
    ensures |Map| == 32
    ensures forall l | 0 <= l < 32 :: |Map[l]| == 6 && forall d | 0 <= d < 6 :: 0 <= Map[l][d] <= 31 && Map[l][d] != 18
    ensures forall l | 0 <= l < 23 :: |Map[l]| == 6 && forall d | 0 <= d < 6 :: Map[l][d] < 23
  {
  }

  /** A name's length and first letter tell which it is. */
  lemma NamesDiffer(i: int, j: int)
    requires 1 <= i <= LAST_ITEM && 1 <= j <= LAST_ITEM && Same(Name(i), Name(j))
    ensures i == j
  {
    NameNotEmpty(i);
    assert |Name(i)| == |Name(j)| && Lower(Name(i)[0]) == Lower(Name(j)[0]);
    Signature(i);
    Signature(j);
    hide Name;
  }

  lemma NameNotEmpty(i: int)
    requires 1 <= i <= LAST_ITEM
    ensures |Name(i)| >= 3
  {
  }

  function Length(i: int): int {
    if i == 1 then 3 else if i == 2 then 9 else if i == 3 then 10 else if i == 4 then 4 else if i == 5 then 3 else if i
        == 6 then 8 else if i == 7 then 6 else if i == 8 then 4
    else if i == 9 then 7 else if i == 10 then 7 else if i == 11 then 9 else if i == 12 then 11 else if i
        == 13 then 10 else if i == 14 then 4 else if i == 15 then 6 else 9
  }

  function First(i: int): char {
    if i == 1 then 'k' else if i == 2 then 'p' else if i == 3 then 'f' else if i == 4 then 'l' else if i
        == 5 then 'o' else if i == 6 then 'c' else if i == 7 then 'b' else if i == 8 then 'd'
    else if i == 9 then 't' else if i == 10 then 'm' else if i == 11 then 'g' else if i == 12 then 's' else if i
        == 13 then 's' else if i == 14 then 'b' else if i == 15 then 'c' else 'o'
  }

  lemma Signature(i: int)
    requires 1 <= i <= LAST_ITEM
    ensures |Name(i)| == Length(i) && Length(i) > 0 && Name(i)[0] == First(i) && Lower(First(i)) == First(i)
  {
  }

  /** The number of the item so named, at or after i; 0 if there is none. */
  function ItemNumber(item: string, i: int): int
    requires 1 <= i <= LAST_ITEM + 1
    decreases LAST_ITEM + 1 - i
  {
    if i > LAST_ITEM then 0 else if Same(item, Name(i)) then i else ItemNumber(item, i + 1)
  }

  lemma SameEitherWay(a: string, b: string, c: string)
    ensures Same(a, b) == Same(b, a)
    ensures Same(a, b) && Same(a, c) ==> Same(b, c)
  {
    hide Lower;
  }

  lemma {:induction false} NumberFound(item: string, i: int, k: int)
    requires 1 <= i <= LAST_ITEM + 1 && i <= k <= LAST_ITEM
    ensures Same(item, Name(k)) <==> ItemNumber(item, i) == k
    ensures ItemNumber(item, i) == 0 || i <= ItemNumber(item, i) <= LAST_ITEM
    decreases LAST_ITEM + 1 - i
  {
    hide Same, Name;
    if Same(item, Name(i)) {
      SameEitherWay(item, Name(i), Name(k));
      if Same(item, Name(k)) { NamesDiffer(i, k); }
    } else if i < k {
      NumberFound(item, i + 1, k);
    } else {
      NumberNotBefore(item, i + 1);
    }
  }

  lemma {:induction false} NumberNotBefore(item: string, i: int)
    requires 1 <= i <= LAST_ITEM + 1
    ensures ItemNumber(item, i) == 0 || i <= ItemNumber(item, i) <= LAST_ITEM
    decreases LAST_ITEM + 1 - i
  {
    hide Same, Name;
    if i <= LAST_ITEM { NumberNotBefore(item, i + 1); }
  }

  /** An item's name is the name of that item only. */
  lemma OnlyOne(item: string)
    ensures forall k | 1 <= k <= LAST_ITEM :: Same(item, Name(k)) <==> ItemNumber(item, 1) == k
    ensures 0 <= ItemNumber(item, 1) <= LAST_ITEM
  {
    hide Same, Name, ItemNumber;
    forall k | 1 <= k <= LAST_ITEM
      ensures Same(item, Name(k)) <==> ItemNumber(item, 1) == k
    {
      NumberFound(item, 1, k);
    }
    NumberNotBefore(item, 1);
  }

  // ---------------------------------------------------------------------------
  // Where the items are
  // ---------------------------------------------------------------------------

  const MAX_ITEMS: int := 5

  /** Every item is in exactly one inventory slot, or at exactly one location of the map. */
  predicate Placed(inventory: seq<int>, locations: seq<int>) {
    && |inventory| == MAX_ITEMS && |locations| == LAST_ITEM + 1
    && (forall j | 0 <= j < MAX_ITEMS :: 0 <= inventory[j] <= LAST_ITEM)
    && (forall j, k | 0 <= j < k < MAX_ITEMS && inventory[j] == inventory[k] :: inventory[j] == 0)
    && (forall i | 1 <= i <= LAST_ITEM :: 0 <= locations[i] <= LAST_LOCATION)
    && (forall j | 0 <= j < MAX_ITEMS && inventory[j] != 0 :: locations[inventory[j]] == 0)
    && (forall i | 1 <= i <= LAST_ITEM && locations[i] == 0 :: i in inventory)
  }

  lemma PlacedInitially()
    ensures Placed([FLASHLIGHT, 0, 0, 0, 0], InitialLocations)
    ensures InitialLocations[MATCHES] == SERVANTS_QUARTERS && InitialLocations[GOLD_COIN] == 25
            && InitialLocations[SILVER_COIN] == 29
  {
    assert [FLASHLIGHT, 0, 0, 0, 0][0] == FLASHLIGHT;
  }

  lemma TakeKeepsPlaced(inventory: seq<int>, locations: seq<int>, i: int, j: int)
    requires Placed(inventory, locations) && 1 <= i <= LAST_ITEM && 0 <= j < MAX_ITEMS && inventory[j] == 0
             && locations[i] != 0
    ensures Placed(inventory[j := i], locations[i := 0])
  {
    var inv := inventory[j := i];
    forall k | 1 <= k <= LAST_ITEM && locations[i := 0][k] == 0
      ensures k in inv
    {
      if k == i {
        assert inv[j] == i;
      } else {
        var q :| 0 <= q < MAX_ITEMS && inventory[q] == k;
        assert inv[q] == k;
      }
    }
  }

  lemma DropKeepsPlaced(inventory: seq<int>, locations: seq<int>, j: int, here: int)
    requires Placed(inventory, locations) && 0 <= j < MAX_ITEMS && inventory[j] != 0 && 1 <= here <= LAST_LOCATION
    ensures Placed(inventory[j := 0], locations[inventory[j] := here])
  {
    var inv, i := inventory[j := 0], inventory[j];
    forall k | 1 <= k <= LAST_ITEM && locations[i := here][k] == 0
      ensures k in inv
    {
      var q :| 0 <= q < MAX_ITEMS && inventory[q] == k;
      assert inv[q] == k;
    }
  }

  /** The first slot from j on that holds n (0: an empty one); MAX_ITEMS if there is none. */
  function FirstSlot(inventory: seq<int>, n: int, j: nat): (r: int)
    requires j <= |inventory|
    ensures j <= r <= |inventory|
    ensures r < |inventory| ==> inventory[r] == n
    ensures forall k | j <= k < r :: inventory[k] != n
    decreases |inventory| - j
  {
    if j == |inventory| || inventory[j] == n then j else FirstSlot(inventory, n, j + 1)
  }

  // ---------------------------------------------------------------------------
  // The game on values
  // ---------------------------------------------------------------------------

  /** The variables of the game */
  datatype World = World(
    currentLocation: int, turnsPlayed: nat, lampLit: bool, lampFilled: bool, ateFood: bool, drankWater: bool,
    ratAttack: nat, wolfState: nat, gameOver: bool, secretDoor: int, tunnelDoor: int, inventory: seq<int>,
    locationOfItem: seq<int>)

  predicate Sized(w: World) {
    |w.inventory| == MAX_ITEMS && |w.locationOfItem| == LAST_ITEM + 1 && 1 <= w.currentLocation <= LAST_LOCATION
  }

  predicate Carries(w: World, item: string) { ItemNumber(item, 1) != 0 && ItemNumber(item, 1) in w.inventory }

  predicate Sees(w: World, item: string)
    requires Sized(w)
  {
    var n := ItemNumber(item, 1);
    1 <= n <= LAST_ITEM && w.locationOfItem[n] == w.currentLocation
  }

  function WayFrom(w: World, dir: int): int
    requires Sized(w) && 0 <= dir < 6
  {
    MapFacts();
    if w.currentLocation == MASTER_BEDROOM && dir == 0 then w.secretDoor
    else if w.currentLocation == VACANT_ROOM && dir == 0 then w.tunnelDoor
    else Map[w.currentLocation][dir]
  }

  /** `go`: along the map, or nowhere */
  function Gone(w: World, line: string): World
    requires Sized(w)
  {
    var dir := Direction(Initial(LastWord(line)));
    if dir >= 0 && WayFrom(w, dir) != 0 then
      w.(currentLocation := WayFrom(w, dir), turnsPlayed := w.turnsPlayed + 1)
    else
      w
  }

  /** `take`: an item that is here goes into the first empty slot */
  function Taken(w: World, line: string): World
    requires Sized(w)
  {
    var (item, found) := Object(line);
    var n, j := ItemNumber(item, 1), FirstSlot(w.inventory, 0, 0);
    if found && !Carries(w, item) && Sees(w, item) && j < MAX_ITEMS then
      w.(inventory := w.inventory[j := n], locationOfItem := w.locationOfItem[n := 0], turnsPlayed := w.turnsPlayed + 1)
    else w
  }

  /** `drop`: a carried item stays here */
  function Dropped(w: World, line: string): World
    requires Sized(w)
  {
    var (item, found) := Object(line);
    var n := ItemNumber(item, 1);
    var j := FirstSlot(w.inventory, n, 0);
    if found && Carries(w, item) && j < MAX_ITEMS && 0 <= n <= LAST_ITEM then
      w.(inventory := w.inventory[j := 0], locationOfItem := w.locationOfItem[n := w.currentLocation],
         turnsPlayed := w.turnsPlayed + 1)
    else w
  }

  /** `examine`: takes a turn if it names something, and the bookcase opens the secret door */
  function Examined(w: World, line: string): World {
    var (item, found) := Object(line);
    if !found then w
    else if Same(item, "bookcase") then w.(turnsPlayed := w.turnsPlayed + 1, secretDoor := SERVANTS_QUARTERS)
    else w.(turnsPlayed := w.turnsPlayed + 1)
  }

  /** What using item number `used` changes, besides the turn */
  function Effect(w: World, used: int): World {
    w.(
      tunnelDoor := if used == KEY && w.currentLocation == VACANT_ROOM then TUNNEL else w.tunnelDoor,
      wolfState :=
        if w.currentLocation == WOLF_TREE && used == PITCHFORK && w.wolfState == 0 then 1
        else if w.currentLocation == WOLF_TREE && used == TOY_CAR && w.wolfState == 1 then 2
        else w.wolfState,
      lampFilled := w.lampFilled || (used == OIL && LAMP in w.inventory),
      lampLit := w.lampLit || (used == MATCHES && LAMP in w.inventory && w.lampFilled),
      ateFood := w.ateFood || used == CANDYBAR,
      drankWater := w.drankWater || (used == BOTTLE && w.currentLocation == CISTERN),
      gameOver := w.gameOver || used == STALE_MEAT)
  }

  /** `use`: an item at hand takes a turn and has its effect */
  function Used(w: World, line: string): World
    requires Sized(w)
  {
    var (item, found) := Object(line);
    if found && (Carries(w, item) || Sees(w, item)) then
      Effect(w.(turnsPlayed := w.turnsPlayed + 1), ItemNumber(item, 1))
    else w
  }

  function Ended(w: World, answer: string): World { if Initial(answer) == 'y' then w.(gameOver := true) else w }

  datatype Verb = Nothing | Go | Take | Examine | Use | Drop | Leave

  /** The command a line gives */
  function VerbOf(line: string): Verb {
    if IsDirection(line) then Go
    else
      match Initial(line)
      case 'g' => Go
      case 't' => Take
      case 'e' => Examine
      case 'u' => Use
      case 'd' => Drop
      case 'q' => Leave
      case _ => Nothing
  }

  /** A direction, or its first letter alone */
  predicate IsDirection(line: string) {
    exists d | d in DIRECTIONS :: Same(line, d) || Same(line, d[..1])
  }

  const DIRECTIONS: seq<string> := ["north", "south", "east", "west", "up", "down"]

  function Commanded(w: World, line: string, answer: string): World
    requires Sized(w)
  {
    match VerbOf(line)
    case Nothing => w
    case Go => Gone(w, line)
    case Take => Taken(w, line)
    case Examine => Examined(w, line)
    case Use => Used(w, line)
    case Drop => Dropped(w, line)
    case Leave => Ended(w, answer)
  }

  /** No one goes on without food from turn 40, water from turn 50, or a lit lamp at hand from turn 60. */
  predicate InTime(w: World)
    requires Sized(w)
  {
    && (w.turnsPlayed >= 40 ==> w.ateFood) && (w.turnsPlayed >= 50 ==> w.drankWater)
    && (w.turnsPlayed >= 60 ==> w.lampLit && (LAMP in w.inventory || w.locationOfItem[LAMP] == w.currentLocation))
  }

  /** The rats are there, and no cheese. */
  predicate Rats(w: World)
    requires Sized(w)
  {
    w.currentLocation == TUNNEL && w.locationOfItem[CHEESE] != TUNNEL
  }

  /** What happens after a command: the rats come closer, and the game may end. */
  function Acted(w: World): World
    requires Sized(w)
  {
    if !InTime(w) then w.(gameOver := true)
    else if Rats(w) && w.ratAttack >= 3 then w.(gameOver := true)
    else
      w.(ratAttack := if Rats(w) then w.ratAttack + 1 else w.ratAttack,
         gameOver := w.gameOver || (w.currentLocation == WOLF_TREE && w.wolfState == 2))
  }

  /** What no command undoes: doors stay open and the wolf stays away. Only the key opens the tunnel. */
  predicate Keeps(w: World, w': World)
    requires Sized(w)
  {
    && w.turnsPlayed <= w'.turnsPlayed <= w.turnsPlayed + 1
    && (w.tunnelDoor == TUNNEL ==> w'.tunnelDoor == TUNNEL) && w'.wolfState >= w.wolfState
    && (w.secretDoor == SERVANTS_QUARTERS ==> w'.secretDoor == SERVANTS_QUARTERS)
    && (w'.tunnelDoor != w.tunnelDoor ==> w.currentLocation == VACANT_ROOM && KeyAtHand(w))
    && (w.ateFood ==> w'.ateFood) && (w.drankWater ==> w'.drankWater)
  }

  lemma GoneKeeps(w: World, line: string)
    requires Sized(w)
    ensures Keeps(w, Gone(w, line))
  {
    hide Same, ItemNumber, Object, Initial, LastWord, Map, FirstSlot, WayFrom;
  }

  lemma TakenKeeps(w: World, line: string)
    requires Sized(w)
    ensures Keeps(w, Taken(w, line))
  {
    hide Same, ItemNumber, Object, Initial, LastWord, Map, FirstSlot, WayFrom;
  }

  lemma DroppedKeeps(w: World, line: string)
    requires Sized(w)
    ensures Keeps(w, Dropped(w, line))
  {
    hide Same, ItemNumber, Object, Initial, LastWord, Map, FirstSlot, WayFrom;
  }

  lemma ExaminedKeeps(w: World, line: string)
    requires Sized(w)
    ensures Keeps(w, Examined(w, line))
  {
    hide Same, ItemNumber, Object, Initial, LastWord, Map, FirstSlot, WayFrom;
  }

  lemma UsedKeeps(w: World, line: string)
    requires Sized(w)
    ensures Keeps(w, Used(w, line))
  {
    hide Same, ItemNumber, Object, Initial, LastWord, Map, FirstSlot, WayFrom;
  }

  lemma CommandedKeeps(w: World, line: string, answer: string)
    requires Sized(w)
    ensures Keeps(w, Commanded(w, line, answer))
  {
    hide VerbOf, Initial, Gone, Taken, Dropped, Examined, Used;
    GoneKeeps(w, line);
    TakenKeeps(w, line);
    DroppedKeeps(w, line);
    ExaminedKeeps(w, line);
    UsedKeeps(w, line);
  }

  lemma CommandedIs(w: World, line: string, answer: string)
    requires Sized(w)
    ensures VerbOf(line) == Nothing ==> Commanded(w, line, answer) == w
    ensures VerbOf(line) == Go ==> Commanded(w, line, answer) == Gone(w, line)
    ensures VerbOf(line) == Take ==> Commanded(w, line, answer) == Taken(w, line)
    ensures VerbOf(line) == Examine ==> Commanded(w, line, answer) == Examined(w, line)
    ensures VerbOf(line) == Use ==> Commanded(w, line, answer) == Used(w, line)
    ensures VerbOf(line) == Drop ==> Commanded(w, line, answer) == Dropped(w, line)
    ensures VerbOf(line) == Leave ==> Commanded(w, line, answer) == Ended(w, answer)
  {
    hide VerbOf, Gone, Taken, Dropped, Examined, Used, Ended;
  }

  predicate KeyAtHand(w: World)
    requires Sized(w)
  {
    KEY in w.inventory || w.locationOfItem[KEY] == w.currentLocation
  }

  /** The order in which the command loop tries its cases gives the same command. */
  lemma VerbChosen(line: string)
    ensures var c := Initial(line);
            VerbOf(line) ==
              if line == "" || c == 'h' || c == 'i' then Nothing
              else if IsGo(line) then Go
              else if c == 'l' then Nothing
              else if c == 't' then Take
              else if c == 'e' then Examine
              else if c == 'u' then Use
              else if c == 'd' then Drop
              else if c == 'q' then Leave
              else Nothing
  {
    assert Initial("") == '!';
    GoIsDirection(line);
    if IsDirection(line) { DirectionInitial(line); }
    hide IsDirection, IsGo, Initial;
  }

  /** One command and what happens after it */
  function Turned(w: World, line: string, answer: string): World {
    if Sized(w) && Sized(Commanded(w, line, answer)) then Acted(Commanded(w, line, answer)) else w
  }

  /** The lines played from `w`, until the game is over; the line after `quit` is the answer to its question. */
  function Played(w: World, lines: seq<string>): World
    decreases |lines|
  {
    if w.gameOver || lines == [] then w
    else if Initial(lines[0]) == 'q' && |lines| > 1 then Played(Turned(w, lines[0], lines[1]), lines[2..])
    else Played(Turned(w, lines[0], ""), lines[1..])
  }

  lemma GoIsDirection(line: string)
    ensures IsGo(line) <==> Initial(line) == 'g' || IsDirection(line)
  {
    hide Same;
    var a, b, c, d, e, f := "north", "south", "east", "west", "up", "down";
    assert a[..1] == "n" && b[..1] == "s" && c[..1] == "e" && d[..1] == "w" && e[..1] == "u" && f[..1] == "d";
    assert DIRECTIONS[0] == a && DIRECTIONS[1] == b && DIRECTIONS[2] == c && DIRECTIONS[3] == d && DIRECTIONS[4] == e
           && DIRECTIONS[5] == f;
    assert a in DIRECTIONS && b in DIRECTIONS && c in DIRECTIONS;
    assert d in DIRECTIONS && e in DIRECTIONS && f in DIRECTIONS;
  }

  lemma DirectionInitial(line: string)
    requires IsDirection(line)
    ensures line != "" && Initial(line) in {'n', 's', 'e', 'w', 'u', 'd'}
  {
  }

  const START: World := World(
    1, 0, false, false, false, false, 0, 0, false, 0, 0, [FLASHLIGHT, 0, 0, 0, 0], InitialLocations)

  // ---------------------------------------------------------------------------
  // The game
  // ---------------------------------------------------------------------------

  class Game {
    var currentLocation: int
    var turnsPlayed: nat
    var lampLit: bool
    var lampFilled: bool
    var ateFood: bool
    var drankWater: bool
    var ratAttack: nat
    var wolfState: nat
    var gameOver: bool
    /** Move[17][North] and Move[21][North], the entries of the map that change */
    var secretDoor: int
    var tunnelDoor: int
    var inventory: seq<int>
    var locationOfItem: seq<int>

    function Now(): World
      reads this
    {
      World(currentLocation, turnsPlayed, lampLit, lampFilled, ateFood, drankWater, ratAttack, wolfState, gameOver,
            secretDoor, tunnelDoor, inventory, locationOfItem)
    }

    /** What holds in every state of every game. */
    ghost predicate Consistent()
      reads this
    {
      && Placed(inventory, locationOfItem) && 1 <= currentLocation <= LAST_LOCATION
      && (secretDoor == 0 || secretDoor == SERVANTS_QUARTERS) && (tunnelDoor == 0 || tunnelDoor == TUNNEL)
      && (secretDoor == 0 ==>
            currentLocation != SERVANTS_QUARTERS && locationOfItem[MATCHES] == SERVANTS_QUARTERS && !lampLit)
      && (tunnelDoor == 0 ==>
            currentLocation < TUNNEL && locationOfItem[GOLD_COIN] == 25 && locationOfItem[SILVER_COIN] == 29)
      && (tunnelDoor == 0 ==> wolfState == 0 && ratAttack == 0)
      && wolfState <= 2 && ratAttack <= 3 && (lampLit ==> lampFilled)
    }

    /** No one goes on without food from turn 40, water from turn 50, or a lit lamp at hand from turn 60. */
    predicate Timely()
      requires |locationOfItem| == LAST_ITEM + 1
      reads this
    {
      (turnsPlayed >= 40 ==> ateFood) && (turnsPlayed >= 50 ==> drankWater)
          && (turnsPlayed >= 60 ==> lampLit && AtHand(LAMP))
    }

    /** Carried, or at the current location. */
    predicate AtHand(i: int)
      requires |locationOfItem| == LAST_ITEM + 1 && 1 <= i <= LAST_ITEM
      reads this
    {
      i in inventory || locationOfItem[i] == currentLocation
    }

    /** The item so named is carried. */
    predicate Carrying(item: string)
      reads this
    {
      ItemNumber(item, 1) != 0 && ItemNumber(item, 1) in inventory
    }

    predicate Here(item: string)
      requires |locationOfItem| == LAST_ITEM + 1
      reads this
    {
      var n := ItemNumber(item, 1);
      1 <= n <= LAST_ITEM && locationOfItem[n] == currentLocation
    }

    /** carryingItem */
    method CarryingItem(item: string) returns (r: bool)
      requires Placed(inventory, locationOfItem)
      ensures r == Carrying(item)
    {
      hide Same, Name, ItemNumber;
      OnlyOne(item);
      for j := 0 to MAX_ITEMS
        invariant forall k | 0 <= k < j :: inventory[k] == 0 || inventory[k] != ItemNumber(item, 1)
      {
        if inventory[j] != 0 && Same(item, Name(inventory[j])) { return true; }
      }
      return false;
    }

    /** itemIsHere */
    method ItemIsHere(item: string) returns (r: bool)
      requires Placed(inventory, locationOfItem)
      ensures r == Here(item)
    {
      hide Same, Name, ItemNumber;
      OnlyOne(item);
      for i := 1 to LAST_ITEM + 1
        invariant ItemNumber(item, 1) == 0 || ItemNumber(item, 1) >= i
      {
        if Same(item, Name(i)) { return locationOfItem[i] == currentLocation; }
      }
      return false;
    }

    /** doDrop */
    method DoDrop(line: string)
      requires Consistent()
      modifies this`inventory, this`locationOfItem, this`turnsPlayed
      ensures Consistent()
      ensures var (item, found) := Object(line);
              var n := ItemNumber(item, 1);
              if found && old(Carrying(item)) then
                && inventory == old(inventory)[FirstSlot(old(inventory), n, 0) := 0]
                && locationOfItem == old(locationOfItem)[n := currentLocation]
                && turnsPlayed == old(turnsPlayed) + 1
              else
                inventory == old(inventory) && locationOfItem == old(locationOfItem) && turnsPlayed == old(turnsPlayed)
      ensures Now() == Dropped(old(Now()), line)
    {
      hide Same, Name, ItemNumber, Object, Placed;
      var (item, found) := Object(line);
      if !found { return; }
      OnlyOne(item);
      PlacedSizes(inventory, locationOfItem);
      for j := 0 to MAX_ITEMS
        invariant inventory == old(inventory) && locationOfItem == old(locationOfItem)
                  && turnsPlayed == old(turnsPlayed)
        invariant FirstSlot(inventory, ItemNumber(item, 1), 0) == FirstSlot(inventory, ItemNumber(item, 1), j)
                  || ItemNumber(item, 1) == 0
      {
        if inventory[j] != 0 && Same(item, Name(inventory[j])) {
          DropKeepsPlaced(inventory, locationOfItem, j, currentLocation);
          CarriedNotAt(inventory, locationOfItem, inventory[j]);
          locationOfItem := locationOfItem[inventory[j] := currentLocation];
          inventory := inventory[j := 0];
          turnsPlayed := turnsPlayed + 1;
          return;
        }
      }
    }

    /** doTake */
    method DoTake(line: string)
      requires Consistent()
      modifies this`inventory, this`locationOfItem, this`turnsPlayed
      ensures Consistent()
      ensures var (item, found) := Object(line);
              var n, j := ItemNumber(item, 1), FirstSlot(old(inventory), 0, 0);
              if found && !old(Carrying(item)) && old(Here(item)) && j < MAX_ITEMS then
                inventory == old(inventory)[j := n] && locationOfItem == old(locationOfItem)[n := 0]
                    && turnsPlayed == old(turnsPlayed) + 1
              else
                inventory == old(inventory) && locationOfItem == old(locationOfItem) && turnsPlayed == old(turnsPlayed)
      ensures Now() == Taken(old(Now()), line)
    {
      hide Same, Name, ItemNumber, Object, Placed, FirstSlot;
      var (item, found) := Object(line);
      if !found { return; }
      OnlyOne(item);
      PlacedSizes(inventory, locationOfItem);
      var carrying := CarryingItem(item);
      if carrying { return; }
      for i := 1 to LAST_ITEM + 1
        invariant inventory == old(inventory) && locationOfItem == old(locationOfItem)
                  && turnsPlayed == old(turnsPlayed)
        invariant forall k | 1 <= k < i :: ItemNumber(item, 1) != k || locationOfItem[k] != currentLocation
      {
        if Same(item, Name(i)) && locationOfItem[i] == currentLocation {
          TakeHere(i);
          return;
        }
      }
    }

    /** The inner loop of doTake */
    method TakeHere(i: int)
      requires Consistent() && 1 <= i <= LAST_ITEM && locationOfItem[i] == currentLocation
      modifies this`inventory, this`locationOfItem, this`turnsPlayed
      ensures Consistent()
      ensures var j := FirstSlot(old(inventory), 0, 0);
              if j < MAX_ITEMS then
                inventory == old(inventory)[j := i] && locationOfItem == old(locationOfItem)[i := 0]
                    && turnsPlayed == old(turnsPlayed) + 1
              else
                inventory == old(inventory) && locationOfItem == old(locationOfItem) && turnsPlayed == old(turnsPlayed)
    {
      hide Placed;
      PlacedSizes(inventory, locationOfItem);
      for j := 0 to MAX_ITEMS
        invariant inventory == old(inventory) && locationOfItem == old(locationOfItem)
                  && turnsPlayed == old(turnsPlayed)
        invariant FirstSlot(inventory, 0, 0) == FirstSlot(inventory, 0, j)
      {
        if inventory[j] == 0 {
          TakeKeepsPlaced(inventory, locationOfItem, i, j);
          inventory := inventory[j := i];
          locationOfItem := locationOfItem[i := 0];
          turnsPlayed := turnsPlayed + 1;
          return;
        }
      }
    }

    /** Move[currentLocation][dir] */
    function Way(dir: int): int
      requires 0 <= dir < 6 && 0 <= currentLocation <= LAST_LOCATION
      reads this
    {
      MapFacts();
      if currentLocation == MASTER_BEDROOM && dir == 0 then secretDoor
      else if currentLocation == VACANT_ROOM && dir == 0 then tunnelDoor
      else Map[currentLocation][dir]
    }

    /** doGo */
    method DoGo(line: string)
      requires Consistent()
      modifies this`currentLocation, this`turnsPlayed
      ensures Consistent()
      ensures var dir := Direction(Initial(LastWord(line)));
              if dir >= 0 && old(Way(dir)) != 0 then currentLocation == old(Way(dir))
                  && turnsPlayed == old(turnsPlayed) + 1
              else currentLocation == old(currentLocation) && turnsPlayed == old(turnsPlayed)
      ensures Now() == Gone(old(Now()), line)
    {
      hide Placed, Map, Initial, LastWord;
      var dir := Direction(Initial(LastWord(line)));
      if dir < 0 { return; }
      MapFacts();
      if Way(dir) == 0 { return; }
      currentLocation := Way(dir);
      turnsPlayed := turnsPlayed + 1;
    }

    /** doExamine: only the bookcase changes anything, and it does so from anywhere. */
    method DoExamine(line: string)
      requires Consistent()
      modifies this`secretDoor, this`turnsPlayed
      ensures Consistent()
      ensures turnsPlayed == old(turnsPlayed) + if Object(line).1 then 1 else 0
      ensures secretDoor == if Object(line).1
              && Same(Object(line).0, "bookcase") then SERVANTS_QUARTERS else old(secretDoor)
      ensures Now() == Examined(old(Now()), line)
    {
      hide Placed, Same, Object;
      var (item, found) := Object(line);
      if !found { return; }
      turnsPlayed := turnsPlayed + 1;
      if Same(item, "bookcase") {
        secretDoor := SERVANTS_QUARTERS;
      }
    }

    /** doUse */
    method DoUse(line: string)
      requires Consistent()
      modifies this`turnsPlayed, this`tunnelDoor, this`wolfState, this`lampFilled, this`lampLit, this`ateFood,
          this`drankWater, this`gameOver
      ensures Consistent()
      ensures Now() == Used(old(Now()), line)
    {
      hide Same, Name, ItemNumber, Object, Placed;
      var (item, found) := Object(line);
      if !found { return; }
      OnlyOne(item);
      PlacedSizes(inventory, locationOfItem);
      var carrying := CarryingItem(item);
      var here := ItemIsHere(item);
      if !carrying && !here { return; }
      turnsPlayed := turnsPlayed + 1;
      UseItem(item, ItemNumber(item, 1));
    }

    /** The chain of cases in doUse */
    method UseItem(item: string, ghost used: int)
      requires Consistent() && used == ItemNumber(item, 1) && 1 <= used <= LAST_ITEM && AtHand(used)
      modifies this`tunnelDoor, this`wolfState, this`lampFilled, this`lampLit, this`ateFood, this`drankWater,
          this`gameOver
      ensures Consistent()
      ensures Now() == Effect(old(Now()), used)
    {
      hide Same, Name, ItemNumber, Placed, Consistent;
      var done := UseInPlace(item, used);
      if !done { UseLamp(item, used); }
    }

    /** Its cases for the key, the pitchfork and the toy car */
    method UseInPlace(item: string, ghost used: int) returns (done: bool)
      requires Consistent() && used == ItemNumber(item, 1) && 1 <= used <= LAST_ITEM
      modifies this`tunnelDoor, this`wolfState
      ensures Consistent() && (done ==> used == KEY || used == PITCHFORK || used == TOY_CAR)
      ensures tunnelDoor == if used == KEY && currentLocation == VACANT_ROOM then TUNNEL else old(tunnelDoor)
      ensures wolfState == if currentLocation == WOLF_TREE && used == PITCHFORK && old(wolfState) == 0 then 1
                           else if currentLocation == WOLF_TREE && used == TOY_CAR && old(wolfState) == 1 then 2
                           else old(wolfState)
    {
      hide Same, Name, ItemNumber, Placed;
      OnlyOne(item);
      done := true;
      if Same(item, Name(KEY)) && currentLocation == VACANT_ROOM {
        tunnelDoor := TUNNEL;
        return;
      }
      if Same(item, Name(PITCHFORK)) && currentLocation == WOLF_TREE && wolfState == 0 {
        wolfState := 1;
        return;
      }
      if Same(item, Name(TOY_CAR)) && currentLocation == WOLF_TREE && wolfState == 1 {
        wolfState := 2;
        return;
      }
      done := false;
    }

    /** Its cases for the lamp */
    method UseLamp(item: string, ghost used: int)
      requires Consistent() && used == ItemNumber(item, 1) && 1 <= used <= LAST_ITEM && AtHand(used)
      modifies this`lampFilled, this`lampLit, this`ateFood, this`drankWater, this`gameOver
      ensures Consistent()
      ensures lampFilled == (old(lampFilled) || (used == OIL && LAMP in inventory))
      ensures lampLit == (old(lampLit) || (used == MATCHES && LAMP in inventory && old(lampFilled)))
      ensures ateFood == (old(ateFood) || used == CANDYBAR)
      ensures drankWater == (old(drankWater) || (used == BOTTLE && currentLocation == CISTERN))
      ensures gameOver == (old(gameOver) || used == STALE_MEAT)
    {
      hide Same, Name, ItemNumber, Placed;
      OnlyOne(item);
      LampIsLamp();
      PlacedSizes(inventory, locationOfItem);
      MatchesNotAtHand(inventory, locationOfItem);
      if Same(item, Name(OIL)) {
        var lamp := CarryingItem(Name(LAMP));
        if lamp { lampFilled := true; }
        return;
      }
      if Same(item, Name(MATCHES)) {
        var lamp := CarryingItem(Name(LAMP));
        if lamp {
          if lampFilled { lampLit := true; }
          return;
        }
      }
      UseSupplies(item, used);
    }

    /** Its last cases: food, drink and the meat */
    method UseSupplies(item: string, ghost used: int)
      requires Consistent() && used == ItemNumber(item, 1)
      modifies this`ateFood, this`drankWater, this`gameOver
      ensures Consistent()
      ensures ateFood == (old(ateFood) || used == CANDYBAR)
      ensures drankWater == (old(drankWater) || (used == BOTTLE && currentLocation == CISTERN))
      ensures gameOver == (old(gameOver) || used == STALE_MEAT)
    {
      hide Same, Name, ItemNumber, Placed;
      OnlyOne(item);
      if Same(item, Name(CANDYBAR)) {
        ateFood := true;
        return;
      }
      if Same(item, Name(BOTTLE)) {
        if currentLocation == CISTERN { drankWater := true; }
        return;
      }
      if Same(item, Name(STALE_MEAT)) {
        gameOver := true;
      }
    }

    /** doQuit, with the player's answer */
    method DoQuit(answer: string)
      modifies this`gameOver
      ensures gameOver == (old(gameOver) || Initial(answer) == 'y')
      ensures Now() == Ended(old(Now()), answer)
    {
      if Initial(answer) == 'y' { gameOver := true; }
    }

    /** The turn a supply runs out has been dealt with, but for the present turn. */
    predicate Due()
      reads this
    {
      (turnsPlayed > 40 ==> ateFood) && (turnsPlayed > 50 ==> drankWater)
    }

    /** The rats reach the player who is in the tunnel without cheese once too often. */
    predicate RatsAttack()
      requires |locationOfItem| == LAST_ITEM + 1
      reads this
    {
      currentLocation == TUNNEL && locationOfItem[CHEESE] != TUNNEL && ratAttack >= 3
    }

    /** The rats in doActions */
    method MeetRats() returns (attacked: bool)
      requires Placed(inventory, locationOfItem)
      modifies this`ratAttack
      ensures |locationOfItem| == LAST_ITEM + 1 && attacked == old(RatsAttack())
      ensures ratAttack == old(ratAttack)
                           + if currentLocation == TUNNEL && locationOfItem[CHEESE] != TUNNEL && !attacked then 1 else 0
    {
      hide Same, Name, ItemNumber, Placed;
      CheeseIsCheese();
      PlacedSizes(inventory, locationOfItem);
      if currentLocation == TUNNEL {
        var cheese := ItemIsHere(Name(CHEESE));
        if !cheese {
          if ratAttack < 3 {
            ratAttack := ratAttack + 1;
          } else {
            return true;
          }
        }
      }
      return false;
    }

    /** doActions: the game ends when a supply is missing in time, the rats attack, or it is won. */
    method DoActions()
      requires Consistent() && Due()
      modifies this`gameOver, this`ratAttack
      ensures Consistent() && (!gameOver ==> Timely())
      ensures gameOver <==>
                old(gameOver) || !Timely() || old(RatsAttack()) || (currentLocation == WOLF_TREE && wolfState == 2)
      ensures Now() == Acted(old(Now()))
    {
      PlacedSizes(inventory, locationOfItem);
      hide Placed;
      Act();
    }

    /** Its cases */
    method Act()
      requires Consistent() && Due()
      modifies this`gameOver, this`ratAttack
      ensures Consistent() && |locationOfItem| == LAST_ITEM + 1 && Sized(old(Now())) && Now() == Acted(old(Now()))
    {
      hide Same, Name, ItemNumber, Placed;
      LampIsLamp();
      PlacedSizes(inventory, locationOfItem);
      var lampHere := ItemIsHere(Name(LAMP));
      var lampCarried := CarryingItem(Name(LAMP));
      if turnsPlayed >= 60 && (!lampLit || (!lampHere && !lampCarried)) {
        gameOver := true;
        return;
      }
      if turnsPlayed == 50 && !drankWater {
        gameOver := true;
        return;
      }
      if turnsPlayed == 40 && !ateFood {
        gameOver := true;
        return;
      }
      var attacked := MeetRats();
      if attacked {
        gameOver := true;
        return;
      }
      if currentLocation == WOLF_TREE && wolfState == 2 {
        gameOver := true;
      }
    }

    /** initialize */
    method Initialize()
      modifies this
      ensures Consistent() && Timely() && !gameOver && turnsPlayed == 0 && currentLocation == 1 && secretDoor == 0
              && tunnelDoor == 0
      ensures inventory == [FLASHLIGHT, 0, 0, 0, 0] && locationOfItem == InitialLocations
      ensures Now() == START
    {
      hide Placed;
      currentLocation, turnsPlayed, gameOver := 1, 0, false;
      lampFilled, lampLit, ateFood, drankWater := false, false, false, false;
      ratAttack, wolfState, secretDoor, tunnelDoor := 0, 0, 0, 0;
      inventory := [FLASHLIGHT, 0, 0, 0, 0];
      locationOfItem := InitialLocations;
      PlacedInitially();
    }

    /** One command and the special actions after it. */
    method Turn(line: string, answer: string)
      requires Consistent() && Timely()
      modifies this
      ensures Consistent() && (!gameOver ==> Timely())
      ensures old(turnsPlayed) <= turnsPlayed <= old(turnsPlayed) + 1
      ensures old(tunnelDoor) == TUNNEL ==> tunnelDoor == TUNNEL
      ensures old(secretDoor) == SERVANTS_QUARTERS ==> secretDoor == SERVANTS_QUARTERS
      ensures tunnelDoor != old(tunnelDoor) ==> old(currentLocation) == VACANT_ROOM && old(AtHand(KEY))
      ensures wolfState >= old(wolfState)
      ensures Now() == Turned(old(Now()), line, answer)
    {
      PlacedSizes(inventory, locationOfItem);
      hide Same, Name, ItemNumber, Placed, Object, Initial, LastWord, Map, FirstSlot, Commanded, Acted;
      Command(line, answer);
      PlacedSizes(inventory, locationOfItem);
      DoActions();
    }

    /** The command loop's choice of a command */
    method Command(line: string, answer: string)
      requires Consistent() && Timely()
      modifies this
      ensures Consistent() && Due()
      ensures Now() == Commanded(old(Now()), line, answer)
      ensures Keeps(old(Now()), Now())
    {
      PlacedSizes(inventory, locationOfItem);
      hide Same, Name, ItemNumber, Placed, Object, Initial, LastWord, Map, FirstSlot, IsGo, VerbOf, Gone, Taken,
           Dropped, Examined, Used, Ended, Consistent, Carries, Sees;
      var c := Initial(line);
      OnlyOne(Object(line).0);
      VerbChosen(line);
      CommandedKeeps(Now(), line, answer);
      hide Commanded, Keeps;
      CommandedIs(Now(), line, answer);
      if line == "" || c == 'h' || c == 'i' {
      } else if IsGo(line) {
        DoGo(line);
      } else if c == 'l' {
      } else if c == 't' {
        DoTake(line);
      } else if c == 'e' {
        DoExamine(line);
      } else if c == 'u' {
        DoUse(line);
      } else if c == 'd' {
        DoDrop(line);
      } else if c == 'q' {
        DoQuit(answer);
      }
    }

    /**
     A whole game: the player's lines until the game is over or they run out. Every state
     between turns is the end of such a game.
     */
    method Play(lines: seq<string>)
      modifies this
      ensures Consistent() && (!gameOver ==> Timely())
      ensures turnsPlayed <= |lines|
      ensures Now() == Played(START, lines)
    {
      hide Turned, Initial, Placed, Timely;
      Initialize();
      var i := 0;
      assert lines[0..] == lines;
      while !gameOver && i < |lines|
        invariant 0 <= i <= |lines| && Consistent() && |locationOfItem| == LAST_ITEM + 1
        invariant (!gameOver ==> Timely()) && turnsPlayed <= i
        invariant Played(Now(), lines[i..]) == Played(START, lines)
      {
        ghost var rest := lines[i..];
        assert |rest| == |lines| - i && rest[1..] == lines[i + 1..] && (|rest| > 1 ==> rest[2..] == lines[i + 2..]);
        var line := lines[i];
        i := i + 1;
        var answer := "";
        if Initial(line) == 'q' && i < |lines| {
          answer := lines[i];
          i := i + 1;
        }
        Turn(line, answer);
        PlacedSizes(inventory, locationOfItem);
      }
    }
  }

  /** A line that is a movement: `go ...`, or a direction or its first letter alone */
  predicate IsGo(line: string) {
    || Initial(line) == 'g'
    || Same(line, "n") || Same(line, "s") || Same(line, "e") || Same(line, "w") || Same(line, "u") || Same(line, "d")
    || Same(line, "north") || Same(line, "south") || Same(line, "east") || Same(line, "west") || Same(line, "up")
        || Same(line, "down")
  }

  lemma CheeseIsCheese()
    ensures ItemNumber(Name(CHEESE), 1) == CHEESE
  {
    hide Same, Name, ItemNumber;
    OnlyOne(Name(CHEESE));
    SameAsItself(Name(CHEESE));
  }

  lemma PlacedSizes(inventory: seq<int>, locations: seq<int>)
    requires Placed(inventory, locations)
    ensures |inventory| == MAX_ITEMS && |locations| == LAST_ITEM + 1
    ensures forall j | 0 <= j < MAX_ITEMS :: 0 <= inventory[j] <= LAST_ITEM
  {
  }

  /** A carried item has no location. */
  lemma CarriedNotAt(inventory: seq<int>, locations: seq<int>, i: int)
    requires Placed(inventory, locations) && i in inventory && i != 0
    ensures 1 <= i <= LAST_ITEM && locations[i] == 0
  {
  }

  lemma MatchesNotAtHand(inventory: seq<int>, locations: seq<int>)
    requires Placed(inventory, locations)
    ensures locations[MATCHES] != 0 ==> MATCHES !in inventory
  {
  }

  lemma LampIsLamp()
    ensures ItemNumber(Name(LAMP), 1) == LAMP
  {
    hide Same, Name, ItemNumber;
    OnlyOne(Name(LAMP));
    SameAsItself(Name(LAMP));
  }

  lemma SameAsItself(a: string)
    ensures Same(a, a)
  {
  }

  /** A direction by its first letter: north, south, east, west, up, down; -1 for any other. */
  function Direction(c: char): (dir: int)
    ensures -1 <= dir < 6
  {
    if c == 'n' then 0 else if c == 's' then 1 else if c == 'e' then 2 else if c == 'w' then 3 else if c == 'u' then 4
    else if c == 'd' then 5 else -1
  }

  /** A letter stands for the direction that begins with it. */
  lemma DirectionNames(c: char)
    ensures Direction(c) >= 0 ==> DIRECTIONS[Direction(c)][0] == c
    ensures Direction(c) < 0 ==> forall d | d in DIRECTIONS :: d[0] != c
  {
  }
}
