/** Territories and players of the strategy game (scripts/game.js): the army
    count and owner a territory keeps, and the reinforcements a player keeps.
    `removeArmies` and `giveReinforcments` throw on a bad amount; `addArmies`,
    as written, has the guard but no throw. */
module Armies {
  import opened Wrappers

  /** What a guarded mutator did: changed the state, or threw. */
  datatype Outcome = Done | Thrown

  /** A faction; the game only asks it for its colour. */
  datatype Faction = Faction(color: string)

  /** The count `addArmies(num)` leaves, as written: the guard `num < 1` has
      no throw after it, so it guards the addition itself. */
  function AfterAdd(count: int, num: int): (r: int)
    ensures num >= 1 ==> r == count
    ensures r <= count
  {
    if num < 1 then count + num else count
  }

  /** The count `removeArmies(num)` leaves: None when it throws, because the
      amount is below 1 or above the armies present. */
  function AfterRemove(count: int, num: int): (r: Option<int>)
    ensures r.None? <==> num < 1 || num > count
    ensures r.Some? ==> 0 <= r.value < count
  {
    if num < 1 || num > count then None else Some(count - num)
  }

  /** A checked addition, as `giveReinforcments(num)` does it and as
      `addArmies(num)` evidently means to: None when it throws on an amount
      below 1, the total plus the amount otherwise. */
  function CheckedAdd(total: int, num: int): (r: Option<int>)
    ensures r.None? <==> num < 1
    ensures r.Some? ==> r.value > total
  {
    if num < 1 then None else Some(total + num)
  }

  /** Removing what was just added restores a count that is not negative. */
  lemma RemoveUndoesAdd(count: int, num: int)
    requires count >= 0 && CheckedAdd(count, num).Some?
    ensures AfterRemove(CheckedAdd(count, num).value, num) == Some(count)
  {
  }

  /** The as-written `addArmies` ignores every positive amount ... */
  lemma AddIgnoresPositive(count: int, num: int)
    requires num >= 1
    ensures AfterAdd(count, num) == count
  {
  }

  /** ... and drives a fresh territory's count below zero. */
  lemma AddMakesCountNegative()
    ensures AfterAdd(0, -1) == -1
    ensures AfterAdd(0, 5) == 0
  {
  }

  /** One call on a territory's army count. */
  datatype ArmyCall = Add(num: int) | Remove(num: int)

  /** The count after a series of calls, with the evidently intended
      `addArmies` (a call that throws leaves the count as it was). */
  function Replay(count: int, calls: seq<ArmyCall>): int
    decreases |calls|
  {
    if |calls| == 0 then count
    else
      var next := match calls[0]
        case Add(n) => CheckedAdd(count, n)
        case Remove(n) => AfterRemove(count, n);
      Replay(if next.Some? then next.value else count, calls[1..])
  }

  /** With the intended `addArmies`, no series of calls takes a territory's
      army count below zero. */
  lemma {:induction false} ReplayNonNegative(count: int, calls: seq<ArmyCall>)
    requires count >= 0
    ensures Replay(count, calls) >= 0
    decreases |calls|
  {
    if |calls| > 0 {
      var next := match calls[0]
        case Add(n) => CheckedAdd(count, n)
        case Remove(n) => AfterRemove(count, n);
      ReplayNonNegative(if next.Some? then next.value else count, calls[1..]);
    }
  }

  /** The count after a series of calls with `addArmies` as written. */
  function ReplayAsWritten(count: int, calls: seq<ArmyCall>): int
    decreases |calls|
  {
    if |calls| == 0 then count
    else
      match calls[0]
      case Add(n) => ReplayAsWritten(AfterAdd(count, n), calls[1..])
      case Remove(n) =>
        var next := AfterRemove(count, n);
        ReplayAsWritten(if next.Some? then next.value else count, calls[1..])
  }

  /** As written, a single call takes a fresh territory below zero, where
      the intended version throws and keeps it at zero. */
  lemma ReplayAsWrittenGoesNegative()
    ensures ReplayAsWritten(0, [Add(-3)]) == -3
    ensures Replay(0, [Add(-3)]) == 0
  {
  }

  /** The reserve after a series of `giveReinforcments` calls. */
  function GiveAll(reserve: int, nums: seq<int>): int
    decreases |nums|
  {
    if |nums| == 0 then reserve
    else
      var next := CheckedAdd(reserve, nums[0]);
      GiveAll(if next.Some? then next.value else reserve, nums[1..])
  }

  /** The sum of the amounts `giveReinforcments` accepts. */
  function Accepted(nums: seq<int>): (s: nat)
  {
    if |nums| == 0 then 0
    else (if nums[0] < 1 then 0 else nums[0]) + Accepted(nums[1..])
  }

  /** Reinforcements never decrease: a series of gives adds exactly the
      amounts that were not refused. */
  lemma {:induction false} GiveAllAddsAccepted(reserve: int, nums: seq<int>)
    ensures GiveAll(reserve, nums) == reserve + Accepted(nums)
    ensures GiveAll(reserve, nums) >= reserve
    decreases |nums|
  {
    if |nums| > 0 {
      var next := CheckedAdd(reserve, nums[0]);
      GiveAllAddsAccepted(if next.Some? then next.value else reserve, nums[1..]);
    }
  }

  /** `id` is stored only when truthy; an absent id and the number 0 are
      not. */
  predicate Truthy(id: Option<int>)
  {
    id.Some? && id.value != 0
  }

  /** A player: its faction, its id (only for the person at this browser),
      its territories and its reinforcements in reserve. */
  class Player {
    const faction: Faction
    const id: Option<int>
    var territories: seq<Territory>
    var reinforcements: int

    /** A player starts with no territories and no reinforcements; a falsy
        id is not recorded. */
    constructor (faction: Faction, id: Option<int>)
      ensures this.faction == faction
      ensures this.id.Some? <==> Truthy(id)
      ensures Truthy(id) ==> this.id == id
      ensures territories == [] && reinforcements == 0
    {
      this.faction := faction;
      this.id := if Truthy(id) then id else None;
      territories := [];
      reinforcements := 0;
    }

    /** getColor: the faction's colour. */
    function GetColor(): (c: string)
      ensures c == faction.color
    {
      faction.color
    }

    /** getTerritories: a read that changes nothing. */
    method GetTerritories() returns (ts: seq<Territory>)
      ensures ts == territories
    {
      ts := territories;
    }

    /** numReinforcements: a read that changes nothing. */
    method NumReinforcements() returns (n: int)
      ensures n == reinforcements
    {
      n := reinforcements;
    }

    /** giveReinforcments: throws on an amount below 1 and changes nothing
        then; otherwise adds exactly that amount. */
    method GiveReinforcements(num: int) returns (r: Outcome)
      modifies this`reinforcements
      ensures r == Thrown <==> num < 1
      ensures r == Thrown ==> reinforcements == old(reinforcements)
      ensures r == Done ==> Some(reinforcements) == CheckedAdd(old(reinforcements), num)
      ensures reinforcements >= old(reinforcements)
    {
      if num < 1 {
        return Thrown;
      }
      reinforcements := reinforcements + num;
      r := Done;
    }
  }

  /** A territory on the map: its name and place, the armies on it and the
      player who owns it. */
  class Territory {
    const name: string
    const x: int
    const y: int
    var armies: int
    var owner: Option<Player>

    /** A new territory has no armies and no owner. */
    constructor (name: string, x: int, y: int)
      ensures this.name == name && this.x == x && this.y == y
      ensures armies == 0 && owner == None
    {
      this.name, this.x, this.y := name, x, y;
      armies := 0;
      owner := None;
    }

    /** owner: with a player, stores it and returns nothing; with none,
        returns the stored owner and changes nothing. */
    method Owner(player: Option<Player>) returns (r: Option<Player>)
      modifies this`owner
      ensures player.Some? ==> owner == player && r == None
      ensures player.None? ==> owner == old(owner) && r == owner
    {
      if player.Some? {
        owner := player;
        r := None;
      } else {
        r := owner;
      }
    }

    /** numArmies: a read that changes nothing. */
    method NumArmies() returns (n: int)
      ensures n == armies
    {
      n := armies;
    }

    /** addArmies as written: only an amount below 1 is added, so the count
        never grows and a negative amount takes it down. */
    method AddArmies(num: int)
      modifies this`armies
      ensures armies == AfterAdd(old(armies), num)
    {
      if num < 1 {
        armies := armies + num;
      }
    }

    /** addArmies as evidently intended: throws on an amount below 1 and
        adds any other amount, so a count that is not negative stays so. */
    method AddArmiesIntended(num: int) returns (r: Outcome)
      modifies this`armies
      ensures r == Thrown <==> num < 1
      ensures r == Thrown ==> armies == old(armies)
      ensures r == Done ==> Some(armies) == CheckedAdd(old(armies), num)
      ensures old(armies) >= 0 ==> armies >= 0
    {
      if num < 1 {
        return Thrown;
      }
      armies := armies + num;
      r := Done;
    }

    /** removeArmies: throws, changing nothing, on an amount below 1 or above
        the armies present; otherwise takes exactly that many away, so the
        count never drops below zero. */
    method RemoveArmies(num: int) returns (r: Outcome)
      modifies this`armies
      ensures r == Thrown <==> num < 1 || num > old(armies)
      ensures r == Thrown ==> armies == old(armies)
      ensures r == Done ==> Some(armies) == AfterRemove(old(armies), num)
      ensures r == Done ==> 0 <= armies < old(armies)
    {
      if num < 1 || num > armies {
        return Thrown;
      }
      armies := armies - num;
      r := Done;
    }
  }
}
