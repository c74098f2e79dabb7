/**
 * Cell placement and the bot-density controller of the simulation engine (Go
 * files `backend/internal/sim/engine.go` and `handovers.go`).
 *
 * A cell is modelled by the kinds of the entities it holds, keyed by entity
 * ID; a bot by the cell it belongs to. Positions of bots, velocities and the
 * random number source are not part of this model.
 */
module SimEngine {
  import opened Spatial
  import opened Text
  import opened Handovers

  datatype EntityKind = KindPlayer | KindBot

  /** The engine's configuration (`Config` in `types.go`). */
  datatype Config = Config(
    cellSize: real,
    aoiRadius: real,
    tickHz: int,
    snapshotHz: int,
    handoverHysteresis: real,
    nodeId: string,
    targetDensityPerCell: int,
    maxBots: int)

  /** A connected player: its entity fields that placement reads, and the cell that owns it. */
  datatype PlayerRec = PlayerRec(id: string, name: string, pos: Vec2, vel: Vec2, ownedCell: CellKey)

  type Entities = map<string, EntityKind>

  function Min(a: int, b: int): int { if a <= b then a else b }
  function Max(a: int, b: int): int { if a >= b then a else b }

  /** The ID of the `n`th bot spawned. */
  function BotId(n: nat): string
  {
    "bot-" + NatToString(n)
  }

  /** Bots spawned at different sequence numbers have different IDs. */
  lemma BotIdsDistinct(i: nat, j: nat)
    requires i != j
    ensures BotId(i) != BotId(j)
  {
    if BotId(i) == BotId(j) {
      assert NatToString(i) == BotId(i)[4..];
      assert NatToString(j) == BotId(j)[4..];
      DigitsValueOfNatToString(i);
      DigitsValueOfNatToString(j);
    }
  }

  /** `cells` with an empty cell created at `k` when none exists. */
  function WithCell(cells: map<CellKey, Entities>, k: CellKey): (r: map<CellKey, Entities>)
    ensures r.Keys == cells.Keys + {k}
    ensures forall c :: c in cells ==> r[c] == cells[c]
    ensures k !in cells ==> r[k] == map[]
  {
    if k in cells then cells else cells[k := map[]]
  }

  /**
   * The cells after moving player `id` from `from` to `to`: gone from the old
   * cell if that exists, present in the new one, which is created if needed.
   */
  function Moved(cells: map<CellKey, Entities>, id: string, from: CellKey, to: CellKey): (r: map<CellKey, Entities>)
    ensures from == to ==> r == cells
    ensures from != to ==> r.Keys == cells.Keys + {to} && r[to] == WithCell(cells, to)[to][id := KindPlayer]
    ensures from != to && from in cells ==> r[from] == cells[from] - {id}
    ensures forall c :: c in cells && c != from && c != to ==> r[c] == cells[c]
  {
    if from == to then cells
    else
      var left := if from in cells then cells[from := cells[from] - {id}] else cells;
      var target := WithCell(left, to);
      target[to := target[to][id := KindPlayer]]
  }

  /** The number of entities of one kind in a cell. */
  function CountKind(ents: Entities, kind: EntityKind): nat
  {
    |set id | id in ents && ents[id] == kind|
  }

  /** The IDs among `done` of the entities of one kind. */
  ghost function KindIn(ents: Entities, done: set<string>, kind: EntityKind): set<string>
  {
    set id | id in done && id in ents && ents[id] == kind
  }

  /** Taking one more ID into account adds it to the set of its own kind only. */
  lemma KindInStep(ents: Entities, done: set<string>, id: string, kind: EntityKind)
    requires id in ents && id !in done
    ensures |KindIn(ents, done + {id}, kind)| == |KindIn(ents, done, kind)| + (if ents[id] == kind then 1 else 0)
  {
    if ents[id] == kind {
      assert KindIn(ents, done + {id}, kind) == KindIn(ents, done, kind) + {id};
    } else {
      assert KindIn(ents, done + {id}, kind) == KindIn(ents, done, kind);
    }
  }

  predicate HasBot(ents: Entities)
  {
    exists id :: id in ents && ents[id] == KindBot
  }

  /** `after` is `before` with some bots taken out and nothing else changed. */
  predicate RemovedOnlyBots(before: Entities, after: Entities)
  {
    && after.Keys <= before.Keys
    && (forall id :: id in after ==> after[id] == before[id])
    && (forall id :: id in before && id !in after ==> before[id] == KindBot)
  }

  lemma RemovedOnlyBotsTrans(a: Entities, b: Entities, c: Entities)
    requires RemovedOnlyBots(a, b) && RemovedOnlyBots(b, c)
    ensures RemovedOnlyBots(a, c)
  {
  }

  /**
   * `after` is `before` with some bots put in: no entity is lost, and every
   * entity of `after` is a bot or kept as it was (a bot given the ID of an
   * entity already there replaces it).
   */
  predicate AddedOnlyBots(before: Entities, after: Entities)
  {
    && before.Keys <= after.Keys
    && (forall id :: id in after ==> after[id] == KindBot || (id in before && after[id] == before[id]))
  }

  lemma AddedOnlyBotsTrans(a: Entities, b: Entities, c: Entities)
    requires AddedOnlyBots(a, b) && AddedOnlyBots(b, c)
    ensures AddedOnlyBots(a, c)
  {
  }

  /**
   * The density band for a target of `target` actors per cell, in integers:
   * `low` is the floor of 0.8 target, `high` the ceiling of 1.2 target and
   * `ramp` the ceiling of a tenth of the target (at least 1), with the
   * clamps the engine applies.
   */
  function DensityBounds(target: int): (r: (int, int, int))
    requires target > 0
    ensures var (low, high, ramp) := r;
      && 10 * low <= 8 * target < 10 * (low + 1)
      && 10 * (high - 1) < 12 * target <= 10 * high
      && 10 * (ramp - 1) < target <= 10 * ramp
      && 0 <= low <= high && ramp >= 1
  {
    var low0 := (8 * target) / 10;
    var low := if low0 < 0 then 0 else low0;
    var high0 := (12 * target + 9) / 10;
    var high := if high0 < low then low else high0;
    var ramp0 := (Max(1, target) + 9) / 10;
    var ramp := if ramp0 < 1 then 1 else ramp0;
    (low, high, ramp)
  }

  /** A target of 10 gives the band [8, 12] and adds or removes at most one actor per cell and pass. */
  lemma DensityBoundsTen()
    ensures DensityBounds(10) == (8, 12, 1)
    ensures DensityBounds(1) == (0, 2, 1)
    ensures DensityBounds(25) == (20, 30, 3)
  {
  }

  /** How many bots one pass may spawn in a cell holding `active` actors. */
  function SpawnBudget(active: int, low: int, ramp: int, maxBots: int, totalBots: int): (r: int)
    ensures active < low ==> r <= low - active && r <= ramp && r <= Max(0, maxBots - totalBots)
    ensures active >= low ==> r == 0
  {
    if active < low then Min(Min(low - active, ramp), Max(0, maxBots - totalBots)) else 0
  }

  /**
   * What one pass of the controller does to one cell with `|before|` actors:
   * below the band it only adds bots, at most the missing number and at most
   * `ramp`; above it it only takes out bots, at most the excess and at most
   * `ramp`, stopping short only when no bot is left; inside the band it leaves
   * the cell alone.
   */
  predicate CellMaintained(before: Entities, after: Entities, low: int, high: int, ramp: int)
  {
    var a := |before|;
    if a < low then
      AddedOnlyBots(before, after) && |after| <= a + Min(low - a, ramp)
    else if a > high then
      && RemovedOnlyBots(before, after)
      && |after| >= a - Min(a - high, ramp)
      && (|after| == a - Min(a - high, ramp) || !HasBot(after))
    else
      after == before
  }

  /** A cell inside the band is never touched, and a cell above it keeps every player. */
  lemma MaintainedKeepsPlayers(before: Entities, after: Entities, low: int, high: int, ramp: int, id: string)
    requires CellMaintained(before, after, low, high, ramp)
    requires |before| >= low
    requires id in before && before[id] == KindPlayer
    ensures id in after && after[id] == KindPlayer
  {
  }

  class Engine {
    const cfg: Config
    var cells: map<CellKey, Entities>
    var players: map<string, PlayerRec>
    var bots: map<string, CellKey>
    var botSeq: nat

    constructor(cfg: Config)
      ensures this.cfg == cfg
      ensures cells == map[] && players == map[] && bots == map[] && botSeq == 0
    {
      this.cfg := cfg;
      cells := map[];
      players := map[];
      bots := map[];
      botSeq := 0;
    }

    method GetOrCreateCell(k: CellKey)
      modifies this`cells
      ensures cells == WithCell(old(cells), k)
    {
      if k !in cells {
        cells := cells[k := map[]];
      }
    }

    method MoveEntity(id: string, from: CellKey, to: CellKey)
      modifies this`cells
      ensures cells == Moved(old(cells), id, from, to)
    {
      if from == to {
        return;
      }
      if from in cells {
        cells := cells[from := cells[from] - {id}];
      }
      GetOrCreateCell(to);
      cells := cells[to := cells[to][id := KindPlayer]];
    }

    /**
     * Creates the player in the cell holding `pos`, or updates an existing
     * one and moves it there at once if its owner cell differs.
     */
    method AddOrUpdatePlayer(id: string, name: string, pos: Vec2, vel: Vec2)
      requires cfg.cellSize > 0.0
      modifies this`cells, this`players
      ensures players == old(players)[id := PlayerRec(id, name, pos, vel, CellOf(pos, cfg.cellSize))]
      ensures var key := CellOf(pos, cfg.cellSize);
        cells == if id !in old(players) then WithCell(old(cells), key)[key := WithCell(old(cells), key)[key][id := KindPlayer]]
                 else Moved(WithCell(old(cells), key), id, old(players)[id].ownedCell, key)
    {
      var key := CellOf(pos, cfg.cellSize);
      GetOrCreateCell(key);
      if id !in players {
        players := players[id := PlayerRec(id, name, pos, vel, key)];
        cells := cells[key := cells[key][id := KindPlayer]];
      } else {
        var owned := players[id].ownedCell;
        if owned != key {
          MoveEntity(id, owned, key);
        }
        players := players[id := PlayerRec(id, name, pos, vel, key)];
      }
    }

    /**
     * Moves the player to the cell holding its position once it is far enough
     * past the border; nothing changes while the position stays in its cell.
     */
    method CheckAndHandover(id: string)
      requires id in players && cfg.cellSize > 0.0
      modifies this`cells, this`players
      ensures var p := old(players)[id];
        var target := CellOf(p.pos, cfg.cellSize);
        if target != p.ownedCell && CrossedBeyondHysteresis(p.pos, p.ownedCell, target, cfg.cellSize, cfg.handoverHysteresis)
        then players == old(players)[id := p.(ownedCell := target)] && cells == Moved(old(cells), id, p.ownedCell, target)
        else players == old(players) && cells == old(cells)
      ensures cfg.handoverHysteresis == 0.0 ==> players[id].ownedCell == CellOf(players[id].pos, cfg.cellSize)
    {
      var p := players[id];
      var target := CellOf(p.pos, cfg.cellSize);
      if target == p.ownedCell {
        return;
      }
      if cfg.handoverHysteresis == 0.0 {
        CrossedWithoutHysteresis(p.pos, p.ownedCell, cfg.cellSize);
      }
      if CrossedBeyondHysteresis(p.pos, p.ownedCell, target, cfg.cellSize, cfg.handoverHysteresis) {
        MoveEntity(id, p.ownedCell, target);
        players := players[id := p.(ownedCell := target)];
      }
    }

    /**
     * Spawns one bot in cell `k` (creating the cell) unless the global cap is
     * reached; the new bot's ID comes from the next sequence number.
     */
    method SpawnBotInCell(k: CellKey) returns (ok: bool)
      modifies this`cells, this`bots, this`botSeq
      ensures ok <==> !(cfg.maxBots > 0 && |old(bots)| >= cfg.maxBots)
      ensures var created := WithCell(old(cells), k);
        if ok then
          && botSeq == old(botSeq) + 1
          && cells == created[k := created[k][BotId(botSeq) := KindBot]]
          && bots == old(bots)[BotId(botSeq) := k]
        else
          botSeq == old(botSeq) && cells == created && bots == old(bots)
    {
      GetOrCreateCell(k);
      if cfg.maxBots > 0 && |bots| >= cfg.maxBots {
        return false;
      }
      botSeq := botSeq + 1;
      var id := BotId(botSeq);
      cells := cells[k := cells[k][id := KindBot]];
      bots := bots[id := k];
      ok := true;
    }

    /** Takes one bot, whichever the scan meets first, out of cell `k` and out of the bot table. */
    method RemoveOneBotFromCell(k: CellKey) returns (ok: bool, ghost removed: string)
      modifies this`cells, this`bots
      ensures ok <==> k in old(cells) && HasBot(old(cells)[k])
      ensures !ok ==> cells == old(cells) && bots == old(bots)
      ensures ok ==> removed in old(cells)[k] && old(cells)[k][removed] == KindBot
      ensures ok ==> cells == old(cells)[k := old(cells)[k] - {removed}] && bots == old(bots) - {removed}
    {
      removed := "";
      if k !in cells {
        return false, removed;
      }
      var ents := cells[k];
      var pending := ents.Keys;
      while pending != {}
        invariant pending <= ents.Keys
        invariant forall id :: id in ents && id !in pending ==> ents[id] != KindBot
        decreases pending
      {
        var id :| id in pending;
        if ents[id] == KindBot {
          cells := cells[k := ents - {id}];
          bots := bots - {id};
          return true, id;
        }
        pending := pending - {id};
      }
      return false, removed;
    }

    /** Counts the players and the bots in an existing cell; together they are all its entities. */
    method CountActors(k: CellKey) returns (playerCount: nat, botCount: nat)
      requires k in cells
      ensures playerCount == CountKind(cells[k], KindPlayer)
      ensures botCount == CountKind(cells[k], KindBot)
      ensures playerCount + botCount == |cells[k]|
    {
      var ents := cells[k];
      playerCount, botCount := 0, 0;
      var pending := ents.Keys;
      ghost var done: set<string> := {};
      while pending != {}
        invariant done + pending == ents.Keys && done !! pending
        invariant playerCount == |KindIn(ents, done, KindPlayer)|
        invariant botCount == |KindIn(ents, done, KindBot)|
        invariant playerCount + botCount == |done|
        decreases pending
      {
        var id :| id in pending;
        KindInStep(ents, done, id, KindPlayer);
        KindInStep(ents, done, id, KindBot);
        if ents[id] == KindPlayer {
          playerCount := playerCount + 1;
        } else {
          botCount := botCount + 1;
        }
        done := done + {id};
        pending := pending - {id};
      }
      assert KindIn(ents, done, KindPlayer) == set id | id in ents && ents[id] == KindPlayer;
      assert KindIn(ents, done, KindBot) == set id | id in ents && ents[id] == KindBot;
    }

    /**
     * Spawns up to `n` bots in cell `k`, counting the spawns that succeed: every
     * one succeeds when there is no cap or the cap leaves room for all `n`.
     */
    method SpawnBots(k: CellKey, n: int) returns (spawned: nat)
      requires k in cells
      modifies this`cells, this`bots, this`botSeq
      ensures spawned <= Max(n, 0)
      ensures cfg.maxBots <= 0 || |old(bots)| + Max(n, 0) <= cfg.maxBots ==> spawned == Max(n, 0)
      ensures botSeq == old(botSeq) + spawned
      ensures cells.Keys == old(cells).Keys
      ensures forall c :: c in cells && c != k ==> cells[c] == old(cells)[c]
      ensures AddedOnlyBots(old(cells)[k], cells[k]) && |cells[k]| <= |old(cells)[k]| + spawned
      ensures |bots| <= |old(bots)| + spawned
      ensures cfg.maxBots > 0 ==> |bots| <= Max(|old(bots)|, cfg.maxBots)
    {
      spawned := 0;
      var i := 0;
      while i < n
        invariant spawned <= i || (n <= 0 && spawned == 0)
        invariant spawned <= Max(n, 0)
        invariant cfg.maxBots <= 0 || |old(bots)| + Max(n, 0) <= cfg.maxBots ==> spawned == Max(i, 0)
        invariant botSeq == old(botSeq) + spawned
        invariant cells.Keys == old(cells).Keys
        invariant forall c :: c in cells && c != k ==> cells[c] == old(cells)[c]
        invariant AddedOnlyBots(old(cells)[k], cells[k]) && |cells[k]| <= |old(cells)[k]| + spawned
        invariant |bots| <= |old(bots)| + spawned
        invariant cfg.maxBots > 0 ==> |bots| <= Max(|old(bots)|, cfg.maxBots)
        decreases n - i
      {
        ghost var before := cells[k];
        var ok := SpawnBotInCell(k);
        if ok {
          AddedOnlyBotsTrans(old(cells)[k], before, cells[k]);
          spawned := spawned + 1;
        }
        i := i + 1;
      }
    }

    /** Removes up to `n` bots from cell `k`, stopping at the first failure. */
    method RemoveBots(k: CellKey, n: int) returns (removedCount: nat)
      requires k in cells
      modifies this`cells, this`bots
      ensures removedCount <= Max(n, 0)
      ensures cells.Keys == old(cells).Keys
      ensures forall c :: c in cells && c != k ==> cells[c] == old(cells)[c]
      ensures RemovedOnlyBots(old(cells)[k], cells[k]) && |cells[k]| == |old(cells)[k]| - removedCount
      ensures removedCount < n ==> !HasBot(cells[k])
      ensures |bots| <= |old(bots)|
    {
      removedCount := 0;
      var i := 0;
      while i < n
        invariant removedCount == i && i <= Max(n, 0)
        invariant cells.Keys == old(cells).Keys
        invariant forall c :: c in cells && c != k ==> cells[c] == old(cells)[c]
        invariant RemovedOnlyBots(old(cells)[k], cells[k]) && |cells[k]| == |old(cells)[k]| - removedCount
        invariant |bots| <= |old(bots)|
        decreases n - i
      {
        ghost var before := cells[k];
        var ok, id := RemoveOneBotFromCell(k);
        if !ok {
          return;
        }
        RemovedOnlyBotsTrans(old(cells)[k], before, cells[k]);
        removedCount := removedCount + 1;
        i := i + 1;
      }
    }

    /** One cell's share of a density pass; returns the updated running bot count. */
    method MaintainCell(k: CellKey, low: int, high: int, ramp: int, totalBots: int) returns (newTotal: int)
      requires k in cells
      requires 0 <= low <= high && ramp >= 1
      modifies this`cells, this`bots, this`botSeq
      ensures cells.Keys == old(cells).Keys
      ensures forall c :: c in cells && c != k ==> cells[c] == old(cells)[c]
      ensures CellMaintained(old(cells)[k], cells[k], low, high, ramp)
      ensures |bots| <= |old(bots)| + SpawnBudget(|old(cells)[k]|, low, ramp, cfg.maxBots, totalBots)
      ensures cfg.maxBots > 0 ==> |bots| <= Max(|old(bots)|, cfg.maxBots)
      ensures |old(cells)[k]| <= high ==> newTotal == totalBots + (botSeq - old(botSeq))
      ensures |old(cells)[k]| > high ==> botSeq == old(botSeq) && newTotal == totalBots - (|old(cells)[k]| - |cells[k]|)
      ensures |old(bots)| <= totalBots ==>
        botSeq == old(botSeq) + SpawnBudget(|old(cells)[k]|, low, ramp, cfg.maxBots, totalBots)
    {
      var playerCount, botCount := CountActors(k);
      var active := playerCount + botCount;
      newTotal := totalBots;
      if active < low {
        var budget := Min(Min(low - active, ramp), Max(0, cfg.maxBots - totalBots));
        var spawned := SpawnBots(k, budget);
        newTotal := totalBots + spawned;
      } else if active > high {
        var removedCount := RemoveBots(k, Min(active - high, ramp));
        newTotal := totalBots - removedCount;
      }
    }

    /**
     * One pass of the density controller over every existing cell, in the
     * order the key choice below picks them: cells under the band get bots,
     * cells over it lose bots, and the global bot cap holds throughout.
     */
    method MaintainBotDensity()
      modifies this`cells, this`bots, this`botSeq
      ensures cfg.targetDensityPerCell <= 0 || cfg.maxBots < 0 ==>
        cells == old(cells) && bots == old(bots) && botSeq == old(botSeq)
      ensures cells.Keys == old(cells).Keys
      ensures cfg.targetDensityPerCell > 0 && cfg.maxBots >= 0 ==>
        var (low, high, ramp) := DensityBounds(cfg.targetDensityPerCell);
        forall c :: c in old(cells) ==> CellMaintained(old(cells)[c], cells[c], low, high, ramp)
      ensures cfg.maxBots > 0 ==> |bots| <= Max(|old(bots)|, cfg.maxBots)
    {
      if cfg.targetDensityPerCell <= 0 || cfg.maxBots < 0 {
        return;
      }
      var (low, high, ramp) := DensityBounds(cfg.targetDensityPerCell);
      var totalBots := |bots|;
      var pending := cells.Keys;
      while pending != {}
        invariant pending <= old(cells).Keys
        invariant cells.Keys == old(cells).Keys
        invariant forall c :: c in pending ==> cells[c] == old(cells)[c]
        invariant forall c :: c in old(cells) && c !in pending ==> CellMaintained(old(cells)[c], cells[c], low, high, ramp)
        invariant cfg.maxBots > 0 ==> |bots| <= Max(|old(bots)|, cfg.maxBots)
        decreases pending
      {
        var k :| k in pending;
        totalBots := MaintainCell(k, low, high, ramp, totalBots);
        pending := pending - {k};
      }
    }
  }
}
