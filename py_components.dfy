/**
 * The Python mirror of the components (game/src/components.py). Its stats come
 * from a dictionary looked up with a default instead of a switch; everything else
 * follows the same value functions as the C# class.
 */
module PyComponents {
  import opened Components

  /** The `stats_map` dictionary built by `_get_stats`. */
  const STATS_MAP: map<string, ComponentStats> := map[
    CORE := ComponentStats("Core", 200, 200, 0, 50, 0.0),
    ENGINE := ComponentStats("Engine", 50, 50, 10, 0, 200.0),
    WEAPON_LASER := ComponentStats("Laser", 40, 40, 15, 0, 0.0),
    WEAPON_CANNON := ComponentStats("Cannon", 60, 60, 20, 0, 0.0),
    ARMOR := ComponentStats("Armor", 150, 150, 0, 0, 0.0),
    POWER := ComponentStats("Reactor", 80, 80, 0, 100, 0.0),
    SHIELD := ComponentStats("Shield", 30, 30, 25, 0, 0.0)
  ]

  /** The default `stats_map.get` falls back to. */
  const UNKNOWN_STATS := ComponentStats("Unknown", 50, 50, 0, 0, 0.0)

  /** `stats_map.get(component_type, default)`. */
  function DictStats(kind: string): (s: ComponentStats)
    ensures kind in STATS_MAP <==> IsKnownKind(kind)
    ensures kind !in STATS_MAP ==> s == UNKNOWN_STATS
  {
    if kind in STATS_MAP then STATS_MAP[kind] else UNKNOWN_STATS
  }

  /** The dictionary and the C# switch are the same table, fallback included. */
  lemma DictMatchesSwitch(kind: string)
    ensures DictStats(kind) == GetStats(kind)
  {
    if kind == CORE {
    } else if kind == ENGINE {
    } else if kind == WEAPON_LASER {
    } else if kind == WEAPON_CANNON {
    } else if kind == ARMOR {
    } else if kind == POWER {
    } else if kind == SHIELD {
    } else {
      assert kind !in STATS_MAP;
    }
  }

  /** The Python `Component` class. */
  class Component {
    const kind: string
    const gridX: int
    const gridY: int
    var stats: ComponentStats
    var cooldown: real

    function Value(): Part
      reads this
    {
      Part(kind, gridX, gridY, stats, cooldown)
    }

    constructor (kind: string, gridX: int, gridY: int)
      ensures Value() == Initial(kind, gridX, gridY)
    {
      this.kind := kind;
      this.gridX := gridX;
      this.gridY := gridY;
      DictMatchesSwitch(kind);
      stats := DictStats(kind);
      cooldown := 0.0;
    }

    method TakeDamage(damage: int) returns (destroyed: bool)
      modifies this
      ensures (Value(), destroyed) == AfterDamage(old(Value()), damage)
    {
      stats := stats.(health := stats.health - damage);
      if stats.health <= 0 {
        stats := stats.(health := 0);
        return true;
      }
      return false;
    }

    method Update(dt: real)
      modifies this
      ensures Value() == AfterUpdate(old(Value()), dt)
    {
      if cooldown > 0.0 {
        cooldown := cooldown - dt;
      }
    }

    predicate CanFire()
      reads this
      ensures CanFire() <==> CanFireNow(Value())
    {
      kind in [WEAPON_LASER, WEAPON_CANNON] && cooldown <= 0.0 && stats.health > 0
    }

    method Fire()
      modifies this
      ensures Value() == AfterFire(old(Value()))
    {
      if kind == WEAPON_LASER {
        cooldown := 0.5;
      } else if kind == WEAPON_CANNON {
        cooldown := 1.5;
      }
    }
  }
}
