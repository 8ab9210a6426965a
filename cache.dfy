// The older entity cache: Add(entity) derives the key from the entity,
// TryGet(key, out entity) reports presence as a bool, NeededTypes lists the
// entity types an implementation must support, and Validate checks a
// configuration.

module Cache {
  import opened Wrappers
  import opened ClrTypes
  import Tables

  /** The entity types every cache implementation must handle, in this order. */
  const NeededTypes: seq<ClrType> := [
    ClrType("DSharpPlus.Entities.DiscordGuild"),
    ClrType("DSharpPlus.Entities.DiscordChannel"),
    ClrType("DSharpPlus.Entities.DiscordMessage"),
    ClrType("DSharpPlus.Entities.DiscordMember"),
    ClrType("DSharpPlus.Entities.DiscordUser")
  ]

  /** NeededTypes has five entries, no two the same. */
  lemma NeededTypesDistinct()
    ensures |NeededTypes| == 5
    ensures forall i, j :: 0 <= i < j < |NeededTypes| ==> NeededTypes[i] != NeededTypes[j]
  {
  }

  /** A cache whose abstract state is a table from key to entity, in which every
      entity sits under the key derived from it. `validator` is the
      implementation's own test of a configuration; `log` is every write made
      since the cache was created, in order. */
  class DiscordCache<Key(==), Entity, Configuration> {
    const keyOf: Entity -> Key
    const validator: Configuration -> bool
    var entries: map<Key, Entity>
    ghost var log: seq<Tables.Write<Key, Entity>>

    ghost predicate Valid()
      reads this
    {
      && entries == Tables.Replay(map[], log)
      && forall k :: k in entries ==> keyOf(entries[k]) == k
    }

    constructor(keyOf: Entity -> Key, validator: Configuration -> bool)
      ensures Valid() && entries == map[] && log == []
      ensures this.keyOf == keyOf && this.validator == validator
    {
      this.keyOf := keyOf;
      this.validator := validator;
      entries := map[];
      log := [];
    }

    /** Caches `entity` under its own key, replacing what was cached under it. */
    method Add(entity: Entity)
      requires Valid()
      modifies this
      ensures Valid()
      ensures entries == Tables.Set(old(entries), keyOf(entity), entity)
      ensures log == old(log) + [Tables.Put(keyOf(entity), entity)]
    {
      Tables.ReplaySnoc(map[], log, Tables.Put(keyOf(entity), entity));
      entries := entries[keyOf(entity) := entity];
      log := log + [Tables.Put(keyOf(entity), entity)];
    }

    /** Drops the entity cached under `key`; other keys keep theirs. */
    method Remove(key: Key)
      requires Valid()
      modifies this
      ensures Valid()
      ensures entries == Tables.Remove(old(entries), key)
      ensures log == old(log) + [Tables.Delete(key)]
    {
      Tables.ReplaySnoc(map[], log, Tables.Delete(key));
      entries := entries - {key};
      log := log + [Tables.Delete(key)];
    }

    /** Whether an entity is cached under `key`, and if so that entity (None
        stands for the default value left in the out parameter otherwise). */
    method TryGet(key: Key) returns (found: bool, entity: Option<Entity>)
      requires Valid()
      ensures found <==> key in entries
      ensures found ==> entity == Some(entries[key]) && keyOf(entity.value) == key
      ensures !found ==> entity == None
      ensures entity == Tables.Recorded(log, key)
    {
      Tables.ReplayFromEmpty(log, key);
      found := key in entries;
      entity := if found then Some(entries[key]) else None;
    }

    /** Whether `configuration` suits this implementation. It depends on the
        configuration alone, never on what is cached. */
    predicate Validate(configuration: Configuration)
    {
      validator(configuration)
    }
  }

  /** A caller's view: an added entity is found under the key derived from it,
      and a removed key is not found. */
  method AddRemoveScenario<Key(==), Entity, Configuration>(cache: DiscordCache<Key, Entity, Configuration>, e: Entity)
      returns (foundAfterAdd: bool, afterAdd: Option<Entity>, foundAfterRemove: bool)
    requires cache.Valid()
    modifies cache
    ensures cache.Valid()
    ensures foundAfterAdd && afterAdd == Some(e) && !foundAfterRemove
  {
    cache.Add(e);
    foundAfterAdd, afterAdd := cache.TryGet(cache.keyOf(e));
    cache.Remove(cache.keyOf(e));
    var ignored;
    foundAfterRemove, ignored := cache.TryGet(cache.keyOf(e));
  }
}
