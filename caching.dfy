// The entity cache addressed by an explicit key: Add(entity, key), Remove(key),
// and TryGet(key), which returns the entity or null.

module Caching {
  import opened Wrappers
  import Tables

  /** A cache whose abstract state is a table from key to entity. `log` is every
      write made since the cache was created, in order. */
  class DiscordCache<Key(==), Entity> {
    var entries: map<Key, Entity>
    ghost var log: seq<Tables.Write<Key, Entity>>

    /** The table is what replaying the log on an empty cache gives. */
    ghost predicate Valid()
      reads this
    {
      entries == Tables.Replay(map[], log)
    }

    constructor()
      ensures Valid() && entries == map[] && log == []
    {
      entries := map[];
      log := [];
    }

    /** Caches `entity` under `key`, replacing what was cached under it. */
    method Add(entity: Entity, key: Key)
      requires Valid()
      modifies this
      ensures Valid()
      ensures entries == Tables.Set(old(entries), key, entity)
      ensures log == old(log) + [Tables.Put(key, entity)]
    {
      Tables.ReplaySnoc(map[], log, Tables.Put(key, entity));
      entries := entries[key := entity];
      log := log + [Tables.Put(key, entity)];
    }

    /** Drops the entity cached under `key`; other keys keep theirs. */
    method Remove(key: Key)
      requires Valid()
      modifies this
      ensures Valid()
      ensures entries == Tables.Remove(old(entries), key)
      ensures log == old(log) + [Tables.Delete(key)]
    {
      Tables.ReplaySnoc(map[], log, Tables.Delete(key));
      entries := entries - {key};
      log := log + [Tables.Delete(key)];
    }

    /** The entity cached under `key`, or None (null) when there is none: the
        value of the latest Add for `key`, unless a Remove for it came later. */
    method TryGet(key: Key) returns (entity: Option<Entity>)
      requires Valid()
      ensures entity.Some? <==> key in entries
      ensures entity.Some? ==> entity.value == entries[key]
      ensures entity == Tables.Recorded(log, key)
    {
      Tables.ReplayFromEmpty(log, key);
      entity := if key in entries then Some(entries[key]) else None;
    }
  }

  /** A caller's view: an added entity is found under its key, a removed key is
      not, and lookups neither change the cache nor disturb other keys. */
  method AddRemoveScenario<Key(==), Entity>(cache: DiscordCache<Key, Entity>, e: Entity, k: Key, other: Key)
      returns (afterAdd: Option<Entity>, afterRemove: Option<Entity>)
    requires cache.Valid() && other != k
    modifies cache
    ensures cache.Valid()
    ensures afterAdd == Some(e) && afterRemove == None
    ensures Tables.Get(cache.entries, other) == Tables.Get(old(cache.entries), other)
  {
    cache.Add(e, k);
    afterAdd := cache.TryGet(k);
    cache.Remove(k);
    afterRemove := cache.TryGet(k);
  }
}
