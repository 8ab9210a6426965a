# DSharpPlus serialization registry and entity-cache contracts, in Dafny

This project models three small stateful parts of the DSharpPlus chat-client library:

- **`SerializationOptions`** is the serialization registry. It holds two dictionaries keyed by `System.Type`:
  - `Formats` maps a library component to a format name (`"json"` or `"etf"`).
  - `InterfacesToConcrete` maps an interface to the concrete model type that deserializes it.

  `AddModel`/`RemoveModel` and `SetFormat`/`ClearFormat` insert, overwrite or delete single keys. The class is `Serialization.SerializationOptions`, with two `map` fields and `modifies this` methods. The same operations are written as functions on a `RegistryModel.Registry` value, and lemmas about sequences of calls are proved there.
- **`DSharpPlus.Caching.IDiscordCache`** is the cache addressed by an explicit key. `Add(entity, key)`, `Remove(key)` and `TryGet(key)` return the entity or null. It is modelled as `Caching.DiscordCache`, a class over a `map<Key, Entity>`.
- **`DSharpPlus.Cache.IDiscordCache`** is the older cache contract. `Add(entity)` derives the key from the entity, and `TryGet(key, out entity)` reports presence as a `bool`. It also has the fixed `NeededTypes` list and `Validate(configuration)`. It is modelled as `Cache.DiscordCache`. Its key function `keyOf` and its configuration test `validator` are given when the cache is built.

Shared modules:
- `Wrappers.Option` is a nullable result.
- `ClrTypes.ClrType` is a `System.Type` identified by its full name.
- `ClrTypes.Implements` is the assignability relation behind a `where T : U` constraint, over a ghost `Hierarchy` of (derived, base) pairs.
- `Tables` gives the .NET `Dictionary` semantics: indexer assignment `Set`, `Remove` and lookup `Get`. It also has a write log `Replay`/`LastWrite`/`Recorded`: the latest write naming a key is an independent account of what the table holds under that key.

Both caches keep a ghost log of their writes. Their `Valid()` says that the table equals the replayed log. So every `TryGet` is proved to return what the latest `Add` for the key stored, or nothing if a later `Remove` came. The older cache's `Valid()` also says that every entity is stored under the key derived from it. `TryGet` has no `modifies` clause, so it cannot change the cache.

## Model

| member | source | states |
|---|---|---|
| `Tables.Get` | DSharpPlus/Caching/IDiscordCache.cs:21-28 | A lookup gives a value exactly when the key is present, and then it is the stored value |
| `Tables.Set` | src/core/DSharpPlus.Shared/Serialization/SerializationOptions.cs:36 | Indexer assignment: the key is added or overwritten with the new value, and every other key keeps its value |
| `Tables.Remove` | src/core/DSharpPlus.Shared/Serialization/SerializationOptions.cs:43 | `Dictionary.Remove`: only the key is dropped, and the remaining keys keep their values |
| `Tables.SetTwice` | src/core/DSharpPlus.Shared/Serialization/SerializationOptions.cs:36 | Two writes to one key equal the second write alone (last write wins) |
| `Tables.RemoveTwice` | src/core/DSharpPlus.Shared/Serialization/SerializationOptions.cs:43 | Removing twice equals removing once |
| `Tables.RemoveAbsent` | src/core/DSharpPlus.Shared/Serialization/SerializationOptions.cs:43 | Removing a missing key changes nothing |
| `Tables.LastWrite` | src/core/DSharpPlus.Shared/Serialization/SerializationOptions.cs:33-57 | Finds the position of the latest write naming the key, with no later write naming it; there is none exactly when no write names the key |
| `Tables.ReplayAgreesWithLog` | src/core/DSharpPlus.Shared/Serialization/SerializationOptions.cs:33-57 | After any sequence of writes, a key holds what its latest write put there, is absent if that write removed it, and keeps its old value if no write names it |
| `Tables.ReplayFromEmpty` | DSharpPlus/Caching/IDiscordCache.cs:8-28 | From an empty table, the table and the latest write per key always agree; a key never written is absent |
| `ClrTypes.Implements` | src/core/DSharpPlus.Shared/Serialization/SerializationOptions.cs:35 | `where TModel : TInterface`: the model type is the interface itself or is declared, in the hierarchy, to derive from or implement it |
| `RegistryModel.WellKnownFormats` | src/core/DSharpPlus.Shared/Serialization/SerializationOptions.cs:16-17 | The constants `Json` and `Etf` are `"json"` and `"etf"`, and they differ |
| `RegistryModel.Empty` | src/core/DSharpPlus.Shared/Serialization/SerializationOptions.cs:26-28 | A new registry has both tables empty |
| `RegistryModel.Step` | src/core/DSharpPlus.Shared/Serialization/SerializationOptions.cs:33-57 | Model calls leave `Formats` alone and format calls leave `InterfacesToConcrete` alone; AddModel/SetFormat make the key hold the new value; RemoveModel/ClearFormat leave the key absent; in the table a call touches, every other key keeps its previous entry |
| `RegistryModel.RunModelsSplit` | src/core/DSharpPlus.Shared/Serialization/SerializationOptions.cs:33-43 | Over any call sequence, `InterfacesToConcrete` is the dictionary built from the model calls alone |
| `RegistryModel.RunFormatsSplit` | src/core/DSharpPlus.Shared/Serialization/SerializationOptions.cs:49-57 | Over any call sequence, `Formats` is the dictionary built from the format calls alone |
| `RegistryModel.ModelOpsKeepFormats` | src/core/DSharpPlus.Shared/Serialization/SerializationOptions.cs:33-43 | Any sequence of model calls leaves `Formats` unchanged |
| `RegistryModel.FormatOpsKeepModels` | src/core/DSharpPlus.Shared/Serialization/SerializationOptions.cs:49-57 | Any sequence of format calls leaves `InterfacesToConcrete` unchanged |
| `RegistryModel.RunKeepsWellBound` | src/core/DSharpPlus.Shared/Serialization/SerializationOptions.cs:33-36 | If every AddModel meets `TModel : TInterface`, every interface stays bound to a type that implements it, after any call sequence |
| `RegistryModel.RunFromEmpty` | src/core/DSharpPlus.Shared/Serialization/SerializationOptions.cs:26-57 | From a new registry, an interface's model and a component's format are the values of the latest call naming them, unless a later remove or clear came; an interface or component never named is absent |
| `RegistryModel.AddModelTwice` | src/core/DSharpPlus.Shared/Serialization/SerializationOptions.cs:36 | A second AddModel for the same interface replaces the first |
| `RegistryModel.RemoveModelIdempotent` | src/core/DSharpPlus.Shared/Serialization/SerializationOptions.cs:41-43 | RemoveModel twice equals once, and it changes nothing when the interface is not bound |
| `RegistryModel.SetFormatTwice` | src/core/DSharpPlus.Shared/Serialization/SerializationOptions.cs:49-50 | A second SetFormat for the same component replaces the first |
| `RegistryModel.ClearFormatIdempotent` | src/core/DSharpPlus.Shared/Serialization/SerializationOptions.cs:56-57 | ClearFormat twice equals once, and it changes nothing when no format is recorded |
| `RegistryModel.ModelAndFormatCommute` | src/core/DSharpPlus.Shared/Serialization/SerializationOptions.cs:33-57 | One model call and one format call give the same registry in either order |
| `Serialization.SerializationOptions.constructor` | src/core/DSharpPlus.Shared/Serialization/SerializationOptions.cs:26-28 | A new object has both dictionaries empty and satisfies the binding invariant |
| `Serialization.SerializationOptions.AddModel` | src/core/DSharpPlus.Shared/Serialization/SerializationOptions.cs:33-36 | Requires the model type to implement the interface, as the generic constraint does; the interface is then bound to the model, other bindings and `Formats` are unchanged, and the invariant holds |
| `Serialization.SerializationOptions.RemoveModel` | src/core/DSharpPlus.Shared/Serialization/SerializationOptions.cs:41-43 | Only the interface's binding is dropped, `Formats` is unchanged, and the invariant holds |
| `Serialization.SerializationOptions.SetFormat` | src/core/DSharpPlus.Shared/Serialization/SerializationOptions.cs:49-50 | The component's format becomes the given one, which defaults to `Json`; other formats and `InterfacesToConcrete` are unchanged |
| `Serialization.SerializationOptions.ClearFormat` | src/core/DSharpPlus.Shared/Serialization/SerializationOptions.cs:56-57 | Only the component's format is dropped, and `InterfacesToConcrete` is unchanged |
| `Serialization.SetDefaultFormat` | src/core/DSharpPlus.Shared/Serialization/SerializationOptions.cs:49 | Calling SetFormat without a format records `"json"` |
| `Caching.DiscordCache.Add` | DSharpPlus/Caching/IDiscordCache.cs:8-13 | The entity is stored under the given key, replacing any earlier one, and other keys are untouched |
| `Caching.DiscordCache.Remove` | DSharpPlus/Caching/IDiscordCache.cs:15-19 | Only the entry under the key is dropped (and nothing happens if there is none); other keys are untouched |
| `Caching.DiscordCache.TryGet` | DSharpPlus/Caching/IDiscordCache.cs:21-28 | Returns the stored entity when the key is present and null otherwise, and that is the latest Add for the key unless a later Remove came; the cache is unchanged |
| `Caching.AddRemoveScenario` | DSharpPlus/Caching/IDiscordCache.cs:8-28 | After `Add(e, k)`, `TryGet(k)` gives `e`; after `Remove(k)`, it gives null; other keys keep their entries, and the cache stays valid |
| `Cache.NeededTypesDistinct` | DSharpPlus/Cache/IDiscordCache.cs:9-16 | `NeededTypes` is guild, channel, message, member and user, in that order, with five distinct entries |
| `Cache.DiscordCache.Add` | DSharpPlus/Cache/IDiscordCache.cs:18-22 | The entity is stored under the key derived from it, replacing any earlier one, and every entity stays under its own key |
| `Cache.DiscordCache.Remove` | DSharpPlus/Cache/IDiscordCache.cs:24-28 | Only the entry under the key is dropped; other keys are untouched |
| `Cache.DiscordCache.TryGet` | DSharpPlus/Cache/IDiscordCache.cs:30-37 | Returns true exactly when an entity is stored under the key, and then gives that entity, whose derived key is the one asked for; otherwise it gives the default; the cache is unchanged |
| `Cache.DiscordCache.Validate` | DSharpPlus/Cache/IDiscordCache.cs:40-43 | A synchronous boolean query: `Validate(c)` is the implementation's own test `validator(c)`, a function of the configuration alone that reads no cache state |
| `Cache.AddRemoveScenario` | DSharpPlus/Cache/IDiscordCache.cs:18-37 | After `Add(e)`, `TryGet(keyOf(e))` returns true with `e`; after `Remove(keyOf(e))`, it returns false; the cache stays valid |

## Left out

- The asynchronous wrappers (`Task`, `ValueTask`) are left out. Every cache operation is modelled as a synchronous call.
- `IDisposable` on the newer cache and any thread safety are left out. No implementation is given that these could be read from.
- The type argument `T` of `Add<T>`/`TryGet<T>` is left out. Entities are one type parameter, so the model does not capture a lookup that finds an entity of a different runtime type.
- The two cache interfaces have no constructors. The model's constructors, which make an empty cache, exist only to give the classes a starting state.
- The contents of `CacheConfiguration` are left out. So are the rules `Validate` applies, because no implementation is shown; `validator` stands for them.
- Runtime reflection over `System.Type` is left out. The type hierarchy is a ghost set of (derived, base) pairs, standing for what the compiler checks.
- The `notnull` constraints on the generic parameters are left out. Model values are never null.
- The initial capacities of the dictionaries (2 and 256) are left out. They do not change what the tables hold.
- `SetFormat` accepts any string, as the code does. Only `"json"` and `"etf"` are documented as well-known, but the code does not enforce this, so the model does not either.
- The code has no eviction policy and no capacity bound. `CachedEntity` has no definition in the code: `DiscordAuditLogBanEntry.cs:10` and `DiscordAuditLogBotAddEntry.cs:10` only use it as a property type. None of these is modelled.
- `ClrType` compares types by full name. So two runtime types with the same full name, such as the same type name loaded from two assemblies, become one key in the model. A .NET `Dictionary<Type, …>` keeps them as two keys.
- `NeededTypes` is a `static readonly Type[]` in the code, so other code could overwrite its elements. The model's `const` sequence cannot change. No code shown writes to the array.
