// Shared value types, and the semantics of a .NET Dictionary<K, V> used as a
// key/value table: indexer assignment, Remove and lookup, plus a log of writes
// whose latest entry per key is an independent account of what the table holds.

module Wrappers {
  /** A value or nothing: the model of a C# nullable result. */
  datatype Option<+T> = None | Some(value: T)
}

module ClrTypes {
  /** A runtime type handle (System.Type), compared by its full name. */
  datatype ClrType = ClrType(fullName: string)

  /** The assignability facts of a program: (derived, base) pairs, one for every
      class a type derives from and every interface it implements. */
  type Hierarchy = set<(ClrType, ClrType)>

  /** `t` may be used where `target` is expected: the meaning of a generic
      constraint `where T : Target`, which also admits `Target` itself. */
  predicate Implements(h: Hierarchy, t: ClrType, target: ClrType)
  {
    t == target || (t, target) in h
  }
}

module Tables {
  import opened Wrappers

  /** Dictionary lookup: `TryGetValue`, with the missing key as None. */
  function Get<K(==), V>(m: map<K, V>, k: K): (r: Option<V>)
    ensures r.Some? <==> k in m
    ensures r.Some? ==> r.value == m[k]
  {
    if k in m then Some(m[k]) else None
  }

  /** Indexer assignment `m[k] = v`: adds the key or overwrites its value. */
  function Set<K(==), V>(m: map<K, V>, k: K, v: V): (m': map<K, V>)
    ensures m'.Keys == m.Keys + {k}
    ensures m'[k] == v
    ensures forall j :: j in m && j != k ==> m'[j] == m[j]
  {
    m[k := v]
  }

  /** `m.Remove(k)`: drops the key if present, and does nothing otherwise. */
  function Remove<K(==), V>(m: map<K, V>, k: K): (m': map<K, V>)
    ensures m'.Keys == m.Keys - {k}
    ensures forall j :: j in m' ==> m'[j] == m[j]
  {
    m - {k}
  }

  /** A second write to the same key replaces the first. */
  lemma SetTwice<K, V>(m: map<K, V>, k: K, v1: V, v2: V)
    ensures Set(Set(m, k, v1), k, v2) == Set(m, k, v2)
  {
  }

  /** Removing twice is the same as removing once. */
  lemma RemoveTwice<K, V>(m: map<K, V>, k: K)
    ensures Remove(Remove(m, k), k) == Remove(m, k)
  {
  }

  /** Removing a key that is not there changes nothing. */
  lemma RemoveAbsent<K, V>(m: map<K, V>, k: K)
    requires k !in m
    ensures Remove(m, k) == m
  {
  }

  /** One write to a table. */
  datatype Write<K, V> = Put(key: K, value: V) | Delete(key: K)

  function Apply<K(==), V>(m: map<K, V>, w: Write<K, V>): map<K, V>
  {
    match w
    case Put(k, v) => Set(m, k, v)
    case Delete(k) => Remove(m, k)
  }

  /** The table after the writes of `ws`, in order, starting from `m`. */
  function Replay<K(==), V>(m: map<K, V>, ws: seq<Write<K, V>>): map<K, V>
  {
    if ws == [] then m else Apply(Replay(m, ws[..|ws| - 1]), ws[|ws| - 1])
  }

  /** Replaying one more write applies it to the table replayed so far. */
  lemma ReplaySnoc<K, V>(m: map<K, V>, ws: seq<Write<K, V>>, w: Write<K, V>)
    ensures Replay(m, ws + [w]) == Apply(Replay(m, ws), w)
  {
  }

  /** The position in `ws` of the latest write to `k`, if any. */
  function LastWrite<K(==), V>(ws: seq<Write<K, V>>, k: K): (r: Option<nat>)
    ensures r.Some? ==> r.value < |ws| && ws[r.value].key == k
    ensures r.Some? ==> forall j :: r.value < j < |ws| ==> ws[j].key != k
    ensures r.None? <==> forall i :: 0 <= i < |ws| ==> ws[i].key != k
  {
    if ws == [] then None
    else if ws[|ws| - 1].key == k then Some(|ws| - 1)
    else LastWrite(ws[..|ws| - 1], k)
  }

  /** What the log says `k` holds: the value of its latest write when that is a put. */
  function Recorded<K(==), V>(ws: seq<Write<K, V>>, k: K): Option<V>
  {
    match LastWrite(ws, k)
    case None => None
    case Some(i) => if ws[i].Put? then Some(ws[i].value) else None
  }

  /** After replaying a log, a key holds what its latest write put there, is absent
      if its latest write deleted it, and keeps its old value if the log never
      names it. */
  lemma {:induction false} ReplayAgreesWithLog<K, V>(m: map<K, V>, ws: seq<Write<K, V>>, k: K)
    ensures Get(Replay(m, ws), k) == if LastWrite(ws, k).None? then Get(m, k) else Recorded(ws, k)
  {
    if ws != [] {
      ReplayAgreesWithLog(m, ws[..|ws| - 1], k);
    }
  }

  /** Starting from an empty table, the table and the log always agree. */
  lemma {:induction false} ReplayFromEmpty<K, V>(ws: seq<Write<K, V>>, k: K)
    ensures Get(Replay(map[], ws), k) == Recorded(ws, k)
  {
    ReplayAgreesWithLog(map[], ws, k);
  }
}
