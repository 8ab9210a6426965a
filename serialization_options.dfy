// The serialization registry: which format each library component uses, and
// which concrete model type deserializes each interface.

/** The registry's two tables as a value, its four operations as functions on
    that value, and what sequences of operations do. */
module RegistryModel {
  import opened Wrappers
  import opened ClrTypes
  import Tables

  /** The two well-known format names. */
  const Json: string := "json"
  const Etf: string := "etf"

  /** The two well-known format names are "json" and "etf", and they differ. */
  lemma WellKnownFormats()
    ensures Json == "json" && Etf == "etf" && Json != Etf
  {
  }

  /** Format per library component, and concrete model type per interface. */
  datatype Registry = Registry(formats: map<ClrType, string>, interfacesToConcrete: map<ClrType, ClrType>)

  /** A newly built registry: both tables empty. */
  function Empty(): (r: Registry)
    ensures |r.formats| == 0 && |r.interfacesToConcrete| == 0
  {
    Registry(map[], map[])
  }

  /** Every interface is bound to a model type that implements it. */
  ghost predicate WellBound(h: Hierarchy, models: map<ClrType, ClrType>)
  {
    forall i :: i in models ==> Implements(h, models[i], i)
  }

  /** One call on the registry. */
  datatype RegistryOp =
    | AddModel(iface: ClrType, model: ClrType)
    | RemoveModel(iface: ClrType)
    | SetFormat(component: ClrType, format: string)
    | ClearFormat(component: ClrType)
  {
    predicate IsModelOp() { AddModel? || RemoveModel? }
  }

  /** The effect of one call. */
  function Step(r: Registry, op: RegistryOp): (r': Registry)
    ensures op.IsModelOp() ==> r'.formats == r.formats
    ensures !op.IsModelOp() ==> r'.interfacesToConcrete == r.interfacesToConcrete
    ensures op.AddModel? ==> Tables.Get(r'.interfacesToConcrete, op.iface) == Some(op.model)
    ensures op.RemoveModel? ==> op.iface !in r'.interfacesToConcrete
    ensures op.SetFormat? ==> Tables.Get(r'.formats, op.component) == Some(op.format)
    ensures op.ClearFormat? ==> op.component !in r'.formats
    ensures op.IsModelOp() ==> forall j :: j != op.iface ==>
      Tables.Get(r'.interfacesToConcrete, j) == Tables.Get(r.interfacesToConcrete, j)
    ensures !op.IsModelOp() ==> forall j :: j != op.component ==>
      Tables.Get(r'.formats, j) == Tables.Get(r.formats, j)
  {
    match op
    case AddModel(i, m) => r.(interfacesToConcrete := Tables.Set(r.interfacesToConcrete, i, m))
    case RemoveModel(i) => r.(interfacesToConcrete := Tables.Remove(r.interfacesToConcrete, i))
    case SetFormat(c, f) => r.(formats := Tables.Set(r.formats, c, f))
    case ClearFormat(c) => r.(formats := Tables.Remove(r.formats, c))
  }

  /** The registry after the calls of `ops`, in order. */
  function Run(r: Registry, ops: seq<RegistryOp>): Registry
  {
    if ops == [] then r else Step(Run(r, ops[..|ops| - 1]), ops[|ops| - 1])
  }

  /** The write a model call makes to the model table. */
  function ModelWrite(op: RegistryOp): Tables.Write<ClrType, ClrType>
    requires op.IsModelOp()
  {
    if op.AddModel? then Tables.Put(op.iface, op.model) else Tables.Delete(op.iface)
  }

  /** The write a format call makes to the format table. */
  function FormatWrite(op: RegistryOp): Tables.Write<ClrType, string>
    requires !op.IsModelOp()
  {
    if op.SetFormat? then Tables.Put(op.component, op.format) else Tables.Delete(op.component)
  }

  /** The writes that `ops` make to the model table, in order. */
  function ModelWrites(ops: seq<RegistryOp>): seq<Tables.Write<ClrType, ClrType>>
  {
    if ops == [] then []
    else if ops[|ops| - 1].IsModelOp() then ModelWrites(ops[..|ops| - 1]) + [ModelWrite(ops[|ops| - 1])]
    else ModelWrites(ops[..|ops| - 1])
  }

  /** The writes that `ops` make to the format table, in order. */
  function FormatWrites(ops: seq<RegistryOp>): seq<Tables.Write<ClrType, string>>
  {
    if ops == [] then []
    else if !ops[|ops| - 1].IsModelOp() then FormatWrites(ops[..|ops| - 1]) + [FormatWrite(ops[|ops| - 1])]
    else FormatWrites(ops[..|ops| - 1])
  }

  /** The model table evolves on its own: it is a dictionary replaying only the
      model calls. */
  lemma {:induction false} RunModelsSplit(r: Registry, ops: seq<RegistryOp>)
    ensures Run(r, ops).interfacesToConcrete == Tables.Replay(r.interfacesToConcrete, ModelWrites(ops))
  {
    if ops != [] {
      var init, last := ops[..|ops| - 1], ops[|ops| - 1];
      RunModelsSplit(r, init);
      if last.IsModelOp() {
        Tables.ReplaySnoc(r.interfacesToConcrete, ModelWrites(init), ModelWrite(last));
      }
    }
  }

  /** The format table evolves on its own: it is a dictionary replaying only the
      format calls. */
  lemma {:induction false} RunFormatsSplit(r: Registry, ops: seq<RegistryOp>)
    ensures Run(r, ops).formats == Tables.Replay(r.formats, FormatWrites(ops))
  {
    if ops != [] {
      var init, last := ops[..|ops| - 1], ops[|ops| - 1];
      RunFormatsSplit(r, init);
      if !last.IsModelOp() {
        Tables.ReplaySnoc(r.formats, FormatWrites(init), FormatWrite(last));
      }
    }
  }

  /** Model calls never change the format table. */
  lemma {:induction false} ModelOpsKeepFormats(r: Registry, ops: seq<RegistryOp>)
    requires forall k :: 0 <= k < |ops| ==> ops[k].IsModelOp()
    ensures Run(r, ops).formats == r.formats
  {
    if ops != [] {
      ModelOpsKeepFormats(r, ops[..|ops| - 1]);
    }
  }

  /** Format calls never change the model table. */
  lemma {:induction false} FormatOpsKeepModels(r: Registry, ops: seq<RegistryOp>)
    requires forall k :: 0 <= k < |ops| ==> !ops[k].IsModelOp()
    ensures Run(r, ops).interfacesToConcrete == r.interfacesToConcrete
  {
    if ops != [] {
      FormatOpsKeepModels(r, ops[..|ops| - 1]);
    }
  }

  /** The calls of `ops` respect the `where TModel : TInterface` constraint. */
  ghost predicate Constrained(h: Hierarchy, ops: seq<RegistryOp>)
  {
    forall k :: 0 <= k < |ops| && ops[k].AddModel? ==> Implements(h, ops[k].model, ops[k].iface)
  }

  /** No sequence of well-typed calls can bind an interface to a model type that
      does not implement it. */
  lemma {:induction false} RunKeepsWellBound(h: Hierarchy, r: Registry, ops: seq<RegistryOp>)
    requires WellBound(h, r.interfacesToConcrete)
    requires Constrained(h, ops)
    ensures WellBound(h, Run(r, ops).interfacesToConcrete)
  {
    if ops != [] {
      RunKeepsWellBound(h, r, ops[..|ops| - 1]);
    }
  }

  /** From a fresh registry, the model bound to an interface is the one named by
      the latest AddModel for it, unless a RemoveModel for it came later; an
      interface never named is unbound. The same holds of formats. */
  lemma RunFromEmpty(ops: seq<RegistryOp>, key: ClrType)
    ensures Tables.Get(Run(Empty(), ops).interfacesToConcrete, key) == Tables.Recorded(ModelWrites(ops), key)
    ensures Tables.Get(Run(Empty(), ops).formats, key) == Tables.Recorded(FormatWrites(ops), key)
  {
    RunModelsSplit(Empty(), ops);
    RunFormatsSplit(Empty(), ops);
    Tables.ReplayFromEmpty(ModelWrites(ops), key);
    Tables.ReplayFromEmpty(FormatWrites(ops), key);
  }

  /** Binding the same interface twice keeps the second model. */
  lemma AddModelTwice(r: Registry, i: ClrType, m1: ClrType, m2: ClrType)
    ensures Step(Step(r, AddModel(i, m1)), AddModel(i, m2)) == Step(r, AddModel(i, m2))
  {
  }

  /** Removing a binding twice is the same as removing it once, and removing an
      absent binding changes nothing. */
  lemma RemoveModelIdempotent(r: Registry, i: ClrType)
    ensures Step(Step(r, RemoveModel(i)), RemoveModel(i)) == Step(r, RemoveModel(i))
    ensures i !in r.interfacesToConcrete ==> Step(r, RemoveModel(i)) == r
  {
  }

  /** Setting a component's format twice keeps the second format. */
  lemma SetFormatTwice(r: Registry, c: ClrType, f1: string, f2: string)
    ensures Step(Step(r, SetFormat(c, f1)), SetFormat(c, f2)) == Step(r, SetFormat(c, f2))
  {
  }

  /** Clearing a format twice is the same as clearing it once. */
  lemma ClearFormatIdempotent(r: Registry, c: ClrType)
    ensures Step(Step(r, ClearFormat(c)), ClearFormat(c)) == Step(r, ClearFormat(c))
    ensures c !in r.formats ==> Step(r, ClearFormat(c)) == r
  {
  }

  /** A model call and a format call may be made in either order. */
  lemma ModelAndFormatCommute(r: Registry, a: RegistryOp, b: RegistryOp)
    requires a.IsModelOp() && !b.IsModelOp()
    ensures Step(Step(r, a), b) == Step(Step(r, b), a)
  {
  }
}

/** The mutable registry object. */
module Serialization {
  import opened ClrTypes
  import opened RegistryModel
  import Tables

  class SerializationOptions {
    /** Format name per library component. */
    var Formats: map<ClrType, string>
    /** Concrete model type per interface. */
    var InterfacesToConcrete: map<ClrType, ClrType>
    /** The program's type hierarchy, against which the compiler checks the
        generic constraint of AddModel. */
    ghost const hierarchy: Hierarchy

    ghost predicate Valid()
      reads this
    {
      WellBound(hierarchy, InterfacesToConcrete)
    }

    /** Both tables as one value. */
    function State(): Registry
      reads this
    {
      Registry(Formats, InterfacesToConcrete)
    }

    constructor(ghost hierarchy: Hierarchy)
      ensures Valid() && this.hierarchy == hierarchy
      ensures State() == Empty()
    {
      this.hierarchy := hierarchy;
      Formats := map[];
      InterfacesToConcrete := map[];
    }

    /** Binds `iface` to the concrete type `model`, replacing any earlier binding. */
    method AddModel(iface: ClrType, model: ClrType)
      requires Valid()
      requires Implements(hierarchy, model, iface)
      modifies this
      ensures Valid()
      ensures InterfacesToConcrete == Tables.Set(old(InterfacesToConcrete), iface, model)
      ensures Formats == old(Formats)
      ensures State() == Step(old(State()), RegistryOp.AddModel(iface, model))
    {
      InterfacesToConcrete := InterfacesToConcrete[iface := model];
    }

    /** Drops the binding of `iface`, if there is one. */
    method RemoveModel(iface: ClrType)
      requires Valid()
      modifies this
      ensures Valid()
      ensures InterfacesToConcrete == Tables.Remove(old(InterfacesToConcrete), iface)
      ensures Formats == old(Formats)
      ensures State() == Step(old(State()), RegistryOp.RemoveModel(iface))
    {
      InterfacesToConcrete := InterfacesToConcrete - {iface};
    }

    /** Records `format` for `component`, replacing any earlier one; the format
        defaults to "json". */
    method SetFormat(component: ClrType, format: string := Json)
      requires Valid()
      modifies this
      ensures Valid()
      ensures Formats == Tables.Set(old(Formats), component, format)
      ensures InterfacesToConcrete == old(InterfacesToConcrete)
      ensures State() == Step(old(State()), RegistryOp.SetFormat(component, format))
    {
      Formats := Formats[component := format];
    }

    /** Drops the format recorded for `component`, if there is one. */
    method ClearFormat(component: ClrType)
      requires Valid()
      modifies this
      ensures Valid()
      ensures Formats == Tables.Remove(old(Formats), component)
      ensures InterfacesToConcrete == old(InterfacesToConcrete)
      ensures State() == Step(old(State()), RegistryOp.ClearFormat(component))
    {
      Formats := Formats - {component};
    }
  }

  /** A call of SetFormat without a format records "json". */
  method SetDefaultFormat(options: SerializationOptions, component: ClrType)
    requires options.Valid()
    modifies options
    ensures options.Valid()
    ensures options.Formats == old(options.Formats)[component := "json"]
    ensures options.InterfacesToConcrete == old(options.InterfacesToConcrete)
  {
    options.SetFormat(component);
  }
}
