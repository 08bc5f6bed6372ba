/** The requests and limits of the managed-pipelines init container, filled in on shared mutable objects. */
module InitResources {
  import opened Prelude

  datatype Amounts = Amounts(cpu: int, memory: int)
  datatype Requirements = Requirements(limits: Option<Amounts>, requests: Option<Amounts>)

  function FillZeros(a: Amounts, def: Amounts): Amounts {
    Amounts(if a.cpu == 0 then def.cpu else a.cpu, if a.memory == 0 then def.memory else a.memory)
  }

  function FillSide(a: Option<Amounts>, def: Amounts): Option<Amounts> {
    if a.None? then Some(def) else Some(FillZeros(a.value, def))
  }

  /** What the container ends up with. */
  function Filled(r: Option<Requirements>, def: Requirements): Requirements
    requires def.limits.Some? && def.requests.Some?
  {
    if r.None? then def
    else Requirements(FillSide(r.value.limits, def.limits.value), FillSide(r.value.requests, def.requests.value))
  }

  predicate Bounded(r: Requirements) {
    && r.limits.Some? && r.limits.value.cpu != 0 && r.limits.value.memory != 0
    && r.requests.Some? && r.requests.value.cpu != 0 && r.requests.value.memory != 0
  }

  /** Every amount that `a` sets to something other than zero is the same in `b`. */
  predicate RespectsSide(b: Option<Amounts>, a: Option<Amounts>) {
    a.Some? ==>
      && b.Some?
      && (a.value.cpu != 0 ==> b.value.cpu == a.value.cpu)
      && (a.value.memory != 0 ==> b.value.memory == a.value.memory)
  }

  predicate Respects(s: Requirements, r: Requirements) {
    RespectsSide(s.limits, r.limits) && RespectsSide(s.requests, r.requests)
  }

  /**
   With defaults that bound everything the container is never unbounded, the user's amounts stand, and filling
   again changes nothing.
   */
  lemma FillingBoundsAndSettles(r: Option<Requirements>, def: Requirements)
    requires Bounded(def)
    ensures var f := Filled(r, def);
      && Bounded(f)
      && (r.Some? ==> Respects(f, r.value))
      && Filled(Some(f), def) == f
      && (r.Some? && Bounded(r.value) ==> f == r.value)
  {
  }

  /** A given amount stands; where there is none, or zero, it is the default's. */
  predicate FillsAmount(filled: int, given: Option<int>, def: int) {
    && (given.Some? && given.value != 0 ==> filled == given.value)
    && (given.None? || given.value == 0 ==> filled == def)
  }

  predicate FillsAmounts(filled: Option<Amounts>, given: Option<Amounts>, def: Amounts) {
    && filled.Some?
    && FillsAmount(filled.value.cpu, if given.Some? then Some(given.value.cpu) else None, def.cpu)
    && FillsAmount(filled.value.memory, if given.Some? then Some(given.value.memory) else None, def.memory)
  }

  /** Each of the four amounts is filled on its own, from the same amount on the same side of the defaults. */
  lemma FilledExactly(r: Option<Requirements>, def: Requirements)
    requires def.limits.Some? && def.requests.Some?
    ensures var f := Filled(r, def);
      && FillsAmounts(f.limits, if r.Some? then r.value.limits else None, def.limits.value)
      && FillsAmounts(f.requests, if r.Some? then r.value.requests else None, def.requests.value)
  {
  }

  class Resources {
    var cpu: int
    var memory: int

    constructor (cpu: int, memory: int)
      ensures this.cpu == cpu && this.memory == memory
    {
      this.cpu, this.memory := cpu, memory;
    }

    function Value(): Amounts
      reads this
    {
      Amounts(cpu, memory)
    }

    method DeepCopy() returns (r: Resources)
      ensures fresh(r) && r.Value() == Value()
    {
      r := new Resources(cpu, memory);
    }

    method FillFrom(def: Resources)
      requires def != this
      modifies this
      ensures Value() == FillZeros(old(Value()), def.Value())
    {
      if cpu == 0 {
        cpu := def.cpu;
      }
      if memory == 0 {
        memory := def.memory;
      }
    }
  }

  class ResourceRequirements {
    var limits: Resources?
    var requests: Resources?

    constructor (limits: Resources?, requests: Resources?)
      ensures this.limits == limits && this.requests == requests
    {
      this.limits, this.requests := limits, requests;
    }

    ghost function Repr(): set<object>
      reads this
    {
      {this} + (if limits == null then {} else {limits}) + (if requests == null then {} else {requests})
    }

    ghost predicate Valid()
      reads this
    {
      limits != null && requests != null ==> limits != requests
    }

    function Value(): Requirements
      reads this, limits, requests
    {
      Requirements(if limits == null then None else Some(limits.Value()),
                   if requests == null then None else Some(requests.Value()))
    }

    method DeepCopy() returns (r: ResourceRequirements)
      ensures fresh(r.Repr()) && r.Valid() && r.Value() == Value()
    {
      var l, q: Resources? := null, null;
      if limits != null {
        l := limits.DeepCopy();
      }
      if requests != null {
        q := requests.DeepCopy();
      }
      r := new ResourceRequirements(l, q);
    }
  }

  class ManagedPipelinesSpec {
    var resources: ResourceRequirements?

    constructor (resources: ResourceRequirements?)
      ensures this.resources == resources
    {
      this.resources := resources;
    }

    ghost function Repr(): set<object>
      reads this, resources
    {
      {this} + if resources == null then {} else resources.Repr()
    }

    ghost predicate Valid()
      reads this, resources
    {
      resources != null ==> resources.Valid()
    }

    ghost function Value(): Option<Requirements>
      reads this, Repr(), resources
    {
      if resources == null then None else Some(resources.Value())
    }

    /** The operator's defaults keep their amounts and are never shared with the spec. */
    method EnsureInitResourceDefaults(def: ResourceRequirements)
      requires Valid() && Repr() !! def.Repr()
      requires def.limits != null && def.requests != null
      modifies this, if resources == null then {} else resources.Repr()
      ensures Valid() && Repr() !! def.Repr() && fresh(Repr() - old(Repr()))
      ensures def.Value() == old(def.Value())
      ensures Value() == Some(Filled(old(Value()), def.Value()))
    {
      if resources == null {
        resources := def.DeepCopy();
        return;
      }
      var r := resources;
      if r.requests == null && r.limits == null {
        resources := def.DeepCopy();
        return;
      }
      if r.requests == null {
        r.requests := def.requests.DeepCopy();
      } else {
        r.requests.FillFrom(def.requests);
      }
      if r.limits == null {
        r.limits := def.limits.DeepCopy();
      } else {
        r.limits.FillFrom(def.limits);
      }
    }
  }
}
