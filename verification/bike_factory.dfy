/** The bike factories and the registry that picks one per bike type. */
module BikeFactories {
  import opened Wrappers
  import opened Bikes

  /** The class of a `BikeFactory` bean; beans of any other class are ignored. */
  datatype FactoryClass = StandardBikeFactory | EBikeFactory | OtherFactory

  /** A factory bean: `bean` tells apart two beans of the same class. */
  datatype Factory = Factory(bean: nat, cls: FactoryClass)

  type Registry = map<BikeType, Factory>

  /** The factory class that serves a bike type. */
  function ClassFor(t: BikeType): FactoryClass
  {
    match t
    case STANDARD => StandardBikeFactory
    case E_BIKE => EBikeFactory
  }

  /** Reference definition: the last bean of class `cls` in the list. */
  function LastOfClass(factories: seq<Factory>, cls: FactoryClass): Option<Factory>
  {
    if |factories| == 0 then None
    else if factories[|factories| - 1].cls == cls then Some(factories[|factories| - 1])
    else LastOfClass(factories[..|factories| - 1], cls)
  }

  /** One step of the `init` loop. */
  function Register(reg: Registry, f: Factory): Registry
  {
    match f.cls
    case StandardBikeFactory => reg[STANDARD := f]
    case EBikeFactory => reg[E_BIKE := f]
    case OtherFactory => reg
  }

  /** `init()`: registers every standard and e-bike factory bean in list
      order, so for each type the LAST bean of the matching class wins, and a
      type whose class has no bean stays unregistered. */
  function InitRegistry(factories: seq<Factory>): (reg: Registry)
    ensures forall t :: t in reg <==> LastOfClass(factories, ClassFor(t)).Some?
    ensures forall t :: t in reg ==> reg[t] == LastOfClass(factories, ClassFor(t)).value
    ensures forall t :: t in reg ==> reg[t].cls == ClassFor(t)
  {
    if |factories| == 0 then map[]
    else Register(InitRegistry(factories[..|factories| - 1]), factories[|factories| - 1])
  }

  /** `getFactory(type)`: the registered factory, or an exception naming the type. */
  function GetFactory(reg: Registry, t: BikeType): (r: Result<Factory>)
    ensures r.Ok? <==> t in reg
    ensures r.Ok? ==> r.value == reg[t]
    ensures r.Err? ==> r.error.IllegalArgument?
  {
    if t in reg then Ok(reg[t])
    else Err(IllegalArgument("No factory found for bike type: " + TypeName(t)))
  }

  /** `BikeType.name()`. */
  function TypeName(t: BikeType): string
  {
    match t
    case STANDARD => "STANDARD"
    case E_BIKE => "E_BIKE"
  }

  /** `createBike(config)` of the two known factory classes; `id` is the
      identifier the database assigns when the bike is saved. */
  function Build(f: Factory, id: BikeId, stationId: StationId): (b: Bike)
    requires f.cls != OtherFactory
    ensures f.cls == StandardBikeFactory ==> b == NewStandardBike(id, stationId)
    ensures f.cls == EBikeFactory ==> b == NewEBike(id, stationId)
  {
    if f.cls == StandardBikeFactory then NewStandardBike(id, stationId) else NewEBike(id, stationId)
  }

  /** Whatever beans are present, the factory the registry returns for a
      type builds an available bike of exactly that type at the requested station. */
  lemma RegistryBuildsRequestedType(factories: seq<Factory>, t: BikeType, id: BikeId, stationId: StationId)
    requires GetFactory(InitRegistry(factories), t).Ok?
    ensures GetFactory(InitRegistry(factories), t).value.cls != OtherFactory
    ensures var b := Build(GetFactory(InitRegistry(factories), t).value, id, stationId);
            b.btype == Some(t) && b.status == AVAILABLE && b.stationId == Some(stationId)
            && (b.kind.EBikeKind? <==> t == E_BIKE)
  {
  }

  /** Beans of other classes never change what the registry holds. */
  lemma {:induction false} OtherBeansIgnored(factories: seq<Factory>, other: Factory)
    requires other.cls == OtherFactory
    ensures InitRegistry(factories + [other]) == InitRegistry(factories)
  {
    assert (factories + [other])[..|factories|] == factories;
  }
}
