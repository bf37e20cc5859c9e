/** Records of the user service and the schema that request bodies must satisfy. */
module Schema {

  datatype Option<T> = None | Some(value: T)

  /** A request body for POST and PUT: exactly the four keys the schema knows. */
  datatype Payload = Payload(firstName: string, secondName: string, age: int, city: Option<string>)

  /** A stored user: the payload's fields plus the id the store assigned. */
  datatype User = User(id: int, firstName: string, secondName: string, age: int, city: Option<string>)

  const MinAge: int := 0
  const MaxAge: int := 150

  /** The record a payload becomes once it is given an id. */
  function WithId(id: int, p: Payload): (u: User) {
    User(id, p.firstName, p.secondName, p.age, p.city)
  }

  /** The keys of the schema, in the order the schema lists them. */
  datatype Field = FirstName | SecondName | Age | City

  function Rank(f: Field): (n: nat) {
    match f
    case FirstName => 0
    case SecondName => 1
    case Age => 2
    case City => 3
  }

  /** The rule the schema attaches to one key. */
  predicate FieldOk(p: Payload, f: Field) {
    match f
    case FirstName => |p.firstName| >= 1
    case SecondName => |p.secondName| >= 1
    case Age => MinAge <= p.age <= MaxAge
    case City => p.city.None? || |p.city.value| >= 1
  }

  /** Validation stops at the first key whose rule fails and reports that key;
      None means the payload is accepted. */
  function Validate(p: Payload): (r: Option<Field>)
    ensures r.None? <==>
              && |p.firstName| >= 1
              && |p.secondName| >= 1
              && MinAge <= p.age <= MaxAge
              && (p.city.Some? ==> |p.city.value| >= 1)
    ensures r.None? <==> forall f :: FieldOk(p, f)
    ensures r.Some? ==> !FieldOk(p, r.value) && forall g :: Rank(g) < Rank(r.value) ==> FieldOk(p, g)
  {
    if !FieldOk(p, FirstName) then Some(FirstName)
    else if !FieldOk(p, SecondName) then Some(SecondName)
    else if !FieldOk(p, Age) then Some(Age)
    else if !FieldOk(p, City) then Some(City)
    else None
  }
}
