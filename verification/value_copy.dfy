/** The value-type aggregate `PersonStruct` (Program.cs:131-154). Both the
    person and its nested purchase are C# structs, so assignment and `return`
    already copy every field recursively; a Dafny datatype has exactly that
    meaning, and a field update produces a new value instead of writing
    through a shared reference. */
module ValueCopy {
  import opened Int32

  /** The nested struct `PersonStruct.PurchaseType`. */
  datatype PurchaseType = PurchaseType(Description: string)

  datatype PersonStruct = PersonStruct(Purchase: PurchaseType, Age: int32)

  /** The constructor `PersonStruct(age, description)`. */
  function New(age: int32, description: string): (p: PersonStruct)
    ensures p.Age == age
    ensures p.Purchase.Description == description
  {
    PersonStruct(PurchaseType(description), age)
  }

  /** `ShallowCopy` returns `this` by value. */
  function ShallowCopy(p: PersonStruct): (r: PersonStruct)
    ensures r == p
  {
    p
  }

  /** `DeepCopy` also returns `this` by value: no nested copy code is needed. */
  function DeepCopy(p: PersonStruct): (r: PersonStruct)
    ensures r == p
  {
    p
  }

  /** The statement `copy.Age = age` on a local copy. */
  function SetAge(p: PersonStruct, age: int32): (q: PersonStruct)
    ensures q.Age == age
    ensures q.Purchase == p.Purchase
  {
    p.(Age := age)
  }

  /** The statement `copy.Purchase.Description = description`: a write into
      the purchase embedded in the copy. */
  function SetDescription(p: PersonStruct, description: string): (q: PersonStruct)
    ensures q.Purchase.Description == description
    ensures q.Age == p.Age
  {
    p.(Purchase := p.Purchase.(Description := description))
  }

  /** For a value aggregate the shallow and the deep copy cannot be told
      apart: both are the original value. */
  lemma CopiesCoincide(p: PersonStruct)
    ensures ShallowCopy(p) == DeepCopy(p) == p
  {}

  /** A copy equals its original when taken, and once both of its levels are
      written it holds exactly the written values, whatever the original held:
      nothing of the original is shared with it. */
  lemma CopyIndependence(p: PersonStruct, age: int32, description: string)
    ensures DeepCopy(p) == p
    ensures SetDescription(SetAge(DeepCopy(p), age), description) == New(age, description)
    ensures SetDescription(SetAge(ShallowCopy(p), age), description) == New(age, description)
  {}

  /** The struct half of the demonstration (Program.cs:43-55): clone Bob,
      change the clone at both levels, and Bob keeps his age and purchase. */
  method Demo() returns (bob: PersonStruct, son: PersonStruct)
    ensures bob.Age == 30 && bob.Purchase.Description == "Lamborghini"
    ensures son.Age == 2 && son.Purchase.Description == "Toy car"
  {
    bob := New(30, "Lamborghini");
    son := DeepCopy(bob);
    son := SetAge(son, 2);
    son := SetDescription(son, "Toy car");
  }

  /** The struct benchmark loop (Program.cs:58-63): add the age of a fresh
      deep copy to an unchecked int total, `iterations` times. */
  method Checksum(bob: PersonStruct, iterations: int32) returns (total: int32)
    ensures iterations <= 0 ==> total == 0
    ensures iterations > 0 ==> total == Wrap(bob.Age * iterations)
  {
    total := 0;
    var i: int32 := 0;
    while i < iterations
      invariant 0 <= i
      invariant iterations > 0 ==> i <= iterations
      invariant iterations <= 0 ==> i == 0
      invariant total == Wrap(bob.Age * i)
    {
      var n := DeepCopy(bob);
      assert InRange(iterations);
      AccumulateStep(bob.Age, i);
      total := Add(total, n.Age);
      i := i + 1;
    }
    if iterations <= 0 {
      assert bob.Age * i == 0;
    }
  }

  /** The struct scenario run end to end: Bob keeps his values and the
      benchmark's checksum is 30 * 100000, which fits in an int. */
  method Scenario() returns (bob: PersonStruct, total: int32)
    ensures bob == New(30, "Lamborghini")
    ensures total == 3_000_000
  {
    var son;
    bob, son := Demo();
    total := Checksum(bob, 100000);
  }
}
