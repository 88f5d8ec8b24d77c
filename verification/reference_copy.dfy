/** The reference-type aggregate `Person` (Program.cs:95-129). `Person` and
    its nested `PurchaseType` are classes, so a memberwise clone of a person
    duplicates the person object but copies only the reference to its
    purchase. `MemberwiseClone` is modelled by its meaning: allocate a new
    object of the same class and copy each field into it. */
module ReferenceCopy {
  import opened Int32
  import ValueCopy

  /** The nested class `Person.PurchaseType`. A freshly allocated purchase's
      description is left unspecified (C# leaves it null). */
  class PurchaseType {
    var Description: string

    /** `MemberwiseClone` of a purchase: a new object, same field value. */
    method MemberwiseClone() returns (c: PurchaseType)
      ensures fresh(c)
      ensures c.Description == Description
    {
      c := new PurchaseType;
      c.Description := Description;
    }

    /** `PurchaseType.ShallowCopy`: a purchase holds only a string, which is
        immutable, so its memberwise clone is already independent. */
    method ShallowCopy() returns (c: PurchaseType)
      ensures fresh(c)
      ensures c.Description == Description
    {
      c := MemberwiseClone();
    }
  }

  class Person {
    var Purchase: PurchaseType
    var Age: int32

    /** `new Person(age, description)`: the field initializer allocates the
        purchase, then the constructor body writes both levels. */
    constructor (age: int32, description: string)
      ensures fresh(Purchase)
      ensures Age == age
      ensures Purchase.Description == description
    {
      Purchase := new PurchaseType;
      Age := age;
      new;
      Purchase.Description := description;
    }

    /** The object `MemberwiseClone` allocates: every field copied as is. */
    constructor FieldCopy(purchase: PurchaseType, age: int32)
      ensures Purchase == purchase
      ensures Age == age
    {
      Purchase := purchase;
      Age := age;
    }

    /** What a person and its purchase hold, read as the value aggregate. */
    function Snapshot(): ValueCopy.PersonStruct
      reads this, Purchase
    {
      ValueCopy.New(Age, Purchase.Description)
    }

    method MemberwiseClone() returns (c: Person)
      ensures fresh(c)
      ensures c.Purchase == Purchase
      ensures c.Age == Age
    {
      c := new Person.FieldCopy(Purchase, Age);
    }

    /** `Person.ShallowCopy`: a new person that shares this person's purchase. */
    method ShallowCopy() returns (other: Person)
      ensures fresh(other)
      ensures other.Age == Age
      ensures other.Purchase == Purchase
    {
      other := MemberwiseClone();
    }

    /** `Person.DeepCopy`: clone the root, then replace the clone's purchase
        with a clone of this purchase. Both objects of the result are new, it
        holds this person's values at the time of the call, and (having no
        modifies clause) it writes to no object that existed before. */
    method DeepCopy() returns (other: Person)
      ensures fresh(other)
      ensures fresh(other.Purchase)
      ensures other.Snapshot() == Snapshot()
    {
      other := MemberwiseClone();
      other.Purchase := Purchase.ShallowCopy();
    }
  }

  /** Deep copy, forward direction: writing both levels of a deep copy of any
      person leaves that person's values as they were, and the clone holds
      exactly what was written. */
  method DeepCopyIsolatesOriginal(p: Person, age: int32, description: string)
    returns (before: ValueCopy.PersonStruct, after: ValueCopy.PersonStruct, clone: ValueCopy.PersonStruct)
    ensures after == before
    ensures clone == ValueCopy.New(age, description)
  {
    before := p.Snapshot();
    var other := p.DeepCopy();
    other.Age := age;
    other.Purchase.Description := description;
    after := p.Snapshot();
    clone := other.Snapshot();
  }

  /** Deep copy, reverse direction: writing both levels of the original after
      cloning it leaves the clone with the values the original had. */
  method DeepCopyIsolatesClone(age0: int32, description0: string, age: int32, description: string)
    returns (original: ValueCopy.PersonStruct, clone: ValueCopy.PersonStruct)
    ensures original == ValueCopy.New(age, description)
    ensures clone == ValueCopy.New(age0, description0)
  {
    var p := new Person(age0, description0);
    var other := p.DeepCopy();
    p.Age := age;
    p.Purchase.Description := description;
    original := p.Snapshot();
    clone := other.Snapshot();
  }

  /** Deep copy, reverse direction, for any existing person: writing both
      levels of `p` after cloning it leaves the clone with `p`'s earlier values. */
  method DeepCopyIsolatesCloneOf(p: Person, age: int32, description: string)
    returns (clone: ValueCopy.PersonStruct)
    modifies p, p.Purchase
    ensures p.Snapshot() == ValueCopy.New(age, description)
    ensures clone == old(p.Snapshot())
  {
    var other := p.DeepCopy();
    p.Age := age;
    p.Purchase.Description := description;
    clone := other.Snapshot();
  }

  /** Shallow copy: the root is duplicated but the purchase is shared, so a
      write to the clone's age stays in the clone while a write to the clone's
      purchase description shows through the original. */
  method ShallowCopySharesPurchase(age0: int32, description0: string, age: int32, description: string)
    returns (original: ValueCopy.PersonStruct, clone: ValueCopy.PersonStruct)
    ensures original == ValueCopy.New(age0, description)
    ensures clone == ValueCopy.New(age, description)
  {
    var p := new Person(age0, description0);
    var other := p.ShallowCopy();
    other.Age := age;
    other.Purchase.Description := description;
    original := p.Snapshot();
    clone := other.Snapshot();
  }

  /** The class benchmark loop (Program.cs:33-38): add the age of a fresh
      deep copy of `bob` to an unchecked int total, `iterations` times. */
  method Checksum(bob: Person, iterations: int32) returns (total: int32)
    ensures iterations <= 0 ==> total == 0
    ensures iterations > 0 ==> total == Wrap(bob.Age * iterations)
  {
    total := 0;
    var i: int32 := 0;
    while i < iterations
      invariant 0 <= i
      invariant iterations > 0 ==> i <= iterations
      invariant iterations <= 0 ==> i == 0
      invariant total == Wrap(bob.Age * i)
    {
      var n := bob.DeepCopy();
      assert InRange(iterations);
      AccumulateStep(bob.Age, i);
      total := Add(total, n.Age);
      i := i + 1;
    }
    if iterations <= 0 {
      assert bob.Age * i == 0;
    }
  }

  /** The class half of the demonstration (Program.cs:18-38): Bob is deep
      copied, the copy is changed at both levels, Bob keeps his age and his
      purchase, and the benchmark's checksum is 30 * 100000, which fits in an
      int. */
  method Scenario() returns (bobAge: int32, bobDescription: string, total: int32)
    ensures bobAge == 30
    ensures bobDescription == "Lamborghini"
    ensures total == 3_000_000
  {
    var bob := new Person(30, "Lamborghini");
    var bobsSon := bob.DeepCopy();
    bobsSon.Age := 2;
    bobsSon.Purchase.Description := "Toy car";
    assert bob.Age == 30;
    assert bob.Purchase.Description == "Lamborghini";
    total := Checksum(bob, 100000);
    bobAge := bob.Age;
    bobDescription := bob.Purchase.Description;
  }
}
