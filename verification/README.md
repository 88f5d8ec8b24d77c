# DeepCopy: shallow and deep copy of a two-level aggregate

The program demonstrates copy semantics on a person who owns a purchase, in two flavours:

- **Reference aggregate** (`Person` and its nested class `PurchaseType`). `ShallowCopy` is a memberwise clone of the person. The clone therefore shares the original's purchase object. `DeepCopy` makes the memberwise clone and then replaces the clone's purchase with a memberwise clone of the original's purchase.
- **Value aggregate** (`PersonStruct` and its nested struct). Both copy operations just return `this`. Returning a struct already copies every field recursively.

`Main` clones "Bob" (age 30, purchase "Lamborghini") and changes the clone's age to 2 and its purchase to "Toy car". Bob is still 30 with a "Lamborghini". `Main` then sums the age of 100000 deep copies into an `int` checksum. It does this for both flavours.

The model has three modules:

- `Int32` (`int32.dfy`) covers C#'s 32-bit `int`. Under C#'s default unchecked context, the benchmark's `total += n.Age` wraps around, and it is modelled that way.
- `ValueCopy` (`value_copy.dfy`) models the struct flavour as immutable datatypes.
- `ReferenceCopy` (`reference_copy.dfy`) models the class flavour as Dafny classes on Dafny's heap. `MemberwiseClone` allocates a fresh object and copies each field into it. Aliasing shows up as reference equality, and new objects as `fresh`. A `DeepCopy` with no `modifies` clause can write to no object that existed before the call. `Person.Snapshot` reads a person and its purchase as a `ValueCopy.PersonStruct`. This makes "structurally equal at clone time" and "the original is unchanged" ordinary equalities.

The isolation and sharing properties are stated twice. They appear as `fresh` and `unchanged` contracts on the copy methods. They also appear as methods that build, clone and mutate only objects they allocate themselves, and return snapshots. Those methods carry plain equalities between the returned snapshots.

## Model

| member | source | states |
|---|---|---|
| `Int32.Add` | DeepCopy/DeepCopy/Program.cs:37 | `total += n.Age` on C# ints: it equals the mathematical sum when that fits in 32 bits, and otherwise agrees with it modulo 2^32 |
| `Int32.AccumulateStep` | DeepCopy/DeepCopy/Program.cs:33-38 | adding `x` to a total that already holds the wrapped `x * i` gives the wrapped `x * (i + 1)`, so wrapping intermediate totals never changes the final checksum |
| `ValueCopy.New` | DeepCopy/DeepCopy/Program.cs:133-137 | the struct constructor stores `age` as the age and `description` as the embedded purchase's description |
| `ValueCopy.SetAge` | DeepCopy/DeepCopy/Program.cs:49 | writing a copy's `Age` sets it and leaves the embedded purchase as it was |
| `ValueCopy.SetDescription` | DeepCopy/DeepCopy/Program.cs:50 | writing a copy's `Purchase.Description` sets it and leaves the age as it was |
| `ValueCopy.ShallowCopy` | DeepCopy/DeepCopy/Program.cs:145-148 | the struct `ShallowCopy` returns a value equal to the original, fields copied at both levels |
| `ValueCopy.DeepCopy` | DeepCopy/DeepCopy/Program.cs:150-153 | the struct `DeepCopy` returns a value equal to the original, with no nested copy code |
| `ValueCopy.CopiesCoincide` | DeepCopy/DeepCopy/Program.cs:145-153 | for a struct, `ShallowCopy` and `DeepCopy` both equal the original, so no observation can tell them apart |
| `ValueCopy.CopyIndependence` | DeepCopy/DeepCopy/Program.cs:47-55 | a struct copy equals the original when taken; after both levels of either kind of copy are written, the copy holds exactly the written values, whatever the original held |
| `ValueCopy.Demo` | DeepCopy/DeepCopy/Program.cs:43-55 | struct scenario: after the copy is set to 2 / "Toy car", Bob still has age 30 and "Lamborghini", as the two `Debug.Assert`s demand |
| `ValueCopy.Checksum` | DeepCopy/DeepCopy/Program.cs:58-63 | the struct benchmark loop returns the wrapped `bob.Age * iterations`, or 0 when the loop does not run |
| `ValueCopy.Scenario` | DeepCopy/DeepCopy/Program.cs:43-63 | the whole struct demonstration leaves Bob equal to `New(30, "Lamborghini")` and yields checksum 3,000,000 (it fits in an int, so no wrap happens) |
| `ReferenceCopy.Person.constructor` | DeepCopy/DeepCopy/Program.cs:97-101 | `new Person(age, description)`: the purchase allocated by the field initializer (line 111) is fresh, `Age == age` and `Purchase.Description == description` |
| `ReferenceCopy.PurchaseType.MemberwiseClone` | DeepCopy/DeepCopy/Program.cs:108 | `MemberwiseClone` of a purchase allocates a new object with the same description |
| `ReferenceCopy.PurchaseType.ShallowCopy` | DeepCopy/DeepCopy/Program.cs:106-109 | a purchase's `ShallowCopy` is a fresh object with the source's description, and no existing object is modified |
| `ReferenceCopy.Person.MemberwiseClone` | DeepCopy/DeepCopy/Program.cs:117 | `MemberwiseClone` of a person allocates a new person with the same age and the same purchase reference |
| `ReferenceCopy.Person.ShallowCopy` | DeepCopy/DeepCopy/Program.cs:115-118 | a person's `ShallowCopy` is a fresh person with equal age whose purchase is the same object as the original's |
| `ReferenceCopy.Person.DeepCopy` | DeepCopy/DeepCopy/Program.cs:121-128 | a person's `DeepCopy` is a fresh person with a fresh purchase distinct from the original's, holding the original's age and description at call time; with no modifies clause it writes no object that existed before the call |
| `ReferenceCopy.DeepCopyIsolatesOriginal` | DeepCopy/DeepCopy/Program.cs:22-30 | for any person: after its deep copy's age and purchase description are written, the person's snapshot equals its snapshot before the copy, and the clone holds the written values |
| `ReferenceCopy.DeepCopyIsolatesClone` | DeepCopy/DeepCopy/Program.cs:121-128 | for a person built by the constructor from any age and description: writing both levels of the original after a deep copy leaves the clone with the original's values from before the writes |
| `ReferenceCopy.DeepCopyIsolatesCloneOf` | DeepCopy/DeepCopy/Program.cs:121-128 | the same for any existing person `p`: after `p` is written at both levels, the clone equals `p`'s snapshot from before the call |
| `ReferenceCopy.ShallowCopySharesPurchase` | DeepCopy/DeepCopy/Program.cs:115-118 | after a shallow copy, writing the clone's age does not reach the original, but writing the clone's purchase description does: the original shows the new description |
| `ReferenceCopy.Checksum` | DeepCopy/DeepCopy/Program.cs:33-38 | the class benchmark loop returns the wrapped `bob.Age * iterations`, or 0 when the loop does not run |
| `ReferenceCopy.Scenario` | DeepCopy/DeepCopy/Program.cs:18-38 | class scenario: after Bob's deep copy is set to 2 / "Toy car", Bob still has age 30 and "Lamborghini", and the checksum is 3,000,000 |

## Left out

- Console output, `Console.ReadKey` and the `Stopwatch` timings in `Main`: these are I/O and wall-clock time, and elapsed times have no stateable value.
- `Program.DeepClone<T>` and `MyDeepCopy.DeepCopy<T>` (Program.cs:82-92, 158-170), and the serializer benchmark block that uses `MyDeepCopy.DeepCopy<T>` (Program.cs:66-78): their behaviour is `BinaryFormatter`'s. `BinaryFormatter` and `MemoryStream` are not part of this model, and an opaque stand-in would prove nothing about this code.
- `Debug.Assert`: only its content is kept, as assertions and postconditions of the `Scenario` and `Demo` members. The runtime check mechanism is not modelled.
- Null references: C# strings and the public `Purchase` field may be null. In the model, `Description` is a non-null `string` and `Purchase` is a non-null reference. So the `NullReferenceException` that `DeepCopy` would throw on a person whose `Purchase` was set to null is not modelled. The program never stores a null in either field.
- A purchase allocated by the `Person` field initializer has a null description in C#. In the model its description is unspecified until the constructor writes it.
- The literal iteration count 100000 of both benchmark loops is not hard-coded: it is a parameter, and the `Scenario` members pass 100000. The loop counter is an int32, as in the source.
