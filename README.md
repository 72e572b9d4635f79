# GeneticSharp crossover base contract, in Dafny

This project models `CrossoverBase`, the abstract base class that every
crossover operator of the GeneticSharp genetic-algorithm engine derives from.
A crossover declares three numbers when it is built: `ParentsNumber`,
`ChildrenNumber` and `MinChromosomeLength`. The two-argument constructor sets
`MinChromosomeLength` to 2. The class also stores an `IsOrdered` flag.
`Cross(parents)` runs three guards in a fixed order: the list is not null,
it has `ParentsNumber` entries, and its first entry has at least
`MinChromosomeLength` genes. It then returns the result of the concrete
algorithm `PerformCross` on the same list.

Files:

- `wrappers.dfy`: `Option`, where `None` stands for a null reference.
- `crossover_base.dfy`: module `Crossovers`. Holds the `Chromosome`, `Crossover`,
  `CrossError` and `CrossResult` datatypes, the two constructors, the
  `IsOrdered` setter and `Cross`.
- `crossover_properties.dfy`: module `CrossoverProperties`. Holds lemmas that
  relate several calls of `Cross`, or that range over every parent list.

Modelling choices:

- A crossover is an immutable datatype value. Its arity fields have private
  setters in the source and are never reassigned. The base class's own code
  in `Cross` changes neither them nor the parent list.
- The abstract `PerformCross` is the field `perform`, a function supplied by
  whoever builds the crossover. It is taken as total, deterministic and
  dependent on the parent list alone; "## Left out" lists what that drops.
- `Offspring(children)` means the guards passed and the list was handed to
  `PerformCross`; `children` is what that call returned.
- A chromosome's `Length` is an unbounded `int`, as in the chromosome
  interface, so a negative length is possible in the model too.
- Each exception becomes a `CrossError` variant. `NullParents` is the
  argument-null error (line 74). `WrongParentCount` is the argument-out-of-range
  error (line 78). `TooShort(min, kindName, length)` is the crossover error
  (lines 84-85), with the fields its message reports.
- When `ParentsNumber` is 0, an empty list passes the count check. Reading
  `parents[0]` at line 81 then faults. The model reports this as its own
  outcome, `FirstParentMissing`, and does not forbid such a crossover.

## Model

| member | source | states |
|---|---|---|
| Crossovers.Create | src/GeneticSharp.Domain/Crossovers/CrossoverBase.cs:33-38 | the three-argument constructor stores parents number, children number and minimum length as given; the crossover starts unordered |
| Crossovers.CreateWithDefaultMinLength | src/GeneticSharp.Domain/Crossovers/CrossoverBase.cs:21-25 | the two-argument constructor stores parents and children numbers as given and the minimum length 2 |
| Crossovers.SetOrdered | src/GeneticSharp.Domain/Crossovers/CrossoverBase.cs:45 | setting `IsOrdered` changes that flag and leaves the arity declarations and the algorithm alone |
| Crossovers.Cross | src/GeneticSharp.Domain/Crossovers/CrossoverBase.cs:72-89 | exactly one outcome per input: null is reported iff the list is absent; the count error iff the count differs from ParentsNumber; the index fault iff the list is empty and ParentsNumber is 0; the length error iff count matches, it is positive and the first parent is strictly shorter than the minimum, carrying the minimum, that parent's kind and its length; the list is handed to the algorithm iff it is accepted (a first parent exactly as long as the minimum is accepted), and then the result is the algorithm's output on that same list, unchanged |
| CrossoverProperties.OnlyFirstParentChecked | src/GeneticSharp.Domain/Crossovers/CrossoverBase.cs:81-83 | two lists of equal size with the same first parent are accepted or refused together, and refused with the same error |
| CrossoverProperties.ShortLaterParentAccepted | src/GeneticSharp.Domain/Crossovers/CrossoverBase.cs:81-83 | a parent after the first that is shorter than the minimum does not stop the cross |
| CrossoverProperties.CountCheckedBeforeLength | src/GeneticSharp.Domain/Crossovers/CrossoverBase.cs:76-86 | three parents of length 3 for a crossover needing two parents of length 4 report the count error, not the length error |
| CrossoverProperties.IsOrderedNotRead | src/GeneticSharp.Domain/Crossovers/CrossoverBase.cs:42-89 | the base class's guards never read `IsOrdered`; `PerformCross` is modelled blind to the flag, so the whole result is unchanged |
| CrossoverProperties.DefaultConstructorChains | src/GeneticSharp.Domain/Crossovers/CrossoverBase.cs:21-38 | the two-argument constructor builds the same crossover as the three-argument one with minimum 2; its second assignment of the two numbers is a no-op |
| CrossoverProperties.ChildrenNumberKept | src/GeneticSharp.Domain/Crossovers/CrossoverBase.cs:53-57 | when the concrete algorithm yields ChildrenNumber children for every list the guards accept, every successful cross yields that many |
| CrossoverProperties.CanSucceedIff | src/GeneticSharp.Domain/Crossovers/CrossoverBase.cs:72-89 | some parent list is accepted iff ParentsNumber is at least 1; a crossover declaring 0 or fewer parents can never cross |
| CrossoverProperties.CanBeTooShortIff | src/GeneticSharp.Domain/Crossovers/CrossoverBase.cs:81-86 | the length error can be raised iff ParentsNumber is at least 1; lengths may be negative, so even a minimum of 0 or less can be undershot |
| CrossoverProperties.CanMissFirstParentIff | src/GeneticSharp.Domain/Crossovers/CrossoverBase.cs:76-81 | the fault on reading the first parent can happen iff ParentsNumber is 0 |
| CrossoverProperties.CanMiscountAlways | src/GeneticSharp.Domain/Crossovers/CrossoverBase.cs:76-79 | for every crossover some parent list is refused with the count error |

## Left out

- Concrete crossover algorithms (single-point, ordered and others) are not part of this model. `PerformCross` is the uninterpreted `perform` field.
- Exceptions thrown by `PerformCross` are not modelled. Line 88 passes them on unchanged, so `Offspring` means "handed to `PerformCross`", not "returned normally".
- Randomness in `PerformCross` is not modelled. `perform` is a function, so two calls on the same list give equal children, which a random algorithm need not do.
- `PerformCross` reading the crossover's own state (`IsOrdered`, the arity fields) is not modelled. `perform` sees only the parent list.
- `PerformCross` changing the mutable parent list in place is not modelled. Only the base class's own code is shown to leave the list alone.
- CrossoverProperties.IsOrderedNotRead: the equality of whole results, children included, rests on `perform` being blind to the flag. What the base class itself promises is that its guards (lines 74-86) never read `IsOrdered` and line 88 hands over the same list.
- The null check's helper library is foreign code. It appears only as the `NullParents` outcome.
- The error message text is not modelled. It is built with a string-format helper and the runtime type name. The model keeps its three values instead: minimum, kind name and length.
- A null entry inside the parent list is not modelled. Chromosomes are never null here. The source would fail with a null-reference error reading the first parent's length at line 83.
- The 32-bit width of the C# `int` fields is not modelled. The guards only compare values, so no arithmetic can wrap.
- The chromosome interface and its genes are not part of this model. Only a chromosome's length and its concrete type name are used.
- The meaning of `IsOrdered` for concrete crossovers is not modelled. The base class stores it and never reads it.
- The GTK front end (`src/GeneticSharp.Runner.GtkApp/MainWindow.cs`) is not modelled. It holds widget wiring, drawing, UI-thread marshalling, a worker thread and reflection-based operator construction, none of which is engine logic.
