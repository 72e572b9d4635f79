/**
 * The base contract every crossover operator of the genetic-algorithm engine
 * inherits (src/GeneticSharp.Domain/Crossovers/CrossoverBase.cs).
 *
 * A crossover declares, once and for all at construction, how many parents it
 * needs, how many children it yields and the shortest chromosome it can work
 * on. `Cross` validates the parent list against those declarations, in a fixed
 * order, and only then hands the list to the concrete algorithm
 * (`PerformCross`), returning whatever that algorithm returns.
 */
module Crossovers {
  import opened Wrappers

  /**
   * The two facts about a chromosome that the base contract looks at: the
   * name of its concrete type (used in the error message) and its number of
   * genes. `Length` is a plain `int` in the chromosome interface, so nothing
   * here keeps it from being negative. The interface itself is not part of
   * this model.
   */
  datatype Chromosome = Chromosome(kindName: string, length: int)

  /**
   * A crossover operator. The arity fields have private setters in the source
   * and are never assigned after construction; a datatype value cannot change
   * at all, which is the same guarantee. `perform` is the concrete algorithm
   * a subclass supplies for the abstract `PerformCross`, taken here as a
   * total, deterministic function of the parent list alone.
   */
  datatype Crossover = Crossover(
    parentsNumber: int,
    childrenNumber: int,
    minChromosomeLength: int,
    isOrdered: bool,
    perform: seq<Chromosome> -> seq<Chromosome>)

  /** Why `Cross` refused its input; one variant per exception it can raise. */
  datatype CrossError =
      /** `parents` is null (argument-null error). */
    | NullParents
      /** `parents.Count != ParentsNumber` (argument-out-of-range error). */
    | WrongParentCount
      /** `ParentsNumber == 0` and the list is empty, so reading `parents[0]` faults. */
    | FirstParentMissing
      /** The first parent is shorter than `MinChromosomeLength` (crossover error). */
    | TooShort(min: int, kindName: string, length: int)

  /** `Offspring`: the guards passed and the list was handed to `PerformCross`. */
  datatype CrossResult = Offspring(children: seq<Chromosome>) | Failure(error: CrossError)

  /** The minimum chromosome length the two-argument constructor installs. */
  const DefaultMinChromosomeLength: int := 2

  /** The three-argument constructor: all three declarations stored as given, not ordered. */
  function Create(parentsNumber: int, childrenNumber: int, minChromosomeLength: int,
                  perform: seq<Chromosome> -> seq<Chromosome>): (c: Crossover)
    ensures c.parentsNumber == parentsNumber
    ensures c.childrenNumber == childrenNumber
    ensures c.minChromosomeLength == minChromosomeLength
    ensures !c.isOrdered && c.perform == perform
  {
    Crossover(parentsNumber, childrenNumber, minChromosomeLength, false, perform)
  }

  /**
   * The two-argument constructor. As in the source it chains to the
   * three-argument one with the default minimum and then assigns the parent
   * and children numbers a second time.
   */
  function CreateWithDefaultMinLength(parentsNumber: int, childrenNumber: int,
                                     perform: seq<Chromosome> -> seq<Chromosome>): (c: Crossover)
    ensures c.parentsNumber == parentsNumber
    ensures c.childrenNumber == childrenNumber
    ensures c.minChromosomeLength == DefaultMinChromosomeLength
    ensures !c.isOrdered && c.perform == perform
  {
    Create(parentsNumber, childrenNumber, DefaultMinChromosomeLength, perform)
      .(parentsNumber := parentsNumber, childrenNumber := childrenNumber)
  }

  /** The protected `IsOrdered` setter, open to concrete crossovers. */
  function SetOrdered(c: Crossover, ordered: bool): (d: Crossover)
    ensures d.isOrdered == ordered
    ensures d.parentsNumber == c.parentsNumber && d.childrenNumber == c.childrenNumber
    ensures d.minChromosomeLength == c.minChromosomeLength && d.perform == c.perform
  {
    c.(isOrdered := ordered)
  }

  /**
   * When `Cross` lets a parent list through: it exists, has exactly
   * `ParentsNumber` entries, has a first entry, and that first entry is at
   * least `MinChromosomeLength` genes long.
   */
  predicate Accepts(c: Crossover, parents: Option<seq<Chromosome>>)
  {
    parents.Some? && |parents.value| == c.parentsNumber && 0 < c.parentsNumber
    && c.minChromosomeLength <= parents.value[0].length
  }

  /**
   * `Cross(parents)`: the three guards in the source's order, then delegation
   * to the concrete algorithm with the very same list.
   */
  function Cross(c: Crossover, parents: Option<seq<Chromosome>>): (r: CrossResult)
    ensures (r.Failure? && r.error == NullParents) <==> parents.None?
    ensures (r.Failure? && r.error == WrongParentCount)
            <==> parents.Some? && |parents.value| != c.parentsNumber
    ensures (r.Failure? && r.error == FirstParentMissing)
            <==> parents.Some? && |parents.value| == c.parentsNumber == 0
    ensures (r.Failure? && r.error.TooShort?)
            <==> parents.Some? && |parents.value| == c.parentsNumber > 0
                 && parents.value[0].length < c.minChromosomeLength
    ensures r.Failure? && r.error.TooShort? ==>
              r.error == TooShort(c.minChromosomeLength, parents.value[0].kindName,
                                  parents.value[0].length)
    ensures r.Offspring? <==> Accepts(c, parents)
    ensures r.Offspring? ==> r.children == c.perform(parents.value)
  {
    match parents
    case None => Failure(NullParents)
    case Some(ps) =>
      if |ps| != c.parentsNumber then
        Failure(WrongParentCount)
      else if |ps| == 0 then
        Failure(FirstParentMissing)
      else
        var first := ps[0];
        if first.length < c.minChromosomeLength then
          Failure(TooShort(c.minChromosomeLength, first.kindName, first.length))
        else
          Offspring(c.perform(ps))
  }
}
