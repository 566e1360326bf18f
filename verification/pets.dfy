/** The pet record, its four stats and the capped increment the buttons apply. */
module Pets {

  /** The four stat fields of a pet. */
  datatype Stat = Hunger | Happiness | Energy | Hygiene

  datatype Pet = Pet(id: nat, name: string, hunger: int, energy: int, happiness: int, hygiene: int)

  const DefaultName: string := "Tamagario"
  /** Value of every stat of a freshly created pet. */
  const Baseline: int := 50
  /** Amount one button press adds to its stat. */
  const Step: int := 10
  /** Upper bound a button press never exceeds. */
  const Cap: int := 100

  /** Reads one stat field by name. */
  function StatOf(p: Pet, s: Stat): int
  {
    match s
    case Hunger => p.hunger
    case Happiness => p.happiness
    case Energy => p.energy
    case Hygiene => p.hygiene
  }

  /** Java's `Math.min` on two integers. */
  function Min(a: int, b: int): int
  {
    if a <= b then a else b
  }

  /** The update every button applies to its stat: add ten, never past one hundred. */
  function Bump(v: int): (r: int)
    ensures v <= Cap - Step ==> r == v + Step
    ensures v >= Cap - Step ==> r == Cap
  {
    Min(v + Step, Cap)
  }

  /** All four stats lie in [lo, hi]. */
  predicate InRange(p: Pet, lo: int, hi: int)
  {
    forall s :: lo <= StatOf(p, s) <= hi
  }

  /** The pet created on first launch, before the store assigns its key `id`. */
  function NewPet(id: nat): (p: Pet)
    ensures p.id == id && p.name == DefaultName
    ensures forall s :: StatOf(p, s) == Baseline
  {
    Pet(id, DefaultName, Baseline, Baseline, Baseline, Baseline)
  }

  /** A bump never lowers a stat and never leaves [lo, Cap] once inside it. */
  lemma BumpStaysInRange(v: int, lo: int)
    requires lo <= v <= Cap
    ensures v <= Bump(v) && lo <= Bump(v) <= Cap
  {
  }

  /** A stat already at the cap stays there. */
  lemma BumpSaturated(v: int)
    requires v == Cap
    ensures Bump(v) == v
  {
  }
}
