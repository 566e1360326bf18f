/** The main screen: lazy creation of the pet on launch and the four buttons,
    each raising one stat and logging one interaction. */
module MainActivity {
  import opened Wrappers
  import opened Types
  import opened Pets

  /** What the embedded store holds at launch: at most one pet and the interaction log. */
  datatype Store = Store(pet: Option<Pet>, log: seq<Interaction>)

  /** The state after launch: the current pet and the interaction log. */
  datatype Session = Session(pet: Pet, log: seq<Interaction>)

  /** One button press: which button, the clock reading, and the key the store
      gives the new interaction record. */
  datatype Press = Press(kind: InteractionType, now: nat, newId: nat)

  /** The stat each button raises. */
  function StatFor(t: InteractionType): Stat
  {
    match t
    case FEED => Hunger
    case PLAY => Happiness
    case REST => Energy
    case CLEAN => Hygiene
  }

  /** The button that raises a given stat. */
  function TypeFor(s: Stat): InteractionType
  {
    match s
    case Hunger => FEED
    case Happiness => PLAY
    case Energy => REST
    case Hygiene => CLEAN
  }

  /** Buttons and stats are in one-to-one correspondence. */
  lemma StatForTypeForInverse(t: InteractionType, s: Stat)
    ensures TypeFor(StatFor(t)) == t
    ensures StatFor(TypeFor(s)) == s
    ensures StatFor(t) == s <==> TypeFor(s) == t
  {
  }

  /** Launch: reuse the stored pet, or create the default one under the key
      `newId` the store assigns on insert. */
  function Startup(db: Store, newId: nat): (r: Session)
    ensures db.pet.Some? ==> r.pet == db.pet.value
    ensures db.pet.None? ==> r.pet.id == newId && r.pet.name == DefaultName
    ensures db.pet.None? ==> forall s :: StatOf(r.pet, s) == Baseline
    ensures r.log == db.log
  {
    match db.pet
    case Some(p) => Session(p, db.log)
    case None => Session(NewPet(newId), db.log)
  }

  /** The store after launch: it now holds exactly the session's pet. */
  function Persisted(db: Store, newId: nat): (r: Store)
    ensures r.pet.Some? && r.log == db.log
    ensures db.pet.Some? ==> r == db
    ensures db.pet.None? ==> r.pet == Some(NewPet(newId))
  {
    Store(Some(Startup(db, newId).pet), db.log)
  }

  /** One button press: raise the mapped stat by ten capped at one hundred, and
      append an interaction of that type for the current pet. */
  function Act(s: Session, p: Press): (r: Session)
    ensures StatOf(r.pet, StatFor(p.kind)) == Bump(StatOf(s.pet, StatFor(p.kind)))
    ensures forall o :: o != StatFor(p.kind) ==> StatOf(r.pet, o) == StatOf(s.pet, o)
    ensures r.pet.id == s.pet.id && r.pet.name == s.pet.name
    ensures |r.log| == |s.log| + 1 && r.log[..|s.log|] == s.log
    ensures r.log[|s.log|] == Interaction(p.newId, s.pet.id, p.kind, p.now)
  {
    var pet := s.pet;
    var pet' :=
      match p.kind
      case PLAY => pet.(happiness := Min(pet.happiness + Step, Cap))
      case FEED => pet.(hunger := Min(pet.hunger + Step, Cap))
      case CLEAN => pet.(hygiene := Min(pet.hygiene + Step, Cap))
      case REST => pet.(energy := Min(pet.energy + Step, Cap));
    Session(pet', s.log + [Interaction(p.newId, pet.id, p.kind, p.now)])
  }

  /** A sequence of button presses, applied in order. */
  function Run(s: Session, ps: seq<Press>): Session
    decreases |ps|
  {
    if |ps| == 0 then s else Act(Run(s, ps[..|ps| - 1]), ps[|ps| - 1])
  }

  /** The interactions a sequence of presses logs for pet `petId`. */
  function Entries(petId: nat, ps: seq<Press>): seq<Interaction>
  {
    seq(|ps|, i requires 0 <= i < |ps| => Interaction(ps[i].newId, petId, ps[i].kind, ps[i].now))
  }

  /** How many presses in `ps` are of type `t`. */
  function CountPresses(ps: seq<Press>, t: InteractionType): nat
    decreases |ps|
  {
    if |ps| == 0 then 0
    else CountPresses(ps[..|ps| - 1], t) + (if ps[|ps| - 1].kind == t then 1 else 0)
  }

  /** How many log entries have type `t`. */
  function CountKind(log: seq<Interaction>, t: InteractionType): nat
    decreases |log|
  {
    if |log| == 0 then 0
    else CountKind(log[..|log| - 1], t) + (if log[|log| - 1].kind == t then 1 else 0)
  }

  /** A press on a saturated stat changes nothing about the pet; it is still logged. */
  lemma ActSaturated(s: Session, p: Press)
    requires StatOf(s.pet, StatFor(p.kind)) == Cap
    ensures Act(s, p).pet == s.pet
    ensures |Act(s, p).log| == |s.log| + 1
  {
  }

  /** A press keeps every stat inside [lo, Cap] if it started there. */
  lemma ActPreservesRange(s: Session, p: Press, lo: int)
    requires InRange(s.pet, lo, Cap)
    ensures InRange(Act(s, p).pet, lo, Cap)
  {
    var r := Act(s, p);
    forall st: Stat
      ensures lo <= StatOf(r.pet, st) <= Cap
    {
      if st == StatFor(p.kind) {
        BumpStaysInRange(StatOf(s.pet, st), lo);
      }
    }
  }

  /** Any number of presses keep every stat inside [lo, Cap] if it started there. */
  lemma {:induction false} RunPreservesRange(s: Session, ps: seq<Press>, lo: int)
    requires InRange(s.pet, lo, Cap)
    ensures InRange(Run(s, ps).pet, lo, Cap)
    decreases |ps|
  {
    if |ps| > 0 {
      RunPreservesRange(s, ps[..|ps| - 1], lo);
      ActPreservesRange(Run(s, ps[..|ps| - 1]), ps[|ps| - 1], lo);
    }
  }

  /** Presses never change the pet's identity, and the log grows by exactly the
      pressed interactions, earlier entries untouched. */
  lemma {:induction false} RunLog(s: Session, ps: seq<Press>)
    ensures Run(s, ps).pet.id == s.pet.id && Run(s, ps).pet.name == s.pet.name
    ensures Run(s, ps).log == s.log + Entries(s.pet.id, ps)
    decreases |ps|
  {
    if |ps| > 0 {
      var init := ps[..|ps| - 1];
      RunLog(s, init);
      var e := Entries(s.pet.id, ps);
      assert e == Entries(s.pet.id, init) + [e[|ps| - 1]];
    }
  }

  /** After any presses, each stat is its start value plus ten per press of the
      matching button, capped at one hundred. */
  lemma {:induction false} RunClosedForm(s: Session, ps: seq<Press>, st: Stat)
    requires StatOf(s.pet, st) <= Cap
    ensures StatOf(Run(s, ps).pet, st) == Min(StatOf(s.pet, st) + Step * CountPresses(ps, TypeFor(st)), Cap)
    decreases |ps|
  {
    if |ps| > 0 {
      var init := ps[..|ps| - 1];
      var last := ps[|ps| - 1];
      RunClosedForm(s, init, st);
      StatForTypeForInverse(last.kind, st);
    }
  }

  /** Launching on an empty store and pressing any buttons keeps every stat in
      [50, 100]: stats start at the baseline and only go up. */
  lemma FreshRunInRange(newId: nat, ps: seq<Press>)
    ensures InRange(Run(Startup(Store(None, []), newId), ps).pet, Baseline, Cap)
  {
    RunPreservesRange(Startup(Store(None, []), newId), ps, Baseline);
  }

  /** The main screen's consistency between pet and log: each stat is the baseline
      plus ten per logged interaction of its type, capped at one hundred. */
  predicate Ledger(s: Session)
  {
    forall st :: StatOf(s.pet, st) == Min(Baseline + Step * CountKind(s.log, TypeFor(st)), Cap)
  }

  /** A fresh pet with an empty log is consistent. */
  lemma StartupLedger(newId: nat)
    ensures Ledger(Startup(Store(None, []), newId))
  {
  }

  /** Every press keeps the pet consistent with its log. */
  lemma ActPreservesLedger(s: Session, p: Press)
    requires Ledger(s)
    ensures Ledger(Act(s, p))
  {
    var r := Act(s, p);
    assert r.log[..|s.log|] == s.log;
    forall st: Stat
      ensures StatOf(r.pet, st) == Min(Baseline + Step * CountKind(r.log, TypeFor(st)), Cap)
    {
      StatForTypeForInverse(p.kind, st);
    }
  }

  /** Any sequence of presses keeps a consistent session consistent. */
  lemma {:induction false} RunPreservesLedger(s: Session, ps: seq<Press>)
    requires Ledger(s)
    ensures Ledger(Run(s, ps))
    decreases |ps|
  {
    if |ps| > 0 {
      RunPreservesLedger(s, ps[..|ps| - 1]);
      ActPreservesLedger(Run(s, ps[..|ps| - 1]), ps[|ps| - 1]);
    }
  }
}
