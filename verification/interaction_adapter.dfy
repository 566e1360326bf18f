/** The settings screen's history list: item count, the edit dialog (replace an
    entry's type and timestamp) and the delete dialog (remove an entry). Neither
    dialog reads or writes the pet. */
module InteractionAdapter {
  import opened Wrappers
  import opened Types
  import opened Pets
  import opened MainActivity

  /** Why an edit or delete has no effect. `ChoiceOutOfBounds`: the dialog index
      is outside the type-name array, where Java throws. `PositionOutOfBounds`: the
      position is outside the list; `List.remove` throws there, while for an edit
      the model names the entry by its position and Java, which edits the row's
      captured object, does not throw. */
  datatype AdapterError = ChoiceOutOfBounds | PositionOutOfBounds

  /** The edit dialog's items, in display order. */
  const ChoiceNames: seq<string> := ["FEED", "PLAY", "REST", "CLEAN"]

  /** The types those items name, in the same order. */
  const Choices: seq<InteractionType> := [FEED, PLAY, REST, CLEAN]

  /** The number of rows the list shows. */
  function ItemCount(items: seq<Interaction>): nat
  {
    |items|
  }

  /** The row count follows the list: one more after a press is logged, the same
      after an edit, one fewer after a delete. */
  lemma ItemCountFollowsList(s: Session, p: Press, position: int, which: int, now: nat)
    ensures ItemCount(Act(s, p).log) == ItemCount(s.log) + 1
    ensures Edit(s.log, position, which, now).Ok? ==>
      ItemCount(Edit(s.log, position, which, now).value) == ItemCount(s.log)
    ensures Delete(s.log, position).Ok? ==>
      ItemCount(Delete(s.log, position).value) == ItemCount(s.log) - 1
  {
  }

  /** The type picked as item `which` of the edit dialog. */
  function Choice(which: int): (r: Result<InteractionType, AdapterError>)
    ensures r.Ok? <==> 0 <= which < |ChoiceNames|
    ensures r.Err? ==> r.error == ChoiceOutOfBounds
    ensures r.Ok? ==> Name(r.value) == ChoiceNames[which]
  {
    if 0 <= which < |Choices| then Ok(Choices[which]) else Err(ChoiceOutOfBounds)
  }

  /** The dialog position at which a type is offered. */
  function ChoiceIndex(t: InteractionType): nat
  {
    match t
    case FEED => 0
    case PLAY => 1
    case REST => 2
    case CLEAN => 3
  }

  /** Each type is offered exactly once: at ChoiceIndex(t) and nowhere else. */
  lemma ChoiceBijective(t: InteractionType, which: int)
    ensures Choice(ChoiceIndex(t)) == Ok(t)
    ensures Choice(which) == Ok(t) ==> which == ChoiceIndex(t)
  {
  }

  /** The edit dialog's callback for item `which`: the entry at `position` gets the
      chosen type and the current time; its keys and every other entry stay put. */
  function Edit(items: seq<Interaction>, position: int, which: int, now: nat)
    : (r: Result<seq<Interaction>, AdapterError>)
    ensures r.Ok? <==> 0 <= which < |ChoiceNames| && 0 <= position < |items|
    ensures !(0 <= which < |ChoiceNames|) ==> r == Err(ChoiceOutOfBounds)
    ensures 0 <= which < |ChoiceNames| && !(0 <= position < |items|) ==> r == Err(PositionOutOfBounds)
    ensures r.Ok? ==> |r.value| == |items|
    ensures r.Ok? ==> forall i :: 0 <= i < |items| && i != position ==> r.value[i] == items[i]
    ensures r.Ok? ==> r.value[position].id == items[position].id
    ensures r.Ok? ==> r.value[position].petId == items[position].petId
    ensures r.Ok? ==> Name(r.value[position].kind) == ChoiceNames[which]
    ensures r.Ok? ==> r.value[position].timestamp == now
  {
    match Choice(which)
    case Err(e) => Err(e)
    case Ok(t) =>
      if 0 <= position < |items| then
        Ok(items[position := items[position].(kind := t, timestamp := now)])
      else Err(PositionOutOfBounds)
  }

  /** The delete dialog's callback: the list without the entry at `position`. */
  function Delete(items: seq<Interaction>, position: int): (r: Result<seq<Interaction>, AdapterError>)
    ensures r.Ok? <==> 0 <= position < |items|
    ensures r.Err? ==> r.error == PositionOutOfBounds
    ensures r.Ok? ==> |r.value| == |items| - 1
    ensures r.Ok? ==> forall i :: 0 <= i < position ==> r.value[i] == items[i]
    ensures r.Ok? ==> forall i :: position <= i < |r.value| ==> r.value[i] == items[i + 1]
    ensures r.Ok? ==> multiset(r.value) + multiset{items[position]} == multiset(items)
  {
    if 0 <= position < |items| then
      var r' := items[..position] + items[position + 1..];
      assert items == items[..position] + [items[position]] + items[position + 1..];
      Ok(r')
    else Err(PositionOutOfBounds)
  }

  /** Putting the removed entry back at its position restores the list. */
  lemma DeleteReinsert(items: seq<Interaction>, position: int)
    requires 0 <= position < |items|
    ensures Delete(items, position).Ok?
    ensures var rest := Delete(items, position).value;
      rest[..position] + [items[position]] + rest[position..] == items
  {
    var rest := Delete(items, position).value;
    var back := rest[..position] + [items[position]] + rest[position..];
    assert |back| == |items|;
    forall i | 0 <= i < |items|
      ensures back[i] == items[i]
    {
      if i > position {
        assert back[i] == rest[i - 1];
      }
    }
  }

  /** The edit dialog: `None` is Cancel, `Some(which)` is a tap on item `which`. */
  function EditDialog(items: seq<Interaction>, position: int, choice: Option<int>, now: nat)
    : (r: Result<seq<Interaction>, AdapterError>)
    ensures choice.None? ==> r == Ok(items)
    ensures choice.Some? ==> r == Edit(items, position, choice.value, now)
    ensures r.Ok? ==> ItemCount(r.value) == ItemCount(items)
  {
    match choice
    case None => Ok(items)
    case Some(which) => Edit(items, position, which, now)
  }

  /** The delete dialog: `confirmed` is the Delete button, otherwise Cancel. */
  function DeleteDialog(items: seq<Interaction>, position: int, confirmed: bool)
    : (r: Result<seq<Interaction>, AdapterError>)
    ensures !confirmed ==> r == Ok(items)
    ensures confirmed ==> r == Delete(items, position)
    ensures confirmed ==> (r.Ok? <==> 0 <= position < |items|)
    ensures confirmed && r.Ok? ==> ItemCount(r.value) == ItemCount(items) - 1
  {
    if confirmed then Delete(items, position) else Ok(items)
  }

  /** The edit dialog applied to the session's log; the pet is not consulted. */
  function EditSession(s: Session, position: int, choice: Option<int>, now: nat)
    : (r: Result<Session, AdapterError>)
    ensures r.Ok? ==> r.value.pet == s.pet
    ensures r.Ok? <==> EditDialog(s.log, position, choice, now).Ok?
    ensures r.Ok? ==> r.value.log == EditDialog(s.log, position, choice, now).value
    ensures r.Ok? ==> |r.value.log| == |s.log|
  {
    match EditDialog(s.log, position, choice, now)
    case Ok(log) => Ok(Session(s.pet, log))
    case Err(e) => Err(e)
  }

  /** The delete dialog applied to the session's log; the pet is not consulted. */
  function DeleteSession(s: Session, position: int, confirmed: bool)
    : (r: Result<Session, AdapterError>)
    ensures r.Ok? ==> r.value.pet == s.pet
    ensures r.Ok? <==> DeleteDialog(s.log, position, confirmed).Ok?
    ensures r.Ok? ==> r.value.log == DeleteDialog(s.log, position, confirmed).value
    ensures confirmed && r.Ok? ==> |r.value.log| == |s.log| - 1
  {
    match DeleteDialog(s.log, position, confirmed)
    case Ok(log) => Ok(Session(s.pet, log))
    case Err(e) => Err(e)
  }

  /** Because edit and delete leave the stats alone, they can break the main
      screen's pet/log consistency: feed a fresh pet, then retype the entry as PLAY
      or delete it, and hunger stays at 60 with no FEED entry left in the log. */
  lemma EditAndDeleteIgnoreStats()
    ensures var s := Act(Startup(Store(None, []), 1), Press(FEED, 0, 7));
      && Ledger(s)
      && EditSession(s, 0, Some(1), 5).Ok?
      && !Ledger(EditSession(s, 0, Some(1), 5).value)
      && StatOf(EditSession(s, 0, Some(1), 5).value.pet, Hunger) == 60
      && DeleteSession(s, 0, true).Ok?
      && !Ledger(DeleteSession(s, 0, true).value)
      && StatOf(DeleteSession(s, 0, true).value.pet, Hunger) == 60
  {
    var s0 := Startup(Store(None, []), 1);
    StartupLedger(1);
    var s := Act(s0, Press(FEED, 0, 7));
    ActPreservesLedger(s0, Press(FEED, 0, 7));
    assert StatOf(s.pet, Hunger) == 60;
    var e := EditSession(s, 0, Some(1), 5).value;
    assert e.log == [Interaction(7, 1, PLAY, 5)];
    assert CountKind(e.log, FEED) == 0 by {
      assert e.log[..0] == [];
    }
    var d := DeleteSession(s, 0, true).value;
    assert d.log == [];
  }
}
