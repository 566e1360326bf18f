# Tamagario pet model

A Dafny model of the logic inside the Tamagario virtual-pet Android app. The app
keeps one pet with four integer stats (hunger, energy, happiness, hygiene) and a log
of interactions. On launch the main screen reuses the stored pet or creates one named
"Tamagario" with every stat at 50. Each of its four buttons (PLAY, FEED, CLEAN, REST)
raises one stat by ten, capped at one hundred, and logs an interaction record with
the button's type, the pet's key and the current time. The settings screen lists the
log. Tapping an entry opens a dialog that retypes it and refreshes its timestamp.
Long-pressing an entry opens a dialog that deletes it.

The model takes these steps out of the click handlers and dialog callbacks as pure
functions over immutable values:

- `wrappers.dfy`: `Option` (a nullable reference) and `Result` (a value, or the exception Java would throw).
- `types.dfy`: the interaction type `{FEED, PLAY, REST, CLEAN}`, the `Interaction` record, and the string tags the app stores for the types.
- `pets.dfy`: the `Pet` record, its four stats, the default pet and the capped increment `Bump`.
- `main_activity.dfy`: the store at launch, `Startup`, one button press `Act`, sequences of presses `Run`, and the stat-range and pet/log consistency lemmas.
- `interaction_adapter.dfy`: the item count, the edit and delete callbacks and their dialogs, and the session-level versions that show the pet is left alone.

Clock readings and the keys the store assigns to new records are opaque naturals
passed in as parameters. Edit and delete in the adapter never touch the pet's stats,
because the adapter holds only the interaction DAO
(InteractionAdapter.java:22). `InteractionAdapter.EditAndDeleteIgnoreStats` shows a concrete
case where this breaks the main screen's pet/log consistency (`MainActivity.Ledger`).

## Model

| member | source | states |
|---|---|---|
| Types.Parse | app/src/main/java/com/example/tamagario/InteractionAdapter.java:73 | a stored type tag reads back as a type exactly when it is the tag of that type; any other string names no type |
| Types.ParseName | app/src/main/java/com/example/tamagario/MainActivity.java:92 | every tag the buttons write (\"PLAY\", \"FEED\", \"CLEAN\", \"REST\") reads back as the type it was written for |
| Types.NameInjective | app/src/main/java/com/example/tamagario/InteractionAdapter.java:73 | the four tags are distinct, so a tag identifies its type |
| Pets.Bump | app/src/main/java/com/example/tamagario/MainActivity.java:87 | `min(v + 10, 100)`: below 90 a press adds exactly ten, from 90 up the result is exactly 100 |
| Pets.BumpStaysInRange | app/src/main/java/com/example/tamagario/MainActivity.java:99 | a press never lowers a stat at or below 100, and a stat inside [lo, 100] stays inside it |
| Pets.BumpSaturated | app/src/main/java/com/example/tamagario/MainActivity.java:111 | a stat already at 100 stays at 100 |
| Pets.NewPet | app/src/main/java/com/example/tamagario/MainActivity.java:49-55 | the default pet is named \"Tamagario\", has every stat at 50, and carries the key the store assigned |
| MainActivity.StatForTypeForInverse | app/src/main/java/com/example/tamagario/MainActivity.java:85-131 | each button maps to exactly one stat and each stat to exactly one button (PLAY-happiness, FEED-hunger, CLEAN-hygiene, REST-energy) |
| MainActivity.Startup | app/src/main/java/com/example/tamagario/MainActivity.java:47-59 | a stored pet is reused unchanged; with no pet, the new one has the store's key, the default name and every stat at 50; the log is untouched |
| MainActivity.Persisted | app/src/main/java/com/example/tamagario/MainActivity.java:48-58 | after launch the store always holds a pet; a store that already had one is unchanged, and an empty one now holds the default pet under the key `newId` |
| MainActivity.Act | app/src/main/java/com/example/tamagario/MainActivity.java:86-131 | a press sets its mapped stat to min(old + 10, 100) and leaves the other three stats, the key and the name unchanged; it appends exactly one entry (new key, the pet's key, the button's type, the supplied time) and keeps all earlier entries |
| MainActivity.ActSaturated | app/src/main/java/com/example/tamagario/MainActivity.java:122-131 | a press on a stat at 100 leaves the whole pet record unchanged but still logs one entry |
| MainActivity.ActPreservesRange | app/src/main/java/com/example/tamagario/MainActivity.java:86-131 | if all stats are in [lo, 100] before a press, they are in [lo, 100] after |
| MainActivity.RunPreservesRange | app/src/main/java/com/example/tamagario/MainActivity.java:86-131 | the range invariant holds across any sequence of presses |
| MainActivity.FreshRunInRange | app/src/main/java/com/example/tamagario/MainActivity.java:48-131 | from a fresh install, every reachable stat lies in [50, 100] |
| MainActivity.RunLog | app/src/main/java/com/example/tamagario/MainActivity.java:90-130 | any sequence of presses keeps the pet's key and name; the log becomes the old log followed by one entry per press, in press order |
| MainActivity.RunClosedForm | app/src/main/java/com/example/tamagario/MainActivity.java:86-131 | after any presses, each stat equals min(start + 10 * the number of presses of its button, 100) |
| MainActivity.StartupLedger | app/src/main/java/com/example/tamagario/MainActivity.java:49-55 | a fresh pet with an empty log satisfies the consistency rule: every stat is min(50 + 10 * the number of logged entries of its type, 100) |
| MainActivity.ActPreservesLedger | app/src/main/java/com/example/tamagario/MainActivity.java:86-131 | each press preserves that pet/log consistency rule |
| MainActivity.RunPreservesLedger | app/src/main/java/com/example/tamagario/MainActivity.java:86-131 | any sequence of presses preserves the pet/log consistency rule |
| InteractionAdapter.ItemCountFollowsList | app/src/main/java/com/example/tamagario/InteractionAdapter.java:57-59 | the row count (`getItemCount`, the list's length) grows by one with each logged press, is unchanged by an edit and drops by one with a delete |
| InteractionAdapter.Choice | app/src/main/java/com/example/tamagario/InteractionAdapter.java:73-78 | item `which` of the edit dialog is valid only for 0..3 and picks the type whose tag is `types[which]`; any other index is the array-bounds error |
| InteractionAdapter.ChoiceBijective | app/src/main/java/com/example/tamagario/InteractionAdapter.java:73 | each of the four types is offered at exactly one dialog position |
| InteractionAdapter.Edit | app/src/main/java/com/example/tamagario/InteractionAdapter.java:77-81 | an edit succeeds exactly for a valid choice and position; the entry's tag becomes `types[which]` and its timestamp the supplied time, while its key, its pet key, every other entry and the length stay the same; a bad choice or position is an error |
| InteractionAdapter.Delete | app/src/main/java/com/example/tamagario/InteractionAdapter.java:93-95 | a delete succeeds exactly for 0 <= position < length; the result is one shorter, keeps the entries before the position, shifts the entries after it down by one in order, and as a multiset lacks only the removed entry |
| InteractionAdapter.DeleteReinsert | app/src/main/java/com/example/tamagario/InteractionAdapter.java:94 | putting the removed entry back at its position gives the original list |
| InteractionAdapter.EditDialog | app/src/main/java/com/example/tamagario/InteractionAdapter.java:72-86 | Cancel leaves the list unchanged; tapping item `which` performs `Edit` at the row's position; an edit never changes the item count |
| InteractionAdapter.DeleteDialog | app/src/main/java/com/example/tamagario/InteractionAdapter.java:88-100 | Cancel leaves the list unchanged; Delete performs `Delete` at the row's position, which succeeds exactly for a position inside the list and then lowers the item count by one |
| InteractionAdapter.EditSession | app/src/main/java/com/example/tamagario/InteractionAdapter.java:72-86 | the session's log becomes exactly the list the edit dialog produces, the pet is unchanged, and it succeeds exactly when the dialog does |
| InteractionAdapter.DeleteSession | app/src/main/java/com/example/tamagario/InteractionAdapter.java:88-100 | the session's log becomes exactly the list the delete dialog produces, the pet is unchanged, and it succeeds exactly when the dialog does |
| InteractionAdapter.EditAndDeleteIgnoreStats | app/src/main/java/com/example/tamagario/InteractionAdapter.java:72-100 | since edit and delete leave the stats alone, feeding a fresh pet and then retyping or deleting the FEED entry leaves hunger at 60 with no FEED entry logged, so the pet/log consistency rule no longer holds |


## Left out

- Room database setup, the DAOs and SQL persistence. The store is an optional pet plus a sequence of interactions. The keys Room assigns on insert are parameters.
- The pet update and the interaction insert of one press are two separate store writes with no transaction (app/src/main/java/com/example/tamagario/MainActivity.java:88, 94). The model treats a press as one step. What happens when one write fails is not visible in this code.
- Android lifecycle, window insets, `RecyclerView` binding, `AlertDialog` and `Toast` presentation. These only display state.
- Navigation between screens. The model assumes `Session.pet` always equals the stored pet. In the app, the settings button starts the settings screen without finishing the main one (MainActivity.java:72-75), and the settings back button starts a new main screen (SettingsActivity.java:59-62). An older main screen left on the back stack keeps its own copy of the pet (MainActivity.java:17), and a press there writes that stale copy back (MainActivity.java:87-88). This can overwrite stats set from the newer screen while their log entries remain, so `Ledger` can fail in the app through presses alone. Whether this happens depends on the activity launch mode, which is not part of this model.
- `System.currentTimeMillis()` and `DateFormat` rendering of timestamps. Time is an opaque parameter.
- `SettingsActivity.java`, which only loads the log for the pet and builds the adapter. With a single pet, the settings list is modelled as the whole log. The model also assumes the settings list is in log (insertion) order. The order `getInteractionsForPet` returns is not part of this model.
- `allowMainThreadQueries`. There is no concurrency logic to model.
- `Pet.java`, `Interaction.java` and the DAO interfaces are not part of this model. Stats are unbounded integers.
- Pets.Bump: does not model Java `int` overflow of `stat + 10`. It could only happen for a stat within ten of 2^31, which the app never writes: stats start at 50 and presses keep them at or below 100.
- InteractionAdapter.Edit: the entry is identified by its list position. The Java callback edits the captured object and uses the position only to refresh the row. The two coincide whenever the row is bound. For an unbound row, Java still edits the object, whereas the model reports `PositionOutOfBounds`.
- InteractionAdapter.Delete: on a bad position, Java deletes the record from the store before `List.remove` throws. The model reports the error and does not model the store-side delete.
- Stat decay and any compensating stat change on edit or delete. Neither appears in the code.
