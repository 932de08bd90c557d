/** The habit editor (`components/HabitManager.tsx`): inline edits of one
    habit, deletion, adding from the library, creating a custom habit, and
    the library search. Every edit maps the list to a new list. */
module HabitManager {
  import opened Types

  // ---- Inline edits ----

  /** The field updates the editor performs. */
  datatype Edit =
    | SetTitle(title: string)
    | SetWeight(weight: int)
    | SetTime(time: TimeOfDay)
    | SetTarget(target: int)
    | SwitchTo(frequency: Frequency)

  /** One habit after an edit. Switching to Weekly sets a target of 3 and the
      unit "x"; switching to Daily a target of 1 and the unit "bool". */
  function Apply(h: Habit, e: Edit): Habit {
    match e
    case SetTitle(t) => h.(title := t)
    case SetWeight(w) => h.(weight := w)
    case SetTime(t) => h.(timeOfDay := t)
    case SetTarget(n) => h.(targetCount := n)
    case SwitchTo(Weekly) => h.(frequency := Weekly, targetCount := 3, unit := UnitCount)
    case SwitchTo(Daily) => h.(frequency := Daily, targetCount := 1, unit := UnitBool)
  }

  /** `updateHabitField`: every habit with the id is edited, the others are
      kept as they are, in place. */
  function EditHabits(habits: seq<Habit>, id: string, e: Edit): (r: seq<Habit>)
    ensures |r| == |habits|
    ensures forall i :: 0 <= i < |r| ==> r[i] == (if habits[i].id == id then Apply(habits[i], e) else habits[i])
  {
    if habits == [] then []
    else [if habits[0].id == id then Apply(habits[0], e) else habits[0]] + EditHabits(habits[1..], id, e)
  }

  /** Every edit, applied a second time, changes nothing more. */
  lemma ApplyIdempotent(h: Habit, e: Edit)
    ensures Apply(Apply(h, e), e) == Apply(h, e)
    ensures Apply(h, e).id == h.id
  {
  }

  /** An edit never touches an id, so the list keeps its ids in place and
      stays free of duplicates. */
  lemma EditKeepsIds(habits: seq<Habit>, id: string, e: Edit)
    ensures forall i :: 0 <= i < |habits| ==> EditHabits(habits, id, e)[i].id == habits[i].id
    ensures UniqueIds(habits) ==> UniqueIds(EditHabits(habits, id, e))
  {
    var r := EditHabits(habits, id, e);
    forall i | 0 <= i < |habits|
      ensures r[i].id == habits[i].id
    {
      ApplyIdempotent(habits[i], e);
    }
  }

  /** Applying the same edit twice is applying it once. */
  lemma EditIdempotent(habits: seq<Habit>, id: string, e: Edit)
    ensures EditHabits(EditHabits(habits, id, e), id, e) == EditHabits(habits, id, e)
  {
    var r := EditHabits(habits, id, e);
    var r2 := EditHabits(r, id, e);
    forall i | 0 <= i < |habits|
      ensures r2[i] == r[i]
    {
      ApplyIdempotent(habits[i], e);
    }
  }

  /** Priority labels. */
  datatype Priority = Baixa | Media | Alta

  function PriorityLabel(w: int): Priority {
    if w == 3 then Alta else if w == 2 then Media else Baixa
  }

  /** The weight after a click on the priority badge. */
  function NextWeight(w: int): int {
    if w == 3 then 1 else w + 1
  }

  /** `cyclePriority` with the weight the badge shows. */
  function CyclePriority(habits: seq<Habit>, id: string, current: int): seq<Habit> {
    EditHabits(habits, id, SetWeight(NextWeight(current)))
  }

  /** On the three weights the badge cycles low, medium, high, low: every
      click changes the label, and three clicks come back; a stored weight of
      0 moves to low. */
  lemma PriorityCycle(w: int)
    requires 1 <= w <= 3
    ensures 1 <= NextWeight(w) <= 3 && NextWeight(w) != w
    ensures NextWeight(NextWeight(NextWeight(w))) == w
    ensures PriorityLabel(NextWeight(w)) == (match PriorityLabel(w) case Baixa => Media case Media => Alta case Alta => Baixa)
    ensures NextWeight(0) == 1
  {
  }

  /** Position of a time of day in the cycle, -1 for one outside the type. */
  function TimeIndex(t: TimeOfDay): (i: int)
    ensures -1 <= i < |AllTimes|
    ensures i >= 0 ==> AllTimes[i] == t
    ensures i == -1 <==> !DeclaredTime(t)
  {
    match t
    case Morning => 0
    case Afternoon => 1
    case Evening => 2
    case AnyTime => 3
    case OtherTime(_) => -1
  }

  /** The next time of day: `times[(times.indexOf(t) + 1) % 4]`. */
  function NextTime(t: TimeOfDay): TimeOfDay {
    AllTimes[(TimeIndex(t) + 1) % |AllTimes|]
  }

  function CycleTimeOfDay(habits: seq<Habit>, id: string, current: TimeOfDay): seq<Habit> {
    EditHabits(habits, id, SetTime(NextTime(current)))
  }

  /** The time badge cycles morning, afternoon, evening, any, morning; a stored
      value outside the type restarts the cycle at morning. */
  lemma TimeCycle(t: TimeOfDay)
    ensures DeclaredTime(NextTime(t))
    ensures DeclaredTime(t) ==> NextTime(t) != t && NextTime(NextTime(NextTime(NextTime(t)))) == t
    ensures !DeclaredTime(t) ==> NextTime(t) == Morning
    ensures NextTime(Morning) == Afternoon && NextTime(Afternoon) == Evening
    ensures NextTime(Evening) == AnyTime && NextTime(AnyTime) == Morning
  {
    assert NextTime(Morning) == AllTimes[1];
    assert NextTime(Afternoon) == AllTimes[2];
    assert NextTime(Evening) == AllTimes[3];
    assert NextTime(AnyTime) == AllTimes[0];
  }

  /** `toggleFrequency`, switching away from the frequency the badge shows. */
  function ToggleFrequency(habits: seq<Habit>, id: string, current: Frequency): seq<Habit> {
    EditHabits(habits, id, SwitchTo(if current == Daily then Weekly else Daily))
  }

  /** Toggling twice, each time from the frequency shown, brings back the
      frequency and resets target and unit to the defaults of that
      frequency; a Daily habit with the defaults comes back unchanged. */
  lemma ToggleFrequencyTwice(habits: seq<Habit>, id: string, i: int)
    requires 0 <= i < |habits| && habits[i].id == id
    ensures var once := ToggleFrequency(habits, id, habits[i].frequency);
            var twice := ToggleFrequency(once, id, once[i].frequency);
            twice[i].frequency == habits[i].frequency
            && once[i].frequency != habits[i].frequency
            && (once[i].frequency == Weekly ==> once[i].targetCount == 3 && once[i].unit == UnitCount)
            && (habits[i].frequency == Daily && habits[i].targetCount == 1 && habits[i].unit == UnitBool
                ==> twice[i] == habits[i])
  {
  }

  /** `incrementTarget`: raises the target while it is below 7. */
  function IncrementTarget(habits: seq<Habit>, id: string, current: int): seq<Habit> {
    if current < 7 then EditHabits(habits, id, SetTarget(current + 1)) else habits
  }

  /** `decrementTarget`: lowers the target while it is above 1. */
  function DecrementTarget(habits: seq<Habit>, id: string, current: int): seq<Habit> {
    if current > 1 then EditHabits(habits, id, SetTarget(current - 1)) else habits
  }

  /** The stepper keeps a target shown in 1..7 inside 1..7, and a step up
      followed by a step down from the new value restores the list. */
  lemma TargetStepper(habits: seq<Habit>, id: string, i: int)
    requires 0 <= i < |habits| && habits[i].id == id && 1 <= habits[i].targetCount <= 7
    ensures 1 <= IncrementTarget(habits, id, habits[i].targetCount)[i].targetCount <= 7
    ensures 1 <= DecrementTarget(habits, id, habits[i].targetCount)[i].targetCount <= 7
    ensures IncrementTarget(habits, id, habits[i].targetCount)[i].targetCount
            == if habits[i].targetCount < 7 then habits[i].targetCount + 1 else 7
    ensures DecrementTarget(habits, id, habits[i].targetCount)[i].targetCount
            == if habits[i].targetCount > 1 then habits[i].targetCount - 1 else 1
  {
  }

  lemma StepUpThenDown(habits: seq<Habit>, id: string, c: int)
    requires 1 <= c < 7
    requires forall i :: 0 <= i < |habits| && habits[i].id == id ==> habits[i].targetCount == c
    ensures DecrementTarget(IncrementTarget(habits, id, c), id, c + 1) == habits
  {
    var up := IncrementTarget(habits, id, c);
    var down := DecrementTarget(up, id, c + 1);
    forall i | 0 <= i < |habits|
      ensures down[i] == habits[i]
    {
    }
  }

  // ---- Delete and add ----

  /** `handleDelete`: the habits without the id, in order. */
  function HandleDelete(habits: seq<Habit>, id: string): (r: seq<Habit>)
    ensures |r| <= |habits|
    ensures forall h {:trigger h in r} :: h in r <==> h in habits && h.id != id
  {
    if habits == [] then []
    else (if habits[0].id == id then [] else [habits[0]]) + HandleDelete(habits[1..], id)
  }

  /** Deleting works element by element: the survivors of a concatenation are
      the survivors of each part, in order, so order and repeats are kept. */
  lemma {:induction false} DeleteConcat(a: seq<Habit>, b: seq<Habit>, id: string)
    ensures HandleDelete(a + b, id) == HandleDelete(a, id) + HandleDelete(b, id)
  {
    if a == [] {
      assert a + b == b;
    } else {
      var x := if a[0].id != id then [a[0]] else [];
      assert HandleDelete(a + b, id) == x + HandleDelete(a[1..] + b, id) by {
        assert (a + b)[0] == a[0];
        assert (a + b)[1..] == a[1..] + b;
      }
      assert HandleDelete(a[1..] + b, id) == HandleDelete(a[1..], id) + HandleDelete(b, id) by {
        DeleteConcat(a[1..], b, id);
      }
      assert HandleDelete(a, id) == x + HandleDelete(a[1..], id);
      assert (x + HandleDelete(a[1..], id)) + HandleDelete(b, id) == x + (HandleDelete(a[1..], id) + HandleDelete(b, id));
    }
  }

  /** A single habit survives exactly when it has another id. */
  lemma DeleteOne(h: Habit, id: string)
    ensures HandleDelete([h], id) == (if h.id != id then [h] else [])
  {
    assert [h][1..] == [];
  }

  /** Deleting leaves no habit with the id and removes nothing else, so it is
      idempotent. */
  lemma DeleteFacts(habits: seq<Habit>, id: string)
    ensures !HasId(HandleDelete(habits, id), id)
    ensures !HasId(habits, id) ==> HandleDelete(habits, id) == habits
    ensures HandleDelete(HandleDelete(habits, id), id) == HandleDelete(habits, id)
  {
    var r := HandleDelete(habits, id);
    forall i | 0 <= i < |r|
      ensures r[i].id != id
    {
      assert r[i] in r;
    }
    DeleteAbsent(habits, id);
    DeleteAbsent(r, id);
  }

  lemma {:induction false} DeleteAbsent(habits: seq<Habit>, id: string)
    ensures !HasId(habits, id) ==> HandleDelete(habits, id) == habits
  {
    if habits != [] && !HasId(habits, id) {
      assert !HasId(habits[1..], id) by {
        forall i | 0 <= i < |habits[1..]|
          ensures habits[1..][i].id != id
        {
          assert habits[1..][i] == habits[i + 1];
        }
      }
      DeleteAbsent(habits[1..], id);
      assert habits[0].id != id;
      assert [habits[0]] + habits[1..] == habits;
    }
  }

  /** Deleting keeps the ids unique. */
  lemma {:induction false} DeleteKeepsUnique(habits: seq<Habit>, id: string)
    requires UniqueIds(habits)
    ensures UniqueIds(HandleDelete(habits, id))
  {
    if habits != [] {
      var tail := habits[1..];
      assert UniqueIds(tail) by {
        forall i, j | 0 <= i < j < |tail|
          ensures tail[i].id != tail[j].id
        {
          assert tail[i] == habits[i + 1] && tail[j] == habits[j + 1];
        }
      }
      DeleteKeepsUnique(tail, id);
      var rest := HandleDelete(tail, id);
      forall k | 0 <= k < |rest|
        ensures rest[k].id != habits[0].id
      {
        assert rest[k] in rest;
        var j :| 0 <= j < |tail| && tail[j] == rest[k];
        assert tail[j] == habits[j + 1];
      }
    }
  }

  /** `handleAddFromLibrary`: nothing when a habit with the entry's id is
      already there, otherwise the entry appended, enabled, with streak 0. */
  function HandleAddFromLibrary(habits: seq<Habit>, t: Template): (r: seq<Habit>)
    ensures HasId(habits, t.id) ==> r == habits
    ensures !HasId(habits, t.id) ==> r == habits + [FromTemplate(t, true, Some(0), None)]
  {
    if HasId(habits, t.id) then habits else habits + [FromTemplate(t, true, Some(0), None)]
  }

  /** After adding, the entry's id is present and the ids stay unique; adding
      twice is adding once; deleting what was just added restores the list. */
  lemma AddFacts(habits: seq<Habit>, t: Template)
    ensures HasId(HandleAddFromLibrary(habits, t), t.id)
    ensures UniqueIds(habits) ==> UniqueIds(HandleAddFromLibrary(habits, t))
    ensures HandleAddFromLibrary(HandleAddFromLibrary(habits, t), t) == HandleAddFromLibrary(habits, t)
    ensures !HasId(habits, t.id) ==> HandleDelete(HandleAddFromLibrary(habits, t), t.id) == habits
  {
    var r := HandleAddFromLibrary(habits, t);
    if !HasId(habits, t.id) {
      assert r[|habits|].id == t.id;
      DeleteAppended(habits, FromTemplate(t, true, Some(0), None));
    }
  }

  lemma {:induction false} DeleteAppended(habits: seq<Habit>, h: Habit)
    requires !HasId(habits, h.id)
    ensures HandleDelete(habits + [h], h.id) == habits
  {
    if habits == [] {
      assert [h][1..] == [];
    } else {
      assert (habits + [h])[1..] == habits[1..] + [h];
      assert !HasId(habits[1..], h.id) by {
        forall i | 0 <= i < |habits[1..]|
          ensures habits[1..][i].id != h.id
        {
          assert habits[1..][i] == habits[i + 1];
        }
      }
      DeleteAppended(habits[1..], h);
      assert habits[0].id != h.id;
      assert [habits[0]] + habits[1..] == habits;
    }
  }

  // ---- Custom habits ----

  /** The custom-habit form; `targetCount` is 0 when the number field does not
      parse, `weight` 0 when unset. */
  datatype CustomForm = CustomForm(
    title: string,
    category: Category,
    frequency: Frequency,
    targetCount: int,
    description: Option<string>,
    weight: int,
    timeOfDay: TimeOfDay)

  const DefaultForm: CustomForm := CustomForm("", Saude, Daily, 1, None, 2, Morning)

  const CustomDescription: string := "Hábito personalizado"

  /** The habit a filled form creates; `stamp` stands for the clock reading in
      the id. */
  function CustomHabit(f: CustomForm, stamp: string): (h: Habit)
    ensures h.id == "custom_" + stamp && h.title == f.title && h.category == f.category
    ensures h.frequency == f.frequency && h.timeOfDay == f.timeOfDay
    ensures h.unit == UnitBool <==> f.frequency == Daily
    ensures h.unit == UnitCount <==> f.frequency == Weekly
    ensures h.targetCount != 0 && (f.targetCount != 0 ==> h.targetCount == f.targetCount)
    ensures h.weight != 0 && (f.weight != 0 ==> h.weight == f.weight)
    ensures h.description.Some? && h.description.value != ""
    ensures f.description.Some? && f.description.value != "" ==> h.description == f.description
    ensures h.enabled && h.streak == Some(0) && h.scienceTip.None? && h.whyChosen.None?
  {
    Habit(
      "custom_" + stamp, f.title, f.category, f.frequency,
      if f.targetCount == 0 then 1 else f.targetCount,
      if f.frequency == Daily then UnitBool else UnitCount,
      if f.description.None? || f.description.value == "" then Some(CustomDescription) else f.description,
      None, true, f.timeOfDay, Some(0), None,
      if f.weight == 0 then 2 else f.weight)
  }

  /** `handleCreateCustom`: nothing without a title, otherwise the new habit
      appended. */
  function HandleCreateCustom(habits: seq<Habit>, f: CustomForm, stamp: string): (r: seq<Habit>)
    ensures f.title == "" ==> r == habits
    ensures f.title != "" ==> |r| == |habits| + 1 && r[..|habits|] == habits && r[|habits|] == CustomHabit(f, stamp)
  {
    if f.title == "" then habits else habits + [CustomHabit(f, stamp)]
  }

  /** A custom habit is scored like any habit: the default form creates a
      Daily check habit of medium weight, and a fresh stamp keeps ids unique. */
  lemma CustomFacts(habits: seq<Habit>, f: CustomForm, stamp: string)
    ensures var h := CustomHabit(DefaultForm.(title := f.title), stamp);
            h.frequency == Daily && h.unit == UnitBool && h.targetCount == 1 && h.weight == 2
            && h.timeOfDay == Morning && h.description == Some(CustomDescription)
    ensures UniqueIds(habits) && !HasId(habits, "custom_" + stamp) ==> UniqueIds(HandleCreateCustom(habits, f, stamp))
  {
  }

  // ---- Library search ----

  function LowerChar(c: char): char {
    if 'A' <= c <= 'Z' then (c as int + 32) as char else c
  }

  /** `toLowerCase` on the ASCII letters. */
  function Lower(s: string): (r: string)
    ensures |r| == |s|
    ensures forall i :: 0 <= i < |s| ==> r[i] == LowerChar(s[i])
  {
    if s == [] then [] else [LowerChar(s[0])] + Lower(s[1..])
  }

  /** `includes`: `sub` occurs in `s` at some position. */
  predicate Contains(s: string, sub: string) {
    sub <= s || (s != [] && Contains(s[1..], sub))
  }

  /** The search text occurs, ignoring case, in the title or the description. */
  predicate Matches(t: Template, term: string) {
    Contains(Lower(t.title), Lower(term))
    || (t.description.Some? && Contains(Lower(t.description.value), Lower(term)))
  }

  /** `availableHabits`: the library entries not yet in the list that match
      the search text, in library order. */
  function AvailableHabits(library: seq<Template>, habits: seq<Habit>, term: string): (r: seq<Template>)
    ensures |r| <= |library|
    ensures forall t {:trigger t in r} :: t in r <==> t in library && !HasId(habits, t.id) && Matches(t, term)
  {
    if library == [] then []
    else (if !HasId(habits, library[0].id) && Matches(library[0], term) then [library[0]] else [])
         + AvailableHabits(library[1..], habits, term)
  }

  /** The offer is a filter: entries keep their library order. */
  lemma {:induction false} AvailableConcat(a: seq<Template>, b: seq<Template>, habits: seq<Habit>, term: string)
    ensures AvailableHabits(a + b, habits, term) == AvailableHabits(a, habits, term) + AvailableHabits(b, habits, term)
  {
    if a == [] {
      assert a + b == b;
    } else {
      var x := if !HasId(habits, a[0].id) && Matches(a[0], term) then [a[0]] else [];
      assert AvailableHabits(a + b, habits, term) == x + AvailableHabits(a[1..] + b, habits, term) by {
        assert (a + b)[0] == a[0];
        assert (a + b)[1..] == a[1..] + b;
      }
      assert AvailableHabits(a[1..] + b, habits, term) == AvailableHabits(a[1..], habits, term) + AvailableHabits(b, habits, term) by {
        AvailableConcat(a[1..], b, habits, term);
      }
      assert AvailableHabits(a, habits, term) == x + AvailableHabits(a[1..], habits, term);
      assert (x + AvailableHabits(a[1..], habits, term)) + AvailableHabits(b, habits, term) == x + (AvailableHabits(a[1..], habits, term) + AvailableHabits(b, habits, term));
    }
  }

  /** A single entry is offered exactly when it is absent and matches. */
  lemma AvailableOne(t: Template, habits: seq<Habit>, term: string)
    ensures AvailableHabits([t], habits, term) == (if !HasId(habits, t.id) && Matches(t, term) then [t] else [])
  {
    assert [t][1..] == [];
  }

  lemma ContainsEmpty(s: string)
    ensures Contains(s, [])
  {
  }

  /** With an empty search every entry not yet in the list is offered, and an
      entry once added is offered no more. */
  lemma AvailableFacts(library: seq<Template>, habits: seq<Habit>, term: string, t: Template)
    ensures t in library && !HasId(habits, t.id) ==> t in AvailableHabits(library, habits, "")
    ensures t !in AvailableHabits(library, HandleAddFromLibrary(habits, t), term)
  {
    ContainsEmpty(Lower(t.title));
    AddFacts(habits, t);
  }
}
