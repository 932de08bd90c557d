/** The list transformations of the library migrations
    (`services/migration.ts`): patching one habit's texts, re-syncing the
    habits with the library, listing the habits whose texts drifted, and the
    abstinence-text migration. The library is a parameter `lib`; the
    application passes the habit library. */
module Migration {
  import opened Types
  import Catalog
  import HabitManager
  import Onboarding

  // ---- updateHabitFields ----

  /** The texts `updateHabitFields` may set. A field left out (`None`) is not
      touched; a description or tip given as `Some(None)` is cleared. */
  datatype Patch = Patch(
    title: Option<string>,
    description: Option<Option<string>>,
    scienceTip: Option<Option<string>>)

  /** One habit with the patch spread over it. */
  function Patched(h: Habit, p: Patch): (r: Habit)
    ensures r.(title := h.title, description := h.description, scienceTip := h.scienceTip) == h
    ensures r.title == (if p.title.Some? then p.title.value else h.title)
    ensures r.description == (if p.description.Some? then p.description.value else h.description)
    ensures r.scienceTip == (if p.scienceTip.Some? then p.scienceTip.value else h.scienceTip)
  {
    var h1 := if p.title.Some? then h.(title := p.title.value) else h;
    var h2 := if p.description.Some? then h1.(description := p.description.value) else h1;
    if p.scienceTip.Some? then h2.(scienceTip := p.scienceTip.value) else h2
  }

  /** The list map of `updateHabitFields`: the habits with the id are patched,
      every other habit is kept, in place. */
  function UpdateHabitFields(habits: seq<Habit>, id: string, p: Patch): (r: seq<Habit>)
    ensures |r| == |habits|
    ensures forall i :: 0 <= i < |r| && habits[i].id != id ==> r[i] == habits[i]
    ensures forall i :: 0 <= i < |r| && habits[i].id == id ==> r[i] == Patched(habits[i], p)
  {
    seq(|habits|, i requires 0 <= i < |habits| => if habits[i].id == id then Patched(habits[i], p) else habits[i])
  }

  /** A patch keeps every id in place and, given twice, changes nothing more. */
  lemma UpdateFieldsFacts(habits: seq<Habit>, id: string, p: Patch)
    ensures forall i :: 0 <= i < |habits| ==> UpdateHabitFields(habits, id, p)[i].id == habits[i].id
    ensures UpdateHabitFields(UpdateHabitFields(habits, id, p), id, p) == UpdateHabitFields(habits, id, p)
  {
    var r := UpdateHabitFields(habits, id, p);
    var r2 := UpdateHabitFields(r, id, p);
    forall i | 0 <= i < |habits|
      ensures r[i].id == habits[i].id && r2[i] == r[i]
    {
    }
  }

  // ---- syncWithLibrary ----

  /** One habit after the sync: a habit the library knows takes every library
      field and keeps only its `enabled`, `streak` and `whyChosen`; any other
      habit is kept as it is. */
  function SyncHabit(lib: seq<Template>, u: Habit): (r: Habit)
    ensures r.id == u.id && r.enabled == u.enabled && r.streak == u.streak && r.whyChosen == u.whyChosen
    ensures Catalog.FindIn(lib, u.id).None? ==> r == u
    ensures Catalog.FindIn(lib, u.id).Some? ==>
              r == FromTemplate(Catalog.FindIn(lib, u.id).value, u.enabled, u.streak, u.whyChosen)
  {
    match Catalog.FindIn(lib, u.id)
    case Some(t) => FromTemplate(t, u.enabled, u.streak, u.whyChosen)
    case None => u
  }

  /** The list map of `syncWithLibrary`: same length, same order, same ids. */
  function SyncWithLibrary(lib: seq<Template>, habits: seq<Habit>): (r: seq<Habit>)
    ensures |r| == |habits|
    ensures forall i :: 0 <= i < |r| ==> r[i] == SyncHabit(lib, habits[i])
    ensures forall i :: 0 <= i < |r| ==> r[i].id == habits[i].id
    ensures UniqueIds(habits) ==> UniqueIds(r)
  {
    seq(|habits|, i requires 0 <= i < |habits| => SyncHabit(lib, habits[i]))
  }

  /** Syncing twice is syncing once. */
  lemma SyncIdempotent(lib: seq<Template>, habits: seq<Habit>)
    ensures SyncWithLibrary(lib, SyncWithLibrary(lib, habits)) == SyncWithLibrary(lib, habits)
  {
    var r := SyncWithLibrary(lib, habits);
    var r2 := SyncWithLibrary(lib, r);
    forall i | 0 <= i < |habits|
      ensures r2[i] == r[i]
    {
    }
  }

  /** Whatever the editor did to a library habit (title, weight, time,
      target, frequency), the sync puts the library's value back. */
  lemma SyncUndoesEdits(lib: seq<Template>, h: Habit, e: HabitManager.Edit)
    requires Catalog.FindIn(lib, h.id).Some?
    ensures SyncHabit(lib, HabitManager.Apply(h, e)) == SyncHabit(lib, h)
  {
    HabitManager.ApplyIdempotent(h, e);
  }

  /** The weight the onboarding rules chose for a habit does not survive a
      sync: the habit comes back as if adopted without an override, its
      reason for being chosen kept. */
  lemma SyncForgetsOverride(lib: seq<Template>, t: Template, weight: Option<int>, why: string)
    requires Catalog.FindIn(lib, t.id) == Some(t)
    ensures SyncHabit(lib, Onboarding.Adopt(t, weight, why)) == Onboarding.Adopt(t, None, why)
    ensures weight.Some? && weight.value != t.weight ==>
              SyncHabit(lib, Onboarding.Adopt(t, weight, why)).weight != Onboarding.Adopt(t, weight, why).weight
  {
  }

  // ---- checkOutdatedHabits ----

  /** The three texts the comparison looks at. */
  datatype Texts = Texts(title: string, description: Option<string>, scienceTip: Option<string>)

  function UserTexts(h: Habit): Texts {
    Texts(h.title, h.description, h.scienceTip)
  }

  function LibraryTexts(t: Template): Texts {
    Texts(t.title, t.description, t.scienceTip)
  }

  /** One report: the habit, both versions of its texts, and which differ. */
  datatype Outdated = Outdated(habitId: string, userVersion: Texts, libraryVersion: Texts, differences: seq<string>)

  /** The names of the texts that differ, in the order title, description,
      tip. */
  function Differences(library: Texts, user: Texts): (d: seq<string>)
    ensures "title" in d <==> library.title != user.title
    ensures "description" in d <==> library.description != user.description
    ensures "scienceTip" in d <==> library.scienceTip != user.scienceTip
    ensures |d| == 0 <==> library == user
    ensures |d| <= 3
  {
    (if library.title != user.title then ["title"] else [])
    + (if library.description != user.description then ["description"] else [])
    + (if library.scienceTip != user.scienceTip then ["scienceTip"] else [])
  }

  /** A habit is reported when the library knows it and some text differs. */
  predicate IsOutdated(lib: seq<Template>, h: Habit) {
    Catalog.FindIn(lib, h.id).Some? && LibraryTexts(Catalog.FindIn(lib, h.id).value) != UserTexts(h)
  }

  /** The report for one habit, if any. */
  function Report(lib: seq<Template>, h: Habit): (r: seq<Outdated>)
    ensures |r| <= 1
    ensures |r| == 1 <==> IsOutdated(lib, h)
  {
    match Catalog.FindIn(lib, h.id)
    case None => []
    case Some(t) =>
      var d := Differences(LibraryTexts(t), UserTexts(h));
      if |d| > 0 then [Outdated(h.id, UserTexts(h), LibraryTexts(t), d)] else []
  }

  /** A report entry that is true to the library and to the habit it names. */
  predicate Faithful(lib: seq<Template>, o: Outdated) {
    Catalog.FindIn(lib, o.habitId).Some?
    && o.libraryVersion == LibraryTexts(Catalog.FindIn(lib, o.habitId).value)
    && o.differences == Differences(o.libraryVersion, o.userVersion)
    && |o.differences| > 0
  }

  /** Every habit's report, in list order. */
  function AllReports(lib: seq<Template>, habits: seq<Habit>): seq<Outdated> {
    if habits == [] then [] else Report(lib, habits[0]) + AllReports(lib, habits[1..])
  }

  /** A report entry names a library habit, both versions of its texts and
      the texts that differ. */
  lemma ReportFaithful(lib: seq<Template>, h: Habit)
    ensures forall j :: 0 <= j < |Report(lib, h)| ==> Faithful(lib, Report(lib, h)[j])
  {
  }

  /** The facts `checkOutdatedHabits` promises, by induction on the list. */
  lemma {:induction false} AllReportsFacts(lib: seq<Template>, habits: seq<Habit>)
    ensures |AllReports(lib, habits)| <= |habits|
    ensures |AllReports(lib, habits)| == 0 <==> forall i :: 0 <= i < |habits| ==> !IsOutdated(lib, habits[i])
    ensures forall j :: 0 <= j < |AllReports(lib, habits)| ==> Faithful(lib, AllReports(lib, habits)[j])
  {
    if habits != [] {
      var head, rest := Report(lib, habits[0]), AllReports(lib, habits[1..]);
      AllReportsFacts(lib, habits[1..]);
      ReportFaithful(lib, habits[0]);
      assert AllReports(lib, habits) == head + rest;
      assert forall i :: 1 <= i < |habits| ==> habits[i] == habits[1..][i - 1];
      forall j | 0 <= j < |head + rest|
        ensures Faithful(lib, (head + rest)[j])
      {
        if j >= |head| {
          assert (head + rest)[j] == rest[j - |head|];
        }
      }
    }
  }

  /** `checkOutdatedHabits`: one entry per outdated habit, in list order. The
      list is empty exactly when nothing is outdated, and every entry names a
      library habit, both versions of its texts and the texts that differ. */
  function CheckOutdated(lib: seq<Template>, habits: seq<Habit>): (r: seq<Outdated>)
    ensures |r| <= |habits|
    ensures |r| == 0 <==> forall i :: 0 <= i < |habits| ==> !IsOutdated(lib, habits[i])
    ensures forall j :: 0 <= j < |r| ==> Faithful(lib, r[j])
  {
    AllReportsFacts(lib, habits);
    AllReports(lib, habits)
  }

  /** Reports of a concatenation, part by part. */
  lemma {:induction false} AllReportsConcat(lib: seq<Template>, a: seq<Habit>, b: seq<Habit>)
    ensures AllReports(lib, a + b) == AllReports(lib, a) + AllReports(lib, b)
  {
    if a == [] {
      assert a + b == b;
    } else {
      var x := Report(lib, a[0]);
      assert AllReports(lib, a + b) == x + AllReports(lib, a[1..] + b) by {
        assert (a + b)[0] == a[0];
        assert (a + b)[1..] == a[1..] + b;
      }
      assert AllReports(lib, a[1..] + b) == AllReports(lib, a[1..]) + AllReports(lib, b) by {
        AllReportsConcat(lib, a[1..], b);
      }
      assert AllReports(lib, a) == x + AllReports(lib, a[1..]);
      assert (x + AllReports(lib, a[1..])) + AllReports(lib, b)
             == x + (AllReports(lib, a[1..]) + AllReports(lib, b));
    }
  }

  /** The report is built habit by habit: the entries of a concatenation are
      those of each part, in order. */
  lemma CheckOutdatedConcat(lib: seq<Template>, a: seq<Habit>, b: seq<Habit>)
    ensures CheckOutdated(lib, a + b) == CheckOutdated(lib, a) + CheckOutdated(lib, b)
  {
    AllReportsConcat(lib, a, b);
  }

  /** A single habit gives its own report. */
  lemma CheckOutdatedOne(lib: seq<Template>, h: Habit)
    ensures CheckOutdated(lib, [h]) == Report(lib, h)
  {
    assert [h][1..] == [];
  }

  /** Entry `o` reports habit `h`: its id, its texts, and `h` is outdated. */
  predicate Names(lib: seq<Template>, o: Outdated, h: Habit) {
    o.habitId == h.id && o.userVersion == UserTexts(h) && IsOutdated(lib, h)
  }

  /** The one entry of a habit's report names that habit. */
  lemma ReportNames(lib: seq<Template>, h: Habit)
    ensures forall j :: 0 <= j < |Report(lib, h)| ==> Names(lib, Report(lib, h)[j], h)
  {
  }

  /** Every outdated habit of `habits` is named by some entry of `r`. */
  predicate Covers(lib: seq<Template>, habits: seq<Habit>, r: seq<Outdated>) {
    forall i :: 0 <= i < |habits| && IsOutdated(lib, habits[i]) ==>
      exists j :: 0 <= j < |r| && Names(lib, r[j], habits[i])
  }

  /** Every entry of `r` names some outdated habit of `habits`. */
  predicate NamedIn(lib: seq<Template>, habits: seq<Habit>, r: seq<Outdated>) {
    forall j :: 0 <= j < |r| ==> exists i :: 0 <= i < |habits| && Names(lib, r[j], habits[i])
  }

  /** No outdated habit is missed. */
  lemma {:induction false} AllReportsComplete(lib: seq<Template>, habits: seq<Habit>)
    ensures Covers(lib, habits, AllReports(lib, habits))
  {
    if habits != [] {
      var r := AllReports(lib, habits);
      var head := Report(lib, habits[0]);
      var tail := habits[1..];
      var rest := AllReports(lib, tail);
      assert r == head + rest;
      AllReportsComplete(lib, tail);
      forall i | 0 <= i < |habits| && IsOutdated(lib, habits[i])
        ensures exists j :: 0 <= j < |AllReports(lib, habits)| && Names(lib, AllReports(lib, habits)[j], habits[i])
      {
        if i == 0 {
          ReportNames(lib, habits[0]);
          assert r[0] == head[0];
          assert Names(lib, r[0], habits[0]);
        } else {
          assert habits[i] == tail[i - 1];
          var j :| 0 <= j < |rest| && Names(lib, rest[j], tail[i - 1]);
          assert r[|head| + j] == rest[j];
          assert Names(lib, r[|head| + j], habits[i]);
        }
      }
    }
  }

  /** No entry is made up. */
  lemma {:induction false} AllReportsSound(lib: seq<Template>, habits: seq<Habit>)
    ensures NamedIn(lib, habits, AllReports(lib, habits))
  {
    if habits != [] {
      var r := AllReports(lib, habits);
      var head := Report(lib, habits[0]);
      var tail := habits[1..];
      var rest := AllReports(lib, tail);
      assert r == head + rest;
      AllReportsSound(lib, tail);
      forall j | 0 <= j < |AllReports(lib, habits)|
        ensures exists i :: 0 <= i < |habits| && Names(lib, AllReports(lib, habits)[j], habits[i])
      {
        if j < |head| {
          ReportNames(lib, habits[0]);
          assert r[j] == head[j];
          assert Names(lib, r[j], habits[0]);
        } else {
          assert r[j] == rest[j - |head|];
          var i :| 0 <= i < |tail| && Names(lib, rest[j - |head|], tail[i]);
          assert tail[i] == habits[i + 1];
          assert Names(lib, r[j], habits[i + 1]);
        }
      }
    }
  }

  /** Every outdated habit of the list is reported under its own id and with
      its own texts; every entry names an outdated habit of the list (its
      library texts and differences then follow from `Faithful`). */
  lemma CheckOutdatedComplete(lib: seq<Template>, habits: seq<Habit>)
    ensures Covers(lib, habits, CheckOutdated(lib, habits))
    ensures NamedIn(lib, habits, CheckOutdated(lib, habits))
  {
    AllReportsComplete(lib, habits);
    AllReportsSound(lib, habits);
  }

  /** Right after a sync nothing is outdated. */
  lemma SyncedNotOutdated(lib: seq<Template>, habits: seq<Habit>)
    ensures CheckOutdated(lib, SyncWithLibrary(lib, habits)) == []
  {
    var r := SyncWithLibrary(lib, habits);
    forall i | 0 <= i < |r|
      ensures !IsOutdated(lib, r[i])
    {
    }
  }

  // ---- migrations.updateAbstinenceHabits ----

  /** The habits the abstinence migration rewrites. */
  const AbstinenceIds: seq<string> :=
    ["no_nicotine", "avoid_alcohol", "avoid_cannabis", "avoid_games", "avoid_shorts", "avoid_yt"]

  /** One habit after the abstinence migration: a listed habit the library
      knows takes the library's title and description; nothing else changes. */
  function AbstinenceHabit(lib: seq<Template>, h: Habit): (r: Habit)
    ensures r.(title := h.title, description := h.description) == h
    ensures h.id !in AbstinenceIds || Catalog.FindIn(lib, h.id).None? ==> r == h
    ensures h.id in AbstinenceIds && Catalog.FindIn(lib, h.id).Some? ==>
              r.title == Catalog.FindIn(lib, h.id).value.title
              && r.description == Catalog.FindIn(lib, h.id).value.description
  {
    if h.id in AbstinenceIds then
      match Catalog.FindIn(lib, h.id)
      case Some(t) => h.(title := t.title, description := t.description)
      case None => h
    else h
  }

  function UpdateAbstinenceHabits(lib: seq<Template>, habits: seq<Habit>): (r: seq<Habit>)
    ensures |r| == |habits|
    ensures forall i :: 0 <= i < |r| ==> r[i] == AbstinenceHabit(lib, habits[i])
  {
    seq(|habits|, i requires 0 <= i < |habits| => AbstinenceHabit(lib, habits[i]))
  }

  /** The migration is idempotent, and afterwards no listed habit differs
      from the library in title or description; only a tip can still be
      reported. */
  lemma AbstinenceFacts(lib: seq<Template>, habits: seq<Habit>)
    ensures UpdateAbstinenceHabits(lib, UpdateAbstinenceHabits(lib, habits)) == UpdateAbstinenceHabits(lib, habits)
    ensures forall i :: 0 <= i < |habits| && habits[i].id in AbstinenceIds && IsOutdated(lib, UpdateAbstinenceHabits(lib, habits)[i]) ==>
              Differences(LibraryTexts(Catalog.FindIn(lib, habits[i].id).value), UserTexts(UpdateAbstinenceHabits(lib, habits)[i])) == ["scienceTip"]
  {
    var r := UpdateAbstinenceHabits(lib, habits);
    var r2 := UpdateAbstinenceHabits(lib, r);
    forall i | 0 <= i < |habits|
      ensures r2[i] == r[i]
    {
    }
  }
}
