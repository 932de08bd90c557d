/** The pure part of the one-off migration script
    (`scripts/migrate-habits-example.js`): the per-habit text update, the
    test that a user's protocol changed, and the per-id count of title
    changes. */
module MigrateScript {
  import opened Types
  import Catalog
  import Migration

  /** The new title and description of a listed habit. */
  datatype TextUpdate = TextUpdate(title: string, description: string)

  /** `HABIT_UPDATES`: the "Zero X" texts of the six abstinence habits. */
  const HabitUpdates: map<string, TextUpdate> := map[
    "avoid_alcohol" := TextUpdate("Zero Álcool", "Marque se NÃO bebeu hoje"),
    "avoid_cannabis" := TextUpdate("Zero Cannabis", "Marque se NÃO usou hoje"),
    "avoid_games" := TextUpdate("Zero Jogos", "Marque se NÃO jogou hoje"),
    "avoid_shorts" := TextUpdate("Zero Reels/TikTok", "Marque se NÃO assistiu hoje"),
    "avoid_yt" := TextUpdate("Zero YouTube", "Marque se NÃO assistiu hoje"),
    "no_nicotine" := TextUpdate("Zero Nicotina", "Manter-se livre do vício")
  ]

  /** `updateHabit`: a listed habit takes the new title and description and
      keeps everything else, the user's `enabled`, `streak` and `whyChosen`
      included; any other habit is returned as it is. */
  function UpdateHabit(h: Habit): (r: Habit)
    ensures r.(title := h.title, description := h.description) == h
    ensures h.id !in HabitUpdates ==> r == h
    ensures h.id in HabitUpdates ==>
              r.title == HabitUpdates[h.id].title && r.description == Some(HabitUpdates[h.id].description)
  {
    if h.id in HabitUpdates then
      var u := HabitUpdates[h.id];
      h.(title := u.title, description := Some(u.description), enabled := h.enabled, streak := h.streak,
         whyChosen := h.whyChosen)
    else h
  }

  /** `currentHabits.map(updateHabit)`. */
  function UpdateHabits(habits: seq<Habit>): (r: seq<Habit>)
    ensures |r| == |habits|
    ensures forall i :: 0 <= i < |r| ==> r[i] == UpdateHabit(habits[i])
  {
    seq(|habits|, i requires 0 <= i < |habits| => UpdateHabit(habits[i]))
  }

  /** Running the update again changes nothing, and ids stay in place. */
  lemma UpdateIdempotent(habits: seq<Habit>)
    ensures UpdateHabits(UpdateHabits(habits)) == UpdateHabits(habits)
    ensures forall i :: 0 <= i < |habits| ==> UpdateHabits(habits)[i].id == habits[i].id
  {
    var r := UpdateHabits(habits);
    var r2 := UpdateHabits(r);
    forall i | 0 <= i < |habits|
      ensures r2[i] == r[i] && r[i].id == habits[i].id
    {
    }
  }

  /** `hasChanges`: some position differs in title or description. */
  predicate HasChanges(current: seq<Habit>, updated: seq<Habit>)
    requires |current| == |updated|
  {
    exists i :: 0 <= i < |current| && (updated[i].title != current[i].title || updated[i].description != current[i].description)
  }

  /** A habit the update would rewrite. */
  predicate Stale(h: Habit) {
    h.id in HabitUpdates
    && (h.title != HabitUpdates[h.id].title || h.description != Some(HabitUpdates[h.id].description))
  }

  /** A protocol is saved exactly when some listed habit carries old texts,
      and a protocol that was just migrated never counts as changed again. */
  lemma HasChangesIffStale(habits: seq<Habit>)
    ensures HasChanges(habits, UpdateHabits(habits)) <==> exists i :: 0 <= i < |habits| && Stale(habits[i])
    ensures !HasChanges(UpdateHabits(habits), UpdateHabits(UpdateHabits(habits)))
  {
    var r := UpdateHabits(habits);
    if HasChanges(habits, r) {
      var i :| 0 <= i < |habits| && (r[i].title != habits[i].title || r[i].description != habits[i].description);
      assert Stale(habits[i]);
    }
    if exists i :: 0 <= i < |habits| && Stale(habits[i]) {
      var i :| 0 <= i < |habits| && Stale(habits[i]);
      assert r[i].title != habits[i].title || r[i].description != habits[i].description;
    }
    UpdateIdempotent(habits);
  }

  // ---- habitsChanged ----

  /** How many of the first `n` positions hold habit `k` with a new title. */
  function TitleChanges(current: seq<Habit>, updated: seq<Habit>, k: string, n: nat): (c: nat)
    requires n <= |current| == |updated|
    ensures c <= n
  {
    if n == 0 then 0
    else TitleChanges(current, updated, k, n - 1)
         + (if updated[n - 1].id == k && updated[n - 1].title != current[n - 1].title then 1 else 0)
  }

  function Get(counts: map<string, nat>, k: string): nat {
    if k in counts then counts[k] else 0
  }

  /** The `habitsChanged` tally for one user: every position whose title
      changed adds one to its habit's count; a description-only change adds
      nothing, and no other key appears. */
  method CountTitleChanges(counts: map<string, nat>, current: seq<Habit>, updated: seq<Habit>)
    returns (r: map<string, nat>)
    requires |current| == |updated|
    ensures forall k :: Get(r, k) == Get(counts, k) + TitleChanges(current, updated, k, |current|)
    ensures forall k :: k in r <==> k in counts || TitleChanges(current, updated, k, |current|) > 0
  {
    r := counts;
    var idx := 0;
    while idx < |updated|
      invariant 0 <= idx <= |updated|
      invariant forall k :: Get(r, k) == Get(counts, k) + TitleChanges(current, updated, k, idx)
      invariant forall k :: k in r <==> k in counts || TitleChanges(current, updated, k, idx) > 0
    {
      var habit := updated[idx];
      if habit.title != current[idx].title {
        r := r[habit.id := Get(r, habit.id) + 1];
      }
      idx := idx + 1;
    }
  }

  /** Only titles are counted: positions whose titles all agree leave the
      tally as it was, whatever happened to the descriptions. */
  lemma {:induction false} SameTitlesCountNothing(current: seq<Habit>, updated: seq<Habit>, k: string, n: nat)
    requires n <= |current| == |updated|
    requires forall i :: 0 <= i < n ==> updated[i].title == current[i].title
    ensures TitleChanges(current, updated, k, n) == 0
  {
    if n > 0 {
      SameTitlesCountNothing(current, updated, k, n - 1);
    }
  }

  // ---- Agreement with the library ----

  /** Where the script's texts for an id are those of the `k`-th library
      entry, the script and the abstinence migration agree on that id. */
  lemma AgreesAt(h: Habit, k: int)
    requires 0 <= k < |Catalog.LibraryIds| && h.id == Catalog.LibraryIds[k]
    requires h.id in HabitUpdates && h.id in Migration.AbstinenceIds
    requires Catalog.Library[k].title == HabitUpdates[h.id].title
    requires Catalog.Library[k].description == Some(HabitUpdates[h.id].description)
    ensures UpdateHabit(h) == Migration.AbstinenceHabit(Catalog.Library, h)
  {
    Catalog.Found(h.id, k);
  }

  lemma NicotineAgrees(h: Habit)
    requires h.id == "no_nicotine"
    ensures UpdateHabit(h) == Migration.AbstinenceHabit(Catalog.Library, h)
  {
    AgreesAt(h, 18);
  }

  lemma AlcoholAgrees(h: Habit)
    requires h.id == "avoid_alcohol"
    ensures UpdateHabit(h) == Migration.AbstinenceHabit(Catalog.Library, h)
  {
    AgreesAt(h, 19);
  }

  lemma CannabisAgrees(h: Habit)
    requires h.id == "avoid_cannabis"
    ensures UpdateHabit(h) == Migration.AbstinenceHabit(Catalog.Library, h)
  {
    AgreesAt(h, 20);
  }

  lemma GamesAgrees(h: Habit)
    requires h.id == "avoid_games"
    ensures UpdateHabit(h) == Migration.AbstinenceHabit(Catalog.Library, h)
  {
    AgreesAt(h, 21);
  }

  lemma ShortsAgrees(h: Habit)
    requires h.id == "avoid_shorts"
    ensures UpdateHabit(h) == Migration.AbstinenceHabit(Catalog.Library, h)
  {
    AgreesAt(h, 22);
  }

  lemma YouTubeAgrees(h: Habit)
    requires h.id == "avoid_yt"
    ensures UpdateHabit(h) == Migration.AbstinenceHabit(Catalog.Library, h)
  {
    AgreesAt(h, 23);
  }

  /** The script's texts are the library's current ones, so on any habit it
      does exactly what the service's abstinence migration does with the
      habit library. */
  lemma AgreesWithAbstinenceMigration(h: Habit)
    ensures UpdateHabit(h) == Migration.AbstinenceHabit(Catalog.Library, h)
  {
    if h.id == "no_nicotine" {
      NicotineAgrees(h);
    } else if h.id == "avoid_alcohol" {
      AlcoholAgrees(h);
    } else if h.id == "avoid_cannabis" {
      CannabisAgrees(h);
    } else if h.id == "avoid_games" {
      GamesAgrees(h);
    } else if h.id == "avoid_shorts" {
      ShortsAgrees(h);
    } else if h.id == "avoid_yt" {
      YouTubeAgrees(h);
    } else {
      assert h.id !in HabitUpdates && h.id !in Migration.AbstinenceIds;
    }
  }
}
