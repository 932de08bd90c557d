/** The end of onboarding (`components/Onboarding.tsx`): the survey answers,
    the goal toggle, and the protocol of library habits a new user starts
    with, generated from the answers by fixed rules. */
module Onboarding {
  import opened Types
  import Catalog

  datatype Activity = Sedentary | Moderate | Active
  datatype Diet = Poor | Average | Good
  datatype Relationship = Single | Dating | Married
  datatype Battery = Introvert | Extrovert | Ambivert
  datatype Drinking = Never | Socially | Often

  /** The survey. Sleep quality and stress are on a 1..10 scale by
      convention; nothing enforces it. */
  datatype Survey = Survey(
    sleepQuality: int,
    stressLevel: int,
    activityLevel: Activity,
    dietQuality: Diet,
    relationshipStatus: Relationship,
    socialBattery: Battery,
    smokes: bool,
    alcoholFreq: Drinking,
    cannabisUser: bool,
    screenTimeIssue: bool,
    primaryGoals: seq<string>)

  /** The answers the survey starts from. */
  const DefaultSurvey: Survey :=
    Survey(5, 5, Moderate, Average, Dating, Ambivert, false, Socially, false, true, ["energy"])

  // ---- Goals ----

  /** The goals other than `g`, in order. */
  function Without(goals: seq<string>, g: string): (r: seq<string>)
    ensures g !in r
    ensures forall x :: x != g ==> (x in r <==> x in goals)
    ensures |r| <= |goals|
  {
    if goals == [] then []
    else (if goals[0] == g then [] else [goals[0]]) + Without(goals[1..], g)
  }

  /** `toggleGoal`: a chosen goal is dropped (every copy of it), any other is
      appended; no other answer changes. */
  function ToggleGoal(a: Survey, g: string): (r: Survey)
    ensures g in r.primaryGoals <==> g !in a.primaryGoals
    ensures forall x :: x != g ==> (x in r.primaryGoals <==> x in a.primaryGoals)
    ensures r == a.(primaryGoals := r.primaryGoals)
  {
    var goals := if g in a.primaryGoals then Without(a.primaryGoals, g) else a.primaryGoals + [g];
    a.(primaryGoals := goals)
  }

  lemma {:induction false} WithoutAppended(goals: seq<string>, g: string)
    requires g !in goals
    ensures Without(goals + [g], g) == goals
  {
    if goals == [] {
      assert [g][1..] == [];
    } else {
      assert (goals + [g])[1..] == goals[1..] + [g];
      WithoutAppended(goals[1..], g);
    }
  }

  /** Choosing a goal and dropping it again gives the answers back. */
  lemma ToggleGoalTwice(a: Survey, g: string)
    requires g !in a.primaryGoals
    ensures ToggleGoal(ToggleGoal(a, g), g) == a
  {
    WithoutAppended(a.primaryGoals, g);
  }

  // ---- Adding one library habit ----

  /** One `add(id, overrides, why)` call; the only override the rules use is
      the weight. */
  datatype Request = Request(id: string, weight: Option<int>, why: string)

  /** The habit a library entry becomes in a new protocol: enabled, streak 0,
      the reason it was chosen, and the weight override applied last. */
  function Adopt(t: Template, weight: Option<int>, why: string): (h: Habit)
    ensures h.id == t.id && h.enabled && h.streak == Some(0) && h.whyChosen == Some(why)
    ensures weight.Some? ==> h.weight == weight.value
    ensures weight.None? ==> h.weight == t.weight
    ensures h.(weight := t.weight) == FromTemplate(t, true, Some(0), Some(why))
  {
    var h := FromTemplate(t, true, Some(0), Some(why));
    if weight.Some? then h.(weight := weight.value) else h
  }

  /** A protocol habit that is its library entry adopted, up to weight and
      reason. */
  predicate Adopted(lib: seq<Template>, h: Habit) {
    var t := Catalog.FindIn(lib, h.id);
    t.Some? && h.whyChosen.Some? && h == Adopt(t.value, Some(h.weight), h.whyChosen.value)
  }

  predicate AllAdopted(lib: seq<Template>, protocol: seq<Habit>) {
    forall i :: 0 <= i < |protocol| ==> Adopted(lib, protocol[i])
  }

  /** The inner `add` over a library `lib` (the generator passes the habit
      library): appends the adopted entry unless the id is unknown to the
      library or already in the protocol. */
  function Add(lib: seq<Template>, protocol: seq<Habit>, q: Request): (r: seq<Habit>)
    ensures |protocol| <= |r| <= |protocol| + 1 && r[..|protocol|] == protocol
    ensures HasId(r, q.id) <==> HasId(protocol, q.id) || Catalog.FindIn(lib, q.id).Some?
    ensures forall k :: k != q.id ==> (HasId(r, k) <==> HasId(protocol, k))
    ensures |r| > |protocol| ==> Catalog.FindIn(lib, q.id).Some? && !HasId(protocol, q.id)
                                 && r[|protocol|] == Adopt(Catalog.FindIn(lib, q.id).value, q.weight, q.why)
  {
    var t := Catalog.FindIn(lib, q.id);
    if t.Some? && !HasId(protocol, q.id) then
      var h := Adopt(t.value, q.weight, q.why);
      var r := protocol + [h];
      assert r[|protocol|] == h;
      assert forall k :: HasId(r, k) <==> HasId(protocol, k) || k == q.id by {
        forall k
          ensures HasId(r, k) <==> HasId(protocol, k) || k == q.id
        {
          if HasId(protocol, k) {
            var i :| 0 <= i < |protocol| && protocol[i].id == k;
            assert r[i] == protocol[i];
          }
        }
      }
      r
    else protocol
  }

  /** An add keeps ids unique and every habit an adopted library entry. */
  lemma AddKeeps(lib: seq<Template>, protocol: seq<Habit>, q: Request)
    ensures UniqueIds(protocol) ==> UniqueIds(Add(lib, protocol, q))
    ensures AllAdopted(lib, protocol) ==> AllAdopted(lib, Add(lib, protocol, q))
  {
    var r := Add(lib, protocol, q);
    if |r| > |protocol| {
      assert r == protocol + [r[|protocol|]];
    }
  }

  /** Asking twice for the same habit adds it once. */
  lemma AddIdempotent(lib: seq<Template>, protocol: seq<Habit>, q: Request)
    ensures Add(lib, Add(lib, protocol, q), q) == Add(lib, protocol, q)
  {
  }

  // ---- The rules ----

  /** The four habits every protocol asks for. */
  const Always: seq<Request> := [
    Request("sleep_7h", Some(3), "Fundamental para qualquer objetivo."),
    Request("hydration", None, "Base biológica para energia."),
    Request("environment", None, "Pequena vitória para disciplina."),
    Request("sunlight", None, "Regulação hormonal.")]

  function ExerciseRule(a: Survey): seq<Request> {
    if a.activityLevel == Sedentary
    then [Request("exercise_light", Some(2), "Começar devagar para criar constância.")]
    else [Request("exercise_heavy", Some(3), "Manter sua performance física.")]
  }

  function CalmRule(a: Survey): seq<Request> {
    if "peace" in a.primaryGoals || a.stressLevel > 6
    then [Request("meditation", Some(1), "Redução ativa de cortisol."),
          Request("gratitude", Some(1), "Reorientação mental para o positivo.")]
    else []
  }

  function ConnectionRule(a: Survey): seq<Request> {
    if "connection" in a.primaryGoals || a.relationshipStatus != Single
    then [Request("partner_connection", Some(3), "Fortalecer laços íntimos."),
          Request("kindness", Some(1), "Gerar bem-estar social.")]
    else []
  }

  function EnergyRule(a: Survey): seq<Request> {
    if "energy" in a.primaryGoals
    then [Request("cold_shower", Some(1), "Boost natural de adrenalina."),
          Request("diet_clean", Some(2), "Combustível estável.")]
    else []
  }

  function VicesRule(a: Survey): seq<Request> {
    (if a.sleepQuality < 7 then [Request("no_screens_bed", Some(2), "Melhorar higiene do sono.")] else [])
    + (if a.smokes then [Request("no_nicotine", Some(3), "Remover interferência na saúde.")] else [])
    + (if a.alcoholFreq == Often then [Request("limit_alcohol", Some(2), "Moderação para saúde.")] else [])
    + (if a.screenTimeIssue then [Request("limit_shorts", Some(3), "Recuperar dopamina.")] else [])
  }

  /** The requests in the order the rules make them. */
  function Requests(a: Survey): seq<Request> {
    Always + ExerciseRule(a) + CalmRule(a) + ConnectionRule(a) + EnergyRule(a) + VicesRule(a)
  }

  /** Some request in `qs` asks for `id`. */
  predicate Requested(qs: seq<Request>, id: string) {
    qs != [] && (qs[0].id == id || Requested(qs[1..], id))
  }

  lemma {:induction false} RequestedAppend(x: seq<Request>, y: seq<Request>, id: string)
    ensures Requested(x + y, id) <==> Requested(x, id) || Requested(y, id)
  {
    if x != [] {
      assert (x + y)[1..] == x[1..] + y;
      RequestedAppend(x[1..], y, id);
    } else {
      assert x + y == y;
    }
  }

  lemma RequestedOne(q: Request, id: string)
    ensures Requested([q], id) <==> q.id == id
  {
    assert [q][1..] == [];
  }

  lemma RequestedTwo(q1: Request, q2: Request, id: string)
    ensures Requested([q1, q2], id) <==> q1.id == id || q2.id == id
  {
    assert [q1, q2][1..] == [q2];
    RequestedOne(q2, id);
  }

  lemma RequestedAlways(id: string)
    ensures Requested(Always, id) <==> id == "sleep_7h" || id == "hydration" || id == "environment" || id == "sunlight"
  {
    assert Always == Always[..2] + Always[2..];
    RequestedAppend(Always[..2], Always[2..], id);
    RequestedTwo(Always[0], Always[1], id);
    RequestedTwo(Always[2], Always[3], id);
    assert Always[..2] == [Always[0], Always[1]];
    assert Always[2..] == [Always[2], Always[3]];
  }

  lemma RequestedOptional(c: bool, q: Request, id: string)
    ensures Requested(if c then [q] else [], id) <==> c && q.id == id
  {
    RequestedOne(q, id);
  }

  lemma RequestedVices(a: Survey, id: string)
    ensures Requested(VicesRule(a), id) <==>
              (id == "no_screens_bed" && a.sleepQuality < 7) || (id == "no_nicotine" && a.smokes)
              || (id == "limit_alcohol" && a.alcoholFreq == Often) || (id == "limit_shorts" && a.screenTimeIssue)
  {
    var s1: seq<Request> := if a.sleepQuality < 7 then [Request("no_screens_bed", Some(2), "Melhorar higiene do sono.")] else [];
    var s2: seq<Request> := if a.smokes then [Request("no_nicotine", Some(3), "Remover interferência na saúde.")] else [];
    var s3: seq<Request> := if a.alcoholFreq == Often then [Request("limit_alcohol", Some(2), "Moderação para saúde.")] else [];
    var s4: seq<Request> := if a.screenTimeIssue then [Request("limit_shorts", Some(3), "Recuperar dopamina.")] else [];
    assert VicesRule(a) == s1 + s2 + s3 + s4;
    RequestedOptional(a.sleepQuality < 7, Request("no_screens_bed", Some(2), "Melhorar higiene do sono."), id);
    RequestedOptional(a.smokes, Request("no_nicotine", Some(3), "Remover interferência na saúde."), id);
    RequestedOptional(a.alcoholFreq == Often, Request("limit_alcohol", Some(2), "Moderação para saúde."), id);
    RequestedOptional(a.screenTimeIssue, Request("limit_shorts", Some(3), "Recuperar dopamina."), id);
    RequestedAppend(s1, s2, id);
    RequestedAppend(s1 + s2, s3, id);
    RequestedAppend(s1 + s2 + s3, s4, id);
  }

  /** Which rule asks for which id. */
  lemma RequestedRules(a: Survey, id: string)
    ensures Requested(Requests(a), id) <==>
              id == "sleep_7h" || id == "hydration" || id == "environment" || id == "sunlight"
              || (id == "exercise_light" && a.activityLevel == Sedentary)
              || (id == "exercise_heavy" && a.activityLevel != Sedentary)
              || ((id == "meditation" || id == "gratitude") && ("peace" in a.primaryGoals || a.stressLevel > 6))
              || ((id == "partner_connection" || id == "kindness")
                  && ("connection" in a.primaryGoals || a.relationshipStatus != Single))
              || ((id == "cold_shower" || id == "diet_clean") && "energy" in a.primaryGoals)
              || (id == "no_screens_bed" && a.sleepQuality < 7) || (id == "no_nicotine" && a.smokes)
              || (id == "limit_alcohol" && a.alcoholFreq == Often) || (id == "limit_shorts" && a.screenTimeIssue)
  {
    var x1 := Always + ExerciseRule(a);
    var x2 := x1 + CalmRule(a);
    var x3 := x2 + ConnectionRule(a);
    var x4 := x3 + EnergyRule(a);
    RequestedAppend(Always, ExerciseRule(a), id);
    RequestedAppend(x1, CalmRule(a), id);
    RequestedAppend(x2, ConnectionRule(a), id);
    RequestedAppend(x3, EnergyRule(a), id);
    RequestedAppend(x4, VicesRule(a), id);
    RequestedAlways(id);
    RequestedVices(a, id);
    if a.activityLevel == Sedentary {
      RequestedOne(Request("exercise_light", Some(2), "Começar devagar para criar constância."), id);
    } else {
      RequestedOne(Request("exercise_heavy", Some(3), "Manter sua performance física."), id);
    }
    if "peace" in a.primaryGoals || a.stressLevel > 6 {
      RequestedTwo(Request("meditation", Some(1), "Redução ativa de cortisol."),
                   Request("gratitude", Some(1), "Reorientação mental para o positivo."), id);
    }
    if "connection" in a.primaryGoals || a.relationshipStatus != Single {
      RequestedTwo(Request("partner_connection", Some(3), "Fortalecer laços íntimos."),
                   Request("kindness", Some(1), "Gerar bem-estar social."), id);
    }
    if "energy" in a.primaryGoals {
      RequestedTwo(Request("cold_shower", Some(1), "Boost natural de adrenalina."),
                   Request("diet_clean", Some(2), "Combustível estável."), id);
    }
  }

  /** The requests applied in order: nothing already there is dropped, no id
      is doubled, and every habit stays an adopted library entry. */
  function AddAll(lib: seq<Template>, protocol: seq<Habit>, qs: seq<Request>): (r: seq<Habit>)
    ensures |protocol| <= |r| && r[..|protocol|] == protocol
    ensures UniqueIds(protocol) ==> UniqueIds(r)
    ensures AllAdopted(lib, protocol) ==> AllAdopted(lib, r)
    decreases |qs|
  {
    if qs == [] then protocol
    else
      var p := Add(lib, protocol, qs[0]);
      AddKeeps(lib, protocol, qs[0]);
      var r := AddAll(lib, p, qs[1..]);
      assert r[..|protocol|] == p[..|p|][..|protocol|];
      r
  }

  /** An id ends up in the protocol exactly when it was there, or was
      requested and is in the library. */
  lemma {:induction false} AddAllIds(lib: seq<Template>, protocol: seq<Habit>, qs: seq<Request>, k: string)
    ensures HasId(AddAll(lib, protocol, qs), k) <==> HasId(protocol, k) || (Requested(qs, k) && Catalog.FindIn(lib, k).Some?)
    decreases |qs|
  {
    if qs != [] {
      var p := Add(lib, protocol, qs[0]);
      AddAllIds(lib, p, qs[1..], k);
      assert Requested(qs, k) <==> qs[0].id == k || Requested(qs[1..], k) by {
        assert forall q :: q in qs <==> q == qs[0] || q in qs[1..];
      }
    }
  }

  /** `generateInitialHabits`. */
  function GenerateInitialHabits(a: Survey): (r: seq<Habit>)
    ensures UniqueIds(r)
    ensures AllAdopted(Catalog.Library, r)
    ensures forall i :: 0 <= i < |r| ==> r[i].enabled && r[i].streak == Some(0) && r[i].whyChosen.Some?
  {
    var r := AddAll(Catalog.Library, [], Requests(a));
    forall i | 0 <= i < |r|
      ensures r[i].enabled && r[i].streak == Some(0) && r[i].whyChosen.Some?
    {
      assert Adopted(Catalog.Library, r[i]);
    }
    r
  }

  /** A generated protocol holds an id exactly when the rules request it and
      the library has it. */
  lemma GeneratedIff(a: Survey, id: string)
    ensures HasId(GenerateInitialHabits(a), id) <==> Requested(Requests(a), id) && Catalog.LibraryFind(id).Some?
  {
    AddAllIds(Catalog.Library, [], Requests(a), id);
  }

  /** The protocol always opens with sleep, at high weight. */
  lemma SleepFirst(a: Survey)
    ensures |GenerateInitialHabits(a)| > 0
    ensures GenerateInitialHabits(a)[0].id == "sleep_7h"
    ensures GenerateInitialHabits(a)[0].weight == 3
  {
    var qs := Requests(a);
    Catalog.Found("sleep_7h", 0);
    var p := Add(Catalog.Library, [], qs[0]);
    assert |p| == 1;
    var r := AddAll(Catalog.Library, p, qs[1..]);
    assert r == GenerateInitialHabits(a);
    assert r[..1] == p;
    assert r[0] == p[0];
  }

  /** For an id the library has, the protocol holds it exactly when a rule
      asks for it. */
  lemma InLibrary(a: Survey, id: string, k: int)
    requires 0 <= k < |Catalog.LibraryIds| && Catalog.LibraryIds[k] == id
    ensures HasId(GenerateInitialHabits(a), id) <==> Requested(Requests(a), id)
  {
    Catalog.Found(id, k);
    GeneratedIff(a, id);
  }

  lemma LightExercise(a: Survey)
    ensures HasId(GenerateInitialHabits(a), "exercise_light") <==> a.activityLevel == Sedentary
  {
    assert Requested(Requests(a), "exercise_light") <==> a.activityLevel == Sedentary by {
      RequestedRules(a, "exercise_light");
    }
    InLibrary(a, "exercise_light", 4);
  }

  lemma HeavyExercise(a: Survey)
    ensures HasId(GenerateInitialHabits(a), "exercise_heavy") <==> a.activityLevel != Sedentary
  {
    assert Requested(Requests(a), "exercise_heavy") <==> a.activityLevel != Sedentary by {
      RequestedRules(a, "exercise_heavy");
    }
    InLibrary(a, "exercise_heavy", 5);
  }

  /** Exactly one exercise habit: the light one for a sedentary user, the
      intense one for everybody else. */
  lemma ExactlyOneExercise(a: Survey)
    ensures HasId(GenerateInitialHabits(a), "exercise_light") != HasId(GenerateInitialHabits(a), "exercise_heavy")
    ensures HasId(GenerateInitialHabits(a), "exercise_light") <==> a.activityLevel == Sedentary
  {
    LightExercise(a);
    HeavyExercise(a);
  }

  /** Meditation for a user who seeks peace or reports stress above 6. */
  lemma Meditation(a: Survey)
    ensures HasId(GenerateInitialHabits(a), "meditation") <==> "peace" in a.primaryGoals || a.stressLevel > 6
  {
    assert Requested(Requests(a), "meditation") <==> "peace" in a.primaryGoals || a.stressLevel > 6 by {
      RequestedRules(a, "meditation");
    }
    InLibrary(a, "meditation", 8);
  }

  /** Gratitude under the same condition, so the two come together. */
  lemma Gratitude(a: Survey)
    ensures HasId(GenerateInitialHabits(a), "gratitude") <==> "peace" in a.primaryGoals || a.stressLevel > 6
  {
    assert Requested(Requests(a), "gratitude") <==> "peace" in a.primaryGoals || a.stressLevel > 6 by {
      RequestedRules(a, "gratitude");
    }
    InLibrary(a, "gratitude", 9);
  }

  /** The partner habit for a user who seeks connection or is not single. */
  lemma PartnerConnection(a: Survey)
    ensures HasId(GenerateInitialHabits(a), "partner_connection") <==> "connection" in a.primaryGoals || a.relationshipStatus != Single
  {
    assert Requested(Requests(a), "partner_connection") <==> "connection" in a.primaryGoals || a.relationshipStatus != Single by {
      RequestedRules(a, "partner_connection");
    }
    InLibrary(a, "partner_connection", 12);
  }

  /** Cold showers exactly for a user whose goals include energy. */
  lemma ColdShower(a: Survey)
    ensures HasId(GenerateInitialHabits(a), "cold_shower") <==> "energy" in a.primaryGoals
  {
    assert Requested(Requests(a), "cold_shower") <==> "energy" in a.primaryGoals by {
      RequestedRules(a, "cold_shower");
    }
    InLibrary(a, "cold_shower", 3);
  }

  /** No screens before bed exactly when sleep quality is below 7. */
  lemma ScreensBeforeBed(a: Survey)
    ensures HasId(GenerateInitialHabits(a), "no_screens_bed") <==> a.sleepQuality < 7
  {
    assert Requested(Requests(a), "no_screens_bed") <==> a.sleepQuality < 7 by {
      RequestedRules(a, "no_screens_bed");
    }
    InLibrary(a, "no_screens_bed", 10);
  }

  /** Nicotine abstinence exactly for smokers. */
  lemma NicotineIffSmokes(a: Survey)
    ensures HasId(GenerateInitialHabits(a), "no_nicotine") <==> a.smokes
  {
    assert Requested(Requests(a), "no_nicotine") <==> a.smokes by {
      RequestedRules(a, "no_nicotine");
    }
    InLibrary(a, "no_nicotine", 18);
  }

  /** The alcohol-limit rule asks for a habit the library does not have, so
      it never adds anything. */
  lemma NoAlcoholLimit(a: Survey)
    ensures !HasId(GenerateInitialHabits(a), "limit_alcohol")
  {
    Catalog.LimitIdsAbsent();
    GeneratedIff(a, "limit_alcohol");
  }

  /** Neither does the short-video rule. */
  lemma NoShortsLimit(a: Survey)
    ensures !HasId(GenerateInitialHabits(a), "limit_shorts")
  {
    Catalog.LimitIdsAbsent();
    GeneratedIff(a, "limit_shorts");
  }
}
