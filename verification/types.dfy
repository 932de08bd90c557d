/** The application's data model: habit categories, frequencies, times of day,
    the habit record, log values and the per-date log. */
module Types {

  datatype Option<+T> = None | Some(value: T)

  /** The five habit categories, in declaration order. */
  datatype Category = Saude | Mente | Vicios | Social | Produtividade

  const AllCategories: seq<Category> := [Saude, Mente, Vicios, Social, Produtividade]

  datatype Frequency = Daily | Weekly

  /** The four declared times of day; `OtherTime` stands for a stored value
      outside the declared type, which the time-of-day cycle has to cope with. */
  datatype TimeOfDay = Morning | Afternoon | Evening | AnyTime | OtherTime(raw: string)

  const AllTimes: seq<TimeOfDay> := [Morning, Afternoon, Evening, AnyTime]

  predicate DeclaredTime(t: TimeOfDay) {
    !t.OtherTime?
  }

  /** Unit tags that change how a habit is scored. */
  const UnitBool: string := "bool"
  const UnitCount: string := "x"
  const UnitMax: string := "max_x"

  /** A catalog entry: a habit without the per-user `enabled` and `streak`. */
  datatype Template = Template(
    id: string,
    title: string,
    category: Category,
    frequency: Frequency,
    targetCount: int,
    unit: string,
    description: Option<string>,
    scienceTip: Option<string>,
    timeOfDay: TimeOfDay,
    weight: int)

  /** A user's habit. `weight` is 1 (low), 2 (medium) or 3 (high) by
      convention; 0 stands for a missing weight. */
  datatype Habit = Habit(
    id: string,
    title: string,
    category: Category,
    frequency: Frequency,
    targetCount: int,
    unit: string,
    description: Option<string>,
    scienceTip: Option<string>,
    enabled: bool,
    timeOfDay: TimeOfDay,
    streak: Option<int>,
    whyChosen: Option<string>,
    weight: int)

  /** A logged value: a check mark or a number (a count, or a mood 1..5). */
  datatype Value = Bool(b: bool) | Num(n: int)

  /** One date's record, from habit id (or "mood") to value. */
  type DayRecord = map<string, Value>

  /** The log, keyed by day number (days since 1970-01-01). */
  type Log = map<int, DayRecord>

  const MoodKey: string := "mood"

  /** JavaScript truthiness of a stored value (`!!v`). */
  predicate Truthy(v: Value) {
    match v
    case Bool(b) => b
    case Num(n) => n != 0
  }

  /** The record of a date, `{}` when the date has no entry. */
  function DayOf(logs: Log, day: int): (r: DayRecord)
    ensures day in logs ==> r == logs[day]
    ensures day !in logs ==> r == map[]
  {
    if day in logs then logs[day] else map[]
  }

  /** `!!logs[day]?.[id]`: the habit is logged truthy on that day. */
  predicate DoneOn(logs: Log, day: int, id: string) {
    var rec := DayOf(logs, day);
    id in rec && Truthy(rec[id])
  }

  /** `h.weight || 2`: a missing (zero) weight counts as 2. */
  function EffWeight(h: Habit): (w: int)
    ensures h.weight != 0 ==> w == h.weight
    ensures h.weight == 0 ==> w == 2
    ensures w != 0
  {
    if h.weight == 0 then 2 else h.weight
  }

  predicate IsMaxType(h: Habit) {
    h.unit == UnitMax
  }

  predicate NonNegWeights(habits: seq<Habit>) {
    forall i :: 0 <= i < |habits| ==> habits[i].weight >= 0
  }

  predicate UniqueIds(habits: seq<Habit>) {
    forall i, j :: 0 <= i < j < |habits| ==> habits[i].id != habits[j].id
  }

  predicate HasId(habits: seq<Habit>, id: string) {
    exists i :: 0 <= i < |habits| && habits[i].id == id
  }

  /** The habit a catalog entry becomes for a user. */
  function FromTemplate(t: Template, enabled: bool, streak: Option<int>, why: Option<string>): (h: Habit)
    ensures h.id == t.id && h.title == t.title && h.category == t.category
    ensures h.frequency == t.frequency && h.targetCount == t.targetCount && h.unit == t.unit
    ensures h.description == t.description && h.scienceTip == t.scienceTip
    ensures h.timeOfDay == t.timeOfDay && h.weight == t.weight
    ensures h.enabled == enabled && h.streak == streak && h.whyChosen == why
  {
    Habit(t.id, t.title, t.category, t.frequency, t.targetCount, t.unit, t.description,
          t.scienceTip, enabled, t.timeOfDay, streak, why, t.weight)
  }

  lemma CategoriesDistinct()
    ensures |AllCategories| == 5
    ensures forall i, j :: 0 <= i < j < |AllCategories| ==> AllCategories[i] != AllCategories[j]
    ensures forall c: Category :: c in AllCategories
  {
    forall c: Category
      ensures c in AllCategories
    {
      match c
      case Saude => assert AllCategories[0] == c;
      case Mente => assert AllCategories[1] == c;
      case Vicios => assert AllCategories[2] == c;
      case Social => assert AllCategories[3] == c;
      case Produtividade => assert AllCategories[4] == c;
    }
  }

  lemma TimesDistinct()
    ensures |AllTimes| == 4
    ensures forall i, j :: 0 <= i < j < |AllTimes| ==> AllTimes[i] != AllTimes[j]
    ensures forall t: TimeOfDay :: DeclaredTime(t) <==> t in AllTimes
  {
  }
}
