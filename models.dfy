/** Data model of the mood diary: the mood and month label tables, entries,
    users and the application state that the handlers update. */
module Models {

  datatype Option<T> = None | Some(value: T)

  // The five mood labels. An entry stores its mood as one of these strings.
  const MoodSad: string := "Грустное"
  const MoodCalm: string := "Спокойное"
  const MoodNeutral: string := "Нейтральное"
  const MoodHappy: string := "Радостное"
  const MoodAngry: string := "Злое"

  /** The closed set of moods an entry may carry, in declaration order. */
  const ValidMoods: seq<string> := [MoodSad, MoodCalm, MoodNeutral, MoodHappy, MoodAngry]

  /** Month names, January first; month number m is named by Months[m - 1]. */
  const Months: seq<string> := [
    "январь", "февраль", "март", "апрель", "май", "июнь",
    "июль", "август", "сентябрь", "октябрь", "ноябрь", "декабрь"
  ]

  /** One diary record: the mood felt on a (day, month) date of a year-less calendar. */
  datatype MoodEntry = MoodEntry(day: int, month: int, mood: string)

  /** A diary owner: a name and the entries in the order they were first added. */
  datatype User = User(username: string, entries: seq<MoodEntry>)

  /** The process-wide state. Only `users` is persisted; `currentUser` is the
      session's active user, held as a copy of a directory record. */
  class App {
    var users: map<string, User>
    var currentUser: Option<User>

    /** The state after a snapshot of `users` has been loaded: nobody is active yet. */
    constructor (users: map<string, User>)
      ensures this.users == users
      ensures currentUser == None
    {
      this.users := users;
      currentUser := None;
    }
  }

  ghost predicate Distinct(s: seq<string>) {
    forall i, j :: 0 <= i < j < |s| ==> s[i] != s[j]
  }

  /** ValidMoods holds exactly the five labels, each once. */
  lemma ValidMoodsAreTheFiveLabels()
    ensures |ValidMoods| == 5 && Distinct(ValidMoods)
    ensures forall m :: m in ValidMoods <==>
      m == MoodSad || m == MoodCalm || m == MoodNeutral || m == MoodHappy || m == MoodAngry
  {
  }

  /** There are twelve month names and no two are the same. */
  lemma MonthsAreTwelve()
    ensures |Months| == 12 && Distinct(Months)
  {
  }
}
