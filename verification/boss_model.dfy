/** The `bosses` table row, its status enumeration, and the aggregate
    statistics record shown by the stream overlay. */
module BossModel {
  import opened Optional

  /** The three values of the `boss_status` enumeration. */
  datatype BossStatus = NotStarted | InProgress | Completed

  /** The two players whose levels and deaths are tracked per boss. */
  datatype Player = Emily | Agent

  /** One row of `bosses`. Every column except `id`, `name` and
      `orderIndex` is nullable; levels and death counts are nullable
      independently for each player. Numbers are exact integers. */
  datatype Boss = Boss(
    id: string,
    name: string,
    status: Option<BossStatus>,
    startTime: Option<string>,
    endTime: Option<string>,
    levelEmily: Option<int>,
    levelAgent: Option<int>,
    deathCountEmily: Option<int>,
    deathCountAgent: Option<int>,
    clipLink: Option<string>,
    orderIndex: int,
    createdAt: Option<string>,
    updatedAt: Option<string>)
  {
    function Level(p: Player): Option<int> {
      match p
      case Emily => levelEmily
      case Agent => levelAgent
    }

    function DeathCount(p: Player): Option<int> {
      match p
      case Emily => deathCountEmily
      case Agent => deathCountAgent
    }
  }

  /** The overlay's aggregate: exactly eight numbers. */
  datatype ProgressStats = ProgressStats(
    total: int,
    completed: int,
    inProgress: int,
    notStarted: int,
    completionPercentage: int,
    totalDeaths: int,
    averageLevelEmily: int,
    averageLevelAgent: int)

  /** The text the database and the views use for each status: each status
      has its own one of the enumeration's three labels. */
  function StatusLabel(s: BossStatus): (text: string)
    ensures text == "Not Started" <==> s == NotStarted
    ensures text == "In Progress" <==> s == InProgress
    ensures text == "Completed" <==> s == Completed
  {
    match s
    case NotStarted => "Not Started"
    case InProgress => "In Progress"
    case Completed => "Completed"
  }

  /** Reads a stored status text. Exactly the three labels are accepted,
      each as the status it names; any other text is not a status. */
  function ParseStatus(text: string): (r: Option<BossStatus>)
    ensures r.Some? ==> StatusLabel(r.value) == text
    ensures r.None? ==> forall s: BossStatus :: StatusLabel(s) != text
  {
    if text == "Not Started" then Some(NotStarted)
    else if text == "In Progress" then Some(InProgress)
    else if text == "Completed" then Some(Completed)
    else None
  }

  /** Distinct statuses have distinct labels, so parsing a label gives back its status. */
  lemma StatusLabelRoundTrip(s: BossStatus)
    ensures ParseStatus(StatusLabel(s)) == Some(s)
  {
  }

  /** JavaScript's `x || 0` on a nullable number: `null` (and `NaN`) become 0,
      any other value is kept (0 stays 0). */
  function OrZero(x: Option<int>): (r: int)
    ensures x == Some(r) || (x.None? && r == 0)
  {
    x.GetOr(0)
  }
}
