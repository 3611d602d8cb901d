/** How a row's status is shown: the badge text with its null default, and
    the three-way badge style. Both the boss card and the admin table use
    the same selection, with different class strings. */
module StatusDisplay {
  import opened Optional
  import opened BossModel

  /** The three outcomes of `getStatusColor`; the class strings themselves
      are presentation only. */
  datatype StatusStyle = CompletedStyle | InProgressStyle | DefaultStyle

  /** `switch (status)` with a `default` arm: Completed and In Progress have
      their own style, Not Started and null share the default. */
  function StatusStyleOf(status: Option<BossStatus>): (style: StatusStyle)
    ensures style == CompletedStyle <==> status == Some(Completed)
    ensures style == InProgressStyle <==> status == Some(InProgress)
    ensures style == DefaultStyle <==> status == None || status == Some(NotStarted)
  {
    match status
    case Some(Completed) => CompletedStyle
    case Some(InProgress) => InProgressStyle
    case _ => DefaultStyle
  }

  /** `boss.status || "Not Started"`: the badge text, and the value the edit
      form's status selector starts on. */
  function ShownStatus(status: Option<BossStatus>): (text: string)
    ensures ParseStatus(text) == Some(status.GetOr(NotStarted))
  {
    StatusLabelRoundTrip(status.GetOr(NotStarted));
    match status
    case None => "Not Started"
    case Some(s) => StatusLabel(s)
  }

  /** The badge's text and its style agree: styling the status that the
      text names gives the style of the stored status, null included. */
  lemma StyleMatchesShownText(status: Option<BossStatus>)
    ensures ParseStatus(ShownStatus(status)).Some?
    ensures StatusStyleOf(ParseStatus(ShownStatus(status))) == StatusStyleOf(status)
  {
  }

  /** A null status is shown exactly as a stored "Not Started" is. */
  lemma NullShownAsNotStarted()
    ensures ShownStatus(None) == ShownStatus(Some(NotStarted))
    ensures StatusStyleOf(None) == StatusStyleOf(Some(NotStarted))
  {
  }
}
