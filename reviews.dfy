/** The review record shared by both dashboards: its eight columns, the
    fixed display identities, the star widget mapping, the row layout
    appended to the store, and the intake step that turns a submitted form
    into a record. */
module Reviews {
  import opened Wrappers
  import opened AiContent

  /** One stored review, one field per column. */
  datatype Record = Record(
    timestamp: string,
    rating: int,
    reviewText: string,
    aiReply: string,
    aiSummary: string,
    aiAction: string,
    userName: string,
    avatar: string)

  const TimestampColumn: string := "timestamp"
  const RatingColumn: string := "rating"
  const ReviewTextColumn: string := "review_text"
  const ReplyColumn: string := "ai_reply"
  const SummaryColumn: string := "ai_summary"
  const ActionColumn: string := "ai_action"
  const UserNameColumn: string := "user_name"
  const AvatarColumn: string := "avatar"

  /** The column headers, in the order the store declares them. */
  const Columns: seq<string> :=
    [TimestampColumn, RatingColumn, ReviewTextColumn, ReplyColumn, SummaryColumn, ActionColumn, UserNameColumn, AvatarColumn]

  /** The display names a new review may be given. */
  const FakeNames: seq<string> :=
    ["Alex R.", "Sam K.", "Jordan P.", "Casey M.", "Taylor S.", "Priya D.", "Rohan G."]

  /** The avatars a new review may be given (dog, cat, fox, bear, panda, koala, tiger faces). */
  const FakeAvatars: seq<string> :=
    ["\U{1F436}", "\U{1F431}", "\U{1F98A}", "\U{1F43B}", "\U{1F43C}", "\U{1F428}", "\U{1F42F}"]

  /** The star widget: it reports the clicked star as an index 0..4, or
      nothing when no star was clicked. */
  function StarValue(selection: Option<nat>): (stars: int)
    requires selection.Some? ==> selection.value < 5
    ensures 1 <= stars <= 5
    ensures selection.Some? ==> stars - 1 == selection.value
    ensures selection.None? ==> stars == 5
  {
    match selection
    case Some(i) => i + 1
    case None => 5
  }

  /** The record `save_entry` builds; `nameIndex` and `avatarIndex` stand
      for the two `random.choice` draws and `date` for today's date. */
  function NewRecord(date: string, rating: int, text: string, reply: string, summary: string,
                     action: string, nameIndex: nat, avatarIndex: nat): (r: Record)
    requires nameIndex < |FakeNames| && avatarIndex < |FakeAvatars|
    ensures r.userName in FakeNames && r.avatar in FakeAvatars
    ensures r.timestamp == date && r.rating == rating && r.reviewText == text
    ensures r.aiReply == reply && r.aiSummary == summary && r.aiAction == action
  {
    Record(date, rating, text, reply, summary, action, FakeNames[nameIndex], FakeAvatars[avatarIndex])
  }

  /** One cell of a stored row. */
  datatype Cell = TextCell(text: string) | IntCell(value: int)

  /** The value of the field a column name designates, as a reader keyed by
      header name sees it. */
  function FieldNamed(r: Record, name: string): Option<Cell>
  {
    if name == TimestampColumn then Some(TextCell(r.timestamp))
    else if name == RatingColumn then Some(IntCell(r.rating))
    else if name == ReviewTextColumn then Some(TextCell(r.reviewText))
    else if name == ReplyColumn then Some(TextCell(r.aiReply))
    else if name == SummaryColumn then Some(TextCell(r.aiSummary))
    else if name == ActionColumn then Some(TextCell(r.aiAction))
    else if name == UserNameColumn then Some(TextCell(r.userName))
    else if name == AvatarColumn then Some(TextCell(r.avatar))
    else None
  }

  /** The row appended for a record: one cell per column, in header order. */
  function ToRow(r: Record): (row: seq<Cell>)
    ensures |row| == |Columns|
    ensures forall i :: 0 <= i < |Columns| ==> FieldNamed(r, Columns[i]) == Some(row[i])
  {
    Layout(r)
  }

  /** Position of the first header equal to `name`. */
  function HeaderIndex(header: seq<string>, name: string): (r: Option<nat>)
    ensures r.Some? ==> r.value < |header| && header[r.value] == name
    ensures r.None? ==> name !in header
  {
    if header == [] then None
    else if header[0] == name then Some(0)
    else match HeaderIndex(header[1..], name)
      case None => None
      case Some(k) => Some(k + 1)
  }

  /** The cell under the column called `name`. */
  function CellNamed(header: seq<string>, row: seq<Cell>, name: string): Option<Cell>
  {
    match HeaderIndex(header, name)
    case Some(i) => if i < |row| then Some(row[i]) else None
    case None => None
  }

  function TextNamed(header: seq<string>, row: seq<Cell>, name: string): Option<string>
  {
    match CellNamed(header, row, name)
    case Some(TextCell(s)) => Some(s)
    case _ => None
  }

  /** Reads a row back by header name, as a keyed reader of the store does. */
  function FromRow(header: seq<string>, row: seq<Cell>): Option<Record>
  {
    var ts := TextNamed(header, row, TimestampColumn);
    var rating := CellNamed(header, row, RatingColumn);
    var text := TextNamed(header, row, ReviewTextColumn);
    var reply := TextNamed(header, row, ReplyColumn);
    var summary := TextNamed(header, row, SummaryColumn);
    var action := TextNamed(header, row, ActionColumn);
    var name := TextNamed(header, row, UserNameColumn);
    var avatar := TextNamed(header, row, AvatarColumn);
    if ts.Some? && rating.Some? && rating.value.IntCell? && text.Some? && reply.Some?
       && summary.Some? && action.Some? && name.Some? && avatar.Some?
    then Some(Record(ts.value, rating.value.value, text.value, reply.value, summary.value,
                     action.value, name.value, avatar.value))
    else None
  }

  /** The first header equal to `name` sits at position `i`. */
  lemma HeaderAt(header: seq<string>, name: string, i: nat)
    requires i < |header| && header[i] == name
    requires forall j :: 0 <= j < i ==> header[j] != name
    ensures HeaderIndex(header, name) == Some(i)
  {
    if i > 0 {
      HeaderAt(header[1..], name, i - 1);
    }
  }

  /** The headers are pairwise distinct, so every column is found at its
      own position. */
  lemma ColumnsAt(i: nat)
    requires i < |Columns|
    ensures HeaderIndex(Columns, Columns[i]) == Some(i)
  {
    assert forall j, k :: 0 <= j < k < |Columns| ==> Columns[j] != Columns[k];
    HeaderAt(Columns, Columns[i], i);
  }

  /** A row laid out in header order reads back, by header name, as the
      record it was built from. */
  lemma RowRoundTrip(r: Record)
    ensures FromRow(Columns, ToRow(r)) == Some(r)
  {
    var row := ToRow(r);
    assert row == Layout(r);
    LayoutFields(r);
  }

  /** The row laid out in header order, without the contract of `ToRow`. */
  function Layout(r: Record): seq<Cell>
  {
    [TextCell(r.timestamp), IntCell(r.rating), TextCell(r.reviewText), TextCell(r.aiReply),
     TextCell(r.aiSummary), TextCell(r.aiAction), TextCell(r.userName), TextCell(r.avatar)]
  }

  /** Each field of the record sits under its own column of the row. */
  lemma LayoutFields(r: Record)
    ensures var row := Layout(r);
      && TextNamed(Columns, row, TimestampColumn) == Some(r.timestamp)
      && CellNamed(Columns, row, RatingColumn) == Some(IntCell(r.rating))
      && TextNamed(Columns, row, ReviewTextColumn) == Some(r.reviewText)
      && TextNamed(Columns, row, ReplyColumn) == Some(r.aiReply)
      && TextNamed(Columns, row, SummaryColumn) == Some(r.aiSummary)
      && TextNamed(Columns, row, ActionColumn) == Some(r.aiAction)
      && TextNamed(Columns, row, UserNameColumn) == Some(r.userName)
      && TextNamed(Columns, row, AvatarColumn) == Some(r.avatar)
  {
    var row := Layout(r);
    CellAt(row, 0); CellAt(row, 1); CellAt(row, 2); CellAt(row, 3);
    CellAt(row, 4); CellAt(row, 5); CellAt(row, 6); CellAt(row, 7);
  }

  lemma CellAt(row: seq<Cell>, i: nat)
    requires |row| == |Columns| && i < |Columns|
    ensures CellNamed(Columns, row, Columns[i]) == Some(row[i])
  {
    ColumnsAt(i);
  }

  /** The submit handler: nothing happens for an empty review; otherwise the
      widget selection becomes the rating, the two generations become the
      reply and the parsed analysis, and the record is assembled. */
  function Intake(text: string, selection: Option<nat>, reply: Generation, analysis: Generation,
                  date: string, nameIndex: nat, avatarIndex: nat): (r: Option<Record>)
    requires selection.Some? ==> selection.value < 5
    requires nameIndex < |FakeNames| && avatarIndex < |FakeAvatars|
    ensures r.None? <==> text == ""
    ensures r.Some? ==>
      && 1 <= r.value.rating <= 5
      && r.value.rating == StarValue(selection)
      && r.value.reviewText == text
      && r.value.timestamp == date
      && r.value.aiReply == ReplyText(reply)
      && Analysis(r.value.aiSummary, r.value.aiAction) == ParseAnalysis(ReplyText(analysis))
      && r.value.userName in FakeNames && r.value.avatar in FakeAvatars
  {
    if text == "" then None
    else
      var parsed := ParseAnalysis(ReplyText(analysis));
      Some(NewRecord(date, StarValue(selection), text, ReplyText(reply), parsed.summary, parsed.action,
                     nameIndex, avatarIndex))
  }

  /** What the public tab shows: a notice when there is nothing to show, or
      a review count (when it is displayed) and the reviews, newest first. */
  datatype Feed = NoReviewsYet | Listing(shownCount: Option<nat>, items: seq<Record>)
}
